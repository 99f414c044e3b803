/** What becomes of the slot of a one-shot that is disabled when it falls due: it is lost for good. */
module LoopLostSlot {
  import opened Bytes
  import opened Scheduler
  import opened CallbackTasks
  import opened LoopModel
  import opened LoopRuns
  import opened LoopPass
  import opened LoopCompleteness
  import opened LoopAgreement
  import opened LoopMoments
  import D = LoopDisagreement

  /** Slot k is taken, its callable is at rest, and no entry names it. */
  predicate Lost(s: System, k: nat) {
    k < |s.slots| && s.slots[k].used && !s.slots[k].task.invoking
    && forall e :: e in s.entries ==> e.task != Some(Slot(k))
  }

  /** Nothing has happened to the slot but that its callable may have been enabled or disabled. */
  predicate Frozen(st: SlotState, st': SlotState) {
    && st'.used == st.used && st'.generation == st.generation && st'.releases == st.releases
    && st'.task == st.task.(enabled := st'.task.enabled)
  }

  /** No entry names a task without being active. */
  predicate Clean(s: System) {
    forall e :: e in s.entries && e.task.Some? ==> e.active
  }

  // ---- every entry with a task is active ---------------------------------------------------

  lemma {:induction false} CleanStep(s: System, s': System, task: Option<TaskRef>)
    requires Clean(s) && (Unmoved(s, s') || Added(s, s') || (task.Some? && Marked(s, s', task.value)))
    ensures Clean(s')
  {
    CompactKeeps(s.entries);
    if task.Some? {
      var marked := Unschedule(s.entries, task.value);
      CompactKeeps(marked);
      assert forall j :: 0 <= j < |marked| && marked[j].task.Some? ==> marked[j] == s.entries[j];
    }
    if Added(s, s') && s'.entries != Compact(s.entries) {
      var n := |s'.entries| - 1;
      assert s'.entries == s'.entries[..n] + [s'.entries[n]];
    }
    hide Compact;
  }

  lemma {:induction false} NextClean(m: Moment, step: Step)
    requires Clean(m.s)
    ensures Clean(Next(m, step).s)
  {
    match step
    case Perform(op) =>
      OpEntries(m.s, op);
      CleanStep(m.s, Exec(m.s, op), Target(op));
      hide Exec;
    case StartPass => CompactKeeps(m.s.entries);
    case FinishPass => CompactKeeps(m.s.entries);
    case OpenRound(i, now) =>
    case CloseRound(i, now) =>
      hide Finish;
      CloseEntries(m, i, now);
  }

  /** The end of a round concerns one entry, and names no task that was not named. */
  lemma CloseEntries(m: Moment, i: nat, now: nat)
    ensures forall e :: e in Closed(m, i, now).entries && e.task.Some? ==>
              exists x :: x in m.s.entries && x.task == e.task && x.active == e.active
  {
    var s' := Closed(m, i, now);
    forall e | e in s'.entries && e.task.Some?
      ensures exists x :: x in m.s.entries && x.task == e.task && x.active == e.active
    {
      var j :| 0 <= j < |s'.entries| && s'.entries[j] == e;
      assert m.s.entries[j] in m.s.entries;
    }
  }

  lemma {:induction false} AfterClean(m: Moment, steps: seq<Step>)
    requires Clean(m.s)
    ensures Clean(After(m, steps).s)
  {
    hide Clean, Next;
    if steps != [] {
      AfterClean(m, steps[..|steps| - 1]);
      NextClean(After(m, steps[..|steps| - 1]), steps[|steps| - 1]);
    }
  }

  /** At every moment of every run. */
  lemma {:induction false} AtClean(slots: nat, steps: seq<Step>)
    ensures Clean(At(slots, steps).s)
  {
    AfterClean(Moment(Initial(slots), Application), steps);
    hide After;
  }

  // ---- a lost slot stays lost --------------------------------------------------------------

  lemma {:induction false} OpFreezes(s: System, op: Op, k: nat)
    requires Lost(s, k)
    ensures |Exec(s, op).slots| == |s.slots| && Frozen(s.slots[k], Exec(s, op).slots[k])
  {
    hide Compact, Made, DestroyNow, Unschedule;
  }

  lemma {:induction false} OpNamesNone(s: System, op: Op, k: nat)
    requires Lost(s, k)
    ensures forall e :: e in Exec(s, op).entries ==> e.task != Some(Slot(k))
  {
    CompactKeeps(s.entries);
    if Target(op).Some? {
      CompactKeeps(Unschedule(s.entries, Target(op).value));
    }
    hide Compact, Set, Clear;
  }

  lemma {:induction false} OpLost(s: System, op: Op, k: nat)
    requires Lost(s, k)
    ensures Lost(Exec(s, op), k) && Frozen(s.slots[k], Exec(s, op).slots[k])
  {
    OpFreezes(s, op, k);
    OpNamesNone(s, op, k);
    hide Exec;
  }

  lemma {:induction false} NextLost(m: Moment, step: Step, k: nat)
    requires MomentOk(m) && Lost(m.s, k)
    ensures Lost(Next(m, step).s, k) && Frozen(m.s.slots[k], Next(m, step).s.slots[k])
  {
    match step
    case Perform(op) => OpLost(m.s, op, k);
    case StartPass => CompactKeeps(m.s.entries);
    case FinishPass => CompactKeeps(m.s.entries);
    case OpenRound(i, now) => OpenLost(m, i, now, k);
    case CloseRound(i, now) => CloseLost(m, i, now, k);
  }

  lemma {:induction false} OpenLost(m: Moment, i: nat, now: nat, k: nat)
    requires Lost(m.s, k)
    ensures Lost(Opened(m.s, i, now).s, k) && Opened(m.s, i, now).s.slots[k] == m.s.slots[k]
  {
    if Due(m.s, i, now) {
      assert m.s.entries[i] in m.s.entries;
    }
  }

  lemma {:induction false} CloseLost(m: Moment, i: nat, now: nat, k: nat)
    requires MomentOk(m) && Lost(m.s, k)
    ensures Lost(Closed(m, i, now), k) && Closed(m, i, now).slots[k] == m.s.slots[k]
  {
    CloseEntries(m, i, now);
    hide SlotOk, Clear, Leave, AfterPoll;
  }

  lemma FrozenStill(a: SlotState, b: SlotState, c: SlotState)
    requires Frozen(a, b) && Frozen(b, c)
    ensures Frozen(a, c)
  {
  }

  lemma {:induction false} AfterLost(m: Moment, steps: seq<Step>, k: nat)
    requires MomentOk(m) && Lost(m.s, k)
    ensures MomentOk(After(m, steps)) && Lost(After(m, steps).s, k)
    ensures Frozen(m.s.slots[k], After(m, steps).s.slots[k])
  {
    if steps != [] {
      var before, step := steps[..|steps| - 1], steps[|steps| - 1];
      hide Next, MomentOk, Frozen;
      AfterLost(m, before, k);
      NextOk(After(m, before), step);
      NextLost(After(m, before), step, k);
      FrozenStill(m.s.slots[k], After(m, before).s.slots[k], After(m, steps).s.slots[k]);
    } else {
      hide MomentOk;
    }
  }

  /** A round finds a slot's one-shot due and disabled, its callback does not run, and the entry is dropped. */
  lemma {:induction false} DisabledOneShotLosesSlot(s: System, i: nat, now: nat, script: seq<Op>, k: nat)
    requires Sound(s) && Clean(s) && s.running && Due(s, i, now)
    requires s.entries[i].task == Some(Slot(k)) && k < |s.slots| && !s.entries[i].periodic && !s.slots[k].task.enabled
    ensures Lost(Turn(s, i, now, script), k) && Turn(s, i, now, script).slots == s.slots
  {
    DisabledOneShotIsDropped(s, i, now, script, k);
    var s' := Turn(s, i, now, script);
    assert s' == Settled(Begun(s, i), i, now);
    forall e | e in s'.entries ensures e.task != Some(Slot(k)) {
      var j :| 0 <= j < |s'.entries| && s'.entries[j] == e;
      assert s.entries[j] in s.entries;
      assert e.task == Some(Slot(k)) ==> IsEntryOf(e, k);
    }
  }

  /** The worst of it. From such a round on, at every moment there will ever be: the slot is taken and has not been
      released, its handle is valid, its callable has not been invoked again, and yet removing it through that
      handle fails. Nobody can get the slot back. */
  lemma {:induction false} DisabledOneShotIsLostForGood(s: System, i: nat, now: nat, script: seq<Op>, k: nat,
                                                        steps: seq<Step>)
    requires Sound(s) && Clean(s) && s.running && Due(s, i, now)
    requires s.entries[i].task == Some(Slot(k)) && k < |s.slots| && !s.entries[i].periodic && !s.slots[k].task.enabled
    ensures var s' := After(Moment(Turn(s, i, now, script), Application), steps).s;
            var h := Handle(k, s.slots[k].generation);
            && k < |s'.slots| && s'.slots[k].used && s'.slots[k].releases == s.slots[k].releases
            && s'.slots[k].task.history == s.slots[k].task.history
            && Valid(s', h) && RemoveHandle(s', h).1 == false
  {
    var t := Turn(s, i, now, script);
    DisabledOneShotLosesSlot(s, i, now, script, k);
    TurnSlotsOk(s, i, now, script);
    hide Turn;
    var m := Moment(t, Application);
    AfterLost(m, steps, k);
    var s' := After(m, steps).s;
    hide After;
    assert SlotOk(k, s'.slots[k]);
  }

  /** At work, in a loop with one slot: on_delay, disable, and a pass at a time at which it is due. Whatever happens
      afterwards, nothing can be registered in that loop again, and the handle removes nothing. */
  lemma {:induction false} LastSlotIsLost(steps: seq<Step>, delay: nat, period: nat, clock: nat)
    ensures var m := At(1, [Perform(Delay(0, 0)), Perform(Disable(Handle(0, 0))),
                            StartPass, OpenRound(0, 0), CloseRound(0, 0)] + steps);
            && OnDelay(m.s, delay, clock).1 == None && OnRepeat(m.s, period, clock).1 == None
            && Valid(m.s, Handle(0, 0)) && RemoveHandle(m.s, Handle(0, 0)).1 == false
  {
    var first := [Perform(Delay(0, 0)), Perform(Disable(Handle(0, 0))), StartPass, OpenRound(0, 0), CloseRound(0, 0)];
    var start := Moment(Initial(1), Application);
    AfterConcat(start, first, steps);
    AtOk(1, first);
    var m := At(1, first);
    FiveSteps();
    hide After;
    AfterLost(m, steps, 0);
    var m' := After(m, steps);
    AfterReleases(m, steps);
    assert SlotOk(0, m'.s.slots[0]);
    LowestFreeIs(m'.s.slots, 1);
    hide SlotsOk, MomentOk;
  }

  lemma {:induction false} FiveSteps()
    ensures var m := At(1, [Perform(Delay(0, 0)), Perform(Disable(Handle(0, 0))),
                            StartPass, OpenRound(0, 0), CloseRound(0, 0)]);
            m.who.Application? && |m.s.slots| == 1 && Lost(m.s, 0) && m.s.slots[0].generation == 0
  {
    var start := Moment(Initial(1), Application);
    var s1 := OnDelay(Initial(1), 0, 0).0;
    CompactLive(Initial(1).entries);
    LowestFreeIs(Initial(1).slots, 0);
    D.DelayInto(Initial(1), 0, 0, 0);
    assert s1.entries == [D.OneShotEntry(0, 0, 0)];
    CompactLive(s1.entries);
    var a, b, c, d := Perform(Delay(0, 0)), Perform(Disable(Handle(0, 0))), StartPass, OpenRound(0, 0);
    D.FourSteps(start, a, b, c, d);
    AfterConcat(start, [a, b, c, d], [CloseRound(0, 0)]);
    AfterOne(After(start, [a, b, c, d]), CloseRound(0, 0));
    assert [a, b, c, d] + [CloseRound(0, 0)] == [a, b, c, d, CloseRound(0, 0)];
    hide After, OnDelay, Compact;
    assert Next(start, a) == Moment(s1, Application);
    var m2 := Next(Next(start, a), b);
    assert m2.s.entries == s1.entries && !m2.s.slots[0].task.enabled && m2.s.slots[0].used;
    DisabledRound(m2);
  }

  lemma {:induction false} DisabledRound(m: Moment)
    requires m.who.Application? && m.s.entries == [D.OneShotEntry(0, 0, 0)] && |m.s.slots| == 1
    requires var st := m.s.slots[0]; st.used && !st.task.invoking && !st.task.enabled && st.generation == 0
    ensures var m' := Next(Next(Next(m, StartPass), OpenRound(0, 0)), CloseRound(0, 0));
            m'.who.Application? && |m'.s.slots| == 1 && Lost(m'.s, 0) && m'.s.slots[0].generation == 0
  {
    CompactLive(m.s.entries);
    hide Compact;
    var m3 := Next(m, StartPass);
    var m4 := Next(m3, OpenRound(0, 0));
    assert m4.who == Nobody(true) && m4.s.entries == m.s.entries && m4.s.slots == m.s.slots;
    assert Next(m4, CloseRound(0, 0)).s.entries == [Dropped(m.s.entries[0])];
  }
}
