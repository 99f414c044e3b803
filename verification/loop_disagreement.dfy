/** When a round of a pass breaks the agreement between slots and entries, and what can come of it. */
module LoopDisagreement {
  import opened Bytes
  import opened Scheduler
  import opened CallbackTasks
  import opened LoopModel
  import opened LoopRuns
  import opened LoopPass
  import opened LoopCompleteness
  import opened LoopAgreement
  import LoopMoments

  // ---- the bookkeeping on an arbitrary entry -----------------------------------------------

  /** The bookkeeping drops no one-shot of a slot. */
  predicate SparesOneShots(entries: seq<Entry>, i: nat) {
    i < |entries| && Live(entries[i]) ==> entries[i].periodic || entries[i].task.value.Foreign?
  }

  lemma {:induction false} SettlingAgreesExactly(s: System, i: nat, now: nat)
    requires Agrees(s) && EntriesOk(s)
    ensures Agrees(Settled(s, i, now)) <==> SparesOneShots(s.entries, i)
  {
    if i < |s.entries| && Live(s.entries[i]) && s.entries[i].task.value.Slot? {
      var x := s.entries[i];
      var k := x.task.value.index;
      assert x in s.entries && IsEntryOf(x, k);
      assert AgreesAt(s, k);
      if x.periodic {
        SettlePeriodic(s, i, now, k);
      } else {
        OnlyAt(s, i, k);
        var s' := Settled(s, i, now);
        assert !Live(s'.entries[i]);
        assert NoEntry(s', k);
        assert !AgreesAt(s', k);
      }
    } else {
      SettleOther(s, i, now);
    }
  }

  // ---- the polled entry while its callback runs --------------------------------------------

  /** While the callable of slot k runs, the slot's entry is scheduled as long as the registration stands. */
  predicate StillScheduled(s: System, k: nat, e: Entry) {
    k < |s.slots| && s.slots[k].task.invoking && (s.slots[k].used ==> e in s.entries)
  }

  lemma {:induction false} OpStillScheduled(s: System, op: Op, k: nat, e: Entry)
    requires StillScheduled(s, k, e) && IsEntryOf(e, k)
    ensures StillScheduled(Exec(s, op), k, e)
  {
    OpKeepsCallable(s, op, k);
    OpUsed(s, op, k);
    if op.Remove? && op.handle.slot == k {
      assert Valid(s, op.handle) ==> !Exec(s, op).slots[k].used || Exec(s, op) == s || e !in s.entries;
    } else if s.slots[k].used {
      OpEntries(s, op);
      hide Exec, Registers;
      KeptUnlessMarked(s, Exec(s, op), Target(op), e);
    }
  }

  lemma {:induction false} KeptUnlessMarked(s: System, s': System, target: Option<TaskRef>, e: Entry)
    requires e in s.entries && Live(e) && (target.Some? ==> e.task != Some(target.value))
    requires Added(s, s') || Unmoved(s, s') || (target.Some? && Marked(s, s', target.value))
    ensures e in s'.entries
  {
    CompactKeeps(s.entries);
    if Unmoved(s, s') {
    } else if Added(s, s') {
      if s'.entries != Compact(s.entries) {
        assert e in s'.entries[..|s'.entries| - 1];
      }
    } else {
      var marked := Unschedule(s.entries, target.value);
      CompactKeeps(marked);
      var j :| 0 <= j < |s.entries| && s.entries[j] == e;
      assert marked[j] == e;
    }
  }

  lemma {:induction false} ScriptStillScheduled(s: System, script: seq<Op>, k: nat, e: Entry)
    requires StillScheduled(s, k, e) && IsEntryOf(e, k)
    ensures StillScheduled(ExecAll(s, script), k, e)
  {
    hide Exec, StillScheduled, IsEntryOf;
    if script != [] {
      ScriptStillScheduled(s, script[..|script| - 1], k, e);
      OpStillScheduled(ExecAll(s, script[..|script| - 1]), script[|script| - 1], k, e);
    }
  }

  // ---- one round ---------------------------------------------------------------------------

  /** Completing the polled entry's registration leaves no entry behind. */
  predicate LeavesNone(e: Entry, entries: seq<Entry>)
    requires Live(e)
  {
    e.periodic || e.task.value.Foreign? || e !in entries
  }

  /** A round in which the callback registered across a gap, the entry being that of a slot whose callable ran. */
  lemma {:induction false} ShiftedSlotTurn(s: System, i: nat, now: nat, script: seq<Op>, k: nat)
    requires Sound(s) && s.running && Due(s, i, now) && !QuietTurn(s, i, now, script)
    requires s.entries[i].task == Some(Slot(k)) && k < |s.slots| && Runs(s.slots[k].task)
    ensures var entries := Polling(s, i, script).entries;
            Agrees(Turn(s, i, now, script)) <==> LeavesNone(s.entries[i], entries) && SparesOneShots(entries, i)
  {
    var b, e, st := Begun(s, i), s.entries[i], s.slots[k];
    var c, g := st.task.stored.value, st.generation;
    assert SlotOk(k, st) && AgreesAt(s, k);
    assert e in s.entries && IsEntryOf(e, k);
    assert c.completes.None? <==> e.periodic;
    EnterOk(k, st);
    var entered := WithTask(b, k, Enter(st.task));
    SameSlotsOk(s, b, None);
    hide SlotsOk, SlotOk;
    EnteredOk(b, k, st.(task := Enter(st.task)));
    SameAgreement(s, entered);
    ScriptAgrees(entered, script, Some(k));
    ScriptEntriesOk(entered, script);
    ScriptKeepsCallable(entered, script, k);
    ScriptStillScheduled(entered, script, k, e);
    ShiftedScript(entered, script, i);
    var p := ExecAll(entered, script);
    hide ExecAll, Agrees, Unshifted;
    CompletesOwn(p, k, c, g);
    FinishKinds(p, k, c);
    ShiftedSettle(p, Finish(p, k, c), i, now, k, e);
  }

  /** The end of such a round. */
  lemma {:induction false} ShiftedSettle(p: System, f: System, i: nat, now: nat, k: nat, e: Entry)
    requires Agrees(p) && EntriesOk(p) && StillScheduled(p, k, e) && IsEntryOf(e, k)
    requires YoungerFrom(e.id, p, i)
    requires f.entries == p.entries && f.nextId == p.nextId && |f.slots| == |p.slots|
    requires forall m :: 0 <= m < |p.slots| && m != k ==> Kind(f.slots[m]) == Kind(p.slots[m])
    requires Kind(f.slots[k]) == if e.periodic then Kind(p.slots[k]) else None
    ensures Agrees(Settled(f, i, now)) <==> LeavesNone(e, p.entries) && SparesOneShots(p.entries, i)
  {
    assert AgreesAt(p, k);
    if !e.periodic && e in p.entries {
      var s' := Settled(f, i, now);
      var j :| 0 <= j < |p.entries| && p.entries[j] == e;
      assert s'.entries[j] == e;
      assert !NoEntry(s', k);
      assert !AgreesAt(s', k);
    } else {
      assert Kind(f.slots[k]) == Kind(p.slots[k]);
      SameKindsAgree(p, f);
      SettlingAgreesExactly(f, i, now);
    }
  }

  lemma {:induction false} ShiftedForeignTurn(s: System, i: nat, now: nat, script: seq<Op>)
    requires Sound(s) && s.running && Due(s, i, now) && s.entries[i].task.value.Foreign?
    ensures Agrees(Turn(s, i, now, script)) <==> SparesOneShots(Polling(s, i, script).entries, i)
  {
    var b := Begun(s, i);
    SameAgreement(s, b);
    SameSlotsOk(s, b, None);
    ScriptAgrees(b, script, None);
    ScriptEntriesOk(b, script);
    hide ExecAll, Agrees, SlotsOk;
    SettlingAgreesExactly(ExecAll(b, script), i, now);
  }

  /** A round whose one-shot, if it is one, is enabled keeps the agreement exactly when its callback registered
      across no gap, or both: no completed one-shot of a slot is still scheduled after the callback, and the
      entry then at the polled index, on which the bookkeeping is done, is no one-shot of a slot. */
  lemma {:induction false} TurnAgreesExactly(s: System, i: nat, now: nat, script: seq<Op>)
    requires Sound(s) && s.running && Due(s, i, now) && Attended(s, i, now)
    ensures var entries := Polling(s, i, script).entries;
            Agrees(Turn(s, i, now, script))
            <==> QuietTurn(s, i, now, script) || (LeavesNone(s.entries[i], entries) && SparesOneShots(entries, i))
  {
    if QuietTurn(s, i, now, script) {
      TurnAgrees(s, i, now, script);
    } else {
      assert s.entries[i] in s.entries;
      match s.entries[i].task.value {
        case Foreign(_) => ShiftedForeignTurn(s, i, now, script);
        case Slot(k) => ShiftedSlotTurn(s, i, now, script, k);
      }
    }
    hide Turn, Polling, Agrees, Sound, QuietTurn;
  }

  // ---- a delay cut short -------------------------------------------------------------------

  /** A one-shot is registered in slot k and can run. */
  predicate Waiting(st: SlotState, k: nat) {
    && st.used && Runs(st.task) && !st.task.invoking && !st.task.clearRequested
    && st.task.stored.value.completes == Some(Handle(k, st.generation))
  }

  predicate Idle(st: SlotState) {
    !st.used && !st.task.invoking
  }

  function OneShotEntry(k: nat, due: nat, id: nat): Entry {
    Entry(Some(Slot(k)), 0, due, false, true, id)
  }

  /** on_delay into slot k. */
  lemma DelayInto(s: System, k: nat, delay: nat, clock: nat)
    requires k < |s.slots| && LowestFree(s.slots) == k && Idle(s.slots[k]) && |Compact(s.entries)| < |s.slots|
    ensures var r := OnDelay(s, delay, clock).0;
            && r.entries == Compact(s.entries) + [OneShotEntry(k, DelayDue(delay, clock), s.nextId)]
            && r.nextId == s.nextId + 1 && r.running == s.running && |r.slots| == |s.slots|
            && Waiting(r.slots[k], k) && r.slots[k].generation == s.slots[k].generation
            && forall m :: 0 <= m < |s.slots| && m != k ==> r.slots[m] == s.slots[m]
  {
    hide Compact, LowestFree, Made;
  }

  /** What the end of its invocation leaves of a slot whose callable was a one-shot. */
  lemma CompletedSlot(st: SlotState, k: nat)
    requires Waiting(st, k)
    ensures var c := st.task.stored.value;
            var r := Finished(st.(task := Enter(st.task)), c);
            Idle(r) && Entered(c.id) in r.task.history
  {
    hide Made;
    var c := st.task.stored.value;
    var entered := st.(task := Enter(st.task));
    var released := ReleaseSlot(entered);
    assert Finished(entered, c) == released.(task := Leave(released.task, c.id));
    assert Entered(c.id) in entered.task.history;
  }

  /** The round of a one-shot whose callable does nothing. */
  lemma {:induction false} CompletingTurn(s: System, i: nat, now: nat, script: seq<Op>, k: nat)
    requires script == [] && k < |s.slots| && Waiting(s.slots[k], k)
    requires Due(s, i, now) && s.entries[i].task == Some(Slot(k)) && !s.entries[i].periodic
    ensures var r := Turn(s, i, now, script);
            && r.entries == s.entries[i := Dropped(s.entries[i])]
            && r.nextId == s.nextId && r.running == s.running && |r.slots| == |s.slots|
            && Idle(r.slots[k]) && Entered(s.slots[k].task.stored.value.id) in r.slots[k].task.history
            && forall m :: 0 <= m < |s.slots| && m != k ==> r.slots[m] == s.slots[m]
  {
    var c := s.slots[k].task.stored.value;
    CompletedSlot(s.slots[k], k);
    var entered := WithTask(Begun(s, i), k, Enter(s.slots[k].task));
    assert ExecAll(entered, script) == entered;
    hide Leave, ReleaseSlot;
    assert Finish(entered, k, c).slots == s.slots[k := Finished(s.slots[k].(task := Enter(s.slots[k].task)), c)];
  }

  /** The round of a one-shot whose callable calls on_delay, with slot 0 free and the entry before it completed:
      the new entry is dropped, and the completed one stays. */
  lemma {:induction false} ShiftingTurn(s: System, now: nat, script: seq<Op>, first: Entry, second: Entry)
    requires script == [Delay(1000, 0)] && |s.slots| == 2 && Idle(s.slots[0]) && Waiting(s.slots[1], 1)
    requires s.entries == [Dropped(first), second] && second == OneShotEntry(1, 0, 1) && Due(s, 1, now)
    ensures var r := Turn(s, 1, now, script);
            && |r.entries| == 2 && r.entries[0] == second && !Live(r.entries[1])
            && r.running == s.running && |r.slots| == 2 && r.slots[0].used && Idle(r.slots[1])
  {
    var st, c := s.slots[1], s.slots[1].task.stored.value;
    CompletedSlot(st, 1);
    var entered := WithTask(Begun(s, 1), 1, Enter(st.task));
    assert Compact(entered.entries) == [second] by {
      assert entered.entries[1..] == [second];
      CompactLive([second]);
    }
    LowestFreeIs(entered.slots, 0);
    DelayInto(entered, 0, 1000, 0);
    assert script[..0] == [] && ExecAll(entered, script[..0]) == entered;
    var p := ExecAll(entered, script);
    assert p == OnDelay(entered, 1000, 0).0;
    hide OnDelay, Compact, LowestFree, Leave, ReleaseSlot;
    assert p.entries == [second, OneShotEntry(0, 1000, entered.nextId)];
    assert Finish(p, 1, c).slots == p.slots[1 := Finished(p.slots[1], c)];
  }

  /** The consequence. Two one-shots are due in one pass, and the callable of the second calls on_delay. Its
      own completed entry stays scheduled. The next on_delay takes the slot it has left, and the pass at time 2
      invokes the new callable, 999 microseconds before its delay is over. */
  lemma {:induction false} DelayCutShort(scripts: nat -> seq<Op>, quiet: nat -> seq<Op>)
    requires scripts(0) == [] && scripts(1) == [Delay(1000, 0)] && quiet(0) == [] && quiet(1) == []
    ensures var s := RunAll(Initial(2), [Do(Delay(0, 0)), Do(Delay(0, 0)), Tick(0, scripts)]);
            var (r, h) := OnDelay(s, 1000, 1);
            && h.Some? && h.value.slot == 1 && |r.slots| == 2 && r.slots[1].task.stored.Some?
            && |r.entries| > 0 && r.entries[|r.entries| - 1] == OneShotEntry(1, 1001, r.nextId - 1)
            && |Pass(r, 2, quiet).slots| == 2
            && Entered(r.slots[1].task.stored.value.id) in Pass(r, 2, quiet).slots[1].task.history
  {
    hide RunAll, Pass, OnDelay;
    var two := [Do(Delay(0, 0)), Do(Delay(0, 0))];
    var s2 := RunAll(Initial(2), two);
    TwoOneShots();
    RunNext(Initial(2), two, Tick(0, scripts));
    assert two + [Tick(0, scripts)] == [Do(Delay(0, 0)), Do(Delay(0, 0)), Tick(0, scripts)];
    StaleEntryStays(s2, scripts);
    EarlyPass(Pass(s2, 0, scripts), quiet);
  }

  lemma {:induction false} TwoOneShots()
    ensures var s := RunAll(Initial(2), [Do(Delay(0, 0)), Do(Delay(0, 0))]);
            && s.entries == [OneShotEntry(0, 0, 0), OneShotEntry(1, 0, 1)] && !s.running && s.nextId == 2
            && |s.slots| == 2 && Waiting(s.slots[0], 0) && Waiting(s.slots[1], 1)
  {
    var s0 := Initial(2);
    var s1 := OnDelay(s0, 0, 0).0;
    var s2 := OnDelay(s1, 0, 0).0;
    assert RunAll(s0, []) == s0;
    hide OnDelay, RunAll, Compact;
    RunNext(s0, [], Do(Delay(0, 0)));
    RunNext(s0, [Do(Delay(0, 0))], Do(Delay(0, 0)));
    assert [] + [Do(Delay(0, 0))] == [Do(Delay(0, 0))];
    assert [Do(Delay(0, 0))] + [Do(Delay(0, 0))] == [Do(Delay(0, 0)), Do(Delay(0, 0))];
    CompactLive(s0.entries);
    LowestFreeIs(s0.slots, 0);
    DelayInto(s0, 0, 0, 0);
    assert s1.entries == [OneShotEntry(0, 0, 0)];
    CompactLive(s1.entries);
    LowestFreeIs(s1.slots, 1);
    DelayInto(s1, 1, 0, 0);
    assert s2.entries == [OneShotEntry(0, 0, 0), OneShotEntry(1, 0, 1)];
  }

  lemma {:induction false} StaleEntryStays(s: System, scripts: nat -> seq<Op>)
    requires s.entries == [OneShotEntry(0, 0, 0), OneShotEntry(1, 0, 1)] && |s.slots| == 2
    requires Waiting(s.slots[0], 0) && Waiting(s.slots[1], 1)
    requires scripts(0) == [] && scripts(1) == [Delay(1000, 0)]
    ensures var r := Pass(s, 0, scripts);
            r.entries == [OneShotEntry(1, 0, 1)] && !r.running && |r.slots| == 2 && r.slots[0].used && Idle(r.slots[1])
  {
    var first, second := OneShotEntry(0, 0, 0), OneShotEntry(1, 0, 1);
    CompactLive(s.entries);
    var b := BeginPass(s);
    assert Turns(b, 0, 0, scripts) == b;
    CompletingTurn(b, 0, 0, scripts(0), 0);
    var t1 := Turn(b, 0, 0, scripts(0));
    assert t1.entries == [Dropped(first), second];
    ShiftingTurn(t1, 0, scripts(1), first, second);
    var t2 := Turn(t1, 1, 0, scripts(1));
    hide Turn;
    assert Turns(b, 1, 0, scripts) == t1 && Turns(b, 2, 0, scripts) == t2;
    assert Compact(t2.entries) == [second] by {
      var rest := t2.entries[1..];
      assert rest == [t2.entries[1]] && rest[1..] == [];
      assert Compact(rest) == [];
    }
  }

  lemma {:induction false} EarlyPass(s: System, quiet: nat -> seq<Op>)
    requires s.entries == [OneShotEntry(1, 0, 1)] && |s.slots| == 2 && s.slots[0].used && Idle(s.slots[1])
    requires quiet(0) == [] && quiet(1) == []
    ensures var (r, h) := OnDelay(s, 1000, 1);
            && h.Some? && h.value.slot == 1 && |r.slots| == 2 && r.slots[1].task.stored.Some?
            && |r.entries| > 0 && r.entries[|r.entries| - 1] == OneShotEntry(1, 1001, r.nextId - 1)
            && |Pass(r, 2, quiet).slots| == 2
            && Entered(r.slots[1].task.stored.value.id) in Pass(r, 2, quiet).slots[1].task.history
  {
    CompactLive(s.entries);
    LowestFreeIs(s.slots, 1);
    DelayInto(s, 1, 1000, 1);
    var (r, h) := OnDelay(s, 1000, 1);
    assert h == Some(Handle(1, s.slots[1].generation));
    hide OnDelay, LowestFree;
    assert r.entries == [OneShotEntry(1, 0, 1), OneShotEntry(1, 1001, s.nextId)];
    CompactLive(r.entries);
    var b := BeginPass(r);
    assert Turns(b, 0, 2, quiet) == b;
    CompletingTurn(b, 0, 2, quiet(0), 1);
    var t1 := Turn(b, 0, 2, quiet(0));
    assert !Due(t1, 1, 2);
    assert Turns(b, 1, 2, quiet) == t1;
    assert Turns(b, 2, 2, quiet) == t1;
  }

  // ---- a free slot not tried ---------------------------------------------------------------

  /** The lowest free slot is still executing: a callback that removes its own registration gets no handle for
      another one, although slot 1 is free. */
  lemma {:induction false} OwnSlotIsInTheWay(delay: nat, period: nat, clock: nat)
    ensures var m := LoopMoments.At(2, [LoopMoments.Perform(Delay(0, 0)), LoopMoments.StartPass,
                                        LoopMoments.OpenRound(0, 0), LoopMoments.Perform(Remove(Handle(0, 0)))]);
            && m.who.Callback? && |m.s.slots| == 2 && !m.s.slots[1].used
            && OnDelay(m.s, delay, clock).1 == None && OnRepeat(m.s, period, clock).1 == None
  {
    var s0 := Initial(2);
    var s1 := OnDelay(s0, 0, 0).0;
    CompactLive(s0.entries);
    LowestFreeIs(s0.slots, 0);
    DelayInto(s0, 0, 0, 0);
    assert s1.entries == [OneShotEntry(0, 0, 0)];
    CompactLive(s1.entries);
    var a, b, c := LoopMoments.Perform(Delay(0, 0)), LoopMoments.StartPass, LoopMoments.OpenRound(0, 0);
    var d := LoopMoments.Perform(Remove(Handle(0, 0)));
    var m0 := LoopMoments.Moment(s0, LoopMoments.Application);
    FourSteps(m0, a, b, c, d);
    hide OnDelay, Compact, LoopMoments.After;
    var m1 := LoopMoments.Next(m0, a);
    assert m1 == LoopMoments.Moment(s1, LoopMoments.Application);
    var m2 := LoopMoments.Next(m1, b);
    assert m2.s.entries == s1.entries && m2.s.slots == s1.slots;
    var m3 := LoopMoments.Next(m2, c);
    assert Due(m2.s, 0, 0) && m3.s.entries == s1.entries && m3.who.Callback?;
    RemoveOwn(m3.s, delay, period, clock);
    assert LoopMoments.Next(m3, d).s == RemoveHandle(m3.s, Handle(0, 0)).0;
  }

  lemma {:induction false} FourSteps(m: LoopMoments.Moment, a: LoopMoments.Step, b: LoopMoments.Step,
                                     c: LoopMoments.Step, d: LoopMoments.Step)
    ensures LoopMoments.After(m, [a, b, c, d])
            == LoopMoments.Next(LoopMoments.Next(LoopMoments.Next(LoopMoments.Next(m, a), b), c), d)
  {
    hide LoopMoments.Next;
    LoopMoments.AfterOne(m, a);
    assert [a, b][..1] == [a];
    assert LoopMoments.After(m, [a, b]) == LoopMoments.Next(LoopMoments.Next(m, a), b);
    assert [a, b, c][..2] == [a, b];
    assert [a, b, c, d][..3] == [a, b, c];
  }

  lemma RemoveOwn(s: System, delay: nat, period: nat, clock: nat)
    requires |s.slots| == 2 && s.slots[0].used && s.slots[0].task.active && s.slots[0].generation == 0
    requires s.slots[0].task.invoking && OneShotEntry(0, 0, 0) in s.entries
    ensures var r := RemoveHandle(s, Handle(0, 0)).0;
            OnDelay(r, delay, clock).1 == None && OnRepeat(r, period, clock).1 == None
            && |r.slots| == 2 && r.slots[1] == s.slots[1]
  {
    var r := RemoveHandle(s, Handle(0, 0)).0;
    assert r.slots[0] == ReleaseSlot(s.slots[0]);
    LowestFreeIs(r.slots, 0);
  }
}
