/**
 The moments of a run: between its actions, and inside a pass before and after every single operation of every
 callback. What handles are good for is stated over these.
 */
module LoopMoments {
  import opened Bytes
  import opened Scheduler
  import opened CallbackTasks
  import opened LoopModel
  import opened LoopRuns

  /** A callback slot whose callable is on the stack. */
  datatype Running = Running(slot: nat, callee: Callable)

  /** Who is at work: the application or the pass itself; a polled task's callback, that of a slot or another;
      or no one, in a round that polls nothing or polls a slot that is disabled. */
  datatype Who = Application | Callback(running: Option<Running>) | Nobody(due: bool)

  datatype Moment = Moment(s: System, who: Who)

  /** The small steps of a run. A step that is not possible changes nothing. */
  datatype Step =
    | Perform(op: Op)
    | StartPass
    | OpenRound(i: nat, now: nat)
    | CloseRound(i: nat, now: nat)
    | FinishPass

  /** What a round does before the callback. */
  function Opened(s: System, i: nat, now: nat): Moment {
    if !Due(s, i, now) then Moment(s, Nobody(false))
    else
      var b := Begun(s, i);
      match s.entries[i].task.value
      case Foreign(_) => Moment(b, Callback(None))
      case Slot(k) =>
        if k < |s.slots| && Runs(s.slots[k].task)
        then Moment(WithTask(b, k, Enter(s.slots[k].task)), Callback(Some(Running(k, s.slots[k].task.stored.value))))
        else Moment(b, Nobody(true))
  }

  /** And after it. */
  function Closed(m: Moment, i: nat, now: nat): System {
    match m.who
    case Application => m.s
    case Nobody(due) => if due then Settled(m.s, i, now) else m.s
    case Callback(None) => Settled(m.s, i, now)
    case Callback(Some(r)) => if r.slot < |m.s.slots| then Settled(Finish(m.s, r.slot, r.callee), i, now) else m.s
  }

  function Next(m: Moment, step: Step): Moment {
    match step
    case Perform(op) => if m.who.Nobody? then m else m.(s := Exec(m.s, op))
    case StartPass => if m.who.Application? then m.(s := BeginPass(m.s)) else m
    case OpenRound(i, now) => if m.who.Application? then Opened(m.s, i, now) else m
    case CloseRound(i, now) => if m.who.Application? then m else Moment(Closed(m, i, now), Application)
    case FinishPass => if m.who.Application? then m.(s := EndPass(m.s)) else m
  }

  function After(m: Moment, steps: seq<Step>): Moment {
    if steps == [] then m else Next(After(m, steps[..|steps| - 1]), steps[|steps| - 1])
  }

  /** Where any steps lead from the start. */
  function At(slots: nat, steps: seq<Step>): Moment {
    After(Moment(Initial(slots), Application), steps)
  }

  // ---- the steps of a run ------------------------------------------------------------------

  function Performs(script: seq<Op>): seq<Step> {
    seq(|script|, j requires 0 <= j < |script| => Perform(script[j]))
  }

  function RoundSteps(i: nat, now: nat, script: seq<Op>): seq<Step> {
    [OpenRound(i, now)] + Performs(script) + [CloseRound(i, now)]
  }

  function RoundsSteps(rounds: nat, now: nat, scripts: nat -> seq<Op>): seq<Step> {
    if rounds == 0 then [] else RoundsSteps(rounds - 1, now, scripts) + RoundSteps(rounds - 1, now, scripts(rounds - 1))
  }

  function ActSteps(slots: nat, a: Action): seq<Step> {
    match a
    case Do(op) => [Perform(op)]
    case Tick(now, scripts) => [StartPass] + RoundsSteps(slots, now, scripts) + [FinishPass]
  }

  function RunSteps(slots: nat, actions: seq<Action>): seq<Step> {
    if actions == [] then [] else RunSteps(slots, actions[..|actions| - 1]) + ActSteps(slots, actions[|actions| - 1])
  }

  lemma {:induction false} AfterConcat(m: Moment, a: seq<Step>, b: seq<Step>)
    ensures After(m, a + b) == After(After(m, a), b)
  {
    if b == [] {
      assert a + b == a;
    } else {
      assert (a + b)[..|a + b| - 1] == a + b[..|b| - 1];
      AfterConcat(m, a, b[..|b| - 1]);
    }
  }

  lemma AfterOne(m: Moment, step: Step)
    ensures After(m, [step]) == Next(m, step)
  {
    assert [step][..0] == [];
  }

  lemma {:induction false} AfterPerforms(m: Moment, script: seq<Op>)
    ensures After(m, Performs(script)) == if m.who.Nobody? then m else m.(s := ExecAll(m.s, script))
  {
    if script != [] {
      AfterPerforms(m, script[..|script| - 1]);
      assert Performs(script)[..|script| - 1] == Performs(script[..|script| - 1]);
    }
  }

  lemma {:induction false} AfterRound(s: System, i: nat, now: nat, script: seq<Op>)
    ensures After(Moment(s, Application), RoundSteps(i, now, script)) == Moment(Turn(s, i, now, script), Application)
  {
    var m := Moment(s, Application);
    var o := Opened(s, i, now);
    AfterConcat(m, [OpenRound(i, now)] + Performs(script), [CloseRound(i, now)]);
    AfterConcat(m, [OpenRound(i, now)], Performs(script));
    AfterOne(m, OpenRound(i, now));
    AfterPerforms(o, script);
    var p := if o.who.Nobody? then o else o.(s := ExecAll(o.s, script));
    AfterOne(p, CloseRound(i, now));
    hide After;
    SlotCountStays(o.s, script);
    RoundIsTurn(s, i, now, script, o, p);
  }

  lemma RoundIsTurn(s: System, i: nat, now: nat, script: seq<Op>, o: Moment, p: Moment)
    requires o == Opened(s, i, now) && p == if o.who.Nobody? then o else o.(s := ExecAll(o.s, script))
    requires |ExecAll(o.s, script).slots| == |o.s.slots|
    ensures Next(p, CloseRound(i, now)) == Moment(Turn(s, i, now, script), Application)
  {
    hide ExecAll, Finish, AfterPoll;
  }

  lemma {:induction false} AfterRounds(s: System, rounds: nat, now: nat, scripts: nat -> seq<Op>)
    ensures After(Moment(s, Application), RoundsSteps(rounds, now, scripts))
            == Moment(Turns(s, rounds, now, scripts), Application)
  {
    hide RoundSteps, Turn, Turns, Next;
    TurnsNext(s, 0, now, scripts);
    if rounds > 0 {
      hide After;
      TurnsNext(s, rounds - 1, now, scripts);
      var before := RoundsSteps(rounds - 1, now, scripts);
      AfterRounds(s, rounds - 1, now, scripts);
      AfterConcat(Moment(s, Application), before, RoundSteps(rounds - 1, now, scripts(rounds - 1)));
      AfterRound(Turns(s, rounds - 1, now, scripts), rounds - 1, now, scripts(rounds - 1));
    }
  }

  lemma {:induction false} AfterPass(s: System, now: nat, scripts: nat -> seq<Op>)
    ensures After(Moment(s, Application), ActSteps(|s.slots|, Tick(now, scripts)))
            == Moment(Pass(s, now, scripts), Application)
  {
    hide After, RoundsSteps, Turns, Compact;
    var m, n := Moment(s, Application), |s.slots|;
    var rounds := RoundsSteps(n, now, scripts);
    AfterConcat(m, [StartPass] + rounds, [FinishPass]);
    AfterConcat(m, [StartPass], rounds);
    AfterOne(m, StartPass);
    AfterRounds(BeginPass(s), n, now, scripts);
    AfterOne(Moment(Turns(BeginPass(s), n, now, scripts), Application), FinishPass);
  }

  /** Every run is a sequence of these steps; its moments are where the initial parts of that sequence lead. */
  lemma {:induction false} RunIsSteps(slots: nat, actions: seq<Action>)
    ensures At(slots, RunSteps(slots, actions)) == Moment(RunAll(Initial(slots), actions), Application)
  {
    if actions != [] {
      var before, last := actions[..|actions| - 1], actions[|actions| - 1];
      var s := RunAll(Initial(slots), before);
      RunIsSteps(slots, before);
      RunSlotsOk(slots, before);
      AfterConcat(Moment(Initial(slots), Application), RunSteps(slots, before), ActSteps(slots, last));
      hide SlotsOk;
      match last {
        case Do(op) => AfterOne(Moment(s, Application), Perform(op));
        case Tick(now, scripts) => AfterPass(s, now, scripts);
      }
      hide After, ActSteps, Exec, Pass;
    }
  }

  // ---- every moment is in order ------------------------------------------------------------

  function Executing(who: Who): Option<nat> {
    if who.Callback? && who.running.Some? then Some(who.running.value.slot) else None
  }

  /** Slots are in order, and the callable on the stack is still in its slot, and completes that one if any. */
  predicate MomentOk(m: Moment) {
    && SlotsOk(m.s, Executing(m.who))
    && match m.who
       case Callback(Some(r)) =>
         && r.slot < |m.s.slots| && m.s.slots[r.slot].task.stored == Some(r.callee)
         && (r.callee.completes.Some? ==> r.callee.completes.value.slot == r.slot)
       case _ => true
  }

  lemma {:induction false} PerformOk(m: Moment, op: Op)
    requires MomentOk(m) && !m.who.Nobody?
    ensures MomentOk(Next(m, Perform(op)))
  {
    ExecSlotsOk(m.s, op, Executing(m.who));
    if m.who.Callback? && m.who.running.Some? {
      OpKeepsCallable(m.s, op, m.who.running.value.slot);
    }
    hide Exec, SlotOk;
  }

  lemma {:induction false} OpenOk(s: System, i: nat, now: nat)
    requires SlotsOk(s, None)
    ensures MomentOk(Opened(s, i, now))
  {
    if Due(s, i, now) {
      var b := Begun(s, i);
      SameSlotsOk(s, b, None);
      match s.entries[i].task.value {
        case Foreign(_) =>
        case Slot(k) =>
          if k < |s.slots| && Runs(s.slots[k].task) {
            var st := s.slots[k];
            assert SlotOk(k, st);
            EnterOk(k, st);
            hide SlotsOk, WellFormed, OneShotsOnce;
            EnteredOk(b, k, st.(task := Enter(st.task)));
          }
      }
    }
  }

  lemma {:induction false} CloseOk(m: Moment, i: nat, now: nat)
    requires MomentOk(m)
    ensures SlotsOk(Closed(m, i, now), None) && |Closed(m, i, now).slots| == |m.s.slots|
  {
    match m.who {
      case Callback(Some(r)) =>
        CompletesOwn(m.s, r.slot, r.callee, if r.callee.completes.Some? then r.callee.completes.value.generation else 0);
        hide SlotsOk, Finish;
        FinishOk(m.s, r.slot, r.callee);
        SameSlotsOk(Finish(m.s, r.slot, r.callee), Closed(m, i, now), None);
      case _ =>
        SameSlotsOk(m.s, Closed(m, i, now), None);
    }
  }

  lemma {:induction false} NextOk(m: Moment, step: Step)
    requires MomentOk(m)
    ensures MomentOk(Next(m, step))
  {
    hide SlotsOk, Exec, Opened, Closed;
    match step
    case Perform(op) =>
      if !m.who.Nobody? {
        PerformOk(m, op);
      }
    case StartPass => SameSlotsOk(m.s, BeginPass(m.s), Executing(m.who));
    case OpenRound(i, now) =>
      if m.who.Application? {
        OpenOk(m.s, i, now);
      }
    case CloseRound(i, now) => CloseOk(m, i, now);
    case FinishPass => SameSlotsOk(m.s, EndPass(m.s), Executing(m.who));
  }

  lemma {:induction false} AfterOk(m: Moment, steps: seq<Step>)
    requires MomentOk(m)
    ensures MomentOk(After(m, steps))
  {
    hide MomentOk, Next;
    if steps != [] {
      AfterOk(m, steps[..|steps| - 1]);
      NextOk(After(m, steps[..|steps| - 1]), steps[|steps| - 1]);
    }
  }

  /** At every moment of every run, inside callbacks too. */
  lemma {:induction false} AtOk(slots: nat, steps: seq<Step>)
    ensures MomentOk(At(slots, steps))
  {
    RunSlotsOk(slots, []);
    AfterOk(Moment(Initial(slots), Application), steps);
    hide After;
  }

  // ---- releases ----------------------------------------------------------------------------

  lemma {:induction false} NextReleases(m: Moment, step: Step)
    ensures ReleasesGrow(m.s, Next(m, step).s)
  {
    match step
    case Perform(op) => OpReleases(m.s, op);
    case _ => hide Exec, Clear, Compact, AfterPoll;
  }

  lemma {:induction false} AfterReleases(m: Moment, steps: seq<Step>)
    ensures ReleasesGrow(m.s, After(m, steps).s)
  {
    hide Next;
    if steps != [] {
      AfterReleases(m, steps[..|steps| - 1]);
      NextReleases(After(m, steps[..|steps| - 1]), steps[|steps| - 1]);
    }
  }

  // ---- handles -----------------------------------------------------------------------------

  /** A registration took s to s' and gave out `h`: valid now, not before, so no other handle that was valid; those
      stay valid; and it carries the number of releases of its slot so far. */
  ghost predicate GivesOut(s: System, s': System, h: Handle) {
    && h.slot < |s.slots| == |s'.slots| && !Valid(s, h) && Valid(s', h)
    && s'.slots[h.slot].releases == s.slots[h.slot].releases
    && h.generation == s.slots[h.slot].releases % GENERATIONS
    && forall g :: Valid(s, g) ==> Valid(s', g) && g != h
  }

  /** The handle an operation gives out, if it is a registration that succeeds. */
  function Given(s: System, op: Op): Option<Handle> {
    match op
    case Repeat(period, clock) => OnRepeat(s, period, clock).1
    case Delay(delay, clock) => OnDelay(s, delay, clock).1
    case _ => None
  }

  lemma {:induction false} AllocatedIsNew(s: System, x: Option<nat>, oneShot: bool)
    requires SlotsOk(s, x)
    ensures var (s', h) := Allocate(s, oneShot); h.Some? ==> GivesOut(s, s', h.value)
  {
    var k := LowestFree(s.slots);
    if k < |s.slots| {
      assert SlotOk(k, s.slots[k]);
      hide SlotsOk, WellFormed, OneShotsOnce, LowestFree, DestroyNow, Made;
    }
  }

  lemma {:induction false} RegistrationGivesOut(s: System, x: Option<nat>, op: Op)
    requires SlotsOk(s, x) && Given(s, op).Some?
    ensures GivesOut(s, Exec(s, op), Given(s, op).value)
  {
    AllocatedIsNew(s, x, op.Delay?);
    hide Allocate, SlotsOk, Compact, GENERATIONS;
  }

  /** At every moment: the handle a registration gives out is a new one, and leaves the valid ones valid. */
  lemma {:induction false} HandlesAreNew(slots: nat, steps: seq<Step>, op: Op)
    ensures var m := At(slots, steps);
            !m.who.Nobody? && Given(m.s, op).Some? ==> GivesOut(m.s, Next(m, Perform(op)).s, Given(m.s, op).value)
  {
    AtOk(slots, steps);
    var m := At(slots, steps);
    hide At, SlotsOk, Exec, Given, GivesOut;
    if !m.who.Nobody? && Given(m.s, op).Some? {
      RegistrationGivesOut(m.s, Executing(m.who), op);
    }
  }

  /** Once the slot has been released, the handle stays invalid at every later moment. */
  lemma {:induction false} StaleStaysStale(m: Moment, h: Handle, r: nat, steps: seq<Step>)
    requires MomentOk(m) && h.slot < |m.s.slots|
    requires h.generation == r % GENERATIONS && m.s.slots[h.slot].releases > r
    ensures var s' := After(m, steps).s;
            |s'.slots| == |m.s.slots| &&
            (s'.slots[h.slot].releases < r + GENERATIONS ==> !Valid(s', h))
  {
    AfterOk(m, steps);
    AfterReleases(m, steps);
    var m' := After(m, steps);
    hide After, SlotsOk, Valid, GENERATIONS;
    if m'.s.slots[h.slot].releases < r + GENERATIONS {
      StaleNow(m'.s, Executing(m'.who), h, r);
    }
  }

  /** A handle is given out at any moment, by the application or by a callback. At any later moment somebody, perhaps
      the callback of that very registration, removes the registration with it. From then on the handle is
      invalid at every moment, until its slot has been released 65536 times since it was given out. */
  lemma {:induction false} RemovedStaysInvalid(slots: nat, before: seq<Step>, op: Op, h: Handle,
                                               during: seq<Step>, after: seq<Step>)
    requires var m := At(slots, before); !m.who.Nobody? && Given(m.s, op) == Some(h)
    ensures var m := At(slots, before);
            var m1 := After(Next(m, Perform(op)), during);
            var m2 := After(Next(m1, Perform(Remove(h))), after);
            && h.slot < |m.s.slots| == |m1.s.slots| == |m2.s.slots|
            && (!m1.who.Nobody? && RemoveHandle(m1.s, h).1 ==>
                  m2.s.slots[h.slot].releases < m.s.slots[h.slot].releases + GENERATIONS ==> !Valid(m2.s, h))
  {
    hide After, At, SlotsOk, GENERATIONS, Given, Valid, Exec, RemoveHandle;
    var m := At(slots, before);
    AtOk(slots, before);
    RegistrationGivesOut(m.s, Executing(m.who), op);
    var m0 := Next(m, Perform(op));
    NextOk(m, Perform(op));
    AfterOk(m0, during);
    AfterReleases(m0, during);
    var m1 := After(m0, during);
    var m' := Next(m1, Perform(Remove(h)));
    NextOk(m1, Perform(Remove(h)));
    NextReleases(m1, Perform(Remove(h)));
    AfterReleases(m', after);
    if !m1.who.Nobody? && RemoveHandle(m1.s, h).1 {
      RemovalEndsHandle(m1.s, h, Executing(m1.who));
      RemoveStep(m1.s, h);
      StaleStaysStale(m', h, m.s.slots[h.slot].releases, after);
    }
  }

  lemma RemoveStep(s: System, h: Handle)
    ensures Exec(s, Remove(h)) == RemoveHandle(s, h).0
  {
  }

  // ---- one-shots ---------------------------------------------------------------------------

  /** As long as slot k has not been released since, it holds the callable registered then. */
  predicate Holds(s: System, k: nat, r: nat, c: Callable) {
    k < |s.slots| && s.slots[k].releases >= r
    && (s.slots[k].releases == r ==> s.slots[k].used && s.slots[k].task.stored == Some(c))
  }

  lemma OpHolds(s: System, op: Op, k: nat, r: nat, c: Callable)
    requires Holds(s, k, r, c)
    ensures Holds(Exec(s, op), k, r, c)
  {
    hide Compact, Unschedule, Made, DestroyNow;
  }

  lemma {:induction false} CloseHolds(m: Moment, i: nat, now: nat, k: nat, r: nat, c: Callable)
    requires MomentOk(m) && Holds(m.s, k, r, c) && c.completes.Some?
    ensures Holds(Closed(m, i, now), k, r, c)
  {
    match m.who {
      case Callback(Some(x)) =>
        CompletesOwn(m.s, x.slot, x.callee, if x.callee.completes.Some? then x.callee.completes.value.generation else 0);
        hide SlotsOk, Leave, Clear, AfterPoll;
      case _ => hide SlotsOk, AfterPoll;
    }
  }

  lemma {:induction false} NextHolds(m: Moment, step: Step, k: nat, r: nat, c: Callable)
    requires MomentOk(m) && Holds(m.s, k, r, c) && c.completes.Some?
    ensures Holds(Next(m, step).s, k, r, c)
  {
    match step
    case Perform(op) => OpHolds(m.s, op, k, r, c);
    case CloseRound(i, now) => CloseHolds(m, i, now, k, r, c);
    case _ => hide SlotsOk, Compact, Exec;
  }

  lemma {:induction false} AfterHolds(m: Moment, steps: seq<Step>, k: nat, r: nat, c: Callable)
    requires MomentOk(m) && Holds(m.s, k, r, c) && c.completes.Some?
    ensures Holds(After(m, steps).s, k, r, c)
  {
    hide MomentOk, Next, Holds;
    if steps != [] {
      AfterOk(m, steps[..|steps| - 1]);
      AfterHolds(m, steps[..|steps| - 1], k, r, c);
      NextHolds(After(m, steps[..|steps| - 1]), steps[|steps| - 1], k, r, c);
    }
  }

  lemma {:induction false} DelayHolds(s: System, delay: nat, clock: nat)
    requires OnDelay(s, delay, clock).1.Some?
    ensures var (s1, h) := OnDelay(s, delay, clock);
            var k := h.value.slot;
            && k < |s.slots| == |s1.slots| && s1.slots[k].task.stored.Some?
            && s1.slots[k].task.stored.value.completes.Some?
            && Holds(s1, k, s.slots[k].releases, s1.slots[k].task.stored.value)
  {
    hide Compact, LowestFree, Made, DestroyNow;
  }

  /** The same for a one-shot, given out at any moment: once its callable has been entered, and until its slot has
      been released 65536 times, the handle is valid at no moment but those of that very invocation, and at these
      only while the slot has not been released. */
  lemma {:induction false} CompletedStaysInvalid(slots: nat, before: seq<Step>, delay: nat, clock: nat,
                                                 after: seq<Step>)
    requires var m := At(slots, before); !m.who.Nobody? && OnDelay(m.s, delay, clock).1.Some?
    ensures var m := At(slots, before);
            var (s1, h) := OnDelay(m.s, delay, clock);
            var k, s2 := h.value.slot, After(Moment(s1, m.who), after).s;
            && k < |m.s.slots| == |s1.slots| == |s2.slots| && s1.slots[k].task.stored.Some?
            && (Entered(s1.slots[k].task.stored.value.id) in s2.slots[k].task.history
                && s2.slots[k].releases < m.s.slots[k].releases + GENERATIONS && Valid(s2, h.value) ==>
                && s2.slots[k].task.invoking && s2.slots[k].task.stored == s1.slots[k].task.stored
                && s2.slots[k].releases == m.s.slots[k].releases)
  {
    var m, op := At(slots, before), Delay(delay, clock);
    AtOk(slots, before);
    var (s1, h) := OnDelay(m.s, delay, clock);
    RegistrationGivesOut(m.s, Executing(m.who), op);
    DelayHolds(m.s, delay, clock);
    var k, r := h.value.slot, m.s.slots[h.value.slot].releases;
    var m1 := Next(m, Perform(op));
    var c := s1.slots[k].task.stored.value;
    assert m1 == Moment(s1, m.who);
    NextOk(m, Perform(op));
    AfterOk(m1, after);
    AfterReleases(m1, after);
    AfterHolds(m1, after, k, r, c);
    var m2 := After(m1, after);
    hide After, At, OnDelay, Exec, Next, WellFormed, GENERATIONS, Valid;
    assert SlotOk(k, m2.s.slots[k]);
    if m2.s.slots[k].releases > r {
      if m2.s.slots[k].releases < r + GENERATIONS {
        StaleNow(m2.s, Executing(m2.who), h.value, r);
      }
    } else if !m2.s.slots[k].task.invoking {
      assert Entered(c.id) !in m2.s.slots[k].task.history;
    }
  }
}
