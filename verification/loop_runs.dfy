/** Whole runs of the event loop: deferred destruction, one-shots and stale handles. */
module LoopRuns {
  import opened Bytes
  import opened Scheduler
  import opened CallbackTasks
  import opened LoopModel

  // ---- callables ---------------------------------------------------------------------------

  lemma {:induction false} EnterOk(k: nat, st: SlotState)
    requires SlotOk(k, st) && Runs(st.task) && !st.task.invoking
    ensures SlotOk(k, st.(task := Enter(st.task))) && Enter(st.task).invoking
  {
    EnterWellFormed(st.task);
    assert forall e :: e in Enter(st.task).history ==> e in st.task.history || e == Entered(st.task.stored.value.id);
    assert multiset(st.task.history)[Entered(st.task.stored.value.id)] > 0 ==> Entered(st.task.stored.value.id) in st.task.history;
    forall e | e in st.task.history && e.Constructed? && e.oneShot && e.id == st.task.stored.value.id
      ensures st.task.stored.value.completes.Some?
    {
      OneKind(st.task.history, e.id);
    }
  }

  /** A callable is constructed as a one-shot or not, never both. */
  lemma {:induction false} OneKind(history: seq<Event>, id: nat)
    requires LifeOf(history).Some? && id < Made(history)
    ensures !(Constructed(id, true) in history && Constructed(id, false) in history)
  {
    OnceEach(history, id);
  }

  /** The callable returns; a one-shot has asked for its destruction by then. */
  lemma {:induction false} LeaveOk(k: nat, st: SlotState)
    requires SlotOk(k, st) && st.task.invoking
    requires st.task.stored.value.completes.Some? ==> st.task.clearRequested
    ensures var t := Leave(st.task, st.task.stored.value.id); SlotOk(k, st.(task := t)) && !t.invoking
  {
    LeaveWellFormed(st.task);
    var t := Leave(st.task, st.task.stored.value.id);
    assert forall e: Event :: e.Entered? || e.Constructed? ==> multiset(t.history)[e] == multiset(st.task.history)[e];
    assert forall e: Event :: (e.Entered? || e.Constructed?) && e in t.history ==> e in multiset(t.history);
    assert forall e: Event :: (e.Entered? || e.Constructed?) && e in multiset(st.task.history) ==> e in st.task.history;
  }

  /** What Finish makes of the slot. */
  function Finished(st: SlotState, c: Callable): SlotState {
    var st' := if c.completes.Some? && st.used && c.completes.value.generation == st.generation then ReleaseSlot(st) else st;
    st'.(task := Leave(st'.task, c.id))
  }

  predicate CompletesSlot(c: Callable, k: nat, st: SlotState) {
    c.completes.Some? ==> c.completes.value.slot == k && (st.used ==> c.completes.value.generation == st.generation)
  }

  lemma {:induction false} FinishedOk(k: nat, st: SlotState, c: Callable)
    requires SlotOk(k, st) && st.task.invoking && st.task.stored == Some(c) && CompletesSlot(c, k, st)
    ensures SlotOk(k, Finished(st, c)) && !Finished(st, c).task.invoking
  {
    ReleaseOk(k, st);
    var st' := if c.completes.Some? && st.used then ReleaseSlot(st) else st;
    LeaveOk(k, st');
  }

  /** After the script: a one-shot's registration is released if it still exists. */
  lemma {:induction false} FinishOk(s: System, k: nat, c: Callable)
    requires SlotsOk(s, Some(k)) && k < |s.slots| && s.slots[k].task.stored == Some(c)
    requires CompletesSlot(c, k, s.slots[k])
    ensures SlotsOk(Finish(s, k, c), None) && |Finish(s, k, c).slots| == |s.slots|
  {
    assert SlotOk(k, s.slots[k]);
    hide SlotOk, ReleaseSlot, Leave;
    FinishedOk(k, s.slots[k], c);
    assert Finish(s, k, c).slots == s.slots[k := Finished(s.slots[k], c)];
  }

  lemma EnteredOk(s: System, k: nat, st: SlotState)
    requires SlotsOk(s, None) && k < |s.slots| && SlotOk(k, st) && st.task.invoking
    ensures SlotsOk(s.(slots := s.slots[k := st]), Some(k))
  {
    hide SlotOk;
  }

  /** The callable on the stack completes the registration of its own slot, if that still stands. */
  lemma CompletesOwn(s: System, k: nat, c: Callable, g: nat)
    requires SlotsOk(s, Some(k)) && k < |s.slots| && s.slots[k].task.stored == Some(c)
    requires c.completes == None || c.completes == Some(Handle(k, g))
    ensures CompletesSlot(c, k, s.slots[k])
  {
    assert SlotOk(k, s.slots[k]);
  }

  lemma {:induction false} PollSlotsOk(s: System, task: TaskRef, script: seq<Op>)
    requires SlotsOk(s, None)
    ensures SlotsOk(PollTask(s, task, script), None) && |PollTask(s, task, script).slots| == |s.slots|
  {
    match task
    case Foreign(_) => ExecAllSlotsOk(s, script, None);
    case Slot(k) =>
      if k < |s.slots| && Runs(s.slots[k].task) {
        PollRunningSlot(s, k, script);
      }
  }

  lemma {:induction false} PollRunningSlot(s: System, k: nat, script: seq<Op>)
    requires SlotsOk(s, None) && k < |s.slots| && Runs(s.slots[k].task)
    ensures SlotsOk(PollTask(s, Slot(k), script), None) && |PollTask(s, Slot(k), script).slots| == |s.slots|
  {
    var st := s.slots[k];
    assert SlotOk(k, st);
    EnterOk(k, st);
    var c := st.task.stored.value;
    var g := st.generation;
    assert c.completes == None || c.completes == Some(Handle(k, g));
    hide SlotsOk, SlotOk, ExecAll, Finish;
    EnteredOk(s, k, st.(task := Enter(st.task)));
    var entered := WithTask(s, k, Enter(st.task));
    ExecAllSlotsOk(entered, script, Some(k));
    ScriptKeepsCallable(entered, script, k);
    CompletesOwn(ExecAll(entered, script), k, c, g);
    FinishOk(ExecAll(entered, script), k, c);
  }

  lemma {:induction false} TurnSlotsOk(s: System, i: nat, now: nat, script: seq<Op>)
    requires SlotsOk(s, None)
    ensures SlotsOk(Turn(s, i, now, script), None) && |Turn(s, i, now, script).slots| == |s.slots|
  {
    hide SlotOk, PollTask;
    if Due(s, i, now) {
      SameSlotsOk(s, Begun(s, i), None);
      PollSlotsOk(Begun(s, i), s.entries[i].task.value, script);
    }
  }

  lemma {:induction false} TurnsSlotsOk(s: System, rounds: nat, now: nat, scripts: nat -> seq<Op>)
    requires SlotsOk(s, None)
    ensures SlotsOk(Turns(s, rounds, now, scripts), None) && |Turns(s, rounds, now, scripts).slots| == |s.slots|
  {
    hide SlotsOk, Turn;
    if rounds > 0 {
      TurnsSlotsOk(s, rounds - 1, now, scripts);
      TurnSlotsOk(Turns(s, rounds - 1, now, scripts), rounds - 1, now, scripts(rounds - 1));
    }
  }

  lemma {:induction false} ActSlotsOk(s: System, a: Action)
    requires SlotsOk(s, None)
    ensures SlotsOk(Act(s, a), None) && |Act(s, a).slots| == |s.slots|
  {
    hide SlotOk, Exec, Turns;
    match a
    case Do(op) => ExecSlotsOk(s, op, None);
    case Tick(now, scripts) =>
      SameSlotsOk(s, BeginPass(s), None);
      TurnsSlotsOk(BeginPass(s), |s.slots|, now, scripts);
  }

  /** In every run, with every behaviour of every callback: each slot's storage has lived a legal life, no
      one-shot callable has been entered twice, and nothing is left executing. */
  lemma {:induction false} RunSlotsOk(slots: nat, actions: seq<Action>)
    ensures SlotsOk(RunAll(Initial(slots), actions), None)
    ensures |RunAll(Initial(slots), actions).slots| == slots
  {
    if actions != [] {
      hide SlotsOk, Act;
      RunSlotsOk(slots, actions[..|actions| - 1]);
      ActSlotsOk(RunAll(Initial(slots), actions[..|actions| - 1]), actions[|actions| - 1]);
    }
  }

  /** What that says of one callable, in the terms of its slot's history. */
  lemma {:induction false} CallablesLiveOnce(slots: nat, actions: seq<Action>, k: nat, id: nat)
    requires k < slots
    ensures |RunAll(Initial(slots), actions).slots| == slots
    ensures var t := RunAll(Initial(slots), actions).slots[k].task;
            id < Made(t.history) ==>
              && Count(t.history, Constructed(id, true)) + Count(t.history, Constructed(id, false)) == 1
              && Count(t.history, Destroyed(id)) == (if t.stored.Some? && t.stored.value.id == id then 0 else 1)
              && (Constructed(id, true) in t.history ==> Count(t.history, Entered(id)) <= 1)
  {
    RunSlotsOk(slots, actions);
    var s := RunAll(Initial(slots), actions);
    assert SlotOk(k, s.slots[k]);
    if id < Made(s.slots[k].task.history) {
      OnceEach(s.slots[k].task.history, id);
    }
  }

  /** And that destruction is final: nothing happens to a callable after it, and it was not executing then. */
  lemma {:induction false} DestructionIsFinal(slots: nat, actions: seq<Action>, k: nat, p: nat, q: nat)
    requires k < slots
    ensures |RunAll(Initial(slots), actions).slots| == slots
    ensures var history := RunAll(Initial(slots), actions).slots[k].task.history;
            p < q < |history| && history[p].Destroyed? ==>
              && history[q].id != history[p].id
              && LifeOf(history[..p]).Some? && LifeOf(history[..p]).value.stage == Resting
  {
    RunSlotsOk(slots, actions);
    var s := RunAll(Initial(slots), actions);
    assert SlotOk(k, s.slots[k]);
    var history := s.slots[k].task.history;
    if p < q < |history| && history[p].Destroyed? {
      NothingAfterDestruction(history, p, q);
    }
  }

  // ---- handles -----------------------------------------------------------------------------

  /** An operation on a handle that is not valid changes nothing and says so. */
  lemma InvalidHandleIsInert(s: System, h: Handle, on: bool)
    requires !Valid(s, h)
    ensures RemoveHandle(s, h) == (s, false) && EnableHandle(s, h, on) == (s, false)
    ensures Exec(s, Remove(h)) == s && Exec(s, Enable(h)) == s && Exec(s, Disable(h)) == s
  {
  }

  predicate ReleasesGrow(s: System, s': System) {
    && |s'.slots| == |s.slots|
    && forall k :: 0 <= k < |s.slots| ==> s'.slots[k].releases >= s.slots[k].releases
  }

  lemma OpReleases(s: System, op: Op)
    ensures ReleasesGrow(s, Exec(s, op))
  {
    hide Compact, Unschedule, LowestFree, Set, Clear;
  }

  lemma {:induction false} ScriptReleases(s: System, script: seq<Op>)
    ensures ReleasesGrow(s, ExecAll(s, script))
  {
    hide Exec;
    if script != [] {
      ScriptReleases(s, script[..|script| - 1]);
      OpReleases(ExecAll(s, script[..|script| - 1]), script[|script| - 1]);
    }
  }

  /** A handle given out when its slot had been released `r` times is valid exactly while the slot is in use
      and the number of releases since then is a multiple of 65536. */
  lemma {:induction false} ValidExactly(s: System, x: Option<nat>, h: Handle, r: nat)
    requires SlotsOk(s, x) && h.slot < |s.slots|
    requires h.generation == r % GENERATIONS && s.slots[h.slot].releases >= r
    ensures Valid(s, h) <==> s.slots[h.slot].used && (s.slots[h.slot].releases - r) % GENERATIONS == 0
  {
    hide WellFormed, OneShotsOnce;
    assert SlotOk(h.slot, s.slots[h.slot]);
    SameResidue(s.slots[h.slot].releases, r);
  }

  lemma SameResidue(a: nat, r: nat)
    requires r <= a
    ensures a % GENERATIONS == r % GENERATIONS <==> (a - r) % GENERATIONS == 0
  {
  }

  /** Fewer than 65536 releases after the first one since it was given out, it is invalid. */
  lemma {:induction false} StaleNow(s: System, x: Option<nat>, h: Handle, r: nat)
    requires SlotsOk(s, x) && h.slot < |s.slots|
    requires h.generation == r % GENERATIONS && r < s.slots[h.slot].releases < r + GENERATIONS
    ensures !Valid(s, h)
  {
    ValidExactly(s, x, h, r);
    hide *;
    var d := s.slots[h.slot].releases - r;
    assert d % 0x1_0000 == d;
  }

  /** Removing through a valid handle releases its slot, so the handle is stale from then on. */
  lemma {:induction false} RemovalEndsHandle(s: System, h: Handle, x: Option<nat>)
    requires SlotsOk(s, x) && RemoveHandle(s, h).1
    ensures !Valid(RemoveHandle(s, h).0, h)
    ensures |RemoveHandle(s, h).0.slots| == |s.slots| && h.slot < |s.slots|
    ensures RemoveHandle(s, h).0.slots[h.slot].releases == s.slots[h.slot].releases + 1
  {
  }

  /** An operation that takes a slot out of use releases it. */
  lemma OpKeepsOrReleases(s: System, op: Op, k: nat)
    requires k < |s.slots| && s.slots[k].used
    ensures |Exec(s, op).slots| == |s.slots|
    ensures Exec(s, op).slots[k].used || Exec(s, op).slots[k].releases > s.slots[k].releases
  {
    hide Compact, Unschedule, Set, Clear;
  }

  lemma {:induction false} ScriptKeepsOrReleases(s: System, script: seq<Op>, k: nat)
    requires k < |s.slots| && s.slots[k].used
    ensures |ExecAll(s, script).slots| == |s.slots|
    ensures ExecAll(s, script).slots[k].used || ExecAll(s, script).slots[k].releases > s.slots[k].releases
  {
    hide Exec;
    if script != [] {
      var s' := ExecAll(s, script[..|script| - 1]);
      ScriptKeepsOrReleases(s, script[..|script| - 1], k);
      OpReleases(s', script[|script| - 1]);
      if s'.slots[k].used {
        OpKeepsOrReleases(s', script[|script| - 1], k);
      }
      ScriptReleases(s, script[..|script| - 1]);
    }
  }

  /** A one-shot that is invoked ends its own handle, whatever its callable did, so it is stale from then on. */
  lemma {:induction false} CompletionEndsHandle(s: System, k: nat, script: seq<Op>)
    requires SlotsOk(s, None) && k < |s.slots| && Runs(s.slots[k].task)
    requires s.slots[k].task.stored.value.completes.Some?
    ensures |PollTask(s, Slot(k), script).slots| == |s.slots|
    ensures PollTask(s, Slot(k), script).slots[k].releases > s.slots[k].releases
  {
    var st := s.slots[k];
    assert SlotOk(k, st);
    var c, g := st.task.stored.value, st.generation;
    EnterOk(k, st);
    hide SlotsOk, SlotOk, ExecAll, WellFormed;
    EnteredOk(s, k, st.(task := Enter(st.task)));
    var entered := WithTask(s, k, Enter(st.task));
    ExecAllSlotsOk(entered, script, Some(k));
    ScriptKeepsCallable(entered, script, k);
    ScriptKeepsOrReleases(entered, script, k);
    ScriptReleases(entered, script);
    CompletesOwn(ExecAll(entered, script), k, c, g);
  }
}
