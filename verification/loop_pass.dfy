/** One pass of the scheduler, with callbacks that may do anything: what is polled, in which order, and what stays. */
module LoopPass {
  import opened Bytes
  import opened Scheduler
  import opened CallbackTasks
  import opened LoopModel

  // ---- what an operation can do to the entries ---------------------------------------------

  predicate Unmoved(s: System, s': System) {
    s'.entries == s.entries && s'.nextId == s.nextId && s'.log == s.log
  }

  /** The gaps are closed, and at most one entry, with a new id, is put behind. */
  predicate Added(s: System, s': System) {
    && s'.nextId == s.nextId + 1 && s'.log == s.log
    && (s'.entries == Compact(s.entries) ||
        (|s'.entries| == |Compact(s.entries)| + 1 <= |s.slots|
         && s'.entries[..|s'.entries| - 1] == Compact(s.entries)
         && var e := s'.entries[|s'.entries| - 1];
            Live(e) && e.id == s.nextId && (e.periodic ==> e.period > 0)))
  }

  predicate Marked(s: System, s': System, task: TaskRef) {
    && s'.nextId == s.nextId && s'.log == s.log + [Unscheduled(task)]
    && s'.entries == if s.running then Unschedule(s.entries, task) else Compact(Unschedule(s.entries, task))
  }

  /** The task an operation may take off the scheduler. */
  function Target(op: Op): Option<TaskRef> {
    match op
    case Remove(h) => Some(Slot(h.slot))
    case RemoveTask(name) => Some(Foreign(name))
    case _ => None
  }

  /** Whether an operation calls the scheduler's add_periodic or add_one_shot. */
  predicate Registers(s: System, op: Op) {
    match op
    case Repeat(_, _) => Allocate(s, false).1.Some?
    case Delay(_, _) => Allocate(s, true).1.Some?
    case AddPeriodic(_, _, _) => true
    case AddOneShot(_, _) => true
    case _ => false
  }

  lemma {:induction false} OpEntries(s: System, op: Op)
    ensures var s' := Exec(s, op);
            && s'.running == s.running && |s'.slots| == |s.slots|
            && if Registers(s, op) then Added(s, s')
               else Unmoved(s, s') || (Target(op).Some? && Marked(s, s', Target(op).value))
  {
    hide Unschedule, LowestFree, Set, Clear, AddEntry, Added, Compact;
    match op
    case Repeat(period, clock) =>
      var (s1, h) := Allocate(s, false);
      if h.Some? {
        AddEntryAdds(s1, Slot(h.value.slot), period, clock, true);
        AddedSame(s, s1, AddEntry(s1, Slot(h.value.slot), period, clock, true).0, OnRepeat(s, period, clock).0);
      }
    case Delay(delay, clock) =>
      var (s1, h) := Allocate(s, true);
      if h.Some? {
        AddEntryAdds(s1, Slot(h.value.slot), 0, DelayDue(delay, clock), false);
        AddedSame(s, s1, AddEntry(s1, Slot(h.value.slot), 0, DelayDue(delay, clock), false).0, OnDelay(s, delay, clock).0);
      }
    case AddPeriodic(name, period, clock) => AddEntryAdds(s, Foreign(name), period, clock, true);
    case AddOneShot(name, due) => AddEntryAdds(s, Foreign(name), 0, due, false);
    case _ =>
  }

  lemma AddEntryAdds(s: System, task: TaskRef, period: nat, due: nat, periodic: bool)
    ensures var s' := AddEntry(s, task, period, due, periodic).0;
            Added(s, s') && s'.running == s.running && |s'.slots| == |s.slots|
  {
    hide Compact;
  }

  /** Only the scheduler's fields matter to Added. */
  lemma AddedSame(s: System, s1: System, s2: System, s': System)
    requires Added(s1, s2) && s1.entries == s.entries && s1.nextId == s.nextId && s1.log == s.log && |s1.slots| == |s.slots|
    requires s'.entries == s2.entries && s'.nextId == s2.nextId && s'.log == s2.log
    ensures Added(s, s')
  {
    hide Compact;
  }

  // ---- order -------------------------------------------------------------------------------

  /** Everything registered at position m or behind, and everything to come, is younger than p. */
  predicate YoungerFrom(p: nat, s: System, m: nat) {
    p < s.nextId && forall j :: m <= j < |s.entries| ==> p < s.entries[j].id
  }

  lemma {:induction false} CompactYounger(entries: seq<Entry>, p: nat, m: nat)
    requires forall j :: m <= j < |entries| ==> p < entries[j].id
    ensures forall j :: m <= j < |Compact(entries)| ==> p < Compact(entries)[j].id
  {
    forall j | m <= j < |Compact(entries)| ensures p < Compact(entries)[j].id {
      CompactShifts(entries, j);
      assert Compact(entries)[j] == Compact(entries)[j..][0];
      assert Compact(entries)[j] in entries[j..];
    }
  }

  lemma {:induction false} OpYounger(s: System, op: Op, p: nat, m: nat)
    requires YoungerFrom(p, s, m)
    ensures YoungerFrom(p, Exec(s, op), m)
  {
    OpEntries(s, op);
    hide Exec;
    CompactYounger(s.entries, p, m);
    if Target(op).Some? {
      CompactYounger(Unschedule(s.entries, Target(op).value), p, m);
    }
  }

  lemma {:induction false} OpEntriesOk(s: System, op: Op)
    requires EntriesOk(s)
    ensures EntriesOk(Exec(s, op))
  {
    OpEntries(s, op);
    hide Exec;
    CompactEntriesOk(s, s.entries);
    if Target(op).Some? {
      CompactEntriesOk(s, Unschedule(s.entries, Target(op).value));
    }
  }

  lemma {:induction false} CompactEntriesOk(s: System, entries: seq<Entry>)
    requires EntriesOk(s.(entries := entries))
    ensures EntriesOk(s.(entries := Compact(entries)))
  {
    CompactOrdered(entries, s.nextId);
    CompactKeeps(entries);
    forall i | 0 <= i < |Compact(entries)| && Compact(entries)[i].periodic ensures Compact(entries)[i].period > 0 {
      assert Compact(entries)[i] in entries;
    }
  }

  /** The system right before the script of a poll runs, if it runs. */
  function EnteredFor(s: System, task: TaskRef): System {
    match task
    case Foreign(_) => s
    case Slot(k) => if k < |s.slots| && Runs(s.slots[k].task) then WithTask(s, k, Enter(s.slots[k].task)) else s
  }

  /** What the callback does: nothing if the task is not enabled. */
  function Performed(s: System, task: TaskRef, script: seq<Op>): seq<Op> {
    if task.Slot? && !(task.index < |s.slots| && Runs(s.slots[task.index].task)) then [] else script
  }

  /** As far as the scheduler's own fields go, a poll is its script. */
  lemma PollIsScript(s: System, task: TaskRef, script: seq<Op>)
    ensures var s' := ExecAll(EnteredFor(s, task), Performed(s, task, script));
            var r := PollTask(s, task, script);
            && r.entries == s'.entries && r.nextId == s'.nextId && r.log == s'.log && r.running == s'.running
            && |r.slots| == |s'.slots| == |s.slots|
  {
    hide Exec;
    SlotCountStays(EnteredFor(s, task), Performed(s, task, script));
  }

  /** The state a due entry's poll ends in, before the bookkeeping, as far as the scheduler is concerned. */
  function Polling(s: System, i: nat, script: seq<Op>): System
    requires i < |s.entries| && s.entries[i].task.Some?
  {
    var b, task := Begun(s, i), s.entries[i].task.value;
    ExecAll(EnteredFor(b, task), Performed(b, task, script))
  }

  /** A round with a due entry is its poll and the bookkeeping. */
  lemma TurnIsPoll(s: System, i: nat, now: nat, script: seq<Op>)
    requires Due(s, i, now)
    ensures var p, r := Polling(s, i, script), Turn(s, i, now, script);
            && r.entries == Settled(p, i, now).entries && r.nextId == p.nextId && r.log == p.log
            && r.running == p.running && |r.slots| == |p.slots| == |s.slots|
  {
    PollIsScript(Begun(s, i), s.entries[i].task.value, script);
    hide ExecAll, PollTask, AfterPoll;
  }

  lemma SettledYounger(p: nat, s: System, m: nat, i: nat, now: nat)
    requires YoungerFrom(p, s, m)
    ensures YoungerFrom(p, Settled(s, i, now), m)
  {
  }

  lemma SettledEntriesOk(s: System, i: nat, now: nat)
    requires EntriesOk(s)
    ensures EntriesOk(Settled(s, i, now))
  {
  }

  lemma {:induction false} ScriptYounger(s: System, script: seq<Op>, p: nat, m: nat)
    requires YoungerFrom(p, s, m)
    ensures YoungerFrom(p, ExecAll(s, script), m)
  {
    hide Exec;
    if script != [] {
      ScriptYounger(s, script[..|script| - 1], p, m);
      OpYounger(ExecAll(s, script[..|script| - 1]), script[|script| - 1], p, m);
    }
  }

  lemma {:induction false} ScriptEntriesOk(s: System, script: seq<Op>)
    requires EntriesOk(s)
    ensures EntriesOk(ExecAll(s, script))
  {
    hide Exec, EntriesOk;
    if script != [] {
      ScriptEntriesOk(s, script[..|script| - 1]);
      OpEntriesOk(ExecAll(s, script[..|script| - 1]), script[|script| - 1]);
    }
  }

  function PolledIds(log: seq<LogEntry>): seq<nat> {
    if log == [] then []
    else
      var before := PolledIds(log[..|log| - 1]);
      match log[|log| - 1]
      case Polled(id) => before + [id]
      case Unscheduled(_) => before
  }

  lemma {:induction false} ScriptPollsNothing(s: System, script: seq<Op>)
    ensures s.log <= ExecAll(s, script).log
    ensures PolledIds(ExecAll(s, script).log) == PolledIds(s.log)
    ensures ExecAll(s, script).running == s.running
  {
    if script != [] {
      var s' := ExecAll(s, script[..|script| - 1]);
      ScriptPollsNothing(s, script[..|script| - 1]);
      OpEntries(s', script[|script| - 1]);
      hide Exec;
      var l := Exec(s', script[|script| - 1]).log;
      if l != s'.log {
        assert l[..|l| - 1] == s'.log;
      }
    }
  }

  predicate Increasing(ids: seq<nat>) {
    forall i, j :: 0 <= i < j < |ids| ==> ids[i] < ids[j]
  }

  /** Before round i of a pass: the polls so far, at most one a round, went from old to young registrations,
      and everything from position i on is younger. */
  predicate InOrder(start: System, s: System, i: nat) {
    && PolledIds(start.log) <= PolledIds(s.log)
    && var polled := PolledIds(s.log)[|PolledIds(start.log)|..];
       |polled| <= i && Increasing(polled) && forall p :: p in polled ==> YoungerFrom(p, s, i)
  }

  lemma {:induction false} TurnEntriesOk(s: System, i: nat, now: nat, script: seq<Op>)
    requires EntriesOk(s)
    ensures EntriesOk(Turn(s, i, now, script))
  {
    if Due(s, i, now) {
      var b, task := Begun(s, i), s.entries[i].task.value;
      TurnIsPoll(s, i, now, script);
      hide Turn, ExecAll, Settled;
      ScriptEntriesOk(EnteredFor(b, task), Performed(b, task, script));
      SettledEntriesOk(Polling(s, i, script), i, now);
    }
  }

  /** A poll puts nothing old behind its own position. */
  lemma {:induction false} PollingYounger(s: System, i: nat, now: nat, script: seq<Op>, p: nat)
    requires Due(s, i, now) && YoungerFrom(p, s, i + 1)
    ensures YoungerFrom(p, Turn(s, i, now, script), i + 1)
  {
    var b, task := Begun(s, i), s.entries[i].task.value;
    TurnIsPoll(s, i, now, script);
    hide Turn, ExecAll, Settled;
    ScriptYounger(EnteredFor(b, task), Performed(b, task, script), p, i + 1);
    SettledYounger(p, Polling(s, i, script), i + 1, i, now);
  }

  lemma {:induction false} PollingPolls(s: System, i: nat, now: nat, script: seq<Op>)
    requires Due(s, i, now)
    ensures PolledIds(Turn(s, i, now, script).log) == PolledIds(s.log) + [s.entries[i].id]
  {
    var b, task := Begun(s, i), s.entries[i].task.value;
    TurnIsPoll(s, i, now, script);
    hide Turn, ExecAll;
    ScriptPollsNothing(EnteredFor(b, task), Performed(b, task, script));
    assert b.log[..|b.log| - 1] == s.log;
  }

  lemma {:induction false} TurnInOrder(start: System, s: System, i: nat, now: nat, script: seq<Op>)
    requires EntriesOk(s) && InOrder(start, s, i)
    ensures InOrder(start, Turn(s, i, now, script), i + 1)
  {
    var base := |PolledIds(start.log)|;
    var polled := PolledIds(s.log)[base..];
    var s' := Turn(s, i, now, script);
    if Due(s, i, now) {
      var id := s.entries[i].id;
      PollingPolls(s, i, now, script);
      hide Turn, PolledIds;
      assert PolledIds(s'.log)[base..] == polled + [id];
      forall p | p in polled + [id] ensures YoungerFrom(p, s', i + 1) {
        assert p in polled ==> YoungerFrom(p, s, i);
        PollingYounger(s, i, now, script, p);
      }
      assert forall k :: 0 <= k < |polled| ==> YoungerFrom(polled[k], s, i);
    } else {
      forall p | p in polled ensures YoungerFrom(p, s, i + 1) {
        assert YoungerFrom(p, s, i);
      }
    }
  }

  lemma {:induction false} TurnsInOrder(s: System, rounds: nat, now: nat, scripts: nat -> seq<Op>)
    requires EntriesOk(s)
    ensures EntriesOk(Turns(s, rounds, now, scripts)) && InOrder(s, Turns(s, rounds, now, scripts), rounds)
  {
    if rounds > 0 {
      hide Turn, EntriesOk, InOrder;
      TurnsInOrder(s, rounds - 1, now, scripts);
      var s' := Turns(s, rounds - 1, now, scripts);
      TurnEntriesOk(s', rounds - 1, now, scripts(rounds - 1));
      TurnInOrder(s, s', rounds - 1, now, scripts(rounds - 1));
    }
  }

  /** Every pass, whatever its callbacks do: at most as many polls as there are places, each of another entry,
      in registration order; and what remains is in registration order. */
  lemma {:induction false} PassOrder(s: System, now: nat, scripts: nat -> seq<Op>)
    requires EntriesOk(s)
    ensures var s' := Pass(s, now, scripts);
            && EntriesOk(s') && AllLive(s'.entries)
            && PolledIds(s.log) <= PolledIds(s'.log)
            && var polled := PolledIds(s'.log)[|PolledIds(s.log)|..];
               |polled| <= |s.slots| && Increasing(polled)
  {
    CompactEntriesOk(s, s.entries);
    var b := BeginPass(s);
    TurnsInOrder(b, |s.slots|, now, scripts);
    var t := Turns(b, |s.slots|, now, scripts);
    hide Turns;
    CompactEntriesOk(t, t.entries);
    CompactKeeps(t.entries);
  }
}
