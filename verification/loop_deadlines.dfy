/** Over whole runs: when a periodic registration is polled, and what its deadline is. */
module LoopDeadlines {
  import opened Bytes
  import opened Scheduler
  import opened LoopModel
  import opened LoopPass
  import opened LoopCompleteness
  import D = Deadlines

  /** In no pass of the run does a callback register across a gap. */
  predicate QuietRun(s: System, actions: seq<Action>) {
    actions == [] ||
    (QuietRun(s, actions[..|actions| - 1]) &&
     match actions[|actions| - 1]
     case Do(_) => true
     case Tick(now, scripts) =>
       var b := BeginPass(RunAll(s, actions[..|actions| - 1]));
       QuietRounds(b, |b.slots|, now, scripts))
  }

  /** The clock readings of the passes. */
  function Times(actions: seq<Action>): seq<nat> {
    if actions == [] then []
    else match actions[|actions| - 1]
      case Do(_) => Times(actions[..|actions| - 1])
      case Tick(now, _) => Times(actions[..|actions| - 1]) + [now]
  }

  /** How often the log says the registration was polled. */
  function Polls(log: seq<LogEntry>, id: nat): nat {
    multiset(PolledIds(log))[id]
  }

  // ---- counting polls ----------------------------------------------------------------------

  lemma {:induction false} PolledIdsConcat(a: seq<LogEntry>, b: seq<LogEntry>)
    ensures PolledIds(a + b) == PolledIds(a) + PolledIds(b)
  {
    if b == [] {
      assert a + b == a;
    } else {
      assert (a + b)[..|a + b| - 1] == a + b[..|b| - 1];
      PolledIdsConcat(a, b[..|b| - 1]);
    }
  }

  lemma {:induction false} PolledIdsAre(log: seq<LogEntry>, id: nat)
    ensures id in PolledIds(log) <==> Polled(id) in log
  {
    if log != [] {
      PolledIdsAre(log[..|log| - 1], id);
      assert log == log[..|log| - 1] + [log[|log| - 1]];
    }
  }

  lemma {:induction false} OnceIfIncreasing(ids: seq<nat>, id: nat)
    requires Increasing(ids)
    ensures multiset(ids)[id] == if id in ids then 1 else 0
  {
    if ids != [] {
      var n := |ids| - 1;
      assert ids == ids[..n] + [ids[n]];
      OnceIfIncreasing(ids[..n], id);
      assert forall i :: 0 <= i < n ==> ids[..n][i] == ids[i] < ids[n];
    }
  }

  /** A pass polls a registration once if it polls it at all. */
  lemma {:induction false} PassPollsOnce(s: System, now: nat, scripts: nat -> seq<Op>, id: nat)
    requires EntriesOk(s) && s.log <= Pass(s, now, scripts).log
    ensures var log := Pass(s, now, scripts).log;
            Polls(log, id) == Polls(s.log, id) + if Polled(id) in log[|s.log|..] then 1 else 0
  {
    PassOrder(s, now, scripts);
    var log := Pass(s, now, scripts).log;
    hide Pass, EntriesOk;
    var more := log[|s.log|..];
    assert log == s.log + more;
    PolledIdsConcat(s.log, more);
    PolledIdsAre(more, id);
    hide PolledIds;
    assert PolledIds(log)[|PolledIds(s.log)|..] == PolledIds(more);
    OnceIfIncreasing(PolledIds(more), id);
  }

  // ---- one step ----------------------------------------------------------------------------

  /** The step from s to s' kept the entry, as e', and polled it `polls` times, unless its task was removed. */
  predicate Carries(s: System, s': System, e: Entry, e': Entry, polls: nat)
    requires Live(e)
  {
    && s.log <= s'.log
    && (Unscheduled(e.task.value) !in s'.log[|s.log|..] ==>
          e' in s'.entries && Polls(s'.log, e.id) == Polls(s.log, e.id) + polls)
  }

  lemma {:induction false} OpCarries(s: System, op: Op, e: Entry)
    requires e in s.entries && Live(e)
    ensures Carries(s, Exec(s, op), e, e, 0)
  {
    OpEntries(s, op);
    var s' := Exec(s, op);
    hide Exec, Registers, Live;
    CompactKeeps(s.entries);
    if s'.log == s.log {
      if s'.entries != s.entries && s'.entries != Compact(s.entries) {
        assert e in s'.entries[..|s'.entries| - 1];
      }
    } else {
      var task := Target(op).value;
      var marked := Unschedule(s.entries, task);
      CompactKeeps(marked);
      assert s'.log[..|s'.log| - 1] == s.log && s'.log[|s.log|..] == [Unscheduled(task)];
      var j :| 0 <= j < |s.entries| && s.entries[j] == e;
      assert e.task != Some(task) ==> marked[j] == e;
    }
  }

  lemma {:induction false} BeforeIsPart(log: seq<LogEntry>, id: nat)
    ensures forall x :: x in Before(log, id) ==> x in log
  {
    if log != [] {
      BeforeIsPart(log[1..], id);
    }
  }

  lemma {:induction false} PassCarries(s: System, now: nat, scripts: nat -> seq<Op>, e: Entry)
    requires EntriesOk(s) && QuietRounds(BeginPass(s), |s.slots|, now, scripts)
    requires e in s.entries && Live(e) && e.periodic && e.period > 0
    ensures var (fired, due) := D.Visit(e.nextDue, e.period, now);
            Carries(s, Pass(s, now, scripts), e, e.(nextDue := due), if fired then 1 else 0)
  {
    KeptWithDeadline(s, now, scripts, e);
    PolledExactlyWhenDue(s, now, scripts, e);
    PassPollsOnce(s, now, scripts, e.id);
    var more := Pass(s, now, scripts).log[|s.log|..];
    hide Pass, QuietRounds, EntriesOk, Polls;
    BeforeIsPart(more, e.id);
  }

  lemma {:induction false} CarriesOn(s: System, s1: System, s2: System, e: Entry, e1: Entry, e2: Entry, p: nat, q: nat)
    requires Live(e) && Live(e1) && e1.task == e.task && e1.id == e.id
    requires Carries(s, s1, e, e1, p) && (e1 in s1.entries ==> Carries(s1, s2, e1, e2, q)) && s1.log <= s2.log
    ensures Carries(s, s2, e, e2, p + q)
  {
    hide Polls, Live;
    var a, b := s1.log[|s.log|..], s2.log[|s1.log|..];
    assert s2.log[|s.log|..] == a + b;
  }

  // ---- runs --------------------------------------------------------------------------------

  lemma {:induction false} VisitsSnoc(period: nat, h: D.History, times: seq<nat>, now: nat)
    requires period > 0
    ensures var h' := D.Visits(period, h, times);
            var (fired, due) := D.Visit(h'.due, period, now);
            D.Visits(period, h, times + [now]) == if fired then D.History(due, h'.fires + 1, now) else h'
    decreases |times|
  {
    if times == [] {
      assert [now][1..] == [];
    } else {
      assert (times + [now])[1..] == times[1..] + [now];
      var (fired, due) := D.Visit(h.due, period, times[0]);
      VisitsSnoc(period, if fired then D.History(due, h.fires + 1, times[0]) else h, times[1..], now);
    }
  }

  lemma {:induction false} ActEntriesOk(s: System, a: Action)
    requires EntriesOk(s)
    ensures EntriesOk(Act(s, a)) && s.log <= Act(s, a).log
  {
    hide EntriesOk, Exec, Pass;
    match a
    case Do(op) =>
      OpEntriesOk(s, op);
      OpEntries(s, op);
    case Tick(now, scripts) =>
      PassOrder(s, now, scripts);
      PassLogGrows(s, now, scripts);
  }

  lemma {:induction false} PassLogGrows(s: System, now: nat, scripts: nat -> seq<Op>)
    ensures s.log <= Pass(s, now, scripts).log
  {
    TurnsLogGrow(BeginPass(s), |s.slots|, now, scripts);
    hide Turns;
  }

  lemma {:induction false} TurnLogGrows(s: System, i: nat, now: nat, script: seq<Op>)
    ensures s.log <= Turn(s, i, now, script).log
  {
    if Due(s, i, now) {
      var b, task := Begun(s, i), s.entries[i].task.value;
      TurnIsPoll(s, i, now, script);
      ScriptPollsNothing(EnteredFor(b, task), Performed(b, task, script));
      hide Turn, ExecAll;
    }
  }

  lemma {:induction false} TurnsLogGrow(s: System, rounds: nat, now: nat, scripts: nat -> seq<Op>)
    ensures s.log <= Turns(s, rounds, now, scripts).log
  {
    hide Turn;
    if rounds > 0 {
      TurnsLogGrow(s, rounds - 1, now, scripts);
      TurnLogGrows(Turns(s, rounds - 1, now, scripts), rounds - 1, now, scripts(rounds - 1));
    }
  }

  lemma {:induction false} RunEntriesOk(s: System, actions: seq<Action>)
    requires EntriesOk(s)
    ensures EntriesOk(RunAll(s, actions)) && s.log <= RunAll(s, actions).log
  {
    hide EntriesOk, Act;
    if actions != [] {
      RunEntriesOk(s, actions[..|actions| - 1]);
      ActEntriesOk(RunAll(s, actions[..|actions| - 1]), actions[|actions| - 1]);
    }
  }

  /** What the passes of a run, seen as bare visits, make of a periodic entry. */
  function Visited(e: Entry, actions: seq<Action>): D.History
    requires e.period > 0
  {
    D.Visits(e.period, D.History(e.nextDue, 0, 0), Times(actions))
  }

  /** Over any quiet run, with any operations between and during its passes: unless its task is removed, a
      periodic entry stays scheduled, has been polled as often as bare visits at the times of the passes would
      fire it, and has the deadline they leave. */
  lemma {:induction false} EntryOverRun(s: System, actions: seq<Action>, e: Entry)
    requires EntriesOk(s) && QuietRun(s, actions)
    requires e in s.entries && Live(e) && e.periodic && e.period > 0
    ensures var h := Visited(e, actions);
            Carries(s, RunAll(s, actions), e, e.(nextDue := h.due), h.fires)
  {
    if actions == [] {
      assert s.log[|s.log|..] == [];
    } else {
      var before, last := actions[..|actions| - 1], actions[|actions| - 1];
      var s1, h1 := RunAll(s, before), Visited(e, before);
      var e1 := e.(nextDue := h1.due);
      EntryOverRun(s, before, e);
      RunEntriesOk(s, before);
      ActEntriesOk(s1, last);
      hide EntriesOk, Carries, QuietRounds, Exec, Pass;
      match last {
        case Do(op) =>
          if e1 in s1.entries {
            OpCarries(s1, op, e1);
          }
          CarriesOn(s, s1, RunAll(s, actions), e, e1, e1, h1.fires, 0);
        case Tick(now, scripts) =>
          var (fired, due) := D.Visit(h1.due, e.period, now);
          if e1 in s1.entries {
            PassCarries(s1, now, scripts, e1);
          }
          VisitsSnoc(e.period, D.History(e.nextDue, 0, 0), Times(before), now);
          CarriesOn(s, s1, RunAll(s, actions), e, e1, e1.(nextDue := due), h1.fires, if fired then 1 else 0);
      }
    }
  }

  /** The deadline does not drift: it is the k-th multiple of the period after the first deadline, and the
      first one behind the pass that polled the entry last. */
  lemma {:induction false} DeadlineOnGrid(s: System, actions: seq<Action>, e: Entry) returns (k: nat)
    requires EntriesOk(s) && QuietRun(s, actions)
    requires e in s.entries && Live(e) && e.periodic && e.period > 0
    ensures var s' := RunAll(s, actions);
            && s.log <= s'.log
            && D.OnGrid(e.nextDue, e.period, Visited(e, actions), k)
            && (Unscheduled(e.task.value) !in s'.log[|s.log|..] ==>
                  e.(nextDue := e.nextDue + k * e.period) in s'.entries)
  {
    EntryOverRun(s, actions, e);
    k := D.NoDrift(e.nextDue, e.period, D.History(e.nextDue, 0, 0), 0, Times(actions));
    hide RunAll, D.Visits, Polls, EntriesOk;
  }

  /** Passes up to `limit` poll an entry first due at t0 at most floor((limit - t0) / period) + 1 times. */
  lemma {:induction false} PollsBounded(s: System, actions: seq<Action>, e: Entry, limit: nat)
    requires EntriesOk(s) && QuietRun(s, actions)
    requires e in s.entries && Live(e) && e.periodic && e.period > 0
    requires e.nextDue <= limit && forall i :: 0 <= i < |Times(actions)| ==> Times(actions)[i] <= limit
    ensures var s' := RunAll(s, actions);
            && s.log <= s'.log
            && (Unscheduled(e.task.value) !in s'.log[|s.log|..] ==>
                  Polls(s'.log, e.id) <= Polls(s.log, e.id) + (limit - e.nextDue) / e.period + 1)
  {
    EntryOverRun(s, actions, e);
    D.FiringBound(e.nextDue, e.period, Times(actions), limit);
    hide RunAll, D.Visits, Polls, EntriesOk;
  }

  /** The entry is polled by the passes at whose times a PeriodicTimer of the same period, reset at the first
      deadline, is ready: equally often in every run, so also in every initial part of one. */
  lemma {:induction false} PolledLikeTimer(s: System, actions: seq<Action>, e: Entry)
    requires EntriesOk(s) && QuietRun(s, actions)
    requires e in s.entries && Live(e) && e.periodic && e.period > 0
    ensures var s' := RunAll(s, actions);
            var timer := D.Asked(D.Timer(e.period, e.nextDue, true), 0, 0, Times(actions));
            && s.log <= s'.log
            && (Unscheduled(e.task.value) !in s'.log[|s.log|..] ==>
                  && Polls(s'.log, e.id) == Polls(s.log, e.id) + timer.fires
                  && e.(nextDue := timer.due) in s'.entries)
  {
    EntryOverRun(s, actions, e);
    D.TimerMatchesEntry(D.Timer(e.period, e.nextDue, true), 0, 0, Times(actions));
    hide RunAll, D.Visits, D.Asked, Polls, EntriesOk;
  }

  // ---- 64-bit arithmetic -------------------------------------------------------------------

  /** A quiet round sets a 64-bit deadline if the time plus the period of the polled entry is one. */
  lemma {:induction false} QuietTurnIn64(s: System, i: nat, now: nat, script: seq<Op>)
    requires s.running && QuietTurn(s, i, now, script)
    requires Due(s, i, now) ==> now + s.entries[i].period < D.WRAP64
    ensures TurnIn64(s, i, now, script)
  {
    if Due(s, i, now) {
      var b, e := Begun(s, i), s.entries[i];
      var task := e.task.value;
      PollIsScript(b, task, script);
      var u := ScriptFollows(EnteredFor(b, task), Performed(b, task, script), i);
      hide ExecAll, PollTask, Unshifted;
      assert SameOrDropped(e, PollTask(b, task, script).entries[i], u);
      if e.periodic && e.period > 0 {
        D.CatchUpBound(e.nextDue, e.period, now);
      }
    }
  }
}
