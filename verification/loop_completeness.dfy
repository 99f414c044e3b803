/** When no callback registers across a gap, a pass polls exactly the entries that were due, and keeps the rest. */
module LoopCompleteness {
  import opened Bytes
  import opened Scheduler
  import opened CallbackTasks
  import opened LoopModel
  import opened LoopPass
  import Deadlines

  // ---- the condition -----------------------------------------------------------------------

  /** Nothing at or before position i is waiting to be compacted away. */
  predicate NoGap(s: System, i: nat) {
    i < |s.entries| && AllLive(s.entries[..i + 1])
  }

  /** No operation of the script registers while there is a gap at or before the entry being polled. */
  predicate Unshifted(s: System, script: seq<Op>, i: nat) {
    script == [] ||
    (Unshifted(s, script[..|script| - 1], i) &&
     var s' := ExecAll(s, script[..|script| - 1]);
     (Registers(s', script[|script| - 1]) ==> NoGap(s', i)))
  }

  predicate QuietTurn(s: System, i: nat, now: nat, script: seq<Op>) {
    Due(s, i, now) ==>
      var b, task := Begun(s, i), s.entries[i].task.value;
      Unshifted(EnteredFor(b, task), Performed(b, task, script), i)
  }

  /** Rounds 0 to `rounds` - 1 are quiet. */
  predicate QuietRounds(s: System, rounds: nat, now: nat, scripts: nat -> seq<Op>) {
    rounds == 0 ||
    (QuietRounds(s, rounds - 1, now, scripts)
     && QuietTurn(Turns(s, rounds - 1, now, scripts), rounds - 1, now, scripts(rounds - 1)))
  }

  // ---- what a script does to the entries ---------------------------------------------------

  /** Up to position i entries stay where they are, or are taken off; behind it live entries stay, or are
      taken off; and an entry that is live now and not new is one that was there, and was not taken off. */
  ghost predicate Follows(s: System, s': System, i: nat, new_: seq<LogEntry>) {
    && s'.log == s.log + new_ && s.nextId <= s'.nextId && s'.running == s.running
    && (forall x :: x in new_ ==> x.Unscheduled?)
    && i < |s.entries| && i < |s'.entries|
    && (forall j :: 0 <= j <= i ==> SameOrDropped(s.entries[j], s'.entries[j], new_))
    && (forall e :: e in s.entries[i + 1..] && Live(e) ==> e in s'.entries[i + 1..] || Unscheduled(e.task.value) in new_)
    && (forall e :: e in s'.entries && Live(e) && e.id < s.nextId ==> e in s.entries && Unscheduled(e.task.value) !in new_)
  }

  predicate SameOrDropped(e: Entry, e': Entry, new_: seq<LogEntry>) {
    e' == e || (e.task.Some? && e' == Dropped(e) && Unscheduled(e.task.value) in new_)
  }

  lemma {:induction false} AddedShape(s: System, s': System, i: nat)
    requires Added(s, s') && NoGap(s, i)
    ensures |s'.entries| > i && s'.entries[..i + 1] == s.entries[..i + 1]
    ensures var c, back := Compact(s.entries[i + 1..]), s'.entries[i + 1..];
            back == c || (|back| == |c| + 1 && back[..|c|] == c && back[|c|].id == s.nextId)
  {
    CompactBehind(s.entries, i + 1);
    var c := Compact(s.entries);
    assert c[..i + 1] == s.entries[..i + 1] && c[i + 1..] == Compact(s.entries[i + 1..]);
    if s'.entries != c {
      assert s'.entries[..|c|] == c;
      assert s'.entries[..i + 1] == c[..i + 1];
      assert s'.entries[i + 1..][..|c| - i - 1] == c[i + 1..];
    }
  }

  /** From the shape: `c` holds the live entries behind position i, and perhaps one new entry follows them. */
  lemma {:induction false} ShapeFollows(s: System, s': System, i: nat, c: seq<Entry>)
    requires i < |s.entries| && i < |s'.entries| && s'.entries[..i + 1] == s.entries[..i + 1]
    requires s'.log == s.log && s.nextId <= s'.nextId && s'.running == s.running
    requires forall e :: e in c <==> e in s.entries[i + 1..] && Live(e)
    requires |c| <= |s'.entries[i + 1..]| <= |c| + 1 && s'.entries[i + 1..][..|c|] == c
    requires |s'.entries[i + 1..]| > |c| ==> s'.entries[i + 1..][|c|].id == s.nextId
    ensures Follows(s, s', i, [])
  {
    hide Live;
    assert s'.log == s.log + [];
    var back := s'.entries[i + 1..];
    forall e | e in c ensures e in back {
      var k :| 0 <= k < |c| && c[k] == e;
      assert back[k] == back[..|c|][k];
    }
    forall j | 0 <= j <= i ensures SameOrDropped(s.entries[j], s'.entries[j], []) {
      assert s.entries[j] == s.entries[..i + 1][j] == s'.entries[..i + 1][j];
    }
    forall e | e in s'.entries && Live(e) && e.id < s.nextId ensures e in s.entries {
      var k :| 0 <= k < |s'.entries| && s'.entries[k] == e;
      if k <= i {
        assert e == s'.entries[..i + 1][k] == s.entries[..i + 1][k];
      } else {
        assert e == back[k - i - 1] == back[..|c|][k - i - 1];
        assert e in c;
      }
    }
  }

  lemma {:induction false} AddedFollows(s: System, s': System, i: nat)
    requires Added(s, s') && NoGap(s, i) && s'.running == s.running
    ensures Follows(s, s', i, [])
  {
    AddedShape(s, s', i);
    CompactKeeps(s.entries[i + 1..]);
    hide Compact, NoGap, Follows;
    ShapeFollows(s, s', i, Compact(s.entries[i + 1..]));
  }

  lemma {:induction false} MarkedFollows(s: System, s': System, i: nat, task: TaskRef)
    requires Marked(s, s', task) && s.running && s'.running && i < |s.entries|
    ensures Follows(s, s', i, [Unscheduled(task)])
  {
    forall e | e in s.entries[i + 1..] && Live(e) && e.task.value != task ensures e in s'.entries[i + 1..] {
      var k :| 0 <= k < |s.entries[i + 1..]| && s.entries[i + 1..][k] == e;
      assert s'.entries[i + 1..][k] == e;
    }
  }

  lemma {:induction false} OpFollows(s: System, op: Op, i: nat) returns (new_: seq<LogEntry>)
    requires s.running && i < |s.entries| && (Registers(s, op) ==> NoGap(s, i))
    ensures Follows(s, Exec(s, op), i, new_)
  {
    OpEntries(s, op);
    var s' := Exec(s, op);
    hide Exec, Added, Registers, NoGap;
    if Registers(s, op) {
      hide Follows;
      AddedFollows(s, s', i);
      new_ := [];
    } else if Unmoved(s, s') {
      new_ := [];
      assert s.log + [] == s.log;
    } else {
      hide Follows;
      MarkedFollows(s, s', i, Target(op).value);
      new_ := [Unscheduled(Target(op).value)];
    }
  }

  lemma {:induction false} FollowsTrans(s: System, s1: System, s2: System, i: nat, a: seq<LogEntry>, b: seq<LogEntry>)
    requires Follows(s, s1, i, a) && Follows(s1, s2, i, b)
    ensures Follows(s, s2, i, a + b)
  {
    assert s.log + a + b == s.log + (a + b);
    forall j | 0 <= j <= i ensures SameOrDropped(s.entries[j], s2.entries[j], a + b) {
      assert SameOrDropped(s.entries[j], s1.entries[j], a);
      assert SameOrDropped(s1.entries[j], s2.entries[j], b);
    }
  }

  lemma {:induction false} ScriptFollows(s: System, script: seq<Op>, i: nat) returns (new_: seq<LogEntry>)
    requires s.running && i < |s.entries| && Unshifted(s, script, i)
    ensures Follows(s, ExecAll(s, script), i, new_)
  {
    if script == [] {
      new_ := [];
      assert s.log + [] == s.log;
    } else {
      var s' := ExecAll(s, script[..|script| - 1]);
      var a := ScriptFollows(s, script[..|script| - 1], i);
      assert s'.running && i < |s'.entries|;
      var b := OpFollows(s', script[|script| - 1], i);
      hide Follows, Exec;
      FollowsTrans(s, s', ExecAll(s, script), i, a, b);
      new_ := a + b;
    }
  }

  // ---- one round ---------------------------------------------------------------------------

  /** A quiet round: the entry at i is polled if it is due and settled if it is still there; the rest Follows. */
  ghost predicate Round(s: System, s': System, i: nat, now: nat, u: seq<LogEntry>) {
    if Due(s, i, now) then exists p :: Follows(Begun(s, i), p, i, u) && SettledAs(p, s', i, now)
    else s' == s && u == []
  }

  predicate SettledAs(p: System, s': System, i: nat, now: nat) {
    && s'.entries == Settled(p, i, now).entries && s'.nextId == p.nextId && s'.log == p.log && s'.running == p.running
  }

  lemma {:induction false} QuietRound(s: System, i: nat, now: nat, script: seq<Op>) returns (u: seq<LogEntry>)
    requires s.running && QuietTurn(s, i, now, script)
    ensures Round(s, Turn(s, i, now, script), i, now, u) && Turn(s, i, now, script).running
  {
    u := [];
    if Due(s, i, now) {
      var b, task := Begun(s, i), s.entries[i].task.value;
      TurnIsPoll(s, i, now, script);
      var e := EnteredFor(b, task);
      u := ScriptFollows(e, Performed(b, task, script), i);
      hide Turn, ExecAll, Settled;
      var p := Polling(s, i, script);
      assert Follows(b, p, i, u);
      assert SettledAs(p, Turn(s, i, now, script), i, now);
    }
  }

  // ---- polled exactly when due and not removed before --------------------------------------

  /** The events before the first poll of this entry or of a younger one: what happened before its turn. */
  function Before(log: seq<LogEntry>, id: nat): seq<LogEntry> {
    if log == [] || (log[0].Polled? && log[0].id >= id) then [] else [log[0]] + Before(log[1..], id)
  }

  lemma {:induction false} BeforeConcat(a: seq<LogEntry>, b: seq<LogEntry>, id: nat)
    ensures Before(a + b, id) == if (exists x :: x in a && x.Polled? && x.id >= id) then Before(a, id) else a + Before(b, id)
  {
    if a == [] {
      assert a + b == b;
    } else {
      assert (a + b)[1..] == a[1..] + b;
      BeforeConcat(a[1..], b, id);
      assert a == [a[0]] + a[1..];
    }
  }

  predicate PolledBelow(log: seq<LogEntry>, id: nat) {
    forall x :: x in log && x.Polled? ==> x.id < id
  }

  lemma {:induction false} BeforeAll(log: seq<LogEntry>, id: nat)
    requires PolledBelow(log, id)
    ensures Before(log, id) == log
  {
    BeforeConcat(log, [], id);
    assert log + [] == log;
  }

  /** Its turn is still to come. */
  ghost predicate Pending(s: System, i: nat, e: Entry, log: seq<LogEntry>) {
    && i <= |s.entries| && e in s.entries[i..] && Live(e)
    && Unscheduled(e.task.value) !in log && PolledBelow(log, e.id)
  }

  /** It was polled, and had not been removed when its turn came. */
  predicate PolledInTurn(e: Entry, log: seq<LogEntry>)
    requires Live(e)
  {
    Polled(e.id) in log && Unscheduled(e.task.value) !in Before(log, e.id)
  }

  /** It was removed before its turn, is gone, and was not polled. */
  ghost predicate RemovedFirst(s: System, e: Entry, log: seq<LogEntry>)
    requires Live(e)
  {
    && Unscheduled(e.task.value) in Before(log, e.id) && Polled(e.id) !in log
    && e.id < s.nextId && forall x :: x in s.entries && Live(x) ==> x.id != e.id
  }

  lemma {:induction false} MoreLog(e: Entry, log: seq<LogEntry>, more: seq<LogEntry>)
    requires Live(e)
    ensures Unscheduled(e.task.value) in Before(log, e.id) ==> Unscheduled(e.task.value) in Before(log + more, e.id)
    ensures Polled(e.id) in log ==> Before(log + more, e.id) == Before(log, e.id)
  {
    BeforeConcat(log, more, e.id);
    BeforeConcat(log, [], e.id);
    assert log + [] == log;
  }

  /** Old entries come alive again in no round, and their ids stay unique. */
  lemma {:induction false} RoundRevivesNothing(s: System, s': System, i: nat, now: nat, u: seq<LogEntry>, id: nat)
    requires EntriesOk(s) && Round(s, s', i, now, u) && id < s.nextId
    requires forall x :: x in s.entries && Live(x) ==> x.id != id
    ensures id < s'.nextId && forall x :: x in s'.entries && Live(x) ==> x.id != id
  {
    if Due(s, i, now) {
      var p :| Follows(Begun(s, i), p, i, u) && SettledAs(p, s', i, now);
      forall x | x in s'.entries && Live(x) ensures x.id != id {
        var k :| 0 <= k < |s'.entries| && s'.entries[k] == x;
        assert p.entries[k].id == x.id && Live(p.entries[k]);
        assert p.entries[k] in p.entries;
      }
    }
  }

  /** What one round adds to the log. */
  function RoundLog(s: System, i: nat, now: nat, u: seq<LogEntry>): seq<LogEntry> {
    if Due(s, i, now) then [Polled(s.entries[i].id)] + u else []
  }

  lemma {:induction false} RoundLogIs(s: System, s': System, i: nat, now: nat, u: seq<LogEntry>)
    requires Round(s, s', i, now, u)
    ensures s'.log == s.log + RoundLog(s, i, now, u) && s'.nextId >= s.nextId
  {
    if Due(s, i, now) {
      var p :| Follows(Begun(s, i), p, i, u) && SettledAs(p, s', i, now);
      assert s.log + [Polled(s.entries[i].id)] + u == s.log + ([Polled(s.entries[i].id)] + u);
    } else {
      assert s.log + [] == s.log;
    }
  }

  lemma SettledLive(e: Entry, now: nat)
    ensures AfterPoll(e, now).id == e.id && (Live(AfterPoll(e, now)) ==> Live(e))
  {
  }

  /** An entry that was unscheduled during a poll is not live any more after it. */
  lemma {:induction false} UnscheduledIsGone(b: System, p: System, s': System, i: nat, now: nat,
                                             u: seq<LogEntry>, e: Entry)
    requires EntriesOk(b) && Follows(b, p, i, u) && SettledAs(p, s', i, now)
    requires e in b.entries && Live(e) && Unscheduled(e.task.value) in u
    ensures e.id < s'.nextId && forall x :: x in s'.entries && Live(x) ==> x.id != e.id
  {
    hide AfterPoll;
    forall x | x in s'.entries && Live(x) ensures x.id != e.id {
      var j :| 0 <= j < |s'.entries| && s'.entries[j] == x;
      var y := p.entries[j];
      SettledLive(y, now);
      assert y.id == x.id && Live(y) && y in p.entries;
      assert y.id == e.id ==> y == e;
    }
  }

  /** A pending entry behind position i, in a round that polls another: it stays pending or was removed. */
  lemma {:induction false} PendingPoll(s: System, p: System, s': System, i: nat, now: nat, u: seq<LogEntry>,
                                       e: Entry, log: seq<LogEntry>)
    requires EntriesOk(s) && Due(s, i, now) && Follows(Begun(s, i), p, i, u) && SettledAs(p, s', i, now)
    requires e in s.entries[i + 1..] && Live(e) && Unscheduled(e.task.value) !in log && PolledBelow(log, e.id)
    ensures var log' := log + ([Polled(s.entries[i].id)] + u);
            Pending(s', i + 1, e, log') || RemovedFirst(s', e, log')
  {
    var log' := log + ([Polled(s.entries[i].id)] + u);
    var k :| 0 <= k < |s.entries[i + 1..]| && s.entries[i + 1..][k] == e;
    assert e == s.entries[i + 1 + k];
    assert PolledBelow(log', e.id);
    BeforeAll(log', e.id);
    if Unscheduled(e.task.value) in u {
      UnscheduledIsGone(Begun(s, i), p, s', i, now, u, e);
    } else {
      assert e in p.entries[i + 1..];
      assert s'.entries[i + 1..] == p.entries[i + 1..];
    }
  }

  lemma {:induction false} PendingRound(s: System, s': System, i: nat, now: nat, u: seq<LogEntry>, e: Entry,
                                        log: seq<LogEntry>)
    requires EntriesOk(s) && Round(s, s', i, now, u) && Pending(s, i, e, log) && s.entries[i] != e
    ensures var log' := log + RoundLog(s, i, now, u);
            Pending(s', i + 1, e, log') || RemovedFirst(s', e, log')
  {
    var k :| 0 <= k < |s.entries[i..]| && s.entries[i..][k] == e;
    assert e in s.entries[i + 1..] by { assert s.entries[i + 1..][k - 1] == e; }
    hide Follows, SettledAs, EntriesOk, Live, Unschedule;
    if Due(s, i, now) {
      var p :| Follows(Begun(s, i), p, i, u) && SettledAs(p, s', i, now);
      PendingPoll(s, p, s', i, now, u, e, log);
    } else {
      assert log + [] == log;
    }
  }

  /** Where a due entry of the start of the pass stands before round i. */
  ghost predicate Standing(s: System, i: nat, e: Entry, log: seq<LogEntry>) {
    Live(e) && (Pending(s, i, e, log) || PolledInTurn(e, log) || RemovedFirst(s, e, log))
  }

  lemma {:induction false} StandingRound(s: System, s': System, i: nat, now: nat, u: seq<LogEntry>, e: Entry,
                                         log: seq<LogEntry>)
    requires EntriesOk(s) && Round(s, s', i, now, u) && Standing(s, i, e, log) && e.nextDue <= now
    ensures Standing(s', i + 1, e, log + RoundLog(s, i, now, u))
  {
    var r := RoundLog(s, i, now, u);
    MoreLog(e, log, r);
    if PolledInTurn(e, log) {
    } else if RemovedFirst(s, e, log) {
      RoundRevivesNothing(s, s', i, now, u, e.id);
      assert Polled(e.id) !in r by {
        if Due(s, i, now) {
          assert s.entries[i].id != e.id;
          var p :| Follows(Begun(s, i), p, i, u) && SettledAs(p, s', i, now);
        }
      }
    } else if s.entries[i] == e {
      BeforeConcat(log, r, e.id);
      assert log + Before(r, e.id) == log;
    } else {
      PendingRound(s, s', i, now, u, e, log);
    }
  }

  /** The claim carried through the rounds: the log so far, and where the entry stands. */
  ghost predicate Standings(start: System, s: System, i: nat, e: Entry, log: seq<LogEntry>) {
    s.running && EntriesOk(s) && s.log == start.log + log && Standing(s, i, e, log)
  }

  lemma {:induction false} StandingsStep(start: System, s: System, s': System, i: nat, now: nat,
                                         u: seq<LogEntry>, e: Entry, log: seq<LogEntry>)
    requires Standings(start, s, i, e, log) && e.nextDue <= now
    requires Round(s, s', i, now, u) && s'.running && EntriesOk(s')
    ensures Standings(start, s', i + 1, e, log + RoundLog(s, i, now, u))
  {
    hide Round, Standing, EntriesOk, RoundLog;
    StandingRound(s, s', i, now, u, e, log);
    RoundLogIs(s, s', i, now, u);
    assert start.log + log + RoundLog(s, i, now, u) == start.log + (log + RoundLog(s, i, now, u));
  }

  lemma {:induction false} StandingsRound(start: System, s: System, i: nat, now: nat, script: seq<Op>,
                                          e: Entry, log: seq<LogEntry>)
    returns (log': seq<LogEntry>)
    requires Standings(start, s, i, e, log) && QuietTurn(s, i, now, script) && e.nextDue <= now
    ensures Standings(start, Turn(s, i, now, script), i + 1, e, log')
  {
    hide Turn, Round, Standing, EntriesOk, QuietTurn, RoundLog;
    var u := QuietRound(s, i, now, script);
    TurnEntriesOk(s, i, now, script);
    StandingsStep(start, s, Turn(s, i, now, script), i, now, u, e, log);
    log' := log + RoundLog(s, i, now, u);
  }

  lemma StandingsStart(s: System, e: Entry)
    requires EntriesOk(s) && s.running && e in s.entries && Live(e)
    ensures Standings(s, s, 0, e, [])
  {
    assert s.log + [] == s.log && s.entries[0..] == s.entries;
  }

  lemma {:induction false} StandingRounds(s: System, rounds: nat, now: nat,
                                          scripts: nat -> seq<Op>, e: Entry) returns (log: seq<LogEntry>)
    requires EntriesOk(s) && s.running && QuietRounds(s, rounds, now, scripts)
    requires e in s.entries && Live(e) && e.nextDue <= now
    ensures Standings(s, Turns(s, rounds, now, scripts), rounds, e, log)
  {
    if rounds == 0 {
      StandingsStart(s, e);
      log := [];
    } else {
      hide Standings, Turn, QuietTurn, EntriesOk, Live;
      var before := StandingRounds(s, rounds - 1, now, scripts, e);
      log := StandingsRound(s, Turns(s, rounds - 1, now, scripts), rounds - 1, now, scripts(rounds - 1), e, before);
    }
  }

  /** An entry that is due and live when the pass begins. */
  lemma {:induction false} DuePolledExactly(s: System, now: nat, scripts: nat -> seq<Op>, e: Entry)
    requires EntriesOk(s) && QuietRounds(BeginPass(s), |s.slots|, now, scripts)
    requires e in s.entries && Live(e) && e.nextDue <= now
    ensures s.log <= Pass(s, now, scripts).log
    ensures var log := Pass(s, now, scripts).log[|s.log|..];
            Polled(e.id) in log <==> Unscheduled(e.task.value) !in Before(log, e.id)
  {
    CompactKeeps(s.entries);
    CompactEntriesOk(s, s.entries);
    var b := BeginPass(s);
    var log := StandingRounds(b, |s.slots|, now, scripts, e);
    TurnsInOrder(b, |s.slots|, now, scripts);
    var t := Turns(b, |s.slots|, now, scripts);
    hide Turns;
    assert Pass(s, now, scripts).log[|s.log|..] == log;
    TurnsSlotCount(b, |s.slots|, now, scripts);
    assert !Pending(t, |s.slots|, e, log);
  }

  // ---- not polled before it is due ---------------------------------------------------------

  /** The registration, if it still stands, is not due at `now`. */
  predicate Later(s: System, id: nat, now: nat) {
    id < s.nextId && forall e :: e in s.entries && Live(e) && e.id == id ==> e.nextDue > now
  }

  lemma {:induction false} OpLater(s: System, op: Op, id: nat, now: nat)
    requires Later(s, id, now)
    ensures Later(Exec(s, op), id, now)
  {
    OpEntries(s, op);
    hide Exec;
    CompactKeeps(s.entries);
    var s' := Exec(s, op);
    if Target(op).Some? {
      var marked := Unschedule(s.entries, Target(op).value);
      CompactKeeps(marked);
      forall e | e in marked && Live(e) ensures e in s.entries {
        var j :| 0 <= j < |marked| && marked[j] == e;
      }
    } else if Registers(s, op) && s'.entries != Compact(s.entries) {
      hide Compact;
      forall e | e in s'.entries && e.id == id ensures e in s.entries {
        var j :| 0 <= j < |s'.entries| && s'.entries[j] == e;
        assert j < |s'.entries| - 1 && e == s'.entries[..|s'.entries| - 1][j];
      }
    }
  }

  lemma {:induction false} ScriptLater(s: System, script: seq<Op>, id: nat, now: nat)
    requires Later(s, id, now)
    ensures Later(ExecAll(s, script), id, now)
  {
    hide Exec, Later;
    if script != [] {
      ScriptLater(s, script[..|script| - 1], id, now);
      OpLater(ExecAll(s, script[..|script| - 1]), script[|script| - 1], id, now);
    }
  }

  lemma SettledLater(s: System, i: nat, now: nat, id: nat)
    requires Later(s, id, now)
    ensures Later(Settled(s, i, now), id, now)
  {
    var s' := Settled(s, i, now);
    forall e | e in s'.entries && Live(e) && e.id == id ensures e.nextDue > now {
      var j :| 0 <= j < |s'.entries| && s'.entries[j] == e;
      assert s.entries[j] in s.entries;
    }
  }

  /** The log has grown, and by no poll of this registration. */
  predicate NotPolled(log: seq<LogEntry>, log': seq<LogEntry>, id: nat) {
    log <= log' && forall k :: |log| <= k < |log'| ==> log'[k] != Polled(id)
  }

  lemma {:induction false} ScriptNotPolled(s: System, script: seq<Op>, id: nat)
    ensures NotPolled(s.log, ExecAll(s, script).log, id)
  {
    if script != [] {
      ScriptNotPolled(s, script[..|script| - 1], id);
      OpEntries(ExecAll(s, script[..|script| - 1]), script[|script| - 1]);
      hide Exec;
    }
  }

  lemma {:induction false} TurnLater(s: System, i: nat, now: nat, script: seq<Op>, id: nat)
    requires Later(s, id, now)
    ensures Later(Turn(s, i, now, script), id, now) && NotPolled(s.log, Turn(s, i, now, script).log, id)
  {
    if Due(s, i, now) {
      var b, task := Begun(s, i), s.entries[i].task.value;
      assert s.entries[i] in s.entries;
      TurnIsPoll(s, i, now, script);
      ScriptLater(EnteredFor(b, task), Performed(b, task, script), id, now);
      ScriptNotPolled(EnteredFor(b, task), Performed(b, task, script), id);
      hide Turn, ExecAll, Settled;
      SettledLater(Polling(s, i, script), i, now, id);
      assert b.log[|s.log|] == Polled(s.entries[i].id);
    }
  }

  lemma {:induction false} TurnsLater(s: System, rounds: nat, now: nat, scripts: nat -> seq<Op>, id: nat)
    requires Later(s, id, now)
    ensures Later(Turns(s, rounds, now, scripts), id, now) && NotPolled(s.log, Turns(s, rounds, now, scripts).log, id)
  {
    hide Turn, Later;
    if rounds > 0 {
      TurnsLater(s, rounds - 1, now, scripts, id);
      TurnLater(Turns(s, rounds - 1, now, scripts), rounds - 1, now, scripts(rounds - 1), id);
    }
  }

  /** Whatever callbacks do, no pass polls an entry that is not due when the pass begins. */
  lemma {:induction false} NotDueNotPolled(s: System, now: nat, scripts: nat -> seq<Op>, e: Entry)
    requires EntriesOk(s) && e in s.entries && Live(e) && e.nextDue > now
    ensures s.log <= Pass(s, now, scripts).log && Polled(e.id) !in Pass(s, now, scripts).log[|s.log|..]
  {
    CompactKeeps(s.entries);
    assert forall i, j :: 0 <= i < j < |s.entries| ==> s.entries[i].id != s.entries[j].id;
    TurnsLater(BeginPass(s), |s.slots|, now, scripts, e.id);
    hide Turns;
  }

  /** The main law of a pass. Take an entry that is live when the pass begins. If no callback registers across
      a gap, it is polled exactly when it was due and its task was not removed before its turn. */
  lemma {:induction false} PolledExactlyWhenDue(s: System, now: nat, scripts: nat -> seq<Op>, e: Entry)
    requires EntriesOk(s) && QuietRounds(BeginPass(s), |s.slots|, now, scripts)
    requires e in s.entries && Live(e)
    ensures s.log <= Pass(s, now, scripts).log
    ensures var log := Pass(s, now, scripts).log[|s.log|..];
            Polled(e.id) in log <==> e.nextDue <= now && Unscheduled(e.task.value) !in Before(log, e.id)
  {
    if e.nextDue <= now {
      DuePolledExactly(s, now, scripts, e);
    } else {
      NotDueNotPolled(s, now, scripts, e);
    }
    hide Pass, QuietRounds;
  }

  lemma TurnSlotCount(s: System, i: nat, now: nat, script: seq<Op>)
    ensures |Turn(s, i, now, script).slots| == |s.slots|
  {
    if Due(s, i, now) {
      TurnIsPoll(s, i, now, script);
    }
  }

  lemma {:induction false} TurnsSlotCount(s: System, rounds: nat, now: nat, scripts: nat -> seq<Op>)
    ensures |Turns(s, rounds, now, scripts).slots| == |s.slots|
  {
    hide Turn;
    if rounds > 0 {
      TurnsSlotCount(s, rounds - 1, now, scripts);
      TurnSlotCount(Turns(s, rounds - 1, now, scripts), rounds - 1, now, scripts(rounds - 1));
    }
  }

  // ---- what stays scheduled ----------------------------------------------------------------

  /** What a pass at `now` leaves of an entry whose task is not removed. */
  function Result(e: Entry, now: nat): Entry {
    if e.nextDue <= now then AfterPoll(e, now) else e
  }

  /** Before round i the entry is still to be visited, or is in place as the pass leaves it, or was removed. */
  ghost predicate Placed(s: System, i: nat, e: Entry, now: nat, log: seq<LogEntry>)
    requires Live(e)
  {
    || Unscheduled(e.task.value) in log
    || (i <= |s.entries| && e in s.entries[i..])
    || exists j :: 0 <= j < i && j < |s.entries| && s.entries[j] == Result(e, now)
  }

  lemma {:induction false} PlacedPoll(s: System, p: System, s': System, i: nat, now: nat, u: seq<LogEntry>,
                                      e: Entry, log: seq<LogEntry>)
    requires Due(s, i, now) && Follows(Begun(s, i), p, i, u) && SettledAs(p, s', i, now)
    requires Live(e) && Placed(s, i, e, now, log)
    ensures Placed(s', i + 1, e, now, log + ([Polled(s.entries[i].id)] + u))
  {
    if i <= |s.entries| && e in s.entries[i..] {
      var k :| 0 <= k < |s.entries[i..]| && s.entries[i..][k] == e;
      if k == 0 {
        assert SameOrDropped(e, p.entries[i], u);
        assert p.entries[i] == e ==> s'.entries[i] == Result(e, now);
      } else {
        assert e in s.entries[i + 1..] by { assert s.entries[i + 1..][k - 1] == e; }
        assert s'.entries[i + 1..] == p.entries[i + 1..];
      }
    } else if Unscheduled(e.task.value) !in log {
      var j :| 0 <= j < i && j < |s.entries| && s.entries[j] == Result(e, now);
      assert SameOrDropped(s.entries[j], p.entries[j], u);
      assert s'.entries[j] == p.entries[j];
    }
  }

  lemma {:induction false} PlacedRound(s: System, s': System, i: nat, now: nat, u: seq<LogEntry>, e: Entry,
                                       log: seq<LogEntry>)
    requires Round(s, s', i, now, u) && Live(e) && Placed(s, i, e, now, log)
    ensures Placed(s', i + 1, e, now, log + RoundLog(s, i, now, u))
  {
    if Due(s, i, now) {
      hide Placed, Follows, SettledAs, Live;
      var p :| Follows(Begun(s, i), p, i, u) && SettledAs(p, s', i, now);
      PlacedPoll(s, p, s', i, now, u, e, log);
    } else {
      assert log + [] == log;
      if i <= |s.entries| && e in s.entries[i..] {
        var k :| 0 <= k < |s.entries[i..]| && s.entries[i..][k] == e;
        if k > 0 {
          assert s.entries[i + 1..][k - 1] == e;
        }
      }
    }
  }

  ghost predicate Placing(start: System, s: System, i: nat, e: Entry, now: nat, log: seq<LogEntry>) {
    s.running && EntriesOk(s) && s.log == start.log + log && Live(e) && Placed(s, i, e, now, log)
  }

  lemma {:induction false} PlacingStep(start: System, s: System, s': System, i: nat, now: nat,
                                       u: seq<LogEntry>, e: Entry, log: seq<LogEntry>)
    requires Placing(start, s, i, e, now, log)
    requires Round(s, s', i, now, u) && s'.running && EntriesOk(s')
    ensures Placing(start, s', i + 1, e, now, log + RoundLog(s, i, now, u))
  {
    hide Round, Placed, EntriesOk, RoundLog, Live;
    PlacedRound(s, s', i, now, u, e, log);
    RoundLogIs(s, s', i, now, u);
    assert start.log + log + RoundLog(s, i, now, u) == start.log + (log + RoundLog(s, i, now, u));
  }

  lemma {:induction false} PlacingRound(start: System, s: System, i: nat, now: nat, script: seq<Op>, e: Entry,
                                        log: seq<LogEntry>)
    returns (log': seq<LogEntry>)
    requires Placing(start, s, i, e, now, log) && QuietTurn(s, i, now, script)
    ensures Placing(start, Turn(s, i, now, script), i + 1, e, now, log')
  {
    hide Turn, Round, Placed, EntriesOk, QuietTurn, RoundLog, Live;
    var u := QuietRound(s, i, now, script);
    TurnEntriesOk(s, i, now, script);
    PlacingStep(start, s, Turn(s, i, now, script), i, now, u, e, log);
    log' := log + RoundLog(s, i, now, u);
  }

  lemma PlacingStart(s: System, e: Entry, now: nat)
    requires EntriesOk(s) && s.running && e in s.entries && Live(e)
    ensures Placing(s, s, 0, e, now, [])
  {
    assert s.log + [] == s.log && s.entries[0..] == s.entries;
  }

  lemma {:induction false} PlacingRounds(s: System, rounds: nat, now: nat,
                                         scripts: nat -> seq<Op>, e: Entry) returns (log: seq<LogEntry>)
    requires EntriesOk(s) && s.running && QuietRounds(s, rounds, now, scripts)
    requires e in s.entries && Live(e)
    ensures Placing(s, Turns(s, rounds, now, scripts), rounds, e, now, log)
  {
    if rounds == 0 {
      PlacingStart(s, e, now);
      log := [];
    } else {
      hide Placing, Turn, QuietTurn, EntriesOk, Live;
      var before := PlacingRounds(s, rounds - 1, now, scripts, e);
      log := PlacingRound(s, Turns(s, rounds - 1, now, scripts), rounds - 1, now, scripts(rounds - 1), e, before);
    }
  }

  /** Every entry whose task nobody removes during the pass is there afterwards: a periodic one with the
      deadline of one visit at `now`, a one-shot unchanged unless it was due. */
  lemma {:induction false} KeptWithDeadline(s: System, now: nat, scripts: nat -> seq<Op>, e: Entry)
    requires EntriesOk(s) && QuietRounds(BeginPass(s), |s.slots|, now, scripts)
    requires e in s.entries && Live(e) && (e.periodic || e.nextDue > now)
    ensures s.log <= Pass(s, now, scripts).log
    ensures Unscheduled(e.task.value) !in Pass(s, now, scripts).log[|s.log|..] ==>
              e.(nextDue := if e.periodic && e.period > 0 then Deadlines.Visit(e.nextDue, e.period, now).1 else e.nextDue)
              in Pass(s, now, scripts).entries
  {
    CompactKeeps(s.entries);
    CompactEntriesOk(s, s.entries);
    var b := BeginPass(s);
    var log := PlacingRounds(b, |s.slots|, now, scripts, e);
    TurnsSlotCount(b, |s.slots|, now, scripts);
    var t := Turns(b, |s.slots|, now, scripts);
    hide Turns;
    assert Pass(s, now, scripts).log[|s.log|..] == log;
    CompactKeeps(t.entries);
    if Unscheduled(e.task.value) !in log {
      assert Result(e, now) in t.entries;
    }
  }

  // ---- the condition is exact --------------------------------------------------------------

  /** Closing a gap at or before position i moves younger entries to position i and behind. */
  lemma {:induction false} GapShifts(entries: seq<Entry>, i: nat, k: nat)
    requires i < |entries| && !AllLive(entries[..i + 1]) && i <= k < |Compact(entries)|
    ensures Compact(entries)[k] in entries[i + 1..]
  {
    var front, back := entries[..i + 1], entries[i + 1..];
    assert entries == front + back;
    CompactConcat(front, back);
    var gap :| 0 <= gap < |front| && !Live(front[gap]);
    CompactShrinks(front, gap);
    CompactKeeps(back);
    hide Compact, Live, AllLive;
    assert Compact(entries)[k] == Compact(back)[k - |Compact(front)|];
  }

  lemma {:induction false} CompactShrinks(entries: seq<Entry>, k: nat)
    requires k < |entries| && !Live(entries[k])
    ensures |Compact(entries)| < |entries|
  {
    if k > 0 {
      CompactShrinks(entries[1..], k - 1);
    } else {
      CompactKeeps(entries[1..]);
    }
  }

  lemma {:induction false} ShiftedOp(s: System, op: Op, i: nat)
    requires EntriesOk(s) && i < |s.entries| && Registers(s, op) && !NoGap(s, i)
    ensures YoungerFrom(s.entries[i].id, Exec(s, op), i)
  {
    OpEntries(s, op);
    hide Exec, Registers;
    var s' := Exec(s, op);
    var c := Compact(s.entries);
    forall j | i <= j < |s'.entries| ensures s.entries[i].id < s'.entries[j].id {
      if j < |c| {
        assert s'.entries[j] == c[j];
        GapShifts(s.entries, i, j);
      }
    }
  }

  lemma {:induction false} ShiftedScript(s: System, script: seq<Op>, i: nat)
    requires EntriesOk(s) && s.running && i < |s.entries| && !Unshifted(s, script, i)
    ensures YoungerFrom(s.entries[i].id, ExecAll(s, script), i)
  {
    var before, op := script[..|script| - 1], script[|script| - 1];
    var s' := ExecAll(s, before);
    if Unshifted(s, before, i) {
      var u := ScriptFollows(s, before, i);
      ScriptEntriesOk(s, before);
      assert SameOrDropped(s.entries[i], s'.entries[i], u);
      hide Exec, Registers, NoGap, EntriesOk, Follows;
      ShiftedOp(s', op, i);
    } else {
      ShiftedScript(s, before, i);
      OpYounger(s', op, s.entries[i].id, i);
    }
  }

  /** After a poll the entry at the polled index is the polled one exactly when no operation of the callback
      registered across a gap; otherwise the bookkeeping concerns a younger entry, or none. */
  lemma {:induction false} BookkeepingExact(s: System, script: seq<Op>, i: nat)
    requires EntriesOk(s) && s.running && i < |s.entries|
    ensures var p := ExecAll(s, script);
            Unshifted(s, script, i) <==> i < |p.entries| && p.entries[i].id == s.entries[i].id
  {
    if Unshifted(s, script, i) {
      var u := ScriptFollows(s, script, i);
      assert SameOrDropped(s.entries[i], ExecAll(s, script).entries[i], u);
    } else {
      ShiftedScript(s, script, i);
    }
  }

  /** The shift at work. A one-shot and a periodic task behind it are both due; the periodic task's callback
      registers another one-shot for later. The new one-shot is dropped without ever being polled, and the
      periodic task's deadline is not advanced. */
  lemma {:induction false} ShiftedRegistrationIsLost(scripts: nat -> seq<Op>)
    requires scripts(0) == [] && scripts(1) == [AddOneShot(2, 100)]
    ensures var s := RunAll(Initial(2), [Do(AddOneShot(0, 0)), Do(AddPeriodic(1, 10, 0)), Tick(5, scripts)]);
            s.entries == [Entry(Some(Foreign(1)), 10, 0, true, true, 1)] && s.log == [Polled(0), Polled(1)]
  {
    var two := [Do(AddOneShot(0, 0)), Do(AddPeriodic(1, 10, 0))];
    var s := System([Entry(Some(Foreign(0)), 0, 0, false, true, 0), Entry(Some(Foreign(1)), 10, 0, true, true, 1)],
                    false, 2, [EMPTY_SLOT, EMPTY_SLOT], []);
    TwoTasks(s);
    hide RunAll, Pass;
    RunNext(Initial(2), two, Tick(5, scripts));
    assert two + [Tick(5, scripts)] == [Do(AddOneShot(0, 0)), Do(AddPeriodic(1, 10, 0)), Tick(5, scripts)];
    LosingPass(s, scripts);
  }

  lemma {:induction false} TwoTasks(s: System)
    requires s.entries == [Entry(Some(Foreign(0)), 0, 0, false, true, 0), Entry(Some(Foreign(1)), 10, 0, true, true, 1)]
    requires !s.running && s.nextId == 2 && s.slots == [EMPTY_SLOT, EMPTY_SLOT] && s.log == []
    ensures RunAll(Initial(2), [Do(AddOneShot(0, 0)), Do(AddPeriodic(1, 10, 0))]) == s
  {
    var s0 := Initial(2);
    var s1 := s0.(entries := [s.entries[0]], nextId := 1);
    assert RunAll(s0, []) == s0;
    CompactLive(s0.entries);
    CompactLive(s1.entries);
    hide RunAll, Compact;
    RunNext(s0, [], Do(AddOneShot(0, 0)));
    RunNext(s0, [Do(AddOneShot(0, 0))], Do(AddPeriodic(1, 10, 0)));
    assert [] + [Do(AddOneShot(0, 0))] == [Do(AddOneShot(0, 0))];
    assert [Do(AddOneShot(0, 0))] + [Do(AddPeriodic(1, 10, 0))] == [Do(AddOneShot(0, 0)), Do(AddPeriodic(1, 10, 0))];
    assert s0.slots == [EMPTY_SLOT, EMPTY_SLOT];
    assert s1.entries + [s.entries[1]] == s.entries && [] + [s.entries[0]] == s1.entries;
  }

  lemma {:induction false} LosingPass(s: System, scripts: nat -> seq<Op>)
    requires scripts(0) == [] && scripts(1) == [AddOneShot(2, 100)]
    requires s.entries == [Entry(Some(Foreign(0)), 0, 0, false, true, 0), Entry(Some(Foreign(1)), 10, 0, true, true, 1)]
    requires !s.running && s.nextId == 2 && s.slots == [EMPTY_SLOT, EMPTY_SLOT] && s.log == []
    ensures Pass(s, 5, scripts).entries == [s.entries[1]] && Pass(s, 5, scripts).log == [Polled(0), Polled(1)]
  {
    var first, second := s.entries[0], s.entries[1];
    var third := Entry(Some(Foreign(2)), 0, 100, false, true, 2);
    CompactLive([first, second]);
    var b := BeginPass(s);
    var t1 := b.(entries := [Dropped(first), second], log := [Polled(0)]);
    assert Turns(b, 0, 5, scripts) == b;
    assert Turn(b, 0, 5, []) == t1 by { assert [] + [Polled(0)] == [Polled(0)]; }
    assert Turns(b, 1, 5, scripts) == t1;
    assert Compact([Dropped(first), second]) == [second] by {
      assert [Dropped(first), second][1..] == [second];
      CompactLive([second]);
    }
    var t2 := b.(entries := [second, Dropped(third)], nextId := 3, log := [Polled(0), Polled(1)]);
    LostTurn(t1, scripts(1), second, third);
    assert Turns(b, 2, 5, scripts) == t2 by { assert [Polled(0)] + [Polled(1)] == [Polled(0), Polled(1)]; }
    assert Compact([second, Dropped(third)]) == [second] by {
      assert [second, Dropped(third)][1..] == [Dropped(third)];
      assert [Dropped(third)][1..] == [];
    }
  }

  lemma {:induction false} LostTurn(t: System, script: seq<Op>, second: Entry, third: Entry)
    requires script == [AddOneShot(2, 100)] && |t.entries| == 2 && |t.slots| == 2 && t.nextId == 2
    requires t.entries[1] == second == Entry(Some(Foreign(1)), 10, 0, true, true, 1) && Compact(t.entries) == [second]
    requires third == Entry(Some(Foreign(2)), 0, 100, false, true, 2)
    ensures Turn(t, 1, 5, script) == t.(entries := [second, Dropped(third)], nextId := 3, log := t.log + [Polled(1)])
  {
    var b := Begun(t, 1);
    assert script[..0] == [] && ExecAll(b, script[..0]) == b;
    assert ExecAll(b, script) == Exec(b, AddOneShot(2, 100));
    assert Exec(b, AddOneShot(2, 100)) == b.(entries := [second, third], nextId := 3);
  }
}
