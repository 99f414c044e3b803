/** src/async_event_loop_arduino/arduino_loop.hpp: the entries of the cooperative scheduler. */
module Scheduler {
  import opened Bytes
  import Deadlines

  /** A task an entry points to: an event loop's callback slot, or a task registered directly. */
  datatype TaskRef = Slot(index: nat) | Foreign(name: nat)

  /** One TaskSlot; a null task is None. `id` numbers the registrations, to tell entries apart. */
  datatype Entry = Entry(task: Option<TaskRef>, period: nat, nextDue: nat, periodic: bool, active: bool, id: nat)

  const CLEARED := Entry(None, 0, 0, false, false, 0)

  predicate Live(e: Entry) {
    e.active && e.task.Some?
  }

  /** `compact_inactive`: the live entries, in order. */
  function Compact(entries: seq<Entry>): seq<Entry> {
    if entries == [] then []
    else if Live(entries[0]) then [entries[0]] + Compact(entries[1..])
    else Compact(entries[1..])
  }

  function Dropped(e: Entry): Entry {
    e.(task := None, active := false)
  }

  /** `remove`, before any compaction. */
  function Unschedule(entries: seq<Entry>, task: TaskRef): (r: seq<Entry>)
    ensures |r| == |entries|
    ensures forall i :: 0 <= i < |r| ==> r[i] == if entries[i].task == Some(task) then Dropped(entries[i]) else entries[i]
  {
    seq(|entries|, i requires 0 <= i < |entries| =>
      if entries[i].task == Some(task) then Dropped(entries[i]) else entries[i])
  }

  /** What a poll at `now` leaves of the entry that was polled, if it is still live. */
  function AfterPoll(e: Entry, now: nat): Entry {
    if !Live(e) then e
    else if e.periodic && e.period == 0 then e  // never registered
    else if e.periodic then e.(nextDue := Deadlines.CatchUp(e.nextDue, e.period, now))
    else Dropped(e)
  }

  /** The deadline the bookkeeping is to set, if any, is a 64-bit number. Exactly then its loop sets it. */
  predicate SettlesIn64(entries: seq<Entry>, i: nat, now: nat) {
    i < |entries| && Live(entries[i]) && entries[i].periodic && entries[i].period > 0 ==>
      Deadlines.CatchUp(entries[i].nextDue, entries[i].period, now) < Deadlines.WRAP64
  }

  predicate AllLive(entries: seq<Entry>) {
    forall i :: 0 <= i < |entries| ==> Live(entries[i])
  }

  /** Entries stand in the order they were registered in. */
  predicate Ordered(entries: seq<Entry>, nextId: nat) {
    && (forall i, j :: 0 <= i < j < |entries| ==> entries[i].id < entries[j].id)
    && (forall i :: 0 <= i < |entries| ==> entries[i].id < nextId)
  }

  // ---- compaction --------------------------------------------------------------------------

  lemma {:induction false} CompactConcat(a: seq<Entry>, b: seq<Entry>)
    ensures Compact(a + b) == Compact(a) + Compact(b)
  {
    if a == [] {
      assert a + b == b;
    } else {
      assert (a + b)[1..] == a[1..] + b;
      CompactConcat(a[1..], b);
    }
  }

  lemma {:induction false} CompactLive(entries: seq<Entry>)
    requires AllLive(entries)
    ensures Compact(entries) == entries
  {
    if entries != [] {
      CompactLive(entries[1..]);
      assert entries == [entries[0]] + entries[1..];
    }
  }

  /** Exactly the live entries remain. */
  lemma {:induction false} CompactKeeps(entries: seq<Entry>)
    ensures AllLive(Compact(entries)) && |Compact(entries)| <= |entries|
    ensures forall e :: e in Compact(entries) <==> e in entries && Live(e)
    decreases |entries|
  {
    if entries != [] {
      CompactKeeps(entries[1..]);
      assert entries == [entries[0]] + entries[1..];
    }
  }

  lemma {:induction false} CompactOrdered(entries: seq<Entry>, nextId: nat)
    requires Ordered(entries, nextId)
    ensures Ordered(Compact(entries), nextId)
    decreases |entries|
  {
    if entries != [] {
      var rest := entries[1..];
      CompactOrdered(rest, nextId);
      CompactKeeps(rest);
      if Live(entries[0]) {
        forall j | 0 <= j < |Compact(rest)| ensures entries[0].id < Compact(rest)[j].id {
          assert Compact(rest)[j] in rest;
        }
      }
    }
  }

  /** Entries only move towards the front: what is at or behind position k afterwards was there before. */
  lemma {:induction false} CompactShifts(entries: seq<Entry>, k: nat)
    requires k <= |Compact(entries)|
    ensures k <= |entries| && forall e :: e in Compact(entries)[k..] ==> e in entries[k..]
    decreases |entries|
  {
    CompactKeeps(entries);
    var c := Compact(entries);
    if k == 0 {
      assert c[0..] == c && entries[0..] == entries;
    } else if Live(entries[0]) {
      CompactShifts(entries[1..], k - 1);
      assert c[k..] == Compact(entries[1..])[k - 1..] && entries[k..] == entries[1..][k - 1..];
    } else {
      CompactShifts(entries[1..], k);
      CompactKeeps(entries[1..]);
      assert entries[1..][k..] == entries[k..][1..];
      forall e | e in c[k..] ensures e in entries[k..] {
        assert e in entries[1..][k..];
      }
    }
  }

  /** With no gap up to position k, nothing up to there moves. */
  lemma {:induction false} CompactBehind(entries: seq<Entry>, k: nat)
    requires k <= |entries| && AllLive(entries[..k])
    ensures Compact(entries) == entries[..k] + Compact(entries[k..])
  {
    assert entries == entries[..k] + entries[k..];
    CompactConcat(entries[..k], entries[k..]);
    CompactLive(entries[..k]);
  }

  // ---- the class ---------------------------------------------------------------------------

  class ArduinoLoop {
    const maxTasks: nat
    const tasks: array<Entry>
    var taskCount: nat
    var running: bool
    /** Numbers the registrations; not in the source. */
    var nextId: nat

    ghost predicate Valid()
      reads this, tasks
    {
      && tasks.Length == maxTasks && taskCount <= maxTasks
      && (forall i :: taskCount <= i < maxTasks ==> tasks[i] == CLEARED)
      && (forall i :: 0 <= i < taskCount ==> tasks[i].periodic ==> 0 < tasks[i].period)
    }

    ghost function Entries(): seq<Entry>
      requires tasks.Length == maxTasks && taskCount <= maxTasks
      reads this, tasks
    {
      tasks[..taskCount]
    }

    constructor (maxTasks: nat)
      ensures Valid() && this.maxTasks == maxTasks && fresh(tasks)
      ensures Entries() == [] && !running && nextId == 0
    {
      this.maxTasks := maxTasks;
      tasks := new Entry[maxTasks](_ => CLEARED);
      taskCount, running, nextId := 0, false, 0;
    }

    method EraseTask(index: nat)
      requires Valid() && index < taskCount
      modifies this`taskCount, tasks
      ensures Valid() && taskCount == old(taskCount) - 1
      ensures Entries() == old(Entries()[..index] + Entries()[index + 1..])
    {
      ShiftDown(index);
      taskCount := taskCount - 1;
      tasks[taskCount] := CLEARED;
      assert forall j :: 0 <= j < taskCount ==> tasks[j] == Entries()[j];
    }

    /** The loop of erase_task. */
    method ShiftDown(index: nat)
      requires tasks.Length == maxTasks && index < taskCount <= maxTasks
      modifies tasks
      ensures tasks[..taskCount - 1] == old(tasks[..index] + tasks[index + 1..taskCount])
      ensures forall j :: taskCount <= j < maxTasks ==> tasks[j] == old(tasks[j])
    {
      var i := index + 1;
      while i < taskCount
        invariant index < i <= taskCount
        invariant forall j :: 0 <= j < index || i - 1 <= j < maxTasks ==> tasks[j] == old(tasks[j])
        invariant forall j :: index <= j < i - 1 ==> tasks[j] == old(tasks[j + 1])
      {
        tasks[i - 1] := tasks[i];
        i := i + 1;
      }
      ghost var was := old(tasks[..index] + tasks[index + 1..taskCount]);
      assert forall j :: 0 <= j < taskCount - 1 ==> tasks[j] == was[j];
    }

    /** In place, and in order. */
    method CompactInactive()
      requires Valid()
      modifies this`taskCount, tasks
      ensures Valid() && Entries() == Compact(old(Entries())) && AllLive(Entries())
    {
      var i := 0;
      while i < taskCount
        invariant Valid() && i <= taskCount
        invariant AllLive(Entries()[..i])
        invariant Compact(Entries()) == Compact(old(Entries()))
        decreases taskCount - i
      {
        if !tasks[i].active || tasks[i].task.None? {
          ghost var before := Entries();
          EraseTask(i);
          CompactWithout(before, i);
          assert Entries()[..i] == before[..i];
        } else {
          assert Entries()[..i + 1] == Entries()[..i] + [Entries()[i]];
          i := i + 1;
        }
      }
      assert Entries()[..i] == Entries();
      CompactLive(Entries());
    }

    method AddPeriodic(task: TaskRef, period: nat, clock: nat) returns (ok: bool)
      requires Valid()
      modifies this`taskCount, this`nextId, tasks
      ensures Valid() && ok == (period != 0 && |Compact(old(Entries()))| < maxTasks)
      ensures Entries() == Compact(old(Entries())) +
                           if ok then [Entry(Some(task), period, clock, true, true, old(nextId))] else []
      ensures nextId == old(nextId) + 1
    {
      nextId := nextId + 1;
      CompactInactive();
      if period == 0 || taskCount >= maxTasks {
        return false;
      }
      tasks[taskCount] := Entry(Some(task), period, clock, true, true, nextId - 1);
      taskCount := taskCount + 1;
      return true;
    }

    method AddOneShot(task: TaskRef, due: nat) returns (ok: bool)
      requires Valid()
      modifies this`taskCount, this`nextId, tasks
      ensures Valid() && ok == (|Compact(old(Entries()))| < maxTasks)
      ensures Entries() == Compact(old(Entries())) +
                           if ok then [Entry(Some(task), 0, due, false, true, old(nextId))] else []
      ensures nextId == old(nextId) + 1
    {
      nextId := nextId + 1;
      CompactInactive();
      if taskCount >= maxTasks {
        return false;
      }
      tasks[taskCount] := Entry(Some(task), 0, due, false, true, nextId - 1);
      taskCount := taskCount + 1;
      return true;
    }

    /** While a pass is running the entries are only marked; otherwise the gaps are closed at once. */
    method Remove(task: TaskRef) returns (removed: bool)
      requires Valid()
      modifies this`taskCount, tasks
      ensures Valid() && removed == exists e :: e in old(Entries()) && e.task == Some(task)
      ensures Entries() == var marked := Unschedule(old(Entries()), task);
                           if running then marked else Compact(marked)
    {
      removed := false;
      for i := 0 to taskCount
        invariant Valid() && taskCount == old(taskCount)
        invariant removed == exists j :: 0 <= j < i && old(tasks[j]).task == Some(task)
        invariant forall j :: 0 <= j < i ==>
                    tasks[j] == if old(tasks[j]).task == Some(task) then Dropped(old(tasks[j])) else old(tasks[j])
        invariant forall j :: i <= j < taskCount ==> tasks[j] == old(tasks[j])
      {
        if tasks[i].task == Some(task) {
          tasks[i] := Dropped(tasks[i]);
          removed := true;
        }
      }
      assert Entries() == Unschedule(old(Entries()), task);
      assert forall j :: 0 <= j < taskCount ==> old(tasks[j]) == old(Entries())[j];
      if !running {
        CompactInactive();
      }
    }

    /** The bookkeeping of run_once after a poll, on whatever entry now is at that index, in 64-bit arithmetic. */
    method Settle(index: nat, now: nat)
      requires Valid() && index < maxTasks
      requires SettlesIn64(Entries(), index, now)
      modifies tasks
      ensures Valid()
      ensures Entries() == if index < taskCount then old(Entries())[index := AfterPoll(old(tasks[index]), now)]
                           else old(Entries())
    {
      if !tasks[index].active || tasks[index].task.None? {
        return;
      }
      if tasks[index].periodic {
        Advance(index, now);
      } else {
        tasks[index] := Dropped(tasks[index]);
      }
    }

    /** The loop that moves a deadline. */
    method Advance(index: nat, now: nat)
      requires index < tasks.Length && 0 < tasks[index].period
      requires Deadlines.CatchUp(tasks[index].nextDue, tasks[index].period, now) < Deadlines.WRAP64
      modifies tasks
      ensures var e := old(tasks[index]);
              tasks[..] == old(tasks[..])[index := e.(nextDue := Deadlines.CatchUp(e.nextDue, e.period, now))]
    {
      hide Deadlines.CatchUp;
      ghost var e := tasks[index];
      Deadlines.CatchUpStep(e.nextDue, e.period, now);
      tasks[index] := tasks[index].(nextDue := (tasks[index].nextDue + tasks[index].period) % Deadlines.WRAP64);
      while now >= tasks[index].nextDue
        invariant tasks[..] == old(tasks[..])[index := e.(nextDue := tasks[index].nextDue)]
        invariant Deadlines.Reaches(e.nextDue, e.period, now, tasks[index].nextDue)
        decreases now - tasks[index].nextDue
      {
        Deadlines.CatchUpStep(tasks[index].nextDue, e.period, now);
        tasks[index] := tasks[index].(nextDue := (tasks[index].nextDue + tasks[index].period) % Deadlines.WRAP64);
      }
    }
  }

  lemma {:induction false} CompactWithout(entries: seq<Entry>, i: nat)
    requires i < |entries| && !Live(entries[i])
    ensures Compact(entries[..i] + entries[i + 1..]) == Compact(entries)
  {
    assert entries == entries[..i] + ([entries[i]] + entries[i + 1..]);
    CompactConcat(entries[..i], [entries[i]] + entries[i + 1..]);
    CompactConcat(entries[..i], entries[i + 1..]);
    assert ([entries[i]] + entries[i + 1..])[1..] == entries[i + 1..];
  }
}
