/** The facade's slots and the scheduler's entries describe the same registrations, between passes and during them. */
module LoopAgreement {
  import opened Bytes
  import opened Scheduler
  import opened CallbackTasks
  import opened LoopModel
  import opened LoopRuns
  import opened LoopPass
  import opened LoopCompleteness

  predicate IsEntryOf(e: Entry, k: nat) {
    Live(e) && e.task == Some(Slot(k))
  }

  /** What is registered in a slot: nothing, a repeating callable (true) or a one-shot (false). */
  function Kind(st: SlotState): Option<bool> {
    if !st.used || st.task.stored.None? then None else Some(st.task.stored.value.completes.None?)
  }

  ghost predicate NoEntry(s: System, k: nat) {
    forall e :: IsEntryOf(e, k) ==> e !in s.entries
  }

  /** Exactly one live entry, of the right kind. */
  ghost predicate OneEntry(s: System, k: nat, periodic: bool) {
    exists e :: IsEntryOf(e, k) && e in s.entries && e.periodic == periodic
                && forall x :: IsEntryOf(x, k) && x in s.entries ==> x == e
  }

  ghost predicate AgreesAt(s: System, k: nat)
    requires k < |s.slots|
  {
    if Kind(s.slots[k]).None? then NoEntry(s, k) else OneEntry(s, k, Kind(s.slots[k]).value)
  }

  /** Every slot in use has exactly one live entry, of its kind; a free slot has none; and no entry names a
      slot that does not exist. */
  ghost predicate Agrees(s: System) {
    && (forall k :: 0 <= k < |s.slots| ==> AgreesAt(s, k))
    && (forall e :: e in s.entries && Live(e) && e.task.value.Slot? ==> e.task.value.index < |s.slots|)
  }

  /** The live entries of slot k are the same. */
  ghost predicate SameEntriesOf(s: System, s': System, k: nat) {
    forall e :: IsEntryOf(e, k) ==> (e in s'.entries <==> e in s.entries)
  }

  lemma {:induction false} SameAt(s: System, s': System, k: nat)
    requires k < |s.slots| && |s'.slots| == |s.slots| && SameEntriesOf(s, s', k) && Kind(s'.slots[k]) == Kind(s.slots[k])
    requires AgreesAt(s, k)
    ensures AgreesAt(s', k)
  {
    hide IsEntryOf, Kind;
  }

  // ---- operations --------------------------------------------------------------------------

  lemma {:induction false} AddedEntriesOf(s: System, task: TaskRef, period: nat, due: nat, periodic: bool, k: nat)
    ensures var (s', ok) := AddEntry(s, task, period, due, periodic);
            (!ok || task != Slot(k) ==> SameEntriesOf(s, s', k))
            && (ok && task == Slot(k) && NoEntry(s, k) ==> OneEntry(s', k, periodic))
  {
    CompactKeeps(s.entries);
    hide Compact;
    var (s', ok) := AddEntry(s, task, period, due, periodic);
    if ok {
      var e := s'.entries[|s'.entries| - 1];
      assert s'.entries == Compact(s.entries) + [e];
      assert e in s'.entries;
      assert task == Slot(k) ==> IsEntryOf(e, k);
    }
  }

  lemma {:induction false} RemovedEntriesOf(s: System, task: TaskRef, k: nat)
    ensures var s' := RemoveEntries(s, task).0;
            if task == Slot(k) then NoEntry(s', k) else SameEntriesOf(s, s', k)
  {
    var marked := Unschedule(s.entries, task);
    CompactKeeps(marked);
    forall e | IsEntryOf(e, k)
      ensures task == Slot(k) ==> e !in marked
      ensures task != Slot(k) ==> (e in marked <==> e in s.entries)
    {
      if e in s.entries && task != Slot(k) {
        var j :| 0 <= j < |s.entries| && s.entries[j] == e;
        assert marked[j] == e;
      }
    }
  }

  /** No entry for a slot that does not exist is made. */
  lemma {:induction false} OpInRange(s: System, op: Op)
    requires forall e :: e in s.entries && Live(e) && e.task.value.Slot? ==> e.task.value.index < |s.slots|
    ensures |Exec(s, op).slots| == |s.slots|
    ensures forall e :: e in Exec(s, op).entries && Live(e) && e.task.value.Slot? ==> e.task.value.index < |s.slots|
  {
    OpSlotCount(s, op);
    CompactKeeps(s.entries);
    if Target(op).Some? {
      CompactKeeps(Unschedule(s.entries, Target(op).value));
    }
    hide Compact, LowestFree, Set, Clear;
  }

  lemma {:induction false} AllocateKinds(s: System, oneShot: bool, x: Option<nat>)
    requires SlotsOk(s, x)
    ensures var (s', h) := Allocate(s, oneShot);
            && s'.entries == s.entries && |s'.slots| == |s.slots|
            && (forall k :: 0 <= k < |s.slots| && (h.None? || k != h.value.slot) ==> Kind(s'.slots[k]) == Kind(s.slots[k]))
            && (h.Some? ==> h.value.slot < |s.slots| && !s.slots[h.value.slot].used
                            && Kind(s'.slots[h.value.slot]) == Some(!oneShot))
  {
    hide SlotsOk, Set, Kind;
    var k := LowestFree(s.slots);
    if k < |s.slots| {
      var st := s.slots[k];
      var completes := if oneShot then Some(Handle(k, st.generation)) else None;
      SetKind(st, completes);
      var (ok, t) := Set(st.task, completes);
      assert Allocate(s, oneShot).0.slots == s.slots[k := st.(task := t, used := ok)];
    }
  }

  lemma SetKind(st: SlotState, completes: Option<Handle>)
    requires !st.used
    ensures Kind(st) == None
    ensures var (ok, t) := Set(st.task, completes);
            Kind(st.(task := t, used := ok)) == if ok then Some(completes.None?) else None
  {
  }

  /** Registration into a slot that was free. */
  lemma {:induction false} RegisterAgrees(s: System, s1: System, h: Handle, period: nat, due: nat, periodic: bool)
    requires Agrees(s) && s1.entries == s.entries && |s1.slots| == |s.slots|
    requires h.slot < |s.slots| && Kind(s.slots[h.slot]) == None && Kind(s1.slots[h.slot]) == Some(periodic)
    requires forall k :: 0 <= k < |s.slots| && k != h.slot ==> Kind(s1.slots[k]) == Kind(s.slots[k])
    ensures var r := Registered(AddEntry(s1, Slot(h.slot), period, due, periodic), h).0;
            forall k :: 0 <= k < |s.slots| ==> AgreesAt(r, k)
  {
    var added := AddEntry(s1, Slot(h.slot), period, due, periodic);
    var r := Registered(added, h).0;
    forall k | 0 <= k < |s.slots| ensures AgreesAt(r, k) {
      AddedEntriesOf(s1, Slot(h.slot), period, due, periodic, k);
      assert AgreesAt(s, k);
      hide AddEntry, IsEntryOf;
      assert NoEntry(s, k) ==> NoEntry(s1, k);
      if k != h.slot || !added.1 {
        SameAt(s, r, k);
      }
    }
  }

  lemma {:induction false} ReleasedAgrees(s: System, h: Handle, x: Option<nat>)
    requires SlotsOk(s, x) && Agrees(s)
    ensures forall k :: 0 <= k < |s.slots| ==> AgreesAt(RemoveHandle(s, h).0, k)
    ensures Valid(s, h) ==> RemoveHandle(s, h).1
  {
    var r := RemoveHandle(s, h).0;
    if Valid(s, h) {
      assert SlotOk(h.slot, s.slots[h.slot]) && AgreesAt(s, h.slot);
      assert Kind(s.slots[h.slot]).Some?;
      forall k | 0 <= k < |s.slots| ensures AgreesAt(r, k) {
        RemovedEntriesOf(s, Slot(h.slot), k);
        assert AgreesAt(s, k);
        if k != h.slot {
          SameAt(s, r, k);
        }
      }
    }
  }

  /** Every operation keeps the agreement, also while a callback runs. */
  lemma {:induction false} OpAgrees(s: System, op: Op, x: Option<nat>)
    requires SlotsOk(s, x) && Agrees(s)
    ensures Agrees(Exec(s, op))
  {
    OpInRange(s, op);
    match op
    case Repeat(period, clock) => RepeatAgrees(s, period, clock, x);
    case Delay(delay, clock) => DelayAgrees(s, delay, clock, x);
    case Remove(h) => ReleasedAgrees(s, h, x);
    case Enable(h) => EnableAgrees(s, h, true);
    case Disable(h) => EnableAgrees(s, h, false);
    case AddPeriodic(name, period, clock) => ForeignAgrees(s, name, period, clock, true);
    case AddOneShot(name, due) => ForeignAgrees(s, name, 0, due, false);
    case RemoveTask(name) =>
      forall k | 0 <= k < |s.slots| ensures AgreesAt(Exec(s, op), k) {
        RemovedEntriesOf(s, Foreign(name), k);
        SameAt(s, Exec(s, op), k);
      }
  }

  lemma {:induction false} ForeignAgrees(s: System, name: nat, period: nat, due: nat, periodic: bool)
    requires Agrees(s)
    ensures forall k :: 0 <= k < |s.slots| ==> AgreesAt(AddEntry(s, Foreign(name), period, due, periodic).0, k)
  {
    forall k | 0 <= k < |s.slots| ensures AgreesAt(AddEntry(s, Foreign(name), period, due, periodic).0, k) {
      AddedEntriesOf(s, Foreign(name), period, due, periodic, k);
      SameAt(s, AddEntry(s, Foreign(name), period, due, periodic).0, k);
    }
  }

  lemma {:induction false} EnableAgrees(s: System, h: Handle, on: bool)
    requires Agrees(s)
    ensures forall k :: 0 <= k < |s.slots| ==> AgreesAt(EnableHandle(s, h, on).0, k)
  {
    forall k | 0 <= k < |s.slots| ensures AgreesAt(EnableHandle(s, h, on).0, k) {
      assert AgreesAt(s, k);
      SameAt(s, EnableHandle(s, h, on).0, k);
    }
  }

  lemma {:induction false} RepeatAgrees(s: System, period: nat, clock: nat, x: Option<nat>)
    requires SlotsOk(s, x) && Agrees(s)
    ensures forall k :: 0 <= k < |s.slots| ==> AgreesAt(OnRepeat(s, period, clock).0, k)
  {
    AllocateKinds(s, false, x);
    var (s1, h) := Allocate(s, false);
    hide SlotsOk, Allocate, AddEntry, ReleaseUnregistered;
    if h.Some? {
      RegisterAgrees(s, s1, h.value, period, clock, true);
    } else {
      SameKindsAgree(s, s1);
    }
  }

  lemma {:induction false} DelayAgrees(s: System, delay: nat, clock: nat, x: Option<nat>)
    requires SlotsOk(s, x) && Agrees(s)
    ensures forall k :: 0 <= k < |s.slots| ==> AgreesAt(OnDelay(s, delay, clock).0, k)
  {
    AllocateKinds(s, true, x);
    var (s1, h) := Allocate(s, true);
    hide SlotsOk, Allocate, AddEntry, ReleaseUnregistered;
    if h.Some? {
      RegisterAgrees(s, s1, h.value, 0, DelayDue(delay, clock), false);
    } else {
      SameKindsAgree(s, s1);
    }
  }

  lemma {:induction false} SameKindsAgree(s: System, s': System)
    requires Agrees(s) && s'.entries == s.entries && |s'.slots| == |s.slots|
    requires forall k :: 0 <= k < |s.slots| ==> Kind(s'.slots[k]) == Kind(s.slots[k])
    ensures Agrees(s')
  {
    forall k | 0 <= k < |s.slots| ensures AgreesAt(s', k) {
      assert AgreesAt(s, k);
      SameAt(s, s', k);
    }
  }

  lemma {:induction false} ScriptAgrees(s: System, script: seq<Op>, x: Option<nat>)
    requires SlotsOk(s, x) && Agrees(s)
    ensures Agrees(ExecAll(s, script)) && SlotsOk(ExecAll(s, script), x)
  {
    hide Exec, SlotsOk, Agrees;
    if script != [] {
      ScriptAgrees(s, script[..|script| - 1], x);
      OpAgrees(ExecAll(s, script[..|script| - 1]), script[|script| - 1], x);
      ExecSlotsOk(ExecAll(s, script[..|script| - 1]), script[|script| - 1], x);
    }
  }

  // ---- rounds ------------------------------------------------------------------------------

  /** While the callable of slot k runs, polled at position i: as long as its registration stands, its entry
      is still in place. */
  predicate InPlace(s: System, k: nat, i: nat, e: Entry) {
    k < |s.slots| && s.slots[k].task.invoking && (s.slots[k].used ==> i < |s.entries| && s.entries[i] == e)
  }

  lemma {:induction false} OpInPlace(s: System, op: Op, k: nat, i: nat, e: Entry)
    requires InPlace(s, k, i, e) && IsEntryOf(e, k) && s.running && i < |s.entries|
    requires Registers(s, op) ==> NoGap(s, i)
    ensures InPlace(Exec(s, op), k, i, e)
  {
    OpKeepsCallable(s, op, k);
    if Registers(s, op) {
      OpEntries(s, op);
      OpUsed(s, op, k);
      hide Exec, Registers;
      AddedShape(s, Exec(s, op), i);
      assert s.entries[i] == s.entries[..i + 1][i];
      assert Exec(s, op).entries[i] == Exec(s, op).entries[..i + 1][i];
    } else if op.Remove? && Valid(s, op.handle) && op.handle.slot == k {
      assert !Exec(s, op).slots[k].used by { assert e in s.entries; }
    } else {
      OpUsed(s, op, k);
      OpEntries(s, op);
      hide Exec, Registers;
    }
  }

  /** A slot whose callable runs does not come into use. */
  lemma OpUsed(s: System, op: Op, k: nat)
    requires k < |s.slots| && s.slots[k].task.invoking
    ensures |Exec(s, op).slots| == |s.slots| && (Exec(s, op).slots[k].used ==> s.slots[k].used)
  {
    hide Compact, Unschedule;
  }

  lemma {:induction false} ScriptInPlace(s: System, script: seq<Op>, k: nat, i: nat, e: Entry)
    requires InPlace(s, k, i, e) && IsEntryOf(e, k) && s.running && i < |s.entries| && Unshifted(s, script, i)
    ensures InPlace(ExecAll(s, script), k, i, e)
  {
    if script != [] {
      var s' := ExecAll(s, script[..|script| - 1]);
      ScriptInPlace(s, script[..|script| - 1], k, i, e);
      var u := ScriptFollows(s, script[..|script| - 1], i);
      hide Exec, InPlace, Registers, NoGap, IsEntryOf;
      OpInPlace(s', script[|script| - 1], k, i, e);
    }
  }

  /** The one-shots that fall due are enabled; a disabled one would be dropped with its slot still in use. */
  predicate Attended(s: System, i: nat, now: nat) {
    Due(s, i, now) && !s.entries[i].periodic && s.entries[i].task.value.Slot? && s.entries[i].task.value.index < |s.slots|
    ==> s.slots[s.entries[i].task.value.index].task.enabled
  }

  /** Settling an entry that no slot is behind, or that is not live. */
  lemma {:induction false} SettleOther(s: System, i: nat, now: nat)
    requires Agrees(s)
    requires i < |s.entries| && Live(s.entries[i]) ==> s.entries[i].task.value.Foreign?
    ensures Agrees(Settled(s, i, now))
  {
    var s' := Settled(s, i, now);
    forall k | 0 <= k < |s.slots| ensures AgreesAt(s', k) {
      forall e | IsEntryOf(e, k) ensures e in s'.entries <==> e in s.entries {
        if e in s.entries {
          var j :| 0 <= j < |s.entries| && s.entries[j] == e;
          assert s'.entries[j] == e;
        }
      }
      assert AgreesAt(s, k);
      SameAt(s, s', k);
    }
  }

  /** The live entry of a slot stands at one position only. */
  lemma {:induction false} OnlyAt(s: System, i: nat, k: nat)
    requires Agrees(s) && EntriesOk(s) && k < |s.slots| && i < |s.entries| && IsEntryOf(s.entries[i], k)
    ensures forall j :: 0 <= j < |s.entries| && j != i ==> !IsEntryOf(s.entries[j], k)
  {
    assert AgreesAt(s, k);
    assert forall j :: 0 <= j < |s.entries| ==> s.entries[j] in s.entries;
    assert forall j :: 0 <= j < |s.entries| && j != i ==> s.entries[j].id != s.entries[i].id;
  }

  /** Settling a periodic entry gives it another deadline and nothing else. */
  lemma {:induction false} SettlePeriodic(s: System, i: nat, now: nat, k: nat)
    requires Agrees(s) && EntriesOk(s) && i < |s.entries| && IsEntryOf(s.entries[i], k) && s.entries[i].periodic
    ensures Agrees(Settled(s, i, now))
  {
    var s', x := Settled(s, i, now), s.entries[i];
    var x' := s'.entries[i];
    assert IsEntryOf(x', k) && x'.periodic && x' in s'.entries;
    forall m | 0 <= m < |s.slots| ensures AgreesAt(s', m) {
      assert AgreesAt(s, m);
      forall e | IsEntryOf(e, m) && m != k ensures e in s'.entries <==> e in s.entries {
        if e in s.entries {
          var j :| 0 <= j < |s.entries| && s.entries[j] == e;
          assert s'.entries[j] == e;
        }
      }
      if m != k {
        SameAt(s, s', m);
      } else {
        OnlyAt(s, i, k);
      }
    }
  }

  /** Settling a one-shot entry of a slot just released: the slot's only entry goes with it. */
  lemma {:induction false} SettleOneShot(s: System, s1: System, i: nat, now: nat, k: nat)
    requires Agrees(s) && EntriesOk(s) && i < |s.entries| && IsEntryOf(s.entries[i], k) && !s.entries[i].periodic
    requires s1.entries == s.entries && |s1.slots| == |s.slots| && k < |s.slots| && Kind(s1.slots[k]) == None
    requires forall m :: 0 <= m < |s.slots| && m != k ==> Kind(s1.slots[m]) == Kind(s.slots[m])
    ensures Agrees(Settled(s1, i, now))
  {
    var s', x := Settled(s1, i, now), s.entries[i];
    forall m | 0 <= m < |s.slots| ensures AgreesAt(s', m) {
      assert AgreesAt(s, m);
      if m != k {
        forall e | IsEntryOf(e, m) ensures e in s'.entries <==> e in s.entries {
          if e in s.entries {
            var j :| 0 <= j < |s.entries| && s.entries[j] == e;
            assert s'.entries[j] == e;
          }
        }
        SameAt(s, s', m);
      } else {
        OnlyAt(s, i, k);
        assert !Live(s'.entries[i]);
      }
    }
  }

  /** What Finish does to the kinds: the slot that ran loses its one-shot, if that was still registered. */
  lemma {:induction false} FinishKinds(s: System, k: nat, c: Callable)
    requires SlotsOk(s, Some(k)) && k < |s.slots| && s.slots[k].task.stored == Some(c) && CompletesSlot(c, k, s.slots[k])
    ensures var r := Finish(s, k, c);
            && r.entries == s.entries && r.nextId == s.nextId && |r.slots| == |s.slots|
            && (forall m :: 0 <= m < |s.slots| && m != k ==> Kind(r.slots[m]) == Kind(s.slots[m]))
            && Kind(r.slots[k]) == if c.completes.Some? then None else Kind(s.slots[k])
  {
    assert SlotOk(k, s.slots[k]);
    hide SlotsOk, WellFormed, OneShotsOnce;
    assert Finish(s, k, c).slots == s.slots[k := Finished(s.slots[k], c)];
    assert WellFormed(s.slots[k].task);
    FinishedKind(s.slots[k], c);
  }

  lemma FinishedKind(st: SlotState, c: Callable)
    requires st.task.stored == Some(c) && st.task.invoking && WellFormed(st.task) && st.used == st.task.active
    requires c.completes.Some? && st.used ==> c.completes.value.generation == st.generation
    ensures Kind(Finished(st, c)) == if c.completes.Some? then None else Kind(st)
  {
    hide LifeOf, Made;
  }

  /** A round whose entry belongs to a slot, with the callable enabled. */
  lemma {:induction false} RunningTurnAgrees(s: System, i: nat, now: nat, script: seq<Op>, k: nat)
    requires SlotsOk(s, None) && EntriesOk(s) && s.running && Agrees(s)
    requires Due(s, i, now) && QuietTurn(s, i, now, script)
    requires s.entries[i].task == Some(Slot(k)) && k < |s.slots| && Runs(s.slots[k].task)
    ensures Agrees(Turn(s, i, now, script))
  {
    var b, e, st := Begun(s, i), s.entries[i], s.slots[k];
    var c, g := st.task.stored.value, st.generation;
    assert SlotOk(k, st) && AgreesAt(s, k);
    assert e in s.entries && IsEntryOf(e, k);
    assert c.completes.None? <==> e.periodic;
    assert c.completes == None || c.completes == Some(Handle(k, g));
    EnterOk(k, st);
    var entered := WithTask(b, k, Enter(st.task));
    SameSlotsOk(s, b, None);
    hide SlotsOk, SlotOk;
    EnteredOk(b, k, st.(task := Enter(st.task)));
    SameAgreement(s, entered);
    ScriptAgrees(entered, script, Some(k));
    ScriptEntriesOk(entered, script);
    ScriptKeepsCallable(entered, script, k);
    ScriptInPlace(entered, script, k, i, e);
    var u := ScriptFollows(entered, script, i);
    var p := ExecAll(entered, script);
    assert SameOrDropped(e, p.entries[i], u);
    hide ExecAll, Agrees, Follows, Unshifted;
    CompletesOwn(p, k, c, g);
    FinishKinds(p, k, c);
    SettleRun(p, Finish(p, k, c), i, now, k, c, e);
  }

  lemma SameAgreement(s: System, s': System)
    requires Agrees(s) && s'.entries == s.entries && |s'.slots| == |s.slots|
    requires forall k :: 0 <= k < |s.slots| ==> Kind(s'.slots[k]) == Kind(s.slots[k])
    ensures Agrees(s')
  {
    SameKindsAgree(s, s');
  }

  /** The end of such a round: the callable has returned, the entry is settled. */
  lemma {:induction false} SettleRun(p: System, f: System, i: nat, now: nat, k: nat, c: Callable, e: Entry)
    requires Agrees(p) && EntriesOk(p) && InPlace(p, k, i, e) && i < |p.entries| && IsEntryOf(e, k)
    requires p.entries[i] == e || p.entries[i] == Dropped(e)
    requires c.completes.None? <==> e.periodic
    requires f.entries == p.entries && f.nextId == p.nextId && |f.slots| == |p.slots|
    requires forall m :: 0 <= m < |p.slots| && m != k ==> Kind(f.slots[m]) == Kind(p.slots[m])
    requires Kind(f.slots[k]) == if c.completes.Some? then None else Kind(p.slots[k])
    requires p.slots[k].used ==> Kind(p.slots[k]).Some?
    ensures Agrees(Settled(f, i, now))
  {
    assert AgreesAt(p, k);
    assert p.entries[i] in p.entries;
    if p.entries[i] == e && !e.periodic {
      SettleOneShot(p, f, i, now, k);
    } else {
      assert Kind(f.slots[k]) == Kind(p.slots[k]);
      SameKindsAgree(p, f);
      if p.entries[i] == e {
        SettlePeriodic(f, i, now, k);
      } else {
        SettleOther(f, i, now);
      }
    }
  }

  lemma {:induction false} TurnAgrees(s: System, i: nat, now: nat, script: seq<Op>)
    requires SlotsOk(s, None) && EntriesOk(s) && s.running && Agrees(s)
    requires QuietTurn(s, i, now, script) && Attended(s, i, now)
    ensures Agrees(Turn(s, i, now, script))
  {
    if Due(s, i, now) {
      var b, e := Begun(s, i), s.entries[i];
      assert e in s.entries;
      SameAgreement(s, b);
      SameSlotsOk(s, b, None);
      match e.task.value {
        case Foreign(_) =>
          ScriptAgrees(b, script, None);
          var u := ScriptFollows(b, script, i);
          assert SameOrDropped(e, ExecAll(b, script).entries[i], u);
          hide ExecAll, Agrees, Follows, SlotsOk;
          SettleOther(ExecAll(b, script), i, now);
        case Slot(k) =>
          if Runs(s.slots[k].task) {
            RunningTurnAgrees(s, i, now, script, k);
          } else {
            IdleTurnAgrees(s, b, i, now, k);
          }
      }
    }
  }

  /** A disabled callable is not invoked; its entry, which is periodic, is settled. */
  lemma {:induction false} IdleTurnAgrees(s: System, b: System, i: nat, now: nat, k: nat)
    requires SlotsOk(s, None) && EntriesOk(s) && Due(s, i, now) && Attended(s, i, now) && b == Begun(s, i) && Agrees(b)
    requires s.entries[i].task == Some(Slot(k)) && k < |s.slots| && !Runs(s.slots[k].task)
    ensures Agrees(Settled(b, i, now))
  {
    assert SlotOk(k, s.slots[k]) && AgreesAt(b, k) && s.entries[i] in b.entries && IsEntryOf(s.entries[i], k);
    SettlePeriodic(b, i, now, k);
  }

  // ---- passes and runs ---------------------------------------------------------------------

  predicate AttendedRounds(s: System, rounds: nat, now: nat, scripts: nat -> seq<Op>) {
    rounds == 0 || (AttendedRounds(s, rounds - 1, now, scripts) && Attended(Turns(s, rounds - 1, now, scripts), rounds - 1, now))
  }

  /** All the invariants together. */
  ghost predicate Sound(s: System) {
    SlotsOk(s, None) && EntriesOk(s) && Agrees(s)
  }

  lemma {:induction false} TurnSound(s: System, i: nat, now: nat, script: seq<Op>)
    requires Sound(s) && s.running && QuietTurn(s, i, now, script) && Attended(s, i, now)
    ensures Sound(Turn(s, i, now, script)) && Turn(s, i, now, script).running
  {
    TurnSlotsOk(s, i, now, script);
    TurnEntriesOk(s, i, now, script);
    TurnAgrees(s, i, now, script);
    var u := QuietRound(s, i, now, script);
    hide Turn, SlotsOk, EntriesOk, Agrees, Round;
  }

  lemma {:induction false} TurnsSound(s: System, rounds: nat, now: nat, scripts: nat -> seq<Op>)
    requires Sound(s) && s.running && QuietRounds(s, rounds, now, scripts) && AttendedRounds(s, rounds, now, scripts)
    ensures Sound(Turns(s, rounds, now, scripts)) && Turns(s, rounds, now, scripts).running
  {
    hide Turn, Sound, QuietTurn, Attended;
    if rounds > 0 {
      TurnsSound(s, rounds - 1, now, scripts);
      TurnSound(Turns(s, rounds - 1, now, scripts), rounds - 1, now, scripts(rounds - 1));
    }
  }

  lemma {:induction false} CompactSound(s: System, running: bool)
    requires Sound(s)
    ensures Sound(s.(entries := Compact(s.entries), running := running))
  {
    var s' := s.(entries := Compact(s.entries), running := running);
    SameSlotsOk(s, s', None);
    CompactEntriesOk(s, s.entries);
    CompactKeeps(s.entries);
    hide Compact, SlotsOk;
    forall k | 0 <= k < |s.slots| ensures AgreesAt(s', k) {
      assert AgreesAt(s, k);
      SameAt(s, s', k);
    }
  }

  /** What the agreement needs of a run: in each pass no callback registers across a gap, and no one-shot
      is disabled when it falls due. */
  predicate Orderly(s: System, actions: seq<Action>) {
    actions == [] ||
    (Orderly(s, actions[..|actions| - 1]) &&
     match actions[|actions| - 1]
     case Do(op) => true
     case Tick(now, scripts) =>
       var b := BeginPass(RunAll(s, actions[..|actions| - 1]));
       QuietRounds(b, |b.slots|, now, scripts) && AttendedRounds(b, |b.slots|, now, scripts))
  }

  /** Between passes of any orderly run: the slots in use are the active tasks, each has exactly one live
      entry of its kind, and a free slot has none. */
  lemma {:induction false} RunAgrees(slots: nat, actions: seq<Action>)
    requires Orderly(Initial(slots), actions)
    ensures Sound(RunAll(Initial(slots), actions))
  {
    if actions != [] {
      var s := RunAll(Initial(slots), actions[..|actions| - 1]);
      RunAgrees(slots, actions[..|actions| - 1]);
      match actions[|actions| - 1]
      case Do(op) => OpSound(s, op);
      case Tick(now, scripts) =>
        hide Sound, Turns, QuietRounds, AttendedRounds;
        CompactSound(s, true);
        TurnsSound(BeginPass(s), |s.slots|, now, scripts);
        CompactSound(Turns(BeginPass(s), |s.slots|, now, scripts), false);
    }
  }

  lemma {:induction false} OpSound(s: System, op: Op)
    requires Sound(s)
    ensures Sound(Exec(s, op))
  {
    ExecSlotsOk(s, op, None);
    OpEntriesOk(s, op);
    OpAgrees(s, op, None);
    hide Exec, SlotsOk, EntriesOk, Agrees;
  }

  // ---- registration ------------------------------------------------------------------------

  function Range(n: nat): (r: set<nat>)
    ensures forall i: nat :: i in r <==> i < n
    ensures |r| == n
  {
    if n == 0 then {} else Range(n - 1) + {n - 1}
  }

  function Elements(xs: seq<nat>): set<nat> {
    if xs == [] then {} else Elements(xs[1..]) + {xs[0]}
  }

  lemma {:induction false} DistinctBelow(xs: seq<nat>, n: nat, missing: nat)
    requires forall i :: 0 <= i < |xs| ==> xs[i] < n && xs[i] != missing
    requires forall i, j :: 0 <= i < j < |xs| ==> xs[i] != xs[j]
    requires missing < n
    ensures |xs| < n
  {
    DistinctSize(xs);
    SubsetSize(Elements(xs) + {missing}, Range(n));
  }

  lemma {:induction false} DistinctSize(xs: seq<nat>)
    requires forall i, j :: 0 <= i < j < |xs| ==> xs[i] != xs[j]
    ensures |Elements(xs)| == |xs| && forall x :: x in Elements(xs) ==> x in xs
  {
    if xs != [] {
      DistinctSize(xs[1..]);
      assert xs[0] !in xs[1..];
    }
  }

  lemma {:induction false} SubsetSize(a: set<nat>, b: set<nat>)
    requires a <= b
    ensures |a| <= |b|
  {
    if a != {} {
      var x :| x in a;
      SubsetSize(a - {x}, b - {x});
    }
  }

  predicate OnlySlots(s: System) {
    forall e :: e in s.entries && Live(e) ==> e.task.value.Slot?
  }

  /** While a slot is free, the scheduler has room, also in the middle of a callback. */
  lemma {:induction false} RoomWhileFree(s: System, x: Option<nat>, free: nat)
    requires SlotsOk(s, x) && EntriesOk(s) && Agrees(s) && OnlySlots(s) && free < |s.slots| && !s.slots[free].used
    ensures |Compact(s.entries)| < |s.slots|
  {
    CompactKeeps(s.entries);
    CompactOrdered(s.entries, s.nextId);
    var c := Compact(s.entries);
    hide Compact, SlotsOk;
    assert forall j :: 0 <= j < |c| ==> c[j] in s.entries && IsEntryOf(c[j], c[j].task.value.index);
    var xs := seq(|c|, j requires 0 <= j < |c| => c[j].task.value.index);
    assert AgreesAt(s, free);
    assert forall j :: 0 <= j < |xs| ==> AgreesAt(s, xs[j]);
    DistinctBelow(xs, |s.slots|, free);
  }

  /** Whoever registers, and whenever, allocation is all that decides: once a slot has been taken, the scheduler
      has a place for its entry. */
  lemma {:induction false} RegistersExactly(s: System, x: Option<nat>, period: nat, delay: nat, clock: nat)
    requires SlotsOk(s, x) && EntriesOk(s) && Agrees(s) && OnlySlots(s)
    ensures OnDelay(s, delay, clock).1.Some? <==> Allocate(s, true).1.Some?
    ensures period > 0 ==> (OnRepeat(s, period, clock).1.Some? <==> Allocate(s, false).1.Some?)
  {
    var k := LowestFree(s.slots);
    if k < |s.slots| {
      RoomWhileFree(s, x, k);
    }
    hide Compact, SlotsOk, Agrees, Set, LowestFree;
  }

  // ---- runs that leave the scheduler to the facade -----------------------------------------

  /** Registers no task past the facade. */
  predicate Facade(op: Op) {
    !op.AddPeriodic? && !op.AddOneShot?
  }

  predicate FacadeScript(script: seq<Op>) {
    forall j :: 0 <= j < |script| ==> Facade(script[j])
  }

  ghost predicate FacadeAct(a: Action) {
    match a
    case Do(op) => Facade(op)
    case Tick(_, scripts) => forall i: nat :: FacadeScript(scripts(i))
  }

  ghost predicate FacadeRun(actions: seq<Action>) {
    forall j :: 0 <= j < |actions| ==> FacadeAct(actions[j])
  }

  lemma {:induction false} OpOnlySlots(s: System, op: Op)
    requires OnlySlots(s) && Facade(op)
    ensures OnlySlots(Exec(s, op))
  {
    CompactKeeps(s.entries);
    if Target(op).Some? {
      CompactKeeps(Unschedule(s.entries, Target(op).value));
    }
    hide Compact, LowestFree, Set, Clear;
  }

  lemma {:induction false} ScriptOnlySlots(s: System, script: seq<Op>)
    requires OnlySlots(s) && FacadeScript(script)
    ensures OnlySlots(ExecAll(s, script))
  {
    hide Exec, OnlySlots, Facade;
    if script != [] {
      ScriptOnlySlots(s, script[..|script| - 1]);
      OpOnlySlots(ExecAll(s, script[..|script| - 1]), script[|script| - 1]);
    }
  }

  lemma SettledOnlySlots(s: System, i: nat, now: nat)
    requires OnlySlots(s)
    ensures OnlySlots(Settled(s, i, now))
  {
    assert forall j :: 0 <= j < |s.entries| ==> s.entries[j] in s.entries;
  }

  lemma {:induction false} TurnOnlySlots(s: System, i: nat, now: nat, script: seq<Op>)
    requires OnlySlots(s) && FacadeScript(script)
    ensures OnlySlots(Turn(s, i, now, script))
  {
    if Due(s, i, now) {
      var b, task := Begun(s, i), s.entries[i].task.value;
      TurnIsPoll(s, i, now, script);
      hide Turn, ExecAll, Settled;
      ScriptOnlySlots(EnteredFor(b, task), Performed(b, task, script));
      SettledOnlySlots(Polling(s, i, script), i, now);
    }
  }

  lemma {:induction false} TurnsOnlySlots(s: System, rounds: nat, now: nat, scripts: nat -> seq<Op>)
    requires OnlySlots(s) && forall i: nat :: FacadeScript(scripts(i))
    ensures OnlySlots(Turns(s, rounds, now, scripts))
  {
    hide Turn, OnlySlots, FacadeScript;
    if rounds > 0 {
      TurnsOnlySlots(s, rounds - 1, now, scripts);
      TurnOnlySlots(Turns(s, rounds - 1, now, scripts), rounds - 1, now, scripts(rounds - 1));
    }
  }

  lemma CompactOnlySlots(s: System, running: bool)
    requires OnlySlots(s)
    ensures OnlySlots(s.(entries := Compact(s.entries), running := running))
  {
    CompactKeeps(s.entries);
  }

  /** In every run whose application and callbacks register through the facade only, so is every live entry. */
  lemma {:induction false} RunOnlySlots(slots: nat, actions: seq<Action>)
    requires FacadeRun(actions)
    ensures OnlySlots(RunAll(Initial(slots), actions))
  {
    if actions != [] {
      var s := RunAll(Initial(slots), actions[..|actions| - 1]);
      RunOnlySlots(slots, actions[..|actions| - 1]);
      assert FacadeAct(actions[|actions| - 1]);
      match actions[|actions| - 1] {
        case Do(op) => OpOnlySlots(s, op);
        case Tick(now, scripts) =>
          hide OnlySlots, Turns;
          CompactOnlySlots(s, true);
          TurnsOnlySlots(BeginPass(s), |s.slots|, now, scripts);
          CompactOnlySlots(Turns(BeginPass(s), |s.slots|, now, scripts), false);
      }
    }
  }

  /** After any orderly run through the facade a registration succeeds whenever a slot is free (and the period
      is not zero): its handle is valid, and its entry is the last, due at once if it is periodic and otherwise
      after the delay, or at the end of time if that comes first. */
  lemma {:induction false} RegistrationSucceeds(slots: nat, actions: seq<Action>,
                                                free: nat, delay: nat, period: nat, clock: nat)
    requires Orderly(Initial(slots), actions) && FacadeRun(actions)
    ensures var s := RunAll(Initial(slots), actions);
            free < |s.slots| && !s.slots[free].used ==>
              var (s', h) := OnDelay(s, delay, clock);
              h.Some? && Valid(s', h.value) &&
              var e := Entry(Some(Slot(h.value.slot)), 0, Min(clock + delay, MAX64), false, true, s.nextId);
              (clock <= MAX64 ==> s'.entries == Compact(s.entries) + [e])
    ensures var s := RunAll(Initial(slots), actions);
            free < |s.slots| && !s.slots[free].used && period > 0 ==>
              var (s', h) := OnRepeat(s, period, clock);
              h.Some? && Valid(s', h.value) &&
              var e := Entry(Some(Slot(h.value.slot)), period, clock, true, true, s.nextId);
              s'.entries == Compact(s.entries) + [e]
  {
    RunAgrees(slots, actions);
    RunOnlySlots(slots, actions);
    hide RunAll, Orderly, Sound, OnlySlots, OnDelay, OnRepeat;
    var s := RunAll(Initial(slots), actions);
    if free < |s.slots| && !s.slots[free].used {
      RoomToRegister(s, free, delay, period, clock);
    }
  }

  /** With no task registered past the facade, between passes. */
  lemma {:induction false} RoomToRegister(s: System, free: nat, delay: nat, period: nat, clock: nat)
    requires Sound(s) && OnlySlots(s) && free < |s.slots| && !s.slots[free].used
    ensures var (s', h) := OnDelay(s, delay, clock);
            h.Some? && Valid(s', h.value) &&
            var e := Entry(Some(Slot(h.value.slot)), 0, Min(clock + delay, MAX64), false, true, s.nextId);
            (clock <= MAX64 ==> s'.entries == Compact(s.entries) + [e])
    ensures period > 0 ==>
              var (s', h) := OnRepeat(s, period, clock);
              h.Some? && Valid(s', h.value) &&
              var e := Entry(Some(Slot(h.value.slot)), period, clock, true, true, s.nextId);
              s'.entries == Compact(s.entries) + [e]
  {
    RoomWhileFree(s, None, free);
    var k := LowestFree(s.slots);
    assert SlotOk(k, s.slots[k]);
    hide Compact, SlotsOk, Agrees, WellFormed, OneShotsOnce, LowestFree, DestroyNow;
  }

  /** Allocation tries one slot only: it succeeds exactly when some slot is free and the lowest free one is
      not executing, however many other slots are free. */
  lemma {:induction false} AllocatesExactly(s: System, oneShot: bool)
    ensures Allocate(s, oneShot).1.Some? <==>
              exists k :: 0 <= k < |s.slots| && !s.slots[k].used && !s.slots[k].task.invoking
                          && forall i :: 0 <= i < k ==> s.slots[i].used
  {
    var k := LowestFree(s.slots);
    if k < |s.slots| && !s.slots[k].task.invoking {
      assert Allocate(s, oneShot).1.Some?;
    }
  }

  /** Why one-shots must be enabled when they fall due: a disabled one loses its entry but keeps its slot. */
  lemma {:induction false} DisabledOneShotIsDropped(s: System, i: nat, now: nat, script: seq<Op>, k: nat)
    requires Sound(s) && s.running && Due(s, i, now)
    requires s.entries[i].task == Some(Slot(k)) && k < |s.slots| && !s.entries[i].periodic && !s.slots[k].task.enabled
    ensures var s' := Turn(s, i, now, script);
            s'.slots == s.slots && s'.slots[k].used && NoEntry(s', k) && !Agrees(s')
  {
    assert SlotOk(k, s.slots[k]) && AgreesAt(s, k) && s.entries[i] in s.entries && IsEntryOf(s.entries[i], k);
    OnlyAt(s, i, k);
    var s' := Turn(s, i, now, script);
    assert s' == Settled(Begun(s, i), i, now);
    assert !Live(s'.entries[i]);
    assert NoEntry(s', k);
    assert !AgreesAt(s', k);
  }

  /** A registration that fails uses no slot. */
  lemma {:induction false} FailedRegistrationUsesNothing(s: System, period: nat, delay: nat, clock: nat)
    requires forall k :: 0 <= k < |s.slots| ==> s.slots[k].used == s.slots[k].task.active
    ensures OnRepeat(s, period, clock).1.None? ==>
              forall k :: 0 <= k < |s.slots| ==> OnRepeat(s, period, clock).0.slots[k].used == s.slots[k].used
    ensures OnDelay(s, delay, clock).1.None? ==>
              forall k :: 0 <= k < |s.slots| ==> OnDelay(s, delay, clock).0.slots[k].used == s.slots[k].used
  {
    hide Compact, Set, Clear, LowestFree;
  }
}
