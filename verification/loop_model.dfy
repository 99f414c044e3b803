/** The EventLoop facade together with the cooperative scheduler below it, as one state machine. */
module LoopModel {
  import opened Bytes
  import opened Scheduler
  import opened CallbackTasks
  import Deadlines

  /** Generations are 16-bit. */
  const GENERATIONS: nat := 0x1_0000

  const MAX64: nat := Deadlines.WRAP64 - 1

  /** One callback slot. `releases` counts without wrapping; it is not in the source. */
  datatype SlotState = SlotState(task: Task, used: bool, generation: nat, releases: nat)

  datatype LogEntry = Polled(id: nat) | Unscheduled(task: TaskRef)

  /** The scheduler has as many places as the loop has callback slots. The log is bookkeeping of the model. */
  datatype System = System(
    entries: seq<Entry>,
    running: bool,
    nextId: nat,
    slots: seq<SlotState>,
    log: seq<LogEntry>)

  // ---- operations --------------------------------------------------------------------------

  function WithTask(s: System, k: nat, t: Task): System
    requires k < |s.slots|
  {
    s.(slots := s.slots[k := s.slots[k].(task := t)])
  }

  predicate Valid(s: System, h: Handle) {
    h.slot < |s.slots| && s.slots[h.slot].used && s.slots[h.slot].task.active && s.slots[h.slot].generation == h.generation
  }

  function LowestFree(slots: seq<SlotState>): (k: nat)
    ensures k <= |slots| && (k < |slots| ==> !slots[k].used)
    ensures forall i :: 0 <= i < k ==> slots[i].used
  {
    if slots == [] || !slots[0].used then 0 else 1 + LowestFree(slots[1..])
  }

  lemma {:induction false} LowestFreeIs(slots: seq<SlotState>, k: nat)
    requires k <= |slots| && (k < |slots| ==> !slots[k].used) && forall i :: 0 <= i < k ==> slots[i].used
    ensures LowestFree(slots) == k
  {
    if k > 0 {
      LowestFreeIs(slots[1..], k - 1);
    }
  }

  /** The lowest free slot, and no other, is tried. */
  function Allocate(s: System, oneShot: bool): (System, Option<Handle>) {
    var k := LowestFree(s.slots);
    if k == |s.slots| then (s, None)
    else
      var h := Handle(k, s.slots[k].generation);
      var (ok, t) := Set(s.slots[k].task, if oneShot then Some(h) else None);
      if ok then (s.(slots := s.slots[k := s.slots[k].(task := t, used := true)]), Some(h))
      else (WithTask(s, k, t), None)
  }

  function ReleaseSlot(st: SlotState): SlotState {
    SlotState(Clear(st.task), false, (st.generation + 1) % GENERATIONS, st.releases + 1)
  }

  function ReleaseUnregistered(s: System, h: Handle): System {
    if h.slot < |s.slots| then s.(slots := s.slots[h.slot := ReleaseSlot(s.slots[h.slot])]) else s
  }

  function ReleaseRegistered(s: System, h: Handle): System {
    if h.slot < |s.slots| && s.slots[h.slot].used && s.slots[h.slot].generation == h.generation
    then ReleaseUnregistered(s, h) else s
  }

  /** Registration closes the gaps first, whether or not a pass is running and whether or not it succeeds. */
  function AddEntry(s: System, task: TaskRef, period: nat, due: nat, periodic: bool): (System, bool) {
    var compacted := Compact(s.entries);
    if (periodic && period == 0) || |compacted| >= |s.slots| then
      (s.(entries := compacted, nextId := s.nextId + 1), false)
    else
      var e := Entry(Some(task), if periodic then period else 0, due, periodic, true, s.nextId);
      (s.(entries := compacted + [e], nextId := s.nextId + 1), true)
  }

  function RemoveEntries(s: System, task: TaskRef): (System, bool) {
    var marked := Unschedule(s.entries, task);
    (s.(entries := if s.running then marked else Compact(marked), log := s.log + [Unscheduled(task)]),
     exists e :: e in s.entries && e.task == Some(task))
  }

  function Registered(r: (System, bool), h: Handle): (System, Option<Handle>) {
    if r.1 then (r.0, Some(h)) else (ReleaseUnregistered(r.0, h), None)
  }

  function OnRepeat(s: System, period: nat, clock: nat): (System, Option<Handle>) {
    var (s1, h) := Allocate(s, false);
    if h.None? then (s1, None)
    else Registered(AddEntry(s1, Slot(h.value.slot), period, clock, true), h.value)
  }

  function DelayDue(delay: nat, clock: nat): nat {
    if delay > MAX64 - clock then MAX64 else clock + delay
  }

  function OnDelay(s: System, delay: nat, clock: nat): (System, Option<Handle>) {
    var (s1, h) := Allocate(s, true);
    if h.None? then (s1, None)
    else Registered(AddEntry(s1, Slot(h.value.slot), 0, DelayDue(delay, clock), false), h.value)
  }

  function RemoveHandle(s: System, h: Handle): (System, bool) {
    if !Valid(s, h) then (s, false)
    else
      var (s1, removed) := RemoveEntries(s, Slot(h.slot));
      if !removed then (s1, false) else (ReleaseRegistered(s1, h), true)
  }

  function EnableHandle(s: System, h: Handle, on: bool): (System, bool) {
    if !Valid(s, h) then (s, false)
    else (WithTask(s, h.slot, SetEnabled(s.slots[h.slot].task, on)), true)
  }

  /** What an application, or a callback while it runs, can do: the facade's operations, and the scheduler's
      own on tasks that are not callback slots. Clock readings are parameters. */
  datatype Op =
    | Repeat(period: nat, clock: nat)
    | Delay(delay: nat, clock: nat)
    | Remove(handle: Handle)
    | Enable(handle: Handle)
    | Disable(handle: Handle)
    | AddPeriodic(name: nat, period: nat, clock: nat)
    | AddOneShot(name: nat, due: nat)
    | RemoveTask(name: nat)

  function Exec(s: System, op: Op): System {
    match op
    case Repeat(period, clock) => OnRepeat(s, period, clock).0
    case Delay(delay, clock) => OnDelay(s, delay, clock).0
    case Remove(h) => RemoveHandle(s, h).0
    case Enable(h) => EnableHandle(s, h, true).0
    case Disable(h) => EnableHandle(s, h, false).0
    case AddPeriodic(name, period, clock) => AddEntry(s, Foreign(name), period, clock, true).0
    case AddOneShot(name, due) => AddEntry(s, Foreign(name), 0, due, false).0
    case RemoveTask(name) => RemoveEntries(s, Foreign(name)).0
  }

  function ExecAll(s: System, script: seq<Op>): System {
    if script == [] then s else Exec(ExecAll(s, script[..|script| - 1]), script[|script| - 1])
  }

  // ---- passes ------------------------------------------------------------------------------

  /** What an invocation does after the callable has returned: a one-shot completes its registration; then
      the storage is left, and destroyed if that was asked for. */
  function Finish(s: System, k: nat, c: Callable): System
    requires k < |s.slots|
  {
    var s' := if c.completes.Some? then ReleaseRegistered(s, c.completes.value) else s;
    WithTask(s', k, Leave(s'.slots[k].task, c.id))
  }

  lemma OpSlotCount(s: System, op: Op)
    ensures |Exec(s, op).slots| == |s.slots|
  {
    hide Compact, Unschedule, LowestFree, Set;
  }

  lemma {:induction false} SlotCountStays(s: System, script: seq<Op>)
    ensures |ExecAll(s, script).slots| == |s.slots|
  {
    hide Exec;
    if script != [] {
      SlotCountStays(s, script[..|script| - 1]);
      OpSlotCount(ExecAll(s, script[..|script| - 1]), script[|script| - 1]);
    }
  }

  /** A poll whose callback performs `script`. */
  function PollTask(s: System, task: TaskRef, script: seq<Op>): System {
    match task
    case Foreign(_) => ExecAll(s, script)
    case Slot(k) =>
      if k < |s.slots| && Runs(s.slots[k].task) then
        var c := s.slots[k].task.stored.value;
        var entered := WithTask(s, k, Enter(s.slots[k].task));
        SlotCountStays(entered, script);
        Finish(ExecAll(entered, script), k, c)
      else s
  }

  predicate Due(s: System, i: nat, now: nat) {
    i < |s.entries| && Live(s.entries[i]) && s.entries[i].nextDue <= now
  }

  function Begun(s: System, i: nat): System
    requires i < |s.entries|
  {
    s.(log := s.log + [Polled(s.entries[i].id)])
  }

  /** The bookkeeping after a poll concerns whatever entry is at that index by then. */
  function Settled(s: System, i: nat, now: nat): System {
    if i < |s.entries| then s.(entries := s.entries[i := AfterPoll(s.entries[i], now)]) else s
  }

  /** One round of the loop of run_once. */
  function Turn(s: System, i: nat, now: nat, script: seq<Op>): System {
    if Due(s, i, now) then Settled(PollTask(Begun(s, i), s.entries[i].task.value, script), i, now) else s
  }

  /** The callback polled in round i performs scripts(i). Rounds beyond the last entry change nothing. */
  function Turns(s: System, rounds: nat, now: nat, scripts: nat -> seq<Op>): System {
    if rounds == 0 then s else Turn(Turns(s, rounds - 1, now, scripts), rounds - 1, now, scripts(rounds - 1))
  }

  /** The deadline that a round sets, if any, is a 64-bit number. */
  predicate TurnIn64(s: System, i: nat, now: nat, script: seq<Op>) {
    Due(s, i, now) ==> SettlesIn64(PollTask(Begun(s, i), s.entries[i].task.value, script).entries, i, now)
  }

  /** And so in every round of a pass that has begun. */
  ghost predicate TurnsIn64(s: System, now: nat, scripts: nat -> seq<Op>) {
    forall i: nat :: i < |s.slots| ==> TurnIn64(Turns(s, i, now, scripts), i, now, scripts(i))
  }

  function BeginPass(s: System): System {
    s.(entries := Compact(s.entries), running := true)
  }

  function EndPass(s: System): System {
    s.(entries := Compact(s.entries), running := false)
  }

  /** `run_once`: no index reaches the capacity, so that many rounds are all of them. */
  function Pass(s: System, now: nat, scripts: nat -> seq<Op>): System {
    EndPass(Turns(BeginPass(s), |s.slots|, now, scripts))
  }

  lemma TurnsNext(s: System, rounds: nat, now: nat, scripts: nat -> seq<Op>)
    ensures Turns(s, 0, now, scripts) == s
    ensures Turns(s, rounds + 1, now, scripts) == Turn(Turns(s, rounds, now, scripts), rounds, now, scripts(rounds))
  {
  }

  /** Past the last entry a round changes nothing, and no entry appears. */
  lemma {:induction false} TurnsDone(s: System, i: nat, rounds: nat, now: nat, scripts: nat -> seq<Op>)
    requires i <= rounds && i >= |Turns(s, i, now, scripts).entries|
    ensures Turns(s, rounds, now, scripts) == Turns(s, i, now, scripts)
    decreases rounds - i
  {
    hide Turns, Turn;
    if i < rounds {
      TurnsDone(s, i, rounds - 1, now, scripts);
      TurnDone(Turns(s, i, now, scripts), rounds - 1, now, scripts(rounds - 1));
      TurnsNext(s, rounds - 1, now, scripts);
    }
  }

  lemma TurnDone(s: System, i: nat, now: nat, script: seq<Op>)
    requires i >= |s.entries|
    ensures Turn(s, i, now, script) == s
  {
  }

  datatype Action = Do(op: Op) | Tick(now: nat, scripts: nat -> seq<Op>)

  function Act(s: System, a: Action): System {
    match a
    case Do(op) => Exec(s, op)
    case Tick(now, scripts) => Pass(s, now, scripts)
  }

  function RunAll(s: System, actions: seq<Action>): System {
    if actions == [] then s else Act(RunAll(s, actions[..|actions| - 1]), actions[|actions| - 1])
  }

  lemma RunNext(s: System, actions: seq<Action>, a: Action)
    ensures RunAll(s, actions + [a]) == Act(RunAll(s, actions), a)
  {
    assert (actions + [a])[..|actions|] == actions;
  }

  const EMPTY_SLOT := SlotState(VACATED, false, 0, 0)

  function Initial(slots: nat): System {
    System([], false, 0, seq(slots, _ => EMPTY_SLOT), [])
  }

  // ---- what every step keeps ---------------------------------------------------------------

  /** No one-shot has been entered twice, and one that is at rest has not been entered at all. */
  predicate OneShotsOnce(t: Task) {
    && (forall e :: e in t.history && e.Constructed? && e.oneShot ==> multiset(t.history)[Entered(e.id)] <= 1)
    && (t.stored.Some? ==> Constructed(t.stored.value.id, t.stored.value.completes.Some?) in t.history)
    && (t.stored.Some? && !t.invoking && t.stored.value.completes.Some? ==> Entered(t.stored.value.id) !in t.history)
  }

  predicate SlotOk(k: nat, st: SlotState) {
    && WellFormed(st.task) && OneShotsOnce(st.task)
    && st.used == st.task.active
    && st.generation == st.releases % GENERATIONS
    && (st.task.active ==> st.task.stored.value.completes == None
                           || st.task.stored.value.completes == Some(Handle(k, st.generation)))
  }

  /** `executing` is the slot whose callable is on the stack, if any. */
  predicate SlotsOk(s: System, executing: Option<nat>) {
    && (forall k :: 0 <= k < |s.slots| ==> SlotOk(k, s.slots[k]))
    && (forall k :: 0 <= k < |s.slots| ==> (s.slots[k].task.invoking <==> executing == Some(k)))
  }

  predicate EntriesOk(s: System) {
    && Ordered(s.entries, s.nextId) && |s.entries| <= |s.slots|
    && forall i :: 0 <= i < |s.entries| ==> s.entries[i].periodic ==> s.entries[i].period > 0
  }

  lemma {:induction false} ReleaseOk(k: nat, st: SlotState)
    requires SlotOk(k, st)
    ensures SlotOk(k, ReleaseSlot(st)) && ReleaseSlot(st).task.invoking == st.task.invoking
  {
    ClearWellFormed(st.task);
    ClearOnce(st.task);
  }

  lemma {:induction false} ClearOnce(t: Task)
    requires WellFormed(t) && OneShotsOnce(t)
    ensures OneShotsOnce(Clear(t))
  {
  }

  lemma {:induction false} SetOnce(t: Task, completes: Option<Handle>)
    requires WellFormed(t) && OneShotsOnce(t)
    ensures OneShotsOnce(Set(t, completes).1)
  {
    ClearOnce(t);
    ClearWellFormed(t);
    hide Clear;
    if !t.invoking {
      ConstructOnce(Clear(t), Set(t, completes).1, completes);
    }
  }

  lemma {:induction false} ConstructOnce(t: Task, t': Task, completes: Option<Handle>)
    requires LifeOf(t.history).Some? && OneShotsOnce(t)
    requires t'.history == t.history + [Constructed(Made(t.history), completes.Some?)]
    requires t'.stored == Some(Callable(Made(t.history), completes)) && !t'.invoking
    ensures OneShotsOnce(t')
  {
    LifeBounds(t.history);
    var id := Made(t.history);
    hide LifeOf, Made;
    assert Entered(id) !in t.history;
    assert forall e :: e in t'.history <==> e in t.history || e == Constructed(id, completes.Some?);
  }

  /** Replacing one slot by one that is in order, and executing or not as before. */
  lemma OneSlotOk(s: System, k: nat, st: SlotState, x: Option<nat>)
    requires SlotsOk(s, x) && k < |s.slots| && SlotOk(k, st) && st.task.invoking == s.slots[k].task.invoking
    ensures SlotsOk(s.(slots := s.slots[k := st]), x)
  {
    hide SlotOk;
  }

  lemma SameSlotsOk(s: System, s': System, x: Option<nat>)
    requires SlotsOk(s, x) && s'.slots == s.slots
    ensures SlotsOk(s', x)
  {
    hide SlotOk;
  }

  lemma {:induction false} SlotSetOk(k: nat, st: SlotState, completes: Option<Handle>)
    requires SlotOk(k, st) && !st.used && (completes == None || completes == Some(Handle(k, st.generation)))
    ensures var (ok, t) := Set(st.task, completes);
            t.invoking == st.task.invoking && SlotOk(k, st.(task := t, used := ok))
  {
    SetWellFormed(st.task, completes);
    SetOnce(st.task, completes);
    ClearWellFormed(st.task);
  }

  lemma {:induction false} AllocateOk(s: System, oneShot: bool, x: Option<nat>)
    requires SlotsOk(s, x)
    ensures SlotsOk(Allocate(s, oneShot).0, x) && |Allocate(s, oneShot).0.slots| == |s.slots|
  {
    var k := LowestFree(s.slots);
    if k < |s.slots| {
      var st := s.slots[k];
      var completes := if oneShot then Some(Handle(k, st.generation)) else None;
      assert SlotOk(k, st);
      hide SlotOk, Set;
      SlotSetOk(k, st, completes);
      var (ok, t) := Set(st.task, completes);
      OneSlotOk(s, k, st.(task := t, used := ok), x);
    }
  }

  lemma {:induction false} ReleaseUnregisteredOk(s: System, h: Handle, x: Option<nat>)
    requires SlotsOk(s, x)
    ensures SlotsOk(ReleaseUnregistered(s, h), x)
  {
    if h.slot < |s.slots| {
      assert SlotOk(h.slot, s.slots[h.slot]);
      hide SlotOk, ReleaseSlot;
      ReleaseOk(h.slot, s.slots[h.slot]);
      OneSlotOk(s, h.slot, ReleaseSlot(s.slots[h.slot]), x);
    }
  }

  lemma {:induction false} EnableOk(s: System, h: Handle, on: bool, x: Option<nat>)
    requires SlotsOk(s, x)
    ensures SlotsOk(EnableHandle(s, h, on).0, x)
  {
    if Valid(s, h) {
      var st := s.slots[h.slot];
      assert SlotOk(h.slot, st.(task := SetEnabled(st.task, on)));
      OneSlotOk(s, h.slot, st.(task := SetEnabled(st.task, on)), x);
    }
  }

  lemma {:induction false} RegisterOk(s: System, h: Option<Handle>, task: TaskRef, period: nat, due: nat,
                                      periodic: bool, x: Option<nat>)
    requires SlotsOk(s, x) && h.Some?
    ensures var r := Registered(AddEntry(s, task, period, due, periodic), h.value).0;
            SlotsOk(r, x) && |r.slots| == |s.slots|
  {
    var s' := AddEntry(s, task, period, due, periodic).0;
    SameSlotsOk(s, s', x);
    ReleaseUnregisteredOk(s', h.value, x);
  }

  lemma {:induction false} RemoveOk(s: System, h: Handle, x: Option<nat>)
    requires SlotsOk(s, x)
    ensures SlotsOk(RemoveHandle(s, h).0, x) && |RemoveHandle(s, h).0.slots| == |s.slots|
  {
    var s' := RemoveEntries(s, Slot(h.slot)).0;
    SameSlotsOk(s, s', x);
    ReleaseUnregisteredOk(s', h, x);
  }

  /** Every operation keeps every slot in order, whatever the state of the scheduler. */
  lemma {:induction false} ExecSlotsOk(s: System, op: Op, x: Option<nat>)
    requires SlotsOk(s, x)
    ensures SlotsOk(Exec(s, op), x) && |Exec(s, op).slots| == |s.slots|
  {
    hide SlotsOk, Allocate, AddEntry, ReleaseSlot;
    match op
    case Repeat(period, clock) =>
      AllocateOk(s, false, x);
      var (s1, h) := Allocate(s, false);
      if h.Some? {
        RegisterOk(s1, h, Slot(h.value.slot), period, clock, true, x);
      }
    case Delay(delay, clock) =>
      AllocateOk(s, true, x);
      var (s1, h) := Allocate(s, true);
      if h.Some? {
        RegisterOk(s1, h, Slot(h.value.slot), 0, DelayDue(delay, clock), false, x);
      }
    case Remove(h) => RemoveOk(s, h, x);
    case Enable(h) => EnableOk(s, h, true, x);
    case Disable(h) => EnableOk(s, h, false, x);
    case AddPeriodic(name, period, clock) => AddKeepsSlots(s, Foreign(name), period, clock, true, x);
    case AddOneShot(name, due) => AddKeepsSlots(s, Foreign(name), 0, due, false, x);
    case RemoveTask(name) => SameSlotsOk(s, RemoveEntries(s, Foreign(name)).0, x);
  }

  lemma AddKeepsSlots(s: System, task: TaskRef, period: nat, due: nat, periodic: bool, x: Option<nat>)
    requires SlotsOk(s, x)
    ensures var s' := AddEntry(s, task, period, due, periodic).0; s'.slots == s.slots && SlotsOk(s', x)
  {
    SameSlotsOk(s, AddEntry(s, task, period, due, periodic).0, x);
  }

  lemma {:induction false} ExecAllSlotsOk(s: System, script: seq<Op>, x: Option<nat>)
    requires SlotsOk(s, x)
    ensures SlotsOk(ExecAll(s, script), x) && |ExecAll(s, script).slots| == |s.slots|
  {
    hide SlotsOk, Exec;
    if script != [] {
      ExecAllSlotsOk(s, script[..|script| - 1], x);
      ExecSlotsOk(ExecAll(s, script[..|script| - 1]), script[|script| - 1], x);
    }
  }

  /** While a callable is on the stack its storage keeps it. */
  lemma {:induction false} OpKeepsCallable(s: System, op: Op, k: nat)
    requires k < |s.slots| && s.slots[k].task.invoking
    ensures |Exec(s, op).slots| == |s.slots|
    ensures Exec(s, op).slots[k].task.invoking && Exec(s, op).slots[k].task.stored == s.slots[k].task.stored
  {
    hide Compact, Unschedule, LowestFree, DestroyNow, Made;
  }

  lemma {:induction false} ScriptKeepsCallable(s: System, script: seq<Op>, k: nat)
    requires k < |s.slots| && s.slots[k].task.invoking
    ensures |ExecAll(s, script).slots| == |s.slots|
    ensures ExecAll(s, script).slots[k].task.invoking
    ensures ExecAll(s, script).slots[k].task.stored == s.slots[k].task.stored
  {
    hide Exec;
    if script != [] {
      ScriptKeepsCallable(s, script[..|script| - 1], k);
      OpKeepsCallable(ExecAll(s, script[..|script| - 1]), script[|script| - 1], k);
    }
  }
}
