/** src/async_event_loop/event_loop.hpp: EventLoop over the cooperative scheduler, with its objects in place. */
module EventLoops {
  import opened Bytes
  import opened CallbackTasks
  import S = Scheduler
  import M = LoopModel
  import R = LoopRuns

  class EventLoop {
    const maxCallbacks: nat
    const scheduler: S.ArduinoLoop
    const callbackTasks: seq<CallbackTask>
    const callbackGenerations: array<nat>
    const callbackUsed: array<bool>
    /** Releases of each slot, without the wrap of its generation, and the scheduler's events. */
    ghost var releases: seq<nat>
    ghost var log: seq<M.LogEntry>

    ghost predicate Shaped()
      reads this, scheduler
    {
      && |callbackTasks| == maxCallbacks == callbackGenerations.Length == callbackUsed.Length == |releases|
      && scheduler.tasks.Length == scheduler.maxTasks == maxCallbacks && scheduler.taskCount <= maxCallbacks
      && (forall i, j :: 0 <= i < j < maxCallbacks ==> callbackTasks[i] != callbackTasks[j])
    }

    ghost predicate Valid()
      reads this, scheduler, scheduler.tasks, callbackTasks, callbackGenerations, callbackUsed
    {
      && Shaped() && scheduler.Valid()
      && forall i :: 0 <= i < maxCallbacks ==> callbackTasks[i].Valid()
    }

    ghost function SlotAt(i: nat): M.SlotState
      requires Shaped() && i < maxCallbacks
      reads this, scheduler, callbackTasks, callbackGenerations, callbackUsed
    {
      M.SlotState(callbackTasks[i].State(), callbackUsed[i], callbackGenerations[i], releases[i])
    }

    ghost function Slots(): (r: seq<M.SlotState>)
      requires Shaped()
      reads this, scheduler, callbackTasks, callbackGenerations, callbackUsed
      ensures |r| == maxCallbacks && forall i :: 0 <= i < maxCallbacks ==> r[i] == SlotAt(i)
    {
      seq(maxCallbacks, i requires 0 <= i < maxCallbacks reads this, scheduler, callbackTasks, callbackGenerations, callbackUsed
                          requires Shaped() => SlotAt(i))
    }

    /** The state machine this object is a representation of. */
    ghost function System(): M.System
      requires Shaped()
      reads this, scheduler, scheduler.tasks, callbackTasks, callbackGenerations, callbackUsed
    {
      M.System(scheduler.Entries(), scheduler.running, scheduler.nextId, Slots(), log)
    }

    constructor (maxCallbacks: nat)
      requires maxCallbacks <= 0xfffe
      ensures Valid() && this.maxCallbacks == maxCallbacks && System() == M.Initial(maxCallbacks)
    {
      var tasks: seq<CallbackTask> := [];
      for i := 0 to maxCallbacks
        invariant |tasks| == i
        invariant forall j :: 0 <= j < i ==> tasks[j].Valid() && tasks[j].State() == VACATED && fresh(tasks[j])
        invariant forall j, k :: 0 <= j < k < i ==> tasks[j] != tasks[k]
      {
        var t := new CallbackTask();
        tasks := tasks + [t];
      }
      this.maxCallbacks := maxCallbacks;
      scheduler := new S.ArduinoLoop(maxCallbacks);
      callbackGenerations := new nat[maxCallbacks](_ => 0);
      callbackUsed := new bool[maxCallbacks](_ => false);
      callbackTasks := tasks;
      releases := seq(maxCallbacks, _ => 0);
      log := [];
      new;
      assert Slots() == seq(maxCallbacks, _ => M.EMPTY_SLOT);
    }

    method IsValid(h: Handle) returns (valid: bool)
      requires Valid()
      ensures valid == M.Valid(System(), h)
    {
      valid := h.slot < maxCallbacks && callbackUsed[h.slot] && callbackTasks[h.slot].active
               && callbackGenerations[h.slot] == h.generation;
    }

    method Enable(h: Handle, on: bool) returns (ok: bool)
      requires Valid()
      modifies callbackTasks
      ensures Valid() && (System(), ok) == M.EnableHandle(old(System()), h, on)
    {
      ok := IsValid(h);
      if !ok {
        return;
      }
      callbackTasks[h.slot].Enable(on);
      assert Slots() == old(Slots())[h.slot := old(SlotAt(h.slot)).(task := SetEnabled(old(callbackTasks[h.slot].State()), on))];
    }

    method ReleaseUnregistered(h: Handle)
      requires Valid()
      modifies this, callbackTasks, callbackGenerations, callbackUsed
      ensures Valid() && System() == M.ReleaseUnregistered(old(System()), h)
    {
      if h.slot >= maxCallbacks {
        return;
      }
      callbackTasks[h.slot].ClearStored();
      callbackUsed[h.slot] := false;
      callbackGenerations[h.slot] := (callbackGenerations[h.slot] + 1) % M.GENERATIONS;
      releases := releases[h.slot := releases[h.slot] + 1];
      assert Slots() == old(Slots())[h.slot := M.ReleaseSlot(old(SlotAt(h.slot)))];
    }

    method ReleaseRegistered(h: Handle)
      requires Valid()
      modifies this, callbackTasks, callbackGenerations, callbackUsed
      ensures Valid() && System() == M.ReleaseRegistered(old(System()), h)
    {
      if h.slot >= maxCallbacks {
        return;
      }
      if !callbackUsed[h.slot] || callbackGenerations[h.slot] != h.generation {
        return;
      }
      ReleaseUnregistered(h);
    }

    /** The scan of allocate_callback and of on_delay_us: the lowest free slot, and no other, is tried. */
    method AllocateCallback(oneShot: bool) returns (h: Option<Handle>)
      requires Valid()
      modifies callbackTasks, callbackUsed
      ensures Valid() && (System(), h) == M.Allocate(old(System()), oneShot)
    {
      var i := 0;
      while i < maxCallbacks && callbackUsed[i]
        invariant i <= maxCallbacks && Valid() && System() == old(System())
        invariant forall j :: 0 <= j < i ==> callbackUsed[j]
      {
        i := i + 1;
      }
      M.LowestFreeIs(Slots(), i);
      hide Set, WellFormed, M.LowestFree;
      if i == maxCallbacks {
        return None;
      }
      var handle := Handle(i, callbackGenerations[i]);
      var ok := FillSlot(i, if oneShot then Some(handle) else None);
      return if ok then Some(handle) else None;
    }

    method FillSlot(i: nat, completes: Option<Handle>) returns (ok: bool)
      requires Valid() && i < maxCallbacks && !callbackUsed[i]
      modifies callbackTasks, callbackUsed
      ensures Valid() && ok == Set(old(callbackTasks[i].State()), completes).0
      ensures var st := old(System()).slots[i];
              System() == old(System()).(slots := old(System()).slots[i := st.(task := Set(st.task, completes).1, used := ok)])
    {
      hide Set, WellFormed;
      ok := callbackTasks[i].SetCallable(completes);
      if ok {
        callbackUsed[i] := true;
      }
      assert Slots() == old(Slots())[i := old(SlotAt(i)).(task := Set(old(callbackTasks[i].State()), completes).1, used := ok)];
    }

    /** The scheduler's two ways to add an entry. */
    method AddPeriodic(task: S.TaskRef, period: nat, clock: nat) returns (ok: bool)
      requires Valid()
      modifies scheduler, scheduler.tasks
      ensures Valid() && (System(), ok) == M.AddEntry(old(System()), task, period, clock, true)
    {
      hide S.Compact, WellFormed;
      S.CompactKeeps(scheduler.Entries());
      ok := scheduler.AddPeriodic(task, period, clock);
      assert Slots() == old(Slots());
      assert S.Compact(old(scheduler.Entries())) + [] == S.Compact(old(scheduler.Entries()));
    }

    method AddOneShot(task: S.TaskRef, due: nat) returns (ok: bool)
      requires Valid()
      modifies scheduler, scheduler.tasks
      ensures Valid() && (System(), ok) == M.AddEntry(old(System()), task, 0, due, false)
    {
      hide S.Compact, WellFormed;
      S.CompactKeeps(scheduler.Entries());
      ok := scheduler.AddOneShot(task, due);
      assert Slots() == old(Slots());
      assert S.Compact(old(scheduler.Entries())) + [] == S.Compact(old(scheduler.Entries()));
    }

    method Unschedule(task: S.TaskRef) returns (removed: bool)
      requires Valid()
      modifies this`log, scheduler, scheduler.tasks
      ensures Valid() && (System(), removed) == M.RemoveEntries(old(System()), task)
    {
      removed := scheduler.Remove(task);
      log := log + [M.Unscheduled(task)];
      assert Slots() == old(Slots());
    }

    method OnRepeat(period: nat, clock: nat) returns (h: Option<Handle>)
      requires Valid()
      modifies this, scheduler, scheduler.tasks, callbackTasks, callbackGenerations, callbackUsed
      ensures Valid() && (System(), h) == M.OnRepeat(old(System()), period, clock)
    {
      h := AllocateCallback(false);
      if h.None? {
        return;
      }
      var ok := AddPeriodic(S.Slot(h.value.slot), period, clock);
      if !ok {
        ReleaseUnregistered(h.value);
        return None;
      }
    }

    method OnDelay(delay: nat, clock: nat) returns (h: Option<Handle>)
      requires Valid()
      modifies this, scheduler, scheduler.tasks, callbackTasks, callbackGenerations, callbackUsed
      ensures Valid() && (System(), h) == M.OnDelay(old(System()), delay, clock)
    {
      h := AllocateCallback(true);
      if h.None? {
        return;
      }
      var due := if delay > M.MAX64 - clock then M.MAX64 else clock + delay;
      var ok := AddOneShot(S.Slot(h.value.slot), due);
      if !ok {
        ReleaseUnregistered(h.value);
        return None;
      }
    }

    method Remove(h: Handle) returns (ok: bool)
      requires Valid()
      modifies this, scheduler, scheduler.tasks, callbackTasks, callbackGenerations, callbackUsed
      ensures Valid() && (System(), ok) == M.RemoveHandle(old(System()), h)
    {
      ok := IsValid(h);
      if !ok {
        return;
      }
      ok := Unschedule(S.Slot(h.slot));
      if !ok {
        return;
      }
      ReleaseRegistered(h);
    }

    /** Any one operation, from the application or from inside a callback. */
    method Exec(op: M.Op)
      requires Valid()
      modifies this, scheduler, scheduler.tasks, callbackTasks, callbackGenerations, callbackUsed
      ensures Valid() && System() == M.Exec(old(System()), op)
    {
      match op
      case Repeat(period, clock) => var _ := OnRepeat(period, clock);
      case Delay(delay, clock) => var _ := OnDelay(delay, clock);
      case Remove(h) => var _ := Remove(h);
      case Enable(h) => var _ := Enable(h, true);
      case Disable(h) => var _ := Enable(h, false);
      case AddPeriodic(name, period, clock) => var _ := AddPeriodic(S.Foreign(name), period, clock);
      case AddOneShot(name, due) => var _ := AddOneShot(S.Foreign(name), due);
      case RemoveTask(name) => var _ := Unschedule(S.Foreign(name));
    }

    /** The body of a callback. */
    method Invoke(script: seq<M.Op>)
      requires Valid()
      modifies this, scheduler, scheduler.tasks, callbackTasks, callbackGenerations, callbackUsed
      ensures Valid() && System() == M.ExecAll(old(System()), script)
    {
      hide M.Exec;
      for i := 0 to |script|
        invariant Valid() && System() == M.ExecAll(old(System()), script[..i])
      {
        assert script[..i + 1][..i] == script[..i];
        Exec(script[i]);
      }
      assert script[..|script|] == script;
    }

    /** `poll` of the task an entry points to. */
    method Poll(task: S.TaskRef, script: seq<M.Op>)
      requires Valid() && M.SlotsOk(System(), None)
      modifies this, scheduler, scheduler.tasks, callbackTasks, callbackGenerations, callbackUsed
      ensures Valid() && System() == M.PollTask(old(System()), task, script)
    {
      match task
      case Foreign(_) => Invoke(script);
      case Slot(k) =>
        if k < maxCallbacks {
          if callbackTasks[k].active && callbackTasks[k].enabled && callbackTasks[k].stored.Some? {
            PollSlot(k, script);
          }
        }
    }

    /** A callback slot's poll: the callable runs, completes its registration if it is a one-shot, and its
        storage is freed if that was asked for meanwhile. */
    method PollSlot(k: nat, script: seq<M.Op>)
      requires Valid() && M.SlotsOk(System(), None) && k < maxCallbacks && Runs(callbackTasks[k].State())
      modifies this, scheduler, scheduler.tasks, callbackTasks, callbackGenerations, callbackUsed
      ensures Valid() && System() == M.PollTask(old(System()), S.Slot(k), script)
    {
      hide WellFormed, M.Exec, Leave, DestroyNow;
      ghost var s := System();
      var c := callbackTasks[k].stored.value;
      assert !s.slots[k].task.invoking;
      BeginSlot(k);
      ghost var entered := System();
      Invoke(script);
      M.ScriptKeepsCallable(entered, script, k);
      ghost var after := System();
      if c.completes.Some? {
        ReleaseRegistered(c.completes.value);
      }
      assert callbackTasks[k].State() == System().slots[k].task;
      FinishSlot(k, c.id);
    }

    method BeginSlot(k: nat)
      requires Valid() && k < maxCallbacks && Runs(callbackTasks[k].State()) && !callbackTasks[k].invoking
      modifies callbackTasks
      ensures Valid() && System() == M.WithTask(old(System()), k, Enter(old(callbackTasks[k].State())))
    {
      callbackTasks[k].BeginPoll();
      assert Slots() == old(Slots())[k := old(SlotAt(k)).(task := Enter(old(callbackTasks[k].State())))];
    }

    method FinishSlot(k: nat, id: nat)
      requires Valid() && k < maxCallbacks && callbackTasks[k].invoking && callbackTasks[k].stored.value.id == id
      modifies callbackTasks
      ensures Valid() && System() == M.WithTask(old(System()), k, Leave(old(callbackTasks[k].State()), id))
    {
      LeaveWellFormed(callbackTasks[k].State());
      callbackTasks[k].FinishPoll(id);
      assert Slots() == old(Slots())[k := old(SlotAt(k)).(task := Leave(old(callbackTasks[k].State()), id))];
    }

    /** One round of run_once: the check, the poll, and the bookkeeping on whatever is at the index by then. */
    method Turn(i: nat, now: nat, script: seq<M.Op>)
      requires Valid() && M.SlotsOk(System(), None) && i < scheduler.taskCount
      requires M.TurnIn64(System(), i, now, script)
      modifies this, scheduler, scheduler.tasks, callbackTasks, callbackGenerations, callbackUsed
      ensures Valid() && System() == M.Turn(old(System()), i, now, script)
    {
      var e := scheduler.tasks[i];
      assert scheduler.Entries()[i] == e;
      if !e.active || e.task.None? || now < e.nextDue {
        return;
      }
      ghost var s := System();
      log := log + [M.Polled(e.id)];
      assert System() == M.Begun(s, i) by { assert Slots() == old(Slots()); }
      M.SameSlotsOk(s, System(), None);
      Poll(e.task.value, script);
      Settle(i, now);
    }

    method Settle(i: nat, now: nat)
      requires Valid() && i < maxCallbacks && S.SettlesIn64(System().entries, i, now)
      modifies scheduler.tasks
      ensures Valid() && System() == M.Settled(old(System()), i, now)
    {
      scheduler.Settle(i, now);
      assert Slots() == old(Slots());
    }

    method CompactAll(running: bool)
      requires Valid()
      modifies scheduler, scheduler.tasks
      ensures Valid() && System() == old(System()).(entries := S.Compact(old(System()).entries), running := running)
    {
      scheduler.CompactInactive();
      scheduler.running := running;
      assert Slots() == old(Slots());
    }

    /** `tick` and `run_once`: one pass at the time `now` of the clock. The callback polled at index i performs
        scripts(i); it does not call tick itself. Where a deadline would reach 2^64 the loop that sets it goes
        wrong or round for ever, and there is no such pass. */
    method RunOnce(now: nat, scripts: nat -> seq<M.Op>)
      requires Valid() && M.SlotsOk(System(), None) && M.TurnsIn64(M.BeginPass(System()), now, scripts)
      modifies this, scheduler, scheduler.tasks, callbackTasks, callbackGenerations, callbackUsed
      ensures Valid() && M.SlotsOk(System(), None)
      ensures System() == M.Pass(old(System()), now, scripts)
    {
      hide M.SlotsOk, M.TurnsIn64, M.Turns;
      CompactAll(true);
      M.SameSlotsOk(old(System()), System(), None);
      Rounds(now, scripts);
      ghost var s := System();
      CompactAll(false);
      M.SameSlotsOk(s, System(), None);
    }

    /** The loop of run_once. */
    method Rounds(now: nat, scripts: nat -> seq<M.Op>)
      requires Valid() && M.SlotsOk(System(), None) && M.TurnsIn64(System(), now, scripts)
      modifies this, scheduler, scheduler.tasks, callbackTasks, callbackGenerations, callbackUsed
      ensures Valid() && M.SlotsOk(System(), None)
      ensures System() == M.Turns(old(System()), maxCallbacks, now, scripts)
    {
      hide M.Turn, M.Turns, M.SlotsOk, M.TurnIn64;
      M.TurnsNext(System(), 0, now, scripts);
      ghost var start := System();
      var i := 0;
      while i < scheduler.taskCount
        invariant Valid() && M.SlotsOk(System(), None) && i <= maxCallbacks
        invariant System() == M.Turns(start, i, now, scripts)
        decreases maxCallbacks - i
      {
        R.TurnSlotsOk(System(), i, now, scripts(i));
        M.TurnsNext(start, i, now, scripts);
        Turn(i, now, scripts(i));
        i := i + 1;
      }
      M.TurnsDone(start, i, maxCallbacks, now, scripts);
    }
  }
}
