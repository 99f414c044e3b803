/** src/async_event_loop/scheduler.hpp: CallbackTask, the storage of one callable, with deferred destruction. */
module CallbackTasks {
  import opened Bytes

  /** Names a callback slot of an event loop. */
  datatype Handle = Handle(slot: nat, generation: nat)

  /** A stored callable. One made by on_delay completes its own registration when it returns. */
  datatype Callable = Callable(id: nat, completes: Option<Handle>)

  /** What happens to the callables of one task; the `id`s count the constructions. */
  datatype Event =
    | Constructed(id: nat, oneShot: bool)
    | Entered(id: nat)
    | Left(id: nat)
    | Destroyed(id: nat)

  /** `stored` stands for the storage and the two function pointers; `history` is bookkeeping of the model. */
  datatype Task = Task(
    stored: Option<Callable>,
    active: bool,
    enabled: bool,
    invoking: bool,
    clearRequested: bool,
    history: seq<Event>)

  const VACATED := Task(None, false, false, false, false, [])

  function DestroyNow(t: Task): Task {
    var history := if (t.active || t.clearRequested) && t.stored.Some? then t.history + [Destroyed(t.stored.value.id)] else t.history;
    t.(stored := None, active := false, enabled := false, clearRequested := false, history := history)
  }

  function Clear(t: Task): Task {
    if t.invoking then t.(active := false, enabled := false, clearRequested := true) else DestroyNow(t)
  }

  /** The number of callables this task has held so far, which is the next one's id. */
  function Made(history: seq<Event>): nat {
    if history == [] then 0
    else Made(history[..|history| - 1]) + if history[|history| - 1].Constructed? then 1 else 0
  }

  function Set(t: Task, completes: Option<Handle>): (bool, Task) {
    var t' := Clear(t);
    if t.invoking then (false, t')
    else
      var id := Made(t'.history);
      (true, t'.(stored := Some(Callable(id, completes)), active := true, enabled := true, clearRequested := false,
                 history := t'.history + [Constructed(id, completes.Some?)]))
  }

  function SetEnabled(t: Task, enabled: bool): Task {
    if t.active then t.(enabled := enabled) else t
  }

  predicate Runs(t: Task) {
    t.active && t.enabled && t.stored.Some?
  }

  /** The two ends of an invocation; what happens between them is the callable's business. */
  function Enter(t: Task): Task
    requires Runs(t)
  {
    t.(invoking := true, history := t.history + [Entered(t.stored.value.id)])
  }

  function Leave(t: Task, id: nat): Task {
    var t' := t.(invoking := false, history := t.history + [Left(id)]);
    if t'.clearRequested then DestroyNow(t') else t'
  }

  // ---- the life of a callable --------------------------------------------------------------

  datatype Stage = Vacant | Resting | Executing

  /** How many callables there were, and what the last of them is doing. */
  datatype Life = Life(made: nat, stage: Stage)

  /** The only legal life: constructed once, entered and left alternately, destroyed once while at rest,
      and nothing afterwards. None means the history broke a rule. */
  function LifeStep(l: Life, e: Event): Option<Life> {
    match e
    case Constructed(id, _) => if l.stage.Vacant? && id == l.made then Some(Life(l.made + 1, Resting)) else None
    case Entered(id) => if l.stage.Resting? && id + 1 == l.made then Some(Life(l.made, Executing)) else None
    case Left(id) => if l.stage.Executing? && id + 1 == l.made then Some(Life(l.made, Resting)) else None
    case Destroyed(id) => if l.stage.Resting? && id + 1 == l.made then Some(Life(l.made, Vacant)) else None
  }

  function LifeOf(history: seq<Event>): Option<Life> {
    if history == [] then Some(Life(0, Vacant))
    else match LifeOf(history[..|history| - 1])
      case None => None
      case Some(l) => LifeStep(l, history[|history| - 1])
  }

  lemma LifeSnoc(history: seq<Event>, e: Event)
    ensures LifeOf(history + [e]) == match LifeOf(history) case None => None case Some(l) => LifeStep(l, e)
    ensures Made(history + [e]) == Made(history) + if e.Constructed? then 1 else 0
  {
    assert (history + [e])[..|history|] == history;
  }

  function StageOf(t: Task): Stage {
    if t.stored.None? then Vacant else if t.invoking then Executing else Resting
  }

  /** The fields agree with each other and with a legal history. */
  predicate WellFormed(t: Task) {
    && (t.stored.Some? <==> t.active || t.clearRequested)
    && (t.clearRequested ==> t.invoking && !t.active)
    && (t.invoking ==> t.stored.Some?)
    && (t.enabled ==> t.active)
    && LifeOf(t.history) == Some(Life(Made(t.history), StageOf(t)))
    && (t.stored.Some? ==> t.stored.value.id + 1 == Made(t.history))
  }

  lemma {:induction false} ClearWellFormed(t: Task)
    requires WellFormed(t)
    ensures WellFormed(Clear(t)) && !Clear(t).active && Clear(t).invoking == t.invoking
    ensures !t.invoking ==> Clear(t).stored.None?
  {
    if t.stored.Some? {
      LifeSnoc(t.history, Destroyed(t.stored.value.id));
    }
  }

  lemma {:induction false} SetWellFormed(t: Task, completes: Option<Handle>)
    requires WellFormed(t)
    ensures WellFormed(Set(t, completes).1) && Set(t, completes).0 == !t.invoking
    ensures Set(t, completes).1.invoking == t.invoking
  {
    ClearWellFormed(t);
    var t' := Clear(t);
    LifeSnoc(t'.history, Constructed(Made(t'.history), completes.Some?));
  }

  lemma {:induction false} EnterWellFormed(t: Task)
    requires WellFormed(t) && Runs(t) && !t.invoking
    ensures WellFormed(Enter(t))
  {
    LifeSnoc(t.history, Entered(t.stored.value.id));
  }

  lemma {:induction false} LeaveWellFormed(t: Task)
    requires WellFormed(t) && t.invoking
    ensures WellFormed(Leave(t, t.stored.value.id)) && !Leave(t, t.stored.value.id).invoking
  {
    var id := t.stored.value.id;
    LifeSnoc(t.history, Left(id));
    var t' := t.(invoking := false, history := t.history + [Left(id)]);
    LifeSnoc(t'.history, Destroyed(id));
  }

  // ---- what a legal history means ----------------------------------------------------------

  function Count(history: seq<Event>, e: Event): nat {
    multiset(history)[e]
  }

  /** Nothing is said of callables not made yet, and once a later one is made nothing more of an earlier. */
  lemma {:induction false} LifeBounds(history: seq<Event>)
    requires LifeOf(history).Some?
    ensures LifeOf(history).value.made == Made(history)
    ensures forall i :: 0 <= i < |history| ==> history[i].id < Made(history)
  {
    if history != [] {
      var n := |history| - 1;
      LifeBounds(history[..n]);
      forall i | 0 <= i < |history| ensures history[i].id < Made(history) {
        if i < n { assert history[i] == history[..n][i]; }
      }
    }
  }

  /** Every prefix of a legal history is legal. */
  lemma {:induction false} LifePrefix(history: seq<Event>, k: nat)
    requires LifeOf(history).Some? && k <= |history|
    ensures LifeOf(history[..k]).Some?
  {
    if k < |history| {
      LifePrefix(history[..|history| - 1], k);
      assert history[..|history| - 1][..k] == history[..k];
    } else {
      assert history[..k] == history;
    }
  }

  /** After a callable's destruction nothing happens to it: no second destruction, and no invocation; and
      it was not executing at that moment. */
  lemma {:induction false} NothingAfterDestruction(history: seq<Event>, k: nat, j: nat)
    requires LifeOf(history).Some? && k < j < |history| && history[k].Destroyed?
    ensures history[j].id != history[k].id
    ensures LifeOf(history[..k]).Some? && LifeOf(history[..k]).value.stage == Resting
  {
    LifePrefix(history, k);
    LifePrefix(history, k + 1);
    assert history[..k + 1] == history[..k] + [history[k]];
    LifeSnoc(history[..k], history[k]);
    AfterVacant(history, k + 1, j);
  }

  /** From a vacant moment on, events concern later callables only. */
  lemma {:induction false} AfterVacant(history: seq<Event>, k: nat, j: nat)
    requires LifeOf(history).Some? && k <= j < |history|
    requires LifeOf(history[..k]).Some? && LifeOf(history[..k]).value.stage == Vacant
    ensures history[j].id >= LifeOf(history[..k]).value.made
    ensures LifeOf(history[..j]).Some?
    ensures var l := LifeOf(history[..j]).value;
            l.made >= LifeOf(history[..k]).value.made
            && (l.made == LifeOf(history[..k]).value.made ==> l.stage == Vacant)
    decreases j
  {
    LifePrefix(history, j);
    LifePrefix(history, j + 1);
    assert history[..j + 1] == history[..j] + [history[j]];
    LifeSnoc(history[..j], history[j]);
    if j > k {
      AfterVacant(history, k, j - 1);
      assert history[..j] == history[..j - 1] + [history[j - 1]];
      LifeSnoc(history[..j - 1], history[j - 1]);
    }
  }

  /** Exactly one construction each; exactly one destruction, except for the one still stored. */
  lemma {:induction false} OnceEach(history: seq<Event>, id: nat)
    requires LifeOf(history).Some? && id < Made(history)
    ensures Count(history, Constructed(id, true)) + Count(history, Constructed(id, false)) == 1
    ensures Count(history, Destroyed(id))
            == if id + 1 == Made(history) && LifeOf(history).value.stage != Vacant then 0 else 1
  {
    var n := |history| - 1;
    var before, e := history[..n], history[n];
    assert history == before + [e];
    LifeSnoc(before, e);
    LifeBounds(before);
    if id < Made(before) {
      OnceEach(before, id);
    } else {
      assert forall x :: x in before ==> x.id < Made(before);
    }
  }

  // ---- the class ---------------------------------------------------------------------------

  /** What a callable may do to its own task while it runs. */
  datatype SelfOp = OpClear | OpSet(completes: Option<Handle>) | OpSetEnabled(on: bool)

  function Apply(t: Task, op: SelfOp): Task {
    match op
    case OpClear => Clear(t)
    case OpSet(completes) => Set(t, completes).1
    case OpSetEnabled(on) => SetEnabled(t, on)
  }

  function ApplyAll(t: Task, script: seq<SelfOp>): Task {
    if script == [] then t else Apply(ApplyAll(t, script[..|script| - 1]), script[|script| - 1])
  }

  /** One poll whose callable performs `script`. */
  function Poll(t: Task, script: seq<SelfOp>): Task {
    if Runs(t) then Leave(ApplyAll(Enter(t), script), t.stored.value.id) else t
  }

  lemma {:induction false} ApplyWellFormed(t: Task, op: SelfOp)
    requires WellFormed(t)
    ensures WellFormed(Apply(t, op)) && Apply(t, op).invoking == t.invoking
    ensures t.invoking ==> Apply(t, op).stored == t.stored
  {
    match op
    case OpClear => ClearWellFormed(t);
    case OpSet(completes) => SetWellFormed(t, completes);
    case OpSetEnabled(on) =>
  }

  lemma {:induction false} ApplyAllWellFormed(t: Task, script: seq<SelfOp>)
    requires WellFormed(t)
    ensures WellFormed(ApplyAll(t, script)) && ApplyAll(t, script).invoking == t.invoking
    ensures t.invoking ==> ApplyAll(t, script).stored == t.stored
  {
    if script != [] {
      ApplyAllWellFormed(t, script[..|script| - 1]);
      ApplyWellFormed(ApplyAll(t, script[..|script| - 1]), script[|script| - 1]);
    }
  }

  /** Whatever the callable does to its own task, a poll keeps the history legal and the task at rest. */
  lemma {:induction false} PollWellFormed(t: Task, script: seq<SelfOp>)
    requires WellFormed(t) && !t.invoking
    ensures WellFormed(Poll(t, script)) && !Poll(t, script).invoking
  {
    if Runs(t) {
      EnterWellFormed(t);
      ApplyAllWellFormed(Enter(t), script);
      LeaveWellFormed(ApplyAll(Enter(t), script));
    }
  }

  class CallbackTask {
    var stored: Option<Callable>
    var active: bool
    var enabled: bool
    var invoking: bool
    var clearRequested: bool
    /** Tells the callables apart; not in the source. */
    var made: nat
    ghost var history: seq<Event>

    ghost function State(): Task
      reads this
    {
      Task(stored, active, enabled, invoking, clearRequested, history)
    }

    ghost predicate Valid()
      reads this
    {
      WellFormed(State()) && made == Made(history)
    }

    constructor ()
      ensures Valid() && State() == VACATED
    {
      stored, active, enabled, invoking, clearRequested := None, false, false, false, false;
      history, made := [], 0;
    }

    method SetCallable(completes: Option<Handle>) returns (ok: bool)
      requires Valid()
      modifies this
      ensures Valid() && (ok, State()) == Set(old(State()), completes)
    {
      SetWellFormed(State(), completes);
      ClearStored();
      if invoking {
        return false;
      }
      LifeSnoc(history, Constructed(made, completes.Some?));
      stored := Some(Callable(made, completes));
      history := history + [Constructed(made, completes.Some?)];
      made := made + 1;
      active := true;
      enabled := true;
      clearRequested := false;
      return true;
    }

    method ClearStored()
      requires Valid()
      modifies this
      ensures Valid() && State() == Clear(old(State()))
    {
      ClearWellFormed(State());
      if invoking {
        active := false;
        enabled := false;
        clearRequested := true;
        return;
      }
      DestroyStored();
    }

    method DestroyStored()
      requires made == Made(history)
      modifies this
      ensures made == Made(history) && State() == DestroyNow(old(State()))
    {
      hide LifeOf, Made;
      if (active || clearRequested) && stored.Some? {
        LifeSnoc(history, Destroyed(stored.value.id));
        history := history + [Destroyed(stored.value.id)];
      }
      active := false;
      enabled := false;
      clearRequested := false;
      stored := None;
    }

    method Enable(on: bool)
      requires Valid()
      modifies this
      ensures Valid() && State() == SetEnabled(old(State()), on)
    {
      if active {
        enabled := on;
      }
    }

    /** The body of the stored callable. */
    method Invoke(script: seq<SelfOp>)
      requires Valid()
      modifies this
      ensures Valid() && State() == ApplyAll(old(State()), script)
    {
      for i := 0 to |script|
        invariant Valid() && State() == ApplyAll(old(State()), script[..i])
      {
        assert script[..i + 1][..i] == script[..i];
        match script[i]
        case OpClear => ClearStored();
        case OpSet(completes) => var _ := SetCallable(completes);
        case OpSetEnabled(on) => Enable(on);
      }
      assert script[..|script|] == script;
    }

    /** Invokes the stored callable, which performs `script` on this task; a nested poll is not part of it. */
    method PollTask(script: seq<SelfOp>)
      requires Valid() && !invoking
      modifies this
      ensures Valid() && !invoking && State() == Poll(old(State()), script)
    {
      PollWellFormed(State(), script);
      if active && enabled && stored.Some? {
        ghost var id := stored.value.id;
        BeginPoll();
        Invoke(script);
        FinishPoll(id);
      }
    }

    /** The start of poll, before the callable is invoked. */
    method BeginPoll()
      requires Valid() && !invoking && Runs(State())
      modifies this
      ensures Valid() && State() == Enter(old(State()))
    {
      EnterWellFormed(State());
      LifeSnoc(history, Entered(stored.value.id));
      invoking := true;
      history := history + [Entered(stored.value.id)];
    }

    /** The end of poll, after the callable has returned. */
    method FinishPoll(ghost id: nat)
      requires made == Made(history)
      modifies this
      ensures made == Made(history) && State() == Leave(old(State()), id)
    {
      LifeSnoc(history, Left(id));
      hide LifeOf, Made, WellFormed;
      invoking := false;
      history := history + [Left(id)];
      if clearRequested {
        DestroyStored();
      }
    }
  }
}
