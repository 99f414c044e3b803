/** Deadline arithmetic of the cooperative scheduler, of PeriodicTimer and of the libevent backend. */
module Deadlines {
  import opened Arithmetic

  /** Times are 64-bit unsigned microseconds. */
  const WRAP64: nat := 0x1_0000_0000_0000_0000

  // ---- catching up: scheduler and PeriodicTimer --------------------------------------------

  /** What the do-while loop leaves in next_due: whole periods are added until it is in the future. */
  function CatchUp(due: nat, period: nat, now: nat): (next: nat)
    requires period > 0
    ensures next > now && next >= due + period
    decreases if due + period <= now then now - due else 0
  {
    if due + period > now then due + period else CatchUp(due + period, period, now)
  }

  /** A deadline on the way from `due` to its catch-up value, or that value. */
  predicate Reaches(due: nat, period: nat, now: nat, next: nat)
    requires period > 0
  {
    if next > now then next == CatchUp(due, period, now) else CatchUp(next, period, now) == CatchUp(due, period, now)
  }

  lemma CatchUpStep(due: nat, period: nat, now: nat)
    requires period > 0
    ensures Reaches(due, period, now, due + period) && due + period <= CatchUp(due, period, now)
  {
  }

  /** It is on the grid, and it is the first point of the grid after now. */
  lemma {:induction false} CatchUpLeast(due: nat, period: nat, now: nat) returns (k: nat)
    requires period > 0 && due <= now
    ensures k >= 1 && CatchUp(due, period, now) == due + k * period
    ensures due + (k - 1) * period <= now < due + k * period
    decreases now - due
  {
    if due + period > now {
      k := 1;
    } else {
      var j := CatchUpLeast(due + period, period, now);
      k := j + 1;
      assert k * period == j * period + period && (k - 1) * period == (j - 1) * period + period;
    }
  }

  /** From a deadline that has been reached it goes no further than one period past now. */
  lemma {:induction false} CatchUpBound(due: nat, period: nat, now: nat)
    requires period > 0 && due <= now
    ensures CatchUp(due, period, now) <= now + period
  {
    var k := CatchUpLeast(due, period, now);
    assert k * period == (k - 1) * period + period;
  }

  /** The loop itself, in 64-bit arithmetic. */
  method AdvanceDue(due: nat, period: nat, now: nat) returns (next: nat)
    requires 0 < period && CatchUp(due, period, now) < WRAP64
    ensures next == CatchUp(due, period, now)
  {
    hide CatchUp;
    CatchUpStep(due, period, now);
    next := (due + period) % WRAP64;
    while now >= next
      invariant Reaches(due, period, now, next)
      decreases now - next
    {
      CatchUpStep(next, period, now);
      next := (next + period) % WRAP64;
    }
  }

  /** What n rounds of that loop make of the deadline. */
  function Rounds(due: nat, period: nat, n: nat): nat {
    (due + n * period) % WRAP64
  }

  /** The loop ends with `next`: the first of these values behind now. */
  ghost predicate EndsWith(due: nat, period: nat, now: nat, next: nat) {
    exists n :: n >= 1 && Rounds(due, period, n) == next && next > now
                && forall m :: 1 <= m < n ==> Rounds(due, period, m) <= now
  }

  /** It ends with the deadline it is for exactly when that is a 64-bit number. */
  lemma {:induction false} CatchUpFits(due: nat, period: nat, now: nat)
    requires period > 0
    ensures EndsWith(due, period, now, CatchUp(due, period, now)) <==> CatchUp(due, period, now) < WRAP64
  {
    var next := CatchUp(due, period, now);
    if next < WRAP64 {
      var n := 1;
      if due <= now {
        n := CatchUpLeast(due, period, now);
      }
      hide CatchUp;
      NoWrap(due, period, n);
      forall m | 1 <= m < n ensures Rounds(due, period, m) <= now {
        FewerRounds(m, n - 1, period);
        NoWrap(due, period, m);
      }
      hide Rounds;
    }
  }

  lemma FewerRounds(m: nat, n: nat, period: nat)
    requires m <= n
    ensures m * period <= n * period
  {
    assert (n - m) * period >= 0;
  }

  lemma NoWrap(due: nat, period: nat, n: nat)
    requires due + n * period < WRAP64
    ensures Rounds(due, period, n) == due + n * period
  {
  }

  /** And it ends at all exactly when now is below the last 64-bit number that differs from the deadline by a
      multiple of the greatest common divisor of the period and 2^64; otherwise it goes round for ever. */
  lemma {:induction false} CatchUpEndsExactly(due: nat, period: nat, now: nat)
    requires period > 0
    ensures var g := Gcd(period, WRAP64);
            g > 0 && ((exists n :: n >= 1 && Rounds(due, period, n) > now) <==> now < WRAP64 - g + due % g)
  {
    var g := Gcd(period, WRAP64);
    var n := StepsReach(due, period, WRAP64);
    assert Rounds(due, period, n) == WRAP64 - g + due % g;
    forall m: nat ensures Rounds(due, period, m) <= WRAP64 - g + due % g {
      StepsStayBelow(due, period, WRAP64, m);
    }
  }

  /** With a period of 2^63 it already goes round for ever between two past values. */
  lemma CatchUpCanSpin(n: nat)
    requires n >= 1
    ensures Rounds(0, WRAP64 / 2, n) <= WRAP64 / 2
  {
    assert Gcd(WRAP64 / 2, WRAP64) == Gcd(WRAP64, WRAP64 / 2) == Gcd(WRAP64 / 2, 0);
    CatchUpEndsExactly(0, WRAP64 / 2, WRAP64 / 2);
  }

  /** One visit to an entry: does it fire, and what is its deadline afterwards. */
  function Visit(due: nat, period: nat, now: nat): (bool, nat)
    requires period > 0
  {
    if now < due then (false, due) else (true, CatchUp(due, period, now))
  }

  /** What visits at the given times add up to: how often it fired, when last, and the deadline. */
  datatype History = History(due: nat, fires: nat, last: nat)

  function Visits(period: nat, h: History, times: seq<nat>): History
    requires period > 0
    decreases |times|
  {
    if times == [] then h
    else
      var (fired, due) := Visit(h.due, period, times[0]);
      Visits(period, if fired then History(due, h.fires + 1, times[0]) else h, times[1..])
  }

  /** On the grid that starts at t0: `due` is its k-th point, the first one after the last firing, and
      there were at most k firings. */
  predicate OnGrid(t0: nat, period: nat, h: History, k: nat) {
    && h.due == t0 + k * period && h.fires <= k
    && (h.fires == 0 ==> k == 0)
    && (h.fires > 0 ==> k >= 1 && t0 + (k - 1) * period <= h.last < h.due)
  }

  lemma {:induction false} VisitOnGrid(t0: nat, period: nat, h: History, k: nat, now: nat) returns (k': nat)
    requires period > 0 && OnGrid(t0, period, h, k) && h.due <= now
    ensures OnGrid(t0, period, History(CatchUp(h.due, period, now), h.fires + 1, now), k')
  {
    var j := CatchUpLeast(h.due, period, now);
    k' := k + j;
    hide CatchUp;
    PlusTimes(k, j, period);
    PlusTimes(k, j - 1, period);
  }

  /** After visits at any times a periodic entry's deadline is t0 + k * period, the least such value
      above the time it last fired: it does not drift. */
  lemma {:induction false} NoDrift(t0: nat, period: nat, h: History, k: nat, times: seq<nat>) returns (k': nat)
    requires period > 0 && OnGrid(t0, period, h, k)
    ensures OnGrid(t0, period, Visits(period, h, times), k')
    decreases |times|
  {
    if times == [] {
      k' := k;
    } else if times[0] < h.due {
      k' := NoDrift(t0, period, h, k, times[1..]);
    } else {
      var j := VisitOnGrid(t0, period, h, k, times[0]);
      k' := NoDrift(t0, period, History(CatchUp(h.due, period, times[0]), h.fires + 1, times[0]), j, times[1..]);
    }
  }

  lemma {:induction false} LastIsATime(period: nat, h: History, times: seq<nat>, limit: nat)
    requires period > 0 && h.last <= limit && forall i :: 0 <= i < |times| ==> times[i] <= limit
    ensures Visits(period, h, times).last <= limit
    decreases |times|
  {
    if times != [] {
      var (fired, due) := Visit(h.due, period, times[0]);
      LastIsATime(period, if fired then History(due, h.fires + 1, times[0]) else h, times[1..], limit);
    }
  }

  /** An entry registered at t0 fires at most floor((T - t0) / period) + 1 times up to T. */
  lemma {:induction false} FiringBound(t0: nat, period: nat, times: seq<nat>, limit: nat)
    requires period > 0 && t0 <= limit && forall i :: 0 <= i < |times| ==> times[i] <= limit
    ensures Visits(period, History(t0, 0, 0), times).fires <= (limit - t0) / period + 1
  {
    var h := Visits(period, History(t0, 0, 0), times);
    var k := NoDrift(t0, period, History(t0, 0, 0), 0, times);
    LastIsATime(period, History(t0, 0, 0), times, limit);
    if h.fires > 0 {
      var d := limit - t0;
      assert (k - 1) * period <= d;
      AtMostQuotient(k - 1, d, period);
    }
  }

  // ---- PeriodicTimer -----------------------------------------------------------------------

  datatype Timer = Timer(period: nat, nextDue: nat, armed: bool)

  function Ready(t: Timer, now: nat): (bool, Timer) {
    var t' := if t.armed then t else t.(nextDue := now, armed := true);
    if t'.period == 0 || now < t'.nextDue then (false, t')
    else (true, t'.(nextDue := CatchUp(t'.nextDue, t'.period, now)))
  }

  /** How often the timer is ready, asked at the given times, and when last. */
  function Asked(t: Timer, fires: nat, last: nat, times: seq<nat>): History
    decreases |times|
  {
    if times == [] then History(t.nextDue, fires, last)
    else
      var (ready, t') := Ready(t, times[0]);
      if ready then Asked(t', fires + 1, times[0], times[1..]) else Asked(t', fires, last, times[1..])
  }

  /** A timer reset at t0 and a scheduler entry registered at t0 fire at the same times. */
  lemma {:induction false} TimerMatchesEntry(t: Timer, fires: nat, last: nat, times: seq<nat>)
    requires t.armed && t.period > 0
    ensures Asked(t, fires, last, times) == Visits(t.period, History(t.nextDue, fires, last), times)
    decreases |times|
  {
    if times != [] {
      var (ready, t') := Ready(t, times[0]);
      if ready {
        TimerMatchesEntry(t', fires + 1, times[0], times[1..]);
      } else {
        TimerMatchesEntry(t', fires, last, times[1..]);
      }
    }
  }

  class PeriodicTimer {
    var periodUs: nat
    var nextDueUs: nat
    var armed: bool

    ghost function State(): Timer
      reads this
    {
      Timer(periodUs, nextDueUs, armed)
    }

    constructor (periodUs: nat)
      ensures State() == Timer(periodUs, 0, false)
    {
      this.periodUs, nextDueUs, armed := periodUs, 0, false;
    }

    method Reset(nowUs: nat)
      modifies this
      ensures State() == old(State()).(nextDue := nowUs, armed := true)
    {
      nextDueUs := nowUs;
      armed := true;
    }

    method IsReady(nowUs: nat) returns (ready: bool)
      requires Ready(State(), nowUs).0 ==> Ready(State(), nowUs).1.nextDue < WRAP64
      modifies this
      ensures (ready, State()) == Ready(old(State()), nowUs)
    {
      if !armed {
        Reset(nowUs);
      }
      if periodUs == 0 || nowUs < nextDueUs {
        return false;
      }
      nextDueUs := AdvanceDue(nextDueUs, periodUs, nowUs);
      return true;
    }
  }

  // ---- the libevent backend ----------------------------------------------------------------

  function Max(a: nat, b: nat): nat {
    if a >= b then a else b
  }

  /** `periodic_timer_next_delay_us`: the new deadline, and the delay to arm the event with. */
  method PeriodicTimerNextDelay(nextDue: nat, period: nat, now: nat) returns (nextDue': nat, delay: nat)
    ensures nextDue' == (nextDue + period) % WRAP64 && delay == NextDelay(nextDue, period, now)
  {
    var overdue := if now > nextDue then now - nextDue else 0;
    nextDue' := (nextDue + period) % WRAP64;
    delay := if period > overdue then period - overdue else 0;
  }

  function NextDelay(nextDue: nat, period: nat, now: nat): nat {
    var overdue := if now > nextDue then now - nextDue else 0;
    if period > overdue then period - overdue else 0
  }

  /** The event is re-armed for the later of now and the next deadline exactly when the callback was not
      early; an early callback makes the next one early too. */
  lemma RearmExact(nextDue: nat, period: nat, now: nat)
    requires period > 0
    ensures now + NextDelay(nextDue, period, now) == Max(now, nextDue + period) <==> now >= nextDue
  {
  }

  /** A registered periodic event: its deadline, and the time libevent was asked to fire it. */
  datatype Armed = Armed(nextDue: nat, at: nat)

  /** A callback: when it fired, and the clock read after the task returned. */
  datatype Firing = Firing(fired: nat, read: nat)

  function AfterFiring(period: nat, a: Armed, f: Firing): Armed {
    Armed(a.nextDue + period, f.read + NextDelay(a.nextDue, period, f.read))
  }

  /** Timers never fire early, and the clock does not go backwards. */
  predicate NeverEarly(period: nat, a: Armed, firings: seq<Firing>)
    decreases |firings|
  {
    firings == [] ||
    (a.at <= firings[0].fired <= firings[0].read && NeverEarly(period, AfterFiring(period, a, firings[0]), firings[1..]))
  }

  function Fired(period: nat, a: Armed, firings: seq<Firing>): Armed
    decreases |firings|
  {
    if firings == [] then a else Fired(period, AfterFiring(period, a, firings[0]), firings[1..])
  }

  /** However late callbacks run, after n of them the deadline is exactly n periods on, the next callback
      is armed for the later of the clock and that deadline, and none came before its own deadline: missed
      periods are replayed, not skipped. */
  lemma {:induction false} LibeventNoDrift(period: nat, a: Armed, firings: seq<Firing>)
    requires period > 0 && a.nextDue <= a.at && NeverEarly(period, a, firings)
    ensures Fired(period, a, firings).nextDue == a.nextDue + |firings| * period
    ensures firings != [] ==> Fired(period, a, firings).at
                              == Max(firings[|firings| - 1].read, Fired(period, a, firings).nextDue)
    ensures forall i :: 0 <= i < |firings| ==> firings[i].fired >= a.nextDue + i * period
    decreases |firings|
  {
    if firings != [] {
      var a' := AfterFiring(period, a, firings[0]);
      RearmExact(a.nextDue, period, firings[0].read);
      LibeventNoDrift(period, a', firings[1..]);
      NextMultiple(|firings[1..]|, period);
      forall i | 0 <= i < |firings|
        ensures firings[i].fired >= a.nextDue + i * period
      {
        if i > 0 {
          assert firings[i] == firings[1..][i - 1];
          NextMultiple(i - 1, period);
        }
      }
    }
  }

  /** A TimerEvent of the libevent backend; `armedAt` is when libevent was asked to fire it. */
  class TimerEvent {
    const periodUs: nat
    var nextDueUs: nat
    var armedAt: nat

    ghost function State(): Armed
      reads this
    {
      Armed(nextDueUs, armedAt)
    }

    /** `add_periodic`: the deadline is one period after the clock, and libevent, whose clock is not behind,
        is asked to wait one period. */
    constructor (periodUs: nat, clock: nat, libeventNow: nat)
      requires 0 < periodUs && clock <= libeventNow
      ensures this.periodUs == periodUs && nextDueUs == (clock + periodUs) % WRAP64 && nextDueUs <= armedAt
    {
      this.periodUs := periodUs;
      nextDueUs := (clock + periodUs) % WRAP64;
      armedAt := libeventNow + periodUs;
    }

    /** The end of `timer_callback`, after the task was polled and the clock read again. */
    method Rearm(f: Firing)
      modifies this
      ensures var a := AfterFiring(periodUs, old(State()), f);
              State() == a.(nextDue := a.nextDue % WRAP64)
    {
      var delay;
      nextDueUs, delay := PeriodicTimerNextDelay(nextDueUs, periodUs, f.read);
      armedAt := f.read + delay;
    }
  }
}
