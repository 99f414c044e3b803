/** src/async_event_loop/tcp.hpp: TcpBackpressureMonitor. */
module Backpressure {
  import opened Bytes

  const MAX32: nat := WRAP32 - 1

  datatype Options = Options(enabled: bool, highWater: nat, lowWater: nat, maxOverHighPolls: nat, closeOnLimit: bool)

  /** Number of over-high checks that triggers a report. */
  function Trigger(o: Options): (t: nat)
    ensures t >= 1
  {
    if o.maxOverHighPolls == 0 then 1 else o.maxOverHighPolls
  }

  datatype Monitor = Monitor(overHighPolls: nat, reported: bool)

  const FRESH := Monitor(0, false)

  /** One check of a valid connection with `pending` bytes queued, the monitor enabled. */
  function Check(o: Options, m: Monitor, pending: nat): (bool, Monitor) {
    var m' := if pending > o.highWater then m.(overHighPolls := Min(m.overHighPolls + 1, MAX32))
              else if pending <= o.lowWater then FRESH
              else m;
    if m'.overHighPolls >= Trigger(o) && !m'.reported then (true, m'.(reported := true)) else (false, m')
  }

  function Checks(o: Options, history: seq<nat>): Monitor {
    if history == [] then FRESH
    else Check(o, Checks(o, history[..|history| - 1]), history[|history| - 1]).1
  }

  predicate OverHigh(o: Options, pending: nat) {
    pending > o.highWater
  }

  predicate LowWater(o: Options, pending: nat) {
    !OverHigh(o, pending) && pending <= o.lowWater
  }

  /** Over-high checks since the last low-water check, counted without a limit. */
  function OverHighCount(o: Options, history: seq<nat>): nat {
    if history == [] then 0
    else
      var last := history[|history| - 1];
      var before := OverHighCount(o, history[..|history| - 1]);
      if OverHigh(o, last) then before + 1 else if LowWater(o, last) then 0 else before
  }

  /** The saturating counter and the flag are functions of the true count. */
  lemma {:induction false} MonitorMeans(o: Options, history: seq<nat>)
    requires o.maxOverHighPolls <= MAX32
    ensures var n := OverHighCount(o, history);
            Checks(o, history) == Monitor(Min(n, MAX32), n >= Trigger(o))
  {
    if history != [] {
      MonitorMeans(o, history[..|history| - 1]);
    }
  }

  /** A report is made exactly by the over-high check that brings the count to the trigger. */
  lemma {:induction false} ReportsExactly(o: Options, history: seq<nat>, pending: nat)
    requires o.maxOverHighPolls <= MAX32
    ensures Check(o, Checks(o, history), pending).0
            <==> OverHigh(o, pending) && OverHighCount(o, history) + 1 == Trigger(o)
  {
    MonitorMeans(o, history);
  }

  /** Between two reports there is a low-water check. */
  lemma {:induction false} ReportsAreSeparated(o: Options, first: seq<nat>, p: nat, between: seq<nat>, q: nat)
    requires o.maxOverHighPolls <= MAX32
    requires Check(o, Checks(o, first), p).0
    requires Check(o, Checks(o, first + [p] + between), q).0
    ensures exists i :: 0 <= i < |between| && LowWater(o, between[i])
  {
    ReportsExactly(o, first, p);
    ReportsExactly(o, first + [p] + between, q);
    assert (first + [p])[..|first|] == first;
    if forall i :: 0 <= i < |between| ==> !LowWater(o, between[i]) {
      CountGrows(o, first + [p], between);
    }
  }

  lemma {:induction false} CountGrows(o: Options, start: seq<nat>, more: seq<nat>)
    requires forall i :: 0 <= i < |more| ==> !LowWater(o, more[i])
    ensures OverHighCount(o, start + more) >= OverHighCount(o, start)
  {
    if more == [] {
      assert start + more == start;
    } else {
      var n := |more| - 1;
      CountGrows(o, start, more[..n]);
      assert (start + more)[..|start + more| - 1] == start + more[..n];
    }
  }

  /** A connection, as far as the monitor looks at it. */
  datatype Observed = Observed(valid: bool, pending: nat)

  class TcpBackpressureMonitor {
    var options: Options
    var overHighPolls: nat
    var reported: bool

    ghost function State(): Monitor
      reads this
    {
      Monitor(overHighPolls, reported)
    }

    constructor (options: Options)
      ensures this.options == options && State() == FRESH
    {
      this.options := options;
      overHighPolls, reported := 0, false;
    }

    method Configure(options: Options)
      modifies this
      ensures this.options == options && State() == FRESH
    {
      this.options := options;
      Reset();
    }

    method Reset()
      modifies this`overHighPolls, this`reported
      ensures State() == FRESH
    {
      overHighPolls := 0;
      reported := false;
    }

    method CheckConnection(c: Observed) returns (report: bool)
      requires overHighPolls <= MAX32
      modifies this`overHighPolls, this`reported
      ensures overHighPolls <= MAX32
      ensures options.enabled && c.valid ==> (report, State()) == Check(options, old(State()), c.pending)
      ensures !options.enabled || !c.valid ==> !report && State() == old(State())
    {
      if !options.enabled || !c.valid {
        return false;
      }
      if c.pending > options.highWater {
        if overHighPolls < MAX32 {
          overHighPolls := overHighPolls + 1;
        }
      } else if c.pending <= options.lowWater {
        overHighPolls := 0;
        reported := false;
      }
      var triggerPolls := if options.maxOverHighPolls == 0 then 1 else options.maxOverHighPolls;
      if overHighPolls >= triggerPolls && !reported {
        reported := true;
        return true;
      }
      return false;
    }
  }
}
