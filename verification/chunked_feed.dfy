/** Readers drain a bounded ring at arbitrary moments: only the accepted bytes matter. */
module ChunkedFeed {
  import opened Bytes

  /** What can happen to a stream with a reader behind it. */
  datatype Event = Write(data: seq<Byte>) | Poll

  /** A reader state and the bytes waiting in its stream. */
  datatype Feed<S> = Feed(reader: S, queued: seq<Byte>)

  /** The bytes of `data` that fit behind `queued`. */
  function Accept(capacity: nat, queued: seq<Byte>, data: seq<Byte>): seq<Byte>
    requires |queued| <= capacity
  {
    data[..Min(|data|, capacity - |queued|)]
  }

  function Apply<S>(step: (S, Byte) -> S, capacity: nat, f: Feed<S>, e: Event): (f': Feed<S>)
    requires |f.queued| <= capacity
    ensures |f'.queued| <= capacity
  {
    match e
    case Write(data) => f.(queued := f.queued + Accept(capacity, f.queued, data))
    case Poll => Feed(Fold(step, f.reader, f.queued), [])
  }

  function RunEvents<S>(step: (S, Byte) -> S, capacity: nat, f: Feed<S>, events: seq<Event>): (f': Feed<S>)
    requires |f.queued| <= capacity
    ensures |f'.queued| <= capacity
    decreases |events|
  {
    if events == [] then f else RunEvents(step, capacity, Apply(step, capacity, f, events[0]), events[1..])
  }

  /** All the bytes the ring takes over a run, `queued` waiting at its start. */
  function Accepted(capacity: nat, queued: seq<Byte>, events: seq<Event>): seq<Byte>
    requires |queued| <= capacity
    decreases |events|
  {
    if events == [] then []
    else match events[0]
      case Write(data) =>
        var taken := Accept(capacity, queued, data);
        taken + Accepted(capacity, queued + taken, events[1..])
      case Poll => Accepted(capacity, [], events[1..])
  }

  /** At every moment, what was read plus what waits is the fold of what was accepted. */
  lemma {:induction false} PendingFold<S>(step: (S, Byte) -> S, capacity: nat, f: Feed<S>, events: seq<Event>)
    requires |f.queued| <= capacity
    ensures var f' := RunEvents(step, capacity, f, events);
            Fold(step, f'.reader, f'.queued)
            == Fold(step, f.reader, f.queued + Accepted(capacity, f.queued, events))
    decreases |events|
  {
    if events == [] {
      assert f.queued + [] == f.queued;
    } else {
      PendingFold(step, capacity, Apply(step, capacity, f, events[0]), events[1..]);
      match events[0]
      case Write(data) =>
        var taken := Accept(capacity, f.queued, data);
        var later := Accepted(capacity, f.queued + taken, events[1..]);
        assert f.queued + (taken + later) == f.queued + taken + later;
      case Poll =>
        var later := Accepted(capacity, [], events[1..]);
        assert [] + later == later;
        FoldConcat(step, f.reader, f.queued, later);
    }
  }

  lemma {:induction false} PollEmpties<S>(step: (S, Byte) -> S, capacity: nat, f: Feed<S>, events: seq<Event>)
    requires |f.queued| <= capacity && events != [] && events[|events| - 1].Poll?
    ensures RunEvents(step, capacity, f, events).queued == []
    decreases |events|
  {
    if |events| > 1 {
      PollEmpties(step, capacity, Apply(step, capacity, f, events[0]), events[1..]);
    }
  }

  /** However writes and polls interleave, a run that ends with a poll leaves the reader where one
      uninterrupted pass over the accepted bytes leaves it, and leaves nothing queued. */
  lemma {:induction false} ChunkIndependence<S>(step: (S, Byte) -> S, capacity: nat, s: S, events: seq<Event>)
    requires events != [] && events[|events| - 1].Poll?
    ensures RunEvents(step, capacity, Feed(s, []), events)
            == Feed(Fold(step, s, Accepted(capacity, [], events)), [])
  {
    var f := Feed(s, []);
    PendingFold(step, capacity, f, events);
    PollEmpties(step, capacity, f, events);
    var all := Accepted(capacity, [], events);
    assert f.queued + all == all;
  }
}
