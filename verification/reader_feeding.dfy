/** Each reader behind a ring: how the bytes are chunked makes no difference. */
module ReaderFeeding {
  import opened Bytes
  import opened ChunkedFeed
  import opened MemoryStream
  import JsonMachine
  import JsonParse
  import JsonReader
  import LineReader
  import HeaderReader

  // ---- definitions on values ---------------------------------------------------------------

  /** JSON: writes of any sizes, polls at any moments, then the messages, counts and control state of one pass. */
  lemma {:induction false} JsonChunks(cfg: JsonMachine.Config, capacity: nat, events: seq<Event>)
    requires events != [] && events[|events| - 1].Poll?
    ensures RunEvents(JsonMachine.Stepper(cfg), capacity, Feed(JsonMachine.START, []), events)
            == Feed(JsonMachine.Run(cfg, JsonMachine.START, Accepted(capacity, [], events)), [])
  {
    ChunkIndependence(JsonMachine.Stepper(cfg), capacity, JsonMachine.START, events);
    JsonMachine.RunIsFold(cfg, JsonMachine.START, Accepted(capacity, [], events));
  }

  /** Lines: the whole-input definition applied to all the accepted bytes at once. */
  lemma {:induction false} LineChunks(o: LineReader.Options, size: nat, capacity: nat, events: seq<Event>)
    requires events != [] && events[|events| - 1].Poll?
    ensures RunEvents(LineReader.Stepper(o, size), capacity, Feed(LineReader.START, []), events)
            == Feed(LineReader.Lines(o, size, LineReader.START, Accepted(capacity, [], events)), [])
  {
    ChunkIndependence(LineReader.Stepper(o, size), capacity, LineReader.START, events);
    LineReader.RunIsLines(o, size, LineReader.START, Accepted(capacity, [], events));
  }

  /** Header and payload: the whole-input definition applied to all the accepted bytes at once. */
  lemma {:induction false} FrameChunks(o: HeaderReader.Options, capacity: nat, events: seq<Event>)
    requires o.headerSize > 0 && o.payloadSize.Some?
    requires events != [] && events[|events| - 1].Poll?
    ensures RunEvents(HeaderReader.Stepper(o), capacity, Feed(HeaderReader.START, []), events)
            == Feed(HeaderReader.Parse(o, HeaderReader.START, Accepted(capacity, [], events)), [])
  {
    ChunkIndependence(HeaderReader.Stepper(o), capacity, HeaderReader.START, events);
    HeaderReader.RunIsFold(o, HeaderReader.START, Accepted(capacity, [], events));
    HeaderReader.RunIsParse(o, HeaderReader.START, Accepted(capacity, [], events));
  }

  /** Fixed size: all the accepted bytes, cut into frames, and what is left over. */
  lemma {:induction false} FixedChunks(frameSize: nat, capacity: nat, events: seq<Event>)
    requires frameSize > 0 && events != [] && events[|events| - 1].Poll?
    ensures var f := RunEvents(HeaderReader.FixedStepper(frameSize), capacity, Feed(HeaderReader.FIXED_START, []), events);
            && f.queued == []
            && HeaderReader.Concat(f.reader.frames) + f.reader.buffer == Accepted(capacity, [], events)
            && |f.reader.buffer| < frameSize
            && forall i :: 0 <= i < |f.reader.frames| ==> |f.reader.frames[i]| == frameSize
  {
    var all := Accepted(capacity, [], events);
    ChunkIndependence(HeaderReader.FixedStepper(frameSize), capacity, HeaderReader.FIXED_START, events);
    HeaderReader.FixedRunIsFold(frameSize, HeaderReader.FIXED_START, all);
    HeaderReader.FixedCuts(frameSize, HeaderReader.FIXED_START, all);
    assert HeaderReader.Concat([]) + [] + all == all;
  }

  // ---- the objects -------------------------------------------------------------------------

  /** One event at a time: where the rest of a run leads, and how many bytes the ring still takes. */
  lemma NextEvent<S>(step: (S, Byte) -> S, capacity: nat, f: Feed<S>, events: seq<Event>, i: nat)
    requires |f.queued| <= capacity && i <= |events|
    ensures if i == |events| then
              RunEvents(step, capacity, f, events[i..]) == f && Accepted(capacity, f.queued, events[i..]) == []
            else
              var f' := Apply(step, capacity, f, events[i]);
              && RunEvents(step, capacity, f, events[i..]) == RunEvents(step, capacity, f', events[i + 1..])
              && |Accepted(capacity, f.queued, events[i..])| + |f.queued|
                 == |Accepted(capacity, f'.queued, events[i + 1..])|
                    + if events[i].Poll? then |f.queued| else |f'.queued|
  {
    if i < |events| {
      assert events[i..][0] == events[i] && events[i..][1..] == events[i + 1..];
    }
  }

  /** One write into the ring, or one poll of the JSON reader behind it. */
  method JsonEvent(reader: JsonReader.JsonProtocolReader, e: Event)
    requires reader.Valid() && reader.stream.Valid()
    modifies reader, reader.buffer, reader.stack, reader.stream, reader.stream.buffer
    ensures reader.Valid() && reader.stream.Valid()
    ensures Feed(reader.Machine(), reader.stream.Contents())
            == Apply(JsonMachine.Stepper(reader.Cfg()), reader.stream.capacity,
                     old(Feed(reader.Machine(), reader.stream.Contents())), e)
    ensures reader.bytes == old(reader.bytes) + if e.Poll? then old(|reader.stream.Contents()|) else 0
  {
    assert reader.buffer != reader.stream.buffer && reader.stack != reader.stream.buffer;
    hide Fold, JsonMachine.Run, JsonMachine.Coherent, JsonReader.JsonProtocolReader.Shaped;
    match e
    case Write(data) =>
      var n := reader.stream.Write(data);
    case Poll =>
      JsonMachine.RunIsFold(reader.Cfg(), reader.Machine(), reader.stream.Contents());
      reader.Poll();
  }

  /** A ring and a JSON reader behind it, driven by any writes and polls that end with a poll: the reader is
      where one pass over the accepted bytes takes it, has counted them all, and the ring is empty. */
  method DriveJson(capacity: nat, bufferSize: nat, skipLeadingWhitespace: bool, events: seq<Event>)
    returns (reader: JsonReader.JsonProtocolReader)
    requires 0 < capacity && 0 < bufferSize && events != [] && events[|events| - 1].Poll?
    ensures fresh(reader) && reader.Valid() && reader.stream.Valid() && reader.stream.Contents() == []
    ensures reader.Machine() == JsonMachine.Run(JsonMachine.Config(bufferSize, skipLeadingWhitespace),
                                                JsonMachine.START, Accepted(capacity, [], events))
    ensures JsonParse.Seen(reader.Machine())
            == JsonParse.JsonParse(JsonMachine.Config(bufferSize, skipLeadingWhitespace),
                                   JsonParse.Seen(JsonMachine.START), Accepted(capacity, [], events))
    ensures reader.bytes == |Accepted(capacity, [], events)|
  {
    var stream := new MemoryByteStream(capacity);
    reader := new JsonReader.JsonProtocolReader(stream, bufferSize, skipLeadingWhitespace);
    ghost var cfg := reader.Cfg();
    ghost var step := JsonMachine.Stepper(cfg);
    JsonChunks(cfg, capacity, events);
    JsonParse.RunIsJsonParse(cfg, JsonMachine.START, Accepted(capacity, [], events));
    hide JsonParse.JsonParse;
    assert events[0..] == events;
    hide RunEvents, Accepted, JsonMachine.Run, JsonReader.JsonProtocolReader.Valid, MemoryByteStream.Valid;
    for i := 0 to |events|
      invariant fresh(reader) && reader.Valid() && stream.Valid() && |stream.Contents()| <= capacity
      invariant RunEvents(step, capacity, Feed(reader.Machine(), stream.Contents()), events[i..])
                == RunEvents(step, capacity, Feed(JsonMachine.START, []), events)
      invariant reader.bytes + |stream.Contents()| + |Accepted(capacity, stream.Contents(), events[i..])|
                == |Accepted(capacity, [], events)|
    {
      NextEvent(step, capacity, Feed(reader.Machine(), stream.Contents()), events, i);
      JsonEvent(reader, events[i]);
    }
    NextEvent(step, capacity, Feed(reader.Machine(), stream.Contents()), events, |events|);
  }

  /** The same for the line reader. */
  method DriveLines(capacity: nat, bufferSize: nat, options: LineReader.Options, events: seq<Event>)
    returns (reader: LineReader.LineProtocolReader)
    requires 0 < capacity && 0 < bufferSize && events != [] && events[|events| - 1].Poll?
    ensures fresh(reader) && reader.Valid() && reader.stream.Valid() && reader.stream.Contents() == []
    ensures reader.Current() == LineReader.Lines(options, bufferSize, LineReader.START, Accepted(capacity, [], events))
    ensures reader.bytes == |Accepted(capacity, [], events)|
  {
    var stream := new MemoryByteStream(capacity);
    reader := new LineReader.LineProtocolReader(stream, options, bufferSize);
    ghost var step := LineReader.Stepper(options, bufferSize);
    LineChunks(options, bufferSize, capacity, events);
    assert events[0..] == events;
    hide RunEvents, Accepted, Fold;
    for i := 0 to |events|
      invariant fresh(reader) && reader.Valid() && stream.Valid()
      invariant RunEvents(step, capacity, Feed(reader.Current(), stream.Contents()), events[i..])
                == RunEvents(step, capacity, Feed(LineReader.START, []), events)
      invariant reader.bytes + |stream.Contents()| + |Accepted(capacity, stream.Contents(), events[i..])|
                == |Accepted(capacity, [], events)|
    {
      NextEvent(step, capacity, Feed(reader.Current(), stream.Contents()), events, i);
      match events[i]
      case Write(data) =>
        var n := stream.Write(data);
      case Poll =>
        reader.Poll();
    }
    NextEvent(step, capacity, Feed(reader.Current(), stream.Contents()), events, |events|);
  }

  /** The same for the header-and-payload reader, with usable options. */
  method DriveFrames(capacity: nat, bufferSize: nat, options: HeaderReader.Options, events: seq<Event>)
    returns (reader: HeaderReader.HeaderPayloadProtocolReader)
    requires 0 < capacity && events != [] && events[|events| - 1].Poll?
    requires HeaderReader.ValidOptions(options, bufferSize)
    ensures fresh(reader) && reader.Valid() && reader.stream.Valid() && reader.stream.Contents() == []
    ensures reader.Current() == HeaderReader.Parse(options, HeaderReader.START, Accepted(capacity, [], events))
    ensures reader.bytes == |Accepted(capacity, [], events)|
  {
    var stream := new MemoryByteStream(capacity);
    reader := new HeaderReader.HeaderPayloadProtocolReader(stream, options, bufferSize);
    ghost var step := HeaderReader.Stepper(options);
    FrameChunks(options, capacity, events);
    assert events[0..] == events;
    hide RunEvents, Accepted, Fold;
    for i := 0 to |events|
      invariant fresh(reader) && reader.Valid() && stream.Valid()
      invariant RunEvents(step, capacity, Feed(reader.Current(), stream.Contents()), events[i..])
                == RunEvents(step, capacity, Feed(HeaderReader.START, []), events)
      invariant reader.bytes + |stream.Contents()| + |Accepted(capacity, stream.Contents(), events[i..])|
                == |Accepted(capacity, [], events)|
    {
      NextEvent(step, capacity, Feed(reader.Current(), stream.Contents()), events, i);
      match events[i]
      case Write(data) =>
        var n := stream.Write(data);
      case Poll =>
        HeaderReader.RunIsFold(options, reader.Current(), stream.Contents());
        reader.Poll();
    }
    NextEvent(step, capacity, Feed(reader.Current(), stream.Contents()), events, |events|);
  }

  /** And for the fixed-size reader, with a usable size: the frames are the accepted bytes, cut. */
  method DriveFixed(capacity: nat, bufferSize: nat, frameSize: nat, events: seq<Event>)
    returns (reader: HeaderReader.FixedFrameProtocolReader)
    requires 0 < capacity && 0 < frameSize <= bufferSize && events != [] && events[|events| - 1].Poll?
    ensures fresh(reader) && reader.Valid() && reader.stream.Valid() && reader.stream.Contents() == []
    ensures var r := reader.Current();
            && HeaderReader.Concat(r.frames) + r.buffer == Accepted(capacity, [], events) && |r.buffer| < frameSize
            && forall i :: 0 <= i < |r.frames| ==> |r.frames[i]| == frameSize
    ensures reader.bytes == |Accepted(capacity, [], events)|
  {
    var stream := new MemoryByteStream(capacity);
    reader := new HeaderReader.FixedFrameProtocolReader(stream, frameSize, bufferSize);
    ghost var step := HeaderReader.FixedStepper(frameSize);
    FixedChunks(frameSize, capacity, events);
    assert events[0..] == events;
    hide RunEvents, Accepted, Fold;
    for i := 0 to |events|
      invariant fresh(reader) && reader.Valid() && stream.Valid()
      invariant RunEvents(step, capacity, Feed(reader.Current(), stream.Contents()), events[i..])
                == RunEvents(step, capacity, Feed(HeaderReader.FIXED_START, []), events)
      invariant reader.bytes + |stream.Contents()| + |Accepted(capacity, stream.Contents(), events[i..])|
                == |Accepted(capacity, [], events)|
    {
      NextEvent(step, capacity, Feed(reader.Current(), stream.Contents()), events, i);
      match events[i]
      case Write(data) =>
        var n := stream.Write(data);
      case Poll =>
        HeaderReader.FixedRunIsFold(frameSize, reader.Current(), stream.Contents());
        reader.Poll();
    }
    NextEvent(step, capacity, Feed(reader.Current(), stream.Contents()), events, |events|);
  }
}
