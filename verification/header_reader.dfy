/** src/async_event_loop/protocol_reader.hpp: HeaderPayloadProtocolReader and FixedFrameProtocolReader. */
module HeaderReader {
  import opened Bytes
  import opened MemoryStream

  /** `payloadSize` is the user's function on the header bytes; None stands for a null pointer. */
  datatype Options = Options(headerSize: nat, maxPayload: nat, payloadSize: Option<seq<Byte> -> nat>)

  predicate ValidOptions(o: Options, size: nat) {
    && o.headerSize != 0 && o.payloadSize.Some?
    && o.headerSize <= size && o.maxPayload <= size && o.headerSize + o.maxPayload <= size
  }

  function PayloadOf(o: Options, bytes: seq<Byte>): nat
    requires o.payloadSize.Some? && o.headerSize <= |bytes|
  {
    o.payloadSize.value(bytes[..o.headerSize])
  }

  /** `expected` is the size of the frame being collected, once its header has been accepted. */
  datatype State = State(buffer: seq<Byte>, expected: Option<nat>, frames: seq<seq<Byte>>, errors: nat)

  const START := State([], None, [], 0)

  function Reject(s: State): State {
    State([], None, s.frames, s.errors + 1)
  }

  /** After a byte was appended: accept or reject a new header, then emit a complete frame. */
  function TryEmit(o: Options, s: State): State
    requires o.payloadSize.Some?
  {
    if |s.buffer| < o.headerSize then s
    else if s.expected.None? && PayloadOf(o, s.buffer) > o.maxPayload then Reject(s)
    else
      var expected := if s.expected.Some? then s.expected.value else o.headerSize + PayloadOf(o, s.buffer);
      if |s.buffer| >= expected then State([], None, s.frames + [s.buffer], s.errors)
      else s.(expected := Some(expected))
  }

  function Step(o: Options, s: State, c: Byte): State
    requires o.payloadSize.Some?
  {
    TryEmit(o, s.(buffer := s.buffer + [c]))
  }

  /** Between bytes, either the header is incomplete or the accepted frame is. */
  predicate Collecting(o: Options, size: nat, s: State) {
    match s.expected
    case None => |s.buffer| < o.headerSize
    case Some(e) => o.headerSize <= |s.buffer| < e <= size && o.payloadSize.Some?
                    && e == o.headerSize + PayloadOf(o, s.buffer) && PayloadOf(o, s.buffer) <= o.maxPayload
  }

  function Run(o: Options, s: State, input: seq<Byte>): State
    requires o.payloadSize.Some?
    decreases |input|
  {
    if input == [] then s else Run(o, Step(o, s, input[0]), input[1..])
  }

  lemma {:induction false} RunConcat(o: Options, s: State, a: seq<Byte>, b: seq<Byte>)
    requires o.payloadSize.Some?
    ensures Run(o, s, a + b) == Run(o, Run(o, s, a), b)
    decreases |a|
  {
    if a == [] {
      assert a + b == b;
    } else {
      assert (a + b)[1..] == a[1..] + b;
      RunConcat(o, Step(o, s, a[0]), a[1..], b);
    }
  }

  lemma RunStep(o: Options, s: State, input: seq<Byte>)
    requires o.payloadSize.Some? && input != []
    ensures Run(o, s, input) == Run(o, Step(o, s, input[0]), input[1..])
  {
  }

  function Stepper(o: Options): (State, Byte) -> State
    requires o.payloadSize.Some?
  {
    (s, c) => Step(o, s, c)
  }

  /** Running is folding, so the results on chunked feeding apply. */
  lemma {:induction false} RunIsFold(o: Options, s: State, input: seq<Byte>)
    requires o.payloadSize.Some?
    ensures Run(o, s, input) == Fold(Stepper(o), s, input)
    decreases |input|
  {
    if input != [] {
      RunIsFold(o, Step(o, s, input[0]), input[1..]);
    }
  }

  lemma {:induction false} StepCollecting(o: Options, size: nat, s: State, c: Byte)
    requires ValidOptions(o, size) && Collecting(o, size, s)
    ensures Collecting(o, size, Step(o, s, c))
  {
    var longer := s.buffer + [c];
    if |s.buffer| >= o.headerSize {
      assert longer[..o.headerSize] == s.buffer[..o.headerSize];
    }
  }

  // ---- the whole-input definition ----------------------------------------------------------

  /** Cut the input into frames and rejected headers, from the left. */
  function Parse(o: Options, s: State, input: seq<Byte>): State
    requires o.headerSize > 0 && o.payloadSize.Some?
    decreases |input|
  {
    if |input| < o.headerSize then State(input, None, s.frames, s.errors)
    else if PayloadOf(o, input) > o.maxPayload then
      Parse(o, State([], None, s.frames, s.errors + 1), input[o.headerSize..])
    else
      var n := o.headerSize + PayloadOf(o, input);
      if |input| < n then State(input, Some(n), s.frames, s.errors)
      else Parse(o, State([], None, s.frames + [input[..n]], s.errors), input[n..])
  }

  /** Collecting bytes that complete nothing only grows the buffer. */
  lemma {:induction false} RunHeader(o: Options, s: State, part: seq<Byte>)
    requires o.payloadSize.Some? && s.expected.None? && |s.buffer| + |part| < o.headerSize
    ensures Run(o, s, part) == s.(buffer := s.buffer + part)
    decreases |part|
  {
    assert part != [] ==> s.buffer + part == s.buffer + [part[0]] + part[1..];
    if part == [] {
      assert s.buffer + part == s.buffer;
    } else {
      RunHeader(o, Step(o, s, part[0]), part[1..]);
    }
  }

  lemma {:induction false} RunPayload(o: Options, s: State, part: seq<Byte>)
    requires o.payloadSize.Some? && s.expected.Some?
    requires o.headerSize <= |s.buffer| && |s.buffer| + |part| < s.expected.value
    ensures Run(o, s, part) == s.(buffer := s.buffer + part)
    decreases |part|
  {
    assert part != [] ==> s.buffer + part == s.buffer + [part[0]] + part[1..];
    if part == [] {
      assert s.buffer + part == s.buffer;
    } else {
      RunPayload(o, Step(o, s, part[0]), part[1..]);
    }
  }

  predicate Empty(s: State) {
    s.buffer == [] && s.expected.None?
  }

  /** A complete header: rejected, or its frame is expected, or it already is the frame. */
  lemma {:induction false} RunWholeHeader(o: Options, s: State, header: seq<Byte>)
    requires o.headerSize == |header| > 0 && o.payloadSize.Some? && Empty(s)
    ensures Run(o, s, header)
            == if PayloadOf(o, header) > o.maxPayload then Reject(s)
               else if PayloadOf(o, header) == 0 then State([], None, s.frames + [header], s.errors)
               else State(header, Some(o.headerSize + PayloadOf(o, header)), s.frames, s.errors)
  {
    var n := |header| - 1;
    assert header == header[..n] + [header[n]];
    RunConcat(o, s, header[..n], [header[n]]);
    RunHeader(o, s, header[..n]);
    assert [] + header[..n] + [header[n]] == header;
    assert [header[n]][1..] == [] && header[..o.headerSize] == header;
  }

  /** A prefix of a frame with an accepted header is collected; the whole of it is emitted. */
  lemma {:induction false} RunFrame(o: Options, s: State, part: seq<Byte>)
    requires o.headerSize > 0 && o.payloadSize.Some? && Empty(s) && |part| >= o.headerSize
    requires PayloadOf(o, part) <= o.maxPayload && |part| <= o.headerSize + PayloadOf(o, part)
    ensures Run(o, s, part)
            == if |part| < o.headerSize + PayloadOf(o, part)
               then State(part, Some(o.headerSize + PayloadOf(o, part)), s.frames, s.errors)
               else State([], None, s.frames + [part], s.errors)
  {
    var h, n := o.headerSize, o.headerSize + PayloadOf(o, part);
    var header, body := part[..h], part[h..];
    assert part == header + body && header[..h] == header;
    RunWholeHeader(o, s, header);
    RunConcat(o, s, header, body);
    if body == [] {
      assert part == header;
    } else {
      var s' := State(header, Some(n), s.frames, s.errors);
      if |part| < n {
        RunPayload(o, s', body);
      } else {
        RunLastBytes(o, s', body);
      }
    }
  }

  lemma {:induction false} RunLastBytes(o: Options, s: State, body: seq<Byte>)
    requires o.payloadSize.Some? && s.expected.Some? && body != []
    requires o.headerSize <= |s.buffer| && |s.buffer| + |body| == s.expected.value
    ensures Run(o, s, body) == State([], None, s.frames + [s.buffer + body], s.errors)
  {
    var k := |body| - 1;
    assert body == body[..k] + [body[k]];
    RunConcat(o, s, body[..k], [body[k]]);
    RunPayload(o, s, body[..k]);
    assert s.buffer + body[..k] + [body[k]] == s.buffer + body;
    assert [body[k]][1..] == [];
  }

  /** The incremental reader computes the whole-input definition, on every input. */
  lemma {:induction false} RunIsParse(o: Options, s: State, input: seq<Byte>)
    requires o.headerSize > 0 && o.payloadSize.Some? && Empty(s)
    ensures Run(o, s, input) == Parse(o, s, input)
    decreases |input|
  {
    var h := o.headerSize;
    if |input| < h {
      RunHeader(o, s, input);
      assert [] + input == input;
    } else if PayloadOf(o, input) > o.maxPayload {
      assert input == input[..h] + input[h..] && input[..h][..h] == input[..h];
      RunWholeHeader(o, s, input[..h]);
      RunConcat(o, s, input[..h], input[h..]);
      RunIsParse(o, Reject(s), input[h..]);
    } else if |input| < h + PayloadOf(o, input) {
      RunFrame(o, s, input);
    } else {
      var n := h + PayloadOf(o, input);
      assert input == input[..n] + input[n..] && input[..n][..h] == input[..h];
      RunFrame(o, s, input[..n]);
      RunConcat(o, s, input[..n], input[n..]);
      RunIsParse(o, State([], None, s.frames + [input[..n]], s.errors), input[n..]);
    }
  }

  // ---- what follows ------------------------------------------------------------------------

  function TotalSize(frames: seq<seq<Byte>>): nat {
    if frames == [] then 0 else TotalSize(frames[..|frames| - 1]) + |frames[|frames| - 1]|
  }

  lemma OneMoreHeader(h: nat, n: nat)
    ensures h * (n + 1) == h * n + h
  {
  }

  lemma {:induction false} ParseConserves(o: Options, s: State, input: seq<Byte>)
    requires o.headerSize > 0 && o.payloadSize.Some?
    ensures var s' := Parse(o, s, input);
            TotalSize(s'.frames) + o.headerSize * s'.errors + |s'.buffer|
            == TotalSize(s.frames) + o.headerSize * s.errors + |input|
    decreases |input|
  {
    if |input| >= o.headerSize {
      if PayloadOf(o, input) > o.maxPayload {
        ParseConserves(o, State([], None, s.frames, s.errors + 1), input[o.headerSize..]);
        OneMoreHeader(o.headerSize, s.errors);
      } else if |input| >= o.headerSize + PayloadOf(o, input) {
        var n := o.headerSize + PayloadOf(o, input);
        ParseConserves(o, State([], None, s.frames + [input[..n]], s.errors), input[n..]);
        assert (s.frames + [input[..n]])[..|s.frames|] == s.frames;
      }
    }
  }

  /** No byte is lost or counted twice: every byte is in an emitted frame, in a rejected header, or still
      buffered, whatever the input. */
  lemma {:induction false} Conservation(o: Options, input: seq<Byte>)
    requires o.headerSize > 0 && o.payloadSize.Some?
    ensures var s := Run(o, START, input);
            |input| == TotalSize(s.frames) + o.headerSize * s.errors + |s.buffer|
  {
    RunIsParse(o, START, input);
    ParseConserves(o, START, input);
  }

  predicate IsFrame(o: Options, frame: seq<Byte>)
    requires o.payloadSize.Some?
  {
    && |frame| >= o.headerSize && PayloadOf(o, frame) <= o.maxPayload
    && |frame| == o.headerSize + PayloadOf(o, frame)
  }

  predicate AllFrames(o: Options, frames: seq<seq<Byte>>)
    requires o.payloadSize.Some?
  {
    forall i :: 0 <= i < |frames| ==> IsFrame(o, frames[i])
  }

  function Concat(frames: seq<seq<Byte>>): seq<Byte> {
    if frames == [] then [] else frames[0] + Concat(frames[1..])
  }

  /** Well-formed frames sent one after another come out one by one, unchanged, and leave nothing behind. */
  lemma {:induction false} FramesRoundTrip(o: Options, s: State, frames: seq<seq<Byte>>)
    requires o.headerSize > 0 && o.payloadSize.Some? && Empty(s)
    requires AllFrames(o, frames)
    ensures Run(o, s, Concat(frames)) == State([], None, s.frames + frames, s.errors)
    decreases |frames|
  {
    if frames == [] {
      assert s.frames + frames == s.frames;
    } else {
      RunFrame(o, s, frames[0]);
      RunConcat(o, s, frames[0], Concat(frames[1..]));
      FramesRoundTrip(o, State([], None, s.frames + [frames[0]], s.errors), frames[1..]);
      assert s.frames + frames == s.frames + [frames[0]] + frames[1..];
    }
  }

  /** Everything the reader emits is a well-formed frame. */
  lemma {:induction false} EmitsOnlyFrames(o: Options, s: State, input: seq<Byte>)
    requires o.headerSize > 0 && o.payloadSize.Some? && AllFrames(o, s.frames)
    ensures AllFrames(o, Parse(o, s, input).frames)
    decreases |input|
  {
    if |input| >= o.headerSize {
      if PayloadOf(o, input) > o.maxPayload {
        EmitsOnlyFrames(o, Reject(s), input[o.headerSize..]);
      } else if |input| >= o.headerSize + PayloadOf(o, input) {
        var n := o.headerSize + PayloadOf(o, input);
        assert input[..n][..o.headerSize] == input[..o.headerSize];
        EmitsOnlyFrames(o, State([], None, s.frames + [input[..n]], s.errors), input[n..]);
      }
    }
  }

  /** Every frame that comes out, and was in the buffer before, fits it. */
  ghost predicate FramesFit(o: Options, size: nat)
    requires o.payloadSize.Some?
  {
    forall input, i :: 0 <= i < |Run(o, START, input).frames| ==> |Run(o, START, input).frames[i]| <= size
  }

  /** The options the check lets through are exactly those with which every frame fits the buffer, whatever
      the user's function says and whatever arrives. */
  lemma {:induction false} OptionsCheckExact(o: Options, size: nat)
    requires o.headerSize > 0 && o.payloadSize.Some?
    ensures ValidOptions(o, size) <==> forall f: seq<Byte> -> nat :: FramesFit(o.(payloadSize := Some(f)), size)
  {
    if ValidOptions(o, size) {
      forall f: seq<Byte> -> nat ensures FramesFit(o.(payloadSize := Some(f)), size) {
        SmallFrames(o.(payloadSize := Some(f)), size);
      }
    } else {
      BigFrame(o, size);
    }
  }

  lemma {:induction false} SmallFrames(o: Options, size: nat)
    requires ValidOptions(o, size)
    ensures FramesFit(o, size)
  {
    forall input, i | 0 <= i < |Run(o, START, input).frames|
      ensures |Run(o, START, input).frames[i]| <= size
    {
      RunIsParse(o, START, input);
      EmitsOnlyFrames(o, START, input);
      assert IsFrame(o, Parse(o, START, input).frames[i]);
    }
  }

  lemma {:induction false} BigFrame(o: Options, size: nat)
    requires o.headerSize > 0 && o.payloadSize.Some? && o.headerSize + o.maxPayload > size
    ensures !forall f: seq<Byte> -> nat :: FramesFit(o.(payloadSize := Some(f)), size)
  {
    var f: seq<Byte> -> nat := _ => o.maxPayload;
    var o' := o.(payloadSize := Some(f));
    var frame: seq<Byte> := seq(o.headerSize + o.maxPayload, _ => '\0');
    RunFrame(o', START, frame);
    assert Run(o', START, frame).frames == [frame];
    assert |Run(o', START, frame).frames[0]| > size;
    assert !FramesFit(o', size);
  }

  // ---- fixed-size frames -------------------------------------------------------------------

  datatype Fixed = Fixed(buffer: seq<Byte>, frames: seq<seq<Byte>>)

  function FixedStep(frameSize: nat, s: Fixed, c: Byte): Fixed {
    var b := s.buffer + [c];
    if |b| == frameSize then Fixed([], s.frames + [b]) else Fixed(b, s.frames)
  }

  function FixedRun(frameSize: nat, s: Fixed, input: seq<Byte>): Fixed
    decreases |input|
  {
    if input == [] then s else FixedRun(frameSize, FixedStep(frameSize, s, input[0]), input[1..])
  }

  const FIXED_START := Fixed([], [])

  function FixedStepper(frameSize: nat): (Fixed, Byte) -> Fixed {
    (s, c) => FixedStep(frameSize, s, c)
  }

  lemma {:induction false} FixedRunIsFold(frameSize: nat, s: Fixed, input: seq<Byte>)
    ensures FixedRun(frameSize, s, input) == Fold(FixedStepper(frameSize), s, input)
    decreases |input|
  {
    if input != [] {
      FixedRunIsFold(frameSize, FixedStep(frameSize, s, input[0]), input[1..]);
    }
  }

  lemma {:induction false} ConcatSnoc(frames: seq<seq<Byte>>, frame: seq<Byte>)
    ensures Concat(frames + [frame]) == Concat(frames) + frame
  {
    if frames == [] {
      assert [frame][1..] == [] && [] + [frame] == [frame];
    } else {
      assert (frames + [frame])[1..] == frames[1..] + [frame];
      ConcatSnoc(frames[1..], frame);
    }
  }

  /** The frames and the rest, put together, are the input; every frame has the size, and the rest is shorter. */
  lemma {:induction false} FixedCuts(frameSize: nat, s: Fixed, input: seq<Byte>)
    requires |s.buffer| < frameSize && forall i :: 0 <= i < |s.frames| ==> |s.frames[i]| == frameSize
    ensures var f := FixedRun(frameSize, s, input);
            && Concat(f.frames) + f.buffer == Concat(s.frames) + s.buffer + input
            && |f.buffer| < frameSize && forall i :: 0 <= i < |f.frames| ==> |f.frames[i]| == frameSize
    decreases |input|
  {
    if input != [] {
      var b := s.buffer + [input[0]];
      var s' := FixedStep(frameSize, s, input[0]);
      ConcatSnoc(s.frames, b);
      assert Concat(s'.frames) + s'.buffer == Concat(s.frames) + b;
      FixedCuts(frameSize, s', input[1..]);
      assert Concat(s.frames) + b + input[1..] == Concat(s.frames) + s.buffer + input;
    }
  }

  /** Fixed-size framing is header framing with a header of that size and no payload. */
  lemma {:induction false} FixedIsHeaderOnly(o: Options, s: Fixed, input: seq<Byte>)
    requires o.headerSize > 0 && o.payloadSize.Some? && |s.buffer| < o.headerSize
    requires forall header :: |header| == o.headerSize ==> o.payloadSize.value(header) == 0
    ensures var f := FixedRun(o.headerSize, s, input);
            Run(o, State(s.buffer, None, s.frames, 0), input) == State(f.buffer, None, f.frames, 0)
    decreases |input|
  {
    if input != [] {
      var b := s.buffer + [input[0]];
      assert b[..|b|] == b;
      FixedIsHeaderOnly(o, FixedStep(o.headerSize, s, input[0]), input[1..]);
    }
  }

  // ---- the readers -------------------------------------------------------------------------

  class HeaderPayloadProtocolReader {
    const stream: MemoryByteStream
    const options: Options
    const bufferSize: nat
    const buffer: array<Byte>
    var size: nat
    var expectedSize: nat
    var haveExpectedSize: bool
    var statMessages: nat
    var statBytes: nat
    var statOverflows: nat
    var statErrors: nat

    /** What the callback received, and the counters without their wrap. */
    ghost var delivered: seq<seq<Byte>>
    ghost var overflows: nat
    ghost var errors: nat
    ghost var bytes: nat

    ghost predicate Shaped()
      reads this
    {
      && buffer.Length == bufferSize && buffer != stream.buffer && size <= bufferSize
      && (!haveExpectedSize ==> expectedSize == 0)
      && Counts(statMessages, |delivered|) && Counts(statBytes, bytes) && Counts(statErrors, errors)
      && Counts(statOverflows, overflows)
    }

    ghost function Current(): State
      requires Shaped()
      reads this, buffer
    {
      State(buffer[..size], if haveExpectedSize then Some(expectedSize) else None, delivered, errors)
    }

    /** The options may be unusable; then poll only counts errors and the reader stays empty. Overflows
        never happen. */
    ghost predicate Valid()
      reads this, buffer
    {
      Shaped() && overflows == 0 && if ValidOptions(options, bufferSize) then Collecting(options, bufferSize, Current()) else size == 0
    }

    constructor (stream: MemoryByteStream, options: Options, bufferSize: nat)
      ensures Valid() && fresh(buffer) && bytes == 0 && errors == 0 && delivered == [] && size == 0
      ensures this.stream == stream && this.options == options && this.bufferSize == bufferSize
    {
      this.stream, this.options, this.bufferSize := stream, options, bufferSize;
      buffer := new Byte[bufferSize](_ => '\0');
      size, expectedSize, haveExpectedSize := 0, 0, false;
      statMessages, statBytes, statOverflows, statErrors := 0, 0, 0, 0;
      delivered, overflows, errors, bytes := [], 0, 0, 0;
    }

    method CheckOptions() returns (ok: bool)
      ensures ok <==> ValidOptions(options, bufferSize)
    {
      ok := options.headerSize != 0 && options.payloadSize.Some? &&
            options.headerSize <= bufferSize && options.maxPayload <= bufferSize &&
            options.headerSize + options.maxPayload <= bufferSize;
    }

    /** Drains the stream through the machine; with unusable options, one error and the stream is left alone. */
    method Poll()
      requires Valid() && stream.Valid()
      modifies this, buffer, stream
      ensures Valid() && stream.Valid()
      ensures ValidOptions(options, bufferSize) ==>
                && stream.Contents() == []
                && Current() == Run(options, old(Current()), old(stream.Contents()))
                && bytes == old(bytes) + old(|stream.Contents()|)
      ensures !ValidOptions(options, bufferSize) ==>
                && stream.Contents() == old(stream.Contents())
                && Current() == old(Current()).(errors := old(errors) + 1) && bytes == old(bytes)
    {
      var ok := CheckOptions();
      if !ok {
        statErrors := Inc32(statErrors);
        errors := errors + 1;
        return;
      }
      Drain();
    }

    /** The loop of Poll. */
    method Drain()
      requires Valid() && stream.Valid() && ValidOptions(options, bufferSize)
      modifies this, buffer, stream
      ensures Valid() && stream.Valid() && stream.Contents() == []
      ensures Current() == Run(options, old(Current()), old(stream.Contents()))
      ensures bytes == old(bytes) + old(|stream.Contents()|)
    {
      ghost var input := stream.Contents();
      ghost var final := Run(options, Current(), input);
      var more := stream.Readable();
      while more
        invariant Valid() && stream.Valid()
        invariant more <==> stream.Contents() != []
        invariant Run(options, Current(), stream.Contents()) == final
        invariant bytes + |stream.Contents()| == old(bytes) + |input|
        decreases |stream.Contents()|
      {
        var n := PollByte();
        if n <= 0 {
          break;
        }
        more := stream.Readable();
      }
    }

    /** One round of the loop of Poll: what the rest of the input leads to stays the same. */
    method PollByte() returns (n: nat)
      requires Valid() && stream.Valid() && stream.Contents() != [] && ValidOptions(options, bufferSize)
      modifies this, buffer, stream
      ensures Valid() && stream.Valid() && n == 1
      ensures stream.Contents() == old(stream.Contents())[1..]
      ensures Run(options, Current(), stream.Contents()) == old(Run(options, Current(), stream.Contents()))
      ensures bytes == old(bytes) + 1
    {
      ghost var input := stream.Contents();
      RunStep(options, Current(), input);
      StepCollecting(options, bufferSize, Current(), input[0]);
      var byte := new Byte[1];
      n := stream.Read(byte, 1);
      if n <= 0 {
        return;
      }
      assert byte[..1][0] == input[..1][0] == input[0];
      statBytes := Inc32(statBytes);
      bytes := bytes + 1;
      ghost var s := Current();
      var ok := Append(byte[0]);
      assert ok;  // an unfinished frame never fills the buffer
      TryEmitBuffered();
      assert Current() == Step(options, s, input[0]);
    }

    method Append(c: Byte) returns (ok: bool)
      requires Shaped()
      modifies this, buffer
      ensures Shaped() && bytes == old(bytes) && ok == (old(size) < bufferSize)
      ensures ok ==> Current() == old(Current()).(buffer := old(Current()).buffer + [c]) && overflows == old(overflows)
      ensures !ok ==> Current() == State([], None, old(delivered), old(errors)) && overflows == old(overflows) + 1
    {
      if size >= bufferSize {
        statOverflows := Inc32(statOverflows);
        overflows := overflows + 1;
        Reset();
        return false;
      }
      buffer[size] := c;
      size := size + 1;
      return true;
    }

    /** Once a frame is complete nothing is left over: the bytes arrive one at a time. */
    method TryEmitBuffered()
      requires Shaped() && ValidOptions(options, bufferSize)
      requires haveExpectedSize ==> options.headerSize <= size <= expectedSize <= bufferSize
      requires !haveExpectedSize ==> size <= options.headerSize
      modifies this, buffer
      ensures Shaped() && bytes == old(bytes) && overflows == old(overflows)
      ensures Current() == TryEmit(options, old(Current()))
    {
      if size < options.headerSize {
        return;
      }
      if !haveExpectedSize {
        var payload := options.payloadSize.value(buffer[..options.headerSize]);
        assert buffer[..options.headerSize] == buffer[..size][..options.headerSize];
        if payload > options.maxPayload || options.headerSize + payload > bufferSize {
          RejectHeader();
          return;
        }
        expectedSize := options.headerSize + payload;
        haveExpectedSize := true;
      }
      if size >= expectedSize {
        EmitFrame();
      }
    }

    method RejectHeader()
      requires Shaped()
      modifies this
      ensures Shaped() && bytes == old(bytes) && overflows == old(overflows)
      ensures Current() == Reject(old(Current()))
    {
      statErrors := Inc32(statErrors);
      errors := errors + 1;
      Reset();
    }

    method EmitFrame()
      requires Shaped() && ValidOptions(options, bufferSize) && haveExpectedSize && size == expectedSize
      modifies this
      ensures Shaped() && bytes == old(bytes) && overflows == old(overflows)
      ensures Current() == State([], None, old(delivered) + [old(Current()).buffer], old(errors))
    {
      delivered := delivered + [buffer[..expectedSize]];
      statMessages := Inc32(statMessages);
      var remaining := size - expectedSize;
      assert remaining == 0;  // so there is nothing to move to the front of the buffer
      size := remaining;
      expectedSize := 0;
      haveExpectedSize := false;
      assert size < options.headerSize;  // and no second frame to look for
    }

    method Reset()
      requires Shaped()
      modifies this`size, this`expectedSize, this`haveExpectedSize
      ensures Shaped() && Current() == State([], None, delivered, errors)
    {
      size := 0;
      expectedSize := 0;
      haveExpectedSize := false;
    }
  }

  class FixedFrameProtocolReader {
    const stream: MemoryByteStream
    const frameSize: nat
    const bufferSize: nat
    const buffer: array<Byte>
    var size: nat
    var statMessages: nat
    var statBytes: nat
    var statErrors: nat

    ghost var delivered: seq<seq<Byte>>
    ghost var errors: nat
    ghost var bytes: nat

    ghost predicate Valid()
      reads this
    {
      && buffer.Length == bufferSize && buffer != stream.buffer
      && (size == 0 || size < frameSize <= bufferSize)
      && Counts(statMessages, |delivered|) && Counts(statBytes, bytes) && Counts(statErrors, errors)
    }

    ghost function Current(): Fixed
      requires Valid()
      reads this, buffer
    {
      Fixed(buffer[..size], delivered)
    }

    constructor (stream: MemoryByteStream, frameSize: nat, bufferSize: nat)
      ensures Valid() && fresh(buffer) && Current() == Fixed([], []) && bytes == 0 && errors == 0
      ensures this.stream == stream && this.frameSize == frameSize && this.bufferSize == bufferSize
    {
      this.stream, this.frameSize, this.bufferSize := stream, frameSize, bufferSize;
      buffer := new Byte[bufferSize](_ => '\0');
      size, statMessages, statBytes, statErrors := 0, 0, 0, 0;
      delivered, errors, bytes := [], 0, 0;
    }

    method Poll()
      requires Valid() && stream.Valid()
      modifies this, buffer, stream
      ensures Valid() && stream.Valid()
      ensures 0 < frameSize <= bufferSize ==>
                && stream.Contents() == [] && errors == old(errors)
                && Current() == FixedRun(frameSize, old(Current()), old(stream.Contents()))
                && bytes == old(bytes) + old(|stream.Contents()|)
      ensures !(0 < frameSize <= bufferSize) ==>
                && stream.Contents() == old(stream.Contents()) && errors == old(errors) + 1
                && Current() == old(Current()) && bytes == old(bytes)
    {
      if frameSize == 0 || frameSize > bufferSize {
        statErrors := Inc32(statErrors);
        errors := errors + 1;
        return;
      }
      ghost var input := stream.Contents();
      ghost var final := FixedRun(frameSize, Current(), input);
      var more := stream.Readable();
      while more
        invariant Valid() && stream.Valid() && errors == old(errors)
        invariant more <==> stream.Contents() != []
        invariant FixedRun(frameSize, Current(), stream.Contents()) == final
        invariant bytes + |stream.Contents()| == old(bytes) + |input|
        decreases |stream.Contents()|
      {
        var n := PollByte();
        if n <= 0 {
          break;
        }
        more := stream.Readable();
      }
    }

    /** One round of the loop of Poll: what the rest of the input leads to stays the same. */
    method PollByte() returns (n: nat)
      requires Valid() && stream.Valid() && stream.Contents() != [] && 0 < frameSize <= bufferSize
      modifies this, buffer, stream
      ensures Valid() && stream.Valid() && n == 1 && errors == old(errors)
      ensures stream.Contents() == old(stream.Contents())[1..]
      ensures FixedRun(frameSize, Current(), stream.Contents())
              == old(FixedRun(frameSize, Current(), stream.Contents()))
      ensures bytes == old(bytes) + 1
    {
      ghost var input := stream.Contents();
      var byte := new Byte[1];
      n := stream.Read(byte, 1);
      if n <= 0 {
        return;
      }
      assert byte[..1][0] == input[..1][0] == input[0];
      statBytes := Inc32(statBytes);
      bytes := bytes + 1;
      Take(byte[0]);
    }

    method Take(c: Byte)
      requires Valid() && 0 < frameSize <= bufferSize
      modifies this, buffer
      ensures Valid() && errors == old(errors) && bytes == old(bytes)
      ensures Current() == FixedStep(frameSize, old(Current()), c)
    {
      ghost var s := Current();
      buffer[size] := c;
      size := size + 1;
      assert buffer[..size] == s.buffer + [c];
      if size == frameSize {
        delivered := delivered + [buffer[..size]];
        statMessages := Inc32(statMessages);
        size := 0;
      }
    }
  }
}
