/** src/async_event_loop/protocol_reader.hpp: LineProtocolReader. */
module LineReader {
  import opened Bytes
  import opened MemoryStream
  import opened Arithmetic

  datatype Options = Options(delimiter: Byte, stripCr: bool, dropOverflow: bool)

  /** The bytes of the unfinished line, and what came out so far. */
  datatype State = State(buffer: seq<Byte>, lines: seq<seq<Byte>>, overflows: nat)

  const START := State([], [], 0)

  /** The view a line is delivered as. */
  function Stripped(o: Options, line: seq<Byte>): seq<Byte> {
    if o.stripCr && line != [] && line[|line| - 1] == '\r' then line[..|line| - 1] else line
  }

  function Step(o: Options, size: nat, s: State, c: Byte): State {
    if c == o.delimiter then State([], s.lines + [Stripped(o, s.buffer)], s.overflows)
    else if |s.buffer| >= size then
      State(if o.dropOverflow then [] else s.buffer, s.lines, s.overflows + 1)
    else s.(buffer := s.buffer + [c])
  }

  function Stepper(o: Options, size: nat): (State, Byte) -> State {
    (s, c) => Step(o, size, s, c)
  }

  function Run(o: Options, size: nat, s: State, input: seq<Byte>): State {
    Fold(Stepper(o, size), s, input)
  }

  lemma {:induction false} RunSnoc(o: Options, size: nat, s: State, input: seq<Byte>, c: Byte)
    ensures Run(o, size, s, input + [c]) == Step(o, size, Run(o, size, s, input), c)
  {
    FoldConcat(Stepper(o, size), s, input, [c]);
    assert [c][1..] == [];
  }

  lemma RunStep(o: Options, size: nat, s: State, input: seq<Byte>)
    requires input != []
    ensures Run(o, size, s, input) == Run(o, size, Step(o, size, s, input[0]), input[1..])
  {
  }

  /** Lines already given out make no difference to a byte. */
  lemma StepShifts(o: Options, size: nat, s: State, c: Byte)
    ensures var r := Step(o, size, State(s.buffer, [], 0), c);
            Step(o, size, s, c) == State(r.buffer, s.lines + r.lines, s.overflows + r.overflows)
  {
    assert s.lines + [] == s.lines;
    assert forall x: seq<Byte> :: [] + [x] == [x];
  }

  lemma {:induction false} RunShifts(o: Options, size: nat, s: State, input: seq<Byte>)
    ensures var r := Run(o, size, State(s.buffer, [], 0), input);
            var t := Run(o, size, s, input);
            t.buffer == r.buffer && t.lines == s.lines + r.lines
    decreases |input|
  {
    if input != [] {
      var n := |input| - 1;
      var c := input[n];
      assert input == input[..n] + [c];
      var clean := State(s.buffer, [], 0);
      RunShifts(o, size, s, input[..n]);
      RunSnoc(o, size, s, input[..n], c);
      RunSnoc(o, size, clean, input[..n], c);
      StepShifts(o, size, Run(o, size, s, input[..n]), c);
      StepShifts(o, size, Run(o, size, clean, input[..n]), c);
    }
  }

  /** One input after another: the second goes on from the buffer the first has left. */
  lemma {:induction false} RunOver(o: Options, size: nat, s: State, a: seq<Byte>, b: seq<Byte>)
    ensures var before := Run(o, size, s, a);
            var r := Run(o, size, State(before.buffer, [], 0), b);
            var all := Run(o, size, s, a + b);
            all.buffer == r.buffer && all.lines == before.lines + r.lines
  {
    FoldConcat(Stepper(o, size), s, a, b);
    RunShifts(o, size, Run(o, size, s, a), b);
  }

  /** Stripping concerns the delivered lines only: they are the unstripped ones, each stripped. */
  lemma {:induction false} RunStrips(o: Options, size: nat, s: State, input: seq<Byte>)
    requires s.lines == []
    ensures var raw := Run(o.(stripCr := false), size, s, input);
            var t := Run(o, size, s, input);
            && t.buffer == raw.buffer && |t.lines| == |raw.lines|
            && forall j :: 0 <= j < |raw.lines| ==> t.lines[j] == Stripped(o, raw.lines[j])
    decreases |input|
  {
    if input != [] {
      var n := |input| - 1;
      assert input == input[..n] + [input[n]];
      RunStrips(o, size, s, input[..n]);
      RunSnoc(o, size, s, input[..n], input[n]);
      RunSnoc(o.(stripCr := false), size, s, input[..n], input[n]);
    }
  }

  // ---- the closed form ---------------------------------------------------------------------

  /** The length of what is left of a run of `n` bytes when every byte too many empties the buffer. */
  function TailLength(n: nat, size: nat): (r: nat)
    ensures r <= n && r <= size
  {
    n % (size + 1)
  }

  /** What the buffer holds after a delimiter-free run: the tail left by the last overflow, or the head. */
  function Kept(o: Options, size: nat, run: seq<Byte>): seq<Byte> {
    if o.dropOverflow then run[|run| - TailLength(|run|, size)..] else run[..Min(|run|, size)]
  }

  /** How often the run overflowed. */
  function Lost(o: Options, size: nat, run: seq<Byte>): nat {
    if o.dropOverflow then |run| / (size + 1) else |run| - Min(|run|, size)
  }

  predicate Free(o: Options, run: seq<Byte>) {
    o.delimiter !in run
  }

  /** A delimiter-free run behind whatever is buffered: the reader keeps what it would keep of both together. */
  lemma {:induction false} RunFree(o: Options, size: nat, s: State, run: seq<Byte>)
    requires |s.buffer| <= size && Free(o, run)
    ensures Run(o, size, s, run)
            == State(Kept(o, size, s.buffer + run), s.lines, s.overflows + Lost(o, size, s.buffer + run))
    decreases |run|
  {
    var all := s.buffer + run;
    if run == [] {
      Small(|all|, size + 1);
      assert all == s.buffer && Kept(o, size, all) == all && Lost(o, size, all) == 0;
    } else {
      var n := |run| - 1;
      var head := run[..n];
      assert run == head + [run[n]];
      assert all == s.buffer + head + [run[n]];
      RunFree(o, size, s, head);
      RunSnoc(o, size, s, head, run[n]);
      if o.dropOverflow {
        DivNext(|s.buffer| + n, size + 1);
      }
    }
  }

  /** Where the first delimiter is, or the length when there is none. */
  function FirstDelimiter(o: Options, input: seq<Byte>): (k: nat)
    ensures k <= |input| && Free(o, input[..k]) && (k < |input| ==> input[k] == o.delimiter)
  {
    if input == [] || input[0] == o.delimiter then 0
    else
      var k := FirstDelimiter(o, input[1..]);
      assert input[..k + 1] == [input[0]] + input[1..][..k];
      k + 1
  }

  /** The whole-input definition: cut at the delimiters, treat every piece on its own. */
  function Lines(o: Options, size: nat, s: State, input: seq<Byte>): State
    decreases |input|
  {
    var k := FirstDelimiter(o, input);
    var run := input[..k];
    if k == |input| then State(Kept(o, size, run), s.lines, s.overflows + Lost(o, size, run))
    else Lines(o, size,
               State([], s.lines + [Stripped(o, Kept(o, size, run))], s.overflows + Lost(o, size, run)),
               input[k + 1..])
  }

  /** The incremental reader computes the whole-input definition, for every input and both policies. */
  lemma {:induction false} RunIsLines(o: Options, size: nat, s: State, input: seq<Byte>)
    requires s.buffer == []
    ensures Run(o, size, s, input) == Lines(o, size, s, input)
    decreases |input|
  {
    hide Kept, Lost, Stripped, Free;
    var k := FirstDelimiter(o, input);
    var run := input[..k];
    RunFree(o, size, s, run);
    assert s.buffer + run == run;
    hide Fold;
    if k == |input| {
      assert run == input;
    } else {
      var s' := Step(o, size, Run(o, size, s, run), o.delimiter);
      RunSnoc(o, size, s, run, o.delimiter);
      assert input == (run + [o.delimiter]) + input[k + 1..];
      FoldConcat(Stepper(o, size), s, run + [o.delimiter], input[k + 1..]);
      RunIsLines(o, size, s', input[k + 1..]);
    }
  }

  /** A run of bytes and its delimiter, in the reader's own numbers: under drop_overflow the last
      `L mod (B + 1)` bytes are the line, otherwise the first `min(L, B)` are. */
  lemma {:induction false} LineClosedForm(o: Options, size: nat, run: seq<Byte>)
    requires Free(o, run)
    ensures var s := Run(o, size, START, run + [o.delimiter]);
            && s.buffer == []
            && (o.dropOverflow ==>
                  s.lines == [Stripped(o, run[|run| - TailLength(|run|, size)..])] && s.overflows == |run| / (size + 1))
            && (!o.dropOverflow ==>
                  s.lines == [Stripped(o, run[..Min(|run|, size)])] && s.overflows == |run| - Min(|run|, size))
  {
    RunFree(o, size, START, run);
    assert START.buffer + run == run;
    RunSnoc(o, size, START, run, o.delimiter);
    assert [] + [Stripped(o, Kept(o, size, run))] == [Stripped(o, Kept(o, size, run))];
  }

  /** Lines that fit, sent with their delimiters, come out as they were sent, whatever the policy. */
  lemma {:induction false} LineRoundTrip(o: Options, size: nat, lines: seq<seq<Byte>>)
    requires forall i :: 0 <= i < |lines| ==> Free(o, lines[i]) && |lines[i]| <= size
    ensures Run(o, size, START, Joined(o, lines)) == State([], Delivered(o, lines), 0)
    decreases |lines|
  {
    if lines != [] {
      var n := |lines| - 1;
      var last := lines[n];
      LineRoundTrip(o, size, lines[..n]);
      var s := Run(o, size, START, Joined(o, lines[..n]));
      FoldConcat(Stepper(o, size), START, Joined(o, lines[..n]), last + [o.delimiter]);
      RunFree(o, size, s, last);
      assert s.buffer + last == last;
      RunSnoc(o, size, s, last, o.delimiter);
      Small(|last|, size + 1);
      assert Kept(o, size, last) == last;
      assert Lost(o, size, last) == 0;
    }
  }

  lemma Small(n: nat, d: nat)
    requires n < d
    ensures n / d == 0 && n % d == n
  {
    QuotientIs(n, d, 0, n);
  }

  function Joined(o: Options, lines: seq<seq<Byte>>): seq<Byte> {
    if lines == [] then [] else Joined(o, lines[..|lines| - 1]) + (lines[|lines| - 1] + [o.delimiter])
  }

  function Delivered(o: Options, lines: seq<seq<Byte>>): seq<seq<Byte>> {
    if lines == [] then [] else Delivered(o, lines[..|lines| - 1]) + [Stripped(o, lines[|lines| - 1])]
  }

  // ---- the reader --------------------------------------------------------------------------

  class LineProtocolReader {
    const stream: MemoryByteStream
    const options: Options
    const bufferSize: nat
    const buffer: array<Byte>
    var size: nat
    var statMessages: nat
    var statBytes: nat
    var statOverflows: nat

    /** What the callback received, and the counters without their wrap. */
    ghost var delivered: seq<seq<Byte>>
    ghost var overflows: nat
    ghost var bytes: nat

    ghost predicate Valid()
      reads this
    {
      && 0 < bufferSize == buffer.Length && buffer != stream.buffer && size <= bufferSize
      && Counts(statMessages, |delivered|) && Counts(statBytes, bytes) && Counts(statOverflows, overflows)
    }

    ghost function Current(): State
      requires Valid()
      reads this, buffer
    {
      State(buffer[..size], delivered, overflows)
    }

    constructor (stream: MemoryByteStream, options: Options, bufferSize: nat)
      requires 0 < bufferSize
      ensures Valid() && Current() == START && fresh(buffer) && bytes == 0
      ensures this.stream == stream && this.options == options && this.bufferSize == bufferSize
    {
      this.stream, this.options, this.bufferSize := stream, options, bufferSize;
      buffer := new Byte[bufferSize](_ => '\0');
      size, statMessages, statBytes, statOverflows := 0, 0, 0, 0;
      delivered, overflows, bytes := [], 0, 0;
    }

    /** Drains the stream through the step function. */
    method Poll()
      requires Valid() && stream.Valid()
      modifies this, buffer, stream
      ensures Valid() && stream.Valid() && stream.Contents() == []
      ensures Current() == Run(options, bufferSize, old(Current()), old(stream.Contents()))
      ensures bytes == old(bytes) + old(|stream.Contents()|)
    {
      ghost var input := stream.Contents();
      ghost var final := Run(options, bufferSize, Current(), input);
      var more := stream.Readable();
      while more
        invariant Valid() && stream.Valid()
        invariant more <==> stream.Contents() != []
        invariant Run(options, bufferSize, Current(), stream.Contents()) == final
        invariant bytes + |stream.Contents()| == old(bytes) + |input|
        decreases |stream.Contents()|
      {
        var n := PollByte();
        if n <= 0 {
          break;
        }
        more := stream.Readable();
      }
    }

    /** One round of the loop of Poll: what the rest of the input leads to stays the same. */
    method PollByte() returns (n: nat)
      requires Valid() && stream.Valid() && stream.Contents() != []
      modifies this, buffer, stream
      ensures Valid() && stream.Valid() && n == 1
      ensures stream.Contents() == old(stream.Contents())[1..]
      ensures Run(options, bufferSize, Current(), stream.Contents())
              == old(Run(options, bufferSize, Current(), stream.Contents()))
      ensures bytes == old(bytes) + 1
    {
      ghost var input := stream.Contents();
      RunStep(options, bufferSize, Current(), input);
      var byte := new Byte[1];
      n := stream.Read(byte, 1);
      if n <= 0 {
        return;
      }
      assert byte[..1][0] == input[..1][0] == input[0];
      statBytes := Inc32(statBytes);
      bytes := bytes + 1;
      Consume(byte[0]);
    }

    method Consume(c: Byte)
      requires Valid()
      modifies this, buffer
      ensures Valid() && bytes == old(bytes)
      ensures Current() == Step(options, bufferSize, old(Current()), c)
    {
      if c == options.delimiter {
        EmitLine();
        return;
      }
      if size >= bufferSize {
        statOverflows := Inc32(statOverflows);
        overflows := overflows + 1;
        if options.dropOverflow {
          size := 0;
        }
        return;
      }
      buffer[size] := c;
      size := size + 1;
    }

    method EmitLine()
      requires Valid()
      modifies this
      ensures Valid() && bytes == old(bytes)
      ensures Current() == State([], old(delivered) + [Stripped(options, old(Current()).buffer)], old(overflows))
    {
      var len := size;
      if options.stripCr && len > 0 && buffer[len - 1] == '\r' {
        len := len - 1;
      }
      assert buffer[..len] == Stripped(options, buffer[..size]);
      delivered := delivered + [buffer[..len]];
      statMessages := Inc32(statMessages);
      size := 0;
    }
  }
}
