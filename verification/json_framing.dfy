/** What JsonProtocolReader emits: exactly the JSON texts that were printed, and on arbitrary bytes only texts. */
module JsonFraming {
  import opened Bytes
  import opened JsonNumber
  import opened JsonBrackets
  import opened JsonMachine

  ghost predicate SelfDelimiting(text: seq<Byte>) {
    IsBracketed(text) || IsQuoted(text) || IsLiteral(text)
  }

  /** The texts the reader frames; numbers need a following byte to end them. */
  ghost predicate IsMessage(text: seq<Byte>) {
    SelfDelimiting(text) || IsNumber(text)
  }

  function WithMessage(m: Machine, text: seq<Byte>): Machine {
    m.(messages := m.messages + [text])
  }

  predicate Ready(cfg: Config, m: Machine) {
    cfg.bufferSize > 0 && m.phase.Idle? && Coherent(cfg, m)
  }

  // ---- one text ----------------------------------------------------------------------------

  lemma StillOpen(l: Lex, text: seq<Byte>)
    requires text != [] && LexRun(l, text).Some?
    ensures l.stack != []
  {
  }

  lemma {:induction false} RunContainer(cfg: Config, m: Machine, text: seq<Byte>)
    requires m.phase.Container? && text != [] && |m.buffer| + |text| <= cfg.bufferSize
    requires LexRun(LexOf(m), text) == Some(Opened([]))
    ensures Run(cfg, m, text) == Emit(m.(buffer := m.buffer + text))
    decreases |text|
  {
    var m' := Consume(cfg, m, text[0]);
    var l := LexStep(LexOf(m), text[0]).value;
    assert m.buffer + text == m.buffer + [text[0]] + text[1..];
    if text[1..] == [] {
      assert m.buffer + text == m.buffer + [text[0]];
    } else {
      StillOpen(l, text[1..]);
      RunContainer(cfg, m', text[1..]);
    }
  }

  lemma {:induction false} RunString(cfg: Config, m: Machine, text: seq<Byte>)
    requires m.phase.StringValue? && |m.buffer| + |text| < cfg.bufferSize
    requires StringScan(m.escape, text) == Some(false)
    ensures Run(cfg, m, text + ['"']) == Emit(m.(buffer := m.buffer + text + ['"']))
    decreases |text|
  {
    if text == [] {
      assert text + ['"'] == ['"'];
      assert ['"'][1..] == [] && m.buffer + text + ['"'] == m.buffer + ['"'];
    } else {
      assert (text + ['"'])[1..] == text[1..] + ['"'];
      assert m.buffer + text + ['"'] == m.buffer + [text[0]] + text[1..] + ['"'];
      RunString(cfg, Consume(cfg, m, text[0]), text[1..]);
    }
  }

  lemma {:induction false} RunLiteral(cfg: Config, m: Machine, text: seq<Byte>)
    requires m.phase.LiteralValue? && text != [] && |m.buffer| + |text| <= cfg.bufferSize
    requires m.literalPos <= |m.literal| && m.literal[m.literalPos..] == text
    ensures Run(cfg, m, text) == Emit(m.(buffer := m.buffer + text))
    decreases |text|
  {
    assert m.buffer + text == m.buffer + [text[0]] + text[1..];
    assert m.literal[m.literalPos] == text[0];
    if text[1..] == [] {
      assert m.buffer + text == m.buffer + [text[0]];
    } else {
      assert m.literal[m.literalPos + 1..] == text[1..];
      RunLiteral(cfg, Consume(cfg, m, text[0]), text[1..]);
    }
  }

  lemma {:induction false} RunNumber(cfg: Config, m: Machine, text: seq<Byte>)
    requires m.phase.NumberValue? && |m.buffer| + |text| <= cfg.bufferSize
    requires forall i :: 0 <= i < |text| ==> IsNumberByte(text[i])
    ensures Run(cfg, m, text) == m.(buffer := m.buffer + text)
    decreases |text|
  {
    assert m.buffer + text == if text == [] then m.buffer else m.buffer + [text[0]] + text[1..];
    if text != [] {
      RunNumber(cfg, Consume(cfg, m, text[0]), text[1..]);
    }
  }

  lemma {:induction false} FrameContainer(cfg: Config, m: Machine, text: seq<Byte>)
    requires Ready(cfg, m) && IsBracketed(text) && |text| <= cfg.bufferSize
    ensures Run(cfg, m, text) == WithMessage(m, text)
  {
    ScansExactlyBracketed(text);
    assert text == [text[0]] + text[1..];
    var m' := m.(phase := Container, buffer := [text[0]], stack := [text[0]]);
    assert Consume(cfg, m, text[0]) == m' by { assert !IsWs(text[0]); }
    RunContainer(cfg, m', text[1..]);
  }

  lemma {:induction false} FrameQuoted(cfg: Config, m: Machine, text: seq<Byte>)
    requires Ready(cfg, m) && IsQuoted(text) && |text| <= cfg.bufferSize
    ensures Run(cfg, m, text) == WithMessage(m, text)
  {
    var items := text[1..|text| - 1];
    QuotedScan(items);
    assert text[1..] == items + ['"'];
    assert [] + ['"'] + items + ['"'] == text;
    RunString(cfg, Consume(cfg, m, '"'), items);
  }

  lemma {:induction false} FrameLiteral(cfg: Config, m: Machine, text: seq<Byte>)
    requires Ready(cfg, m) && IsLiteral(text) && |text| <= cfg.bufferSize
    ensures Run(cfg, m, text) == WithMessage(m, text)
  {
    assert text == [text[0]] + text[1..];
    var m' := m.(phase := LiteralValue, buffer := [text[0]], literal := text, literalPos := 1);
    assert Consume(cfg, m, text[0]) == m' by { assert !IsWs(text[0]) && LiteralFor(text[0]) == text; }
    RunLiteral(cfg, m', text[1..]);
  }

  /** A container, string or literal that fits is emitted the moment its last byte arrives. */
  lemma {:induction false} FrameSelfDelimiting(cfg: Config, m: Machine, text: seq<Byte>)
    requires Ready(cfg, m) && SelfDelimiting(text) && |text| <= cfg.bufferSize
    ensures Run(cfg, m, text) == WithMessage(m, text)
  {
    if IsBracketed(text) {
      FrameContainer(cfg, m, text);
    } else if IsQuoted(text) {
      FrameQuoted(cfg, m, text);
    } else {
      FrameLiteral(cfg, m, text);
    }
  }

  /** A run of number bytes that fits waits in the buffer for the byte that ends it. */
  lemma {:induction false} BufferNumber(cfg: Config, m: Machine, run: seq<Byte>)
    requires Ready(cfg, m) && run != [] && StartsNumber(run[0]) && |run| <= cfg.bufferSize
    requires forall i :: 0 <= i < |run| ==> IsNumberByte(run[i])
    ensures Run(cfg, m, run) == m.(phase := NumberValue, buffer := run)
  {
    var m' := Consume(cfg, m, run[0]);
    assert run == [run[0]] + run[1..];
    RunNumber(cfg, m', run[1..]);
  }

  /** The byte after a maximal run of number bytes settles it: emitted exactly when it is a number. */
  lemma {:induction false} FrameNumberRun(cfg: Config, m: Machine, run: seq<Byte>, rest: seq<Byte>)
    requires Ready(cfg, m) && run != [] && StartsNumber(run[0]) && |run| <= cfg.bufferSize
    requires forall i :: 0 <= i < |run| ==> IsNumberByte(run[i])
    requires rest != [] && !IsNumberByte(rest[0])
    ensures Run(cfg, m, run + rest)
            == Run(cfg, if IsNumber(run) then WithMessage(m, run) else m.(errors := m.errors + 1), rest)
  {
    BufferNumber(cfg, m, run);
    RunConcat(cfg, m, run, rest);
    var waiting := m.(phase := NumberValue, buffer := run);
    var after := if IsNumber(run) then WithMessage(m, run) else m.(errors := m.errors + 1);
    assert (if IsNumber(run) then Emit(waiting) else Fail(waiting)) == after;
  }

  /** A run that does not fit: the byte that overflows is lost and the rest of the run starts afresh. */
  lemma {:induction false} OverlongNumberRun(cfg: Config, m: Machine, run: seq<Byte>, rest: seq<Byte>)
    requires Ready(cfg, m) && run != [] && StartsNumber(run[0]) && |run| > cfg.bufferSize
    requires forall i :: 0 <= i < |run| ==> IsNumberByte(run[i])
    ensures Run(cfg, m, run + rest)
            == Run(cfg, m.(overflows := m.overflows + 1), run[cfg.bufferSize + 1..] + rest)
  {
    var n := cfg.bufferSize;
    BufferNumber(cfg, m, run[..n]);
    RunSnoc(cfg, m, run[..n], run[n]);
    assert run[..n] + [run[n]] == run[..n + 1];
    assert run + rest == run[..n + 1] + (run[n + 1..] + rest);
    RunConcat(cfg, m, run[..n + 1], run[n + 1..] + rest);
  }

  /** The reader, idle, meets a text that fits: it emits that text and is idle again. */
  lemma {:induction false} FrameOne(cfg: Config, m: Machine, text: seq<Byte>, rest: seq<Byte>)
    requires Ready(cfg, m) && IsMessage(text) && |text| <= cfg.bufferSize
    requires IsNumber(text) ==> rest != [] && !IsNumberByte(rest[0])
    ensures Run(cfg, m, text + rest) == Run(cfg, WithMessage(m, text), rest)
  {
    if IsNumber(text) {
      NumberBytes(text);
      FrameNumberRun(cfg, m, text, rest);
    } else {
      FrameSelfDelimiting(cfg, m, text);
      RunConcat(cfg, m, text, rest);
    }
  }

  lemma {:induction false} SkipWs(cfg: Config, m: Machine, ws: seq<Byte>, rest: seq<Byte>)
    requires m.phase.Idle? && cfg.skipLeadingWhitespace
    requires forall i :: 0 <= i < |ws| ==> IsWs(ws[i])
    ensures Run(cfg, m, ws + rest) == Run(cfg, m, rest)
    decreases |ws|
  {
    if ws == [] {
      assert ws + rest == rest;
    } else {
      assert (ws + rest)[1..] == ws[1..] + rest;
      SkipWs(cfg, m, ws[1..], rest);
    }
  }

  // ---- soundness on arbitrary bytes --------------------------------------------------------

  /** The bytes of a half-open range of the input are a complete text that fits; a number reaches up to a byte
      that is no number byte. (It need not begin its run: see LastPiece.) */
  ghost predicate Framed(cfg: Config, input: seq<Byte>, span: (nat, nat), text: seq<Byte>) {
    && span.0 < span.1 <= |input| && input[span.0..span.1] == text && |text| <= cfg.bufferSize
    && (SelfDelimiting(text) || (IsNumber(text) && span.1 < |input| && !IsNumberByte(input[span.1])))
  }

  /** Ranges in order and disjoint, one for each message. */
  ghost predicate Slices(cfg: Config, input: seq<Byte>, spans: seq<(nat, nat)>, messages: seq<seq<Byte>>) {
    && |spans| == |messages|
    && (forall i :: 0 <= i < |spans| ==> Framed(cfg, input, spans[i], messages[i]))
    && (forall i, j {:trigger spans[i], spans[j]} :: 0 <= i < j < |spans| ==> spans[i].1 <= spans[j].0)
  }

  /** A byte that emits nothing: dropped, first of a new buffer, or added to it. */
  predicate Silent(m: Machine, c: Byte, m': Machine) {
    m'.messages == m.messages && (m'.buffer == [] || m'.buffer == [c] || m'.buffer == m.buffer + [c])
  }

  /** A byte that completes the buffered text. */
  ghost predicate Completes(cfg: Config, m: Machine, c: Byte, m': Machine) {
    && m'.messages == m.messages + [m.buffer + [c]] && m'.buffer == []
    && SelfDelimiting(m.buffer + [c]) && |m.buffer| < cfg.bufferSize
  }

  /** A byte that ends the buffered number, and may start the next text. */
  ghost predicate EndsNumber(m: Machine, c: Byte, m': Machine) {
    && m'.messages == m.messages + [m.buffer] && (m'.buffer == [] || m'.buffer == [c])
    && m.buffer != [] && IsNumber(m.buffer) && !IsNumberByte(c)
  }

  ghost predicate StepShape(cfg: Config, m: Machine, c: Byte, m': Machine) {
    Silent(m, c, m') || Completes(cfg, m, c, m') || EndsNumber(m, c, m')
  }

  lemma {:induction false} IdleShape(cfg: Config, m: Machine, c: Byte)
    requires cfg.bufferSize > 0 && m.buffer == [] && m.phase.Idle?
    ensures var m' := FromIdle(cfg, m, c); m'.messages == m.messages && (m'.buffer == [] || m'.buffer == [c])
  {
  }

  lemma {:induction false} ContainerShape(cfg: Config, m: Machine, c: Byte)
    requires Coherent(cfg, m) && m.phase.Container?
    ensures StepShape(cfg, m, c, Consume(cfg, m, c))
  {
    var text := m.buffer + [c];
    assert text[1..] == m.buffer[1..] + [c];
    LexRunSnoc(Opened([m.buffer[0]]), m.buffer[1..], c);
    ScansExactlyBracketed(text);
  }

  lemma {:induction false} StringShape(cfg: Config, m: Machine, c: Byte)
    requires Coherent(cfg, m) && m.phase.StringValue?
    ensures StepShape(cfg, m, c, Consume(cfg, m, c))
  {
    var text := m.buffer + [c];
    assert text[1..|text| - 1] == m.buffer[1..];
    QuotedScan(m.buffer[1..]);
  }

  /** One byte emits at most one message: the buffer with the byte, or a number the byte has ended. */
  lemma {:induction false} ConsumeShape(cfg: Config, m: Machine, c: Byte)
    requires cfg.bufferSize > 0 && Coherent(cfg, m)
    ensures StepShape(cfg, m, c, Consume(cfg, m, c))
  {
    match m.phase
    case Idle => IdleShape(cfg, m, c);
    case Container => ContainerShape(cfg, m, c);
    case StringValue => StringShape(cfg, m, c);
    case NumberValue =>
      if !IsNumberByte(c) {
        IdleShape(cfg, if IsNumber(m.buffer) then Emit(m) else Fail(m), c);
      }
    case LiteralValue => LiteralShape(cfg, m, c);
  }

  lemma {:induction false} LiteralShape(cfg: Config, m: Machine, c: Byte)
    requires Coherent(cfg, m) && m.phase.LiteralValue?
    ensures StepShape(cfg, m, c, Consume(cfg, m, c))
  {
    if m.literal[m.literalPos] == c {
      assert m.literal[..m.literalPos] + [c] == m.literal[..m.literalPos + 1];
    }
  }

  /** The soundness claim about an input and the machine after it. */
  ghost predicate Accounted(cfg: Config, input: seq<Byte>, spans: seq<(nat, nat)>, m: Machine) {
    && Slices(cfg, input, spans, m.messages)
    && |m.buffer| <= |input| && m.buffer == input[|input| - |m.buffer|..]
    && (spans != [] ==> spans[|spans| - 1].1 + |m.buffer| <= |input|)
  }

  /** More input leaves the ranges found so far as they are. */
  lemma {:induction false} MoreInput(cfg: Config, input: seq<Byte>, c: Byte, spans: seq<(nat, nat)>,
                                     messages: seq<seq<Byte>>)
    requires Slices(cfg, input, spans, messages)
    ensures Slices(cfg, input + [c], spans, messages)
  {
    forall i | 0 <= i < |spans|
      ensures Framed(cfg, input + [c], spans[i], messages[i])
    {
      assert Framed(cfg, input, spans[i], messages[i]);
      assert (input + [c])[spans[i].0..spans[i].1] == input[spans[i].0..spans[i].1];
    }
  }

  lemma {:induction false} OneMore(cfg: Config, input: seq<Byte>, spans: seq<(nat, nat)>,
                                   messages: seq<seq<Byte>>, span: (nat, nat), text: seq<Byte>)
    requires Slices(cfg, input, spans, messages) && Framed(cfg, input, span, text)
    requires spans != [] ==> spans[|spans| - 1].1 <= span.0
    ensures Slices(cfg, input, spans + [span], messages + [text])
  {
    forall i | 0 <= i < |spans|
      ensures Framed(cfg, input, (spans + [span])[i], (messages + [text])[i])
    {
      assert Framed(cfg, input, spans[i], messages[i]);
    }
  }

  /** On any input at all: the messages are disjoint slices of it, in order, each one complete, and
      what is still buffered is the end of the input, behind the last message. */
  lemma {:induction false} Sound(cfg: Config, input: seq<Byte>)
    requires cfg.bufferSize > 0
    ensures exists spans :: Accounted(cfg, input, spans, Run(cfg, START, input))
  {
    var spans := FindSpans(cfg, input);
  }

  lemma {:induction false} FindSpans(cfg: Config, input: seq<Byte>) returns (spans: seq<(nat, nat)>)
    requires cfg.bufferSize > 0
    ensures Accounted(cfg, input, spans, Run(cfg, START, input))
    decreases |input|
  {
    if input == [] {
      spans := [];
    } else {
      var n := |input| - 1;
      var before, c := input[..n], input[n];
      assert input == before + [c];
      var found := FindSpans(cfg, before);
      RunSnoc(cfg, START, before, c);
      RunCoherent(cfg, START, before);
      var m := Run(cfg, START, before);
      ConsumeShape(cfg, m, c);
      spans := SoundStep(cfg, before, found, m, c, Consume(cfg, m, c));
    }
  }

  /** The buffer after a byte is again the end of the input. */
  lemma {:induction false} TailAfter(input: seq<Byte>, buffer: seq<Byte>, c: Byte, buffer': seq<Byte>)
    requires |buffer| <= |input| && buffer == input[|input| - |buffer|..]
    requires buffer' == [] || buffer' == [c] || buffer' == buffer + [c]
    ensures |buffer'| <= |input| + 1 && buffer' == (input + [c])[|input| + 1 - |buffer'|..]
    ensures (input + [c])[|input| - |buffer|..|input|] == buffer
    ensures (input + [c])[|input| - |buffer|..|input| + 1] == buffer + [c]
  {
  }

  lemma {:induction false} SoundStep(cfg: Config, input: seq<Byte>, spans: seq<(nat, nat)>, m: Machine,
                                     c: Byte, m': Machine)
    returns (spans': seq<(nat, nat)>)
    requires Accounted(cfg, input, spans, m) && |m.buffer| <= cfg.bufferSize && StepShape(cfg, m, c, m')
    ensures Accounted(cfg, input + [c], spans', m')
  {
    hide SelfDelimiting, IsNumber;
    var n := |input|;
    var k := n - |m.buffer|;
    MoreInput(cfg, input, c, spans, m.messages);
    TailAfter(input, m.buffer, c, m'.buffer);
    if Silent(m, c, m') {
      spans' := spans;
    } else if Completes(cfg, m, c, m') {
      OneMore(cfg, input + [c], spans, m.messages, (k, n + 1), m.buffer + [c]);
      spans' := spans + [(k, n + 1)];
    } else {
      OneMore(cfg, input + [c], spans, m.messages, (k, n), m.buffer);
      spans' := spans + [(k, n)];
    }
  }

  // ---- what exactly gets through -----------------------------------------------------------

  /** Fed one text from Idle, the reader emits just that text exactly when it is a container, string or
      literal that fits. */
  lemma {:induction false} FramedExactly(cfg: Config, text: seq<Byte>)
    requires cfg.bufferSize > 0
    ensures Run(cfg, START, text) == START.(messages := [text]) <==> SelfDelimiting(text) && |text| <= cfg.bufferSize
  {
    if SelfDelimiting(text) && |text| <= cfg.bufferSize {
      FrameSelfDelimiting(cfg, START, text);
      assert [] + [text] == [text];
    }
    if Run(cfg, START, text) == START.(messages := [text]) {
      var spans := FindSpans(cfg, text);
      assert Framed(cfg, text, spans[0], text);
    }
  }

  lemma ConsumeIdle(cfg: Config, m: Machine, c: Byte)
    requires m.phase.Idle?
    ensures Consume(cfg, m, c) == FromIdle(cfg, m, c)
  {
  }

  /** The part of a run of number bytes that the reader has buffered when the run ends: a byte that cannot
      start a number is dropped, and so is what fills the buffer together with the byte that overflows it. */
  function LastPiece(size: nat, run: seq<Byte>): seq<Byte>
    decreases |run|
  {
    if run == [] then []
    else if !StartsNumber(run[0]) then LastPiece(size, run[1..])
    else if |run| <= size then run
    else LastPiece(size, run[size + 1..])
  }

  /** Every run of number bytes, of whatever length and from whatever first byte, yields at most one message:
      its last piece, if that is a number. */
  lemma {:induction false} RunYieldsLastPiece(cfg: Config, m: Machine, run: seq<Byte>, c: Byte)
    requires Ready(cfg, m) && !IsNumberByte(c) && forall i :: 0 <= i < |run| ==> IsNumberByte(run[i])
    ensures var last := LastPiece(cfg.bufferSize, run);
            Run(cfg, m, run + [c]).messages == m.messages + (if IsNumber(last) then [last] else [])
    decreases |run|
  {
    hide IsNumber, Consume;
    var n := cfg.bufferSize;
    if run == [] {
      assert run + [c] == [c];
      EmptyIsNoNumber();
      LastByte(cfg, m, c);
    } else if !StartsNumber(run[0]) {
      RunYieldsLastPiece(cfg, m.(errors := m.errors + 1), run[1..], c);
      assert run + [c] == [run[0]] + (run[1..] + [c]);
      NoStartIsError(cfg, m, run[0]);
    } else if |run| <= n {
      FrameNumberRun(cfg, m, run, [c]);
      LastByte(cfg, if IsNumber(run) then WithMessage(m, run) else m.(errors := m.errors + 1), c);
    } else {
      OverlongNumberRun(cfg, m, run, [c]);
      RunYieldsLastPiece(cfg, m.(overflows := m.overflows + 1), run[n + 1..], c);
    }
  }

  lemma EmptyIsNoNumber()
    ensures !IsNumber([])
  {
  }

  lemma {:induction false} LastByte(cfg: Config, m: Machine, c: Byte)
    requires Ready(cfg, m)
    ensures Run(cfg, m, [c]).messages == m.messages
  {
    hide Consume;
    assert [c][1..] == [] && m.messages + [] == m.messages;
    ConsumeIdle(cfg, m, c);
    IdleShape(cfg, m, c);
    assert Run(cfg, m, [c]) == Consume(cfg, m, c);
  }

  lemma NoStartIsError(cfg: Config, m: Machine, c: Byte)
    requires Ready(cfg, m) && IsNumberByte(c) && !StartsNumber(c)
    ensures Consume(cfg, m, c) == m.(errors := m.errors + 1)
  {
  }

  /** So a run gives what it should, itself when it is a number that fits and otherwise nothing, exactly when
      its last piece is the run itself or no number. */
  lemma {:induction false} NothingSpurious(cfg: Config, m: Machine, run: seq<Byte>, c: Byte)
    requires Ready(cfg, m) && !IsNumberByte(c) && forall i :: 0 <= i < |run| ==> IsNumberByte(run[i])
    ensures var last := LastPiece(cfg.bufferSize, run);
            Run(cfg, m, run + [c]).messages
              == m.messages + (if IsNumber(run) && |run| <= cfg.bufferSize then [run] else [])
            <==> last == run || !IsNumber(last)
  {
    var n := cfg.bufferSize;
    var last := LastPiece(n, run);
    RunYieldsLastPiece(cfg, m, run, c);
    PieceFits(n, run);
    if IsNumber(run) {
      NumberBytes(run);
    }
    hide IsNumber, Run, LastPiece;
    var k := |m.messages|;
    assert IsNumber(last) ==> (m.messages + [last])[k] == last;
    assert (m.messages + [run])[k] == run;
  }

  lemma {:induction false} PieceFits(size: nat, run: seq<Byte>)
    ensures |LastPiece(size, run)| <= size && |LastPiece(size, run)| <= |run|
    decreases |run|
  {
    if run != [] {
      if !StartsNumber(run[0]) {
        PieceFits(size, run[1..]);
      } else if |run| > size {
        PieceFits(size, run[size + 1..]);
      }
    }
  }

  /** A run comes out as a message itself exactly when it fits and is a number. */
  lemma {:induction false} NumberEmittedExactly(cfg: Config, run: seq<Byte>, c: Byte)
    requires cfg.bufferSize > 0 && run != [] && StartsNumber(run[0]) && !IsNumberByte(c)
    requires forall i :: 0 <= i < |run| ==> IsNumberByte(run[i])
    ensures run in Run(cfg, START, run + [c]).messages <==> IsNumber(run) && |run| <= cfg.bufferSize
  {
    RunYieldsLastPiece(cfg, START, run, c);
    PieceFits(cfg.bufferSize, run);
    hide Run, IsNumber;
  }

  /** A number that was never sent: with three bytes of buffer, "12345 " yields the message "5". */
  lemma {:induction false} OverlongNumberLeavesItsTail()
    ensures Run(Config(3, true), START, "12345 ") == START.(messages := ["5"], overflows := 1)
  {
    hide Run, Consume;
    var cfg := Config(3, true);
    OverlongNumberRun(cfg, START, "12345", " ");
    assert "12345"[4..] == "5" && "12345" + " " == "12345 ";
    FiveThenSpace(cfg, START.(overflows := 1));
  }

  lemma {:induction false} FiveThenSpace(cfg: Config, m: Machine)
    requires Ready(cfg, m) && cfg.skipLeadingWhitespace && m.messages == []
    ensures Run(cfg, m, "5" + " ") == m.(messages := ["5"])
  {
    assert NumberParts("5", [], "5", [], []);
    FrameNumberRun(cfg, m, "5", " ");
    assert " " + [] == " " && [] + ["5"] == ["5"];
    SkipWs(cfg, WithMessage(m, "5"), " ", []);
  }

  // ---- what is refused ---------------------------------------------------------------------

  lemma {:induction false} RunOpenContainer(cfg: Config, m: Machine, text: seq<Byte>, l: Lex)
    requires m.phase.Container? && |m.buffer| + |text| <= cfg.bufferSize && l.stack != []
    requires LexRun(LexOf(m), text) == Some(l)
    ensures Run(cfg, m, text) == WithLex(m.(buffer := m.buffer + text), l)
    decreases |text|
  {
    assert m.buffer + text == if text == [] then m.buffer else m.buffer + [text[0]] + text[1..];
    if text != [] {
      var l' := LexStep(LexOf(m), text[0]).value;
      if text[1..] != [] {
        StillOpen(l', text[1..]);
      }
      RunOpenContainer(cfg, Consume(cfg, m, text[0]), text[1..], l);
    }
  }

  /** The reader inside a container that is still open after `text`. */
  lemma {:induction false} BufferContainer(cfg: Config, m: Machine, text: seq<Byte>, l: Lex)
    requires Ready(cfg, m) && text != [] && IsOpener(text[0]) && |text| <= cfg.bufferSize
    requires LexRun(Opened([text[0]]), text[1..]) == Some(l) && l.stack != []
    ensures Run(cfg, m, text) == WithLex(m.(phase := Container, buffer := text), l)
  {
    assert text == [text[0]] + text[1..];
    var m' := m.(phase := Container, buffer := [text[0]], stack := [text[0]]);
    assert Consume(cfg, m, text[0]) == m' by { assert !IsWs(text[0]); }
    RunOpenContainer(cfg, m', text[1..], l);
  }

  /** The first closer that does not fit costs the container: one protocol error, nothing emitted, and the
      reader is idle again behind that closer. */
  lemma {:induction false} MismatchIsOneError(cfg: Config, m: Machine, text: seq<Byte>, l: Lex, c: Byte)
    requires Ready(cfg, m) && text != [] && IsOpener(text[0]) && |text| < cfg.bufferSize
    requires LexRun(Opened([text[0]]), text[1..]) == Some(l) && l.stack != []
    requires !l.inString && IsCloser(c) && c != CloserOf(l.stack[|l.stack| - 1])
    ensures Run(cfg, m, text + [c]) == m.(errors := m.errors + 1)
  {
    BufferContainer(cfg, m, text, l);
    RunSnoc(cfg, m, text, c);
  }

  /** A container that is still open when the buffer is full: one overflow, nothing emitted, idle again
      behind the byte that did not fit. */
  lemma {:induction false} OverlongContainerIsOneOverflow(cfg: Config, m: Machine, text: seq<Byte>, l: Lex, c: Byte)
    requires Ready(cfg, m) && |text| == cfg.bufferSize && IsOpener(text[0])
    requires LexRun(Opened([text[0]]), text[1..]) == Some(l) && l.stack != []
    ensures Run(cfg, m, text + [c]) == m.(overflows := m.overflows + 1)
  {
    BufferContainer(cfg, m, text, l);
    RunSnoc(cfg, m, text, c);
  }

  /** From Idle, a byte that starts no text is one protocol error; whitespace is one only if it is not skipped. */
  lemma BadStartIsOneError(cfg: Config, m: Machine, c: Byte)
    requires Ready(cfg, m)
    ensures Consume(cfg, m, c) == m.(errors := m.errors + 1) <==>
              !IsOpener(c) && c != '"' && !StartsNumber(c) && c != 't' && c != 'f' && c != 'n'
              && (IsWs(c) ==> !cfg.skipLeadingWhitespace)
  {
  }
}
