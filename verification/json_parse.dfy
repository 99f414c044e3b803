/**
 What JsonProtocolReader makes of any bytes at all: a whole-input definition that cuts one piece after another off
 the front, told apart by which texts are complete and which can still be completed.
 */
module JsonParse {
  import opened Bytes
  import opened JsonNumber
  import opened JsonBrackets
  import opened JsonMachine
  import opened JsonFraming

  /** The beginning of a container, string or literal. */
  predicate Starter(c: Byte) {
    IsOpener(c) || c == '"' || LiteralFor(c) != []
  }

  /** Not complete, but some more bytes would complete it. */
  ghost predicate Alive(text: seq<Byte>) {
    exists more: seq<Byte> :: more != [] && SelfDelimiting(text + more)
  }

  // ---- the definition ----------------------------------------------------------------------

  datatype Kind = Blank | Stray | Text | Number | Broken | TooLong | Unfinished

  predicate NumberBytesOnly(text: seq<Byte>) {
    text != [] && StartsNumber(text[0]) && forall i :: 0 <= i < |text| ==> IsNumberByte(text[i])
  }

  /** The first n bytes of the input are a piece of this kind. A text or broken text is cut at the byte that
      completes it or makes it hopeless, a number at the end of its run, and both where the buffer overflows. A
      literal's byte is compared before there is found to be no room for it. */
  ghost predicate IsPiece(cfg: Config, input: seq<Byte>, kind: Kind, n: nat) {
    1 <= n <= |input| &&
    var b, text := cfg.bufferSize, input[..n];
    match kind
    case Blank => n == 1 && cfg.skipLeadingWhitespace && IsWs(input[0])
    case Stray =>
      n == 1 && !Starter(input[0]) && !StartsNumber(input[0]) && !(cfg.skipLeadingWhitespace && IsWs(input[0]))
    case Text => n <= b && SelfDelimiting(text)
    case Number => n <= b && NumberBytesOnly(text) && n < |input| && !IsNumberByte(input[n])
    case Broken =>
      && 1 < n <= b + (if LiteralFor(input[0]) != [] then 1 else 0)
      && Alive(input[..n - 1]) && !Alive(text) && !SelfDelimiting(text)
    case TooLong =>
      && n == b + 1
      && (NumberBytesOnly(text)
          || (Alive(input[..b]) && (LiteralFor(input[0]) != [] ==> Alive(text) || SelfDelimiting(text))))
    case Unfinished => n == |input| <= b && (NumberBytesOnly(text) || Alive(text))
  }

  /** What can be seen of the reader: what it has done, and what it has buffered. */
  datatype Parsed = Parsed(messages: seq<seq<Byte>>, overflows: nat, errors: nat, buffer: seq<Byte>)

  function Seen(m: Machine): Parsed {
    Parsed(m.messages, m.overflows, m.errors, m.buffer)
  }

  ghost function Done(p: Parsed, kind: Kind, text: seq<Byte>): Parsed {
    match kind
    case Blank => p
    case Stray => p.(errors := p.errors + 1)
    case Text => p.(messages := p.messages + [text])
    case Number => if IsNumber(text) then p.(messages := p.messages + [text]) else p.(errors := p.errors + 1)
    case Broken => p.(errors := p.errors + 1)
    case TooLong => p.(overflows := p.overflows + 1)
    case Unfinished => p.(buffer := text)
  }

  /** The piece an input begins with. */
  ghost function FirstPiece(cfg: Config, input: seq<Byte>): (r: (Kind, nat))
    requires cfg.bufferSize > 0 && input != []
    ensures IsPiece(cfg, input, r.0, r.1)
  {
    SomePiece(cfg, input);
    var kind: Kind, n: nat :| IsPiece(cfg, input, kind, n);
    (kind, n)
  }

  /** Cut off a piece, do what it asks for, go on with the rest. */
  ghost function JsonParse(cfg: Config, p: Parsed, input: seq<Byte>): Parsed
    requires cfg.bufferSize > 0
    decreases |input|
  {
    if input == [] then p
    else
      var (kind, n) := FirstPiece(cfg, input);
      JsonParse(cfg, Done(p, kind, input[..n]), input[n..])
  }

  // ---- complete and completable texts ------------------------------------------------------

  lemma {:induction false} FirstByte(text: seq<Byte>)
    requires SelfDelimiting(text)
    ensures text != [] && Starter(text[0])
    ensures IsOpener(text[0]) ==> ScansClosed(text)
    ensures text[0] == '"' ==> IsQuoted(text)
    ensures LiteralFor(text[0]) != [] ==> text == LiteralFor(text[0])
  {
    ScansExactlyBracketed(text);
  }

  lemma {:induction false} AlivePrefix(text: seq<Byte>, n: nat)
    requires Alive(text) && n <= |text|
    ensures Alive(text[..n])
  {
    var more :| more != [] && SelfDelimiting(text + more);
    assert text[..n] + (text[n..] + more) == text + more;
  }

  function Closers(stack: seq<Byte>): seq<Byte> {
    if stack == [] then [] else [CloserOf(stack[|stack| - 1])] + Closers(stack[..|stack| - 1])
  }

  lemma {:induction false} CloseAll(stack: seq<Byte>)
    ensures LexRun(Opened(stack), Closers(stack)) == Some(Opened([]))
  {
    if stack != [] {
      CloseAll(stack[..|stack| - 1]);
      assert Closers(stack)[1..] == Closers(stack[..|stack| - 1]);
    }
  }

  /** What ends a string that is open, with an escape pending or not. */
  function Unquote(escape: bool): seq<Byte> {
    if escape then "x\"" else "\""
  }

  lemma UnquoteScans(escape: bool, text: seq<Byte>)
    requires StringScan(false, text) == Some(escape)
    ensures IsQuoted(['"'] + text + Unquote(escape))
  {
    var inner := if escape then text + ['x'] else text;
    StringScanSnoc(false, text, 'x');
    QuotedScan(inner);
    var all := ['"'] + text + Unquote(escape);
    assert all[1..|all| - 1] == inner;
  }

  lemma {:induction false} OpenStringAlive(text: seq<Byte>)
    requires text != [] && text[0] == '"' && StringScan(false, text[1..]).Some?
    ensures Alive(text)
  {
    var escape := StringScan(false, text[1..]).value;
    UnquoteScans(escape, text[1..]);
    assert text == ['"'] + text[1..];
    assert SelfDelimiting(text + Unquote(escape));
  }

  lemma LexUnquote(l: Lex)
    requires l.stack != [] && l.inString
    ensures LexRun(l, Unquote(l.escape)) == Some(Opened(l.stack))
  {
    var quote: seq<Byte> := "\"";
    assert quote[1..] == [] && LexRun(l.(escape := false), quote) == Some(Opened(l.stack));
    assert l.escape ==> Unquote(true)[1..] == quote && LexStep(l, 'x') == Some(l.(escape := false));
  }

  /** Whatever is open can be closed. */
  lemma {:induction false} CloseLex(l: Lex) returns (more: seq<Byte>)
    requires l.stack != [] && (l.escape ==> l.inString)
    ensures more != [] && LexRun(l, more) == Some(Opened([]))
  {
    CloseAll(l.stack);
    more := Closers(l.stack);
    if l.inString {
      LexUnquote(l);
      LexRunConcat(l, Unquote(l.escape), Closers(l.stack));
      more := Unquote(l.escape) + Closers(l.stack);
    }
  }

  /** As long as a bracket is open and none has been misplaced, a container can be completed. */
  lemma {:induction false} OpenContainerAlive(text: seq<Byte>, l: Lex)
    requires text != [] && IsOpener(text[0]) && LexRun(Opened([text[0]]), text[1..]) == Some(l)
    requires l.stack != [] && (l.escape ==> l.inString)
    ensures Alive(text)
  {
    var more := CloseLex(l);
    LexRunConcat(Opened([text[0]]), text[1..], more);
    hide LexRun, IsBracketed, IsQuoted, LexStep;
    assert (text + more)[1..] == text[1..] + more;
    ScansExactlyBracketed(text + more);
  }

  lemma {:induction false} AliveContainer(text: seq<Byte>)
    requires Alive(text) && text != [] && IsOpener(text[0])
    ensures var l := LexRun(Opened([text[0]]), text[1..]); l.Some? && l.value.stack != []
  {
    var more :| more != [] && SelfDelimiting(text + more);
    FirstByte(text + more);
    assert (text + more)[1..] == text[1..] + more;
    LexRunConcat(Opened([text[0]]), text[1..], more);
    StillOpen(LexRun(Opened([text[0]]), text[1..]).value, more);
  }

  lemma {:induction false} AliveLiteral(text: seq<Byte>)
    requires text != [] && LiteralFor(text[0]) != []
    ensures Alive(text) <==> |text| < |LiteralFor(text[0])| && text == LiteralFor(text[0])[..|text|]
    ensures SelfDelimiting(text) <==> text == LiteralFor(text[0])
  {
    var literal := LiteralFor(text[0]);
    if Alive(text) {
      var more :| more != [] && SelfDelimiting(text + more);
      FirstByte(text + more);
      assert text + more == literal;
    }
    if |text| < |literal| && text == literal[..|text|] {
      assert text + literal[|text|..] == literal && SelfDelimiting(literal);
    }
    if SelfDelimiting(text) {
      FirstByte(text);
    }
  }

  lemma {:induction false} StarterAlive(c: Byte)
    requires Starter(c)
    ensures Alive([c]) && !SelfDelimiting([c])
  {
    if IsOpener(c) {
      OpenContainerAlive([c], Opened([c]));
    } else if c == '"' {
      OpenStringAlive([c]);
    } else {
      AliveLiteral([c]);
    }
    if SelfDelimiting([c]) {
      FirstByte([c]);
    }
  }

  /** A text that is alive begins like one that is complete. */
  lemma {:induction false} AliveStarts(text: seq<Byte>)
    requires Alive(text) && text != []
    ensures Starter(text[0])
  {
    var more :| more != [] && SelfDelimiting(text + more);
    FirstByte(text + more);
  }

  // ---- every input begins with a piece -----------------------------------------------------

  lemma {:induction false} RunLength(input: seq<Byte>, k: nat) returns (n: nat)
    requires 1 <= k <= |input| && NumberBytesOnly(input[..k])
    ensures k <= n <= |input| && NumberBytesOnly(input[..n]) && (n < |input| ==> !IsNumberByte(input[n]))
    decreases |input| - k
  {
    if k == |input| || !IsNumberByte(input[k]) {
      n := k;
    } else {
      assert input[..k + 1] == input[..k] + [input[k]];
      n := RunLength(input, k + 1);
    }
  }

  /** How far, up to a limit, a text stays alive. */
  lemma {:induction false} AliveLength(input: seq<Byte>, limit: nat, k: nat) returns (n: nat)
    requires 1 <= k <= limit <= |input| && Alive(input[..k])
    ensures k <= n <= limit && Alive(input[..n]) && (n < limit ==> !Alive(input[..n + 1]))
    decreases limit - k
  {
    if k == limit || !Alive(input[..k + 1]) {
      n := k;
    } else {
      n := AliveLength(input, limit, k + 1);
    }
  }

  lemma {:induction false} SomePiece(cfg: Config, input: seq<Byte>)
    requires cfg.bufferSize > 0 && input != []
    ensures exists kind, n: nat :: IsPiece(cfg, input, kind, n)
  {
    var b, c := cfg.bufferSize, input[0];
    assert input[..1] == [c];
    if cfg.skipLeadingWhitespace && IsWs(c) {
      assert IsPiece(cfg, input, Blank, 1);
    } else if StartsNumber(c) {
      SomeNumber(cfg, input);
    } else if Starter(c) {
      StarterAlive(c);
      SomeText(cfg, input);
    } else {
      assert IsPiece(cfg, input, Stray, 1);
    }
  }

  lemma {:induction false} SomeNumber(cfg: Config, input: seq<Byte>)
    requires cfg.bufferSize > 0 && input != [] && StartsNumber(input[0])
    ensures exists kind, n: nat :: IsPiece(cfg, input, kind, n)
  {
    var b := cfg.bufferSize;
    assert input[..1] == [input[0]];
    var n := RunLength(input, 1);
    if n > b {
      assert forall i :: 0 <= i < b + 1 ==> input[..b + 1][i] == input[..n][i];
      assert IsPiece(cfg, input, TooLong, b + 1);
    } else if n == |input| {
      assert IsPiece(cfg, input, Unfinished, n);
    } else {
      assert IsPiece(cfg, input, Number, n);
    }
  }

  lemma {:induction false} SomeText(cfg: Config, input: seq<Byte>)
    requires cfg.bufferSize > 0 && input != [] && Starter(input[0]) && Alive(input[..1])
    ensures exists kind, n: nat :: IsPiece(cfg, input, kind, n)
  {
    hide Alive, SelfDelimiting;
    var b := cfg.bufferSize;
    var limit := Min(b, |input|);
    var n := AliveLength(input, limit, 1);
    if n < limit {
      if SelfDelimiting(input[..n + 1]) {
        assert IsPiece(cfg, input, Text, n + 1);
      } else {
        assert IsPiece(cfg, input, Broken, n + 1);
      }
    } else if |input| <= b {
      assert IsPiece(cfg, input, Unfinished, n);
    } else if LiteralFor(input[0]) != [] && !Alive(input[..b + 1]) && !SelfDelimiting(input[..b + 1]) {
      assert IsPiece(cfg, input, Broken, b + 1);
    } else {
      assert IsPiece(cfg, input, TooLong, b + 1);
    }
  }

  // ---- the machine inside a text -----------------------------------------------------------

  /** The machine, idle as m before, has a text in its buffer that may still be completed. */
  predicate Within(cfg: Config, m: Machine, s: Machine, text: seq<Byte>) {
    && cfg.bufferSize > 0 && Coherent(cfg, s) && !s.phase.Idle? && !s.phase.NumberValue?
    && text != [] && Seen(s) == Seen(m).(buffer := text)
  }

  lemma {:induction false} ContainerNext(cfg: Config, m: Machine, s: Machine, text: seq<Byte>, c: Byte)
    requires Within(cfg, m, s, text) && s.phase.Container? && |text| < cfg.bufferSize
    ensures var s' := Consume(cfg, s, c);
            if Alive(text + [c]) then Within(cfg, m, s', text + [c])
            else SelfDelimiting(text + [c]) || s' == Fail(s)
  {
    var t := text + [c];
    assert t[1..] == text[1..] + [c];
    LexRunSnoc(Opened([text[0]]), text[1..], c);
    ConsumeCoherent(cfg, s, c);
    var step := LexStep(LexOf(s), c);
    if Alive(t) {
      AliveContainer(t);
    } else if step.Some? {
      if step.value.stack == [] {
        ScansExactlyBracketed(t);
      } else {
        OpenContainerAlive(t, step.value);
      }
    }
  }

  lemma {:induction false} StringNext(cfg: Config, m: Machine, s: Machine, text: seq<Byte>, c: Byte)
    requires Within(cfg, m, s, text) && s.phase.StringValue? && |text| < cfg.bufferSize
    ensures var s' := Consume(cfg, s, c);
            if Alive(text + [c]) then Within(cfg, m, s', text + [c])
            else SelfDelimiting(text + [c]) || s' == Fail(s)
  {
    var t := text + [c];
    assert t[1..] == text[1..] + [c];
    StringScanSnoc(false, text[1..], c);
    ConsumeCoherent(cfg, s, c);
    if !s.escape && c == '"' {
      assert t[1..|t| - 1] == text[1..];
      QuotedScan(text[1..]);
      assert SelfDelimiting(t);
      CompleteIsNotAlive(t);
    } else {
      OpenStringAlive(t);
    }
  }

  /** A quoted string cannot be continued to a longer one. */
  lemma {:induction false} CompleteIsNotAlive(text: seq<Byte>)
    requires IsQuoted(text)
    ensures !Alive(text)
  {
    if Alive(text) {
      var more :| more != [] && SelfDelimiting(text + more);
      FirstByte(text + more);
      var items := (text + more)[1..|text + more| - 1];
      QuotedScan(items);
      QuotedScan(text[1..|text| - 1]);
      assert items == text[1..|text| - 1] + ['"'] + more[..|more| - 1];
      ScanStops(text[1..|text| - 1], more[..|more| - 1]);
    }
  }

  lemma {:induction false} ScanStops(a: seq<Byte>, b: seq<Byte>)
    requires StringScan(false, a) == Some(false)
    ensures StringScan(false, a + ['"'] + b) == None
  {
    ScanStopsFrom(false, a, b);
  }

  lemma {:induction false} ScanStopsFrom(escape: bool, a: seq<Byte>, b: seq<Byte>)
    requires StringScan(escape, a) == Some(false)
    ensures StringScan(escape, a + ['"'] + b) == None
    decreases |a|
  {
    var all := a + ['"'] + b;
    if a != [] {
      assert all[1..] == a[1..] + ['"'] + b;
      ScanStopsFrom(!escape && a[0] == '\\', a[1..], b);
    }
  }

  lemma {:induction false} LiteralNext(cfg: Config, m: Machine, s: Machine, text: seq<Byte>, c: Byte)
    requires Within(cfg, m, s, text) && s.phase.LiteralValue?
    ensures var s' := Consume(cfg, s, c);
            && LiteralFor(text[0]) != []
            && if Alive(text + [c]) || SelfDelimiting(text + [c]) then
                 if |text| >= cfg.bufferSize then s' == Overflow(s)
                 else Alive(text + [c]) ==> Within(cfg, m, s', text + [c])
               else s' == Fail(s)
  {
    var t, literal := text + [c], s.literal;
    assert text[0] == literal[0] && literal == LiteralFor(text[0]) && t[0] == text[0];
    ConsumeCoherent(cfg, s, c);
    AliveLiteral(t);
    assert literal[..|t|] == literal[..|text|] + [literal[|text|]];
    assert |t| == |literal| ==> literal[..|t|] == literal;
  }

  lemma {:induction false} Started(cfg: Config, m: Machine, c: Byte)
    requires Ready(cfg, m) && Starter(c)
    ensures Within(cfg, m, Consume(cfg, m, c), [c])
  {
    ConsumeCoherent(cfg, m, c);
    assert [] + [c] == [c];
  }

  /** A text that is alive and fits is in the buffer. */
  lemma {:induction false} Held(cfg: Config, m: Machine, text: seq<Byte>)
    requires Ready(cfg, m) && text != [] && Alive(text) && |text| <= cfg.bufferSize
    ensures Within(cfg, m, Run(cfg, m, text), text)
    decreases |text|
  {
    AliveStarts(text);
    var n := |text| - 1;
    var c := text[n];
    assert text == text[..n] + [c];
    RunSnoc(cfg, m, text[..n], c);
    hide Alive, Starter;
    if n == 0 {
      assert Run(cfg, m, []) == m;
      hide Run, Consume, Within;
      Started(cfg, m, c);
      assert text == [c];
    } else {
      AlivePrefix(text, n);
      Held(cfg, m, text[..n]);
      hide Run, Consume;
      HeldNext(cfg, m, Run(cfg, m, text[..n]), text[..n], c);
    }
  }

  lemma {:induction false} HeldNext(cfg: Config, m: Machine, s: Machine, text: seq<Byte>, c: Byte)
    requires Within(cfg, m, s, text) && |text| < cfg.bufferSize
    ensures var s' := Consume(cfg, s, c);
            if Alive(text + [c]) then Within(cfg, m, s', text + [c])
            else SelfDelimiting(text + [c]) || s' == Fail(s)
  {
    match s.phase {
      case Container => ContainerNext(cfg, m, s, text, c);
      case StringValue => StringNext(cfg, m, s, text, c);
      case LiteralValue => LiteralNext(cfg, m, s, text, c);
    }
  }

  // ---- one piece ---------------------------------------------------------------------------

  /** The machine has dealt with a piece and is idle again. */
  ghost predicate Dealt(cfg: Config, m: Machine, kind: Kind, text: seq<Byte>, m': Machine) {
    Ready(cfg, m') && Seen(m') == Done(Seen(m), kind, text)
  }

  lemma {:induction false} BrokenPiece(cfg: Config, m: Machine, input: seq<Byte>, n: nat)
    requires Ready(cfg, m) && IsPiece(cfg, input, Broken, n)
    ensures Dealt(cfg, m, Broken, input[..n], Run(cfg, m, input[..n]))
  {
    var text, c := input[..n - 1], input[n - 1];
    assert input[..n] == text + [c];
    hide Alive, SelfDelimiting;
    Held(cfg, m, text);
    RunSnoc(cfg, m, text, c);
    var s := Run(cfg, m, text);
    hide Run, Consume;
    if s.phase.LiteralValue? {
      LiteralNext(cfg, m, s, text, c);
    } else {
      NotLiteral(cfg, m, s, text);
      HeldNext(cfg, m, s, text, c);
    }
  }

  lemma NotLiteral(cfg: Config, m: Machine, s: Machine, text: seq<Byte>)
    requires Within(cfg, m, s, text)
    ensures s.phase.LiteralValue? <==> LiteralFor(text[0]) != []
  {
    assert s.phase.LiteralValue? ==> text[0] == s.literal[0];
  }

  lemma {:induction false} LongPiece(cfg: Config, m: Machine, input: seq<Byte>, n: nat)
    requires Ready(cfg, m) && IsPiece(cfg, input, TooLong, n) && !NumberBytesOnly(input[..n])
    ensures Dealt(cfg, m, TooLong, input[..n], Run(cfg, m, input[..n]))
  {
    var text, c := input[..n - 1], input[n - 1];
    assert input[..n] == text + [c];
    hide Alive, SelfDelimiting;
    Held(cfg, m, text);
    RunSnoc(cfg, m, text, c);
    var s := Run(cfg, m, text);
    NotLiteral(cfg, m, s, text);
    if s.phase.LiteralValue? {
      hide Run, Consume;
      LiteralNext(cfg, m, s, text, c);
    } else {
      hide Run;
      assert Consume(cfg, s, c) == Overflow(s);
    }
  }

  /** Each piece takes the machine from idle to idle with what it asks for done, but for the last one. */
  lemma {:induction false} PieceRuns(cfg: Config, m: Machine, input: seq<Byte>, kind: Kind, n: nat)
    returns (m': Machine)
    requires Ready(cfg, m) && IsPiece(cfg, input, kind, n)
    ensures Run(cfg, m, input) == Run(cfg, m', input[n..]) && Seen(m') == Done(Seen(m), kind, input[..n])
    ensures Ready(cfg, m') || input[n..] == []
  {
    var text, rest := input[..n], input[n..];
    assert input == text + rest;
    if NumberBytesOnly(text) && !kind.Blank? && !kind.Stray? && !kind.Text? {
      m' := NumberPiece(cfg, m, input, kind, n);
    } else {
      RunConcat(cfg, m, text, rest);
      m' := Run(cfg, m, text);
      match kind {
        case Blank => OneByte(cfg, m, input[0]);
        case Stray => OneByte(cfg, m, input[0]);
        case Text => FrameSelfDelimiting(cfg, m, text);
        case Number => assert false;
        case Broken => BrokenPiece(cfg, m, input, n);
        case TooLong => LongPiece(cfg, m, input, n);
        case Unfinished => Held(cfg, m, text);
      }
    }
  }

  lemma OneByte(cfg: Config, m: Machine, c: Byte)
    requires Ready(cfg, m) && !Starter(c) && !StartsNumber(c)
    ensures Run(cfg, m, [c]) == if cfg.skipLeadingWhitespace && IsWs(c) then m else m.(errors := m.errors + 1)
  {
    assert [c][1..] == [];
    assert Run(cfg, m, [c]) == Consume(cfg, m, c);
  }

  lemma {:induction false} NumberPiece(cfg: Config, m: Machine, input: seq<Byte>, kind: Kind, n: nat)
    returns (m': Machine)
    requires Ready(cfg, m) && IsPiece(cfg, input, kind, n) && NumberBytesOnly(input[..n])
    requires !kind.Blank? && !kind.Stray? && !kind.Text?
    ensures Run(cfg, m, input) == Run(cfg, m', input[n..]) && Seen(m') == Done(Seen(m), kind, input[..n])
    ensures Ready(cfg, m') || input[n..] == []
  {
    var text, rest := input[..n], input[n..];
    assert input == text + rest;
    match kind {
      case Number =>
        FrameNumberRun(cfg, m, text, rest);
        m' := if IsNumber(text) then WithMessage(m, text) else m.(errors := m.errors + 1);
      case TooLong =>
        OverlongNumberRun(cfg, m, text, rest);
        m' := m.(overflows := m.overflows + 1);
        assert text[cfg.bufferSize + 1..] + rest == rest;
      case Unfinished =>
        BufferNumber(cfg, m, text);
        m' := m.(phase := NumberValue, buffer := text);
        assert input == text;
      case Broken =>
        AliveStarts(input[..n - 1]);
        assert false;
    }
  }

  /** On every input the reader's messages, counts and buffer are those of the whole-input definition. */
  lemma {:induction false} RunIsJsonParse(cfg: Config, m: Machine, input: seq<Byte>)
    requires Ready(cfg, m)
    ensures Seen(Run(cfg, m, input)) == JsonParse(cfg, Seen(m), input)
    decreases |input|
  {
    if input != [] {
      var (kind, n) := FirstPiece(cfg, input);
      var m' := PieceRuns(cfg, m, input, kind, n);
      if input[n..] != [] {
        RunIsJsonParse(cfg, m', input[n..]);
      }
    }
  }

  // ---- what is lost ------------------------------------------------------------------------

  /** The byte that breaks a literal costs one error and is lost: the reader goes on as if that byte had been looked
      at again exactly when it is whitespace that is skipped anyway. */
  lemma {:induction false} WrongByteIsSwallowed(cfg: Config, m: Machine, text: seq<Byte>, c: Byte)
    requires Ready(cfg, m) && text != [] && LiteralFor(text[0]) != [] && |text| <= cfg.bufferSize
    requires Alive(text) && !Alive(text + [c]) && !SelfDelimiting(text + [c])
    ensures var after := m.(errors := m.errors + 1);
            && Seen(Run(cfg, m, text + [c])) == Seen(after)
            && (Seen(Run(cfg, m, text + [c])) == Seen(Consume(cfg, after, c)) <==> cfg.skipLeadingWhitespace && IsWs(c))
  {
    hide Alive, SelfDelimiting;
    Held(cfg, m, text);
    RunSnoc(cfg, m, text, c);
    var s := Run(cfg, m, text);
    NotLiteral(cfg, m, s, text);
    hide Run;
    LiteralNext(cfg, m, s, text, c);
  }

  /** A container that was sent whole and is not delivered, and a number that was not sent and is: "t[1] " yields
      the message "1". */
  lemma {:induction false} BracketIsSwallowed()
    ensures Seen(Run(Config(8, true), START, "t[1] ")) == Parsed(["1"], 0, 2, [])
  {
    var cfg := Config(8, true);
    var broken: seq<Byte> := "t" + ['['];
    assert "t[1] " == broken + "1] ";
    RunConcat(cfg, START, broken, "1] ");
    RunCoherent(cfg, START, broken);
    BracketBreaks(cfg);
    hide Run;
    OneThenStray(cfg, Run(cfg, START, broken));
  }

  lemma {:induction false} BracketBreaks(cfg: Config)
    requires cfg.bufferSize > 0
    ensures Seen(Run(cfg, START, "t" + ['['])) == Parsed([], 0, 1, [])
  {
    StarterAlive('t');
    assert "t" == ['t'];
    var broken: seq<Byte> := "t" + ['['];
    AliveLiteral(broken);
    assert LiteralFor('t') == "true" && broken[0] == 't' && broken[1] == '[' && "true"[..2][1] == 'r';
    hide Run, Alive, SelfDelimiting;
    WrongByteIsSwallowed(cfg, START, "t", '[');
  }

  lemma {:induction false} OneThenStray(cfg: Config, m: Machine)
    requires Ready(cfg, m) && cfg.skipLeadingWhitespace && m.messages == []
    ensures Run(cfg, m, "1] ") == m.(messages := ["1"], errors := m.errors + 1)
  {
    assert NumberParts("1", [], "1", [], []);
    hide Run;
    assert "1" + "] " == "1] ";
    FrameNumberRun(cfg, m, "1", "] ");
    ThenStray(cfg, WithMessage(m, "1"));
    assert [] + ["1"] == ["1"];
  }

  lemma {:induction false} ThenStray(cfg: Config, m: Machine)
    requires Ready(cfg, m) && cfg.skipLeadingWhitespace
    ensures Run(cfg, m, "] ") == m.(errors := m.errors + 1)
  {
    assert "] " == [']'] + [' '];
    RunConcat(cfg, m, [']'], [' ']);
    OneByte(cfg, m, ']');
    OneByte(cfg, m.(errors := m.errors + 1), ' ');
  }
}
