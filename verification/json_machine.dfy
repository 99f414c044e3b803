/** The framing machine of JsonProtocolReader, one byte at a time, on values. */
module JsonMachine {
  import opened Bytes
  import opened JsonNumber
  import opened JsonBrackets

  datatype Phase = Idle | Container | StringValue | NumberValue | LiteralValue

  /** The template's BufferSize and the reader's option. */
  datatype Config = Config(bufferSize: nat, skipLeadingWhitespace: bool)

  /** What the reader remembers, followed by what it has done so far. `literal` is empty for null. */
  datatype Machine = Machine(
    phase: Phase,
    buffer: seq<Byte>,
    stack: seq<Byte>,
    inString: bool,
    escape: bool,
    literal: seq<Byte>,
    literalPos: nat,
    messages: seq<seq<Byte>>,
    overflows: nat,
    errors: nat)

  const START := Machine(Idle, [], [], false, false, [], 0, [], 0, 0)

  predicate IsWs(c: Byte) {
    c == ' ' || c == '\t' || c == '\r' || c == '\n'
  }

  predicate StartsNumber(c: Byte) {
    c == '-' || IsDigit(c)
  }

  function LiteralFor(c: Byte): seq<Byte> {
    if c == 't' then "true" else if c == 'f' then "false" else if c == 'n' then "null" else []
  }

  predicate IsLiteral(text: seq<Byte>) {
    text == "true" || text == "false" || text == "null"
  }

  function Reset(m: Machine): Machine {
    m.(phase := Idle, buffer := [], stack := [], inString := false, escape := false, literal := [], literalPos := 0)
  }

  function Fail(m: Machine): Machine {
    Reset(m).(errors := m.errors + 1)
  }

  function Overflow(m: Machine): Machine {
    Reset(m).(overflows := m.overflows + 1)
  }

  function Emit(m: Machine): Machine {
    Reset(m).(messages := m.messages + [m.buffer])
  }

  function Append(m: Machine, c: Byte): Machine {
    m.(buffer := m.buffer + [c])
  }

  predicate Full(cfg: Config, m: Machine) {
    |m.buffer| >= cfg.bufferSize
  }

  function LexOf(m: Machine): Lex {
    Lex(m.stack, m.inString, m.escape)
  }

  function WithLex(m: Machine, l: Lex): Machine {
    m.(stack := l.stack, inString := l.inString, escape := l.escape)
  }

  function FromIdle(cfg: Config, m: Machine, c: Byte): Machine {
    if cfg.skipLeadingWhitespace && IsWs(c) then m
    else if IsOpener(c) then
      if Full(cfg, m) then Overflow(m) else WithLex(Append(m, c).(phase := Container), Opened(m.stack + [c]))
    else if c == '"' then
      if Full(cfg, m) then Overflow(m) else Append(m, c).(phase := StringValue, escape := false)
    else if StartsNumber(c) then
      if Full(cfg, m) then Overflow(m) else Append(m, c).(phase := NumberValue)
    else if LiteralFor(c) != [] then
      InLiteral(cfg, m.(phase := LiteralValue, literal := LiteralFor(c), literalPos := 0), c)
    else Fail(m)
  }

  function InContainer(m: Machine, c: Byte): Machine {
    match LexStep(LexOf(m), c)
    case None => Fail(m)
    case Some(l) => if l.stack == [] then Emit(Append(m, c)) else WithLex(Append(m, c), l)
  }

  function InString(m: Machine, c: Byte): Machine {
    if !m.escape && c == '"' then Emit(Append(m, c))
    else Append(m, c).(escape := !m.escape && c == '\\')
  }

  function InLiteral(cfg: Config, m: Machine, c: Byte): Machine {
    if m.literalPos >= |m.literal| || m.literal[m.literalPos] != c then Fail(m)
    else if Full(cfg, m) then Overflow(m)
    else
      var m' := Append(m, c).(literalPos := m.literalPos + 1);
      if m'.literalPos == |m'.literal| then Emit(m') else m'
  }

  /** A byte that ends a number is looked at again, from Idle. */
  ghost function Consume(cfg: Config, m: Machine, c: Byte): Machine {
    match m.phase
    case Idle => FromIdle(cfg, m, c)
    case Container => if Full(cfg, m) then Overflow(m) else InContainer(m, c)
    case StringValue => if Full(cfg, m) then Overflow(m) else InString(m, c)
    case NumberValue =>
      if !IsNumberByte(c) then FromIdle(cfg, if IsNumber(m.buffer) then Emit(m) else Fail(m), c)
      else if Full(cfg, m) then Overflow(m) else Append(m, c)
    case LiteralValue => InLiteral(cfg, m, c)
  }

  ghost function Run(cfg: Config, m: Machine, input: seq<Byte>): Machine
    decreases |input|
  {
    if input == [] then m else Run(cfg, Consume(cfg, m, input[0]), input[1..])
  }

  lemma {:induction false} RunConcat(cfg: Config, m: Machine, a: seq<Byte>, b: seq<Byte>)
    ensures Run(cfg, m, a + b) == Run(cfg, Run(cfg, m, a), b)
    decreases |a|
  {
    if a == [] {
      assert a + b == b;
    } else {
      assert (a + b)[1..] == a[1..] + b;
      RunConcat(cfg, Consume(cfg, m, a[0]), a[1..], b);
    }
  }

  lemma {:induction false} RunSnoc(cfg: Config, m: Machine, a: seq<Byte>, c: Byte)
    ensures Run(cfg, m, a + [c]) == Consume(cfg, Run(cfg, m, a), c)
  {
    RunConcat(cfg, m, a, [c]);
    assert [c][1..] == [];
  }

  ghost function Stepper(cfg: Config): (Machine, Byte) -> Machine {
    (m, c) => Consume(cfg, m, c)
  }

  /** Running the machine is folding its step, so the results on chunked feeding apply to it. */
  lemma {:induction false} RunIsFold(cfg: Config, m: Machine, input: seq<Byte>)
    ensures Run(cfg, m, input) == Fold(Stepper(cfg), m, input)
    decreases |input|
  {
    if input != [] {
      RunIsFold(cfg, Consume(cfg, m, input[0]), input[1..]);
    }
  }

  // ---- the state is a function of the buffer -----------------------------------------------

  /** The fields that only containers, strings or literals use are at rest. */
  predicate AtRest(m: Machine) {
    m.stack == [] && !m.inString && !m.escape && m.literal == [] && m.literalPos == 0
  }

  /** Every control field is what scanning the buffered bytes yields, and everything fits. */
  predicate Coherent(cfg: Config, m: Machine) {
    && |m.stack| <= |m.buffer| <= cfg.bufferSize
    && match m.phase
       case Idle => m.buffer == [] && AtRest(m)
       case Container =>
         && m.buffer != [] && IsOpener(m.buffer[0]) && m.stack != []
         && LexRun(Opened([m.buffer[0]]), m.buffer[1..]) == Some(LexOf(m))
         && (m.escape ==> m.inString) && m.literal == [] && m.literalPos == 0
       case StringValue =>
         && m.buffer != [] && m.buffer[0] == '"'
         && StringScan(false, m.buffer[1..]) == Some(m.escape)
         && AtRest(m.(escape := false))
       case NumberValue =>
         && m.buffer != [] && StartsNumber(m.buffer[0])
         && (forall i :: 0 <= i < |m.buffer| ==> IsNumberByte(m.buffer[i]))
         && AtRest(m)
       case LiteralValue =>
         && IsLiteral(m.literal) && 0 < m.literalPos < |m.literal|
         && m.buffer == m.literal[..m.literalPos]
         && AtRest(m.(literal := [], literalPos := 0))
  }

  /** Every byte keeps it, on any input. */
  lemma {:induction false} ConsumeCoherent(cfg: Config, m: Machine, c: Byte)
    requires cfg.bufferSize > 0 && Coherent(cfg, m)
    ensures Coherent(cfg, Consume(cfg, m, c))
  {
    match m.phase
    case Idle => FromIdleCoherent(cfg, m, c);
    case Container => ContainerCoherent(cfg, m, c);
    case StringValue => StringCoherent(cfg, m, c);
    case NumberValue =>
      if !IsNumberByte(c) {
        FromIdleCoherent(cfg, if IsNumber(m.buffer) then Emit(m) else Fail(m), c);
      }
    case LiteralValue =>
  }

  lemma {:induction false} FromIdleCoherent(cfg: Config, m: Machine, c: Byte)
    requires cfg.bufferSize > 0 && Coherent(cfg, m) && m.phase.Idle?
    ensures Coherent(cfg, FromIdle(cfg, m, c))
  {
    assert [c][1..] == [];
    assert [] + [c] == [c];
  }

  lemma {:induction false} ContainerCoherent(cfg: Config, m: Machine, c: Byte)
    requires Coherent(cfg, m) && m.phase.Container?
    ensures Coherent(cfg, Consume(cfg, m, c))
  {
    assert (m.buffer + [c])[1..] == m.buffer[1..] + [c];
    LexRunSnoc(Opened([m.buffer[0]]), m.buffer[1..], c);
  }

  lemma {:induction false} StringCoherent(cfg: Config, m: Machine, c: Byte)
    requires Coherent(cfg, m) && m.phase.StringValue?
    ensures Coherent(cfg, Consume(cfg, m, c))
  {
    assert (m.buffer + [c])[1..] == m.buffer[1..] + [c];
    StringScanSnoc(false, m.buffer[1..], c);
  }

  lemma {:induction false} RunCoherent(cfg: Config, m: Machine, input: seq<Byte>)
    requires cfg.bufferSize > 0 && Coherent(cfg, m)
    ensures Coherent(cfg, Run(cfg, m, input))
    decreases |input|
  {
    if input != [] {
      ConsumeCoherent(cfg, m, input[0]);
      RunCoherent(cfg, Consume(cfg, m, input[0]), input[1..]);
    }
  }

  /** Two reachable states with the same buffered bytes agree in every other control field. */
  lemma {:induction false} BufferDetermines(cfg: Config, a: Machine, b: Machine)
    requires Coherent(cfg, a) && Coherent(cfg, b) && a.buffer == b.buffer
    ensures a.phase == b.phase && LexOf(a) == LexOf(b)
    ensures a.literal == b.literal && a.literalPos == b.literalPos
  {
    if a.buffer != [] {
      assert a.phase.LiteralValue? ==> a.buffer[0] == a.literal[0];
      assert b.phase.LiteralValue? ==> b.buffer[0] == b.literal[0];
    }
  }

  predicate Openers(stack: seq<Byte>) {
    forall c :: c in stack ==> IsOpener(c)
  }

  /** The stack holds openers only. */
  lemma {:induction false} StackOfOpeners(cfg: Config, m: Machine)
    requires Coherent(cfg, m) && m.phase.Container?
    ensures IsOpener(m.stack[|m.stack| - 1])
  {
    var l := Opened([m.buffer[0]]);
    OpenersStay(l, m.buffer[1..], LexOf(m));
    assert m.stack[|m.stack| - 1] in m.stack;
  }

  lemma {:induction false} OpenersStay(l: Lex, text: seq<Byte>, l': Lex)
    requires Openers(l.stack) && LexRun(l, text) == Some(l')
    ensures Openers(l'.stack)
    decreases |text|
  {
    if text != [] {
      OpenersStay(LexStep(l, text[0]).value, text[1..], l');
    }
  }
}
