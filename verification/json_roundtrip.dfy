/** JSON values of RFC 8259, every way of printing them, and the reader's round trip over streams of them. */
module JsonRoundTrip {
  import opened Bytes
  import opened JsonNumber
  import opened JsonBrackets
  import opened JsonMachine
  import opened JsonFraming

  // ---- section 7: strings ------------------------------------------------------------------

  datatype StringItem = Unescaped(c: Byte) | Escape(c: Byte) | Unicode(h1: Byte, h2: Byte, h3: Byte, h4: Byte)

  predicate IsHex(c: Byte) {
    IsDigit(c) || 'a' <= c <= 'f' || 'A' <= c <= 'F'
  }

  predicate GoodItem(item: StringItem) {
    match item
    case Unescaped(c) => c as int >= 0x20 && c != '"' && c != '\\'
    case Escape(c) => c in "\"\\/bfnrt"
    case Unicode(h1, h2, h3, h4) => IsHex(h1) && IsHex(h2) && IsHex(h3) && IsHex(h4)
  }

  function ItemText(item: StringItem): seq<Byte> {
    match item
    case Unescaped(c) => [c]
    case Escape(c) => ['\\', c]
    case Unicode(h1, h2, h3, h4) => ['\\', 'u', h1, h2, h3, h4]
  }

  function ItemsText(items: seq<StringItem>): seq<Byte> {
    if items == [] then [] else ItemText(items[0]) + ItemsText(items[1..])
  }

  function StringText(items: seq<StringItem>): seq<Byte> {
    ['"'] + ItemsText(items) + ['"']
  }

  predicate GoodString(items: seq<StringItem>) {
    forall i :: 0 <= i < |items| ==> GoodItem(items[i])
  }

  // ---- sections 2 to 5: values, with the whitespace of one way of printing them -----------

  /** Each `seq<Byte>` called ws is the whitespace printed at that place. */
  datatype Value =
    | Literal(name: seq<Byte>)
    | Num(text: seq<Byte>)
    | Str(items: seq<StringItem>)
    | Arr(ws: seq<Byte>, elements: Elements)
    | Obj(ws: seq<Byte>, members: Members)

  datatype Elements = NoElement | Element(value: Value, wsAfter: seq<Byte>, more: MoreElements)
  datatype MoreElements = EndArray | Comma(ws: seq<Byte>, value: Value, wsAfter: seq<Byte>, more: MoreElements)

  datatype Member = Member(key: seq<StringItem>, wsKey: seq<Byte>, wsColon: seq<Byte>, value: Value, wsAfter: seq<Byte>)
  datatype Members = NoMember | First(member: Member, more: MoreMembers)
  datatype MoreMembers = EndObject | Next(ws: seq<Byte>, member: Member, more: MoreMembers)

  predicate AllWs(ws: seq<Byte>) {
    forall i :: 0 <= i < |ws| ==> IsWs(ws[i])
  }

  ghost predicate Good(v: Value) {
    match v
    case Literal(name) => IsLiteral(name)
    case Num(text) => IsNumber(text)
    case Str(items) => GoodString(items)
    case Arr(ws, elements) => AllWs(ws) && GoodElements(elements)
    case Obj(ws, members) => AllWs(ws) && GoodMembers(members)
  }

  ghost predicate GoodElements(es: Elements) {
    match es
    case NoElement => true
    case Element(value, wsAfter, more) => Good(value) && AllWs(wsAfter) && GoodMore(more)
  }

  ghost predicate GoodMore(es: MoreElements) {
    match es
    case EndArray => true
    case Comma(ws, value, wsAfter, more) => AllWs(ws) && Good(value) && AllWs(wsAfter) && GoodMore(more)
  }

  ghost predicate GoodMember(m: Member) {
    GoodString(m.key) && AllWs(m.wsKey) && AllWs(m.wsColon) && Good(m.value) && AllWs(m.wsAfter)
  }

  ghost predicate GoodMembers(ms: Members) {
    match ms
    case NoMember => true
    case First(member, more) => GoodMember(member) && GoodMoreMembers(more)
  }

  ghost predicate GoodMoreMembers(ms: MoreMembers) {
    match ms
    case EndObject => true
    case Next(ws, member, more) => AllWs(ws) && GoodMember(member) && GoodMoreMembers(more)
  }

  function Print(v: Value): seq<Byte> {
    match v
    case Literal(name) => name
    case Num(text) => text
    case Str(items) => StringText(items)
    case Arr(ws, elements) => ['['] + (ws + PrintElements(elements)) + [']']
    case Obj(ws, members) => ['{'] + (ws + PrintMembers(members)) + ['}']
  }

  function PrintElements(es: Elements): seq<Byte> {
    match es
    case NoElement => []
    case Element(value, wsAfter, more) => Print(value) + wsAfter + PrintMore(more)
  }

  function PrintMore(es: MoreElements): seq<Byte> {
    match es
    case EndArray => []
    case Comma(ws, value, wsAfter, more) => [','] + ws + Print(value) + wsAfter + PrintMore(more)
  }

  function PrintMember(m: Member): seq<Byte> {
    StringText(m.key) + m.wsKey + [':'] + m.wsColon + Print(m.value) + m.wsAfter
  }

  function PrintMembers(ms: Members): seq<Byte> {
    match ms
    case NoMember => []
    case First(member, more) => PrintMember(member) + PrintMoreMembers(more)
  }

  function PrintMoreMembers(ms: MoreMembers): seq<Byte> {
    match ms
    case EndObject => []
    case Next(ws, member, more) => [','] + ws + PrintMember(member) + PrintMoreMembers(more)
  }

  // ---- every printed value is a text the reader frames ------------------------------------

  lemma OneItem(c: Byte, rest: seq<Byte>)
    requires QuotedItems(rest) && c != '"' && c != '\\'
    ensures QuotedItems([c] + rest)
  {
    assert ([c] + rest)[1..] == rest;
  }

  lemma {:induction false} FourItems(a: Byte, b: Byte, c: Byte, d: Byte, rest: seq<Byte>)
    requires QuotedItems(rest) && IsHex(a) && IsHex(b) && IsHex(c) && IsHex(d)
    ensures QuotedItems([a, b, c, d] + rest)
  {
    OneItem(d, rest);
    OneItem(c, [d] + rest);
    OneItem(b, [c] + ([d] + rest));
    OneItem(a, [b] + ([c] + ([d] + rest)));
    assert [a, b, c, d] + rest == [a] + ([b] + ([c] + ([d] + rest)));
  }

  lemma {:induction false} ItemsQuoted(items: seq<StringItem>)
    requires GoodString(items)
    ensures QuotedItems(ItemsText(items))
  {
    if items != [] {
      ItemsQuoted(items[1..]);
      var text, rest := ItemsText(items), ItemsText(items[1..]);
      match items[0]
      case Unescaped(c) => assert text[1..] == rest;
      case Escape(c) => assert text[2..] == rest;
      case Unicode(h1, h2, h3, h4) =>
        FourItems(h1, h2, h3, h4, rest);
        assert text[2..] == [h1, h2, h3, h4] + rest;
    }
  }

  lemma {:induction false} AbsorbString(stack: seq<Byte>, items: seq<StringItem>)
    requires stack != [] && GoodString(items)
    ensures Absorbs(Opened(stack), StringText(items))
  {
    ItemsQuoted(items);
    AbsorbQuoted(stack, ItemsText(items));
  }

  /** Two, or three, absorbed texts in a row. */
  lemma {:induction false} AbsorbThree(l: Lex, a: seq<Byte>, b: seq<Byte>, c: seq<Byte>)
    requires Absorbs(l, a) && Absorbs(l, b) && Absorbs(l, c)
    ensures Absorbs(l, a + b + c)
  {
    AbsorbConcat(l, a, b);
    AbsorbConcat(l, a + b, c);
  }

  lemma {:induction false} AbsorbValue(stack: seq<Byte>, v: Value)
    requires stack != [] && Good(v)
    ensures Absorbs(Opened(stack), Print(v))
    decreases v
  {
    match v
    case Literal(name) => AbsorbPlain(stack, name);
    case Num(text) => NumberBytes(text); AbsorbPlain(stack, text);
    case Str(items) => AbsorbString(stack, items);
    case Arr(ws, elements) =>
      AbsorbInsideArray(stack + ['['], ws, elements);
      AbsorbNested(stack, '[', ws + PrintElements(elements));
    case Obj(ws, members) =>
      AbsorbInsideObject(stack + ['{'], ws, members);
      AbsorbNested(stack, '{', ws + PrintMembers(members));
  }

  lemma {:induction false} AbsorbInsideArray(stack: seq<Byte>, ws: seq<Byte>, es: Elements)
    requires stack != [] && AllWs(ws) && GoodElements(es)
    ensures Absorbs(Opened(stack), ws + PrintElements(es))
    decreases es
  {
    var l := Opened(stack);
    AbsorbPlain(stack, ws);
    match es {
      case NoElement =>
      case Element(value, wsAfter, more) =>
        AbsorbValue(stack, value);
        AbsorbPlain(stack, wsAfter);
        AbsorbMore(stack, more);
        AbsorbThree(l, Print(value), wsAfter, PrintMore(more));
    }
    AbsorbConcat(l, ws, PrintElements(es));
  }

  lemma {:induction false} AbsorbMore(stack: seq<Byte>, es: MoreElements)
    requires stack != [] && GoodMore(es)
    ensures Absorbs(Opened(stack), PrintMore(es))
    decreases es
  {
    match es
    case EndArray =>
    case Comma(ws, value, wsAfter, more) =>
      var l := Opened(stack);
      AbsorbPlain(stack, [',']);
      AbsorbPlain(stack, ws);
      AbsorbPlain(stack, wsAfter);
      AbsorbValue(stack, value);
      AbsorbMore(stack, more);
      AbsorbThree(l, [','], ws, Print(value));
      AbsorbThree(l, [','] + ws + Print(value), wsAfter, PrintMore(more));
  }

  lemma {:induction false} AbsorbMember(stack: seq<Byte>, m: Member)
    requires stack != [] && GoodMember(m)
    ensures Absorbs(Opened(stack), PrintMember(m))
    decreases m
  {
    var l := Opened(stack);
    AbsorbString(stack, m.key);
    AbsorbPlain(stack, m.wsKey);
    AbsorbPlain(stack, [':']);
    AbsorbPlain(stack, m.wsColon);
    AbsorbPlain(stack, m.wsAfter);
    AbsorbValue(stack, m.value);
    AbsorbThree(l, StringText(m.key), m.wsKey, [':']);
    AbsorbThree(l, StringText(m.key) + m.wsKey + [':'], m.wsColon, Print(m.value));
    AbsorbConcat(l, StringText(m.key) + m.wsKey + [':'] + m.wsColon + Print(m.value), m.wsAfter);
  }

  lemma {:induction false} AbsorbInsideObject(stack: seq<Byte>, ws: seq<Byte>, ms: Members)
    requires stack != [] && AllWs(ws) && GoodMembers(ms)
    ensures Absorbs(Opened(stack), ws + PrintMembers(ms))
    decreases ms
  {
    var l := Opened(stack);
    AbsorbPlain(stack, ws);
    match ms {
      case NoMember =>
      case First(member, more) =>
        AbsorbMember(stack, member);
        AbsorbMoreMembers(stack, more);
        AbsorbConcat(l, PrintMember(member), PrintMoreMembers(more));
    }
    AbsorbConcat(l, ws, PrintMembers(ms));
  }

  lemma {:induction false} AbsorbMoreMembers(stack: seq<Byte>, ms: MoreMembers)
    requires stack != [] && GoodMoreMembers(ms)
    ensures Absorbs(Opened(stack), PrintMoreMembers(ms))
    decreases ms
  {
    match ms
    case EndObject =>
    case Next(ws, member, more) =>
      var l := Opened(stack);
      AbsorbPlain(stack, [',']);
      AbsorbPlain(stack, ws);
      AbsorbMember(stack, member);
      AbsorbMoreMembers(stack, more);
      AbsorbThree(l, [','], ws, PrintMember(member));
      AbsorbConcat(l, [','] + ws + PrintMember(member), PrintMoreMembers(more));
  }

  /** A printed value is a text the reader frames; it starts with a number byte only if it is a number. */
  lemma {:induction false} PrintedIsMessage(v: Value)
    requires Good(v)
    ensures IsMessage(Print(v)) && Print(v) != []
    ensures IsNumber(Print(v)) <==> v.Num?
    ensures !v.Num? ==> !IsNumberByte(Print(v)[0])
  {
    match v {
      case Literal(name) =>
      case Num(text) => NumberBytes(text);
      case Str(items) =>
        ItemsQuoted(items);
        assert Print(v)[1..|Print(v)| - 1] == ItemsText(items);
      case Arr(ws, elements) =>
        AbsorbInsideArray(['['], ws, elements);
        AbsorbedCloses('[', ws + PrintElements(elements));
        ScansExactlyBracketed(Print(v));
      case Obj(ws, members) =>
        AbsorbInsideObject(['{'], ws, members);
        AbsorbedCloses('{', ws + PrintMembers(members));
        ScansExactlyBracketed(Print(v));
    }
    if IsNumber(Print(v)) {
      NumberBytes(Print(v));
    }
  }

  // ---- streams of values -------------------------------------------------------------------

  /** A value and the whitespace printed after it. */
  datatype Doc = Doc(value: Value, gap: seq<Byte>)

  function Stream(docs: seq<Doc>): seq<Byte> {
    if docs == [] then [] else Print(docs[0].value) + docs[0].gap + Stream(docs[1..])
  }

  function Texts(docs: seq<Doc>): seq<seq<Byte>> {
    if docs == [] then [] else [Print(docs[0].value)] + Texts(docs[1..])
  }

  ghost predicate GoodDoc(cfg: Config, d: Doc) {
    Good(d.value) && AllWs(d.gap) && |Print(d.value)| <= cfg.bufferSize
  }

  /** Printed values that fit. Whitespace between them is optional, except between two numbers; a final
      number needs whitespace, or a byte of `rest` that ends numbers. */
  ghost predicate GoodDocs(cfg: Config, docs: seq<Doc>, rest: seq<Byte>) {
    docs == [] || (GoodDoc(cfg, docs[0]) && Separated(docs, rest) && GoodDocs(cfg, docs[1..], rest))
  }

  predicate Separated(docs: seq<Doc>, rest: seq<Byte>)
    requires docs != []
  {
    docs[0].value.Num? && docs[0].gap == [] ==>
      if |docs| > 1 then !docs[1].value.Num? else rest != [] && !IsNumberByte(rest[0])
  }

  /** A number in a stream is followed by a byte that ends it. */
  lemma {:induction false} NextByte(cfg: Config, docs: seq<Doc>, rest: seq<Byte>)
    requires docs != [] && GoodDocs(cfg, docs, rest) && docs[0].value.Num?
    ensures var after := docs[0].gap + (Stream(docs[1..]) + rest); after != [] && !IsNumberByte(after[0])
  {
    if docs[0].gap != [] {
      assert IsWs(docs[0].gap[0]);
    } else if |docs| > 1 {
      PrintedIsMessage(docs[1].value);
    }
  }

  lemma StreamHead(docs: seq<Doc>, rest: seq<Byte>)
    requires docs != []
    ensures Stream(docs) + rest == Print(docs[0].value) + (docs[0].gap + (Stream(docs[1..]) + rest))
  {
  }

  /** One value of the stream and the whitespace behind it. */
  lemma {:induction false} FrameDoc(cfg: Config, m: Machine, d: Doc, later: seq<Byte>)
    requires Ready(cfg, m) && cfg.skipLeadingWhitespace && GoodDoc(cfg, d)
    requires d.value.Num? ==> d.gap + later != [] && !IsNumberByte((d.gap + later)[0])
    ensures Run(cfg, m, Print(d.value) + (d.gap + later)) == Run(cfg, WithMessage(m, Print(d.value)), later)
  {
    PrintedIsMessage(d.value);
    FrameOne(cfg, m, Print(d.value), d.gap + later);
    SkipWs(cfg, WithMessage(m, Print(d.value)), d.gap, later);
  }

  lemma {:induction false} FirstDoc(cfg: Config, m: Machine, docs: seq<Doc>, rest: seq<Byte>)
    requires Ready(cfg, m) && cfg.skipLeadingWhitespace && docs != [] && GoodDocs(cfg, docs, rest)
    ensures var m' := WithMessage(m, Print(docs[0].value));
            Ready(cfg, m') && Run(cfg, m, Stream(docs) + rest) == Run(cfg, m', Stream(docs[1..]) + rest)
  {
    StreamHead(docs, rest);
    if docs[0].value.Num? {
      NextByte(cfg, docs, rest);
    }
    FrameDoc(cfg, m, docs[0], Stream(docs[1..]) + rest);
  }

  lemma TextsAdd(m: Machine, docs: seq<Doc>)
    requires docs != []
    ensures var m' := WithMessage(m, Print(docs[0].value));
            m'.(messages := m'.messages + Texts(docs[1..])) == m.(messages := m.messages + Texts(docs))
  {
    assert m.messages + [Print(docs[0].value)] + Texts(docs[1..]) == m.messages + Texts(docs);
  }

  lemma {:induction false} RoundTripFrom(cfg: Config, m: Machine, docs: seq<Doc>, rest: seq<Byte>)
    requires Ready(cfg, m) && cfg.skipLeadingWhitespace && GoodDocs(cfg, docs, rest)
    ensures Run(cfg, m, Stream(docs) + rest) == Run(cfg, m.(messages := m.messages + Texts(docs)), rest)
    decreases |docs|
  {
    if docs == [] {
      assert [] + rest == rest && m.messages + [] == m.messages;
    } else {
      var m' := WithMessage(m, Print(docs[0].value));
      FirstDoc(cfg, m, docs, rest);
      RoundTripFrom(cfg, m', docs[1..], rest);
      TextsAdd(m, docs);
    }
  }

  /** The law the reader is for: from Idle, any stream of printed values that fit yields exactly their
      texts, in order, and the reader goes on from Idle with whatever follows; nothing is an error. */
  lemma {:induction false} RoundTrip(cfg: Config, lead: seq<Byte>, docs: seq<Doc>, rest: seq<Byte>)
    requires cfg.bufferSize > 0 && cfg.skipLeadingWhitespace
    requires AllWs(lead) && GoodDocs(cfg, docs, rest)
    ensures Run(cfg, START, lead + Stream(docs) + rest) == Run(cfg, START.(messages := Texts(docs)), rest)
    ensures rest == [] ==> Run(cfg, START, lead + Stream(docs) + rest) == START.(messages := Texts(docs))
  {
    assert lead + Stream(docs) + rest == lead + (Stream(docs) + rest);
    SkipWs(cfg, START, lead, Stream(docs) + rest);
    RoundTripFrom(cfg, START, docs, rest);
    assert START.messages + Texts(docs) == Texts(docs);
  }
}
