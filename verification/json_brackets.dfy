/**
 What it means for the brackets of a JSON container to match: a grammar of bracketed texts, the
 byte-at-a-time scanner the reader runs, and the proof that they accept the same texts.
 */
module JsonBrackets {
  import opened Bytes

  predicate IsOpener(c: Byte) { c == '{' || c == '[' }

  predicate IsCloser(c: Byte) { c == '}' || c == ']' }

  function CloserOf(opener: Byte): Byte {
    if opener == '{' then '}' else ']'
  }

  predicate IsPlain(c: Byte) {
    !IsOpener(c) && !IsCloser(c) && c != '"'
  }

  // ---- the grammar -------------------------------------------------------------------------

  /** The inside of a quoted string: ordinary bytes, and backslashes each taking a byte with it. */
  predicate QuotedItems(s: seq<Byte>) {
    if s == [] then true
    else if s[0] == '\\' then |s| >= 2 && QuotedItems(s[2..])
    else s[0] != '"' && QuotedItems(s[1..])
  }

  datatype Piece = Plain(c: Byte) | Quoted(items: seq<Byte>) | Nested(opener: Byte, body: Body)
  datatype Body = Nil | Cons(head: Piece, tail: Body)

  predicate GoodPiece(p: Piece) {
    match p
    case Plain(c) => IsPlain(c)
    case Quoted(items) => QuotedItems(items)
    case Nested(opener, body) => IsOpener(opener) && GoodBody(body)
  }

  predicate GoodBody(b: Body) {
    match b
    case Nil => true
    case Cons(head, tail) => GoodPiece(head) && GoodBody(tail)
  }

  function PieceText(p: Piece): seq<Byte> {
    match p
    case Plain(c) => [c]
    case Quoted(items) => ['"'] + items + ['"']
    case Nested(opener, body) => [opener] + BodyText(body) + [CloserOf(opener)]
  }

  function BodyText(b: Body): seq<Byte> {
    match b
    case Nil => []
    case Cons(head, tail) => PieceText(head) + BodyText(tail)
  }

  /** A container: an opener, matched pieces, and the closer that belongs to the opener. */
  ghost predicate IsBracketed(text: seq<Byte>) {
    exists opener, body :: GoodPiece(Nested(opener, body)) && text == PieceText(Nested(opener, body))
  }

  /** A string: quoted items between two quotes. */
  predicate IsQuoted(text: seq<Byte>) {
    |text| >= 2 && text[0] == '"' == text[|text| - 1] && QuotedItems(text[1..|text| - 1])
  }

  // ---- the scanner -------------------------------------------------------------------------

  /** Open brackets, innermost last, and where we are with respect to strings. */
  datatype Lex = Lex(stack: seq<Byte>, inString: bool, escape: bool)

  function Opened(stack: seq<Byte>): Lex { Lex(stack, false, false) }

  /** One byte; None when nothing is open any more or when a closer does not fit. */
  function LexStep(l: Lex, c: Byte): Option<Lex> {
    if l.stack == [] then None
    else if l.inString then
      Some(if l.escape then l.(escape := false)
           else if c == '\\' then l.(escape := true)
           else if c == '"' then l.(inString := false)
           else l)
    else if c == '"' then Some(l.(inString := true))
    else if IsOpener(c) then Some(l.(stack := l.stack + [c]))
    else if IsCloser(c) then
      if c == CloserOf(l.stack[|l.stack| - 1]) then Some(l.(stack := l.stack[..|l.stack| - 1])) else None
    else Some(l)
  }

  function LexRun(l: Lex, text: seq<Byte>): Option<Lex>
    decreases |text|
  {
    if text == [] then Some(l)
    else match LexStep(l, text[0])
      case None => None
      case Some(l') => LexRun(l', text[1..])
  }

  lemma {:induction false} LexRunConcat(l: Lex, a: seq<Byte>, b: seq<Byte>)
    ensures LexRun(l, a + b) == match LexRun(l, a) case None => None case Some(l') => LexRun(l', b)
    decreases |a|
  {
    if a == [] {
      assert a + b == b;
    } else {
      assert (a + b)[1..] == a[1..] + b;
      match LexStep(l, a[0])
      case None =>
      case Some(l') => LexRunConcat(l', a[1..], b);
    }
  }

  lemma {:induction false} LexRunSnoc(l: Lex, a: seq<Byte>, c: Byte)
    ensures LexRun(l, a + [c]) == match LexRun(l, a) case None => None case Some(l') => LexStep(l', c)
  {
    LexRunConcat(l, a, [c]);
    if LexRun(l, a).Some? {
      var l' := LexRun(l, a).value;
      assert LexStep(l', c).Some? ==> LexRun(LexStep(l', c).value, [c][1..]) == LexStep(l', c);
    }
  }

  /** Whether a string is still open after `text`, and if so whether an escape is pending. */
  function StringScan(escape: bool, text: seq<Byte>): Option<bool>
    decreases |text|
  {
    if text == [] then Some(escape)
    else if escape then StringScan(false, text[1..])
    else if text[0] == '"' then None
    else StringScan(text[0] == '\\', text[1..])
  }

  lemma {:induction false} StringScanSnoc(escape: bool, text: seq<Byte>, c: Byte)
    ensures StringScan(escape, text + [c]) ==
            match StringScan(escape, text)
            case None => None
            case Some(e) => if !e && c == '"' then None else Some(!e && c == '\\')
    decreases |text|
  {
    if text != [] {
      assert (text + [c])[1..] == text[1..] + [c];
      if escape {
        StringScanSnoc(false, text[1..], c);
      } else if text[0] != '"' {
        StringScanSnoc(text[0] == '\\', text[1..], c);
      }
    } else {
      assert (text + [c])[1..] == [];
    }
  }

  /** The scanner leaves a string open and unescaped exactly on well-formed string contents. */
  lemma {:induction false} QuotedScan(s: seq<Byte>)
    ensures QuotedItems(s) <==> StringScan(false, s) == Some(false)
  {
    if s != [] {
      if s[0] == '\\' {
        if |s| >= 2 {
          assert s[1..][1..] == s[2..];
          QuotedScan(s[2..]);
        } else {
          assert s[1..] == [];
        }
      } else if s[0] != '"' {
        QuotedScan(s[1..]);
      }
    }
  }

  /** Inside a string the bracket scanner does exactly what the string scanner does. */
  lemma {:induction false} LexInString(stack: seq<Byte>, escape: bool, text: seq<Byte>)
    requires stack != [] && StringScan(escape, text).Some?
    ensures LexRun(Lex(stack, true, escape), text) == Some(Lex(stack, true, StringScan(escape, text).value))
    decreases |text|
  {
    if text != [] {
      LexInString(stack, !escape && text[0] == '\\', text[1..]);
    }
  }

  // ---- grammar => scanner ------------------------------------------------------------------

  /** A text the scanner passes over: it ends where it began, and never goes below. */
  predicate Absorbs(l: Lex, text: seq<Byte>) {
    LexRun(l, text) == Some(l)
  }

  lemma {:induction false} AbsorbConcat(l: Lex, a: seq<Byte>, b: seq<Byte>)
    requires Absorbs(l, a) && Absorbs(l, b)
    ensures Absorbs(l, a + b)
  {
    LexRunConcat(l, a, b);
  }

  lemma {:induction false} AbsorbPlain(stack: seq<Byte>, text: seq<Byte>)
    requires stack != [] && forall i :: 0 <= i < |text| ==> IsPlain(text[i])
    ensures Absorbs(Opened(stack), text)
  {
    if text != [] {
      AbsorbPlain(stack, text[1..]);
    }
  }

  lemma {:induction false} AbsorbQuoted(stack: seq<Byte>, items: seq<Byte>)
    requires stack != [] && QuotedItems(items)
    ensures Absorbs(Opened(stack), ['"'] + items + ['"'])
  {
    var inside := Lex(stack, true, false);
    QuotedScan(items);
    LexInString(stack, false, items);
    LexRunSnoc(inside, items, '"');
    assert ['"'] + items + ['"'] == ['"'] + (items + ['"']);
    LexRunConcat(Opened(stack), ['"'], items + ['"']);
    assert LexRun(Opened(stack), ['"']) == Some(inside) by { assert ['"'][1..] == []; }
  }

  lemma {:induction false} AbsorbNested(stack: seq<Byte>, opener: Byte, inside: seq<Byte>)
    requires stack != [] && IsOpener(opener) && Absorbs(Opened(stack + [opener]), inside)
    ensures Absorbs(Opened(stack), [opener] + inside + [CloserOf(opener)])
  {
    var l, l' := Opened(stack), Opened(stack + [opener]);
    LexRunSnoc(l', inside, CloserOf(opener));
    assert [opener] + inside + [CloserOf(opener)] == [opener] + (inside + [CloserOf(opener)]);
    LexRunConcat(l, [opener], inside + [CloserOf(opener)]);
    assert LexRun(l, [opener]) == Some(l') by { assert [opener][1..] == []; }
    assert (stack + [opener])[..|stack|] == stack;
  }

  lemma {:induction false} AbsorbPiece(stack: seq<Byte>, p: Piece)
    requires stack != [] && GoodPiece(p)
    ensures Absorbs(Opened(stack), PieceText(p))
    decreases p
  {
    match p
    case Plain(c) => assert [c][1..] == [];
    case Quoted(items) => AbsorbQuoted(stack, items);
    case Nested(opener, body) =>
      AbsorbBody(stack + [opener], body);
      AbsorbNested(stack, opener, BodyText(body));
  }

  lemma {:induction false} AbsorbBody(stack: seq<Byte>, b: Body)
    requires stack != [] && GoodBody(b)
    ensures Absorbs(Opened(stack), BodyText(b))
    decreases b
  {
    match b
    case Nil =>
    case Cons(head, tail) =>
      AbsorbPiece(stack, head);
      AbsorbBody(stack, tail);
      AbsorbConcat(Opened(stack), PieceText(head), BodyText(tail));
  }

  // ---- scanner => grammar ------------------------------------------------------------------

  /** From an open string, a scan that gets out of it passes its closing quote. */
  lemma {:induction false} ParseQuoted(stack: seq<Byte>, escape: bool, text: seq<Byte>)
    returns (n: nat)
    requires stack != []
    requires var r := LexRun(Lex(stack, true, escape), text); r.Some? && |r.value.stack| < |stack|
    ensures n < |text| && text[n] == '"' && StringScan(escape, text[..n]) == Some(false)
    ensures LexRun(Lex(stack, true, escape), text) == LexRun(Opened(stack), text[n + 1..])
    decreases |text|
  {
    if !escape && text[0] == '"' {
      n := 0;
    } else {
      var m := ParseQuoted(stack, !escape && text[0] == '\\', text[1..]);
      n := m + 1;
      assert text[..n][1..] == text[1..][..m];
      assert text[1..][m + 1..] == text[n + 1..];
    }
  }

  lemma Regroup(text: seq<Byte>, head: seq<Byte>, tail: seq<Byte>, closer: seq<Byte>, rest: seq<Byte>)
    requires text == head + (tail + closer + rest)
    ensures text == head + tail + closer + rest
  {
  }

  /** A scan that gets below the innermost open bracket reads matched pieces, then its closer. */
  lemma {:induction false} ParseBody(stack: seq<Byte>, opener: Byte, text: seq<Byte>)
    returns (b: Body, rest: seq<Byte>)
    requires IsOpener(opener)
    requires var r := LexRun(Opened(stack + [opener]), text); r.Some? && |r.value.stack| <= |stack|
    ensures GoodBody(b) && text == BodyText(b) + [CloserOf(opener)] + rest
    ensures LexRun(Opened(stack + [opener]), text) == LexRun(Opened(stack), rest)
    decreases |text|, 1
  {
    var open := stack + [opener];
    if IsCloser(text[0]) {
      b, rest := Nil, text[1..];
      assert open[..|stack|] == stack;
    } else {
      var head, after := ParsePiece(open, text);
      var tail;
      tail, rest := ParseBody(stack, opener, after);
      b := Cons(head, tail);
      Regroup(text, PieceText(head), BodyText(tail), [CloserOf(opener)], rest);
    }
  }

  lemma {:induction false} ParsePiece(open: seq<Byte>, text: seq<Byte>) returns (p: Piece, after: seq<Byte>)
    requires open != []
    requires var r := LexRun(Opened(open), text); r.Some? && |r.value.stack| < |open|
    requires !IsCloser(text[0])
    ensures GoodPiece(p) && text == PieceText(p) + after && |after| < |text|
    ensures LexRun(Opened(open), text) == LexRun(Opened(open), after)
    decreases |text|, 0
  {
    var c := text[0];
    assert text == [c] + text[1..];
    if c == '"' {
      var n := ParseQuoted(open, false, text[1..]);
      var items := text[1..][..n];
      QuotedScan(items);
      p, after := Quoted(items), text[1..][n + 1..];
    } else if IsOpener(c) {
      var inner;
      inner, after := ParseBody(open, c, text[1..]);
      p := Nested(c, inner);
      Regroup(text, [c], BodyText(inner), [CloserOf(c)], after);
    } else {
      p, after := Plain(c), text[1..];
    }
  }

  /** The scanner, started on an opener, closes everything at the very end of `text`. */
  predicate ScansClosed(text: seq<Byte>) {
    text != [] && IsOpener(text[0]) && LexRun(Opened([text[0]]), text[1..]) == Some(Opened([]))
  }

  lemma {:induction false} ClosedIsBracketed(text: seq<Byte>)
    requires ScansClosed(text)
    ensures IsBracketed(text)
  {
    var opener := text[0];
    assert [] + [opener] == [opener];
    var b, rest := ParseBody([], opener, text[1..]);
    assert LexRun(Opened([]), rest).Some?;
    assert text == [opener] + text[1..];
    assert GoodPiece(Nested(opener, b)) && text == PieceText(Nested(opener, b));
  }

  lemma {:induction false} AbsorbedCloses(opener: Byte, inside: seq<Byte>)
    requires IsOpener(opener) && Absorbs(Opened([opener]), inside)
    ensures ScansClosed([opener] + inside + [CloserOf(opener)])
  {
    LexRunSnoc(Opened([opener]), inside, CloserOf(opener));
    assert ([opener] + inside + [CloserOf(opener)])[1..] == inside + [CloserOf(opener)];
    assert [opener][..0] == [];
  }

  /** Scanner and grammar accept the same containers. */
  lemma {:induction false} ScansExactlyBracketed(text: seq<Byte>)
    ensures ScansClosed(text) <==> IsBracketed(text)
  {
    if ScansClosed(text) {
      ClosedIsBracketed(text);
    }
    if IsBracketed(text) {
      var opener, body :| GoodPiece(Nested(opener, body)) && text == PieceText(Nested(opener, body));
      AbsorbBody([opener], body);
      AbsorbedCloses(opener, BodyText(body));
    }
  }

  /** No proper prefix of a container is a container: the framed text is the shortest one. */
  lemma {:induction false} ShortestPrefix(text: seq<Byte>, k: nat)
    requires IsBracketed(text) && k < |text|
    ensures !IsBracketed(text[..k])
  {
    ScansExactlyBracketed(text);
    ScansExactlyBracketed(text[..k]);
    if k > 0 {
      assert text[1..] == text[..k][1..] + text[k..];
      LexRunConcat(Opened([text[0]]), text[..k][1..], text[k..]);
      assert LexStep(Opened([]), text[k..][0]) == None;
    }
  }
}
