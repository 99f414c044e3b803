/** What a slot of the TCP line server gives out: one line reader, and a succession of connections behind it. */
module LineSessions {
  import opened Bytes
  import opened Arithmetic
  import L = LineReader

  /** A connection, as an identity that stays allocated. */
  class Connection {
    var valid: bool
    var input: seq<Byte>
    var outputSize: nat
    /** Every byte Read has returned, and how often it returned none. */
    ghost var taken: seq<Byte>
    ghost var refused: nat

    method Close()
      modifies this`valid, this`input
      ensures !valid && input == []
    {
      valid := false;
      input := [];
    }

    method Readable() returns (b: bool)
      ensures b <==> valid && input != []
    {
      b := valid && |input| > 0;
    }

    /** Reading may fail although bytes are there. */
    method Read() returns (c: Option<Byte>)
      modifies this`input, this`taken, this`refused
      ensures c.None? ==> input == old(input) && taken == old(taken) && refused == old(refused) + 1
      ensures c.Some? ==> old(input) == [c.value] + input && taken == old(taken) + [c.value] && refused == old(refused)
    {
      var ready: bool := *;
      if ready && input != [] {
        c := Some(input[0]);
        taken := taken + [input[0]];
        input := input[1..];
      } else {
        c := None;
        refused := refused + 1;
      }
    }
  }

  /** The readers are built with the default options. */
  const READER_OPTIONS := L.Options('\n', true, true)

  /** One binding of a slot: to which connection, what the slot's reader had buffered at the time, where in
      the connection's bytes it began, the bytes it has taken, and the lines the application was given. */
  datatype Session = Session(
    connection: Connection,
    start: seq<Byte>,
    from: nat,
    bytes: seq<Byte>,
    lines: seq<seq<Byte>>)

  /** The reader, once it has taken the session's bytes. */
  function After(size: nat, s: Session): L.State {
    L.Run(READER_OPTIONS, size, L.State(s.start, [], 0), s.bytes)
  }

  /** What a slot's sessions, oldest first, have left in its buffer. */
  function Leftover(size: nat, history: seq<Session>): seq<Byte> {
    if history == [] then [] else After(size, history[|history| - 1]).buffer
  }

  /** Every session starts with what the one before left, the first with nothing, and was given the lines its
      reader made of its bytes. */
  predicate Chained(size: nat, history: seq<Session>) {
    forall j :: 0 <= j < |history| ==>
      && history[j].start == Leftover(size, history[..j])
      && history[j].lines == After(size, history[j]).lines
  }

  /** The bytes of a session are a contiguous run of those its connection gave away. */
  ghost predicate Took(s: Session)
    reads s.connection
  {
    RunOf(s, s.connection.taken)
  }

  predicate RunOf(s: Session, taken: seq<Byte>) {
    s.from + |s.bytes| <= |taken| && s.bytes == taken[s.from..s.from + |s.bytes|]
  }

  lemma NothingTaken(s: Session, taken: seq<Byte>)
    requires s.from == |taken| && s.bytes == []
    ensures RunOf(s, taken)
  {
  }

  lemma MoreTaken(s: Session, taken: seq<Byte>, more: seq<Byte>)
    requires RunOf(s, taken) && taken <= more
    ensures RunOf(s, more)
  {
  }

  // ---- how a history grows -----------------------------------------------------------------

  predicate Extends(s: Session, s': Session) {
    s'.connection == s.connection && s'.start == s.start && s'.from == s.from && s.bytes <= s'.bytes
  }

  lemma {:induction false} OpenedChain(size: nat, history: seq<Session>, s: Session)
    requires Chained(size, history) && s.start == Leftover(size, history) && s.bytes == [] && s.lines == []
    ensures Chained(size, history + [s]) && Leftover(size, history + [s]) == Leftover(size, history)
  {
    var h := history + [s];
    assert h[..|history|] == history;
    assert forall j :: 0 <= j < |history| ==> h[..j] == history[..j];
  }

  /** What the reader has buffered after one more byte. */
  function LineAfter(size: nat, line: seq<Byte>, byte: Byte): seq<Byte> {
    L.Step(READER_OPTIONS, size, L.State(line, [], 0), byte).buffer
  }

  /** One more byte for the open session. */
  function Fed(size: nat, s: Session, line: seq<Byte>, byte: Byte): Session {
    s.(bytes := s.bytes + [byte], lines := s.lines + L.Step(READER_OPTIONS, size, L.State(line, [], 0), byte).lines)
  }

  lemma {:induction false} FedChain(size: nat, history: seq<Session>, byte: Byte)
    requires Chained(size, history) && history != []
    ensures var n, line := |history| - 1, Leftover(size, history);
            var h := history[n := Fed(size, history[n], line, byte)];
            Chained(size, h) && Leftover(size, h) == LineAfter(size, line, byte)
            && Extends(history[n], h[n]) && h[n].bytes == history[n].bytes + [byte]
  {
    var n, line := |history| - 1, Leftover(size, history);
    var s := history[n];
    var h := history[n := Fed(size, s, line, byte)];
    L.RunSnoc(READER_OPTIONS, size, L.State(s.start, [], 0), s.bytes, byte);
    L.StepShifts(READER_OPTIONS, size, After(size, s), byte);
    assert forall j :: 0 <= j <= n ==> h[..j] == history[..j];
  }

  /** The open session, the last one, has only taken more bytes. */
  predicate Longer(history: seq<Session>, history': seq<Session>) {
    && |history'| == |history| > 0
    && history'[..|history| - 1] == history[..|history| - 1]
    && Extends(history[|history| - 1], history'[|history| - 1])
  }

  lemma LongerStill(a: seq<Session>, b: seq<Session>, c: seq<Session>)
    ensures a != [] ==> Longer(a, a)
    ensures Longer(a, b) && Longer(b, c) ==> Longer(a, c)
  {
  }

  /** An open session before and after more was taken from its connection. */
  lemma OpenGrows(h: seq<Session>, h': seq<Session>, taken: seq<Byte>, taken': seq<Byte>, input: seq<Byte>)
    requires Longer(h, h') && taken' == taken + input
    requires var s := h[|h| - 1]; s.from <= |taken| && s.bytes == taken[s.from..]
    requires var s := h'[|h'| - 1]; s.from <= |taken'| && s.bytes == taken'[s.from..]
    ensures |h'| == |h| && h'[|h'| - 1].bytes == h[|h| - 1].bytes + input
  {
    var from := h[|h| - 1].from;
    assert (taken + input)[from..] == taken[from..] + input;
  }

  lemma FedLonger(size: nat, history: seq<Session>, line: seq<Byte>, byte: Byte)
    requires history != []
    ensures Longer(history, history)
    ensures Longer(history, history[|history| - 1 := Fed(size, history[|history| - 1], line, byte)])
  {
  }

  lemma FedTook(s: Session, s': Session, taken: seq<Byte>, byte: Byte)
    requires RunOf(s, taken) && s.from + |s.bytes| == |taken|
    requires s'.from == s.from && s'.bytes == s.bytes + [byte]
    ensures RunOf(s', taken + [byte]) && s'.from + |s'.bytes| == |taken + [byte]|
  {
  }

  // ---- what a slot delivers ----------------------------------------------------------------

  function BytesOf(history: seq<Session>): seq<Byte> {
    if history == [] then [] else BytesOf(history[..|history| - 1]) + history[|history| - 1].bytes
  }

  function LinesOf(history: seq<Session>): seq<seq<Byte>> {
    if history == [] then [] else LinesOf(history[..|history| - 1]) + history[|history| - 1].lines
  }

  /** A session that starts with an empty buffer is given exactly the whole-input line framing of the bytes of
      its own connection; the first session of a slot is one, and so is any behind one that left nothing. */
  lemma {:induction false} SessionIsItsOwn(size: nat, history: seq<Session>, j: nat)
    requires Chained(size, history) && j < |history|
    ensures history[j].start == [] <==> j == 0 || Leftover(size, history[..j]) == []
    ensures history[j].start == [] ==>
              history[j].lines == L.Lines(READER_OPTIONS, size, L.START, history[j].bytes).lines
  {
    if history[j].start == [] {
      L.RunIsLines(READER_OPTIONS, size, L.START, history[j].bytes);
    }
  }

  lemma ChainedBefore(size: nat, history: seq<Session>)
    requires Chained(size, history) && history != []
    ensures var n := |history| - 1;
            && Chained(size, history[..n]) && history[n].start == Leftover(size, history[..n])
            && history[n].lines == After(size, history[n]).lines
  {
    var n := |history| - 1;
    assert forall j :: 0 <= j <= n ==> history[..n][..j] == history[..j];
  }

  lemma RunNothing(size: nat)
    ensures L.Run(READER_OPTIONS, size, L.START, []) == L.START
  {
  }

  /** Over all its sessions together a slot gives out the line framing of the concatenation of their bytes, and
      its buffer is what that leaves: the reader does not notice that the connection behind it changes. */
  lemma {:induction false} SlotFramesAll(size: nat, history: seq<Session>)
    requires Chained(size, history)
    ensures LinesOf(history) == L.Lines(READER_OPTIONS, size, L.START, BytesOf(history)).lines
    ensures Leftover(size, history) == L.Lines(READER_OPTIONS, size, L.START, BytesOf(history)).buffer
  {
    hide L.Run, L.Lines, Chained;
    if history != [] {
      var n := |history| - 1;
      var s := history[n];
      ChainedBefore(size, history);
      SlotFramesAll(size, history[..n]);
      L.RunIsLines(READER_OPTIONS, size, L.START, BytesOf(history[..n]));
      L.RunOver(READER_OPTIONS, size, L.START, BytesOf(history[..n]), s.bytes);
    }
    L.RunIsLines(READER_OPTIONS, size, L.START, BytesOf(history));
    assert history == [] ==> L.Run(READER_OPTIONS, size, L.START, []) == L.START by { RunNothing(size); }
  }

  // ---- the leftover ------------------------------------------------------------------------

  /** Cutting two different tails of one text to lines gives the same only if one tail is empty and the other
      is a lone carriage return. */
  lemma {:induction false} TailsDiffer(text: seq<Byte>, a: nat, b: nat)
    requires a <= |text| && b <= |text|
    ensures L.Stripped(READER_OPTIONS, text[|text| - a..]) == L.Stripped(READER_OPTIONS, text[|text| - b..])
            <==> a == b || (Min(a, b) == 0 && a + b == 1 && text[|text| - 1] == '\r')
  {
    var x, y := text[|text| - a..], text[|text| - b..];
    assert a > 0 ==> x[a - 1] == text[|text| - 1];
    assert b > 0 ==> y[b - 1] == text[|text| - 1];
    assert |L.Stripped(READER_OPTIONS, x)| == if a > 0 && text[|text| - 1] == '\r' then a - 1 else a;
    assert |L.Stripped(READER_OPTIONS, y)| == if b > 0 && text[|text| - 1] == '\r' then b - 1 else b;
  }

  /** A slot is not emptied when it is released: what the last connection left unfinished is put before the
      first line of the next one, and the line is cut as if both had been sent together. */
  lemma {:induction false} FirstLine(size: nat, start: seq<Byte>, text: seq<Byte>)
    requires L.Free(READER_OPTIONS, text) && |start| <= size
    ensures var all := start + text;
            L.Run(READER_OPTIONS, size, L.State(start, [], 0), text + ['\n']).lines
            == [L.Stripped(READER_OPTIONS, all[|all| - L.TailLength(|all|, size)..])]
  {
    var s := L.State(start, [], 0);
    L.RunFree(READER_OPTIONS, size, s, text);
    L.RunSnoc(READER_OPTIONS, size, s, text, '\n');
    assert forall x: seq<Byte> :: [] + [x] == [x];
  }

  /** With u and t bytes kept with and without the leftover, the first line of a session is right exactly when
      nothing was left, or one of the two is empty and the other a lone carriage return, which is stripped. */
  lemma {:induction false} LeftoverIsPrepended(size: nat, start: seq<Byte>, text: seq<Byte>)
    requires L.Free(READER_OPTIONS, text) && |start| <= size
    ensures var lines := L.Run(READER_OPTIONS, size, L.State(start, [], 0), text + ['\n']).lines;
            var right := L.Run(READER_OPTIONS, size, L.START, text + ['\n']).lines;
            var u, t := L.TailLength(|start + text|, size), L.TailLength(|text|, size);
            lines == right <==>
              start == [] || (Min(u, t) == 0 && u + t == 1 && (start + text)[|start + text| - 1] == '\r')
  {
    hide L.Run, L.Stripped, L.TailLength, L.Free;
    var all := start + text;
    var u, t := L.TailLength(|all|, size), L.TailLength(|text|, size);
    FirstLine(size, start, text);
    FirstLine(size, [], text);
    assert [] + text == text;
    assert text[|text| - t..] == all[|all| - t..];
    TailsDiffer(all, u, t);
    SameTail(|start|, |text|, size);
    var a, b := L.Stripped(READER_OPTIONS, all[|all| - u..]), L.Stripped(READER_OPTIONS, all[|all| - t..]);
    assert [a] == [b] ==> [a][0] == [b][0];
  }

  /** One connection sends "ab" and is closed, the next one in the slot sends "cd" and a newline: its first line is
      "abcd". */
  lemma {:induction false} LeftoverDelivered(size: nat, history: seq<Session>)
    requires size >= 4 && Chained(size, history) && |history| == 2
    requires history[0].bytes == "ab" && history[1].bytes == "cd\n"
    ensures history[1].lines == ["abcd"]
  {
    assert history[..0] == [] && history[..1] == [history[0]];
    assert history[0].start == Leftover(size, history[..0]) && history[1].start == Leftover(size, history[..1]);
    var clean := L.State([], [], 0);
    L.RunFree(READER_OPTIONS, size, clean, "ab");
    L.Small(2, size + 1);
    assert [] + "ab" == "ab" && history[1].start == "ab";
    assert "cd" + ['\n'] == "cd\n" && "ab" + "cd" == "abcd";
    FirstLine(size, "ab", "cd");
    L.Small(4, size + 1);
    assert "abcd"[0..] == "abcd";
  }

  /** As many bytes are kept with the leftover as without it only when it is empty. */
  lemma {:induction false} SameTail(a: nat, b: nat, size: nat)
    requires a <= size
    ensures L.TailLength(a + b, size) == L.TailLength(b, size) <==> a == 0
  {
    var d := size + 1;
    var q, r := b / d, b % d;
    assert b == q * d + r;
    if r + a < d {
      QuotientIs(a + b, d, q, r + a);
    } else {
      NextMultiple(q, d);
      QuotientIs(a + b, d, q + 1, r + a - d);
    }
  }
}
