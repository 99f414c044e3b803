/** src/async_event_loop_arduino/arduino_wifi_tcp.hpp: the connection's transmit ring and its line buffer. */
module WiFiConnection {
  import opened Bytes
  import Ring
  import L = LineReader

  /** The network client behind a connection: it does as it likes within its bounds. */
  class WiFiClient {
    /** Every byte it ever accepted for sending, and the received bytes not read yet. */
    var sent: seq<Byte>
    var input: seq<Byte>

    constructor (input: seq<Byte>)
      ensures sent == [] && this.input == input
    {
      sent, this.input := [], input;
    }

    method Connected() returns (connected: bool) {
      connected := *;
    }

    method AvailableForWrite() returns (room: int) {
      room := *;
    }

    /** Takes any prefix of what it is given. */
    method Write(data: seq<Byte>) returns (written: nat)
      modifies this`sent
      ensures written <= |data| && sent == old(sent) + data[..written]
    {
      written :| written <= |data|;
      sent := sent + data[..written];
    }

    method Available() returns (n: nat)
      ensures n <= |input|
    {
      n :| n <= |input|;
    }

    /** The next byte, or None for a negative result. */
    method Read() returns (c: Option<Byte>)
      modifies this`input
      ensures c.None? ==> input == old(input)
      ensures c.Some? ==> old(input) == [c.value] + input
    {
      var ready: bool := *;
      if ready && input != [] {
        c := Some(input[0]);
        input := input[1..];
      } else {
        c := None;
      }
    }
  }

  const TX_CAPACITY: nat := 1024
  const TX_FLUSH_CHUNK: nat := 64
  const LINE_CAPACITY: nat := 256

  /** Line framing as read_line does it: newline, and an overlong line is dropped. */
  function LineOptions(stripCr: bool): L.Options {
    L.Options('\n', stripCr, true)
  }

  /** One call of read_line, and what has arrived before it since the last one. */
  datatype Call = Call(arrived: seq<Byte>, maxLen: nat, stripCr: bool)

  function Arrived(calls: seq<Call>): seq<Byte> {
    if calls == [] then [] else Arrived(calls[..|calls| - 1]) + calls[|calls| - 1].arrived
  }

  /** A line, stripped and cut to what the caller has room for. */
  function Fitted(c: Call, line: seq<Byte>): seq<Byte>
    requires c.maxLen > 0
  {
    var l := L.Stripped(LineOptions(c.stripCr), line);
    l[..Min(|l|, c.maxLen - 1)]
  }

  /** The calls that return a line return these, in this order, each fitted to its own caller. */
  predicate Delivers(calls: seq<Call>, results: seq<Option<seq<Byte>>>, lines: seq<seq<Byte>>)
    requires |results| == |calls|
  {
    var n := |calls| - 1;
    if calls == [] then lines == []
    else match results[n]
      case None => Delivers(calls[..n], results[..n], lines)
      case Some(dst) =>
        && lines != [] && calls[n].maxLen > 0 && dst == Fitted(calls[n], lines[|lines| - 1])
        && Delivers(calls[..n], results[..n], lines[..|lines| - 1])
  }

  lemma OneMoreCallStart()
    ensures Delivers([], [], [])
  {
  }

  lemma {:induction false} OneMoreCall(calls: seq<Call>, results: seq<Option<seq<Byte>>>, lines: seq<seq<Byte>>,
                                       c: Call, result: Option<seq<Byte>>, more: seq<seq<Byte>>)
    requires |results| == |calls| && Delivers(calls, results, lines)
    requires if result.None? then more == [] else |more| == 1 && c.maxLen > 0 && result.value == Fitted(c, more[0])
    ensures Delivers(calls + [c], results + [result], lines + more)
  {
    assert (calls + [c])[..|calls|] == calls && (results + [result])[..|results|] == results;
    if result.None? {
      assert lines + more == lines;
    } else {
      assert (lines + more)[..|lines|] == lines;
    }
  }

  lemma MoreFlushed(sent: seq<Byte>, queued: seq<Byte>, flushed: nat, written: nat)
    requires flushed + written <= |queued|
    ensures sent + queued[..flushed] + queued[flushed..][..written] == sent + queued[..flushed + written]
    ensures queued[flushed..][written..] == queued[flushed + written..]
  {
    assert queued[..flushed] + queued[flushed..][..written] == queued[..flushed + written];
  }

  lemma Regroup(a: seq<Byte>, b: seq<Byte>, c: seq<Byte>, d: seq<Byte>, e: seq<Byte>, f: seq<Byte>, g: seq<Byte>)
    requires a + b == c + d && d + e == f + g
    ensures a + (b + e) == (c + f) + g
  {
    assert a + (b + e) == (a + b) + e == c + (d + e) == (c + f) + g;
  }

  class ArduinoWiFiTcpConnection {
    /** Whether the board reports how much the client can take (ESP32 and ESP8266 do). */
    const reportsRoom: bool
    var client: WiFiClient
    var active: bool
    const line: array<Byte>
    var lineSize: nat
    const tx: array<Byte>
    var txHead: nat
    var txSize: nat

    /** All bytes accepted by write since attach, and how much the client had sent by then. */
    ghost var accepted: seq<Byte>
    ghost var base: nat

    ghost predicate Shaped()
      reads this
    {
      && tx.Length == TX_CAPACITY && line.Length == LINE_CAPACITY && tx != line
      && txHead < TX_CAPACITY && txSize <= TX_CAPACITY && lineSize <= LINE_CAPACITY
    }

    /** The bytes queued for sending, oldest first. */
    ghost function Output(): (s: seq<Byte>)
      requires Shaped()
      reads this, tx
      ensures |s| == txSize
    {
      Ring.Slice(tx[..], txHead, txSize)
    }

    ghost function Line(): seq<Byte>
      requires Shaped()
      reads this, line
    {
      line[..lineSize]
    }

    /** The law of the ring: what was accepted is what the client got, followed by what is queued. */
    ghost predicate Valid()
      reads this, tx, client
    {
      Shaped() && (active ==> base <= |client.sent| && accepted == client.sent[base..] + Output())
    }

    constructor (reportsRoom: bool, client: WiFiClient)
      ensures Valid() && !active && Line() == [] && this.client == client
    {
      this.reportsRoom, this.client := reportsRoom, client;
      active := false;
      line := new Byte[LINE_CAPACITY](_ => '\0');
      tx := new Byte[TX_CAPACITY](_ => '\0');
      lineSize, txHead, txSize := 0, 0, 0;
      accepted, base := [], 0;
    }

    method Attach(client: WiFiClient)
      requires Valid()
      modifies this
      ensures Valid() && active && this.client == client && accepted == [] && Output() == [] && Line() == []
    {
      Close();
      this.client := client;
      active := true;
      txHead := 0;
      txSize := 0;
      accepted, base := [], |client.sent|;
    }

    method Close()
      requires Valid()
      modifies this
      ensures Valid() && !active && Output() == [] && Line() == [] && client == old(client)
    {
      active := false;
      lineSize := 0;
      txHead := 0;
      txSize := 0;
    }

    method ContiguousOutputSize() returns (n: nat)
      requires Shaped()
      ensures n == Min(txSize, TX_CAPACITY - txHead) && (n == 0 <==> Output() == [])
    {
      if txSize == 0 {
        return 0;
      }
      var untilEnd := TX_CAPACITY - txHead;
      return if txSize < untilEnd then txSize else untilEnd;
    }

    /** Takes bytes off the front. */
    method PopOutput(len: nat)
      requires Shaped()
      modifies this`txHead, this`txSize
      ensures Shaped() && Output() == old(Output())[Min(len, old(txSize))..]
    {
      var k := if len > txSize then txSize else len;
      Ring.DropFront(tx[..], txHead, txSize, k);
      Ring.WrapIsMod(txHead + k, TX_CAPACITY);
      txHead := (txHead + k) % TX_CAPACITY;
      txSize := txSize - k;
      if txSize == 0 {
        txHead := 0;
      }
    }

    /** Enqueues as many bytes as there is room for, in at most a few contiguous copies. */
    method PushOutput(src: seq<Byte>) returns (pushed: nat)
      requires Shaped()
      modifies this`txSize, tx
      ensures Shaped() && pushed == Min(|src|, TX_CAPACITY - old(txSize))
      ensures Output() == old(Output()) + src[..pushed]
    {
      pushed := 0;
      ghost var was := Output();
      while pushed < |src| && TX_CAPACITY - txSize > 0
        invariant Shaped() && pushed <= |src| && txSize == |was| + pushed
        invariant Output() == was + src[..pushed]
        decreases |src| - pushed
      {
        var n := PushChunk(src, pushed);
        assert src[..pushed] + src[pushed..pushed + n] == src[..pushed + n];
        assert was + src[..pushed] + src[pushed..pushed + n] == was + src[..pushed + n];
        pushed := pushed + n;
      }
    }

    /** One copy of that loop, up to the end of the buffer. */
    method PushChunk(src: seq<Byte>, pushed: nat) returns (n: nat)
      requires Shaped() && pushed < |src| && txSize < TX_CAPACITY
      modifies this`txSize, tx
      ensures Shaped() && 0 < n <= |src| - pushed && txSize == old(txSize) + n
      ensures Output() == old(Output()) + src[pushed..pushed + n]
    {
      Ring.WrapIsMod(txHead + txSize, TX_CAPACITY);
      var tail := (txHead + txSize) % TX_CAPACITY;
      var contiguousFree := TX_CAPACITY - tail;
      if contiguousFree > TX_CAPACITY - txSize {
        contiguousFree := TX_CAPACITY - txSize;
      }
      n := |src| - pushed;
      if n > contiguousFree {
        n := contiguousFree;
      }
      ghost var before := tx[..];
      forall i | 0 <= i < n {
        tx[tail + i] := src[pushed + i];
      }
      assert tx[..] == before[..tail] + src[pushed..pushed + n] + before[tail + n..];
      Ring.AppendChunk(before, tx[..], txHead, txSize, src[pushed..pushed + n]);
      txSize := txSize + n;
    }

    /** Hands the client bytes from the front until it stops taking them. */
    method FlushOutput() returns (flushed: nat)
      requires Valid()
      modifies this`txHead, this`txSize, client`sent
      ensures Valid() && flushed <= old(txSize) && (!active ==> flushed == 0)
      ensures client.sent == old(client.sent) + old(Output())[..flushed]
      ensures Output() == old(Output())[flushed..]
    {
      ghost var queued := Output();
      if !active || txSize == 0 {
        return 0;
      }
      flushed := 0;
      var connected := client.Connected();
      while txSize > 0 && connected
        invariant Valid() && flushed <= |queued|
        invariant Output() == queued[flushed..] && client.sent == old(client.sent) + queued[..flushed]
        decreases txSize
      {
        var written, stop := FlushOnce();
        MoreFlushed(old(client.sent), queued, flushed, written);
        flushed := flushed + written;
        if stop {
          break;
        }
        connected := client.Connected();
      }
    }

    /** One round of that loop. */
    method FlushOnce() returns (written: nat, stop: bool)
      requires Valid() && active && txSize > 0
      modifies this`txHead, this`txSize, client`sent
      ensures Valid() && written <= old(txSize) && txSize == old(txSize) - written && (!stop ==> written > 0)
      ensures client.sent == old(client.sent) + old(Output())[..written]
      ensures Output() == old(Output())[written..]
    {
      var n := ContiguousOutputSize();
      assert n > 0;  // so the source's test for an empty run never ends the loop
      if reportsRoom {
        var writable := client.AvailableForWrite();
        if writable <= 0 {
          return 0, true;
        }
        if n > writable {
          n := writable;
        }
      } else if n > TX_FLUSH_CHUNK {
        n := TX_FLUSH_CHUNK;
      }
      written := FlushChunk(n);
      stop := written == 0 || written < n;
    }

    /** One write of that loop: a contiguous run from the front. */
    method FlushChunk(n: nat) returns (written: nat)
      requires Valid() && active && 0 < n <= txSize && txHead + n <= TX_CAPACITY
      modifies this`txHead, this`txSize, client`sent
      ensures Valid() && written <= n && txSize == old(txSize) - written
      ensures client.sent == old(client.sent) + old(Output())[..written]
      ensures Output() == old(Output())[written..]
    {
      Ring.ContiguousPrefix(tx[..], txHead, txSize, n);
      written := client.Write(tx[txHead..txHead + n]);
      assert tx[txHead..txHead + n][..written] == Output()[..written];
      if written == 0 {
        return;
      }
      PopOutput(written);
    }

    /** Flushes what it can, then enqueues; the result is exactly the number of bytes enqueued. */
    method Write(src: seq<Byte>) returns (n: nat)
      requires Valid()
      modifies this`txHead, this`txSize, this`accepted, tx, client`sent
      ensures Valid() && n <= |src|
      ensures !active || src == [] ==> n == 0 && Output() == old(Output()) && client.sent == old(client.sent)
      ensures active ==> accepted == old(accepted) + src[..n]
      ensures active && src != [] ==>
                var flushed := |client.sent| - |old(client.sent)|;
                && 0 <= flushed <= old(txSize) && n == Min(|src|, TX_CAPACITY - (old(txSize) - flushed))
                && client.sent == old(client.sent) + old(Output())[..flushed]
                && Output() == old(Output())[flushed..] + src[..n]
    {
      if !active || |src| == 0 {
        return 0;
      }
      var flushed := FlushOutput();
      ghost var queued := Output();
      n := PushOutput(src);
      accepted := accepted + src[..n];
      assert client.sent[base..] + (queued + src[..n]) == client.sent[base..] + queued + src[..n];
    }

    /** What read_line does with one byte: it returns the line the byte ends, or buffers it, or drops a line that
        does not fit. */
    method Take(c: Byte, maxLen: nat, stripCr: bool) returns (ok: bool, dst: seq<Byte>)
      requires Shaped() && maxLen > 0
      modifies this`lineSize, line
      ensures Shaped()
      ensures var s := L.Step(LineOptions(stripCr), LINE_CAPACITY, L.State(old(Line()), [], 0), c);
              && s.buffer == Line() && ok == (s.lines != [])
              && (ok ==> |s.lines| == 1 && dst == s.lines[0][..Min(|s.lines[0]|, maxLen - 1)])
    {
      ok, dst := false, [];
      if c == '\n' {
        var len := lineSize;
        if stripCr && len > 0 && line[len - 1] == '\r' {
          len := len - 1;
        }
        assert line[..len] == L.Stripped(LineOptions(stripCr), line[..lineSize]);
        var copy := if len < maxLen - 1 then len else maxLen - 1;
        dst := line[..copy];
        assert dst == line[..len][..copy];
        lineSize := 0;
        ok := true;
        return;
      }
      if lineSize < LINE_CAPACITY {
        line[lineSize] := c;
        lineSize := lineSize + 1;
        assert line[..lineSize] == old(Line()) + [c];
      } else {
        lineSize := 0;
      }
    }

    /** Reads one line, if it has arrived: the drop-overflow framing of the bytes consumed, cut to what fits
        with its terminator into `maxLen`. */
    method ReadLine(maxLen: nat, stripCr: bool) returns (ok: bool, dst: seq<Byte>)
      requires Shaped()
      modifies this`lineSize, line, client`input
      ensures Shaped() && |client.input| <= |old(client.input)|
      ensures var consumed := old(client.input)[..|old(client.input)| - |client.input|];
              var s := L.Run(LineOptions(stripCr), LINE_CAPACITY, L.State(old(Line()), [], 0), consumed);
              && old(client.input) == consumed + client.input && s.buffer == Line()
              && if ok then maxLen > 0 && |s.lines| == 1 && dst == s.lines[0][..Min(|s.lines[0]|, maxLen - 1)]
                 else s.lines == []
    {
      ok, dst := false, [];
      ghost var o := LineOptions(stripCr);
      ghost var start := L.State(Line(), [], 0);
      ghost var input := client.input;
      ghost var done := [];
      assert L.Run(o, LINE_CAPACITY, start, []) == start;
      hide L.Run, L.Step;
      if maxLen == 0 {
        return;
      }
      var available := client.Available();
      while available > 0
        invariant Shaped() && input == done + client.input && !ok
        invariant available <= |client.input|
        invariant var s := L.Run(o, LINE_CAPACITY, start, done); s.buffer == Line() && s.lines == []
        decreases |client.input|
      {
        var c := client.Read();
        if c.None? {
          break;
        }
        L.RunSnoc(o, LINE_CAPACITY, start, done, c.value);
        L.StepShifts(o, LINE_CAPACITY, L.Run(o, LINE_CAPACITY, start, done), c.value);
        done := done + [c.value];
        ok, dst := Take(c.value, maxLen, stripCr);
        if ok {
          break;
        }
        available := client.Available();
      }
      assert input[..|input| - |client.input|] == done;
    }

    /** Any calls, with anything arriving in between: the lines returned, one after another, are the drop-overflow
        lines of all the bytes consumed, each stripped and cut as its own caller asked; nothing else is read. */
    method ReadLines(calls: seq<Call>) returns (results: seq<Option<seq<Byte>>>, ghost consumed: seq<Byte>)
      requires Shaped() && Line() == []
      modifies this`lineSize, line, client`input
      ensures Shaped() && |results| == |calls|
      ensures old(client.input) + Arrived(calls) == consumed + client.input
      ensures var s := L.Lines(LineOptions(false), LINE_CAPACITY, L.START, consumed);
              s.buffer == Line() && Delivers(calls, results, s.lines)
    {
      results, consumed := [], [];
      assert L.Run(LineOptions(false), LINE_CAPACITY, L.START, []) == L.START;
      hide L.Run, L.Lines, Delivers, Fitted;
      OneMoreCallStart();
      for i := 0 to |calls|
        invariant Shaped() && |results| == i
        invariant old(client.input) + Arrived(calls[..i]) == consumed + client.input
        invariant var s := L.Run(LineOptions(false), LINE_CAPACITY, L.START, consumed);
                  s.buffer == Line() && Delivers(calls[..i], results, s.lines)
      {
        var result;
        ghost var more, lines;
        ghost var input, before := client.input, L.Run(LineOptions(false), LINE_CAPACITY, L.START, consumed).lines;
        result, more, lines := OneCall(calls[i], consumed);
        Regroup(old(client.input), Arrived(calls[..i]), consumed, input, calls[i].arrived, more, client.input);
        OneMoreCall(calls[..i], results, before, calls[i], result, lines);
        assert calls[..i + 1] == calls[..i] + [calls[i]] && calls[..i + 1][..i] == calls[..i];
        results := results + [result];
        consumed := consumed + more;
      }
      assert calls[..|calls|] == calls;
      L.RunIsLines(LineOptions(false), LINE_CAPACITY, L.START, consumed);
    }

    /** One of them, after `consumed` was read by those before. */
    method OneCall(c: Call, ghost consumed: seq<Byte>)
      returns (result: Option<seq<Byte>>, ghost more: seq<Byte>, ghost lines: seq<seq<Byte>>)
      requires Shaped()
      requires L.Run(LineOptions(false), LINE_CAPACITY, L.START, consumed).buffer == Line()
      modifies this`lineSize, line, client`input
      ensures Shaped() && old(client.input) + c.arrived == more + client.input
      ensures var s := L.Run(LineOptions(false), LINE_CAPACITY, L.START, consumed);
              var s' := L.Run(LineOptions(false), LINE_CAPACITY, L.START, consumed + more);
              s'.buffer == Line() && s'.lines == s.lines + lines
      ensures if result.None? then lines == []
              else |lines| == 1 && c.maxLen > 0 && result.value == Fitted(c, lines[0])
    {
      client.input := client.input + c.arrived;
      ghost var input, start := client.input, L.State(Line(), [], 0);
      var ok, dst := ReadLine(c.maxLen, c.stripCr);
      more := input[..|input| - |client.input|];
      hide L.Run;
      L.RunOver(LineOptions(false), LINE_CAPACITY, L.START, consumed, more);
      L.RunStrips(LineOptions(c.stripCr), LINE_CAPACITY, start, more);
      lines := L.Run(LineOptions(false), LINE_CAPACITY, start, more).lines;
      assert LineOptions(c.stripCr).(stripCr := false) == LineOptions(false);
      result := if ok then Some(dst) else None;
    }
  }
}
