/** src/async_event_loop/protocol_reader.hpp: JsonProtocolReader, with its fixed buffer and stack. */
module JsonReader {
  import opened Bytes
  import opened JsonNumber
  import opened JsonBrackets
  import M = JsonMachine
  import opened MemoryStream

  class JsonProtocolReader {
    const stream: MemoryByteStream
    const skipLeadingWhitespace: bool
    const bufferSize: nat
    const buffer: array<Byte>
    const stack: array<Byte>
    var size: nat
    var depth: nat
    var inString: bool
    var escape: bool
    var literal: seq<Byte>
    var literalPos: nat
    var phase: M.Phase
    var statMessages: nat
    var statBytes: nat
    var statOverflows: nat
    var statErrors: nat

    /** What the callback received, and the counters without their wrap. */
    ghost var delivered: seq<seq<Byte>>
    ghost var overflows: nat
    ghost var errors: nat
    ghost var bytes: nat

    ghost function Cfg(): M.Config {
      M.Config(bufferSize, skipLeadingWhitespace)
    }

    ghost predicate Shaped()
      reads this
    {
      && 0 < bufferSize == buffer.Length == stack.Length && buffer != stack
      && buffer != stream.buffer && stack != stream.buffer
      && size <= bufferSize && depth <= bufferSize
      && Counts(statMessages, |delivered|) && Counts(statBytes, bytes)
      && Counts(statOverflows, overflows) && Counts(statErrors, errors)
    }

    /** The machine this object is a representation of. */
    ghost function Machine(): M.Machine
      requires Shaped()
      reads this, buffer, stack
    {
      M.Machine(phase, buffer[..size], stack[..depth], inString, escape, literal, literalPos, delivered, overflows, errors)
    }

    ghost predicate Valid()
      reads this, buffer, stack
    {
      Shaped() && M.Coherent(Cfg(), Machine())
    }

    constructor (stream: MemoryByteStream, bufferSize: nat, skipLeadingWhitespace: bool)
      requires 0 < bufferSize
      ensures Valid() && Machine() == M.START && fresh(buffer) && fresh(stack)
      ensures this.stream == stream && Cfg() == M.Config(bufferSize, skipLeadingWhitespace) && bytes == 0
    {
      this.stream := stream;
      this.skipLeadingWhitespace, this.bufferSize := skipLeadingWhitespace, bufferSize;
      buffer := new Byte[bufferSize](_ => '\0');
      stack := new Byte[bufferSize](_ => '\0');
      size, depth, inString, escape, literal, literalPos, phase := 0, 0, false, false, [], 0, M.Idle;
      statMessages, statBytes, statOverflows, statErrors := 0, 0, 0, 0;
      delivered, overflows, errors, bytes := [], 0, 0, 0;
    }

    /** Drains the stream: the machine is run over every byte that waited, in order. */
    method Poll()
      requires Valid() && stream.Valid()
      modifies this, buffer, stack, stream
      ensures Valid() && stream.Valid() && stream.Contents() == []
      ensures Machine() == M.Run(Cfg(), old(Machine()), old(stream.Contents()))
      ensures bytes == old(bytes) + old(|stream.Contents()|)
    {
      ghost var input := stream.Contents();
      ghost var final := M.Run(Cfg(), Machine(), input);
      var more := stream.Readable();
      while more
        invariant Valid() && stream.Valid()
        invariant more <==> stream.Contents() != []
        invariant M.Run(Cfg(), Machine(), stream.Contents()) == final
        invariant bytes + |stream.Contents()| == old(bytes) + |input|
        decreases |stream.Contents()|
      {
        var n := PollByte();
        if n <= 0 {
          break;
        }
        more := stream.Readable();
      }
    }

    /** One round of the loop of Poll: what the rest of the input leads to stays the same. */
    method PollByte() returns (n: nat)
      requires Valid() && stream.Valid() && stream.Contents() != []
      modifies this, buffer, stack, stream
      ensures Valid() && stream.Valid() && n == 1
      ensures stream.Contents() == old(stream.Contents())[1..]
      ensures M.Run(Cfg(), Machine(), stream.Contents()) == old(M.Run(Cfg(), Machine(), stream.Contents()))
      ensures bytes == old(bytes) + 1
    {
      ghost var input := stream.Contents();
      var byte := new Byte[1];
      n := stream.Read(byte, 1);
      if n <= 0 {
        return;
      }
      assert byte[..1][0] == input[..1][0] == input[0];
      statBytes := Inc32(statBytes);
      bytes := bytes + 1;
      Consume(byte[0]);
    }

    method Append(c: Byte) returns (ok: bool)
      requires Shaped()
      modifies this, buffer
      ensures Shaped() && ok == (old(size) < bufferSize) && bytes == old(bytes)
      ensures Machine() == if ok then M.Append(old(Machine()), c) else M.Overflow(old(Machine()))
    {
      if size >= bufferSize {
        statOverflows := Inc32(statOverflows);
        overflows := overflows + 1;
        Reset();
        return false;
      }
      buffer[size] := c;
      size := size + 1;
      return true;
    }

    method PushContainer(c: Byte) returns (ok: bool)
      requires Shaped()
      modifies this, stack
      ensures Shaped() && ok == (old(depth) < bufferSize) && bytes == old(bytes)
      ensures ok ==> Machine() == old(Machine()).(stack := old(Machine()).stack + [c])
      ensures !ok ==> Machine() == M.Overflow(old(Machine()))
    {
      if depth >= bufferSize {
        statOverflows := Inc32(statOverflows);
        overflows := overflows + 1;
        Reset();
        return false;
      }
      stack[depth] := c;
      depth := depth + 1;
      return true;
    }

    method PopContainer(c: Byte) returns (ok: bool)
      requires Shaped()
      requires depth > 0 ==> IsOpener(stack[depth - 1])
      requires IsCloser(c)
      modifies this
      ensures Shaped() && bytes == old(bytes)
      ensures ok == (old(depth) > 0 && c == CloserOf(old(stack[depth - 1])))
      ensures ok ==> Machine() == old(Machine()).(stack := old(Machine()).stack[..old(depth) - 1])
      ensures !ok ==> Machine() == M.Fail(old(Machine()))
    {
      if depth == 0 {
        Fail();
        return false;
      }
      var open := stack[depth - 1];
      if (open == '{' && c != '}') || (open == '[' && c != ']') {
        Fail();
        return false;
      }
      depth := depth - 1;
      return true;
    }

    method Consume(c: Byte)
      requires Valid()
      modifies this, buffer, stack
      ensures Valid() && bytes == old(bytes)
      ensures Machine() == M.Consume(Cfg(), old(Machine()), c)
      decreases if phase.NumberValue? then 1 else 0
    {
      hide Counts;
      M.ConsumeCoherent(Cfg(), Machine(), c);
      match phase
      case Idle => ConsumeIdle(c);
      case Container => ConsumeContainer(c);
      case StringValue => ConsumeStringValue(c);
      case NumberValue => ConsumeNumberValue(c);
      case LiteralValue => ConsumeLiteralValue(c);
    }

    method ConsumeIdle(c: Byte)
      requires Valid() && phase.Idle?
      modifies this, buffer, stack
      ensures Shaped() && bytes == old(bytes)
      ensures Machine() == M.FromIdle(Cfg(), old(Machine()), c)
    {
      hide Counts;
      var ok;
      if skipLeadingWhitespace && M.IsWs(c) {
        return;
      }
      if c == '{' || c == '[' {
        ok := Append(c);
        if !ok {
          return;
        }
        ok := PushContainer(c);
        if !ok {
          return;
        }
        phase := M.Container;
        inString := false;
        escape := false;
        return;
      }
      if c == '"' {
        ok := Append(c);
        if !ok {
          return;
        }
        phase := M.StringValue;
        escape := false;
        return;
      }
      if c == '-' || IsDigit(c) {
        ok := Append(c);
        if !ok {
          return;
        }
        phase := M.NumberValue;
        return;
      }
      if c == 't' {
        StartLiteral("true", c);
        return;
      }
      if c == 'f' {
        StartLiteral("false", c);
        return;
      }
      if c == 'n' {
        StartLiteral("null", c);
        return;
      }
      Fail();
    }

    method ConsumeContainer(c: Byte)
      requires Valid() && phase.Container?
      modifies this, buffer, stack
      ensures Shaped() && bytes == old(bytes)
      ensures Machine() == M.Consume(Cfg(), old(Machine()), c)
    {
      hide Counts;
      ghost var m := Machine();
      var ok := Append(c);
      if !ok {
        return;
      }
      if inString {
        if escape {
          escape := false;
        } else if c == '\\' {
          escape := true;
        } else if c == '"' {
          inString := false;
        }
        return;
      }
      if c == '"' {
        inString := true;
        return;
      }
      if c == '{' || c == '[' {
        ok := PushContainer(c);
        assert ok;  // the stack cannot overflow: it is never deeper than the buffer was long
        return;
      }
      if c == '}' || c == ']' {
        assert stack[depth - 1] == m.stack[|m.stack| - 1];
        M.StackOfOpeners(Cfg(), m);
        ok := PopContainer(c);
        if ok && depth == 0 {
          EmitJson();
        }
      }
    }

    method ConsumeStringValue(c: Byte)
      requires Valid() && phase.StringValue?
      modifies this, buffer, stack
      ensures Shaped() && bytes == old(bytes)
      ensures Machine() == M.Consume(Cfg(), old(Machine()), c)
    {
      var ok := Append(c);
      if !ok {
        return;
      }
      if escape {
        escape := false;
        return;
      }
      if c == '\\' {
        escape := true;
        return;
      }
      if c == '"' {
        EmitJson();
      }
    }

    method ConsumeNumberValue(c: Byte)
      requires Valid() && phase.NumberValue?
      modifies this, buffer, stack
      ensures Shaped() && bytes == old(bytes)
      ensures Machine() == M.Consume(Cfg(), old(Machine()), c)
      decreases 1, 0
    {
      if IsNumberByte(c) {
        var _ := Append(c);
        return;
      }
      var valid := ValidNumber(buffer[..size]);
      if valid {
        EmitJson();
      } else {
        Fail();
      }
      Consume(c);
    }

    method StartLiteral(text: seq<Byte>, first: Byte)
      requires Shaped()
      modifies this, buffer
      ensures Shaped() && bytes == old(bytes)
      ensures Machine() == M.InLiteral(Cfg(), old(Machine()).(phase := M.LiteralValue, literal := text, literalPos := 0), first)
    {
      literal := text;
      literalPos := 0;
      phase := M.LiteralValue;
      ConsumeLiteralValue(first);
    }

    method ConsumeLiteralValue(c: Byte)
      requires Shaped()
      modifies this, buffer
      ensures Shaped() && bytes == old(bytes)
      ensures Machine() == M.InLiteral(Cfg(), old(Machine()), c)
    {
      if literalPos >= |literal| || literal[literalPos] != c {
        Fail();
        return;
      }
      var ok := Append(c);
      if !ok {
        return;
      }
      literalPos := literalPos + 1;
      if literalPos == |literal| {
        EmitJson();
      }
    }

    method EmitJson()
      requires Shaped()
      modifies this
      ensures Shaped() && bytes == old(bytes)
      ensures Machine() == M.Emit(old(Machine()))
    {
      delivered := delivered + [buffer[..size]];
      statMessages := Inc32(statMessages);
      Reset();
    }

    /** A protocol error: counted, and whatever was buffered is dropped. */
    method Fail()
      requires Shaped()
      modifies this
      ensures Shaped() && bytes == old(bytes)
      ensures Machine() == M.Fail(old(Machine()))
    {
      statErrors := Inc32(statErrors);
      errors := errors + 1;
      Reset();
    }

    method Reset()
      requires Shaped()
      modifies this`phase, this`size, this`depth, this`inString, this`escape, this`literal, this`literalPos
      ensures Shaped()
      ensures Machine() == M.Reset(old(Machine()))
    {
      hide Counts;
      phase := M.Idle;
      size := 0;
      depth := 0;
      inString := false;
      escape := false;
      literal := [];
      literalPos := 0;
    }
  }
}
