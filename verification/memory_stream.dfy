/** src/async_event_loop/memory_stream.hpp: the ring that feeds the readers. */
module MemoryStream {
  import opened Bytes
  import Ring

  class MemoryByteStream {
    const capacity: nat
    const buffer: array<Byte>
    var head: nat
    var tail: nat
    var count: nat

    ghost predicate Valid()
      reads this
    {
      && buffer.Length == capacity > 0
      && head < capacity && count <= capacity
      && tail == Ring.Wrap(head + count, capacity)
    }

    /** The bytes still to be read, oldest first. */
    ghost function Contents(): (s: seq<Byte>)
      requires Valid()
      reads this, buffer
    {
      Ring.Slice(buffer[..], head, count)
    }

    constructor (capacity: nat)
      requires 0 < capacity
      ensures Valid() && fresh(buffer) && this.capacity == capacity && Contents() == []
    {
      this.capacity := capacity;
      buffer := new Byte[capacity](_ => '\0');
      head, tail, count := 0, 0, 0;
    }

    method Readable() returns (b: bool)
      requires Valid()
      ensures b <==> Contents() != []
    {
      b := count > 0;
    }

    method Writable() returns (b: bool)
      requires Valid()
      ensures b <==> |Contents()| < capacity
    {
      b := count < capacity;
    }

    /** Takes the oldest bytes, as many as are wanted and present, in order. */
    method Read(dst: array?<Byte>, maxLen: nat) returns (n: nat)
      requires Valid()
      requires dst != null ==> maxLen <= dst.Length && dst != buffer
      modifies this, dst
      ensures Valid()
      ensures n == if dst == null then 0 else Min(maxLen, old(|Contents()|))
      ensures Contents() == old(Contents())[n..]
      ensures dst != null ==> dst[..n] == old(Contents())[..n] && dst[n..] == old(dst[n..])
    {
      if dst == null || maxLen == 0 {
        return 0;
      }
      n := 0;
      ghost var was := Contents();
      while n < maxLen && count > 0
        modifies this, dst
        invariant Valid() && n <= maxLen && n + count == |was|
        invariant Contents() == was[n..]
        invariant dst[..n] == was[..n] && dst[n..] == old(dst[n..])
      {
        var b := Take();
        dst[n] := b;
        n := n + 1;
      }
    }

    /** The step of Read's loop on the ring. */
    method Take() returns (b: Byte)
      requires Valid() && Contents() != []
      modifies this
      ensures Valid() && [b] + Contents() == old(Contents())
    {
      Ring.DropFront(buffer[..], head, count, 1);
      Ring.WrapIsMod(head + 1, capacity);
      b := buffer[head];
      head := (head + 1) % capacity;
      count := count - 1;
    }

    /** Accepts as many bytes as fit, behind those already queued. */
    method Write(src: seq<Byte>) returns (n: nat)
      requires Valid()
      modifies this, buffer
      ensures Valid()
      ensures n == Min(|src|, capacity - old(|Contents()|))
      ensures Contents() == old(Contents()) + src[..n]
    {
      n := 0;
      ghost var was := Contents();
      while n < |src| && count < capacity
        invariant Valid() && n <= |src| && count == |was| + n
        invariant Contents() == was + src[..n]
      {
        Put(src[n]);
        n := n + 1;
        assert was + src[..n] == was + src[..n - 1] + [src[n - 1]];
      }
    }

    /** The step of Write's loop on the ring. */
    method Put(b: Byte)
      requires Valid() && |Contents()| < capacity
      modifies this, buffer
      ensures Valid() && Contents() == old(Contents()) + [b]
    {
      ghost var before := buffer[..];
      buffer[tail] := b;
      assert buffer[..] == before[..tail] + [b] + before[tail + 1..];
      Ring.AppendChunk(before, buffer[..], head, count, [b]);
      Ring.WrapIsMod(tail + 1, capacity);
      tail := (tail + 1) % capacity;
      count := count + 1;
    }

    method Clear()
      requires Valid()
      modifies this
      ensures Valid() && Contents() == []
    {
      head, tail, count := 0, 0, 0;
    }
  }
}
