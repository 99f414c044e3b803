/** Contents of a circular buffer, as a sequence, and what chunked copies do to it. */
module Ring {
  import opened Arithmetic

  /** Index `i` of a doubled buffer, folded back into `[0, n)`. */
  function Wrap(i: nat, n: nat): (r: nat)
    requires 0 < n && i < 2 * n
    ensures r < n && (r == i || r + n == i)
  {
    if i < n then i else i - n
  }

  /** The `% n` of the sources, on the range where they use it. */
  lemma WrapIsMod(i: nat, n: nat)
    requires 0 < n && i < 2 * n
    ensures i % n == Wrap(i, n)
  {
    if i >= n {
      QuotientIs(i, n, 1, i - n);
    } else {
      QuotientIs(i, n, 0, i);
    }
  }

  /** The `count` elements that start at `head`, wrapping at the end of the buffer. */
  function Slice<T>(buf: seq<T>, head: nat, count: nat): (s: seq<T>)
    requires 0 < |buf| && head < |buf| && count <= |buf|
    ensures |s| == count
    ensures forall i {:trigger s[i]} :: 0 <= i < count ==> s[i] == buf[Wrap(head + i, |buf|)]
  {
    seq(count, i requires 0 <= i < count => buf[Wrap(head + i, |buf|)])
  }

  /** Copying a chunk into the contiguous free space at the tail appends exactly that chunk. */
  lemma {:induction false} AppendChunk<T>(buf: seq<T>, buf': seq<T>, head: nat, count: nat, chunk: seq<T>)
    requires 0 < |buf| == |buf'| && head < |buf| && count + |chunk| <= |buf|
    requires var tail := Wrap(head + count, |buf|);
             tail + |chunk| <= |buf| && buf' == buf[..tail] + chunk + buf[tail + |chunk|..]
    ensures Slice(buf', head, count + |chunk|) == Slice(buf, head, count) + chunk
  {
    var n, tail := |buf|, Wrap(head + count, |buf|);
    var whole := Slice(buf', head, count + |chunk|);
    forall i | 0 <= i < count + |chunk|
      ensures whole[i] == (Slice(buf, head, count) + chunk)[i]
    {
      var p := Wrap(head + i, n);
      if i < count {
        assert p < tail || p >= tail + |chunk|;
      } else {
        assert p == tail + (i - count);
      }
    }
  }

  /** Taking `k` elements from the head leaves the rest. */
  lemma {:induction false} DropFront<T>(buf: seq<T>, head: nat, count: nat, k: nat)
    requires 0 < |buf| && head < |buf| && k <= count <= |buf|
    ensures Slice(buf, Wrap(head + k, |buf|), count - k) == Slice(buf, head, count)[k..]
  {
    var n, head' := |buf|, Wrap(head + k, |buf|);
    forall i | 0 <= i < count - k
      ensures Slice(buf, head', count - k)[i] == Slice(buf, head, count)[k..][i]
    {
      assert Slice(buf, head, count)[k..][i] == Slice(buf, head, count)[k + i];
      assert Wrap(head' + i, n) == Wrap(head + (k + i), n);
    }
  }

  /** The contiguous run at the head is a prefix of the contents. */
  lemma {:induction false} ContiguousPrefix<T>(buf: seq<T>, head: nat, count: nat, k: nat)
    requires 0 < |buf| && head < |buf| && k <= count <= |buf| && head + k <= |buf|
    ensures Slice(buf, head, count)[..k] == buf[head..head + k]
  {
    forall i | 0 <= i < k
      ensures Slice(buf, head, count)[..k][i] == buf[head..head + k][i]
    {
      assert Slice(buf, head, count)[..k][i] == Slice(buf, head, count)[i];
      assert Wrap(head + i, |buf|) == head + i;
    }
  }
}
