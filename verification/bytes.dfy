/** Vocabulary shared by the stream readers, the rings and the connections. */
module Bytes {

  /**
   One byte of a stream. The readers copy bytes and compare them with ASCII constants, so a Dafny
   `char` stands for a byte and character literals can be used; nothing depends on there being only 256.
   */
  type Byte = char

  datatype Option<+T> = None | Some(value: T)

  /** Statistics counters are 32-bit unsigned and wrap. */
  const WRAP32: nat := 0x1_0000_0000

  function Inc32(n: nat): nat {
    (n + 1) % WRAP32
  }

  /** A 32-bit counter stands for the true count `n`. */
  predicate Counts(counter: nat, n: nat) {
    counter == n % WRAP32
  }

  function Min(a: nat, b: nat): nat {
    if a <= b then a else b
  }

  /** The left-to-right fold of a byte-at-a-time machine over a whole input. */
  function Fold<S>(step: (S, Byte) -> S, s: S, input: seq<Byte>): S {
    if input == [] then s else Fold(step, step(s, input[0]), input[1..])
  }

  lemma {:induction false} FoldConcat<S>(step: (S, Byte) -> S, s: S, a: seq<Byte>, b: seq<Byte>)
    ensures Fold(step, s, a + b) == Fold(step, Fold(step, s, a), b)
  {
    if a == [] {
      assert a + b == b;
    } else {
      assert (a + b)[1..] == a[1..] + b;
      FoldConcat(step, step(s, a[0]), a[1..], b);
    }
  }
}
