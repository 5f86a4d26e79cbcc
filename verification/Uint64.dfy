/** Unsigned 64-bit integers as Go computes with them: subtraction wraps below zero. */
module Uint64 {
  const TWO_63: nat := 0x8000_0000_0000_0000
  const TWO_64: nat := 0x1_0000_0000_0000_0000

  type uint64 = x: int | 0 <= x < TWO_64

  /** a - b modulo 2^64. */
  function Sub(a: uint64, b: uint64): (r: uint64)
    ensures r == if b <= a then a - b else a - b + TWO_64
  {
    (a - b) % TWO_64
  }

  /** The low 64 bits of n. */
  function Wrap(n: nat): uint64 {
    n % 0x1_0000_0000_0000_0000
  }

  /** Wrapping commutes with counting down and up. */
  lemma WrapCounts(a: nat, b: nat)
    ensures b <= a ==> Sub(Wrap(a), Wrap(b)) == Wrap(a - b)
    ensures Wrap(Wrap(a) + 1) == Wrap(a + 1)
  {
  }
}
