/**
 Wrapping 32-bit TCP sequence numbers (RFC 9293, section 3.4) and their comparison by
 the sign of a 32-bit difference.
 */
module SeqSpace {
  import opened Base

  const MODULUS := 0x1_0000_0000
  const HALF := 0x8000_0000

  /** Reduction to 32 bits; the first cases keep everyday arguments linear. */
  function Wrap(x: int): u32 {
    if 0 <= x < MODULUS then x
    else if MODULUS <= x < 2 * MODULUS then x - MODULUS
    else if -MODULUS <= x < 0 then x + MODULUS
    else x % MODULUS
  }

  function Add(a: u32, n: int): u32 {
    Wrap(a + n)
  }

  function Sub(a: u32, b: u32): u32 {
    if a >= b then a - b else a - b + MODULUS
  }

  /** `int32(a-b) < 0` */
  predicate SeqLT(a: u32, b: u32) {
    Sub(a, b) >= HALF
  }

  /** `int32(a-b) <= 0` */
  predicate SeqLE(a: u32, b: u32) {
    Sub(a, b) >= HALF || a == b
  }

  /** The sequence number of the stream offset `off` when offset 0 carries `isn`. */
  function SeqOf(isn: u32, off: int): u32 {
    Wrap(isn + off)
  }

  lemma {:induction false} AddNothing(a: u32)
    ensures Add(a, 0) == a
  {
  }

  lemma {:induction false} AddOfSeq(isn: u32, a: int, n: int)
    requires 0 <= a < HALF && 0 <= a + n < HALF
    ensures Add(SeqOf(isn, a), n) == SeqOf(isn, a + n)
  {
  }

  /**
   Two offsets less than 2^32 apart compare correctly exactly when they are within half the
   space: the condition under which the code's comparisons mean what they say.
   */
  lemma {:induction false} ComparisonFaithful(isn: u32, a: int, b: int)
    requires 0 <= a < MODULUS && 0 <= b < MODULUS
    ensures (SeqLT(SeqOf(isn, a), SeqOf(isn, b)) <==> a < b) <==> -HALF <= a - b < HALF
    ensures -HALF <= a - b < HALF ==> (SeqLE(SeqOf(isn, a), SeqOf(isn, b)) <==> a <= b)
  {
  }

  /** Inside one window shorter than 2^31 sequence numbers behave like the offsets they stand for. */
  lemma {:induction false} InWindow(isn: u32, a: int, b: int)
    requires 0 <= a < HALF && 0 <= b < HALF
    ensures SeqLT(SeqOf(isn, a), SeqOf(isn, b)) <==> a < b
    ensures SeqLE(SeqOf(isn, a), SeqOf(isn, b)) <==> a <= b
    ensures SeqOf(isn, a) == SeqOf(isn, b) <==> a == b
    ensures a >= b ==> Sub(SeqOf(isn, a), SeqOf(isn, b)) == a - b
  {
  }
}
