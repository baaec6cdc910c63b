/** Big-endian integers in byte strings. */
module BigEndian {
  import opened Base

  function Pow256(n: nat): (p: nat)
    ensures p > 0
  {
    if n == 0 then 1 else 256 * Pow256(n - 1)
  }

  /** The value of a byte string, most significant byte first. */
  function Big(b: seq<byte>): nat {
    if b == [] then 0 else 256 * Big(b[..|b| - 1]) + b[|b| - 1]
  }

  /** The `w` low bytes of `v`, most significant first. */
  function BigBytes(v: nat, w: nat): (b: seq<byte>)
    ensures |b| == w
  {
    if w == 0 then [] else BigBytes(v / 256, w - 1) + [v % 256]
  }

  lemma {:induction false} BigRoundTrip(v: nat, w: nat)
    requires v < Pow256(w)
    ensures Big(BigBytes(v, w)) == v
  {
    if w > 0 {
      var b := BigBytes(v, w);
      assert b[..w - 1] == BigBytes(v / 256, w - 1) && b[w - 1] == v % 256;
      assert v / 256 < Pow256(w - 1);
      BigRoundTrip(v / 256, w - 1);
      hide Pow256, BigBytes;
      assert Big(b) == 256 * Big(b[..w - 1]) + b[w - 1];
    }
  }

  lemma {:induction false} BigBelow(b: seq<byte>)
    ensures Big(b) < Pow256(|b|)
  {
    if b != [] {
      BigBelow(b[..|b| - 1]);
    }
  }

  /** Leading zero bytes do not change a value: the low bytes of a small number are all of it. */
  lemma {:induction false} LowBytes(v: nat, w: nat, k: nat)
    requires k <= w
    ensures BigBytes(v, w)[w - k..] == BigBytes(v, k)
  {
    if k > 0 {
      LowBytes(v / 256, w - 1, k - 1);
      var b := BigBytes(v / 256, w - 1);
      assert BigBytes(v, w)[w - k..] == b[w - k..] + [v % 256];
    }
  }

  function U16At(b: seq<byte>, i: nat): u16
    requires i + 2 <= |b|
  {
    var high: int := b[i];
    256 * high + b[i + 1]
  }

  function U32At(b: seq<byte>, i: nat): u32
    requires i + 4 <= |b|
  {
    var high: int := U16At(b, i);
    0x1_0000 * high + U16At(b, i + 2)
  }

  function PutU16(v: u16): (b: seq<byte>)
    ensures |b| == 2
  {
    [v / 256, v % 256]
  }

  function PutU32(v: u32): (b: seq<byte>)
    ensures |b| == 4
  {
    PutU16(v / 0x1_0000) + PutU16(v % 0x1_0000)
  }

  lemma {:induction false} U16RoundTrip(a: seq<byte>, v: u16, c: seq<byte>)
    ensures U16At(a + PutU16(v) + c, |a|) == v
  {
    var b := a + PutU16(v) + c;
    assert b[|a|] == v / 256 && b[|a| + 1] == v % 256;
  }

  lemma {:induction false} U32RoundTrip(a: seq<byte>, v: u32, c: seq<byte>)
    ensures U32At(a + PutU32(v) + c, |a|) == v
  {
    var hi, lo := PutU16(v / 0x1_0000), PutU16(v % 0x1_0000);
    assert a + PutU32(v) + c == a + hi + (lo + c) == (a + hi) + lo + c;
    U16RoundTrip(a, v / 0x1_0000, lo + c);
    U16RoundTrip(a + hi, v % 0x1_0000, c);
  }
}
