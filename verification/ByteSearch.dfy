/** Searching a byte string for a pattern, and what more bytes at the end change about it. */
module ByteSearch {
  import opened Base

  const CR: byte := 13
  const LF: byte := 10
  const CRLF: seq<byte> := [CR, LF]

  function Ascii(s: string): (r: seq<byte>)
    ensures |r| == |s|
  {
    seq(|s|, i requires 0 <= i < |s| => s[i] as int % 0x100)
  }

  predicate At(b: seq<byte>, pat: seq<byte>, i: int) {
    0 <= i <= i + |pat| <= |b| && b[i..i + |pat|] == pat
  }

  function IndexFrom(b: seq<byte>, pat: seq<byte>, from: nat): (r: int)
    ensures r == -1 || from <= r
    ensures r >= 0 ==> At(b, pat, r) && forall j :: from <= j < r ==> !At(b, pat, j)
    ensures r == -1 ==> forall j :: from <= j ==> !At(b, pat, j)
    decreases |b| - from
  {
    if from + |pat| > |b| then -1
    else if At(b, pat, from) then from
    else IndexFrom(b, pat, from + 1)
  }

  /** The first place where `pat` occurs in `b`, or -1. */
  function Index(b: seq<byte>, pat: seq<byte>): (r: int)
    ensures r == -1 || 0 <= r
    ensures r >= 0 ==> At(b, pat, r) && forall j :: 0 <= j < r ==> !At(b, pat, j)
    ensures r == -1 ==> forall j :: 0 <= j ==> !At(b, pat, j)
  {
    IndexFrom(b, pat, 0)
  }

  lemma {:induction false} AtExtend(b: seq<byte>, ext: seq<byte>, pat: seq<byte>, i: int)
    requires 0 <= i <= i + |pat| <= |b|
    ensures At(b + ext, pat, i) <==> At(b, pat, i)
  {
    assert (b + ext)[i..i + |pat|] == b[i..i + |pat|];
  }

  /** A first occurrence stays the first when bytes are added at the end. */
  lemma {:induction false} IndexExtend(b: seq<byte>, ext: seq<byte>, pat: seq<byte>)
    requires Index(b, pat) >= 0
    ensures Index(b + ext, pat) == Index(b, pat)
  {
    var i := Index(b, pat);
    AtExtend(b, ext, pat, i);
    forall j | 0 <= j < i
      ensures !At(b + ext, pat, j)
    {
      AtExtend(b, ext, pat, j);
    }
  }

  /** A known first occurrence is what `Index` finds. */
  lemma {:induction false} IndexIs(b: seq<byte>, pat: seq<byte>, i: int)
    requires At(b, pat, i) && forall j :: 0 <= j < i ==> !At(b, pat, j)
    ensures Index(b, pat) == i
  {
  }

  lemma {:induction false} AtLineEnd(b: seq<byte>, i: nat)
    ensures At(b, CRLF, i) <==> i + 2 <= |b| && b[i] == CR && b[i + 1] == LF
  {
    if i + 2 <= |b| {
      var w := b[i..i + 2];
      assert w[0] == b[i] && w[1] == b[i + 1];
      assert w == CRLF <==> w[0] == CR && w[1] == LF;
    }
  }

  /** A line without a line end in it ends at the first CRLF after it. */
  lemma {:induction false} IndexOfLineEnd(line: seq<byte>, rest: seq<byte>)
    requires Index(line, CRLF) == -1
    ensures Index(line + CRLF + rest, CRLF) == |line|
  {
    var b := line + CRLF + rest;
    AtLineEnd(b, |line|);
    forall j | 0 <= j < |line|
      ensures !At(b, CRLF, j)
    {
      AtLineEnd(b, j);
      AtLineEnd(line, j);
      assert !At(line, CRLF, j);
    }
    IndexIs(b, CRLF, |line|);
  }

  /** No proper prefix of a line and its end contains a CRLF. */
  lemma {:induction false} NoLineEndBefore(line: seq<byte>, k: nat)
    requires Index(line, CRLF) == -1 && k < |line| + 2
    ensures Index((line + CRLF)[..k], CRLF) == -1
  {
    var p := (line + CRLF)[..k];
    forall j | 0 <= j
      ensures !At(p, CRLF, j)
    {
      AtLineEnd(p, j);
      AtLineEnd(line, j);
      assert !At(line, CRLF, j);
    }
  }
}
