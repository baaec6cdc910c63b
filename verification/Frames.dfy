/** Captured frames, and the nearest-neighbour scaling of them. */
module Frames {
  import opened Base

  /** One RGBA pixel. */
  type Pixel = u32

  datatype RawFrame = Frame(w: nat, h: nat, rows: seq<seq<Pixel>>) {
    predicate Valid() {
      |rows| == h && forall y :: 0 <= y < h ==> |rows[y]| == w
    }
  }

  type Frame = f: RawFrame | f.Valid() witness Frame(0, 0, [])

  function At(f: Frame, x: nat, y: nat): Pixel
    requires x < f.w && y < f.h
  {
    f.rows[y][x]
  }

  predicate SameSize(f: Frame, g: Frame) {
    f.w == g.w && f.h == g.h
  }

  lemma {:induction false} FramesEqual(f: Frame, g: Frame)
    requires SameSize(f, g) && forall x, y :: 0 <= x < f.w && 0 <= y < f.h ==> At(f, x, y) == At(g, x, y)
    ensures f == g
  {
    forall y | 0 <= y < f.h
      ensures f.rows[y] == g.rows[y]
    {
      assert forall x :: 0 <= x < f.w ==> At(f, x, y) == At(g, x, y);
      assert forall x :: 0 <= x < f.w ==> f.rows[y][x] == At(f, x, y) == g.rows[y][x];
    }
  }

  /** The frame whose pixels a function gives. */
  function Drawn(w: nat, h: nat, pixel: (nat, nat) --> Pixel): (f: Frame)
    requires forall x: nat, y: nat :: x < w && y < h ==> pixel.requires(x, y)
    ensures f.w == w && f.h == h
    ensures forall x, y :: 0 <= x < w && 0 <= y < h ==> At(f, x, y) == pixel(x, y)
  {
    Frame(w, h, seq(h, y requires 0 <= y < h => seq(w, x requires 0 <= x < w => pixel(x, y))))
  }

  // ----- scaling -----

  /** The source coordinate for `x` of `n` when the source has `m`. */
  function Nearest(x: nat, m: nat, n: nat): (s: nat)
    requires x < n && 0 < m
    ensures s < m && (m == n ==> s == x)
  {
    NearestInside(x, m, n);
    x * m / n
  }

  lemma {:induction false} NearestInside(x: nat, m: nat, n: nat)
    requires x < n && 0 < m
    ensures x * m / n < m && (m == n ==> x * m / n == x)
  {
    MulMono(x + 1, n, m);
    assert (x + 1) * m == x * m + m;
    var q := x * m / n;
    assert q * n <= x * m < n * m;
    if m <= q {
      MulMono(m, q, n);
    }
    if m == n {
      DivModIs(x * n, x, 0, n);
    }
  }

  /** Nearest-neighbour sampling to a given size. */
  function Sampled(src: Frame, nw: nat, nh: nat): (f: Frame)
    requires src.w > 0 && src.h > 0
    ensures f.w == nw && f.h == nh
  {
    Drawn(nw, nh, (x: nat, y: nat) requires x < nw && y < nh => At(src, Nearest(x, src.w, nw), Nearest(y, src.h, nh)))
  }

  lemma {:induction false} SampledIdentity(src: Frame)
    requires src.w > 0 && src.h > 0
    ensures Sampled(src, src.w, src.h) == src
  {
    FramesEqual(Sampled(src, src.w, src.h), src);
  }

  /** The pixel of `src` at `(sx, sy)` is the one on which the pixel `(x, y)` of a picture of `w` by `h` falls. */
  predicate FallsOn(src: Frame, w: nat, h: nat, x: nat, y: nat, sx: nat, sy: nat) {
    && sx * w <= x * src.w < (sx + 1) * w
    && sy * h <= y * src.h < (sy + 1) * h
  }

  /** A pixel of `f` shows the source pixel on which it falls. */
  ghost predicate ShowsSource(src: Frame, f: Frame, x: nat, y: nat)
    requires x < f.w && y < f.h
  {
    exists sx: nat, sy: nat ::
      sx < src.w && sy < src.h && FallsOn(src, f.w, f.h, x, y, sx, sy) && At(f, x, y) == At(src, sx, sy)
  }

  ghost predicate IsScaling(src: Frame, f: Frame) {
    forall x: nat, y: nat :: x < f.w && y < f.h ==> ShowsSource(src, f, x, y)
  }

  lemma {:induction false} NearestCell(x: nat, m: nat, n: nat)
    requires x < n && 0 < m
    ensures var s := Nearest(x, m, n); s * n <= x * m < (s + 1) * n
  {
    var q, r := x * m / n, x * m % n;
    assert x * m == q * n + r && (q + 1) * n == q * n + n;
  }

  lemma {:induction false} SampledScales(src: Frame, nw: nat, nh: nat)
    requires src.w > 0 && src.h > 0
    ensures IsScaling(src, Sampled(src, nw, nh))
  {
    hide Nearest, FallsOn;
    var f := Sampled(src, nw, nh);
    forall x: nat, y: nat | x < f.w && y < f.h
      ensures ShowsSource(src, f, x, y)
    {
      var sx, sy := Nearest(x, src.w, nw), Nearest(y, src.h, nh);
      FallsOnNearest(src, nw, nh, x, y);
      assert At(f, x, y) == At(src, sx, sy);
    }
  }

  lemma {:induction false} FallsOnNearest(src: Frame, w: nat, h: nat, x: nat, y: nat)
    requires src.w > 0 && src.h > 0 && x < w && y < h
    ensures FallsOn(src, w, h, x, y, Nearest(x, src.w, w), Nearest(y, src.h, h))
  {
    NearestCell(x, src.w, w);
    NearestCell(y, src.h, h);
  }

  /** At most one source coordinate is the one on which a coordinate falls. */
  lemma {:induction false} OneCell(n: nat, p: nat, s: nat, t: nat)
    requires s * n <= p < (s + 1) * n && t * n <= p < (t + 1) * n
    ensures s == t
  {
    if s < t {
      MulMono(s + 1, t, n);
    } else if t < s {
      MulMono(t + 1, s, n);
    }
  }

  /** A source and a size allow one scaling only. */
  lemma {:induction false} OneScaling(src: Frame, f: Frame, g: Frame)
    requires SameSize(f, g) && IsScaling(src, f) && IsScaling(src, g)
    ensures f == g
  {
    forall x: nat, y: nat | x < f.w && y < f.h
      ensures At(f, x, y) == At(g, x, y)
    {
      assert ShowsSource(src, f, x, y) && ShowsSource(src, g, x, y);
      var sx: nat, sy: nat :|
        sx < src.w && sy < src.h && FallsOn(src, f.w, f.h, x, y, sx, sy) && At(f, x, y) == At(src, sx, sy);
      var tx: nat, ty: nat :|
        tx < src.w && ty < src.h && FallsOn(src, g.w, g.h, x, y, tx, ty) && At(g, x, y) == At(src, tx, ty);
      OneCell(f.w, x * src.w, sx, tx);
      OneCell(f.h, y * src.h, sy, ty);
    }
    FramesEqual(f, g);
  }

  function ScaledLength(len: nat, scale: real): int {
    (len as real * scale).Floor
  }

  function ScaleImage(src: Frame, scale: real): Frame {
    if scale <= 0.0 || scale >= 0.99 then src else
    var nw, nh := ScaledLength(src.w, scale), ScaledLength(src.h, scale);
    if nw < 8 || nh < 8 then src else
    Sampled(src, nw, nh)
  }

  /**
   A scale below 0.99 that leaves at least eight pixels each way gives a scaling of the frame in
   the scaled size, rounded down; any other gives the frame itself.
   */
  lemma {:induction false} ScaleImageExactly(src: Frame, scale: real)
    ensures var f := ScaleImage(src, scale); var w, h := src.w as real * scale, src.h as real * scale;
      if 0.0 < scale < 0.99 && 8.0 <= w && 8.0 <= h
      then IsScaling(src, f) && f.w as real <= w < (f.w + 1) as real && f.h as real <= h < (f.h + 1) as real
      else f == src
  {
    hide IsScaling, Sampled;
    if 0.0 < scale < 0.99 && 8.0 <= src.w as real * scale && 8.0 <= src.h as real * scale {
      SampledScales(src, ScaledLength(src.w, scale), ScaledLength(src.h, scale));
    }
  }

  /** However a frame was scaled, the result is determined by its size. */
  lemma {:induction false} SizeDetermines(src: Frame, s: real, t: real)
    requires SameSize(ScaleImage(src, s), ScaleImage(src, t))
    ensures ScaleImage(src, s) == ScaleImage(src, t)
  {
    if src.w > 0 && src.h > 0 {
      SampledIdentity(src);
    }
  }

  function Picture(dst: array2<Pixel>): (f: Frame)
    reads dst
    ensures f.w == dst.Length1 && f.h == dst.Length0
    ensures forall x, y :: 0 <= x < f.w && 0 <= y < f.h ==> At(f, x, y) == dst[y, x]
  {
    Frame(dst.Length1, dst.Length0,
      seq(dst.Length0, y requires 0 <= y < dst.Length0 reads dst =>
        seq(dst.Length1, x requires 0 <= x < dst.Length1 reads dst => dst[y, x])))
  }

  method ScaleImageNN(src: Frame, nw: nat, nh: nat) returns (dst: array2<Pixel>)
    requires src.w > 0 && src.h > 0
    ensures fresh(dst) && Picture(dst) == Sampled(src, nw, nh)
    ensures dst.Length1 == nw && dst.Length0 == nh && IsScaling(src, Picture(dst))
  {
    hide IsScaling;
    dst := new Pixel[nh, nw];
    var goal := Sampled(src, nw, nh);
    for y := 0 to nh
      invariant forall j, i :: 0 <= j < y && 0 <= i < nw ==> dst[j, i] == At(goal, i, j)
    {
      var sy := Nearest(y, src.h, nh);
      for x := 0 to nw
        invariant forall j, i :: 0 <= j < y && 0 <= i < nw ==> dst[j, i] == At(goal, i, j)
        invariant forall i :: 0 <= i < x ==> dst[y, i] == At(goal, i, y)
      {
        var sx := Nearest(x, src.w, nw);
        dst[y, x] := src.rows[sy][sx];
      }
    }
    FramesEqual(Picture(dst), goal);
    SampledScales(src, nw, nh);
  }

  method ScaleFrame(src: Frame, scale: real) returns (dst: Frame)
    ensures dst == ScaleImage(src, scale)
  {
    if scale <= 0.0 || scale >= 0.99 {
      return src;
    }
    var nw, nh := ScaledLength(src.w, scale), ScaledLength(src.h, scale);
    if nw < 8 || nh < 8 {
      return src;
    }
    var pix := ScaleImageNN(src, nw, nh);
    return Picture(pix);
  }
}
