/** The browser's canvas: painting whole frames and changed rectangles. */
module DeskCanvas {
  import opened Base
  import opened BigEndian
  import opened Frames
  import opened TileMerge
  import opened DeskTiles
  import opened TileCodec

  /** Drawing a picture at a size gives that size, and at its own size it gives the picture. */
  ghost predicate Draws(m: Media) {
    forall f, w, h {:trigger m.stretch(f, w, h)} ::
      m.stretch(f, w, h).w == w && m.stretch(f, w, h).h == h && (f.w == w && f.h == h ==> m.stretch(f, w, h) == f)
  }

  function PastedAt(c: Frame, x: nat, y: nat, img: Frame, i: nat, j: nat): Pixel
    requires i < c.w && j < c.h
  {
    if x <= i < x + img.w && y <= j < y + img.h then At(img, i - x, j - y) else At(c, i, j)
  }

  /** The picture drawn onto the canvas with its corner at (`x`, `y`). */
  function Paste(c: Frame, x: nat, y: nat, img: Frame): (f: Frame)
    ensures f.w == c.w && f.h == c.h
  {
    Drawn(c.w, c.h, (i: nat, j: nat) requires i < c.w && j < c.h => PastedAt(c, x, y, img, i, j))
  }

  /** A picture that cannot be decoded is left out. */
  function PaintJob(m: Media, c: Frame, job: Job): (f: Frame)
    ensures f.w == c.w && f.h == c.h
  {
    match m.decode(job.jpeg)
    case Some(img) => Paste(c, job.x, job.y, m.stretch(img, job.w, job.h))
    case None => c
  }

  function PaintJobs(m: Media, c: Frame, jobs: seq<Job>): (f: Frame)
    ensures f.w == c.w && f.h == c.h
  {
    if jobs == [] then c else PaintJob(m, PaintJobs(m, c, jobs[..|jobs| - 1]), jobs[|jobs| - 1])
  }

  /** A message of rectangles is ignored unless it is for a canvas of this size. */
  function OnTiles(m: Media, c: Frame, p: seq<byte>): (f: Frame)
    ensures f.w == c.w && f.h == c.h
  {
    if |p| < 6 || U16At(p, 0) == 0 || U16At(p, 2) == 0 || U16At(p, 4) == 0 then c
    else if c.w != U16At(p, 0) || c.h != U16At(p, 2) then c
    else PaintJobs(m, c, JobsFrom(p, 6, U16At(p, 4)).jobs)
  }

  /** The two differ by no more than the slack in either direction. */
  predicate Near(slack: nat, c: Frame, img: Frame) {
    c.w - img.w <= slack && img.w - c.w <= slack && c.h - img.h <= slack && img.h - c.h <= slack
  }

  /**
   A whole frame is drawn over the whole canvas, which takes on the frame's size first unless it
   is that size already, give or take the slack. The live view has a slack of two pixels and the
   player of recordings none.
   */
  function OnKey(m: Media, slack: nat, c: Frame, jpeg: seq<byte>): Frame {
    match m.decode(jpeg)
    case None => c
    case Some(img) =>
      if img.w == 0 || img.h == 0 then c
      else if Near(slack, c, img) then m.stretch(img, c.w, c.h)
      else m.stretch(img, img.w, img.h)
  }

  // ----- tiles repaint exactly -----

  /** Below, the pixels already painted are those of the first `n` rectangles. */
  ghost predicate Painted(base: Frame, f: Frame, rects: seq<Rect>, n: nat, c: Frame)
    requires SameSize(base, f) && n <= |rects|
  {
    && SameSize(c, f)
    && forall x: nat, y: nat :: x < f.w && y < f.h ==>
         At(c, x, y) == if Covered(rects[..n], x, y) then At(f, x, y) else At(base, x, y)
  }

  lemma {:induction false} CoveredStep(rects: seq<Rect>, n: nat, x: int, y: int)
    requires n < |rects|
    ensures Covered(rects[..n + 1], x, y) <==> Covered(rects[..n], x, y) || rects[n].Has(x, y)
  {
    assert rects[..n + 1] == rects[..n] + [rects[n]];
    if i :| 0 <= i < n && rects[..n][i].Has(x, y) {
      assert rects[..n + 1][i].Has(x, y);
    }
    if rects[n].Has(x, y) {
      assert rects[..n + 1][n].Has(x, y);
    }
  }

  lemma {:induction false} JobPaints(m: Media, f: Frame, r: Rect, q: int, c: Frame)
    requires Lossless(m) && Draws(m) && SameSize(c, f) && Inside(r, f) && f.w < 0x1_0000 && f.h < 0x1_0000
    requires m.encode(SubImage(f, r), q).Some?
    ensures forall x: nat, y: nat :: x < f.w && y < f.h ==>
      At(PaintJob(m, c, JobOf(m, f, r, q)), x, y) == if r.Has(x, y) then At(f, x, y) else At(c, x, y)
  {
    var sub := SubImage(f, r);
    var job := JobOf(m, f, r, q);
    assert m.decode(job.jpeg) == Some(sub);
    assert m.stretch(sub, job.w, job.h) == sub;
    assert PaintJob(m, c, job) == Paste(c, r.x0, r.y0, sub);
  }

  lemma {:induction false} JobsPaint(m: Media, base: Frame, f: Frame, rects: seq<Rect>, q: int, jobs: seq<Job>, n: nat)
    requires Lossless(m) && Draws(m) && SameSize(base, f)
    requires AllInside(rects, f) && AreJobs(m, f, rects, q, 0, jobs) && n <= |jobs|
    ensures Painted(base, f, rects, n, PaintJobs(m, base, jobs[..n]))
  {
    hide Lossless, Draws, SubImage, JobOf, PaintJob, Inside;
    if n > 0 {
      JobsPaint(m, base, f, rects, q, jobs, n - 1);
      var c := PaintJobs(m, base, jobs[..n - 1]);
      assert jobs[..n][..n - 1] == jobs[..n - 1];
      assert PaintJobs(m, base, jobs[..n]) == PaintJob(m, c, jobs[n - 1]);
      hide PaintJobs;
      assert jobs[n - 1] == JobOf(m, f, rects[n - 1], q);
      JobPaints(m, f, rects[n - 1], q, c) by { assert Inside(rects[n - 1], f); }
      forall x: nat, y: nat
        ensures Covered(rects[..n], x, y) <==> Covered(rects[..n - 1], x, y) || rects[n - 1].Has(x, y)
      {
        CoveredStep(rects, n - 1, x, y);
      }
    }
  }

  /** The message of an exact difference turns the old frame into the new one. */
  lemma {:induction false} TilesRepaint(m: Media, base: Frame, f: Frame, rects: seq<Rect>, q: int)
    requires Lossless(m) && Draws(m) && SameSize(base, f) && 0 < f.w < 0x1_0000 && 0 < f.h < 0x1_0000
    requires ExactDifference(base, f, rects) && AllInside(rects, f) && TilesMessage(m, f, rects, q).Some?
    ensures OnTiles(m, base, TilesMessage(m, f, rects, q).value) == f
    ensures forall c: Frame :: !SameSize(c, f) ==> OnTiles(m, c, TilesMessage(m, f, rects, q).value) == c
  {
    hide Lossless, Draws, TilesMessage, PaintJobs, JobsFrom, U16At, SameTile;
    var p := TilesMessage(m, f, rects, q).value;
    MessageReadBack(m, f, rects, q);
    var jobs := JobsFrom(p, 6, |rects|).jobs;
    JobsPaint(m, base, f, rects, q, jobs, |jobs|);
    assert jobs[..|jobs|] == jobs && rects[..|rects|] == rects;
    var c := PaintJobs(m, base, jobs);
    forall x, y | 0 <= x < f.w && 0 <= y < f.h
      ensures At(c, x, y) == At(f, x, y)
    {
      if !Covered(rects, x, y) {
        assert SameTile(base, f, x / TILE, y / TILE);
        SameTileAt(base, f, x, y);
      }
    }
    FramesEqual(c, f);
    if rects == [] {
      NothingToPaint(m, base);
    }
  }

  lemma {:induction false} SameTileAt(f: Frame, g: Frame, x: nat, y: nat)
    requires SameSize(f, g) && x < f.w && y < f.h && SameTile(f, g, x / TILE, y / TILE)
    ensures At(f, x, y) == At(g, x, y)
  {
  }

  lemma {:induction false} NothingToPaint(m: Media, c: Frame)
    ensures PaintJobs(m, c, []) == c
  {
  }
}
