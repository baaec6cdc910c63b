/** Which changes are reported as rectangles, and which ask for a whole frame. */
module DeskReports {
  import opened Base
  import opened Frames
  import opened TileMerge
  import opened DeskTiles
  import opened TileCodec
  import opened DeskEncoder

  /** The grid of the tiles on which two frames differ. */
  ghost function DiffGrid(f: Frame, g: Frame): (d: Grid)
    requires SameSize(f, g)
    ensures d.Valid() && d.cols == Tiles(f.w) && d.rows == Tiles(f.h)
  {
    var cols, rows := Tiles(f.w), Tiles(f.h);
    Grid(seq(cols * rows, i requires 0 <= i < cols * rows =>
      TileIndex(i, cols, rows); !SameTile(f, g, i % cols, i / cols)), cols, rows)
  }

  ghost function DirtyTiles(g: Grid): set<nat> {
    set i: nat | i < |g.dirty| && g.dirty[i]
  }

  /** With a separating checksum, what the tiler compares is that grid. */
  lemma {:induction false} ComparedGrid(hash: Hash, f: Frame, g: Frame)
    requires SameSize(f, g) && Separates(hash, {f, g})
    ensures Grid(Differ(Sums(hash, f), Sums(hash, g)), Tiles(f.w), Tiles(f.h)) == DiffGrid(f, g)
  {
    hide Sums, Tiles, Separates, SameTile;
    var cols, rows := Tiles(f.w), Tiles(f.h);
    var a, b := Grid(Differ(Sums(hash, f), Sums(hash, g)), cols, rows), DiffGrid(f, g);
    forall i | 0 <= i < |a.dirty|
      ensures a.dirty[i] == b.dirty[i]
    {
      TileIndex(i, cols, rows);
      DirtyExactly(hash, f, g, i % cols, i / cols);
      assert i / cols * cols + i % cols == i;
    }
    assert a.dirty == b.dirty;
  }

  lemma {:induction false} CountIs(d: seq<bool>)
    ensures Count(d) == |set i: nat | i < |d| && d[i]|
  {
    var all := set i: nat | i < |d| && d[i];
    if d == [] {
      assert all == {};
    } else {
      var n := |d| - 1;
      CountIs(d[..n]);
      var front := set i: nat | i < |d[..n]| && d[..n][i];
      assert all == if d[n] then front + {n} else front;
    }
  }

  /** The index of a block's first tile. */
  function Corner(g: Grid, b: Block): int {
    b.y0 * g.cols + b.run.x0
  }

  lemma {:induction false} CornerDirty(g: Grid, b: Block)
    requires g.Valid() && IsBlock(g, b)
    ensures Corner(g, b) >= 0 && Corner(g, b) in DirtyTiles(g)
    ensures Corner(g, b) % g.cols == b.run.x0 && Corner(g, b) / g.cols == b.y0
  {
    BlockInside(g, b);
    TileOfBlock(g, b, b.run.x0, b.y0);
    DivModIs(Corner(g, b), b.y0, b.run.x0, g.cols);
  }

  /** There are no more blocks than dirty tiles. */
  lemma {:induction false} FewBlocks(g: Grid, blocks: seq<Block>)
    requires g.Valid() && ListsBlocks(g, blocks)
    ensures |blocks| <= |DirtyTiles(g)|
  {
    hide IsBlock, DirtyTiles, Corner;
    forall i | 0 <= i < |blocks|
      ensures Corner(g, blocks[i]) >= 0 && Corner(g, blocks[i]) in DirtyTiles(g)
    {
      CornerDirty(g, blocks[i]);
    }
    var corners := seq(|blocks|, i requires 0 <= i < |blocks| => Corner(g, blocks[i]));
    forall i, j | 0 <= i < j < |corners|
      ensures corners[i] != corners[j]
    {
      if corners[i] == corners[j] {
        SameCorner(g, blocks[i], blocks[j]);
      }
    }
    var all := set k | 0 <= k < |corners| :: corners[k];
    DistinctSize(corners, all);
    SubsetSize(all, DirtyTiles(g));
  }

  lemma {:induction false} SameCorner(g: Grid, b: Block, c: Block)
    requires g.Valid() && IsBlock(g, b) && IsBlock(g, c) && Corner(g, b) == Corner(g, c)
    ensures b == c
  {
    CornerDirty(g, b);
    CornerDirty(g, c);
    hide Corner;
    BlockInside(g, b);
    BlockInside(g, c);
    BlocksMeet(g, b, c, b.run.x0, b.y0);
  }

  /** More than 96 rectangles would be needed. */
  ghost predicate Fragmented(g: Grid) {
    exists blocks :: ListsBlocks(g, blocks) && |blocks| > 96
  }

  lemma {:induction false} RatioAbove(x: real, y: real, c: real)
    requires y > 0.0
    ensures x / y > c <==> x > c * y
  {
    var q := x / y;
    assert q * y == x;
    assert (q - c) * y == x - c * y;
    if q > c {
      assert (q - c) * y > 0.0;
    } else {
      assert (q - c) * y <= 0.0;
    }
  }

  lemma {:induction false} TwentiethsAbove(changed: nat, total: nat)
    ensures changed as real > 0.55 * total as real <==> 20 * changed > 11 * total
  {
    var x, y := changed as real, total as real;
    assert (20 * changed) as real == 20.0 * x && (11 * total) as real == 11.0 * y;
  }

  lemma {:induction false} ShareExactly(changed: nat, total: nat)
    requires total > 0
    ensures TooMany(changed, total) <==> 20 * changed > 11 * total
  {
    RatioAbove(changed as real, total as real, FULL_RATIO);
    TwentiethsAbove(changed, total);
  }

  /** All listings of the blocks have one length. */
  lemma {:induction false} SameNumber(g: Grid, blocks: seq<Block>, others: seq<Block>)
    requires ListsBlocks(g, blocks) && ListsBlocks(g, others)
    ensures |blocks| == |others|
  {
    hide IsBlock;
    var a, b := set k | 0 <= k < |blocks| :: blocks[k], set k | 0 <= k < |others| :: others[k];
    DistinctSize(blocks, a);
    DistinctSize(others, b);
    assert forall c :: c in a <==> c in blocks;
    assert forall c :: c in b <==> c in others;
    assert a == b;
  }

  lemma {:induction false} DifferenceExactly(g: Grid, w: nat, h: nat, rects: seq<Rect>, full: bool)
    requires g.Valid() && g.dirty != [] && IsDifference(g, w, h, rects, full)
    ensures var n, total := |DirtyTiles(g)|, |g.dirty|;
      && (full <==> 20 * n > 11 * total || (n > 0 && Fragmented(g)))
      && (rects == [] && !full <==> n == 0)
      && (n <= 96 ==> !Fragmented(g))
  {
    hide ListsBlocks;
    CountIs(g.dirty);
    var n, total := |DirtyTiles(g)|, |g.dirty|;
    assert Count(g.dirty) == n;
    ShareExactly(n, total);
    hide TooMany, Count;
    if blocks :| ListsBlocks(g, blocks) && |blocks| > 96 {
      FewBlocks(g, blocks);
    }
    if n > 0 && 20 * n <= 11 * total {
      var blocks :| ListsBlocks(g, blocks) && full == (|blocks| > MAX_RECTS)
        && rects == if full then [] else PixelRects(blocks, TILE, w, h);
      if others :| ListsBlocks(g, others) && |others| > 96 {
        SameNumber(g, blocks, others);
      }
      SomeBlock(g, blocks);
    }
  }

  lemma {:induction false} SomeBlock(g: Grid, blocks: seq<Block>)
    requires g.Valid() && ListsBlocks(g, blocks) && DirtyTiles(g) != {}
    ensures blocks != []
  {
    hide IsBlock;
    var i :| i in DirtyTiles(g);
    TileIndex(i, g.cols, g.rows);
    assert i / g.cols * g.cols + i % g.cols == i;
    assert g.Dirty(i % g.cols, i / g.cols);
    hide Grid.Dirty;
    var b := BlockOf(g, i % g.cols, i / g.cols);
    assert b in blocks;
  }

  /**
   What is reported when two frames of one size follow each other: nothing exactly if no tile
   changed, a request for the whole frame exactly if more than 55 percent of the tiles changed or
   they form more than 96 rectangles, and the rectangles of the changed tiles in all other cases;
   so a change of at most 96 tiles and 55 percent is always reported as rectangles.
   */
  lemma {:induction false} ReportExactly(hash: Hash, base: Frame, f: Frame, u: Tiler, rects: seq<Rect>, full: bool)
    requires SameSize(base, f) && f.w > 0 && f.h > 0 && Separates(hash, {base, f})
    requires IsChanged(hash, Seen(hash, base), f, u, rects, full)
    ensures var g := DiffGrid(base, f); var n, total := |DirtyTiles(g)|, g.cols * g.rows;
      && (full <==> 20 * n > 11 * total || (n > 0 && Fragmented(g)))
      && (rects == [] && !full <==> n == 0)
      && (n <= 96 ==> !Fragmented(g))
      && (full ==> rects == []) && (!full ==> ExactDifference(base, f, rects))
  {
    hide Sums, Tiles, Separates, IsDifference, Differ, Fragmented, DirtyTiles, ExactDifference;
    ComparedGrid(hash, base, f);
    var g := DiffGrid(base, f);
    assert IsDifference(g, f.w, f.h, rects, full);
    TileIndex(0, g.cols, g.rows) by { SomeTile(f); }
    DifferenceExactly(g, f.w, f.h, rects, full);
    if full {
      FullIsEmpty(g, f.w, f.h, rects);
    } else {
      ChangedExactly(hash, base, f, u, rects);
    }
  }

  lemma {:induction false} SomeTile(f: Frame)
    requires f.w > 0 && f.h > 0
    ensures 0 < Tiles(f.w) * Tiles(f.h)
  {
    MulMono(1, Tiles(f.h), Tiles(f.w));
  }

  lemma {:induction false} FullIsEmpty(g: Grid, w: nat, h: nat, rects: seq<Rect>)
    requires g.Valid() && IsDifference(g, w, h, rects, true)
    ensures rects == []
  {
  }

  /** The first frame, one of another size, and one after `Reset` are asked for whole. */
  lemma {:induction false} FirstIsWhole(hash: Hash, t: Tiler, f: Frame, u: Tiler, rects: seq<Rect>, full: bool)
    requires t.Valid() && f.w > 0 && f.h > 0 && IsChanged(hash, t, f, u, rects, full)
    ensures !t.ready || t.w != f.w || t.h != f.h ==> full && rects == []
    ensures u == Seen(hash, f)
  {
  }

  // ----- what is sent -----

  /** No key frame is due: none is owed for rectangles, or the last is not five seconds old. */
  predicate NotDue(e: Encoder, shot: Shot) {
    e.tilesSinceKey ==> e.lastFullAt.Some? && shot.now - e.lastFullAt.value <= 5000
  }

  /**
   With rectangles allowed, while no key frame is due: an unchanged frame sends nothing, and a small
   change sends the rectangles of exactly the tiles that changed, if these can be coded.
   */
  lemma {:induction false} SmallChangeSent(m: Media, hash: Hash, e: Encoder, shot: Shot, base: Frame, out: Outcome)
    returns (rects: seq<Rect>)
    requires shot.tiles && e.tiler == Seen(hash, base) && e.lastTileScale == shot.useScale && NotDue(e, shot)
    requires var f := FrameOf(shot); SameSize(base, f) && f.w > 0 && f.h > 0 && Separates(hash, {base, f})
    requires e.tiler.Valid() && Step(m, hash, e, shot, out)
    requires var g := DiffGrid(base, FrameOf(shot)); 20 * |DirtyTiles(g)| <= 11 * (g.cols * g.rows) && !Fragmented(g)
    ensures ExactDifference(base, FrameOf(shot), rects) && AllInside(rects, FrameOf(shot))
    ensures rects == [] <==> DirtyTiles(DiffGrid(base, FrameOf(shot))) == {}
    ensures rects == [] ==> out.msg == Nothing
    ensures rects != [] && TilesMessage(m, FrameOf(shot), rects, shot.quality).Some? ==>
      out.msg == Rects(TilesMessage(m, FrameOf(shot), rects, shot.quality).value)
  {
    hide FrameOf, Sums, Tiles, Separates, IsChanged, TilesMessage, WholeJpeg, Fragmented, DirtyTiles, ExactDifference;
    hide AllInside, DiffGrid;
    var f := FrameOf(shot);
    var u: Tiler, rs: seq<Rect>, full: bool :|
      IsChanged(hash, e.tiler, f, u, rs, full) && AllInside(rs, f) && out == Sent(m, shot, e.(tiler := u), rs, full);
    ReportExactly(hash, base, f, u, rs, full);
    rects := rs;
  }
}
