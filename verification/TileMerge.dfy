/**
 Merging dirty tiles into rectangles: runs of dirty tiles in a row, stacked while the row below
 has the same run.

 Tile coordinates count tiles, pixel coordinates count pixels of a `w` by `h` frame; tiles at the
 right and bottom edge may be cut off.
 */
module TileMerge {
  import opened Base

  /** Half open in both directions. */
  datatype Rect = Rect(x0: int, y0: int, x1: int, y1: int) {
    predicate Has(x: int, y: int) {
      x0 <= x < x1 && y0 <= y < y1
    }
  }

  datatype Grid = Grid(dirty: seq<bool>, cols: nat, rows: nat) {
    predicate Valid() {
      |dirty| == cols * rows
    }

    /** Nothing outside the grid is dirty. */
    predicate Dirty(tx: int, ty: int) {
      0 <= tx < cols && 0 <= ty < rows && ty * cols + tx < |dirty| && dirty[ty * cols + tx]
    }
  }

  /** `n` tiles cover a side of length `len`, and `n - 1` do not. */
  predicate Covers(n: nat, tile: nat, len: nat) {
    0 < tile && n * tile < len + tile && len <= n * tile
  }

  // ----- runs and blocks -----

  datatype Run = Run(x0: int, x1: int)

  /** A longest stretch of dirty tiles in row `ty`. */
  predicate IsRun(g: Grid, ty: int, r: Run) {
    && r.x0 < r.x1
    && (forall tx :: r.x0 <= tx < r.x1 ==> g.Dirty(tx, ty))
    && !g.Dirty(r.x0 - 1, ty) && !g.Dirty(r.x1, ty)
  }

  datatype Block = Block(run: Run, y0: int, y1: int)

  /** A longest stack of the same run. */
  predicate IsBlock(g: Grid, b: Block) {
    && b.y0 < b.y1
    && (forall ty :: b.y0 <= ty < b.y1 ==> IsRun(g, ty, b.run))
    && !IsRun(g, b.y0 - 1, b.run) && !IsRun(g, b.y1, b.run)
  }

  predicate InBlock(b: Block, tx: int, ty: int) {
    b.run.x0 <= tx < b.run.x1 && b.y0 <= ty < b.y1
  }

  /** The sequence holds every block of the grid, once, and nothing else. */
  ghost predicate ListsBlocks(g: Grid, blocks: seq<Block>) {
    && (forall b :: b in blocks <==> IsBlock(g, b))
    && (forall i, j :: 0 <= i < j < |blocks| ==> blocks[i] != blocks[j])
  }

  function PixelRect(b: Block, tile: nat, w: nat, h: nat): Rect {
    Rect(b.run.x0 * tile, b.y0 * tile, Min(b.run.x1 * tile, w), Min(b.y1 * tile, h))
  }

  function PixelRects(blocks: seq<Block>, tile: nat, w: nat, h: nat): (rects: seq<Rect>)
    ensures |rects| == |blocks|
  {
    seq(|blocks|, i requires 0 <= i < |blocks| => PixelRect(blocks[i], tile, w, h))
  }

  // ----- the rectangles partition the dirty pixels -----

  /**
   Non-empty rectangles inside the frame, no two overlapping, that together hold the pixels of
   dirty tiles and no others.
   */
  ghost predicate IsPartition(g: Grid, tile: nat, w: nat, h: nat, rects: seq<Rect>)
    requires 0 < tile
  {
    && (forall i :: 0 <= i < |rects| ==>
          0 <= rects[i].x0 < rects[i].x1 <= w && 0 <= rects[i].y0 < rects[i].y1 <= h)
    && (forall i, j, x, y :: 0 <= i < j < |rects| && rects[i].Has(x, y) ==> !rects[j].Has(x, y))
    && (forall x, y :: 0 <= x < w && 0 <= y < h ==>
          (g.Dirty(x / tile, y / tile) <==> exists i :: 0 <= i < |rects| && rects[i].Has(x, y)))
  }

  /** Pixels and the tiles they are in. */
  lemma {:induction false} InTiles(x: nat, tile: nat, a: int, b: int)
    requires 0 < tile
    ensures a * tile <= x < b * tile <==> a <= x / tile < b
  {
    var q := x / tile;
    assert q * tile <= x < (q + 1) * tile;
    if a <= q { MulMono(a, q, tile); } else { MulMono(q + 1, a, tile); }
    if q < b { MulMono(q + 1, b, tile); } else { MulMono(b, q, tile); }
  }

  lemma {:induction false} EdgeTile(n: nat, tile: nat, len: nat, a: int, b: int)
    requires Covers(n, tile, len) && 0 <= a < b <= n
    ensures 0 <= a * tile < Min(b * tile, len)
  {
    MulMono(a, n - 1, tile);
    MulMono(a + 1, b, tile);
    assert (n - 1) * tile == n * tile - tile && (a + 1) * tile == a * tile + tile;
  }

  /** Two runs of a row that share a tile are one. */
  lemma {:induction false} RunsMeet(g: Grid, ty: int, r: Run, s: Run, tx: int)
    requires IsRun(g, ty, r) && IsRun(g, ty, s) && r.x0 <= tx < r.x1 && s.x0 <= tx < s.x1
    ensures r == s
  {
    assert r.x0 == s.x0;
  }

  /** Two blocks that share a tile are one. */
  lemma {:induction false} BlocksMeet(g: Grid, b: Block, c: Block, tx: int, ty: int)
    requires IsBlock(g, b) && IsBlock(g, c) && InBlock(b, tx, ty) && InBlock(c, tx, ty)
    ensures b == c
  {
    hide IsRun;
    RunsMeet(g, ty, b.run, c.run, tx) by { assert IsRun(g, ty, b.run) && IsRun(g, ty, c.run); }
    assert b.y0 == c.y0;
  }

  function LeftEnd(g: Grid, tx: int, ty: int): (x0: int)
    requires g.Dirty(tx, ty)
    ensures x0 <= tx && !g.Dirty(x0 - 1, ty) && forall x :: x0 <= x <= tx ==> g.Dirty(x, ty)
    decreases tx
  {
    if g.Dirty(tx - 1, ty) then LeftEnd(g, tx - 1, ty) else tx
  }

  function RightEnd(g: Grid, tx: int, ty: int): (x1: int)
    requires g.Dirty(tx, ty)
    ensures tx < x1 && !g.Dirty(x1, ty) && forall x :: tx <= x < x1 ==> g.Dirty(x, ty)
    decreases g.cols - tx
  {
    if g.Dirty(tx + 1, ty) then RightEnd(g, tx + 1, ty) else tx + 1
  }

  lemma {:induction false} RunInside(g: Grid, ty: int, r: Run)
    requires IsRun(g, ty, r)
    ensures 0 <= r.x0 && r.x1 <= g.cols && 0 <= ty < g.rows
  {
    assert g.Dirty(r.x0, ty) && g.Dirty(r.x1 - 1, ty);
  }

  /** The first row of the stack of `r` that row `ty` belongs to. */
  function Top(g: Grid, ty: int, r: Run): (y0: int)
    requires IsRun(g, ty, r)
    ensures 0 <= y0 <= ty && !IsRun(g, y0 - 1, r) && forall y :: y0 <= y <= ty ==> IsRun(g, y, r)
    decreases ty
  {
    RunInside(g, ty, r);
    if IsRun(g, ty - 1, r) then Top(g, ty - 1, r) else ty
  }

  function Bottom(g: Grid, ty: int, r: Run): (y1: int)
    requires IsRun(g, ty, r)
    ensures ty < y1 && !IsRun(g, y1, r) && forall y :: ty <= y < y1 ==> IsRun(g, y, r)
    decreases g.rows - ty
  {
    RunInside(g, ty, r);
    if IsRun(g, ty + 1, r) then
      RunInside(g, ty + 1, r);
      Bottom(g, ty + 1, r)
    else ty + 1
  }

  /** The block of a dirty tile. */
  function BlockOf(g: Grid, tx: int, ty: int): (b: Block)
    requires g.Dirty(tx, ty)
    ensures IsBlock(g, b) && InBlock(b, tx, ty)
  {
    var r := Run(LeftEnd(g, tx, ty), RightEnd(g, tx, ty));
    Block(r, Top(g, ty, r), Bottom(g, ty, r))
  }

  lemma {:induction false} BlockInside(g: Grid, b: Block)
    requires IsBlock(g, b)
    ensures 0 <= b.run.x0 < b.run.x1 <= g.cols && 0 <= b.y0 < b.y1 <= g.rows
  {
    RunInside(g, b.y0, b.run);
    RunInside(g, b.y1 - 1, b.run);
  }

  lemma {:induction false} PixelInBlock(g: Grid, b: Block, tile: nat, w: nat, h: nat, x: nat, y: nat)
    requires 0 < tile && x < w && y < h
    ensures PixelRect(b, tile, w, h).Has(x, y) <==> InBlock(b, x / tile, y / tile)
  {
    InTiles(x, tile, b.run.x0, b.run.x1);
    InTiles(y, tile, b.y0, b.y1);
  }

  lemma {:induction false} RectInside(g: Grid, b: Block, tile: nat, w: nat, h: nat)
    requires Covers(g.cols, tile, w) && Covers(g.rows, tile, h) && IsBlock(g, b)
    ensures var r := PixelRect(b, tile, w, h); 0 <= r.x0 < r.x1 <= w && 0 <= r.y0 < r.y1 <= h
  {
    BlockInside(g, b);
    EdgeTile(g.cols, tile, w, b.run.x0, b.run.x1);
    EdgeTile(g.rows, tile, h, b.y0, b.y1);
  }

  lemma {:induction false} DirtyPixelsHeld(g: Grid, blocks: seq<Block>, tile: nat, w: nat, h: nat, x: nat, y: nat)
    requires 0 < tile && x < w && y < h && ListsBlocks(g, blocks)
    ensures g.Dirty(x / tile, y / tile) <==>
      exists i :: 0 <= i < |blocks| && PixelRects(blocks, tile, w, h)[i].Has(x, y)
  {
    hide IsBlock;
    var rects := PixelRects(blocks, tile, w, h);
    var tx, ty := x / tile, y / tile;
    if g.Dirty(tx, ty) {
      var b := BlockOf(g, tx, ty);
      var i :| 0 <= i < |blocks| && blocks[i] == b;
      PixelInBlock(g, b, tile, w, h, x, y);
      assert rects[i].Has(x, y);
    }
    if i :| 0 <= i < |blocks| && rects[i].Has(x, y) {
      PixelInBlock(g, blocks[i], tile, w, h, x, y);
      TileOfBlock(g, blocks[i], tx, ty) by { assert blocks[i] in blocks; }
    }
  }

  lemma {:induction false} TileOfBlock(g: Grid, b: Block, tx: int, ty: int)
    requires IsBlock(g, b) && InBlock(b, tx, ty)
    ensures g.Dirty(tx, ty)
  {
    assert IsRun(g, ty, b.run);
  }

  /** The blocks, turned to pixels, are an exact partition of the dirty part of the frame. */
  lemma {:induction false} BlocksPartition(g: Grid, blocks: seq<Block>, tile: nat, w: nat, h: nat)
    requires ListsBlocks(g, blocks) && Covers(g.cols, tile, w) && Covers(g.rows, tile, h)
    ensures IsPartition(g, tile, w, h, PixelRects(blocks, tile, w, h))
  {
    hide IsBlock, Grid.Dirty;
    var rects := PixelRects(blocks, tile, w, h);
    forall i | 0 <= i < |rects|
      ensures 0 <= rects[i].x0 < rects[i].x1 <= w && 0 <= rects[i].y0 < rects[i].y1 <= h
    {
      assert blocks[i] in blocks;
      RectInside(g, blocks[i], tile, w, h);
    }
    forall i, j, x, y | 0 <= i < j < |rects| && rects[i].Has(x, y)
      ensures !rects[j].Has(x, y)
    {
      if rects[j].Has(x, y) {
        PixelInBlock(g, blocks[i], tile, w, h, x, y);
        PixelInBlock(g, blocks[j], tile, w, h, x, y);
        assert blocks[i] in blocks && blocks[j] in blocks;
        BlocksMeet(g, blocks[i], blocks[j], x / tile, y / tile);
      }
    }
    forall x, y | 0 <= x < w && 0 <= y < h
      ensures g.Dirty(x / tile, y / tile) <==> exists i :: 0 <= i < |rects| && rects[i].Has(x, y)
    {
      DirtyPixelsHeld(g, blocks, tile, w, h, x, y);
    }
  }

  // ----- the merging loops -----

  /** The rectangle of the part of a block down to row `ty`. */
  function Upto(g: Grid, ty: int, r: Run, tile: nat, w: nat, h: nat): Rect
    requires IsRun(g, ty, r)
  {
    PixelRect(Block(r, Top(g, ty, r), ty + 1), tile, w, h)
  }

  type Open = map<Run, Rect>

  /** The open rectangles are those of the runs of row `ty`. */
  ghost predicate Holds(g: Grid, ty: int, tile: nat, w: nat, h: nat, open: Open) {
    forall r :: (r in open <==> IsRun(g, ty, r)) && (r in open ==> open[r] == Upto(g, ty, r, tile, w, h))
  }

  /** Row `ty` scanned up to `tx`: `cur` holds its runs. */
  ghost predicate Found(g: Grid, ty: int, tile: nat, w: nat, h: nat, tx: int, cur: Open) {
    forall r :: (r in cur <==> IsRun(g, ty, r) && r.x1 <= tx) && (r in cur ==> cur[r] == Upto(g, ty, r, tile, w, h))
  }

  /** Row `ty` scanned up to `tx`: `rest` holds what of `prev` its runs do not continue. */
  ghost predicate Remains(g: Grid, ty: int, tx: int, prev: Open, rest: Open) {
    forall r :: (r in rest <==> r in prev && !(IsRun(g, ty, r) && r.x1 <= tx)) && (r in rest ==> rest[r] == prev[r])
  }

  ghost predicate Scanned(g: Grid, ty: int, tile: nat, w: nat, h: nat, tx: int, prev: Open, cur: Open, rest: Open) {
    Found(g, ty, tile, w, h, tx, cur) && Remains(g, ty, tx, prev, rest)
  }

  /** A tile before which no run is open. */
  predicate Between(g: Grid, ty: int, tx: int) {
    !g.Dirty(tx - 1, ty) || !g.Dirty(tx, ty)
  }

  lemma {:induction false} CleanTile(g: Grid, ty: int, tx: int, r: Run)
    requires !g.Dirty(tx, ty) && IsRun(g, ty, r) && r.x1 <= tx + 1
    ensures r.x1 <= tx
  {
    assert g.Dirty(r.x1 - 1, ty);
  }

  /** A stretch of dirty tiles that starts and ends between runs is a run, and the only one that ends in it. */
  lemma {:induction false} StretchIsRun(g: Grid, ty: int, s: Run)
    requires s.x0 < s.x1 && Between(g, ty, s.x0) && !g.Dirty(s.x1, ty)
    requires forall tx :: s.x0 <= tx < s.x1 ==> g.Dirty(tx, ty)
    ensures IsRun(g, ty, s)
    ensures forall r :: IsRun(g, ty, r) && r.x1 <= s.x1 ==> r == s || r.x1 <= s.x0
  {
    assert g.Dirty(s.x0, ty);
    forall r | IsRun(g, ty, r) && s.x0 < r.x1 <= s.x1
      ensures r == s
    {
      RunsMeet(g, ty, r, s, r.x1 - 1);
    }
  }

  lemma {:induction false} IndexInGrid(g: Grid, tx: nat, ty: nat)
    requires g.Valid() && tx < g.cols && ty < g.rows
    ensures ty * g.cols + tx < |g.dirty|
  {
    MulMono(ty + 1, g.rows, g.cols);
    assert (ty + 1) * g.cols == ty * g.cols + g.cols;
  }

  /** The rectangle the loop makes for a run: continued from `rest` if it is there. */
  function Continued(rest: Open, s: Run, ty: int, tile: nat, w: nat, h: nat): Rect {
    if s in rest then rest[s].(y1 := Min((ty + 1) * tile, h))
    else Rect(s.x0 * tile, ty * tile, Min(s.x1 * tile, w), Min((ty + 1) * tile, h))
  }

  lemma {:induction false} ContinuedIs(g: Grid, ty: int, tile: nat, w: nat, h: nat, s: Run, prev: Open, rest: Open)
    requires IsRun(g, ty, s) && Holds(g, ty - 1, tile, w, h, prev) && Remains(g, ty, s.x0, prev, rest)
    ensures Continued(rest, s, ty, tile, w, h) == Upto(g, ty, s, tile, w, h)
  {
    assert s in rest <==> IsRun(g, ty - 1, s);
    hide IsRun;
    assert s in rest ==> rest[s] == Upto(g, ty - 1, s, tile, w, h);
  }

  /** Putting the run that ends at `tx` into `cur` and taking it from `rest`. */
  lemma {:induction false} RunScanned(g: Grid, ty: int, tile: nat, w: nat, h: nat, s: Run, prev: Open,
                                      cur: Open, rest: Open)
    requires IsRun(g, ty, s) && (forall r :: IsRun(g, ty, r) && r.x1 <= s.x1 ==> r == s || r.x1 <= s.x0)
    requires s.x0 < s.x1 && Holds(g, ty - 1, tile, w, h, prev) && Scanned(g, ty, tile, w, h, s.x0, prev, cur, rest)
    ensures Scanned(g, ty, tile, w, h, s.x1, prev, cur[s := Continued(rest, s, ty, tile, w, h)], rest - {s})
  {
    hide IsRun, Upto, Continued, Holds;
    ContinuedIs(g, ty, tile, w, h, s, prev, rest);
    var more := cur[s := Continued(rest, s, ty, tile, w, h)];
    assert Remains(g, ty, s.x1, prev, rest - {s});
    assert Found(g, ty, tile, w, h, s.x1, more) by {
      hide Remains;
    }
  }

  method ScanRow(g: Grid, ty: nat, tile: nat, w: nat, h: nat, prev: Open) returns (cur: Open, rest: Open)
    requires g.Valid() && ty < g.rows && Holds(g, ty - 1, tile, w, h, prev)
    ensures Scanned(g, ty, tile, w, h, g.cols, prev, cur, rest)
  {
    hide IsRun;
    cur, rest := map[], prev;
    var tx := 0;
    assert Between(g, ty, 0);
    assert Scanned(g, ty, tile, w, h, 0, prev, cur, rest) by {
      forall r | IsRun(g, ty, r)
        ensures 0 < r.x1
      {
        RunStarts(g, ty, r);
      }
    }
    while tx < g.cols
      invariant 0 <= tx <= g.cols && Between(g, ty, tx)
      invariant Scanned(g, ty, tile, w, h, tx, prev, cur, rest)
    {
      IndexInGrid(g, tx, ty);
      if !g.dirty[ty * g.cols + tx] {
        forall r | IsRun(g, ty, r) && r.x1 <= tx + 1
          ensures r.x1 <= tx
        {
          CleanTile(g, ty, tx, r);
        }
        tx := tx + 1;
        continue;
      }
      var x0 := tx;
      tx := EndOfStretch(g, ty, tx);
      var r := Run(x0, tx);
      StretchIsRun(g, ty, r);
      RunScanned(g, ty, tile, w, h, r, prev, cur, rest);
      var py1 := Min((ty + 1) * tile, h);
      if r in rest {
        var before := rest[r];
        cur := cur[r := before.(y1 := py1)];
        rest := rest - {r};
        continue;
      }
      cur := cur[r := Rect(x0 * tile, ty * tile, Min(tx * tile, w), py1)];
      assert rest - {r} == rest;
    }
  }

  lemma {:induction false} RunStarts(g: Grid, ty: int, r: Run)
    requires IsRun(g, ty, r)
    ensures 0 <= r.x0 < r.x1 <= g.cols
  {
    RunInside(g, ty, r);
  }

  method EndOfStretch(g: Grid, ty: nat, x0: nat) returns (tx: nat)
    requires g.Valid() && ty < g.rows && x0 < g.cols && g.Dirty(x0, ty)
    ensures x0 < tx <= g.cols && !g.Dirty(tx, ty) && forall x :: x0 <= x < tx ==> g.Dirty(x, ty)
  {
    tx := x0 + 1;
    while tx < g.cols
      invariant x0 < tx <= g.cols
      invariant forall x :: x0 <= x < tx ==> g.Dirty(x, ty)
    {
      IndexInGrid(g, tx, ty);
      if !g.dirty[ty * g.cols + tx] {
        break;
      }
      tx := tx + 1;
    }
  }

  /** The blocks that end above row `ty`. */
  ghost predicate ListsAbove(g: Grid, ty: int, blocks: seq<Block>) {
    && (forall b :: b in blocks <==> IsBlock(g, b) && b.y1 < ty)
    && (forall i, j :: 0 <= i < j < |blocks| ==> blocks[i] != blocks[j])
  }

  function Values(open: Open, runs: seq<Run>): (rects: seq<Rect>)
    requires forall r :: r in runs ==> r in open
  {
    seq(|runs|, i requires 0 <= i < |runs| => assert runs[i] in runs; open[runs[i]])
  }

  /** Appending what is left of the row above, in any order. */
  method Close(out: seq<Rect>, rest: Open) returns (all: seq<Rect>, ghost runs: seq<Run>)
    ensures forall r :: r in runs <==> r in rest
    ensures forall i, j :: 0 <= i < j < |runs| ==> runs[i] != runs[j]
    ensures all == out + Values(rest, runs)
  {
    all, runs := out, [];
    var todo := rest;
    while todo != map[]
      invariant forall r :: r in rest <==> r in runs || r in todo
      invariant forall r :: r in todo ==> r !in runs && todo[r] == rest[r]
      invariant forall i, j :: 0 <= i < j < |runs| ==> runs[i] != runs[j]
      invariant all == out + Values(rest, runs)
      decreases |todo|
    {
      var r :| r in todo;
      assert Values(rest, runs + [r]) == Values(rest, runs) + [todo[r]];
      hide Values;
      all := all + [todo[r]];
      runs := runs + [r];
      assert (todo - {r}).Keys == todo.Keys - {r};
      todo := todo - {r};
    }
  }

  /** The runs of row `ty - 1` that row `ty` does not continue end the blocks that reach down to row `ty`. */
  lemma {:induction false} ClosedAbove(g: Grid, ty: int, blocks: seq<Block>, runs: seq<Run>, more: seq<Block>)
    requires ListsAbove(g, ty, blocks)
    requires forall r :: r in runs <==> IsRun(g, ty - 1, r) && !IsRun(g, ty, r)
    requires forall i, j :: 0 <= i < j < |runs| ==> runs[i] != runs[j]
    requires |more| == |runs| && forall i :: 0 <= i < |runs| ==>
      IsRun(g, ty - 1, runs[i]) && more[i] == Block(runs[i], Top(g, ty - 1, runs[i]), ty)
    ensures ListsAbove(g, ty + 1, blocks + more)
  {
    hide IsRun;
    forall b
      ensures b in blocks + more <==> IsBlock(g, b) && b.y1 < ty + 1
    {
      if b in more {
        var i :| 0 <= i < |more| && more[i] == b;
        assert runs[i] in runs;
      }
      if IsBlock(g, b) && b.y1 == ty {
        assert IsRun(g, ty - 1, b.run);
        assert b.run in runs;
        var i :| 0 <= i < |runs| && runs[i] == b.run;
        OneTop(g, ty - 1, b.run, b.y0);
        assert b == more[i];
      }
    }
    forall i, j | 0 <= i < j < |blocks + more|
      ensures (blocks + more)[i] != (blocks + more)[j]
    {
      if i < |blocks| <= j {
        assert blocks[i] in blocks;
      }
    }
  }

  lemma {:induction false} OneTop(g: Grid, ty: int, r: Run, y0: int)
    requires y0 <= ty && (forall y :: y0 <= y <= ty ==> IsRun(g, y, r)) && !IsRun(g, y0 - 1, r)
    ensures Top(g, ty, r) == y0
  {
    hide IsRun;
    assert IsRun(g, Top(g, ty, r), r);
  }

  /** One row's loose ends: the rectangles appended are those of the blocks that end there. */
  method CloseRow(g: Grid, ty: nat, tile: nat, w: nat, h: nat, prev: Open, rest: Open, out: seq<Rect>,
                  ghost blocks: seq<Block>)
    returns (all: seq<Rect>, ghost more: seq<Block>)
    requires Holds(g, ty - 1, tile, w, h, prev)
    requires forall r :: (r in rest <==> r in prev && !IsRun(g, ty, r)) && (r in rest ==> rest[r] == prev[r])
    requires ListsAbove(g, ty, blocks) && out == PixelRects(blocks, tile, w, h)
    ensures ListsAbove(g, ty + 1, more) && all == PixelRects(more, tile, w, h)
  {
    hide IsRun, Top, IsBlock, ListsAbove;
    ghost var runs: seq<Run>;
    all, runs := Close(out, rest);
    assert forall i :: 0 <= i < |runs| ==> runs[i] in runs;
    ghost var last := seq(|runs|, i requires 0 <= i < |runs| && IsRun(g, ty - 1, runs[i]) =>
        Block(runs[i], Top(g, ty - 1, runs[i]), ty));
    ClosedAbove(g, ty, blocks, runs, last);
    more := blocks + last;
    assert all == PixelRects(more, tile, w, h);
  }

  method MergeDeskTiles(dirty: seq<bool>, cols: nat, rows: nat, tile: nat, w: nat, h: nat)
    returns (out: seq<Rect>, ghost blocks: seq<Block>)
    requires |dirty| == cols * rows && Covers(cols, tile, w) && Covers(rows, tile, h)
    ensures ListsBlocks(Grid(dirty, cols, rows), blocks) && out == PixelRects(blocks, tile, w, h)
    ensures IsPartition(Grid(dirty, cols, rows), tile, w, h, out)
  {
    hide IsRun, Top, Scanned, IsPartition;
    var g := Grid(dirty, cols, rows);
    out, blocks := [], [];
    var prev: Open := map[];
    NothingAbove(g, tile, w, h);
    for ty := 0 to rows
      invariant Holds(g, ty - 1, tile, w, h, prev)
      invariant ListsAbove(g, ty, blocks) && out == PixelRects(blocks, tile, w, h)
    {
      hide Holds, ListsAbove;
      var cur, rest := ScanRow(g, ty, tile, w, h, prev);
      RowScanned(g, ty, tile, w, h, prev, cur, rest);
      out, blocks := CloseRow(g, ty, tile, w, h, prev, rest, out, blocks);
      prev := cur;
    }
    BelowGrid(g, rows);
    out, blocks := CloseRow(g, rows, tile, w, h, prev, prev, out, blocks);
    AllAbove(g, blocks);
    BlocksPartition(g, blocks, tile, w, h);
  }

  lemma {:induction false} NothingAbove(g: Grid, tile: nat, w: nat, h: nat)
    ensures Holds(g, -1, tile, w, h, map[]) && ListsAbove(g, 0, [])
  {
    BelowGrid(g, -1);
    forall b | IsBlock(g, b)
      ensures b.y1 > 0
    {
      BlockInside(g, b);
    }
  }

  lemma {:induction false} BelowGrid(g: Grid, ty: int)
    requires ty < 0 || g.rows <= ty
    ensures forall r :: !IsRun(g, ty, r)
  {
    forall r
      ensures !IsRun(g, ty, r)
    {
      if IsRun(g, ty, r) {
        RunInside(g, ty, r);
      }
    }
  }

  lemma {:induction false} RowScanned(g: Grid, ty: int, tile: nat, w: nat, h: nat, prev: Open, cur: Open, rest: Open)
    requires Scanned(g, ty, tile, w, h, g.cols, prev, cur, rest)
    ensures Holds(g, ty, tile, w, h, cur)
    ensures forall r :: (r in rest <==> r in prev && !IsRun(g, ty, r)) && (r in rest ==> rest[r] == prev[r])
  {
    hide IsRun;
    forall r | IsRun(g, ty, r)
      ensures r.x1 <= g.cols
    {
      RunStarts(g, ty, r);
    }
  }

  lemma {:induction false} AllAbove(g: Grid, blocks: seq<Block>)
    requires ListsAbove(g, g.rows + 1, blocks)
    ensures ListsBlocks(g, blocks)
  {
    forall b | IsBlock(g, b)
      ensures b.y1 < g.rows + 1
    {
      BlockInside(g, b);
    }
  }
}
