/** Which parts of the desktop changed: a checksum per tile, compared with those of the frame before. */
module DeskTiles {
  import opened Base
  import opened Frames
  import opened TileMerge

  const TILE: nat := 128
  const FULL_RATIO: real := 0.55
  const MAX_RECTS := 96

  /** The checksum of some more pixels, given the checksum so far. */
  type Hash = (u32, seq<Pixel>) -> u32

  /** How many tiles cover a length. */
  function Tiles(len: nat): (n: nat)
    ensures len > 0 ==> Covers(n, TILE, len)
  {
    (len + TILE - 1) / TILE
  }

  // ----- checksums -----

  /** The pixels of row `y` that are in tile column `tx`. */
  function Strip(f: Frame, tx: nat, y: nat): seq<Pixel>
    requires tx < Tiles(f.w) && y < f.h
  {
    EdgeTile(Tiles(f.w), TILE, f.w, tx, tx + 1);
    f.rows[y][tx * TILE..Min(tx * TILE + TILE, f.w)]
  }

  /** The checksum of a tile's strips from row `y0` up to row `y1`. */
  function StripSum(hash: Hash, f: Frame, tx: nat, y0: nat, y1: nat): u32
    requires tx < Tiles(f.w) && y0 <= y1 <= f.h
    decreases y1
  {
    if y0 == y1 then 0 else hash(StripSum(hash, f, tx, y0, y1 - 1), Strip(f, tx, y1 - 1))
  }

  function TileSum(hash: Hash, f: Frame, tx: nat, ty: nat): u32
    requires tx < Tiles(f.w) && ty < Tiles(f.h)
  {
    EdgeTile(Tiles(f.h), TILE, f.h, ty, ty + 1);
    StripSum(hash, f, tx, ty * TILE, Min(ty * TILE + TILE, f.h))
  }

  lemma {:induction false} TileIndex(i: nat, cols: nat, rows: nat)
    requires i < cols * rows
    ensures cols > 0 && i % cols < cols && i / cols < rows
  {
    if rows <= i / cols {
      MulMono(rows, i / cols, cols);
    }
  }

  /** The checksums of all tiles, row by row. */
  function Sums(hash: Hash, f: Frame): (sums: seq<u32>)
    ensures |sums| == Tiles(f.w) * Tiles(f.h)
  {
    var cols, rows := Tiles(f.w), Tiles(f.h);
    seq(cols * rows, i requires 0 <= i < cols * rows => TileIndex(i, cols, rows); TileSum(hash, f, i % cols, i / cols))
  }

  lemma {:induction false} SumsAt(hash: Hash, f: Frame, tx: nat, ty: nat)
    requires tx < Tiles(f.w) && ty < Tiles(f.h)
    ensures ty * Tiles(f.w) + tx < |Sums(hash, f)|
    ensures Sums(hash, f)[ty * Tiles(f.w) + tx] == TileSum(hash, f, tx, ty)
  {
    var cols := Tiles(f.w);
    MulMono(ty + 1, Tiles(f.h), cols);
    assert (ty + 1) * cols == ty * cols + cols;
    DivModIs(ty * cols + tx, ty, tx, cols);
  }

  // ----- what changed -----

  /** The tiler's memory. */
  datatype Tiler = Tiler(w: nat, h: nat, cols: nat, rows: nat, sums: seq<u32>, ready: bool) {
    predicate Valid() {
      ready ==> w > 0 && h > 0 && cols == Tiles(w) && rows == Tiles(h) && |sums| == cols * rows
    }
  }

  /** The memory of having seen the frame. */
  function Seen(hash: Hash, f: Frame): Tiler {
    Tiler(f.w, f.h, Tiles(f.w), Tiles(f.h), Sums(hash, f), true)
  }

  function Differ(a: seq<u32>, b: seq<u32>): (d: seq<bool>)
    requires |a| == |b|
    ensures |d| == |a|
  {
    seq(|a|, i requires 0 <= i < |a| => b[i] != a[i])
  }

  function Count(d: seq<bool>): (n: nat)
    ensures n <= |d|
    ensures n == 0 <==> forall i :: 0 <= i < |d| ==> !d[i]
  {
    if d == [] then 0 else Count(d[..|d| - 1]) + if d[|d| - 1] then 1 else 0
  }

  predicate TooMany(changed: nat, total: nat)
    requires total > 0
  {
    changed as real / total as real > FULL_RATIO
  }

  /** What looking at the frame `f` may do to the memory `t` and what it may report. */
  ghost predicate IsChanged(hash: Hash, t: Tiler, f: Frame, u: Tiler, rects: seq<Rect>, full: bool)
    requires t.Valid()
  {
    if f.w == 0 || f.h == 0 then u == t && rects == [] && full
    else
      && u == Seen(hash, f)
      && if !t.ready || t.w != f.w || t.h != f.h then rects == [] && full
         else IsDifference(Grid(Differ(t.sums, u.sums), u.cols, u.rows), f.w, f.h, rects, full)
  }

  /** The report on a grid of dirty tiles. */
  ghost predicate IsDifference(g: Grid, w: nat, h: nat, rects: seq<Rect>, full: bool)
    requires g.Valid()
  {
    if Count(g.dirty) == 0 then rects == [] && !full
    else if TooMany(Count(g.dirty), |g.dirty|) then rects == [] && full
    else exists blocks ::
      && ListsBlocks(g, blocks)
      && full == (|blocks| > MAX_RECTS)
      && rects == if full then [] else PixelRects(blocks, TILE, w, h)
  }

  /** The tiler. It only judges what changed and knows nothing of encoding. */
  class DeskTiler {
    const hash: Hash
    var w: nat
    var h: nat
    var cols: nat
    var rows: nat
    var sums: array<u32>
    var ready: bool

    function State(): Tiler
      reads this, sums
    {
      Tiler(w, h, cols, rows, sums[..], ready)
    }

    ghost predicate Valid()
      reads this, sums
    {
      State().Valid()
    }

    constructor (hash: Hash)
      ensures Valid() && fresh(sums) && !ready && this.hash == hash
    {
      this.hash := hash;
      w, h, cols, rows, ready := 0, 0, 0, 0, false;
      sums := new u32[0];
    }

    /** Forgets: the next frame is sent whole. */
    method Reset()
      modifies this`ready
      ensures Valid() && State() == old(State()).(ready := false)
    {
      ready := false;
    }

    method TileCrc(img: Frame, tx: nat, ty: nat) returns (crc: u32)
      requires tx < Tiles(img.w) && ty < Tiles(img.h)
      ensures crc == TileSum(hash, img, tx, ty)
    {
      EdgeTile(Tiles(img.h), TILE, img.h, ty, ty + 1);
      var y0, y1 := ty * TILE, Min(ty * TILE + TILE, img.h);
      crc := 0;
      for y := y0 to y1
        invariant crc == StripSum(hash, img, tx, y0, y)
      {
        crc := hash(crc, Strip(img, tx, y));
      }
    }

    method HashInto(img: Frame, out: array<u32>)
      requires cols == Tiles(img.w) && rows == Tiles(img.h) && out.Length == cols * rows
      modifies out
      ensures out[..] == Sums(hash, img)
    {
      ghost var goal := Sums(hash, img);
      for ty := 0 to rows
        invariant ty * cols <= cols * rows && out[..ty * cols] == goal[..ty * cols]
      {
        MulMono(ty + 1, rows, cols);
        assert (ty + 1) * cols == ty * cols + cols;
        for tx := 0 to cols
          invariant out[..ty * cols + tx] == goal[..ty * cols + tx]
        {
          SumsAt(hash, img, tx, ty);
          var i := ty * cols + tx;
          var crc := TileCrc(img, tx, ty);
          out[i] := crc;
          assert out[..i + 1] == out[..i] + [crc] && goal[..i + 1] == goal[..i] + [crc];
        }
      }
    }

    /** Which tiles have another checksum than before, and how many. */
    method Compare(next: array<u32>) returns (dirty: seq<bool>, changedTiles: nat)
      requires next.Length == sums.Length
      ensures dirty == Differ(sums[..], next[..]) && changedTiles == Count(dirty)
    {
      dirty, changedTiles := [], 0;
      for i := 0 to next.Length
        invariant dirty == Differ(sums[..], next[..])[..i] && changedTiles == Count(dirty)
      {
        var d := next[i] != sums[i];
        dirty := dirty + [d];
        assert dirty[..i] == Differ(sums[..], next[..])[..i];
        if d {
          changedTiles := changedTiles + 1;
        }
      }
    }

    method Changed(img: Frame) returns (rects: seq<Rect>, full: bool)
      requires Valid()
      modifies this
      ensures Valid() && (sums == old(sums) || fresh(sums))
      ensures IsChanged(hash, old(State()), img, State(), rects, full)
    {
      hide Sums, ListsBlocks;
      if img.w == 0 || img.h == 0 {
        return [], true;
      }
      var c, r := Tiles(img.w), Tiles(img.h);
      var next := new u32[c * r];
      if !ready || w != img.w || h != img.h || cols != c || rows != r {
        w, h, cols, rows := img.w, img.h, c, r;
        sums := next;
        HashInto(img, sums);
        ready := true;
        return [], true;
      }
      HashInto(img, next);
      var dirty, changedTiles := Compare(next);
      sums := next;
      if changedTiles == 0 {
        return [], false;
      }
      if TooMany(changedTiles, c * r) {
        return [], true;
      }
      ghost var blocks;
      rects, blocks := MergeDeskTiles(dirty, c, r, TILE, img.w, img.h);
      if |rects| > MAX_RECTS {
        return [], true;
      }
      return rects, false;
    }
  }

  // ----- what a report means -----

  predicate Inside(r: Rect, f: Frame) {
    0 <= r.x0 < r.x1 <= f.w && 0 <= r.y0 < r.y1 <= f.h
  }

  /** The two frames agree on the pixels of a tile. */
  ghost predicate SameTile(f: Frame, g: Frame, tx: nat, ty: nat)
    requires SameSize(f, g)
  {
    forall x: nat, y: nat :: x < f.w && y < f.h && x / TILE == tx && y / TILE == ty ==> At(f, x, y) == At(g, x, y)
  }

  /** The pixels of a tile, row by row. */
  ghost function TileRows(f: Frame, tx: nat, ty: nat): (rows: seq<seq<Pixel>>)
    requires tx < Tiles(f.w) && ty < Tiles(f.h)
    ensures |rows| == Min(ty * TILE + TILE, f.h) - ty * TILE
  {
    EdgeTile(Tiles(f.h), TILE, f.h, ty, ty + 1);
    seq(Min(ty * TILE + TILE, f.h) - ty * TILE, j requires 0 <= j < Min(ty * TILE + TILE, f.h) - ty * TILE =>
      PixelsIn(f.rows[ty * TILE + j], tx * TILE, TILE))
  }

  /** At most `n` pixels of a row, from number `x` on. */
  function PixelsIn(row: seq<Pixel>, x: nat, n: nat): (r: seq<Pixel>)
    ensures |r| == if |row| <= x then 0 else Min(n, |row| - x)
    ensures forall i :: 0 <= i < |r| ==> r[i] == row[x + i]
    decreases n
  {
    if |row| <= x || n == 0 then [] else [row[x]] + PixelsIn(row, x + 1, n - 1)
  }

  lemma {:induction false} TilePixel(f: Frame, tx: nat, ty: nat, j: nat, i: nat)
    requires tx < Tiles(f.w) && ty < Tiles(f.h) && j < |TileRows(f, tx, ty)|
    ensures ty * TILE + j < f.h && |TileRows(f, tx, ty)[j]| == Min(tx * TILE + TILE, f.w) - tx * TILE
    ensures i < |TileRows(f, tx, ty)[j]| ==> TileRows(f, tx, ty)[j][i] == At(f, tx * TILE + i, ty * TILE + j)
  {
    EdgeTile(Tiles(f.w), TILE, f.w, tx, tx + 1);
    EdgeTile(Tiles(f.h), TILE, f.h, ty, ty + 1);
    var row := f.rows[ty * TILE + j];
    assert TileRows(f, tx, ty)[j] == PixelsIn(row, tx * TILE, TILE) && |row| == f.w;
    hide Tiles, TileRows, PixelsIn;
  }

  /** The checksum of some rows of pixels. */
  function Folded(hash: Hash, rows: seq<seq<Pixel>>): u32 {
    if rows == [] then 0 else hash(Folded(hash, rows[..|rows| - 1]), rows[|rows| - 1])
  }

  /** No two tiles that differ, among these frames, have pixels of one checksum. */
  ghost predicate Separates(hash: Hash, frames: set<Frame>) {
    forall f, g, tx: nat, ty: nat :: f in frames && g in frames && SameSize(f, g) ==>
      tx < Tiles(f.w) && ty < Tiles(f.h) && Folded(hash, TileRows(f, tx, ty)) == Folded(hash, TileRows(g, tx, ty))
      ==> TileRows(f, tx, ty) == TileRows(g, tx, ty)
  }

  /** The checksum of a tile is that of all its pixels. */
  lemma {:induction false} TileSumExactly(hash: Hash, f: Frame, tx: nat, ty: nat)
    requires tx < Tiles(f.w) && ty < Tiles(f.h)
    ensures TileSum(hash, f, tx, ty) == Folded(hash, TileRows(f, tx, ty))
  {
    var rows := TileRows(f, tx, ty);
    EdgeTile(Tiles(f.h), TILE, f.h, ty, ty + 1);
    StripsFolded(hash, f, tx, ty, |rows|);
    assert rows[..|rows|] == rows;
  }

  lemma {:induction false} StripsFolded(hash: Hash, f: Frame, tx: nat, ty: nat, n: nat)
    requires tx < Tiles(f.w) && ty < Tiles(f.h) && n <= |TileRows(f, tx, ty)|
    ensures ty * TILE + n <= f.h
    ensures StripSum(hash, f, tx, ty * TILE, ty * TILE + n) == Folded(hash, TileRows(f, tx, ty)[..n])
  {
    var rows := TileRows(f, tx, ty);
    EdgeTile(Tiles(f.h), TILE, f.h, ty, ty + 1);
    if n > 0 {
      StripsFolded(hash, f, tx, ty, n - 1);
      assert rows[..n][..n - 1] == rows[..n - 1];
      StripIsRow(f, tx, ty, n - 1);
    }
  }

  lemma {:induction false} StripIsRow(f: Frame, tx: nat, ty: nat, j: nat)
    requires tx < Tiles(f.w) && ty < Tiles(f.h) && j < |TileRows(f, tx, ty)|
    ensures ty * TILE + j < f.h && Strip(f, tx, ty * TILE + j) == TileRows(f, tx, ty)[j]
  {
    TilePixel(f, tx, ty, j, 0);
    var strip, row := Strip(f, tx, ty * TILE + j), TileRows(f, tx, ty)[j];
    forall i | 0 <= i < |row|
      ensures strip[i] == row[i]
    {
      TilePixel(f, tx, ty, j, i);
    }
  }

  /** Two tiles have the same rows exactly if they have the same pixels. */
  lemma {:induction false} SameRows(f: Frame, g: Frame, tx: nat, ty: nat)
    requires SameSize(f, g) && tx < Tiles(f.w) && ty < Tiles(f.h)
    ensures TileRows(f, tx, ty) == TileRows(g, tx, ty) <==> SameTile(f, g, tx, ty)
  {
    var a, b := TileRows(f, tx, ty), TileRows(g, tx, ty);
    if SameTile(f, g, tx, ty) {
      forall j | 0 <= j < |a|
        ensures a[j] == b[j]
      {
        RowsOfSame(f, g, tx, ty, j);
      }
    }
    if a == b {
      forall x: nat, y: nat | x < f.w && y < f.h && x / TILE == tx && y / TILE == ty
        ensures At(f, x, y) == At(g, x, y)
      {
        var i, j := x - tx * TILE, y - ty * TILE;
        TilePixel(f, tx, ty, j, i);
        TilePixel(g, tx, ty, j, i);
      }
    }
  }

  lemma {:induction false} RowsOfSame(f: Frame, g: Frame, tx: nat, ty: nat, j: nat)
    requires SameSize(f, g) && tx < Tiles(f.w) && ty < Tiles(f.h) && SameTile(f, g, tx, ty)
    requires j < |TileRows(f, tx, ty)|
    ensures TileRows(f, tx, ty)[j] == TileRows(g, tx, ty)[j]
  {
    var r, s := TileRows(f, tx, ty)[j], TileRows(g, tx, ty)[j];
    TilePixel(f, tx, ty, j, 0);
    TilePixel(g, tx, ty, j, 0);
    forall i | 0 <= i < |r|
      ensures r[i] == s[i]
    {
      TilePixel(f, tx, ty, j, i);
      TilePixel(g, tx, ty, j, i);
      DivModIs(tx * TILE + i, tx, i, TILE);
      DivModIs(ty * TILE + j, ty, j, TILE);
    }
  }

  /** The pixel is in one of the rectangles. */
  ghost predicate Covered(rects: seq<Rect>, x: int, y: int) {
    exists i :: 0 <= i < |rects| && rects[i].Has(x, y)
  }

  /**
   Few rectangles inside the frame, none overlapping, that together hold exactly the tiles on which
   the frames differ.
   */
  ghost predicate ExactDifference(f: Frame, g: Frame, rects: seq<Rect>)
    requires SameSize(f, g)
  {
    && |rects| <= MAX_RECTS
    && (forall i :: 0 <= i < |rects| ==> Inside(rects[i], f))
    && (forall i, j, x, y :: 0 <= i < j < |rects| && rects[i].Has(x, y) ==> !rects[j].Has(x, y))
    && (forall x: nat, y: nat :: x < f.w && y < f.h ==> (Covered(rects, x, y) <==> !SameTile(f, g, x / TILE, y / TILE)))
  }

  /** The tiles marked dirty are those that differ. */
  lemma {:induction false} DirtyExactly(hash: Hash, f: Frame, g: Frame, tx: nat, ty: nat)
    requires SameSize(f, g) && Separates(hash, {f, g}) && tx < Tiles(f.w) && ty < Tiles(f.h)
    ensures Grid(Differ(Sums(hash, f), Sums(hash, g)), Tiles(f.w), Tiles(f.h)).Dirty(tx, ty)
      <==> !SameTile(f, g, tx, ty)
  {
    hide Sums, TileSum, Tiles;
    SumsAt(hash, f, tx, ty);
    SumsAt(hash, g, tx, ty);
    TileSumExactly(hash, f, tx, ty);
    TileSumExactly(hash, g, tx, ty);
    SameRows(f, g, tx, ty);
    hide SameTile, TileRows, Folded, Separates;
    if Folded(hash, TileRows(f, tx, ty)) == Folded(hash, TileRows(g, tx, ty)) {
      SeparatedAt(hash, f, g, tx, ty);
    }
  }

  lemma {:induction false} SeparatedAt(hash: Hash, f: Frame, g: Frame, tx: nat, ty: nat)
    requires SameSize(f, g) && Separates(hash, {f, g}) && tx < Tiles(f.w) && ty < Tiles(f.h)
    requires Folded(hash, TileRows(f, tx, ty)) == Folded(hash, TileRows(g, tx, ty))
    ensures TileRows(f, tx, ty) == TileRows(g, tx, ty)
  {
    hide TileRows, Folded, Tiles;
    assert f in {f, g} && g in {f, g};
  }

  lemma {:induction false} TileOfPixel(x: nat, len: nat)
    requires x < len
    ensures x / TILE < Tiles(len)
  {
    InTiles(x, TILE, 0, Tiles(len));
  }

  lemma {:induction false} PartitionOfDifference(g: Grid, w: nat, h: nat, rects: seq<Rect>)
    requires g.Valid() && Covers(g.cols, TILE, w) && Covers(g.rows, TILE, h) && IsDifference(g, w, h, rects, false)
    ensures IsPartition(g, TILE, w, h, rects) && |rects| <= MAX_RECTS
  {
    if Count(g.dirty) > 0 {
      var blocks :| ListsBlocks(g, blocks) && |blocks| <= MAX_RECTS && rects == PixelRects(blocks, TILE, w, h);
      BlocksPartition(g, blocks, TILE, w, h);
    }
  }

  /** Whatever was compared, the reported rectangles are inside the frame, and few. */
  lemma {:induction false} ReportInside(hash: Hash, t: Tiler, f: Frame, u: Tiler, rects: seq<Rect>, full: bool)
    requires t.Valid() && IsChanged(hash, t, f, u, rects, full)
    ensures |rects| <= MAX_RECTS && forall i :: 0 <= i < |rects| ==> Inside(rects[i], f)
  {
    hide Sums, Tiles, IsDifference, TooMany, Differ;
    if rects != [] {
      var g := Grid(Differ(t.sums, u.sums), u.cols, u.rows);
      assert IsDifference(g, f.w, f.h, rects, full);
      NotFull(g, f.w, f.h, rects, full);
      PartitionOfDifference(g, f.w, f.h, rects);
    }
  }

  lemma {:induction false} NotFull(g: Grid, w: nat, h: nat, rects: seq<Rect>, full: bool)
    requires g.Valid() && rects != [] && IsDifference(g, w, h, rects, full)
    ensures !full
  {
  }

  /**
   A report of rectangles, made against the memory of the frame `base`, is exact: no pixel that
   changed is left out, and no tile without a change is in.
   */
  lemma {:induction false} ChangedExactly(hash: Hash, base: Frame, f: Frame, u: Tiler, rects: seq<Rect>)
    requires SameSize(base, f) && f.w > 0 && f.h > 0 && Separates(hash, {base, f})
    requires IsChanged(hash, Seen(hash, base), f, u, rects, false)
    ensures ExactDifference(base, f, rects)
  {
    hide Sums, Tiles, IsDifference, Separates, TooMany, SameTile, Grid.Dirty, Differ;
    var g := Grid(Differ(Sums(hash, base), Sums(hash, f)), Tiles(f.w), Tiles(f.h));
    PartitionOfDifference(g, f.w, f.h, rects);
    forall x: nat, y: nat | x < f.w && y < f.h
      ensures Covered(rects, x, y) <==> !SameTile(base, f, x / TILE, y / TILE)
    {
      TileOfPixel(x, f.w);
      TileOfPixel(y, f.h);
      DirtyExactly(hash, base, f, x / TILE, y / TILE);
    }
  }

  /** A frame like the one before is reported as unchanged. */
  lemma {:induction false} StillUnchanged(hash: Hash, f: Frame, u: Tiler, rects: seq<Rect>, full: bool)
    requires f.w > 0 && f.h > 0 && IsChanged(hash, Seen(hash, f), f, u, rects, full)
    ensures u == Seen(hash, f) && rects == [] && !full
  {
  }
}
