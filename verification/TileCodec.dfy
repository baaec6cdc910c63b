/** The message that carries changed rectangles, and its parser in the browser. */
module TileCodec {
  import opened Base
  import opened BigEndian
  import opened Frames
  import opened TileMerge
  import opened DeskTiles

  /** Picture coding, and drawing at another size, as the platform does them. */
  datatype Media = Media(
    encode: (Frame, int) -> Option<seq<byte>>,
    decode: seq<byte> -> Option<Frame>,
    stretch: (Frame, nat, nat) -> Frame)

  /** An encoded picture is not empty, can be measured in 16 and 32 bits, and decodes to the same pixels. */
  ghost predicate Lossless(m: Media) {
    forall f, q {:trigger m.encode(f, q)} :: m.encode(f, q).Some? ==>
      f.w < 0x1_0000 && f.h < 0x1_0000 && 0 < |m.encode(f, q).value| < 0x1_0000_0000 &&
      m.decode(m.encode(f, q).value) == Some(f)
  }

  predicate AllInside(rects: seq<Rect>, f: Frame) {
    forall i :: 0 <= i < |rects| ==> Inside(rects[i], f)
  }

  function SubImage(f: Frame, r: Rect): (g: Frame)
    requires Inside(r, f)
    ensures g.w == r.x1 - r.x0 && g.h == r.y1 - r.y0
  {
    Drawn(r.x1 - r.x0, r.y1 - r.y0,
      (x: nat, y: nat) requires x < r.x1 - r.x0 && y < r.y1 - r.y0 => At(f, r.x0 + x, r.y0 + y))
  }

  // ----- the sender -----

  function Low16(n: nat): u16 {
    n % 0x1_0000
  }

  function Low32(n: nat): u32 {
    n % 0x1_0000_0000
  }

  function TileHead(r: Rect, len: nat): (b: seq<byte>)
    requires 0 <= r.x0 < r.x1 && 0 <= r.y0 < r.y1
    ensures |b| == 12
  {
    PutU16(Low16(r.x0)) + PutU16(Low16(r.y0)) + PutU16(Low16(r.x1 - r.x0)) + PutU16(Low16(r.y1 - r.y0))
      + PutU32(Low32(len))
  }

  function FrameHead(f: Frame, count: nat): (b: seq<byte>)
    ensures |b| == 6
  {
    PutU16(Low16(f.w)) + PutU16(Low16(f.h)) + PutU16(Low16(count))
  }

  /** One coded rectangle. */
  function TileBytes(m: Media, f: Frame, r: Rect, q: int): Option<seq<byte>>
    requires Inside(r, f)
  {
    match m.encode(SubImage(f, r), q)
    case Some(jpeg) => Some(TileHead(r, |jpeg|) + jpeg)
    case None => None
  }

  /** The head and the first `n` coded rectangles, unless one of them cannot be coded. */
  function TilesUpto(m: Media, f: Frame, rects: seq<Rect>, q: int, n: nat): Option<seq<byte>>
    requires AllInside(rects, f) && n <= |rects|
  {
    if n == 0 then Some(FrameHead(f, |rects|)) else
    match (TilesUpto(m, f, rects, q, n - 1), TileBytes(m, f, rects[n - 1], q))
    case (Some(before), Some(tile)) => Some(before + tile)
    case _ => None
  }

  function TilesMessage(m: Media, f: Frame, rects: seq<Rect>, q: int): Option<seq<byte>>
    requires AllInside(rects, f)
  {
    TilesUpto(m, f, rects, q, |rects|)
  }

  lemma {:induction false} UptoPrefix(m: Media, f: Frame, rects: seq<Rect>, q: int, i: nat, n: nat)
    requires AllInside(rects, f) && i <= n <= |rects| && TilesUpto(m, f, rects, q, n).Some?
    ensures TilesUpto(m, f, rects, q, i).Some?
    ensures TilesUpto(m, f, rects, q, i).value <= TilesUpto(m, f, rects, q, n).value
    decreases n
  {
    hide TileBytes, FrameHead, Inside;
    if i < n {
      UptoPrefix(m, f, rects, q, i, n - 1);
    }
  }

  method EncodeDeskTiles(m: Media, img: Frame, rects: seq<Rect>, quality: int) returns (r: Option<seq<byte>>)
    requires AllInside(rects, img)
    ensures r == TilesMessage(m, img, rects, quality)
  {
    hide TileHead, FrameHead, SubImage;
    var buf := FrameHead(img, |rects|);
    for i := 0 to |rects|
      invariant TilesUpto(m, img, rects, quality, i) == Some(buf)
    {
      match m.encode(SubImage(img, rects[i]), quality) {
        case None =>
          if TilesMessage(m, img, rects, quality).Some? {
            UptoPrefix(m, img, rects, quality, i + 1, |rects|);
          }
          return None;
        case Some(jpeg) =>
          buf := buf + (TileHead(rects[i], |jpeg|) + jpeg);
      }
    }
    r := Some(buf);
  }

  // ----- the browser's parser -----

  datatype Job = Job(x: u16, y: u16, w: u16, h: u16, jpeg: seq<byte>)

  /** The jobs read, and where reading stopped. */
  datatype Parsed = Parsed(jobs: seq<Job>, end: nat)

  /** Reading up to `n` jobs from `off` on. */
  function JobsFrom(p: seq<byte>, off: nat, n: nat): Parsed
    requires off <= |p|
    decreases n
  {
    if n == 0 then Parsed([], off) else
    match JobEnd(p, off)
    case None => Parsed([], off)
    case Some(end) =>
      var rest := JobsFrom(p, end, n - 1);
      rest.(jobs := [JobAt(p, off)] + rest.jobs)
  }

  function JobAt(p: seq<byte>, off: nat): Job
    requires off + 12 <= |p| && off + 12 + U32At(p, off + 8) <= |p|
  {
    Job(U16At(p, off), U16At(p, off + 2), U16At(p, off + 4), U16At(p, off + 6),
        p[off + 12..off + 12 + U32At(p, off + 8)])
  }

  /** The place after the job at `off`, if there is a whole one. */
  function JobEnd(p: seq<byte>, off: nat): (end: Option<nat>)
    ensures end.Some? ==> off + 12 < end.value <= |p| && end.value == off + 12 + U32At(p, off + 8)
  {
    if off + 12 > |p| then None else
    var len := U32At(p, off + 8);
    if len == 0 || off + 12 + len > |p| then None else Some(off + 12 + len)
  }

  method ParseJobs(p: seq<byte>) returns (jobs: seq<Job>)
    requires |p| >= 6
    ensures jobs == JobsFrom(p, 6, U16At(p, 4)).jobs
  {
    hide U16At, U32At;
    var off: nat, count: nat, i: nat := 6, U16At(p, 4), 0;
    jobs := [];
    while i < count && off + 12 <= |p|
      invariant 0 <= i <= count && off <= |p|
      invariant jobs + JobsFrom(p, off, count - i).jobs == JobsFrom(p, 6, count).jobs
    {
      var x, y, w, h := U16At(p, off), U16At(p, off + 2), U16At(p, off + 4), U16At(p, off + 6);
      var len := U32At(p, off + 8);
      if len == 0 || off + 12 + len > |p| {
        break;
      }
      var job := Job(x, y, w, h, p[off + 12..off + 12 + len]);
      assert job == JobAt(p, off);
      jobs := jobs + [job];
      off, i := off + 12 + len, i + 1;
    }
  }

  // ----- round trip -----

  /** The job that draws rectangle `r` of `f`. */
  function JobOf(m: Media, f: Frame, r: Rect, q: int): Job
    requires Inside(r, f) && f.w < 0x1_0000 && f.h < 0x1_0000 && m.encode(SubImage(f, r), q).Some?
  {
    Job(r.x0, r.y0, r.x1 - r.x0, r.y1 - r.y0, m.encode(SubImage(f, r), q).value)
  }

  lemma {:induction false} HeadFields(x: u16, y: u16, w: u16, h: u16, len: u32)
    ensures var p := PutU16(x) + PutU16(y) + PutU16(w) + PutU16(h) + PutU32(len);
      U16At(p, 0) == x && U16At(p, 2) == y && U16At(p, 4) == w && U16At(p, 6) == h && U32At(p, 8) == len
  {
  }

  lemma {:induction false} TileHeadFields(r: Rect, f: Frame, len: u32)
    requires Inside(r, f) && f.w < 0x1_0000 && f.h < 0x1_0000
    ensures var p := TileHead(r, len);
      && U16At(p, 0) == r.x0 && U16At(p, 2) == r.y0 && U16At(p, 4) == r.x1 - r.x0 && U16At(p, 6) == r.y1 - r.y0
      && U32At(p, 8) == len
  {
    hide U16At, U32At, PutU16, PutU32;
    HeadFields(r.x0, r.y0, r.x1 - r.x0, r.y1 - r.y0, len);
  }

  /** Reading one coded rectangle, wherever it stands. */
  lemma {:induction false} JobReadBack(m: Media, f: Frame, r: Rect, q: int, p: seq<byte>, off: nat)
    requires Lossless(m) && Inside(r, f) && f.w < 0x1_0000 && f.h < 0x1_0000 && off <= |p|
    requires TileBytes(m, f, r, q).Some? && TileBytes(m, f, r, q).value <= p[off..]
    ensures m.encode(SubImage(f, r), q).Some?
    ensures JobEnd(p, off) == Some(off + |TileBytes(m, f, r, q).value|) && JobAt(p, off) == JobOf(m, f, r, q)
  {
    var jpeg := m.encode(SubImage(f, r), q).value;
    assert 0 < |jpeg| < 0x1_0000_0000;
    hide Lossless, SubImage, TileHead, U16At, U32At;
    TileHeadFields(r, f, |jpeg|);
    hide Inside;
    SameBytes(p, off, TileHead(r, |jpeg|), jpeg);
  }

  lemma {:induction false} SameBytes(p: seq<byte>, off: nat, head: seq<byte>, jpeg: seq<byte>)
    requires off <= |p| && |head| == 12 && head + jpeg <= p[off..]
    ensures U16At(p, off) == U16At(head, 0) && U16At(p, off + 2) == U16At(head, 2)
    ensures U16At(p, off + 4) == U16At(head, 4) && U16At(p, off + 6) == U16At(head, 6)
    ensures U32At(p, off + 8) == U32At(head, 8)
    ensures p[off + 12..off + 12 + |jpeg|] == jpeg
  {
    forall k | 0 <= k < |head + jpeg|
      ensures p[off + k] == (head + jpeg)[k]
    {
      assert p[off..][k] == (head + jpeg)[k];
    }
    assert forall k :: 0 <= k < 12 ==> (head + jpeg)[k] == head[k];
    forall k | 0 <= k < |jpeg|
      ensures p[off + 12 + k] == jpeg[k]
    {
      assert (head + jpeg)[12 + k] == jpeg[k];
    }
  }

  /** The jobs for the rectangles from number `i` on. */
  ghost predicate AreJobs(m: Media, f: Frame, rects: seq<Rect>, q: int, i: nat, jobs: seq<Job>)
    requires AllInside(rects, f) && i <= |rects|
  {
    && f.w < 0x1_0000 && f.h < 0x1_0000 && |jobs| == |rects| - i
    && forall k {:trigger rects[k]} :: i <= k < |rects| ==>
      m.encode(SubImage(f, rects[k]), q).Some? && jobs[k - i] == JobOf(m, f, rects[k], q)
  }

  lemma {:induction false} AreJobsStep(m: Media, f: Frame, rects: seq<Rect>, q: int, i: nat, p: seq<byte>,
                                       off: nat, end: nat)
    requires AllInside(rects, f) && i < |rects| && off <= end <= |p| && JobEnd(p, off) == Some(end)
    requires AreJobs(m, f, rects, q, i + 1, JobsFrom(p, end, |rects| - i - 1).jobs)
    requires m.encode(SubImage(f, rects[i]), q).Some? && JobAt(p, off) == JobOf(m, f, rects[i], q)
    ensures AreJobs(m, f, rects, q, i, JobsFrom(p, off, |rects| - i).jobs)
    ensures JobsFrom(p, off, |rects| - i).end == JobsFrom(p, end, |rects| - i - 1).end
  {
    hide SubImage, JobOf, JobAt, JobEnd;
    var jobs, more := JobsFrom(p, end, |rects| - i - 1).jobs, JobsFrom(p, off, |rects| - i).jobs;
    assert more == [JobAt(p, off)] + jobs;
    hide JobsFrom;
    forall k {:trigger rects[k]} | i <= k < |rects|
      ensures m.encode(SubImage(f, rects[k]), q).Some? && more[k - i] == JobOf(m, f, rects[k], q)
    {
      if k > i {
        assert more[k - i] == jobs[k - (i + 1)];
      }
    }
  }

  lemma {:induction false} NoJobs(m: Media, f: Frame, rects: seq<Rect>, q: int, p: seq<byte>)
    requires AllInside(rects, f) && f.w < 0x1_0000 && f.h < 0x1_0000
    ensures var r := JobsFrom(p, |p|, 0); AreJobs(m, f, rects, q, |rects|, r.jobs) && r.end == |p|
  {
  }

  /** Where the parts of a message stand. */
  lemma {:induction false} PartAt(m: Media, f: Frame, rects: seq<Rect>, q: int, i: nat, p: seq<byte>)
    requires AllInside(rects, f) && i < |rects| && TilesMessage(m, f, rects, q) == Some(p)
    ensures TilesUpto(m, f, rects, q, i).Some? && TilesUpto(m, f, rects, q, i + 1).Some?
    ensures TileBytes(m, f, rects[i], q).Some?
    ensures var off := |TilesUpto(m, f, rects, q, i).value|;
      && |TilesUpto(m, f, rects, q, i + 1).value| == off + |TileBytes(m, f, rects[i], q).value| <= |p|
      && TileBytes(m, f, rects[i], q).value <= p[off..]
  {
    hide TileBytes, Inside;
    UptoPrefix(m, f, rects, q, i + 1, |rects|);
    var before, tile := TilesUpto(m, f, rects, q, i).value, TileBytes(m, f, rects[i], q).value;
    assert TilesUpto(m, f, rects, q, i + 1).value == before + tile;
    hide TilesUpto;
    assert p[|before|..][..|tile|] == tile;
  }

  lemma {:induction false} JobsReadBack(m: Media, f: Frame, rects: seq<Rect>, q: int, i: nat, p: seq<byte>)
    requires Lossless(m) && AllInside(rects, f) && i <= |rects| && f.w < 0x1_0000 && f.h < 0x1_0000
    requires TilesMessage(m, f, rects, q) == Some(p)
    ensures TilesUpto(m, f, rects, q, i).Some?
    ensures var off := |TilesUpto(m, f, rects, q, i).value|;
      && off <= |p|
      && var r := JobsFrom(p, off, |rects| - i);
      AreJobs(m, f, rects, q, i, r.jobs) && r.end == |p|
    decreases |rects| - i
  {
    hide Lossless, TileBytes, TilesUpto, JobOf, Inside, AreJobs, JobsFrom, JobAt, JobEnd, SubImage;
    if i < |rects| {
      PartAt(m, f, rects, q, i, p);
      JobsReadBack(m, f, rects, q, i + 1, p);
      var off, end := |TilesUpto(m, f, rects, q, i).value|, |TilesUpto(m, f, rects, q, i + 1).value|;
      JobReadBack(m, f, rects[i], q, p, off) by {
        assert Inside(rects[i], f);
      }
      AreJobsStep(m, f, rects, q, i, p, off, end);
    } else {
      NoJobs(m, f, rects, q, p);
    }
  }

  lemma {:induction false} HeadReadBack(w: u16, h: u16, count: u16, p: seq<byte>)
    requires PutU16(w) + PutU16(h) + PutU16(count) <= p
    ensures U16At(p, 0) == w && U16At(p, 2) == h && U16At(p, 4) == count
  {
  }

  lemma {:induction false} FrameHeadReadBack(m: Media, f: Frame, rects: seq<Rect>, q: int)
    requires AllInside(rects, f) && f.w < 0x1_0000 && f.h < 0x1_0000 && |rects| <= MAX_RECTS
    requires TilesMessage(m, f, rects, q).Some?
    ensures var p := TilesMessage(m, f, rects, q).value;
      |p| >= 6 && U16At(p, 0) == f.w && U16At(p, 2) == f.h && U16At(p, 4) == |rects|
    ensures TilesUpto(m, f, rects, q, 0) == Some(FrameHead(f, |rects|))
  {
    hide U16At, PutU16, Inside;
    UptoPrefix(m, f, rects, q, 0, |rects|);
    HeadReadBack(f.w, f.h, |rects|, TilesMessage(m, f, rects, q).value);
  }

  /**
   A message for a frame of less than 2^16 by 2^16 pixels with few rectangles reads back as the
   frame's size and, in order, exactly one job per rectangle; nothing is left over.
   */
  lemma {:induction false} MessageReadBack(m: Media, f: Frame, rects: seq<Rect>, q: int)
    requires Lossless(m) && AllInside(rects, f) && f.w < 0x1_0000 && f.h < 0x1_0000 && |rects| <= MAX_RECTS
    requires TilesMessage(m, f, rects, q).Some?
    ensures var p := TilesMessage(m, f, rects, q).value;
      && |p| >= 6 && U16At(p, 0) == f.w && U16At(p, 2) == f.h && U16At(p, 4) == |rects|
      && var r := JobsFrom(p, 6, U16At(p, 4)); AreJobs(m, f, rects, q, 0, r.jobs) && r.end == |p|
  {
    hide Lossless, U16At, JobsFrom, AreJobs, AllInside, TilesUpto, TilesMessage, FrameHead;
    FrameHeadReadBack(m, f, rects, q);
    JobsReadBack(m, f, rects, q, 0, TilesMessage(m, f, rects, q).value);
  }
}
