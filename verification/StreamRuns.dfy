/**
 Whole runs of one direction of a connection: what any sequence of segments of one byte
 stream leaves in the buffer.
 */
module StreamRuns {
  import opened Base
  import opened SeqSpace
  import opened DirStreams
  import opened StreamOrder

  /** Some fed segment contains the stream offset `x`. */
  predicate Covers(segs: seq<Seg>, x: int) {
    exists i :: 0 <= i < |segs| && segs[i].Has(x)
  }

  /** The byte at offset `x` is buffered or waiting. */
  predicate Holds(t: Track, x: int) {
    x in t.kept || Waiting(t.held, x)
  }

  predicate AllIn(segs: seq<Seg>, size: nat) {
    forall i :: 0 <= i < |segs| ==> segs[i].In(size)
  }

  function TotalLen(segs: seq<Seg>): nat {
    if segs == [] then 0 else TotalLen(segs[..|segs| - 1]) + segs[|segs| - 1].len
  }

  lemma {:induction false} InRange(a: int, b: int, x: int)
    requires a <= b
    ensures x in Range(a, b) <==> a <= x < b
  {
    if a <= x < b {
      assert Range(a, b)[x - a] == x;
    }
  }

  lemma {:induction false} AppendedShape(t: Track, end: nat, capacity: int, size: nat)
    requires t.Shape(size) && t.hi < end <= size
    ensures t.Appended(end, capacity).Shape(size)
    ensures t.truncated ==> t.Appended(end, capacity).truncated
  {
  }

  lemma {:induction false} ExtendedShape(t: Track, off: nat, capacity: int, size: nat)
    requires t.Shape(size) && off < t.lo
    ensures t.Extended(off, capacity).Shape(size)
    ensures t.truncated ==> t.Extended(off, capacity).truncated
  {
  }

  lemma {:induction false} SettledValid(t: Track, size: nat)
    requires t.Shape(size) && t.lo < t.hi
    ensures t.Settled(size).Valid(size)
    ensures t.Settled(size).truncated == t.truncated
  {
    var h := Reach(t.held, t.hi, size);
    forall o | o in t.held && h == o
      ensures false
    {
      assert Waiting(t.held, h);
    }
    assert t.lo <= t.hi <= h;
    if !t.truncated {
      assert t.kept + Range(t.hi, h) == Range(t.lo, h);
    }
  }

  lemma {:induction false} StoredValid(t: Track, g: Seg, capacity: int, size: nat)
    requires t.Valid(size) && t.haveBase && g.In(size) && t.hi < g.off && 0 < g.len
    ensures t.Stored(g.off, g.len, capacity).Valid(size)
    ensures t.truncated ==> t.Stored(g.off, g.len, capacity).truncated
  {
  }

  /** Feeding keeps the well-formedness of the offsets, and a cut is never forgotten. */
  lemma {:induction false} FedValid(t: Track, g: Seg, capacity: int, size: nat)
    requires g.In(size) && t.Valid(size)
    ensures t.Fed(g, capacity, size).Valid(size)
    ensures t.truncated ==> t.Fed(g, capacity, size).truncated
  {
    hide Reach, Range, Sum;
    hide Track.Extended, Track.Appended, Track.Stored, Track.Settled;
    if 0 < g.len {
      var b := t.Based(g.off);
      var end := g.off + g.len;
      assert b.Shape(size) by {
        assert !t.haveBase ==> Range(b.lo, b.hi) == [];
      }
      if g.off < b.lo {
        if b.lo <= end {
          ExtendedShape(b, g.off, capacity, size);
          var q := b.Extended(g.off, capacity);
          if q.hi < end {
            AppendedShape(q, end, capacity, size);
            SettledValid(q.Appended(end, capacity), size);
          }
        }
      } else if g.off <= b.hi {
        if b.hi < end {
          AppendedShape(b, end, capacity, size);
          SettledValid(b.Appended(end, capacity), size);
        }
      } else {
        StoredValid(b, g, capacity, size);
      }
    }
  }

  // ----- what is held -----

  lemma {:induction false} KeptHolds(t: Track, lo: int, hi: int, x: int)
    requires lo <= hi && t.kept == Range(lo, hi)
    ensures x in t.kept <==> lo <= x < hi
  {
    InRange(lo, hi, x);
  }

  /** Settling moves bytes from the waiting pieces to the buffer and loses none. */
  lemma {:induction false} SettledHolds(t: Track, size: nat, x: int)
    requires t.Shape(size)
    ensures Holds(t.Settled(size), x) ==> Holds(t, x)
    ensures !t.truncated && Holds(t, x) && (x in t.kept || t.hi <= x) ==> Holds(t.Settled(size), x)
  {
    var u := t.Settled(size);
    InRange(t.hi, u.hi, x);
    if Waiting(u.held, x) {
      var o :| o in u.held && o <= x < o + u.held[o];
      assert o in t.held;
    }
    if !t.truncated && Holds(t, x) && x !in t.kept && u.hi <= x {
      var o :| o in t.held && o <= x < o + t.held[o];
      assert o <= u.hi ==> Waiting(t.held, u.hi);
      assert o in u.held;
    }
  }

  lemma {:induction false} StoredHolds(t: Track, g: Seg, capacity: int, x: int)
    requires 0 < g.len
    ensures Holds(t.Stored(g.off, g.len, capacity), x) ==> Holds(t, x) || g.Has(x)
    ensures !t.Stored(g.off, g.len, capacity).truncated && (Holds(t, x) || g.Has(x)) ==>
      Holds(t.Stored(g.off, g.len, capacity), x)
  {
    var u := t.Stored(g.off, g.len, capacity);
    if Waiting(u.held, x) {
      var o :| o in u.held && o <= x < o + u.held[o];
      if o != g.off {
        assert o in t.held;
      }
    }
    if !u.truncated {
      if Waiting(t.held, x) {
        var o :| o in t.held && o <= x < o + t.held[o];
        assert o in u.held && t.held[o] <= u.held[o];
      }
      if g.Has(x) {
        assert g.off in u.held && g.len <= u.held[g.off];
      }
    }
  }

  /** Nothing is invented, and nothing is lost while no cut is reported. */
  lemma {:induction false} FedHolds(t: Track, g: Seg, capacity: int, size: nat, x: int)
    requires g.In(size) && t.Valid(size)
    ensures Holds(t.Fed(g, capacity, size), x) ==> Holds(t, x) || g.Has(x)
    ensures !t.Fed(g, capacity, size).truncated && (Holds(t, x) || g.Has(x)) ==> Holds(t.Fed(g, capacity, size), x)
  {
    hide Reach, Sum, Waiting, Track.Settled, Track.Stored;
    if 0 < g.len {
      var b := t.Based(g.off);
      var end := g.off + g.len;
      assert b.Shape(size) by {
        assert !t.haveBase ==> Range(b.lo, b.hi) == [];
      }
      if g.off < b.lo {
        if b.lo <= end {
          ExtendedShape(b, g.off, capacity, size);
          var q := b.Extended(g.off, capacity);
          InRange(q.lo, b.lo, x);
          if !q.truncated {
            KeptHolds(b, b.lo, b.hi, x);
            KeptHolds(q, q.lo, q.hi, x);
          }
          if q.hi < end {
            HoldsAppended(q, end, capacity, size, x);
          }
        }
      } else if g.off <= b.hi {
        if !b.truncated {
          KeptHolds(b, b.lo, b.hi, x);
        }
        if b.hi < end {
          HoldsAppended(b, end, capacity, size, x);
        }
      } else {
        StoredHolds(b, g, capacity, x);
      }
    }
  }

  /** Appending up to `end` and settling. */
  lemma {:induction false} HoldsAppended(t: Track, end: nat, capacity: int, size: nat, x: int)
    requires t.Shape(size) && t.hi < end <= size
    requires forall o :: o in t.held ==> t.hi < o
    ensures var u := t.Appended(end, capacity).Settled(size);
      && (Holds(u, x) ==> Holds(t, x) || t.hi <= x < end)
      && (!u.truncated && (Holds(t, x) || t.hi <= x < end) ==> Holds(u, x))
  {
    AppendedShape(t, end, capacity, size);
    var a := t.Appended(end, capacity);
    SettledHolds(a, size, x);
    InRange(t.hi, t.hi + Min(end - t.hi, Max(t.Room(capacity), 0)), x);
    if !a.truncated {
      KeptHolds(a, t.lo, end, x);
      KeptHolds(t, t.lo, t.hi, x);
    }
  }

  // ----- runs -----

  /** `states` is a run of one stream object over `segs`; `oks` tells which calls ran to their end. */
  ghost predicate IsRun(states: seq<DirState>, oks: seq<bool>, segs: seq<Seg>, stream: seq<byte>, isn: u32,
                        capacity: int)
    requires AllIn(segs, |stream|)
  {
    && |states| == |segs| + 1 && |oks| == |segs|
    && states[0] == EMPTY
    && forall i :: 0 <= i < |segs| ==>
         states[i].Sized() &&
         states[i].Fed(SeqOf(isn, segs[i].off), stream[segs[i].off..segs[i].off + segs[i].len],
                       capacity, states[i + 1], oks[i])
  }

  /** The same run on offsets; it involves no choice. */
  ghost function TrackRun(segs: seq<Seg>, capacity: int, size: nat): (t: Track)
    requires AllIn(segs, size)
    ensures t.Valid(size)
  {
    if segs == [] then START else
    var before := TrackRun(segs[..|segs| - 1], capacity, size);
    FedValid(before, segs[|segs| - 1], capacity, size);
    before.Fed(segs[|segs| - 1], capacity, size)
  }

  lemma {:induction false} SameCut(s: DirState, t: Track, stream: seq<byte>, isn: u32)
    requires |stream| < HALF && Shows(s, t, stream, isn)
    ensures s.truncated == t.truncated
  {
  }

  lemma {:induction false} EmptyShows(stream: seq<byte>, isn: u32, capacity: int)
    requires |stream| < HALF && 0 <= capacity < HALF
    ensures Shows(EMPTY, START, stream, isn) && EMPTY.Bounded(capacity)
  {
  }

  /** Every run of the machine is the run on offsets, and no call stops half way. */
  lemma {:induction false} RunShows(
    states: seq<DirState>, oks: seq<bool>, segs: seq<Seg>, stream: seq<byte>, isn: u32, capacity: int)
    requires |stream| < HALF && 0 <= capacity < HALF && AllIn(segs, |stream|)
    requires IsRun(states, oks, segs, stream, isn, capacity)
    ensures |states| == |segs| + 1
    ensures Shows(states[|segs|], TrackRun(segs, capacity, |stream|), stream, isn)
    ensures states[|segs|].truncated == TrackRun(segs, capacity, |stream|).truncated
    ensures states[|segs|].Bounded(capacity) && states[|segs|].Sized()
    ensures forall i :: 0 <= i < |segs| ==> oks[i]
  {
    hide SeqOf, Reach, Track.Fed, DirState.Fed, Shows;
    if segs == [] {
      EmptyShows(stream, isn, capacity);
    } else {
      var n := |segs| - 1;
      RunShows(states[..n + 1], oks[..n], segs[..n], stream, isn, capacity);
      var g := segs[n];
      var t := TrackRun(segs[..n], capacity, |stream|);
      FedShows(states[n], t, g, states[n + 1], oks[n], stream, isn, capacity);
      FedBounded(states[n], SeqOf(isn, g.off), stream[g.off..g.off + g.len], capacity, states[n + 1], oks[n]);
      SameCut(states[n + 1], TrackRun(segs, capacity, |stream|), stream, isn);
    }
  }

  /** Where the bytes of a buffer come from: increasing offsets of the stream. */
  ghost predicate Selects(buf: seq<byte>, from: seq<int>, stream: seq<byte>) {
    && |from| == |buf|
    && (forall i :: 0 <= i < |from| ==> 0 <= from[i] < |stream| && buf[i] == stream[from[i]])
    && (forall i, j :: 0 <= i < j < |from| ==> from[i] < from[j])
  }

  /** A waiting segment holds true bytes of the stream, from an offset after those the buffer has reached. */
  ghost predicate WaitsBeyond(s: DirState, k: u32, stream: seq<byte>, isn: u32) {
    && k in s.pending && SeqLT(s.nextSeq, k)
    && exists o: nat ::
      && k == SeqOf(isn, o) && o + |s.pending[k]| <= |stream|
      && s.pending[k] == stream[o..o + |s.pending[k]|]
  }

  /**
   What every run keeps, cut off or not: the buffer is a strictly increasing selection of the
   stream, and every waiting segment is true and starts strictly after `nextSeq`. Without a
   cut the sequence numbers are those of the buffer's two ends.
   */
  lemma {:induction false} RunInvariant(
    states: seq<DirState>, oks: seq<bool>, segs: seq<Seg>, stream: seq<byte>, isn: u32, capacity: int)
    requires |stream| < HALF && 0 <= capacity < HALF && AllIn(segs, |stream|)
    requires IsRun(states, oks, segs, stream, isn, capacity)
    ensures var s := states[|segs|];
      && (exists from :: Selects(s.buf, from, stream))
      && (forall k :: k in s.pending ==> WaitsBeyond(s, k, stream, isn))
      && (s.haveBase && !s.truncated ==> s.nextSeq == Add(s.startSeq, |s.buf|))
  {
    RunShows(states, oks, segs, stream, isn, capacity);
    ShownInvariant(states[|segs|], TrackRun(segs, capacity, |stream|), stream, isn);
  }

  lemma {:induction false} ShownInvariant(s: DirState, t: Track, stream: seq<byte>, isn: u32)
    requires |stream| < HALF && Shows(s, t, stream, isn) && t.Valid(|stream|)
    ensures exists from :: Selects(s.buf, from, stream)
    ensures forall k :: k in s.pending ==> WaitsBeyond(s, k, stream, isn)
    ensures s.haveBase && !s.truncated ==> s.nextSeq == Add(s.startSeq, |s.buf|)
  {
    hide SeqOf, Add, Reach;
    assert Selects(s.buf, t.kept, stream);
    forall k | k in s.pending
      ensures WaitsBeyond(s, k, stream, isn)
    {
      var o :| o in t.held && k == SeqOf(isn, o);
      InWindow(isn, t.hi, o);
    }
    if t.haveBase && !t.truncated {
      assert |Range(t.lo, t.hi)| == t.hi - t.lo;
      AddOfSeq(isn, t.lo, t.hi - t.lo);
    }
  }

  lemma {:induction false} CoversLast(segs: seq<Seg>, x: int)
    requires segs != []
    ensures Covers(segs, x) <==> Covers(segs[..|segs| - 1], x) || segs[|segs| - 1].Has(x)
  {
    var n := |segs| - 1;
    if Covers(segs, x) && !segs[n].Has(x) {
      var i :| 0 <= i < |segs| && segs[i].Has(x);
      assert segs[..n][i].Has(x);
    }
    if Covers(segs[..n], x) {
      var i :| 0 <= i < n && segs[..n][i].Has(x);
      assert segs[i].Has(x);
    }
  }

  /** Only fed bytes are held; and all of them are, unless a cut has been reported. */
  lemma {:induction false} RunHolds(segs: seq<Seg>, capacity: int, size: nat, x: int)
    requires AllIn(segs, size)
    ensures var t := TrackRun(segs, capacity, size);
      && (Holds(t, x) ==> Covers(segs, x))
      && (!t.truncated && Covers(segs, x) ==> Holds(t, x))
  {
    if segs == [] {
      assert !Waiting(START.held, x);
    } else {
      var n := |segs| - 1;
      RunHolds(segs[..n], capacity, size, x);
      CoversLast(segs, x);
      var before := TrackRun(segs[..n], capacity, size);
      FedValid(before, segs[n], capacity, size);
      FedHolds(before, segs[n], capacity, size, x);
    }
  }

  /** The set of fed offsets has `lo` as its least element and `hi` as its first gap. */
  ghost predicate FirstBlock(segs: seq<Seg>, lo: int, hi: int) {
    && lo < hi
    && (forall x :: x < lo ==> !Covers(segs, x))
    && (forall x :: lo <= x < hi ==> Covers(segs, x))
    && !Covers(segs, hi)
  }

  /** The contiguous part of a run without a cut is the first block of what was fed. */
  lemma {:induction false} BlockOfRun(segs: seq<Seg>, capacity: int, size: nat)
    requires AllIn(segs, size)
    requires !TrackRun(segs, capacity, size).truncated && TrackRun(segs, capacity, size).haveBase
    ensures FirstBlock(segs, TrackRun(segs, capacity, size).lo, TrackRun(segs, capacity, size).hi)
  {
    hide Reach;
    var t := TrackRun(segs, capacity, size);
    forall x
      ensures Holds(t, x) <==> Covers(segs, x)
      ensures x in t.kept <==> t.lo <= x < t.hi
    {
      RunHolds(segs, capacity, size, x);
      KeptHolds(t, t.lo, t.hi, x);
    }
    assert forall x :: x < t.lo ==> !Holds(t, x);
    assert forall x :: t.lo <= x < t.hi ==> Holds(t, x);
    assert !Holds(t, t.hi);
  }

  lemma {:induction false} FirstBlockStarts(segs: seq<Seg>, lo: int, hi: int)
    requires FirstBlock(segs, lo, hi)
    ensures Covers(segs, lo)
  {
  }

  lemma {:induction false} OneFirstBlock(segs: seq<Seg>, lo: int, hi: int, lo': int, hi': int)
    requires FirstBlock(segs, lo, hi) && FirstBlock(segs, lo', hi')
    ensures lo == lo' && hi == hi'
  {
    assert Covers(segs, lo) && Covers(segs, lo');
  }

  /** Without a cut the buffer is the contiguous part of the stream. */
  lemma {:induction false} WholeBuffer(s: DirState, t: Track, stream: seq<byte>, isn: u32)
    requires |stream| < HALF && Shows(s, t, stream, isn) && t.Valid(|stream|)
    requires t.haveBase && !t.truncated
    ensures s.buf == stream[t.lo..t.hi]
  {
    hide SeqOf, ShowsPending;
  }

  /**
   The buffer of a run that reports no cut holds the stream from the least fed offset up to
   the first gap, whatever the order, repetition and overlap of the segments and whatever the
   order in which waiting pieces were drained. No call stops half way.
   */
  lemma {:induction false} BufferDetermined(
    states: seq<DirState>, oks: seq<bool>, segs: seq<Seg>, stream: seq<byte>, isn: u32, capacity: int,
    lo: nat, hi: nat)
    requires |stream| < HALF && 0 <= capacity < HALF && AllIn(segs, |stream|)
    requires IsRun(states, oks, segs, stream, isn, capacity)
    requires !states[|segs|].truncated && FirstBlock(segs, lo, hi)
    ensures hi <= |stream| && states[|segs|].buf == stream[lo..hi]
    ensures forall i :: 0 <= i < |segs| ==> oks[i]
  {
    hide SeqOf, Reach, Covers, FirstBlock, Shows, IsRun;
    RunShows(states, oks, segs, stream, isn, capacity);
    var t := TrackRun(segs, capacity, |stream|);
    assert t.haveBase by {
      RunHolds(segs, capacity, |stream|, lo);
      FirstBlockStarts(segs, lo, hi);
      assert Holds(t, lo);
    }
    BlockOfRun(segs, capacity, |stream|);
    OneFirstBlock(segs, lo, hi, t.lo, t.hi);
    WholeBuffer(states[|segs|], t, stream, isn);
  }

  /**
   Completeness: if the fed bytes are exactly those of one interval, the buffer is that part
   of the stream and nothing is left waiting.
   */
  lemma {:induction false} CompleteInterval(
    states: seq<DirState>, oks: seq<bool>, segs: seq<Seg>, stream: seq<byte>, isn: u32, capacity: int,
    a: nat, b: nat)
    requires |stream| < HALF && 0 <= capacity < HALF && AllIn(segs, |stream|)
    requires IsRun(states, oks, segs, stream, isn, capacity)
    requires !states[|segs|].truncated
    requires a < b && forall x :: Covers(segs, x) <==> a <= x < b
    ensures b <= |stream| && states[|segs|].buf == stream[a..b]
    ensures states[|segs|].pending == map[] && states[|segs|].pendingLen == 0
  {
    hide SeqOf, Reach;
    BufferDetermined(states, oks, segs, stream, isn, capacity, a, b);
    RunShows(states, oks, segs, stream, isn, capacity);
    var t := TrackRun(segs, capacity, |stream|);
    var s := states[|segs|];
    if s.pending != map[] {
      var k :| k in s.pending;
      var o :| o in t.held && k == SeqOf(isn, o);
      assert Waiting(t.held, o);
      RunHolds(segs, capacity, |stream|, o);
      RunHolds(segs, capacity, |stream|, a);
      RunHolds(segs, capacity, |stream|, t.hi);
      assert !Holds(t, t.hi);
      RunHolds(segs, capacity, |stream|, t.lo);
      KeptHolds(t, t.lo, t.hi, t.lo);
      assert false;
    }
    SumEmpty(s.pending, ByteLen);
  }

  /** Two runs that are fed the same bytes, in any way, end with the same buffer. */
  lemma {:induction false} OrderIndependent(
    states: seq<DirState>, oks: seq<bool>, segs: seq<Seg>, capacity: int,
    states': seq<DirState>, oks': seq<bool>, segs': seq<Seg>, capacity': int,
    stream: seq<byte>, isn: u32)
    requires |stream| < HALF && 0 <= capacity < HALF && 0 <= capacity' < HALF
    requires AllIn(segs, |stream|) && AllIn(segs', |stream|)
    requires IsRun(states, oks, segs, stream, isn, capacity)
    requires IsRun(states', oks', segs', stream, isn, capacity')
    requires forall x :: Covers(segs, x) <==> Covers(segs', x)
    requires !states[|segs|].truncated && !states'[|segs'|].truncated
    ensures states[|segs|].buf == states'[|segs'|].buf
  {
    hide SeqOf, Reach;
    RunShows(states, oks, segs, stream, isn, capacity);
    RunShows(states', oks', segs', stream, isn, capacity');
    var t, u := TrackRun(segs, capacity, |stream|), TrackRun(segs', capacity', |stream|);
    if t.haveBase {
      BlockOfRun(segs, capacity, |stream|);
      assert FirstBlock(segs', t.lo, t.hi);
      BufferDetermined(states, oks, segs, stream, isn, capacity, t.lo, t.hi);
      BufferDetermined(states', oks', segs', stream, isn, capacity', t.lo, t.hi);
    } else if u.haveBase {
      BlockOfRun(segs', capacity', |stream|);
      assert Covers(segs', u.lo);
      RunHolds(segs, capacity, |stream|, u.lo);
      assert false;
    }
  }

  // ----- when nothing is cut -----

  /** One segment never takes more room than its own length, and is cut only if that is missing. */
  lemma {:induction false} FedRoom(t: Track, g: Seg, capacity: int, size: nat)
    requires g.In(size) && t.Valid(size) && !t.truncated
    requires t.haveBase ==> t.lo <= g.off
    requires g.len <= t.Room(capacity)
    ensures var u := t.Fed(g, capacity, size);
      && !u.truncated
      && t.Room(capacity) - g.len <= u.Room(capacity)
      && (t.haveBase ==> u.lo == t.lo) && (!t.haveBase && u.haveBase ==> u.lo == g.off)
  {
    hide Reach, Range, Sum, Waiting;
    if 0 < g.len {
      var b := t.Based(g.off);
      var end := g.off + g.len;
      if g.off <= b.hi {
        if b.hi < end {
          SettledRoom(b.Appended(end, capacity), capacity, size);
        }
      } else {
        var u := b.(held := b.held - {g.off});
        if g.off in b.held {
          SumMinus(b.held, g.off, Id);
        } else {
          assert u.held == b.held;
        }
        SumPut(u.held, g.off, g.len, Id);
        assert u.held - {g.off} == u.held;
      }
    }
  }

  /** Settling never takes room: the bytes it appends were waiting. */
  lemma {:induction false} SettledRoom(t: Track, capacity: int, size: nat)
    requires t.hi <= size
    requires forall o :: o in t.held ==> 0 < t.held[o] && o + t.held[o] <= size
    ensures t.Room(capacity) <= t.Settled(size).Room(capacity)
  {
    ReachSize(t.held, t.hi, size);
  }

  lemma {:induction false} ReachSize(held: map<nat, nat>, hi: nat, size: nat)
    requires hi <= size
    requires forall o :: o in held ==> 0 < held[o] && o + held[o] <= size
    ensures var h := Reach(held, hi, size);
      h - hi + Sum(Beyond(held, h), Id) <= Sum(held, Id)
    decreases |held|
  {
    var h := Reach(held, hi, size);
    if o: nat :| o in held && o <= hi {
      var rest := held - {o};
      assert rest.Keys == held.Keys - {o};
      ReachStep(held, o, hi, size);
      ReachSize(rest, Max(hi, o + held[o]), size);
      assert h == Reach(rest, Max(hi, o + held[o]), size);
      assert Beyond(held, h) == Beyond(rest, h);
      SumMinus(held, o, Id);
      assert Sum(held, Id) == held[o] + Sum(rest, Id);
    } else {
      assert !Waiting(held, hi);
      assert Beyond(held, h) == held;
    }
  }

  /**
   With a budget for every fed byte, and no segment before the first one, nothing is ever cut:
   the completeness results then hold without further condition.
   */
  lemma {:induction false} EnoughRoom(segs: seq<Seg>, capacity: int, size: nat)
    requires AllIn(segs, size) && TotalLen(segs) <= capacity
    requires forall i, j :: 0 <= i < j < |segs| ==> 0 < segs[i].len && segs[0].off <= segs[j].off
    ensures var t := TrackRun(segs, capacity, size);
      && !t.truncated
      && capacity - TotalLen(segs) <= t.Room(capacity)
      && (t.haveBase ==> segs != [] && t.lo == segs[0].off)
  {
    hide Reach, Range;
    if segs == [] {
      SumEmpty(START.held, Id);
    } else {
      var n := |segs| - 1;
      EnoughRoom(segs[..n], capacity, size);
      FedRoom(TrackRun(segs[..n], capacity, size), segs[n], capacity, size);
    }
  }

  /** Unconditional completeness, for a run that starts with the first byte and has room for all of them. */
  lemma {:induction false} Reassembles(
    states: seq<DirState>, oks: seq<bool>, segs: seq<Seg>, stream: seq<byte>, isn: u32, capacity: int, b: nat)
    requires |stream| < HALF && TotalLen(segs) <= capacity < HALF && AllIn(segs, |stream|)
    requires IsRun(states, oks, segs, stream, isn, capacity)
    requires segs != [] && forall i :: 0 <= i < |segs| ==> 0 < segs[i].len
    requires segs[0].off < b && forall x :: Covers(segs, x) <==> segs[0].off <= x < b
    ensures b <= |stream| && states[|segs|].buf == stream[segs[0].off..b]
    ensures states[|segs|].pending == map[] && !states[|segs|].truncated
  {
    hide SeqOf, Reach;
    forall j | 0 <= j < |segs|
      ensures segs[0].off <= segs[j].off
    {
      assert segs[j].Has(segs[j].off);
      assert Covers(segs, segs[j].off);
    }
    EnoughRoom(segs, capacity, |stream|);
    RunShows(states, oks, segs, stream, isn, capacity);
    CompleteInterval(states, oks, segs, stream, isn, capacity, segs[0].off, b);
  }
}
