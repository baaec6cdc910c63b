/**
 What `DirStream` computes, said in stream offsets instead of wrapping sequence numbers, and
 the properties of whole runs: the result does not depend on the order, repetition or overlap
 of the segments, nor on the order in which pending entries are drained.

 The segments are pieces of one byte stream shorter than 2^31, offset 0 carrying sequence
 number `isn`.
 */
module StreamOrder {
  import opened Base
  import opened SeqSpace
  import opened DirStreams

  /** A segment: `len` bytes of the stream from `off` on. */
  datatype Seg = Seg(off: nat, len: nat) {
    predicate In(size: nat) {
      off + len <= size
    }

    predicate Has(x: int) {
      off <= x < off + len
    }
  }

  function Range(a: int, b: int): (r: seq<int>)
    requires a <= b
    ensures |r| == b - a && forall i :: 0 <= i < |r| ==> r[i] == a + i
  {
    seq(b - a, i requires 0 <= i < b - a => a + i)
  }

  function Id(n: nat): nat {
    n
  }

  /** Some waiting piece contains offset `x`. */
  predicate Waiting(held: map<nat, nat>, x: int) {
    exists o :: o in held && o <= x < o + held[o]
  }

  /** The first offset from `hi` on that no waiting piece contains. */
  ghost function Reach(held: map<nat, nat>, hi: nat, size: nat): (r: nat)
    requires hi <= size
    ensures hi <= r <= size
    ensures forall x :: hi <= x < r ==> Waiting(held, x)
    ensures r < size ==> !Waiting(held, r)
    decreases size - hi
  {
    if hi < size && Waiting(held, hi) then Reach(held, hi + 1, size) else hi
  }

  /** The waiting pieces that start after `h`. */
  function Beyond(held: map<nat, nat>, h: nat): map<nat, nat> {
    map o | o in held && h < o :: held[o]
  }

  /** The offsets a stream object stands for. */
  datatype Track = Track(
    haveBase: bool,
    lo: nat,                // offset of startSeq
    hi: nat,                // offset of nextSeq
    kept: seq<int>,         // offset of every buffered byte
    held: map<nat, nat>,    // start and length of the waiting pieces
    truncated: bool)
  {
    /** Buffered offsets rise; without a cut they leave no hole. */
    ghost predicate Shape(size: nat) {
      && haveBase
      && lo <= hi <= size
      && (forall i :: 0 <= i < |kept| ==> lo <= kept[i] < hi)
      && (forall i, j :: 0 <= i < j < |kept| ==> kept[i] < kept[j])
      && (forall o :: o in held ==> 0 < held[o] && o + held[o] <= size)
      && (!truncated ==> kept == Range(lo, hi))
    }

    /** Between segments: also, every waiting piece starts strictly after `hi`. */
    ghost predicate Valid(size: nat) {
      if !haveBase then this == START else
      && Shape(size)
      && (forall o :: o in held ==> hi < o)
      && (!truncated ==> lo < hi)
    }

    ghost function Room(capacity: int): int {
      capacity - |kept| - Sum(held, Id)
    }

    ghost function Based(off: nat): Track {
      if haveBase then this else this.(haveBase := true, lo := off, hi := off)
    }

    /** Bytes up to `end` appended, as many as fit. */
    ghost function Appended(end: nat, capacity: int): (r: Track)
      requires hi <= end
      ensures r.haveBase == haveBase && r.lo == lo && r.hi == end && r.held == held
    {
      var n := Min(end - hi, Max(Room(capacity), 0));
      this.(kept := kept + Range(hi, hi + n), hi := end, truncated := truncated || n < end - hi)
    }

    /** Bytes from `off` on put in front, the last ones that fit. */
    ghost function Extended(off: nat, capacity: int): (r: Track)
      requires off <= lo
      ensures r.haveBase == haveBase && r.lo <= lo && r.hi == hi && r.held == held
    {
      var n := Min(lo - off, Max(Room(capacity), 0));
      this.(kept := Range(lo - n, lo) + kept, lo := lo - n, truncated := truncated || n < lo - off)
    }

    /** The waiting piece at `o`, which reaches back to `hi`, taken out and appended. */
    ghost function Absorbed(o: nat, capacity: int): Track
      requires o in held && o <= hi
    {
      var t := this.(held := held - {o});
      if o + held[o] <= hi then t else t.Appended(o + held[o], capacity)
    }

    ghost function Stored(off: nat, len: nat, capacity: int): Track {
      if off in held && held[off] >= len then this else
      var t := this.(held := held - {off});
      if t.Room(capacity) <= 0 then t.(truncated := true) else
      var n := Min(len, t.Room(capacity));
      t.(held := t.held[off := n], truncated := t.truncated || n < len)
    }

    /** Everything contiguous taken from the waiting pieces. */
    ghost function Settled(size: nat): (r: Track)
      requires hi <= size
      ensures r.truncated == truncated && r.lo == lo && hi <= r.hi
    {
      var h := Reach(held, hi, size);
      this.(kept := kept + Range(hi, h), hi := h, held := Beyond(held, h))
    }

    /** A segment taken in. */
    ghost function Fed(g: Seg, capacity: int, size: nat): Track
      requires g.In(size) && hi <= size
    {
      if g.len == 0 then this else
      var b := Based(g.off);
      var end := g.off + g.len;
      if g.off < b.lo then
        if end < b.lo then b.(truncated := true) else
        var q := b.Extended(g.off, capacity);
        if end <= q.hi then q else q.Appended(end, capacity).Settled(size)
      else if g.off <= b.hi then
        if end <= b.hi then b else b.Appended(end, capacity).Settled(size)
      else
        b.Stored(g.off, g.len, capacity)
    }
  }

  const START := Track(false, 0, 0, [], map[], false)

  /** `s` is the machine state that `t` describes. */
  ghost predicate Shows(s: DirState, t: Track, stream: seq<byte>, isn: u32)
    requires |stream| < HALF
  {
    && s.haveBase == t.haveBase
    && s.truncated == t.truncated
    && t.lo <= t.hi <= |stream|
    && (t.haveBase ==> s.startSeq == SeqOf(isn, t.lo) && s.nextSeq == SeqOf(isn, t.hi))
    && |s.buf| == |t.kept|
    && (forall i :: 0 <= i < |t.kept| ==> 0 <= t.kept[i] < |stream| && s.buf[i] == stream[t.kept[i]])
    && ShowsPending(s.pending, t.held, stream, isn)
  }

  ghost predicate ShowsPending(pending: map<u32, seq<byte>>, held: map<nat, nat>, stream: seq<byte>, isn: u32)
    requires |stream| < HALF
  {
    && (forall o :: o in held ==>
          0 < held[o] && o + held[o] <= |stream| &&
          SeqOf(isn, o) in pending && pending[SeqOf(isn, o)] == stream[o..o + held[o]])
    && (forall k :: k in pending ==> exists o :: o in held && k == SeqOf(isn, o))
  }

  lemma {:induction false} ShowsPendingMinus(pending: map<u32, seq<byte>>, held: map<nat, nat>, o: nat,
                                             stream: seq<byte>, isn: u32)
    requires |stream| < HALF && ShowsPending(pending, held, stream, isn) && o in held
    ensures ShowsPending(pending - {SeqOf(isn, o)}, held - {o}, stream, isn)
  {
    hide SeqOf;
    forall p | p in held && p != o
      ensures SeqOf(isn, p) != SeqOf(isn, o)
    {
      InWindow(isn, p, o);
    }
    forall k | k in pending && k != SeqOf(isn, o)
      ensures exists p :: p in held - {o} && k == SeqOf(isn, p)
    {
      var p :| p in held && k == SeqOf(isn, p);
      assert p in held - {o};
    }
  }

  /** The pending byte count is the same on both sides. */
  lemma {:induction false} SamePendingSize(pending: map<u32, seq<byte>>, held: map<nat, nat>,
                                           stream: seq<byte>, isn: u32)
    requires |stream| < HALF && ShowsPending(pending, held, stream, isn)
    ensures Sum(pending, ByteLen) == Sum(held, Id)
    decreases |held|
  {
    hide SeqOf, Sum;
    if held == map[] {
      assert forall k :: k in pending ==> exists o :: o in held && k == SeqOf(isn, o);
      assert pending == map[];
      SumEmpty(pending, ByteLen);
      SumEmpty(held, Id);
    } else {
      var o :| o in held;
      SameKeys(pending, held, o, stream, isn);
      ShowsPendingMinus(pending, held, o, stream, isn);
      assert (held - {o}).Keys == held.Keys - {o};
      SamePendingSize(pending - {SeqOf(isn, o)}, held - {o}, stream, isn);
      SumMinus(held, o, Id);
      SumMinus(pending, SeqOf(isn, o), ByteLen);
    }
  }

  lemma {:induction false} SameRoom(s: DirState, t: Track, stream: seq<byte>, isn: u32, capacity: int)
    requires |stream| < HALF && Shows(s, t, stream, isn) && s.Bounded(capacity)
    ensures s.Room(capacity) == t.Room(capacity) >= 0
  {
    SamePendingSize(s.pending, t.held, stream, isn);
  }

  lemma {:induction false} AppendedShows(s: DirState, t: Track, end: nat, stream: seq<byte>, isn: u32, capacity: int)
    requires |stream| < HALF && Shows(s, t, stream, isn) && s.Bounded(capacity)
    requires t.haveBase && t.hi <= end <= |stream|
    ensures Shows(s.Appended(stream[t.hi..end], capacity), t.Appended(end, capacity), stream, isn)
  {
    hide SeqOf;
    SameRoom(s, t, stream, isn, capacity);
    AddOfSeq(isn, t.hi, end - t.hi);
  }

  lemma {:induction false} ExtendedShows(s: DirState, t: Track, off: nat, stream: seq<byte>, isn: u32, capacity: int)
    requires |stream| < HALF && Shows(s, t, stream, isn) && s.Bounded(capacity)
    requires t.haveBase && off < t.lo
    ensures Shows(s.Extended(stream[off..t.lo], capacity), t.Extended(off, capacity), stream, isn)
  {
    hide SeqOf, Add, ShowsPending;
    SameRoom(s, t, stream, isn, capacity);
    AddOfSeq(isn, t.lo, -s.PrependLen(stream[off..t.lo], capacity));
  }

  lemma {:induction false} ShowsPendingPut(pending: map<u32, seq<byte>>, held: map<nat, nat>, o: nat, n: nat,
                                           stream: seq<byte>, isn: u32)
    requires |stream| < HALF && ShowsPending(pending, held, stream, isn)
    requires 0 < n && o + n <= |stream|
    ensures ShowsPending(pending[SeqOf(isn, o) := stream[o..o + n]], held[o := n], stream, isn)
  {
    hide SeqOf;
    forall p | p in held && p != o
      ensures SeqOf(isn, p) != SeqOf(isn, o)
    {
      InWindow(isn, p, o);
    }
    var more := pending[SeqOf(isn, o) := stream[o..o + n]];
    forall k | k in more
      ensures exists p :: p in held[o := n] && k == SeqOf(isn, p)
    {
      if k == SeqOf(isn, o) {
        assert o in held[o := n];
      } else {
        var p :| p in held && k == SeqOf(isn, p);
        assert p in held[o := n];
      }
    }
  }

  /** A key is waiting on one side exactly when it is on the other. */
  lemma {:induction false} SameKeys(pending: map<u32, seq<byte>>, held: map<nat, nat>, o: nat,
                                    stream: seq<byte>, isn: u32)
    requires |stream| < HALF && ShowsPending(pending, held, stream, isn) && o < HALF
    ensures SeqOf(isn, o) in pending <==> o in held
    ensures o in held ==> |pending[SeqOf(isn, o)]| == held[o]
  {
    hide SeqOf;
    if SeqOf(isn, o) in pending {
      var p :| p in held && SeqOf(isn, o) == SeqOf(isn, p);
      InWindow(isn, p, o);
    }
  }

  lemma {:induction false} StoredShows(s: DirState, t: Track, g: Seg, stream: seq<byte>, isn: u32, capacity: int)
    requires |stream| < HALF && Shows(s, t, stream, isn) && s.Bounded(capacity)
    requires g.In(|stream|) && 0 < g.len
    ensures Shows(s.Stored(SeqOf(isn, g.off), stream[g.off..g.off + g.len], capacity),
                  t.Stored(g.off, g.len, capacity), stream, isn)
  {
    hide SeqOf, ShowsPending;
    var k := SeqOf(isn, g.off);
    SameKeys(s.pending, t.held, g.off, stream, isn);
    if !(k in s.pending && |s.pending[k]| >= g.len) {
      var d, u := s, t.(held := t.held - {g.off});
      if k in s.pending {
        ShowsPendingMinus(s.pending, t.held, g.off, stream, isn);
        WithoutPendingBounded(s, k, capacity);
        d := s.WithoutPending(k);
      } else {
        assert t.held - {g.off} == t.held;
      }
      StoredFresh(d, u, g, stream, isn, capacity);
      assert u.held - {g.off} == u.held;
    }
  }

  lemma {:induction false} StoredFresh(d: DirState, u: Track, g: Seg, stream: seq<byte>, isn: u32, capacity: int)
    requires |stream| < HALF && Shows(d, u, stream, isn) && d.Bounded(capacity)
    requires g.In(|stream|) && 0 < g.len && g.off !in u.held
    ensures Shows(d.Stored(SeqOf(isn, g.off), stream[g.off..g.off + g.len], capacity),
                  u.Stored(g.off, g.len, capacity), stream, isn)
  {
    hide SeqOf, ShowsPending;
    SameKeys(d.pending, u.held, g.off, stream, isn);
    SameRoom(d, u, stream, isn, capacity);
    assert u.held - {g.off} == u.held;
    if 0 < d.Room(capacity) {
      var n := Min(g.len, d.Room(capacity));
      assert stream[g.off..g.off + g.len][..n] == stream[g.off..g.off + n];
      ShowsPendingPut(d.pending, u.held, g.off, n, stream, isn);
    }
  }

  /** Taking a piece that reaches back to `hi` out of the waiting pieces first changes nothing in the end. */
  lemma {:induction false} ReachStep(held: map<nat, nat>, o: nat, hi: nat, size: nat)
    requires o in held && o <= hi <= size && o + held[o] <= size
    ensures Reach(held, hi, size) == Reach(held - {o}, Max(hi, o + held[o]), size)
    decreases size - hi
  {
    var end := o + held[o];
    if hi < end {
      assert Waiting(held, hi);
      ReachStep(held, o, hi + 1, size);
    } else {
      ReachMinus(held, o, hi, size);
    }
  }

  lemma {:induction false} ReachMinus(held: map<nat, nat>, o: nat, hi: nat, size: nat)
    requires o in held && o + held[o] <= hi <= size
    ensures Reach(held, hi, size) == Reach(held - {o}, hi, size)
    decreases size - hi
  {
    assert Waiting(held, hi) ==> Waiting(held - {o}, hi) by {
      if Waiting(held, hi) {
        var p :| p in held && p <= hi < p + held[p];
        assert p in held - {o};
      }
    }
    assert Waiting(held - {o}, hi) ==> Waiting(held, hi) by {
      if Waiting(held - {o}, hi) {
        var p :| p in held - {o} && p <= hi < p + (held - {o})[p];
        assert p in held;
      }
    }
    if hi < size && Waiting(held, hi) {
      ReachMinus(held, o, hi + 1, size);
    }
  }

  lemma {:induction false} SettledStep(t: Track, o: nat, capacity: int, size: nat)
    requires t.hi <= size && o in t.held && o <= t.hi && o + t.held[o] <= size
    requires Max(o + t.held[o] - t.hi, 0) <= t.(held := t.held - {o}).Room(capacity)
    ensures t.Absorbed(o, capacity).Settled(size) == t.Settled(size)
  {
    hide Waiting, Sum;
    ReachStep(t.held, o, t.hi, size);
    var h := Reach(t.held, t.hi, size);
    var u := t.Absorbed(o, capacity);
    assert u.hi == Max(t.hi, o + t.held[o]);
    assert u.kept + Range(u.hi, h) == t.kept + Range(t.hi, h);
  }

  /** What being ready means in offsets. */
  lemma {:induction false} ReadyOffset(s: DirState, t: Track, k: u32, stream: seq<byte>, isn: u32) returns (o: nat)
    requires |stream| < HALF && Shows(s, t, stream, isn) && t.haveBase && k in s.pending
    ensures o in t.held && k == SeqOf(isn, o)
    ensures 0 < t.held[o] && o + t.held[o] <= |stream| && s.pending[k] == stream[o..o + t.held[o]]
    ensures s.Ready(k) <==> o <= t.hi
    ensures s.Covered(k) <==> o + t.held[o] <= t.hi
    ensures o <= t.hi ==> Sub(s.nextSeq, k) == t.hi - o
  {
    hide SeqOf, Add, Sub, SeqLT, SeqLE;
    o :| o in t.held && k == SeqOf(isn, o);
    AddOfSeq(isn, o, t.held[o]);
    InWindow(isn, o + t.held[o], t.hi);
    InWindow(isn, t.hi, o);
  }

  /** One drain step on both sides. */
  lemma {:induction false} AbsorbedShows(s: DirState, t: Track, k: u32, stream: seq<byte>, isn: u32, capacity: int)
    returns (o: nat)
    requires |stream| < HALF && Shows(s, t, stream, isn) && t.haveBase
    requires s.Bounded(capacity) && s.Sized() && k in s.pending && s.Ready(k)
    ensures o in t.held && o <= t.hi
    ensures Shows(s.Absorbed(k, capacity), t.Absorbed(o, capacity), stream, isn)
    ensures t.Absorbed(o, capacity).haveBase
    ensures t.Absorbed(o, capacity).Settled(|stream|) == t.Settled(|stream|)
  {
    hide SeqOf, Add, Sub, SeqLT, SeqLE, Reach, ShowsPending;
    hide DirState.Ready, DirState.Covered, DirState.Bounded, DirState.Sized, DirState.Appended;
    hide Track.Appended, Track.Settled;
    o := ReadyOffset(s, t, k, stream, isn);
    var end := o + t.held[o];
    var d, u := s.WithoutPending(k), t.(held := t.held - {o});
    assert Shows(d, u, stream, isn) by {
      ShowsPendingMinus(s.pending, t.held, o, stream, isn);
    }
    hide Shows;
    WithoutPendingBounded(s, k, capacity);
    SameRoom(s, t, stream, isn, capacity);
    SameRoom(d, u, stream, isn, capacity);
    SettledStep(t, o, capacity, |stream|);
    if t.hi < end {
      AppendedShows(d, u, end, stream, isn, capacity);
      assert s.pending[k][t.hi - o..] == stream[t.hi..end];
    }
  }

  /** Whatever the order of picks, draining ends in the one state `Settled` describes. */
  lemma {:induction false} DrainedShows(s: DirState, t: Track, d: DirState, stream: seq<byte>, isn: u32, capacity: int)
    requires |stream| < HALF && Shows(s, t, stream, isn) && t.haveBase
    requires s.Bounded(capacity) && s.Sized() && s.Drained(d, capacity)
    ensures Shows(d, t.Settled(|stream|), stream, isn)
    decreases |s.pending|
  {
    hide SeqOf, Add, Sub, SeqLT, SeqLE, Reach;
    if s.Quiet() && d == s {
      QuietShows(s, t, stream, isn);
    } else {
      var k :| k in s.pending && s.Ready(k) && s.Absorbed(k, capacity).Drained(d, capacity);
      AbsorbedBounded(s, k, capacity);
      var o := AbsorbedShows(s, t, k, stream, isn, capacity);
      DrainedShows(s.Absorbed(k, capacity), t.Absorbed(o, capacity), d, stream, isn, capacity);
    }
  }

  lemma {:induction false} QuietShows(s: DirState, t: Track, stream: seq<byte>, isn: u32)
    requires |stream| < HALF && Shows(s, t, stream, isn) && t.haveBase && s.Quiet()
    ensures t.Settled(|stream|) == t
  {
    hide SeqOf, Add, Sub, SeqLT, SeqLE;
    forall o | o in t.held
      ensures t.hi < o
    {
      var k := SeqOf(isn, o);
      var p := ReadyOffset(s, t, k, stream, isn);
      InWindow(isn, p, o);
    }
    assert !Waiting(t.held, t.hi);
    assert t.kept + Range(t.hi, t.hi) == t.kept;
    assert t.Settled(|stream|).held == t.held;
  }

  /** The ends of the contiguous part, on both sides. */
  lemma {:induction false} SameEnds(s: DirState, t: Track, stream: seq<byte>, isn: u32)
    requires |stream| < HALF && Shows(s, t, stream, isn) && t.haveBase
    ensures s.startSeq == SeqOf(isn, t.lo) && s.nextSeq == SeqOf(isn, t.hi)
    ensures s.haveBase
  {
  }

  /** The prepend branch, in offsets. */
  lemma {:induction false} EnteredBefore(s: DirState, lo: nat, hi: nat, g: Seg, stream: seq<byte>, isn: u32,
                                         capacity: int)
    requires lo <= hi <= |stream| < HALF && g.In(|stream|) && 0 < g.len && g.off < lo
    requires s.haveBase && s.startSeq == SeqOf(isn, lo) && s.nextSeq == SeqOf(isn, hi)
    ensures s.Entered(SeqOf(isn, g.off), stream[g.off..g.off + g.len], capacity) ==
      var end := g.off + g.len;
      if end < lo then Done(s.(truncated := true), true) else
      var x := s.Extended(stream[g.off..lo], capacity);
      if end <= hi then Done(x, true) else ToDrain(x.Appended(stream[hi..end], capacity))
  {
    hide SeqOf, Add, Sub, SeqLT, SeqLE;
    var payload, end := stream[g.off..g.off + g.len], g.off + g.len;
    AddOfSeq(isn, g.off, g.len);
    InWindow(isn, g.off, lo);
    InWindow(isn, end, lo);
    InWindow(isn, lo, g.off);
    InWindow(isn, hi, end);
    InWindow(isn, hi, g.off);
    if lo <= end {
      assert payload[..lo - g.off] == stream[g.off..lo];
      assert s.Extended(stream[g.off..lo], capacity).nextSeq == s.nextSeq;
      if hi < end {
        assert payload[hi - g.off..] == stream[hi..end];
      }
    }
  }

  /** The remaining branches, in offsets. */
  lemma {:induction false} EnteredAfter(s: DirState, lo: nat, hi: nat, g: Seg, stream: seq<byte>, isn: u32,
                                        capacity: int)
    requires lo <= hi <= |stream| < HALF && g.In(|stream|) && 0 < g.len && lo <= g.off
    requires s.haveBase && s.startSeq == SeqOf(isn, lo) && s.nextSeq == SeqOf(isn, hi)
    ensures s.Entered(SeqOf(isn, g.off), stream[g.off..g.off + g.len], capacity) ==
      var end := g.off + g.len;
      if hi < g.off then Done(s.Stored(SeqOf(isn, g.off), stream[g.off..end], capacity), true)
      else if end <= hi then Done(s, true)
      else ToDrain(s.Appended(stream[hi..end], capacity))
  {
    hide SeqOf, Add, Sub, SeqLT, SeqLE;
    var payload, end := stream[g.off..g.off + g.len], g.off + g.len;
    AddOfSeq(isn, g.off, g.len);
    InWindow(isn, g.off, lo);
    InWindow(isn, g.off, hi);
    InWindow(isn, end, hi);
    InWindow(isn, hi, g.off);
    if g.off <= hi < end {
      assert payload[hi - g.off..] == stream[hi..end];
    }
  }

  /** A segment that starts before everything seen, on both sides. */
  lemma {:induction false} BeforeShows(s: DirState, t: Track, g: Seg, d: DirState, ok: bool,
                                       stream: seq<byte>, isn: u32, capacity: int)
    requires |stream| < HALF && Shows(s, t, stream, isn) && t.Shape(|stream|)
    requires s.Bounded(capacity) && s.Sized() && g.In(|stream|) && 0 < g.len && g.off < t.lo
    requires s.Fed(SeqOf(isn, g.off), stream[g.off..g.off + g.len], capacity, d, ok)
    ensures ok && Shows(d, t.Fed(g, capacity, |stream|), stream, isn)
  {
    hide SeqOf, Reach, ShowsPending;
    hide DirState.Entered, DirState.Drained, DirState.Extended, DirState.Appended, DirState.Stored, DirState.Bounded;
    hide DirState.Sized, Track.Extended, Track.Appended, Track.Stored, Track.Settled;
    var end := g.off + g.len;
    SameEnds(s, t, stream, isn);
    EnteredBefore(s, t.lo, t.hi, g, stream, isn, capacity);
    if t.lo <= end {
      hide Shows;
      ExtendedShows(s, t, g.off, stream, isn, capacity);
      ExtendedBounded(s, stream[g.off..t.lo], capacity);
      if t.hi < end {
        var x, u := s.Extended(stream[g.off..t.lo], capacity), t.Extended(g.off, capacity);
        AppendedShows(x, u, end, stream, isn, capacity);
        AppendedBounded(x, stream[t.hi..end], capacity);
        DrainedShows(x.Appended(stream[t.hi..end], capacity), u.Appended(end, capacity), d, stream, isn, capacity);
      }
    }
  }

  /** A segment that starts at or after the first one kept, on both sides. */
  lemma {:induction false} AfterShows(s: DirState, t: Track, g: Seg, d: DirState, ok: bool, stream: seq<byte>,
                                      isn: u32, capacity: int)
    requires |stream| < HALF && Shows(s, t, stream, isn) && t.Shape(|stream|)
    requires s.Bounded(capacity) && s.Sized() && g.In(|stream|) && 0 < g.len && t.lo <= g.off
    requires s.Fed(SeqOf(isn, g.off), stream[g.off..g.off + g.len], capacity, d, ok)
    ensures ok && Shows(d, t.Fed(g, capacity, |stream|), stream, isn)
  {
    hide SeqOf, Reach, Shows;
    hide DirState.Entered, DirState.Drained, DirState.Extended, DirState.Appended, DirState.Stored, DirState.Bounded;
    hide DirState.Sized, Track.Extended, Track.Appended, Track.Stored, Track.Settled;
    var end := g.off + g.len;
    SameEnds(s, t, stream, isn);
    EnteredAfter(s, t.lo, t.hi, g, stream, isn, capacity);
    if t.hi < g.off {
      StoredShows(s, t, g, stream, isn, capacity);
    } else if t.hi < end {
      AppendedShows(s, t, end, stream, isn, capacity);
      AppendedBounded(s, stream[t.hi..end], capacity);
      DrainedShows(s.Appended(stream[t.hi..end], capacity), t.Appended(end, capacity), d, stream, isn, capacity);
    }
  }

  /**
   Refinement: in a window shorter than 2^31, feeding a piece of the stream never runs a slice
   out of range, and its result is the one that `Track.Fed` computes from offsets alone.
   */
  lemma {:induction false} FedShows(s: DirState, t: Track, g: Seg, d: DirState, ok: bool, stream: seq<byte>,
                                    isn: u32, capacity: int)
    requires |stream| < HALF && Shows(s, t, stream, isn) && t.Valid(|stream|)
    requires s.Bounded(capacity) && s.Sized() && g.In(|stream|)
    requires s.Fed(SeqOf(isn, g.off), stream[g.off..g.off + g.len], capacity, d, ok)
    ensures ok
    ensures Shows(d, t.Fed(g, capacity, |stream|), stream, isn)
  {
    if 0 < g.len {
      hide SeqOf, Add, Sub, SeqLT, SeqLE, Reach;
      var c, b := s.Based(SeqOf(isn, g.off)), t.Based(g.off);
      if g.off < b.lo {
        BeforeShows(c, b, g, d, ok, stream, isn, capacity);
      } else {
        AfterShows(c, b, g, d, ok, stream, isn, capacity);
      }
    }
  }
}
