/**
 One direction of a TCP connection, rebuilt from segments that arrive out of order, repeated
 and overlapping, inside a byte budget.

 `DirState` gives the value of every field and says what each operation does to it; the class
 `DirStream` changes the fields in place. Draining picks pending entries in no particular
 order, so its result is a relation, and so is that of `AppendSeg`. A segment whose arithmetic
 runs a slice out of range makes the operation stop half way; `ok` is false then.
 */
module DirStreams {
  import opened Base
  import opened SeqSpace

  function ByteLen(b: seq<byte>): nat {
    |b|
  }

  datatype DirState = DirState(
    haveBase: bool,
    startSeq: u32,
    nextSeq: u32,
    buf: seq<byte>,
    pending: map<u32, seq<byte>>,
    pendingLen: int,
    truncated: bool)
  {
    /** Every stored piece is shorter than half the sequence space. */
    ghost predicate Sized() {
      forall k :: k in pending ==> |pending[k]| < HALF
    }

    /** The bookkeeping invariant: `pendingLen` is exact and the budget is respected. */
    ghost predicate Bounded(capacity: int) {
      && (forall k :: k in pending ==> 0 < |pending[k]|)
      && pendingLen == Sum(pending, ByteLen)
      && |buf| + pendingLen <= capacity < HALF
    }

    function Room(capacity: int): int {
      capacity - |buf| - pendingLen
    }

    function Appended(payload: seq<byte>, capacity: int): DirState {
      var kept := if Room(capacity) < |payload| then payload[..Max(Room(capacity), 0)] else payload;
      this.(buf := buf + kept,
      nextSeq := Add(nextSeq, |payload|),
      truncated := truncated || Room(capacity) < |payload|)
    }

    /** How many bytes at the end of `payload` fit in front of the buffer. */
    function PrependLen(payload: seq<byte>, capacity: int): (n: int)
      ensures 0 <= n <= |payload|
    {
      if Room(capacity) < |payload| then Max(Room(capacity), 0) else |payload|
    }

    function Prepended(payload: seq<byte>, capacity: int): DirState {
      if payload == [] then this else
      this.(buf := payload[|payload| - PrependLen(payload, capacity)..] + buf,
      truncated := truncated || Room(capacity) < |payload|)
    }

    /** `Prepended`, with `startSeq` moved down over the bytes taken. */
    function Extended(payload: seq<byte>, capacity: int): DirState {
      var p := Prepended(payload, capacity);
      p.(startSeq := Add(startSeq, -PrependLen(payload, capacity)))
    }

    function WithoutPending(k: u32): DirState
      requires k in pending
    {
      this.(pending := pending - {k}, pendingLen := pendingLen - |pending[k]|)
    }

    function Stored(s: u32, payload: seq<byte>, capacity: int): DirState {
      if s in pending && |pending[s]| >= |payload| then this else
      var d := if s in pending then WithoutPending(s) else this;
      if d.Room(capacity) <= 0 then d.(truncated := true) else
      var n := Min(|payload|, d.Room(capacity));
      d.(pending := d.pending[s := payload[..n]],
      pendingLen := d.pendingLen + n,
      truncated := d.truncated || n < |payload|)
    }

    /** The whole of the pending entry `k` lies at or before `nextSeq`. */
    predicate Covered(k: u32)
      requires k in pending
    {
      SeqLE(Add(k, |pending[k]|), nextSeq)
    }

    /** The drain loop acts on entry `k` rather than passing it by. */
    predicate Ready(k: u32)
      requires k in pending
    {
      Covered(k) || !SeqLT(nextSeq, k)
    }

    /** A ready entry that is not yet covered starts at or before `nextSeq` and ends after it. */
    lemma {:induction false} SkipInRange(k: u32)
      requires Sized() && k in pending && Ready(k)
      ensures !Covered(k) ==> Sub(nextSeq, k) < |pending[k]|
    {
    }

    /** The drain loop's action on the ready entry `k`: forget it, appending what is new. */
    function Absorbed(k: u32, capacity: int): (r: DirState)
      requires Sized() && k in pending && Ready(k)
      ensures r.Sized()
      ensures r.pending == pending - {k} && |r.pending| < |pending|
    {
      SkipInRange(k);
      assert (pending - {k}).Keys == pending.Keys - {k};
      var d := WithoutPending(k);
      if Covered(k) then d else d.Appended(pending[k][Sub(nextSeq, k)..], capacity)
    }

    ghost predicate Quiet() {
      forall k :: k in pending ==> !Ready(k)
    }

    /** `d` can be reached by draining until nothing is ready, in some order of picks. */
    ghost predicate Drained(d: DirState, capacity: int)
      requires Sized()
      decreases |pending|
    {
      || (Quiet() && d == this)
      || exists k :: k in pending && Ready(k) && Absorbed(k, capacity).Drained(d, capacity)
    }

    function Based(s: u32): DirState {
      if haveBase then this else this.(haveBase := true, startSeq := s, nextSeq := s)
    }

    /** What a segment does up to the call of the drain loop, if it gets there. */
    function Entered(s: u32, payload: seq<byte>, capacity: int): Entry {
      if payload == [] then Done(this, true) else
      var b := Based(s);
      var end := Add(s, |payload|);
      if SeqLT(s, b.startSeq) then
        if SeqLT(end, b.startSeq) then Done(b.(truncated := true), true) else
        var q := b.Extended(payload[..Min(Sub(b.startSeq, s), |payload|)], capacity);
        if !SeqLT(q.nextSeq, end) then Done(q, true) else
        var skip := Sub(q.nextSeq, s);
        if skip > |payload| then Done(q, false) else
        ToDrain(q.Appended(payload[skip..], capacity))
      else if SeqLT(s, b.nextSeq) then
        var skip := Sub(b.nextSeq, s);
        if SeqLE(end, b.nextSeq) || skip >= |payload| then Done(b, true) else
        ToDrain(b.Appended(payload[skip..], capacity))
      else if s != b.nextSeq then
        Done(b.Stored(s, payload, capacity), true)
      else
        ToDrain(b.Appended(payload, capacity))
    }

    /** `d` is a possible state after feeding a segment; `ok` tells whether it ran to its end. */
    ghost predicate Fed(s: u32, payload: seq<byte>, capacity: int, d: DirState, ok: bool)
      requires Sized()
    {
      match Entered(s, payload, capacity)
      case Done(e, done) => d == e && ok == done
      case ToDrain(e) => ok && e.Sized() && e.Drained(d, capacity)
    }
  }

  /** How far `AppendSeg` gets before draining. */
  datatype Entry = Done(d: DirState, ok: bool) | ToDrain(d: DirState)

  const EMPTY := DirState(false, 0, 0, [], map[], 0, false)

  /** Some drained state always exists. */
  lemma {:induction false} DrainTerminates(s: DirState, capacity: int) returns (d: DirState)
    requires s.Sized()
    ensures s.Drained(d, capacity)
    decreases |s.pending|
  {
    if s.Quiet() {
      d := s;
    } else {
      var k :| k in s.pending && s.Ready(k);
      d := DrainTerminates(s.Absorbed(k, capacity), capacity);
    }
  }

  lemma {:induction false} BoundedIsSized(s: DirState, capacity: int)
    requires s.Bounded(capacity)
    ensures s.Sized()
  {
    forall k | k in s.pending
      ensures |s.pending[k]| < HALF
    {
      SumMinus(s.pending, k, ByteLen);
    }
  }

  lemma {:induction false} WithoutPendingBounded(s: DirState, k: u32, capacity: int)
    requires s.Bounded(capacity) && k in s.pending
    ensures s.WithoutPending(k).Bounded(capacity)
    ensures s.WithoutPending(k).Room(capacity) == s.Room(capacity) + |s.pending[k]|
  {
    SumMinus(s.pending, k, ByteLen);
  }

  /** One drain step keeps the budget and never cuts anything off. */
  lemma {:induction false} AbsorbedBounded(s: DirState, k: u32, capacity: int)
    requires s.Bounded(capacity) && s.Sized() && k in s.pending && s.Ready(k)
    ensures s.Absorbed(k, capacity).Bounded(capacity)
    ensures s.Absorbed(k, capacity).truncated == s.truncated
  {
    WithoutPendingBounded(s, k, capacity);
    s.SkipInRange(k);
  }

  /** Draining keeps the budget, never cuts anything off, and leaves nothing ready. */
  lemma {:induction false} DrainedBounded(s: DirState, d: DirState, capacity: int)
    requires s.Bounded(capacity) && s.Sized() && s.Drained(d, capacity)
    ensures d.Bounded(capacity) && d.Quiet() && d.truncated == s.truncated
    decreases |s.pending|
  {
    if !(s.Quiet() && d == s) {
      var k :| k in s.pending && s.Ready(k) && s.Absorbed(k, capacity).Drained(d, capacity);
      AbsorbedBounded(s, k, capacity);
      DrainedBounded(s.Absorbed(k, capacity), d, capacity);
    }
  }

  lemma {:induction false} StoredBounded(s: DirState, k: u32, payload: seq<byte>, capacity: int)
    requires s.Bounded(capacity) && 0 < |payload|
    ensures s.Stored(k, payload, capacity).Bounded(capacity)
  {
    var d := s;
    if k in s.pending {
      WithoutPendingBounded(s, k, capacity);
      d := s.WithoutPending(k);
    }
    assert d.pending == s.pending - {k};
    if 0 < d.Room(capacity) {
      var n := Min(|payload|, d.Room(capacity));
      SumPut(d.pending, k, payload[..n], ByteLen);
      assert d.pending - {k} == d.pending;
    }
  }

  lemma {:induction false} AppendedBounded(s: DirState, payload: seq<byte>, capacity: int)
    requires s.Bounded(capacity)
    ensures s.Appended(payload, capacity).Bounded(capacity)
  {
  }

  lemma {:induction false} ExtendedBounded(s: DirState, payload: seq<byte>, capacity: int)
    requires s.Bounded(capacity)
    ensures s.Extended(payload, capacity).Bounded(capacity)
  {
  }

  lemma {:induction false} EnteredBounded(s: DirState, q: u32, payload: seq<byte>, capacity: int)
    requires s.Bounded(capacity)
    ensures var e := s.Entered(q, payload, capacity).d;
      e.Bounded(capacity) && e.Sized() && (s.truncated ==> e.truncated)
  {
    var b := s.Based(q);
    var e := s.Entered(q, payload, capacity).d;
    if payload != [] {
      if SeqLT(q, b.startSeq) {
        var part := payload[..Min(Sub(b.startSeq, q), |payload|)];
        ExtendedBounded(b, part, capacity);
        var x := b.Extended(part, capacity);
        if Sub(x.nextSeq, q) <= |payload| {
          AppendedBounded(x, payload[Sub(x.nextSeq, q)..], capacity);
        }
      } else if SeqLT(q, b.nextSeq) {
        if Sub(b.nextSeq, q) <= |payload| {
          AppendedBounded(b, payload[Sub(b.nextSeq, q)..], capacity);
        }
      } else if q != b.nextSeq {
        StoredBounded(b, q, payload, capacity);
      } else {
        AppendedBounded(b, payload, capacity);
      }
    }
    BoundedIsSized(e, capacity);
  }

  /**
   The memory bound: whatever segment arrives, in or out of any window, cut off or not,
   buffered and waiting bytes together stay within the budget and `pendingLen` stays exact.
   */
  lemma {:induction false} FedBounded(s: DirState, q: u32, payload: seq<byte>, capacity: int, d: DirState, ok: bool)
    requires s.Bounded(capacity) && s.Sized()
    requires s.Fed(q, payload, capacity, d, ok)
    ensures d.Bounded(capacity) && d.Sized()
    ensures s.truncated ==> d.truncated
  {
    EnteredBounded(s, q, payload, capacity);
    var e := s.Entered(q, payload, capacity);
    if e.ToDrain? {
      DrainedBounded(e.d, d, capacity);
    }
    BoundedIsSized(d, capacity);
  }

  /** The prepend branch, spelled out. */
  lemma {:induction false} EnteredBefore(d: DirState, s: u32, payload: seq<byte>, capacity: int)
    requires d.haveBase && payload != [] && SeqLT(s, d.startSeq)
    ensures var end := Add(s, |payload|);
      d.Entered(s, payload, capacity) ==
        if SeqLT(end, d.startSeq) then Done(d.(truncated := true), true) else
        var q := d.Extended(payload[..Min(Sub(d.startSeq, s), |payload|)], capacity);
        if !SeqLT(q.nextSeq, end) then Done(q, true) else
        if Sub(q.nextSeq, s) > |payload| then Done(q, false) else
        ToDrain(q.Appended(payload[Sub(q.nextSeq, s)..], capacity))
  {
    hide Add, Sub, SeqLT, SeqLE, DirState.Extended, DirState.Appended;
  }

  lemma {:induction false} ExtendedIs(d: DirState, e: DirState, payload: seq<byte>, n: int, capacity: int)
    requires n == d.PrependLen(payload, capacity)
    requires e == d.Prepended(payload, capacity).(startSeq := if n > 0 then Add(d.startSeq, -n) else d.startSeq)
    ensures e == d.Extended(payload, capacity)
  {
    AddNothing(d.startSeq);
  }

  /** The stream object: the fields of `DirState`, changed in place. */
  class DirStream {
    var haveBase: bool
    var startSeq: u32
    var nextSeq: u32
    var buf: seq<byte>
    var pending: map<u32, seq<byte>>
    var pendingLen: int
    var truncated: bool

    function State(): DirState
      reads this
    {
      DirState(haveBase, startSeq, nextSeq, buf, pending, pendingLen, truncated)
    }

    constructor ()
      ensures State() == EMPTY
    {
      haveBase, startSeq, nextSeq, buf := false, 0, 0, [];
      pending, pendingLen, truncated := map[], 0, false;
    }

    /** A stream object in the given state. */
    constructor Restore(d: DirState)
      ensures State() == d
    {
      haveBase, startSeq, nextSeq, buf := d.haveBase, d.startSeq, d.nextSeq, d.buf;
      pending, pendingLen, truncated := d.pending, d.pendingLen, d.truncated;
    }

    method AppendContiguous(payload: seq<byte>, capacity: int)
      modifies this
      ensures State() == old(State()).Appended(payload, capacity)
    {
      var originalLen := |payload|;
      var room := capacity - |buf| - pendingLen;
      var part := payload;
      if room < |payload| {
        if room < 0 {
          room := 0;
        }
        part := payload[..room];
        truncated := true;
      }
      buf := buf + part;
      nextSeq := Add(nextSeq, originalLen);
    }

    method Prepend(payload: seq<byte>, capacity: int) returns (n: int)
      modifies this
      ensures State() == old(State()).Prepended(payload, capacity)
      ensures n == old(State()).PrependLen(payload, capacity)
    {
      if |payload| == 0 {
        return 0;
      }
      var room := capacity - |buf| - pendingLen;
      var part := payload;
      if room < |payload| {
        part := payload[|payload| - Max(room, 0)..];
        truncated := true;
      }
      if |part| == 0 {
        assert part + buf == buf;
        return 0;
      }
      buf := part + buf;
      return |part|;
    }

    method StorePending(s: u32, payload: seq<byte>, capacity: int)
      modifies this
      ensures State() == old(State()).Stored(s, payload, capacity)
    {
      if s in pending && |pending[s]| >= |payload| {
        return;
      }
      if s in pending {
        pendingLen := pendingLen - |pending[s]|;
        pending := pending - {s};
      }
      var room := capacity - |buf| - pendingLen;
      if room <= 0 {
        truncated := true;
        return;
      }
      var copyLen := |payload|;
      if copyLen > room {
        copyLen := room;
        truncated := true;
      }
      pending := pending[s := payload[..copyLen]];
      pendingLen := pendingLen + copyLen;
    }

    /** Rounds over the pending entries, in whatever order, until a round changes nothing. */
    method DrainPending(capacity: int)
      requires State().Sized()
      modifies this
      ensures old(State()).Drained(State(), capacity)
    {
      var progressed := true;
      while progressed
        invariant State().Sized()
        invariant !progressed ==> State().Quiet()
        invariant forall d :: State().Drained(d, capacity) ==> old(State()).Drained(d, capacity)
        decreases |pending|, progressed
      {
        progressed := false;
        ghost var before := State();
        var rest := pending.Keys;
        while rest != {} && !progressed
          invariant rest <= before.pending.Keys
          invariant !progressed ==> State() == before
          invariant !progressed ==> forall k :: k in before.pending && k !in rest ==> !before.Ready(k)
          invariant progressed ==> |pending| < |before.pending| && State().Sized()
          invariant progressed ==>
            forall d :: State().Drained(d, capacity) ==> before.Drained(d, capacity)
        {
          var k :| k in rest;
          rest := rest - {k};
          var payload := pending[k];
          var end := Add(k, |payload|);
          if SeqLE(end, nextSeq) {
            assert before.Ready(k);
            pending := pending - {k};
            pendingLen := pendingLen - |payload|;
            progressed := true;
          } else if !SeqLT(nextSeq, k) {
            assert before.Ready(k);
            before.SkipInRange(k);
            pending := pending - {k};
            pendingLen := pendingLen - |payload|;
            var skip := Sub(nextSeq, k);
            AppendContiguous(payload[skip..], capacity);
            progressed := true;
          }
          if progressed {
            assert State() == before.Absorbed(k, capacity);
          }
        }
      }
    }

    /** `ok` is false when the slice `payload[skip:]` of the prepend branch is out of range. */
    method AppendSeg(s: u32, payload: seq<byte>, capacity: int) returns (ok: bool)
      requires State().Bounded(capacity) && State().Sized()
      modifies this
      ensures old(State()).Fed(s, payload, capacity, State(), ok)
      ensures State().Bounded(capacity) && State().Sized()
    {
      ghost var s0 := State();
      ok := true;
      var drain := false;
      if |payload| > 0 {
        if !haveBase {
          haveBase := true;
          startSeq := s;
          nextSeq := s;
        }
        assert State() == s0.Based(s);
        if SeqLT(s, startSeq) {
          drain, ok := AppendBefore(s, payload, capacity);
        } else {
          drain := AppendAfter(s, payload, capacity);
        }
      }
      assert s0.Entered(s, payload, capacity) == if drain then ToDrain(State()) else Done(State(), ok);
      EnteredBounded(s0, s, payload, capacity);
      if drain {
        DrainPending(capacity);
      }
      FedBounded(s0, s, payload, capacity, State(), ok);
    }

    /** The branch for a segment that starts before everything seen so far. */
    method AppendBefore(s: u32, payload: seq<byte>, capacity: int) returns (drain: bool, ok: bool)
      requires haveBase && 0 < |payload| && SeqLT(s, startSeq)
      modifies this
      ensures old(State()).Entered(s, payload, capacity)
           == if drain then ToDrain(State()) else Done(State(), ok)
      ensures drain ==> ok
    {
      hide Add, Sub, SeqLT, SeqLE, DirState.Entered, DirState.Extended, DirState.Appended;
      ghost var s0 := State();
      EnteredBefore(s0, s, payload, capacity);
      var end := Add(s, |payload|);
      if SeqLT(end, startSeq) {
        truncated := true;
        return false, true;
      }
      var prefixLen := Sub(startSeq, s);
      if prefixLen > |payload| {
        prefixLen := |payload|;
      }
      var n := Prepend(payload[..prefixLen], capacity);
      if n > 0 {
        startSeq := Add(startSeq, -n);
      }
      ExtendedIs(s0, State(), payload[..prefixLen], n, capacity);
      if SeqLT(nextSeq, end) {
        var skip := Sub(nextSeq, s);
        if skip > |payload| {
          return false, false;
        }
        AppendContiguous(payload[skip..], capacity);
        return true, true;
      }
      return false, true;
    }

    /** The branches for a segment that starts inside, at the end of, or beyond the buffer. */
    method AppendAfter(s: u32, payload: seq<byte>, capacity: int) returns (drain: bool)
      requires haveBase && 0 < |payload| && !SeqLT(s, startSeq)
      modifies this
      ensures old(State()).Entered(s, payload, capacity)
           == if drain then ToDrain(State()) else Done(State(), true)
    {
      hide Add, Sub, SeqLT, SeqLE;
      var end := Add(s, |payload|);
      var rest := payload;
      var at := s;
      if SeqLT(s, nextSeq) {
        if SeqLE(end, nextSeq) {
          return false;
        }
        var skip := Sub(nextSeq, s);
        if skip < |payload| {
          rest := payload[skip..];
        } else {
          return false;
        }
        at := nextSeq;
      }
      if at != nextSeq {
        StorePending(at, rest, capacity);
        return false;
      }
      AppendContiguous(rest, capacity);
      return true;
    }
  }
}
