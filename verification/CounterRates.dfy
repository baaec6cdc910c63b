/**
 Interface counters read at intervals: the increment between two readings, across one wrap of
 a 32-bit counter, and the rates computed from it. Floating-point values are real numbers
 here.
 */
module CounterRates {
  import opened Base

  const TWO32 := 0x1_0000_0000
  const TWO64 := 0x1_0000_0000_0000_0000

  /** The increment, or `None` for a reading that looks like a reset. */
  function CounterDelta(prev: u64, cur: u64, is64: bool, elapsed: real, speedBps: u64): Option<u64> {
    if cur >= prev then Some(cur - prev)
    else if is64 then None
    else
      // prev may exceed 32 bits only for a counter that changed width; the sum is taken in 64 bits
      var d: u64 := (TWO32 - prev + cur) % TWO64;
      if speedBps > 0 && elapsed > 0.0 && (d as real) * 8.0 / elapsed > (speedBps as real) * 1.5 then None
      else Some(d)
  }

  /** How far a counter of 32 or 64 bits counts before it starts again. */
  function Modulus(wide: bool): (n: nat)
    ensures n > 0
  {
    if wide then TWO64 else TWO32
  }

  /** A Counter32 or Counter64 (RFC 2578, sections 7.1.6 and 7.1.10) shows its true count modulo its range. */
  function Shown(total: nat, wide: bool): u64 {
    total % Modulus(wide)
  }

  /** The increment is no faster than one and a half times the link. */
  predicate Plausible(d: nat, elapsed: real, speedBps: u64) {
    speedBps == 0 || elapsed <= 0.0 || (d as real) * 8.0 / elapsed <= (speedBps as real) * 1.5
  }

  /** The reading is below the one before it. */
  predicate Wraps(p: nat, c: nat, wide: bool) {
    Shown(c, wide) < Shown(p, wide)
  }

  /**
   Between the two counts the counter came round less than once, and if its reading fell, it is a
   narrow counter with a plausible increment.
   */
  predicate Readable(p: nat, c: nat, wide: bool, elapsed: real, speedBps: u64) {
    p <= c && c - p < Modulus(wide) && (Wraps(p, c, wide) ==> !wide && Plausible(c - p, elapsed, speedBps))
  }

  lemma {:induction false} ShownDifference(p: nat, c: nat, wide: bool)
    requires p <= c
    ensures (c - p) % Modulus(wide) ==
      Shown(c, wide) - Shown(p, wide) + if Wraps(p, c, wide) then Modulus(wide) else 0
  {
    var n := Modulus(wide);
    var q, r := p / n, c / n;
    assert p == q * n + Shown(p, wide) && c == r * n + Shown(c, wide);
    var d := c - p;
    if Wraps(p, c, wide) {
      assert (r - q - 1) * n == r * n - q * n - n;
      DivModIs(d, r - q - 1, n - Shown(p, wide) + Shown(c, wide), n);
    } else {
      assert (r - q) * n == r * n - q * n;
      DivModIs(d, r - q, Shown(c, wide) - Shown(p, wide), n);
    }
  }

  /**
   For two readings of a counter of either width, the true increment is returned if and only
   if the counter came round less than once and, where the reading fell, it is a 32-bit
   counter and the increment is plausible for the link.
   */
  lemma {:induction false} DeltaExactly(p: nat, c: nat, wide: bool, elapsed: real, speedBps: u64)
    requires p <= c
    ensures CounterDelta(Shown(p, wide), Shown(c, wide), wide, elapsed, speedBps) == Some(c - p) <==>
      Readable(p, c, wide, elapsed, speedBps)
  {
    ShownDifference(p, c, wide);
    var n := Modulus(wide);
    if c - p < n {
      DivModIs(c - p, 0, c - p, n);
    }
    if Wraps(p, c, false) {
      assert (TWO32 - Shown(p, false) + Shown(c, false)) % TWO64 == TWO32 - Shown(p, false) + Shown(c, false);
    }
  }

  /** A 64-bit counter below its range is readable however fast it counts. */
  lemma {:induction false} WideReadable(p: nat, c: nat, elapsed: real, speedBps: u64)
    requires p <= c < TWO64
    ensures Readable(p, c, true, elapsed, speedBps)
  {
  }

  // ----- rates -----

  datatype Sample = Sample(
    ts: real, inOctets: u64, outOctets: u64, inUcast: u64, outUcast: u64,
    inErrors: u64, outErrors: u64, inDiscards: u64, outDiscards: u64,
    is64: bool, discontinuity: u64)

  datatype Rates = Rates(
    inBps: real, outBps: real, inPps: real, outPps: real,
    inErrPps: real, outErrPps: real, inDiscPps: real, outDiscPps: real,
    inUtil: real, outUtil: real, valid: bool)

  const NO_RATES := Rates(0.0, 0.0, 0.0, 0.0, 0.0, 0.0, 0.0, 0.0, 0.0, 0.0, false)

  function PerSecond(d: Option<u64>, elapsed: real): real
    requires elapsed > 0.0
  {
    if d.Some? then (d.value as real) / elapsed else 0.0
  }

  function ComputeRates(prev: Sample, cur: Sample, speedBps: u64): Rates {
    var elapsed := cur.ts - prev.ts;
    if elapsed <= 0.0 || cur.discontinuity != prev.discontinuity then NO_RATES else
    var inB := CounterDelta(prev.inOctets, cur.inOctets, cur.is64, elapsed, speedBps);
    var outB := CounterDelta(prev.outOctets, cur.outOctets, cur.is64, elapsed, speedBps);
    if inB.None? || outB.None? then NO_RATES else
    var inBps, outBps := (inB.value as real) * 8.0 / elapsed, (outB.value as real) * 8.0 / elapsed;
    Rates(
      inBps, outBps,
      PerSecond(CounterDelta(prev.inUcast, cur.inUcast, cur.is64, elapsed, 0), elapsed),
      PerSecond(CounterDelta(prev.outUcast, cur.outUcast, cur.is64, elapsed, 0), elapsed),
      PerSecond(CounterDelta(prev.inErrors, cur.inErrors, false, elapsed, 0), elapsed),
      PerSecond(CounterDelta(prev.outErrors, cur.outErrors, false, elapsed, 0), elapsed),
      PerSecond(CounterDelta(prev.inDiscards, cur.inDiscards, false, elapsed, 0), elapsed),
      PerSecond(CounterDelta(prev.outDiscards, cur.outDiscards, false, elapsed, 0), elapsed),
      if speedBps > 0 then inBps / (speedBps as real) * 100.0 else 0.0,
      if speedBps > 0 then outBps / (speedBps as real) * 100.0 else 0.0,
      true)
  }

  // ----- a run of polls -----

  /** The true octet counts behind a sample, of one interface, at one poll. */
  datatype Truth = Truth(ts: real, inTotal: nat, outTotal: nat)

  /** The samples are what the true counts show in counters of one width, without a discontinuity. */
  ghost predicate Observes(samples: seq<Sample>, truths: seq<Truth>, wide: bool) {
    && |samples| == |truths|
    && (forall i :: 0 <= i < |samples| ==> Reads(samples[i], truths[i], wide))
    && (forall i :: 0 < i < |samples| ==> samples[i].discontinuity == samples[i - 1].discontinuity)
  }

  predicate Reads(s: Sample, t: Truth, wide: bool) {
    s.ts == t.ts && s.is64 == wide && s.inOctets == Shown(t.inTotal, wide) && s.outOctets == Shown(t.outTotal, wide)
  }

  /** Between two polls time passes, and both counters stay readable. */
  predicate Behaves(p: Truth, c: Truth, wide: bool, speedBps: u64) {
    && p.ts < c.ts
    && Readable(p.inTotal, c.inTotal, wide, c.ts - p.ts, speedBps)
    && Readable(p.outTotal, c.outTotal, wide, c.ts - p.ts, speedBps)
  }

  ghost predicate AlwaysBehaves(truths: seq<Truth>, wide: bool, speedBps: u64) {
    forall i {:trigger truths[i]} :: 0 < i < |truths| ==> Behaves(truths[i - 1], truths[i], wide, speedBps)
  }

  /** The octets a rate stands for over an interval: rate times duration, over eight. */
  function Octets(bps: real, prev: Sample, cur: Sample): real {
    bps * (cur.ts - prev.ts) / 8.0
  }

  datatype Volume = Volume(inOctets: real, outOctets: real)

  /** The octets reported over the first `n` intervals, in both directions; an invalid interval reports none. */
  function Reported(samples: seq<Sample>, speedBps: u64, n: nat): Volume
    requires n < |samples|
  {
    if n == 0 then Volume(0.0, 0.0) else
    var before, prev, cur := Reported(samples, speedBps, n - 1), samples[n - 1], samples[n];
    var r := ComputeRates(prev, cur, speedBps);
    Volume(before.inOctets + Octets(r.inBps, prev, cur), before.outOctets + Octets(r.outBps, prev, cur))
  }

  /** The interval is reported, with its true octet rates. */
  predicate ReportedTruly(prev: Sample, cur: Sample, p: Truth, c: Truth, speedBps: u64)
  {
    var r := ComputeRates(prev, cur, speedBps);
    && r.valid
    && Octets(r.inBps, prev, cur) == (c.inTotal - p.inTotal) as real
    && Octets(r.outBps, prev, cur) == (c.outTotal - p.outTotal) as real
  }

  lemma {:induction false} RateOctets(d: int, prev: Sample, cur: Sample)
    requires prev.ts < cur.ts
    ensures Octets((d as real) * 8.0 / (cur.ts - prev.ts), prev, cur) == d as real
  {
    Cancel((d as real) * 8.0, cur.ts - prev.ts);
    OneEighth((d as real) * 8.0, d);
  }

  lemma {:induction false} Cancel(x: real, y: real)
    requires y > 0.0
    ensures x / y * y == x
  {
  }

  lemma {:induction false} OneEighth(x: real, d: int)
    requires x == (d as real) * 8.0
    ensures x / 8.0 == d as real
  {
  }

  /**
   For counters of either width whose counts do not fall, an interval is reported with its true
   octet rates in both directions if and only if both counters stayed readable.
   */
  lemma {:induction false} IntervalExactly(prev: Sample, cur: Sample, p: Truth, c: Truth, wide: bool, speedBps: u64)
    requires Reads(prev, p, wide) && Reads(cur, c, wide) && prev.discontinuity == cur.discontinuity
    requires p.ts < c.ts && p.inTotal <= c.inTotal && p.outTotal <= c.outTotal
    ensures ReportedTruly(prev, cur, p, c, speedBps) <==> Behaves(p, c, wide, speedBps)
  {
    hide CounterDelta, Readable, Shown, PerSecond, Octets;
    var elapsed := c.ts - p.ts;
    DeltaExactly(p.inTotal, c.inTotal, wide, elapsed, speedBps);
    DeltaExactly(p.outTotal, c.outTotal, wide, elapsed, speedBps);
    var inB := CounterDelta(prev.inOctets, cur.inOctets, wide, elapsed, speedBps);
    var outB := CounterDelta(prev.outOctets, cur.outOctets, wide, elapsed, speedBps);
    if inB.Some? {
      RateOctets(inB.value, prev, cur);
    }
    if outB.Some? {
      RateOctets(outB.value, prev, cur);
    }
  }

  /**
   Over every run of polls in which the counters stay readable no interval is discarded, and
   the reported octets add up to the true totals in both directions, for 32-bit counters
   across any number of wraps.
   */
  lemma {:induction false} RunExact(samples: seq<Sample>, truths: seq<Truth>, wide: bool, speedBps: u64, n: nat)
    requires Observes(samples, truths, wide) && AlwaysBehaves(truths, wide, speedBps) && n < |samples|
    ensures Reported(samples, speedBps, n) ==
      Volume((truths[n].inTotal - truths[0].inTotal) as real, (truths[n].outTotal - truths[0].outTotal) as real)
    ensures 0 < n ==> ComputeRates(samples[n - 1], samples[n], speedBps).valid
  {
    hide ComputeRates, Octets, Readable, Reads;
    if n > 0 {
      RunExact(samples, truths, wide, speedBps, n - 1);
      var p, c := truths[n - 1], truths[n];
      assert Behaves(p, c, wide, speedBps);
      Rising(p, c, wide, speedBps);
      IntervalExactly(samples[n - 1], samples[n], p, c, wide, speedBps);
    }
  }

  lemma {:induction false} Rising(p: Truth, c: Truth, wide: bool, speedBps: u64)
    requires Behaves(p, c, wide, speedBps)
    ensures p.ts < c.ts && p.inTotal <= c.inTotal && p.outTotal <= c.outTotal
  {
  }

  /** Poll after poll time passes and the totals rise, below the range of a 64-bit counter. */
  ghost predicate Rises(truths: seq<Truth>) {
    forall i {:trigger truths[i]} :: 0 < i < |truths| ==>
      var p, c := truths[i - 1], truths[i];
      p.ts < c.ts && p.inTotal <= c.inTotal < TWO64 && p.outTotal <= c.outTotal < TWO64
  }

  /** For 64-bit counters nothing more is needed: however fast they count, every run is exact. */
  lemma {:induction false} WideRunExact(samples: seq<Sample>, truths: seq<Truth>, speedBps: u64, n: nat)
    requires Observes(samples, truths, true) && Rises(truths) && n < |samples|
    ensures Reported(samples, speedBps, n) ==
      Volume((truths[n].inTotal - truths[0].inTotal) as real, (truths[n].outTotal - truths[0].outTotal) as real)
  {
    forall i {:trigger truths[i]} | 0 < i < |truths|
      ensures Behaves(truths[i - 1], truths[i], true, speedBps)
    {
      var p, c := truths[i - 1], truths[i];
      WideReadable(p.inTotal, c.inTotal, c.ts - p.ts, speedBps);
      WideReadable(p.outTotal, c.outTotal, c.ts - p.ts, speedBps);
    }
    hide Behaves, Reported;
    RunExact(samples, truths, true, speedBps, n);
  }

  // ----- the other rates -----

  /** The true counts of packets, errors and discards behind a sample. */
  datatype Counts = Counts(
    inUcast: nat, outUcast: nat, inErrors: nat, outErrors: nat, inDiscards: nat, outDiscards: nat)

  /** Packets are counted in the width of the octets, errors and discards in 32 bits. */
  predicate ShowsCounts(s: Sample, t: Counts) {
    && s.inUcast == Shown(t.inUcast, s.is64) && s.outUcast == Shown(t.outUcast, s.is64)
    && s.inErrors == Shown(t.inErrors, false) && s.outErrors == Shown(t.outErrors, false)
    && s.inDiscards == Shown(t.inDiscards, false) && s.outDiscards == Shown(t.outDiscards, false)
  }

  /** The counter came round less than once, and if its reading fell, it is a narrow one. */
  predicate Followed(p: nat, c: nat, wide: bool) {
    p <= c && c - p < Modulus(wide) && (Wraps(p, c, wide) ==> !wide)
  }

  /** What the rate amounts to over the interval is the true increment. */
  predicate IsTrueRate(rate: real, secs: real, p: nat, c: nat) {
    rate * secs == (c - p) as real
  }

  /** A rate is the true increment per second exactly if the counter could be followed. */
  lemma {:induction false} RateExactly(p: nat, c: nat, wide: bool, secs: real)
    requires secs > 0.0
    ensures var rate := PerSecond(CounterDelta(Shown(p, wide), Shown(c, wide), wide, secs, 0), secs);
      IsTrueRate(rate, secs, p, c) <==> Followed(p, c, wide)
  {
    hide CounterDelta, Shown, Wraps, PerSecond;
    var d := CounterDelta(Shown(p, wide), Shown(c, wide), wide, secs, 0);
    PerSecondTimes(d, secs);
    FollowedExactly(p, c, wide, secs);
    hide Followed, IsTrueRate;
    RateOf(PerSecond(d, secs), secs, p, c, d, Followed(p, c, wide));
  }

  lemma {:induction false} FollowedExactly(p: nat, c: nat, wide: bool, secs: real)
    ensures Followed(p, c, wide) ==> p <= c
    ensures p == c ==> Followed(p, c, wide)
    ensures p <= c ==>
      (CounterDelta(Shown(p, wide), Shown(c, wide), wide, secs, 0) == Some(c - p) <==> Followed(p, c, wide))
  {
    if p <= c {
      DeltaExactly(p, c, wide, secs, 0);
    }
    hide CounterDelta;
  }

  /** A rate per second is true exactly if the difference that it comes from is. */
  lemma {:induction false} RateOf(rate: real, secs: real, p: nat, c: nat, d: Option<u64>, followed: bool)
    requires rate * secs == if d.Some? then d.value as real else 0.0
    requires (followed ==> p <= c) && (p == c ==> followed) && (p <= c ==> (d == Some(c - p) <==> followed))
    ensures IsTrueRate(rate, secs, p, c) <==> followed
  {
  }

  lemma {:induction false} PerSecondTimes(d: Option<u64>, secs: real)
    requires secs > 0.0
    ensures PerSecond(d, secs) * secs == if d.Some? then d.value as real else 0.0
  {
  }

  /**
   A reported interval has the true rate of packets, errors and discards in each direction exactly
   if that counter could be followed.
   */
  lemma {:induction false} OtherRatesExactly(prev: Sample, cur: Sample, p: Counts, c: Counts, speedBps: u64)
    requires ComputeRates(prev, cur, speedBps).valid && prev.is64 == cur.is64
    requires ShowsCounts(prev, p) && ShowsCounts(cur, c)
    ensures var r := ComputeRates(prev, cur, speedBps); var secs := cur.ts - prev.ts; var wide := cur.is64;
      && secs > 0.0
      && (IsTrueRate(r.inPps, secs, p.inUcast, c.inUcast) <==> Followed(p.inUcast, c.inUcast, wide))
      && (IsTrueRate(r.outPps, secs, p.outUcast, c.outUcast) <==> Followed(p.outUcast, c.outUcast, wide))
      && (IsTrueRate(r.inErrPps, secs, p.inErrors, c.inErrors) <==> Followed(p.inErrors, c.inErrors, false))
      && (IsTrueRate(r.outErrPps, secs, p.outErrors, c.outErrors) <==> Followed(p.outErrors, c.outErrors, false))
      && (IsTrueRate(r.inDiscPps, secs, p.inDiscards, c.inDiscards) <==> Followed(p.inDiscards, c.inDiscards, false))
      && (IsTrueRate(r.outDiscPps, secs, p.outDiscards, c.outDiscards) <==>
          Followed(p.outDiscards, c.outDiscards, false))
  {
    hide CounterDelta, Shown, PerSecond, Followed, IsTrueRate;
    var secs := cur.ts - prev.ts;
    RateExactly(p.inUcast, c.inUcast, cur.is64, secs);
    RateExactly(p.outUcast, c.outUcast, cur.is64, secs);
    RateExactly(p.inErrors, c.inErrors, false, secs);
    RateExactly(p.outErrors, c.outErrors, false, secs);
    RateExactly(p.inDiscards, c.inDiscards, false, secs);
    RateExactly(p.outDiscards, c.outDiscards, false, secs);
  }

  /** The utilisation is the percentage of the link's speed that the rate takes up; without a known speed it is 0. */
  lemma {:induction false} UtilisationExactly(prev: Sample, cur: Sample, speedBps: u64)
    ensures var r := ComputeRates(prev, cur, speedBps);
      if speedBps == 0 then r.inUtil == 0.0 && r.outUtil == 0.0
      else r.inUtil * speedBps as real == 100.0 * r.inBps && r.outUtil * speedBps as real == 100.0 * r.outBps
    ensures !ComputeRates(prev, cur, speedBps).valid ==> ComputeRates(prev, cur, speedBps) == NO_RATES
  {
    hide CounterDelta, PerSecond;
    var r := ComputeRates(prev, cur, speedBps);
    if speedBps != 0 && r.valid {
      Percent(r.inBps, speedBps as real);
      Percent(r.outBps, speedBps as real);
    }
  }

  lemma {:induction false} Percent(x: real, y: real)
    requires y > 0.0
    ensures x / y * 100.0 * y == 100.0 * x
  {
    assert x / y * y == x;
  }
}
