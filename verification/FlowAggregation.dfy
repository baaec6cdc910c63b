/**
 The aggregation window for flow records: records of one five-tuple are merged, a full window
 gives up an entry with the fewest bytes, and a flush reports and empties the window.
 */
module FlowAggregation {
  import opened Base

  type Text = seq<byte>

  const TWO64 := 0x1_0000_0000_0000_0000
  const MAX_U64 := 0xFFFF_FFFF_FFFF_FFFF

  datatype FlowKey = FlowKey(srcIP: Text, dstIP: Text, srcPort: u16, dstPort: u16, proto: byte)

  const ZERO_KEY := FlowKey([], [], 0, 0, 0)

  datatype FlowRecord = FlowRecord(
    srcIP: Text, dstIP: Text, srcPort: u16, dstPort: u16, proto: byte,
    bytes: u64, packets: u64, firstSeen: int, lastSeen: int, tcpFlags: bv8,
    srcAS: u32, dstAS: u32, inputIf: u32, outputIf: u32)
  {
    function Key(): FlowKey {
      FlowKey(srcIP, dstIP, srcPort, dstPort, proto)
    }
  }

  datatype FlowEntry = FlowEntry(
    key: FlowKey, bytes: u64, packets: u64, firstSeen: int, lastSeen: int, tcpFlags: bv8,
    srcAS: u32, dstAS: u32, inputIf: u32, outputIf: u32)
  {
    function Merged(r: FlowRecord): FlowEntry {
      this.(bytes := (bytes + r.bytes) % TWO64,
      packets := (packets + r.packets) % TWO64,
      tcpFlags := tcpFlags | r.tcpFlags,
      lastSeen := Max(lastSeen, r.lastSeen))
    }

    function Record(): FlowRecord {
      FlowRecord(key.srcIP, key.dstIP, key.srcPort, key.dstPort, key.proto,
                 bytes, packets, firstSeen, lastSeen, tcpFlags, srcAS, dstAS, inputIf, outputIf)
    }
  }

  function Fresh(r: FlowRecord): FlowEntry {
    FlowEntry(r.Key(), r.bytes, r.packets, r.firstSeen, r.lastSeen, r.tcpFlags, r.srcAS, r.dstAS, r.inputIf, r.outputIf)
  }

  type Flows = map<FlowKey, FlowEntry>

  /** `k` is what eviction deletes: a key with the fewest bytes, or the zero key if all entries are saturated. */
  ghost predicate Victim(flows: Flows, k: FlowKey) {
    if exists j :: j in flows && flows[j].bytes < MAX_U64
    then k in flows && flows[k].bytes < MAX_U64 && forall j :: j in flows ==> flows[k].bytes <= flows[j].bytes
    else k == ZERO_KEY
  }

  datatype Agg = Agg(flows: Flows, maxFlows: int, dropped: u64) {
    predicate Full(r: FlowRecord) {
      r.Key() !in flows && |flows| >= maxFlows
    }

    function Dropping(k: FlowKey): Agg {
      this.(flows := flows - {k}, dropped := (dropped + 1) % TWO64)
    }

    function Put(r: FlowRecord): Agg {
      var k := r.Key();
      this.(flows := flows[k := if k in flows then flows[k].Merged(r) else Fresh(r)])
    }

    /** `a` is a possible state after adding a record; `victim` is what was evicted for it. */
    ghost predicate Added(r: FlowRecord, victim: Option<FlowKey>, a: Agg) {
      if Full(r) then victim.Some? && Victim(flows, victim.value) && a == Dropping(victim.value).Put(r)
      else victim == None && a == Put(r)
    }

    function Flushed(): Agg {
      Agg(map[], maxFlows, 0)
    }
  }

  function BytesOf(e: FlowEntry): nat { e.bytes }
  function PacketsOf(e: FlowEntry): nat { e.packets }
  function RecBytes(r: FlowRecord): nat { r.bytes }
  function RecPackets(r: FlowRecord): nat { r.packets }

  datatype Stats = Stats(totalFlows: nat, totalBytes: u64, totalPackets: u64, droppedPackets: u64)

  /** The reported records are those of the entries, one each, in some order. */
  ghost predicate Reports(flows: Flows, records: seq<FlowRecord>) {
    exists ks: seq<FlowKey> :: Lists(flows, ks) && records == RecordsAt(flows, ks)
  }

  predicate Lists(flows: Flows, ks: seq<FlowKey>) {
    && (forall i :: 0 <= i < |ks| ==> ks[i] in flows)
    && (forall i, j :: 0 <= i < j < |ks| ==> ks[i] != ks[j])
    && |ks| == |flows|
  }

  function RecordsAt(flows: Flows, ks: seq<FlowKey>): seq<FlowRecord>
    requires forall i :: 0 <= i < |ks| ==> ks[i] in flows
  {
    seq(|ks|, i requires 0 <= i < |ks| => flows[ks[i]].Record())
  }

  // ----- the aggregator object -----

  class FlowAggregator {
    var flows: Flows
    const maxFlows: int
    var dropped: u64

    ghost function State(): Agg
      reads this
    {
      Agg(flows, maxFlows, dropped)
    }

    constructor (maxFlows: int)
      ensures State() == Agg(map[], maxFlows, 0)
    {
      this.maxFlows := maxFlows;
      flows, dropped := map[], 0;
    }

    method EvictMin() returns (ghost victim: FlowKey)
      modifies this
      ensures Victim(old(flows), victim) && State() == old(State()).Dropping(victim)
    {
      var minKey, minBytes := ZERO_KEY, MAX_U64;
      var rest := flows.Keys;
      while rest != {}
        invariant State() == old(State())
        invariant rest <= flows.Keys && minBytes <= MAX_U64
        invariant minBytes == MAX_U64 ==> minKey == ZERO_KEY
        invariant minBytes < MAX_U64 ==> minKey in flows && flows[minKey].bytes == minBytes
        invariant forall j :: j in flows && j !in rest ==> minBytes <= flows[j].bytes
      {
        var k :| k in rest;
        rest := rest - {k};
        if flows[k].bytes < minBytes {
          minBytes, minKey := flows[k].bytes, k;
        }
      }
      victim := minKey;
      flows := flows - {minKey};
      dropped := (dropped + 1) % TWO64;
    }

    method Add(r: FlowRecord) returns (ghost victim: Option<FlowKey>)
      modifies this
      ensures old(State()).Added(r, victim, State())
    {
      victim := None;
      var key := r.Key();
      if key in flows {
        flows := flows[key := flows[key].Merged(r)];
        return;
      }
      if |flows| >= maxFlows {
        ghost var v := EvictMin();
        victim := Some(v);
      }
      flows := flows[key := Fresh(r)];
    }

    method Flush() returns (records: seq<FlowRecord>, stats: Stats)
      modifies this
      ensures State() == old(State()).Flushed()
      ensures Reports(old(flows), records)
      ensures stats == Stats(|old(flows)|, Sum(old(flows), BytesOf) % TWO64,
                             Sum(old(flows), PacketsOf) % TWO64, old(dropped))
    {
      hide Sum, Collected, Totals;
      records := [];
      var totalBytes: u64, totalPackets: u64 := 0, 0;
      ghost var ks: seq<FlowKey> := [];
      var rest := flows;
      CollectStart(flows);
      while rest != map[]
        invariant State() == old(State())
        invariant Collected(flows, rest, ks, records)
        invariant Totals(totalBytes, rest, flows, BytesOf) && Totals(totalPackets, rest, flows, PacketsOf)
        decreases |rest|
      {
        var k :| k in rest;
        var e := rest[k];
        CollectStep(flows, rest, ks, records, k);
        TotalsStep(totalBytes, rest, flows, BytesOf, k);
        TotalsStep(totalPackets, rest, flows, PacketsOf, k);
        records := records + [e.Record()];
        ks := ks + [k];
        totalBytes := (totalBytes + e.bytes) % TWO64;
        totalPackets := (totalPackets + e.packets) % TWO64;
        assert (rest - {k}).Keys == rest.Keys - {k};
        rest := rest - {k};
      }
      CollectEnd(flows, ks, records);
      TotalsEnd(totalBytes, flows, BytesOf);
      TotalsEnd(totalPackets, flows, PacketsOf);
      stats := Stats(|records|, totalBytes, totalPackets, dropped);
      flows := map[];
      dropped := 0;
    }
  }

  /** Flushing so far: `ks` are the flows done, `rest` those still to do. */
  ghost predicate Collected(flows: Flows, rest: Flows, ks: seq<FlowKey>, records: seq<FlowRecord>) {
    && (forall k :: k in rest ==> k in flows && rest[k] == flows[k])
    && |ks| + |rest| == |flows|
    && (forall i :: 0 <= i < |ks| ==> ks[i] in flows && ks[i] !in rest)
    && (forall i, j :: 0 <= i < j < |ks| ==> ks[i] != ks[j])
    && records == RecordsAt(flows, ks)
  }

  lemma {:induction false} CollectStart(flows: Flows)
    ensures Collected(flows, flows, [], [])
    ensures Totals(0, flows, flows, BytesOf) && Totals(0, flows, flows, PacketsOf)
  {
    assert RecordsAt(flows, []) == [];
  }

  lemma {:induction false} CollectStep(flows: Flows, rest: Flows, ks: seq<FlowKey>, records: seq<FlowRecord>,
                                       k: FlowKey)
    requires Collected(flows, rest, ks, records) && k in rest
    ensures Collected(flows, rest - {k}, ks + [k], records + [rest[k].Record()])
  {
    assert (rest - {k}).Keys == rest.Keys - {k};
    assert RecordsAt(flows, ks + [k]) == RecordsAt(flows, ks) + [flows[k].Record()];
  }

  lemma {:induction false} CollectEnd(flows: Flows, ks: seq<FlowKey>, records: seq<FlowRecord>)
    requires Collected(flows, map[], ks, records)
    ensures Reports(flows, records) && |records| == |flows|
  {
    assert Lists(flows, ks);
  }

  ghost predicate Totals(total: u64, rest: Flows, flows: Flows, f: FlowEntry -> nat) {
    (total + Sum(rest, f)) % TWO64 == Sum(flows, f) % TWO64
  }

  lemma {:induction false} TotalsStep(total: u64, rest: Flows, flows: Flows, f: FlowEntry -> nat, k: FlowKey)
    requires Totals(total, rest, flows, f) && k in rest
    ensures Totals((total + f(rest[k])) % TWO64, rest - {k}, flows, f)
  {
    hide Sum;
    SumMinus(rest, k, f);
    AddMod(total, f(rest[k]), Sum(rest - {k}, f));
  }

  lemma {:induction false} TotalsEnd(total: u64, flows: Flows, f: FlowEntry -> nat)
    requires Totals(total, map[], flows, f)
    ensures total == Sum(flows, f) % TWO64
  {
    var none: Flows := map[];
    SumEmpty(none, f);
  }

  lemma {:induction false} AddMod(a: nat, b: nat, c: nat)
    ensures ((a + b) % TWO64 + c) % TWO64 == (a + (b + c)) % TWO64
  {
    var q := (a + b) / TWO64;
    assert a + b + c == (a + b) % TWO64 + c + q * TWO64;
    ModPlusMultiple((a + b) % TWO64 + c, q);
  }

  lemma {:induction false} ModPlusMultiple(x: nat, q: nat)
    ensures (x + q * TWO64) % TWO64 == x % TWO64
  {
  }

  // ----- what a flush hands out -----

  function Total(recs: seq<FlowRecord>, g: FlowRecord -> nat): nat {
    if recs == [] then 0 else Total(recs[..|recs| - 1], g) + g(recs[|recs| - 1])
  }

  /** The records handed out carry the traffic of the window. */
  lemma {:induction false} ReportsTotal(flows: Flows, records: seq<FlowRecord>,
                                        f: FlowEntry -> nat, g: FlowRecord -> nat)
    requires Counts(f, g) && Reports(flows, records)
    ensures Total(records, g) == Sum(flows, f)
  {
    hide Sum, Total, Counts;
    var ks :| Lists(flows, ks) && records == RecordsAt(flows, ks);
    ListedTotal(flows, ks, f, g);
  }

  lemma {:induction false} ListedTotal(flows: Flows, ks: seq<FlowKey>, f: FlowEntry -> nat, g: FlowRecord -> nat)
    requires Counts(f, g) && Lists(flows, ks)
    ensures Total(RecordsAt(flows, ks), g) == Sum(flows, f)
  {
    hide Sum, Total, Lists, RecordsAt;
    if ks == [] {
      assert flows == map[] && RecordsAt(flows, ks) == [] && Total([], g) == 0 by { NoneListed(flows, g); }
      SumEmpty(flows, f);
    } else {
      var n := |ks| - 1;
      var k, rest := ks[n], flows - {ks[n]};
      LastListed(flows, ks);
      ListedTotal(rest, ks[..n], f, g);
      TotalLast(RecordsAt(rest, ks[..n]), flows[k].Record(), g);
      SumMinus(flows, k, f);
    }
  }

  lemma {:induction false} NoneListed(flows: Flows, g: FlowRecord -> nat)
    requires Lists(flows, [])
    ensures flows == map[] && RecordsAt(flows, []) == [] && Total([], g) == 0
  {
  }

  lemma {:induction false} LastListed(flows: Flows, ks: seq<FlowKey>)
    requires Lists(flows, ks) && ks != []
    ensures var n := |ks| - 1; var rest := flows - {ks[n]};
      && ks[n] in flows && Lists(rest, ks[..n])
      && RecordsAt(flows, ks) == RecordsAt(rest, ks[..n]) + [flows[ks[n]].Record()]
  {
    var n := |ks| - 1;
    var rest := flows - {ks[n]};
    assert rest.Keys == flows.Keys - {ks[n]};
    assert Lists(rest, ks[..n]);
  }

  lemma {:induction false} TotalLast(recs: seq<FlowRecord>, r: FlowRecord, g: FlowRecord -> nat)
    ensures Total(recs + [r], g) == Total(recs, g) + g(r)
  {
    assert (recs + [r])[..|recs|] == recs;
  }

  // ----- the ledger of a run -----

  /** A step, with the record added or the records handed out. */
  datatype Step = Add(r: FlowRecord) | Flush(records: seq<FlowRecord>)

  /** What has been added, reported by flushes, and lost to eviction, of one quantity. */
  datatype Ledger = Ledger(added: nat, reported: nat, evicted: nat)

  /** A quantity counted per entry and per record, modulo 2^64. */
  ghost predicate Counts(f: FlowEntry -> nat, g: FlowRecord -> nat) {
    && (forall r :: f(Fresh(r)) == g(r))
    && (forall e: FlowEntry, r: FlowRecord :: f(e.Merged(r)) == (f(e) + g(r)) % TWO64)
    && (forall e: FlowEntry :: g(e.Record()) == f(e))
  }

  lemma {:induction false} BytesAndPacketsCount()
    ensures Counts(BytesOf, RecBytes) && Counts(PacketsOf, RecPackets)
  {
  }

  function Lost(a: Agg, victim: Option<FlowKey>, f: FlowEntry -> nat): nat {
    if victim.Some? && victim.value in a.flows then f(a.flows[victim.value]) else 0
  }

  /** One step of a run: what was evicted, and how the ledger moves. */
  ghost predicate Booked(a: Agg, l: Ledger, s: Step, victim: Option<FlowKey>, a': Agg, l': Ledger,
                         f: FlowEntry -> nat, g: FlowRecord -> nat)
  {
    match s
    case Add(r) =>
      a.Added(r, victim, a') && l' == l.(added := l.added + g(r), evicted := l.evicted + Lost(a, victim, f))
    case Flush(records) =>
      victim == None && Reports(a.flows, records) && a' == a.Flushed() &&
      l' == l.(reported := l.reported + Total(records, g))
  }

  /** Added traffic is reported, resident or evicted, up to wrap-around of the 64-bit counters. */
  ghost predicate Balanced(a: Agg, l: Ledger, f: FlowEntry -> nat) {
    (l.added - l.reported - l.evicted - Sum(a.flows, f)) % TWO64 == 0
  }

  /** Added traffic is reported, resident or evicted, without wrap-around. */
  ghost predicate Exact(a: Agg, l: Ledger, f: FlowEntry -> nat) {
    l.added == l.reported + l.evicted + Sum(a.flows, f)
  }

  lemma {:induction false} SumWithout(m: Flows, k: FlowKey, f: FlowEntry -> nat)
    ensures Sum(m - {k}, f) == Sum(m, f) - (if k in m then f(m[k]) else 0)
  {
    if k in m {
      SumMinus(m, k, f);
    } else {
      assert m - {k} == m;
    }
  }

  /** How putting a record moves the resident sum. */
  lemma {:induction false} PutMoves(a: Agg, r: FlowRecord, f: FlowEntry -> nat, g: FlowRecord -> nat)
    requires Counts(f, g)
    ensures var k := r.Key();
      Sum(a.Put(r).flows, f) == Sum(a.flows, f) +
        if k in a.flows then (f(a.flows[k]) + g(r)) % TWO64 - f(a.flows[k]) else g(r)
  {
    hide Sum;
    var k := r.Key();
    var e := if k in a.flows then a.flows[k].Merged(r) else Fresh(r);
    SumPut(a.flows, k, e, f);
    SumWithout(a.flows, k, f);
  }

  /** Conservation in every step, wrap-around included. */
  lemma {:induction false} BookedBalances(a: Agg, l: Ledger, s: Step, victim: Option<FlowKey>, a': Agg, l': Ledger,
                                          f: FlowEntry -> nat, g: FlowRecord -> nat)
    requires Counts(f, g) && Balanced(a, l, f) && Booked(a, l, s, victim, a', l', f, g)
    ensures Balanced(a', l', f)
  {
    hide Sum, Total, Reports, Victim, Agg.Put;
    match s
    case Flush(records) =>
      ReportsTotal(a.flows, records, f, g);
      SumEmpty(a'.flows, f);
    case Add(r) =>
      var b := if victim.Some? then a.Dropping(victim.value) else a;
      if victim.Some? {
        SumWithout(a.flows, victim.value, f);
      }
      assert Sum(b.flows, f) == Sum(a.flows, f) - Lost(a, victim, f);
      PutMoves(b, r, f, g);
      var k := r.Key();
      if k in b.flows {
        var x := f(b.flows[k]) + g(r);
        var before := l.added - l.reported - l.evicted - Sum(a.flows, f);
        var q := x / TWO64;
        assert x == x % TWO64 + q * TWO64;
        assert l'.added - l'.reported - l'.evicted - Sum(a'.flows, f) == before + q * TWO64;
        ZeroMod(before, q);
      }
  }

  lemma {:induction false} ZeroMod(x: int, q: int)
    requires x % TWO64 == 0
    ensures (x + q * TWO64) % TWO64 == 0
  {
    var p := x / TWO64;
    assert x + q * TWO64 == (p + q) * TWO64;
    MultipleMod(p + q);
  }

  lemma {:induction false} MultipleMod(p: int)
    ensures (p * TWO64) % TWO64 == 0
  {
  }

  /** While less than 2^64 has been added in all, conservation is exact. */
  lemma {:induction false} BookedExact(a: Agg, l: Ledger, s: Step, victim: Option<FlowKey>, a': Agg, l': Ledger,
                                       f: FlowEntry -> nat, g: FlowRecord -> nat)
    requires Counts(f, g) && Exact(a, l, f) && Booked(a, l, s, victim, a', l', f, g)
    requires l'.added < TWO64
    ensures Exact(a', l', f)
  {
    hide Sum;
    match s
    case Flush(records) =>
      ReportsTotal(a.flows, records, f, g);
      SumEmpty(a'.flows, f);
    case Add(r) =>
      var b := if victim.Some? then a.Dropping(victim.value) else a;
      if victim.Some? {
        SumWithout(a.flows, victim.value, f);
      }
      PutMoves(b, r, f, g);
      var k := r.Key();
      if k in b.flows {
        SumMinus(b.flows, k, f);
        assert f(b.flows[k]) + g(r) < TWO64;
      }
  }

  // ----- runs -----

  /** A run from the empty window: states, ledgers and victims of every step. */
  datatype History = History(aggs: seq<Agg>, ledgers: seq<Ledger>, victims: seq<Option<FlowKey>>)

  ghost predicate IsRun(h: History, steps: seq<Step>, maxFlows: int, f: FlowEntry -> nat, g: FlowRecord -> nat) {
    && |h.aggs| == |h.ledgers| == |steps| + 1 && |h.victims| == |steps|
    && h.aggs[0] == Agg(map[], maxFlows, 0) && h.ledgers[0] == Ledger(0, 0, 0)
    && forall i :: 0 <= i < |steps| ==>
         Booked(h.aggs[i], h.ledgers[i], steps[i], h.victims[i], h.aggs[i + 1], h.ledgers[i + 1], f, g)
  }

  /** Conservation over every run: always up to wrap-around, exactly while the total fits 64 bits. */
  lemma {:induction false} RunConserves(h: History, steps: seq<Step>, maxFlows: int, i: nat,
                                        f: FlowEntry -> nat, g: FlowRecord -> nat)
    requires Counts(f, g) && IsRun(h, steps, maxFlows, f, g) && i <= |steps|
    ensures Balanced(h.aggs[i], h.ledgers[i], f)
    ensures h.ledgers[i].added < TWO64 ==> Exact(h.aggs[i], h.ledgers[i], f)
  {
    hide Sum, Booked, Counts;
    if i == 0 {
      SumEmpty(h.aggs[0].flows, f);
    } else {
      RunConserves(h, steps, maxFlows, i - 1, f, g);
      var a, l, a', l' := h.aggs[i - 1], h.ledgers[i - 1], h.aggs[i], h.ledgers[i];
      var s, v := steps[i - 1], h.victims[i - 1];
      BookedBalances(a, l, s, v, a', l', f, g);
      if l'.added < TWO64 {
        LedgerGrows(a, l, s, v, a', l', f, g);
        BookedExact(a, l, s, v, a', l', f, g);
      }
    }
  }

  /** The step merges a record into an entry whose counter comes round. */
  predicate Wraps(a: Agg, s: Step, f: FlowEntry -> nat, g: FlowRecord -> nat) {
    s.Add? && s.r.Key() in a.flows && f(a.flows[s.r.Key()]) + g(s.r) >= TWO64
  }

  /** What wrap-around has lost: added traffic that is neither reported nor evicted nor resident. */
  ghost function Lack(a: Agg, l: Ledger, f: FlowEntry -> nat): int {
    l.added - l.reported - l.evicted - Sum(a.flows, f)
  }

  /** A step loses nothing, unless it merges a record into a counter that comes round: then it loses something. */
  lemma {:induction false} StepLack(a: Agg, l: Ledger, s: Step, victim: Option<FlowKey>, a': Agg, l': Ledger,
                                    f: FlowEntry -> nat, g: FlowRecord -> nat)
    requires Counts(f, g) && Booked(a, l, s, victim, a', l', f, g)
    ensures if Wraps(a, s, f, g) then Lack(a', l', f) > Lack(a, l, f) else Lack(a', l', f) == Lack(a, l, f)
  {
    hide Sum;
    match s
    case Flush(records) =>
      ReportsTotal(a.flows, records, f, g);
      SumEmpty(a'.flows, f);
    case Add(r) =>
      var b := if victim.Some? then a.Dropping(victim.value) else a;
      if victim.Some? {
        SumWithout(a.flows, victim.value, f);
      }
      PutMoves(b, r, f, g);
      assert r.Key() in b.flows <==> r.Key() in a.flows;
  }

  /** No merge in the first `i` steps wrapped. */
  ghost predicate NeverWraps(h: History, steps: seq<Step>, i: nat, f: FlowEntry -> nat, g: FlowRecord -> nat)
    requires i <= |steps| < |h.aggs|
  {
    forall n :: 0 <= n < i ==> !Wraps(h.aggs[n], steps[n], f, g)
  }

  /** Conservation is exact in exactly those runs in which no merge has wrapped. */
  lemma {:induction false} RunConservesExactly(h: History, steps: seq<Step>, maxFlows: int, i: nat,
                                               f: FlowEntry -> nat, g: FlowRecord -> nat)
    requires Counts(f, g) && IsRun(h, steps, maxFlows, f, g) && i <= |steps|
    ensures Exact(h.aggs[i], h.ledgers[i], f) <==> NeverWraps(h, steps, i, f, g)
    ensures Lack(h.aggs[i], h.ledgers[i], f) >= 0
  {
    hide Sum, Booked, Counts, Wraps;
    if i == 0 {
      SumEmpty(h.aggs[0].flows, f);
    } else {
      var n := i - 1;
      RunConservesExactly(h, steps, maxFlows, n, f, g);
      StepLack(h.aggs[n], h.ledgers[n], steps[n], h.victims[n], h.aggs[i], h.ledgers[i], f, g);
      assert NeverWraps(h, steps, i, f, g) <==>
        NeverWraps(h, steps, n, f, g) && !Wraps(h.aggs[n], steps[n], f, g);
    }
  }

  lemma {:induction false} LedgerGrows(a: Agg, l: Ledger, s: Step, victim: Option<FlowKey>, a': Agg, l': Ledger,
                                       f: FlowEntry -> nat, g: FlowRecord -> nat)
    requires Booked(a, l, s, victim, a', l', f, g)
    ensures l.added <= l'.added && a'.maxFlows == a.maxFlows
  {
    hide Sum;
  }

  /** Evictions since the last flush, in the first `i` steps of a run. */
  function Evictions(steps: seq<Step>, victims: seq<Option<FlowKey>>, i: nat): nat
    requires i <= |steps| == |victims|
  {
    if i == 0 || steps[i - 1].Flush? then 0
    else Evictions(steps, victims, i - 1) + if victims[i - 1].Some? then 1 else 0
  }

  /** `dropped` counts the evictions since the last flush, in 64 bits. */
  lemma {:induction false} RunCountsEvictions(h: History, steps: seq<Step>, maxFlows: int, i: nat,
                                              f: FlowEntry -> nat, g: FlowRecord -> nat)
    requires IsRun(h, steps, maxFlows, f, g) && i <= |steps|
    ensures h.aggs[i].dropped == Evictions(steps, h.victims, i) % TWO64
  {
    hide Booked;
    if i > 0 {
      RunCountsEvictions(h, steps, maxFlows, i - 1, f, g);
      DroppedMoves(h.aggs[i - 1], h.ledgers[i - 1], steps[i - 1], h.victims[i - 1], h.aggs[i], h.ledgers[i], f, g);
      AddMod(0, Evictions(steps, h.victims, i - 1), 1);
    }
  }

  lemma {:induction false} DroppedMoves(a: Agg, l: Ledger, s: Step, victim: Option<FlowKey>, a': Agg, l': Ledger,
                                        f: FlowEntry -> nat, g: FlowRecord -> nat)
    requires Booked(a, l, s, victim, a', l', f, g)
    ensures a'.dropped == if s.Flush? then 0 else if victim.Some? then (a.dropped + 1) % TWO64 else a.dropped
  {
    hide Sum;
  }

  // ----- the limit of the window -----

  /**
   The guard of eviction: it has something to take if an entry is not saturated, or if the zero key
   is there to delete.
   */
  predicate Evictable(flows: Flows) {
    ZERO_KEY in flows || exists k :: k in flows && flows[k].bytes < MAX_U64
  }

  /** What eviction deletes is an entry, and one with the fewest bytes, exactly when the window is evictable. */
  lemma {:induction false} VictimExactly(flows: Flows, k: FlowKey)
    requires Victim(flows, k)
    ensures k in flows <==> Evictable(flows)
    ensures k in flows ==> forall j :: j in flows ==> flows[k].bytes <= flows[j].bytes
  {
  }

  /** The size of the window after a record: one more, unless the flow was there or eviction made room. */
  function SizeAfter(a: Agg, r: FlowRecord): nat {
    if r.Key() in a.flows || (a.Full(r) && Evictable(a.flows)) then |a.flows| else |a.flows| + 1
  }

  lemma {:induction false} PutSize(a: Agg, r: FlowRecord)
    ensures |a.Put(r).flows| == |a.flows| + if r.Key() in a.flows then 0 else 1
  {
    assert a.Put(r).flows.Keys == a.flows.Keys + {r.Key()};
  }

  lemma {:induction false} DropSize(a: Agg, k: FlowKey)
    ensures |a.Dropping(k).flows| == |a.flows| - if k in a.flows then 1 else 0
  {
    assert a.Dropping(k).flows.Keys == a.flows.Keys - {k};
  }

  /** Adding to a full window keeps its size if there is something to evict, and otherwise outgrows it. */
  lemma {:induction false} AddExactly(a: Agg, r: FlowRecord, victim: Option<FlowKey>, b: Agg)
    requires a.Added(r, victim, b)
    ensures |b.flows| == SizeAfter(a, r)
  {
    hide Agg.Put;
    if a.Full(r) {
      VictimExactly(a.flows, victim.value);
      DropSize(a, victim.value);
      hide Evictable, Victim;
      PutSize(a.Dropping(victim.value), r);
    } else {
      PutSize(a, r);
    }
  }

  /** In the first `i` steps, whenever the window was full there was something to evict. */
  ghost predicate AlwaysEvictable(h: History, steps: seq<Step>, i: nat)
    requires i <= |steps| < |h.aggs|
  {
    forall n :: 0 <= n < i && steps[n].Add? && h.aggs[n].Full(steps[n].r) ==> Evictable(h.aggs[n].flows)
  }

  ghost predicate AlwaysWithin(h: History, maxFlows: int, i: nat)
    requires i < |h.aggs|
  {
    forall n :: 0 <= n <= i ==> |h.aggs[n].flows| <= maxFlows
  }

  /** The window stays within its limit in exactly those runs in which it was evictable whenever it was full. */
  lemma {:induction false} RunWithinLimitExactly(h: History, steps: seq<Step>, maxFlows: int, i: nat,
                                                 f: FlowEntry -> nat, g: FlowRecord -> nat)
    requires IsRun(h, steps, maxFlows, f, g) && i <= |steps| && 1 <= maxFlows
    ensures AlwaysWithin(h, maxFlows, i) <==> AlwaysEvictable(h, steps, i)
    ensures h.aggs[i].maxFlows == maxFlows
  {
    hide Sum, Booked, Evictable;
    if i > 0 {
      var n := i - 1;
      RunWithinLimitExactly(h, steps, maxFlows, n, f, g);
      var a, b := h.aggs[n], h.aggs[i];
      assert Booked(a, h.ledgers[n], steps[n], h.victims[n], b, h.ledgers[i], f, g);
      StepSize(a, h.ledgers[n], steps[n], h.victims[n], b, h.ledgers[i], f, g);
      assert AlwaysWithin(h, maxFlows, i) <==> AlwaysWithin(h, maxFlows, n) && |b.flows| <= maxFlows;
      assert AlwaysWithin(h, maxFlows, n) ==> |a.flows| <= maxFlows;
    }
  }

  lemma {:induction false} StepSize(a: Agg, l: Ledger, s: Step, victim: Option<FlowKey>, a': Agg, l': Ledger,
                                    f: FlowEntry -> nat, g: FlowRecord -> nat)
    requires Booked(a, l, s, victim, a', l', f, g)
    ensures a'.maxFlows == a.maxFlows
    ensures |a'.flows| == if s.Flush? then 0 else SizeAfter(a, s.r)
  {
    hide Sum, Evictable;
    if s.Add? {
      AddExactly(a, s.r, victim, a');
    }
  }

  /** No entry was saturated in the first `i` states. */
  ghost predicate NeverSaturated(h: History, i: nat)
    requires i <= |h.aggs|
  {
    forall n, k :: 0 <= n < i && k in h.aggs[n].flows ==> h.aggs[n].flows[k].bytes < MAX_U64
  }

  /**
   While no entry is saturated, the window stays within its limit and every eviction takes an
   entry with the fewest bytes.
   */
  lemma {:induction false} RunWithinLimit(h: History, steps: seq<Step>, maxFlows: int, i: nat,
                                          f: FlowEntry -> nat, g: FlowRecord -> nat)
    requires IsRun(h, steps, maxFlows, f, g) && i <= |steps| && 1 <= maxFlows && NeverSaturated(h, i)
    ensures AlwaysWithin(h, maxFlows, i)
    ensures forall n :: 0 <= n < i && h.victims[n].Some? ==>
      var flows := h.aggs[n].flows; var k := h.victims[n].value;
      k in flows && forall j :: j in flows ==> flows[k].bytes <= flows[j].bytes
  {
    hide Sum;
    forall n | 0 <= n < i && steps[n].Add? && h.aggs[n].Full(steps[n].r)
      ensures Evictable(h.aggs[n].flows)
    {
      RunWithinLimitExactly(h, steps, maxFlows, n, f, g);
      assert h.aggs[n].flows != map[];
      var k :| k in h.aggs[n].flows;
      assert h.aggs[n].flows[k].bytes < MAX_U64;
    }
    RunWithinLimitExactly(h, steps, maxFlows, i, f, g);
    forall n | 0 <= n < i && h.victims[n].Some?
      ensures var flows := h.aggs[n].flows; var k := h.victims[n].value;
        k in flows && forall j :: j in flows ==> flows[k].bytes <= flows[j].bytes
    {
      assert Booked(h.aggs[n], h.ledgers[n], steps[n], h.victims[n], h.aggs[n + 1], h.ledgers[n + 1], f, g);
      VictimExactly(h.aggs[n].flows, h.victims[n].value);
    }
  }

  /** A record with the largest byte count, told apart by its port. */
  function Saturated(port: u16): FlowRecord {
    FlowRecord([], [], port, 0, 0, MAX_U64, 0, 0, 0, 0, 0, 0, 0, 0)
  }

  /** Two saturated records outgrow a window of one. */
  lemma {:induction false} SaturatedOutgrows() returns (h: History, steps: seq<Step>)
    ensures IsRun(h, steps, 1, BytesOf, RecBytes) && |steps| == 2 && |h.aggs[2].flows| == 2
  {
    hide Sum;
    var r, q := Saturated(1), Saturated(2);
    var empty := Agg(map[], 1, 0);
    var one := empty.Put(r);
    assert one.flows == map[r.Key() := Fresh(r)];
    assert one.flows - {ZERO_KEY} == one.flows;
    var two := one.Dropping(ZERO_KEY).Put(q);
    assert two.flows.Keys == {r.Key(), q.Key()};
    assert empty.Added(r, None, one) && one.Added(q, Some(ZERO_KEY), two);
    steps := [Add(r), Add(q)];
    h := History([empty, one, two], [Ledger(0, 0, 0), Ledger(MAX_U64, 0, 0), Ledger(2 * MAX_U64, 0, 0)],
                 [None, Some(ZERO_KEY)]);
  }

  // ----- a window without evictions -----

  function Added(recs: seq<FlowRecord>): (flows: Flows)
  {
    if recs == [] then map[] else
    Agg(Added(recs[..|recs| - 1]), 0, 0).Put(recs[|recs| - 1]).flows
  }

  /** The record is one of this flow: same two ends, same protocol. */
  predicate IsOf(r: FlowRecord, k: FlowKey) {
    r.srcIP == k.srcIP && r.srcPort == k.srcPort && r.dstIP == k.dstIP && r.dstPort == k.dstPort && r.proto == k.proto
  }

  /** The records of one flow. */
  function Of(recs: seq<FlowRecord>, k: FlowKey): seq<FlowRecord> {
    if recs == [] then [] else
    var n := |recs| - 1;
    Of(recs[..n], k) + if IsOf(recs[n], k) then [recs[n]] else []
  }

  /** All the flags of some records together. */
  function Flags(recs: seq<FlowRecord>): bv8 {
    if recs == [] then 0 else Flags(recs[..|recs| - 1]) | recs[|recs| - 1].tcpFlags
  }

  /** What one record, or one entry, must say about some records of a flow `k`. */
  ghost predicate Summarises(e: FlowRecord, recs: seq<FlowRecord>, k: FlowKey) {
    && recs != [] && IsOf(e, k)
    && e.bytes == Total(recs, RecBytes) % TWO64
    && e.packets == Total(recs, RecPackets) % TWO64
    && e.firstSeen == recs[0].firstSeen
    && (exists i :: 0 <= i < |recs| && e.lastSeen == recs[i].lastSeen)
    && (forall i :: 0 <= i < |recs| ==> recs[i].lastSeen <= e.lastSeen)
    && e.tcpFlags == Flags(recs)
    && e.srcAS == recs[0].srcAS && e.dstAS == recs[0].dstAS
    && e.inputIf == recs[0].inputIf && e.outputIf == recs[0].outputIf
  }

  /**
   Without evictions the window holds exactly the flows that were added, and each entry sums
   up the records of its flow: total bytes and packets, first start, latest end, and their flags together.
   */
  lemma {:induction false} WindowSummarises(recs: seq<FlowRecord>, k: FlowKey)
    ensures k in Added(recs) <==> Of(recs, k) != []
    ensures k in Added(recs) ==> Summarises(Added(recs)[k].Record(), Of(recs, k), k)
  {
    hide Summarises;
    if recs != [] {
      var n := |recs| - 1;
      WindowSummarises(recs[..n], k);
      var before, r := Added(recs[..n]), recs[n];
      if r.Key() == k {
        if k in before {
          MergedSummarises(before[k], Of(recs[..n], k), k, r);
        } else {
          assert Of(recs, k) == [r];
          FreshSummarises(r, k);
        }
      } else {
        assert Of(recs, k) == Of(recs[..n], k);
      }
    }
  }

  lemma {:induction false} FreshSummarises(r: FlowRecord, k: FlowKey)
    requires r.Key() == k
    ensures Summarises(Fresh(r).Record(), [r], k)
  {
    assert [r][..0] == [];
    assert Total([], RecBytes) == 0 && Total([], RecPackets) == 0 && Flags([]) == 0;
    assert Total([r], RecBytes) == RecBytes(r);
    assert Total([r], RecPackets) == RecPackets(r);
    assert [r][0].lastSeen == Fresh(r).lastSeen;
  }

  lemma {:induction false} MergedSummarises(e: FlowEntry, recs: seq<FlowRecord>, k: FlowKey, r: FlowRecord)
    requires Summarises(e.Record(), recs, k)
    ensures Summarises(e.Merged(r).Record(), recs + [r], k)
  {
    var all, m := recs + [r], e.Merged(r);
    assert all[..|recs|] == recs;
    AddMod(0, Total(recs, RecBytes), r.bytes);
    AddMod(0, Total(recs, RecPackets), r.packets);
    var i :| 0 <= i < |recs| && e.lastSeen == recs[i].lastSeen;
    assert all[i] == recs[i] && all[|recs|] == r;
  }

  // ----- what a flush reports -----

  /** `records` reports `recs`: one record for each of their flows, which sums up its records. */
  ghost predicate SumsUp(records: seq<FlowRecord>, recs: seq<FlowRecord>) {
    && (forall i :: 0 <= i < |records| ==> Summarises(records[i], Of(recs, KeyIn(records, i)), KeyIn(records, i)))
    && (forall i, j :: 0 <= i < j < |records| ==> KeyIn(records, i) != KeyIn(records, j))
    && (forall r :: r in recs ==> exists i :: 0 <= i < |records| && IsOf(r, KeyIn(records, i)))
  }

  /** The flow of the record number `i`. */
  function KeyIn(records: seq<FlowRecord>, i: nat): FlowKey
    requires i < |records|
  {
    var r := records[i];
    FlowKey(r.srcIP, r.dstIP, r.srcPort, r.dstPort, r.proto)
  }

  lemma {:induction false} OfMember(recs: seq<FlowRecord>, r: FlowRecord, k: FlowKey)
    requires r in recs && IsOf(r, k)
    ensures Of(recs, k) != []
  {
    var n := |recs| - 1;
    if recs[n] != r {
      assert r in recs[..n];
      OfMember(recs[..n], r, k);
    }
  }

  /** Flushing a window without evictions reports exactly what was added. */
  lemma {:induction false} FlushSumsUp(recs: seq<FlowRecord>, records: seq<FlowRecord>)
    requires Reports(Added(recs), records)
    ensures SumsUp(records, recs)
  {
    hide Added, Of;
    var flows := Added(recs);
    var ks :| Lists(flows, ks) && records == RecordsAt(flows, ks);
    forall i | 0 <= i < |records|
      ensures KeyIn(records, i) == ks[i] && Summarises(records[i], Of(recs, ks[i]), ks[i])
    {
      WindowSummarises(recs, ks[i]);
    }
    hide Summarises;
    forall r | r in recs
      ensures exists i :: 0 <= i < |records| && IsOf(r, KeyIn(records, i))
    {
      var k := FlowKey(r.srcIP, r.dstIP, r.srcPort, r.dstPort, r.proto);
      OfMember(recs, r, k);
      WindowSummarises(recs, k);
      var i := ListedAt(flows, ks, k);
      assert IsOf(r, KeyIn(records, i));
    }
  }

  lemma {:induction false} ListedAt(flows: Flows, ks: seq<FlowKey>, k: FlowKey) returns (i: nat)
    requires Lists(flows, ks) && k in flows
    ensures i < |ks| && ks[i] == k
  {
    if j :| 0 <= j < |ks| && ks[j] == k {
      i := j;
    } else {
      var all := set j | 0 <= j < |ks| :: ks[j];
      DistinctSize(ks, all);
      SubsetSize(all, flows.Keys - {k});
      assert false;
    }
  }

  /** The steps from number `from` up to number `to` only add, and evict nothing. */
  predicate OnlyAdds(h: History, steps: seq<Step>, from: nat, upto: nat)
    requires upto <= |steps| == |h.victims|
  {
    forall i :: from <= i < upto ==> steps[i].Add? && h.victims[i].None?
  }

  function RecordsOf(steps: seq<Step>, from: nat, upto: nat): seq<FlowRecord>
    requires from <= upto <= |steps| && forall i :: from <= i < upto ==> steps[i].Add?
    decreases upto
  {
    if upto == from then [] else RecordsOf(steps, from, upto - 1) + [steps[upto - 1].r]
  }

  lemma {:induction false} WindowOfRun(h: History, steps: seq<Step>, maxFlows: int, from: nat, upto: nat,
                                       f: FlowEntry -> nat, g: FlowRecord -> nat)
    requires IsRun(h, steps, maxFlows, f, g) && from <= upto <= |steps|
    requires (from == 0 || steps[from - 1].Flush?) && OnlyAdds(h, steps, from, upto)
    ensures h.aggs[upto].flows == Added(RecordsOf(steps, from, upto))
    decreases upto
  {
    hide Booked, Added;
    if upto == 0 {
      NothingAdded();
    } else {
      var n := upto - 1;
      assert Booked(h.aggs[n], h.ledgers[n], steps[n], h.victims[n], h.aggs[n + 1], h.ledgers[n + 1], f, g);
      StepWindow(h.aggs[n], h.ledgers[n], steps[n], h.victims[n], h.aggs[upto], h.ledgers[upto], f, g);
      if from == upto {
        NothingAdded();
      } else {
        WindowOfRun(h, steps, maxFlows, from, n, f, g);
        AddedLast(RecordsOf(steps, from, n), steps[n].r, h.aggs[n]);
      }
    }
  }

  lemma {:induction false} NothingAdded()
    ensures Added([]) == map[]
  {
  }

  lemma {:induction false} AddedLast(recs: seq<FlowRecord>, r: FlowRecord, a: Agg)
    requires a.flows == Added(recs)
    ensures Added(recs + [r]) == a.Put(r).flows
  {
    assert (recs + [r])[..|recs|] == recs;
  }

  lemma {:induction false} StepWindow(a: Agg, l: Ledger, s: Step, victim: Option<FlowKey>, a': Agg, l': Ledger,
                                      f: FlowEntry -> nat, g: FlowRecord -> nat)
    requires Booked(a, l, s, victim, a', l', f, g)
    ensures s.Flush? ==> a'.flows == map[]
    ensures s.Add? && victim.None? ==> a' == a.Put(s.r)
  {
    hide Total, Sum, Reports, Agg.Put;
  }

  /** In every run, a flush reports exactly the records added since the one before, unless some were evicted. */
  lemma {:induction false} RunReports(h: History, steps: seq<Step>, maxFlows: int, from: nat, n: nat,
                                      f: FlowEntry -> nat, g: FlowRecord -> nat)
    requires IsRun(h, steps, maxFlows, f, g) && from <= n < |steps| && steps[n].Flush?
    requires (from == 0 || steps[from - 1].Flush?) && OnlyAdds(h, steps, from, n)
    ensures SumsUp(steps[n].records, RecordsOf(steps, from, n))
  {
    hide Total, Sum, Reports, SumsUp, Added;
    WindowOfRun(h, steps, maxFlows, from, n, f, g);
    assert Booked(h.aggs[n], h.ledgers[n], steps[n], h.victims[n], h.aggs[n + 1], h.ledgers[n + 1], f, g);
    FlushSumsUp(RecordsOf(steps, from, n), steps[n].records);
  }
}
