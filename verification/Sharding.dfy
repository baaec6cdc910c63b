/**
 Spreading the captured packets over independent reassemblers, and why that changes nothing:
 all packets of a connection go to one worker, and a connection is touched by its own
 packets only.
 */
module Sharding {
  import opened Base
  import opened DirStreams
  import opened HttpFraming
  import opened ConnTable

  // ----- routing -----

  const FNV_OFFSET: u32 := 2166136261
  const FNV_PRIME: u32 := 16777619
  const TCP: byte := 6

  function Xor(a: u32, b: u32): u32 {
    ((a as bv32) ^ (b as bv32)) as int
  }

  /** One FNV-1a step, in 32 bits. */
  function MixOne(h: u32, x: u32): u32 {
    Xor(h, x) * FNV_PRIME % 0x1_0000_0000
  }

  function Mix(h: u32, s: Text): u32 {
    if s == [] then h else MixOne(Mix(h, s[..|s| - 1]), s[|s| - 1])
  }

  method MixText(h0: u32, s: Text) returns (h: u32)
    ensures h == Mix(h0, s)
  {
    h := h0;
    for i := 0 to |s|
      invariant h == Mix(h0, s[..i])
    {
      assert s[..i + 1][..i] == s[..i];
      h := MixOne(h, s[i]);
    }
    assert s[..|s|] == s;
  }

  /** The worker of a connection. */
  function KeyWorker(k: ConnKey, n: nat): (w: nat)
    requires 0 < n
    ensures w < n
  {
    MixOne(MixOne(Mix(Mix(FNV_OFFSET, k.ipA), k.ipB), k.portA), k.portB) % n
  }

  /** The worker a packet is queued for: by connection for TCP, by source otherwise. */
  function Worker(info: L4Info, n: nat): (w: nat)
    requires 0 < n
    ensures w < n
  {
    if info.proto == TCP then KeyWorker(KeyOf(info), n) else Mix(FNV_OFFSET, info.srcIP) % n
  }

  method RouteWorker(info: L4Info, n: nat) returns (w: nat)
    requires 0 < n
    ensures w == Worker(info, n) < n
  {
    var h := FNV_OFFSET;
    if info.proto == TCP {
      var k := KeyOf(info);
      h := MixText(h, k.ipA);
      h := MixText(h, k.ipB);
      h := MixOne(h, k.portA);
      h := MixOne(h, k.portB);
    } else {
      h := MixText(h, info.srcIP);
    }
    return h % n;
  }

  /** Packets of other protocols meet in one worker if they come from one source, wherever they go. */
  lemma {:induction false} SourcesMeet(p: L4Info, q: L4Info, n: nat)
    requires 0 < n && p.proto != TCP && q.proto != TCP && p.srcIP == q.srcIP
    ensures Worker(p, n) == Worker(q, n)
  {
  }

  /** Both directions of a TCP connection meet in the same worker. */
  lemma {:induction false} DirectionsMeet(info: L4Info, n: nat)
    requires 0 < n && info.proto == TCP
    ensures Worker(info.Reversed(), n) == Worker(info, n)
  {
    hide KeyOf, KeyWorker;
    KeyIdentifiesConnection(info, info.Reversed());
  }

  // ----- runs -----

  type Trace = seq<Arrival>

  datatype Logged = Logged(key: ConnKey, ev: Event)

  function Tagged(k: ConnKey, evs: seq<Event>): (r: seq<Logged>)
    ensures |r| == |evs|
  {
    seq(|evs|, i requires 0 <= i < |evs| => Logged(k, evs[i]))
  }

  /** The connections whose TCP packets occur in a trace. */
  function KeysIn(trace: Trace): set<ConnKey> {
    set i | 0 <= i < |trace| && trace[i].info.proto == TCP :: KeyOf(trace[i].info)
  }

  /** What a worker does with one packet. */
  ghost predicate WorkerStep(cfg: Config, t: Table, a: Arrival, t': Table, evs: seq<Event>) {
    if a.info.proto == TCP then TableStep(cfg, t, a, t', evs) else t' == t && evs == []
  }

  /** `t` and `log` are a possible table and event log of one reassembler after the trace. */
  ghost predicate Reached(cfg: Config, trace: Trace, t: Table, log: seq<Logged>) {
    if trace == [] then t == map[] && log == [] else
    var n := |trace| - 1;
    exists t0: Table, log0: seq<Logged>, evs: seq<Event> ::
      && Reached(cfg, trace[..n], t0, log0)
      && WorkerStep(cfg, t0, trace[n], t, evs)
      && log == log0 + Tagged(KeyOf(trace[n].info), evs)
  }

  /** The same for a run in which no packet ever needed another connection to make room. */
  ghost predicate Free(cfg: Config, trace: Trace, t: Table, log: seq<Logged>) {
    if trace == [] then t == map[] && log == [] else
    var n := |trace| - 1;
    exists t0: Table, log0: seq<Logged>, evs: seq<Event> ::
      && Free(cfg, trace[..n], t0, log0)
      && FreeStep(cfg, t0, trace[n], t, evs)
      && log == log0 + Tagged(KeyOf(trace[n].info), evs)
  }

  ghost predicate FreeStep(cfg: Config, t: Table, a: Arrival, t': Table, evs: seq<Event>) {
    WorkerStep(cfg, t, a, t', evs) && (a.info.proto == TCP ==> !NeedsRoom(cfg, t, a))
  }

  /** The same for a single connection. */
  ghost predicate ConnReached(cfg: Config, trace: Trace, c: Option<Conn>, evs: seq<Event>) {
    if trace == [] then c == None && evs == [] else
    var n := |trace| - 1;
    exists c0: Option<Conn>, evs0: seq<Event>, e: seq<Event> ::
      && ConnReached(cfg, trace[..n], c0, evs0)
      && ConnStep(cfg, c0, trace[n], c, e)
      && evs == evs0 + e
  }

  /** The packets of one connection. */
  function Only(trace: Trace, k: ConnKey): Trace {
    if trace == [] then [] else
    var n := |trace| - 1;
    Only(trace[..n], k) + if trace[n].info.proto == TCP && KeyOf(trace[n].info) == k then [trace[n]] else []
  }

  /** The packets queued for one worker. */
  function Routed(trace: Trace, w: nat, n: nat): Trace
    requires 0 < n
  {
    if trace == [] then [] else
    var m := |trace| - 1;
    Routed(trace[..m], w, n) + if Worker(trace[m].info, n) == w then [trace[m]] else []
  }

  /** The events of one connection. */
  function EventsOf(log: seq<Logged>, k: ConnKey): seq<Event> {
    if log == [] then [] else
    var n := |log| - 1;
    EventsOf(log[..n], k) + if log[n].key == k then [log[n].ev] else []
  }

  lemma {:induction false} EventsOfTagged(log: seq<Logged>, j: ConnKey, evs: seq<Event>, k: ConnKey)
    ensures EventsOf(log + Tagged(j, evs), k) == EventsOf(log, k) + if j == k then evs else []
  {
    var all := log + Tagged(j, evs);
    if evs == [] {
      assert all == log;
    } else {
      var n := |evs| - 1;
      assert all[..|all| - 1] == log + Tagged(j, evs[..n]);
      EventsOfTagged(log, j, evs[..n], k);
      assert evs == evs[..n] + [evs[n]];
    }
  }

  lemma {:induction false} KeysInLast(trace: Trace)
    requires trace != []
    ensures var n := |trace| - 1; var a := trace[n];
      KeysIn(trace) == KeysIn(trace[..n]) + if a.info.proto == TCP then {KeyOf(a.info)} else {}
  {
    hide KeyOf;
    var n := |trace| - 1;
    forall k | k in KeysIn(trace)
      ensures k in KeysIn(trace[..n]) || (trace[n].info.proto == TCP && k == KeyOf(trace[n].info))
    {
      var i :| 0 <= i < |trace| && trace[i].info.proto == TCP && KeyOf(trace[i].info) == k;
      assert i < n ==> trace[..n][i] == trace[i];
    }
    forall k | k in KeysIn(trace[..n])
      ensures k in KeysIn(trace)
    {
      var i :| 0 <= i < n && trace[..n][i].info.proto == TCP && KeyOf(trace[..n][i].info) == k;
      assert trace[i] == trace[..n][i];
    }
  }

  /** Only connections with packets in the trace are in the table. */
  lemma {:induction false} ReachedKeys(cfg: Config, trace: Trace, t: Table, log: seq<Logged>)
    requires Reached(cfg, trace, t, log)
    ensures t.Keys <= KeysIn(trace)
  {
    hide ConnStep, KeyOf, DirectionOf;
    if trace != [] {
      var n := |trace| - 1;
      var t0, log0, evs :|
        && Reached(cfg, trace[..n], t0, log0)
        && WorkerStep(cfg, t0, trace[n], t, evs)
        && log == log0 + Tagged(KeyOf(trace[n].info), evs);
      ReachedKeys(cfg, trace[..n], t0, log0);
      KeysInLast(trace);
    }
  }

  /** With room for every connection of the trace, no run evicts anything. */
  lemma {:induction false} RoomForAll(cfg: Config, trace: Trace, t: Table, log: seq<Logged>)
    requires |KeysIn(trace)| <= cfg.maxConn && Reached(cfg, trace, t, log)
    ensures Free(cfg, trace, t, log)
  {
    hide KeyOf, DirectionOf, KeysIn, TableStep;
    if trace != [] {
      var n := |trace| - 1;
      var k := KeyOf(trace[n].info);
      var t0, log0, evs :|
        && Reached(cfg, trace[..n], t0, log0)
        && WorkerStep(cfg, t0, trace[n], t, evs)
        && log == log0 + Tagged(k, evs);
      KeysInLast(trace);
      SubsetSize(KeysIn(trace[..n]), KeysIn(trace));
      RoomForAll(cfg, trace[..n], t0, log0);
      ReachedKeys(cfg, trace[..n], t0, log0);
      if trace[n].info.proto == TCP && k !in t0 {
        SubsetSize(t0.Keys + {k}, KeysIn(trace));
        assert |t0.Keys + {k}| == |t0| + 1;
      }
      assert FreeStep(cfg, t0, trace[n], t, evs);
    }
  }

  lemma {:induction false} ConnLast(cfg: Config, trace: Trace, c0: Option<Conn>, evs0: seq<Event>, a: Arrival,
                                    c: Option<Conn>, e: seq<Event>)
    requires ConnReached(cfg, trace, c0, evs0) && ConnStep(cfg, c0, a, c, e)
    ensures ConnReached(cfg, trace + [a], c, evs0 + e)
  {
    hide ConnStep;
    var all := trace + [a];
    assert all[..|all| - 1] == trace && all[|all| - 1] == a;
  }

  /** What a step without eviction does: it puts the packet's connection in its new state, and nothing else. */
  lemma {:induction false} StepPuts(cfg: Config, t0: Table, a: Arrival, t: Table, evs: seq<Event>)
    returns (c: Option<Conn>)
    requires FreeStep(cfg, t0, a, t, evs) && a.info.proto == TCP
    ensures var k := KeyOf(a.info);
      ConnStep(cfg, Get(t0, k), a, c, evs) && t == Put(t0, k, c)
  {
    hide ConnStep, KeyOf, NeedsRoom;
    var k := KeyOf(a.info);
    c :| ConnStep(cfg, Get(t0, k), a, c, evs) && t == Put(t0, k, c);
  }

  lemma {:induction false} PutSteps(cfg: Config, t0: Table, a: Arrival, c: Option<Conn>, evs: seq<Event>)
    requires a.info.proto == TCP && !NeedsRoom(cfg, t0, a) && ConnStep(cfg, Get(t0, KeyOf(a.info)), a, c, evs)
    ensures FreeStep(cfg, t0, a, Put(t0, KeyOf(a.info), c), evs)
  {
    hide ConnStep, KeyOf, NeedsRoom;
  }

  /** One connection's part of a run without eviction is a run of that connection on its own packets. */
  lemma {:induction false} Project(cfg: Config, trace: Trace, t: Table, log: seq<Logged>, k: ConnKey)
    requires Free(cfg, trace, t, log)
    ensures ConnReached(cfg, Only(trace, k), Get(t, k), EventsOf(log, k))
  {
    hide ConnStep, KeyOf, FreeStep, Tagged;
    if trace != [] {
      var n := |trace| - 1;
      var a := trace[n];
      var j := KeyOf(a.info);
      var t0, log0, evs :|
        && Free(cfg, trace[..n], t0, log0) && FreeStep(cfg, t0, a, t, evs) && log == log0 + Tagged(j, evs);
      Project(cfg, trace[..n], t0, log0, k);
      hide ConnReached, Free, EventsOf;
      EventsOfTagged(log0, j, evs, k);
      if a.info.proto != TCP || j != k {
        assert Only(trace, k) == Only(trace[..n], k);
        assert EventsOf(log0, k) + [] == EventsOf(log0, k);
        StepElsewhere(cfg, t0, a, t, evs, k);
      } else {
        var c := StepPuts(cfg, t0, a, t, evs);
        assert Only(trace, k) == Only(trace[..n], k) + [a];
        ConnLast(cfg, Only(trace[..n], k), Get(t0, k), EventsOf(log0, k), a, c, evs);
        assert Get(t, k) == c;
      }
    }
  }

  lemma {:induction false} StepElsewhere(cfg: Config, t0: Table, a: Arrival, t: Table, evs: seq<Event>, k: ConnKey)
    requires FreeStep(cfg, t0, a, t, evs) && (a.info.proto != TCP || KeyOf(a.info) != k)
    ensures Get(t, k) == Get(t0, k) && (a.info.proto != TCP ==> evs == [])
  {
    hide ConnStep, KeyOf;
    if a.info.proto == TCP {
      var c := StepPuts(cfg, t0, a, t, evs);
    } else {
      OtherStep(cfg, t0, a, t, evs);
    }
  }

  lemma {:induction false} OtherStep(cfg: Config, t0: Table, a: Arrival, t: Table, evs: seq<Event>)
    requires a.info.proto != TCP
    ensures FreeStep(cfg, t0, a, t, evs) <==> t == t0 && evs == []
  {
  }

  // ----- memory -----

  function ConnBytes(c: Conn): nat {
    |c.req.buf| + Max(c.req.pendingLen, 0) + |c.resp.buf| + Max(c.resp.pendingLen, 0)
  }

  /** The table never outgrows its limit, whatever arrives. */
  lemma {:induction false} ReachedBounded(cfg: Config, trace: Trace, t: Table, log: seq<Logged>)
    requires cfg.Valid() && 1 <= cfg.maxConn && Reached(cfg, trace, t, log)
    requires forall i :: 0 <= i < |trace| ==> trace[i].now < LATE
    ensures BoundedTable(cfg, t)
  {
    hide TableStep, BoundedTable, KeyOf;
    if trace == [] {
      EmptyBounded(cfg);
    } else {
      var n := |trace| - 1;
      var t0, log0, evs :|
        && Reached(cfg, trace[..n], t0, log0)
        && WorkerStep(cfg, t0, trace[n], t, evs)
        && log == log0 + Tagged(KeyOf(trace[n].info), evs);
      ReachedBounded(cfg, trace[..n], t0, log0);
      if trace[n].info.proto == TCP {
        TableStepBounded(cfg, t0, trace[n], t, evs);
      }
    }
  }

  lemma {:induction false} EmptyBounded(cfg: Config)
    ensures BoundedTable(cfg, map[])
  {
  }

  /** All the bytes a reassembler holds, at any time of any run. */
  lemma {:induction false} MemoryBound(cfg: Config, trace: Trace, t: Table, log: seq<Logged>)
    requires cfg.Valid() && 1 <= cfg.maxConn && Reached(cfg, trace, t, log)
    requires forall i :: 0 <= i < |trace| ==> trace[i].now < LATE
    ensures Sum(t, ConnBytes) <= cfg.maxConn * (cfg.reqCap + cfg.respCap)
  {
    hide Reached, Sum, BoundedConn, ConnBytes;
    ReachedBounded(cfg, trace, t, log);
    forall k | k in t
      ensures ConnBytes(t[k]) <= cfg.reqCap + cfg.respCap
    {
      ConnSize(cfg, t[k]);
    }
    SumAtMost(t, ConnBytes, cfg.reqCap + cfg.respCap);
    MulMono(|t|, cfg.maxConn, cfg.reqCap + cfg.respCap);
  }

  lemma {:induction false} ConnSize(cfg: Config, c: Conn)
    requires cfg.Valid() && BoundedConn(cfg, c)
    ensures ConnBytes(c) <= cfg.reqCap + cfg.respCap
  {
    hide Sum;
  }

  // ----- sharding -----

  /** A worker sees all packets of its connections, in order, and none of the others'. */
  lemma {:induction false} RoutedOnly(trace: Trace, w: nat, n: nat, k: ConnKey)
    requires 0 < n
    ensures Only(Routed(trace, w, n), k) == if KeyWorker(k, n) == w then Only(trace, k) else []
  {
    hide KeyOf, KeyWorker, Mix;
    if trace != [] {
      var m := |trace| - 1;
      RoutedOnly(trace[..m], w, n, k);
      if Worker(trace[m].info, n) == w {
        OnlyLast(Routed(trace[..m], w, n), trace[m], k);
        assert Routed(trace, w, n) == Routed(trace[..m], w, n) + [trace[m]];
      } else {
        assert Routed(trace, w, n) == Routed(trace[..m], w, n);
      }
    }
  }

  lemma {:induction false} OnlyLast(trace: Trace, a: Arrival, k: ConnKey)
    ensures Only(trace + [a], k) ==
      Only(trace, k) + if a.info.proto == TCP && KeyOf(a.info) == k then [a] else []
  {
    assert (trace + [a])[..|trace|] == trace;
  }

  /** The connections of one worker. */
  function Part(t: Table, w: nat, n: nat): (p: Table)
    requires 0 < n
    ensures forall k :: Get(p, k) == if KeyWorker(k, n) == w then Get(t, k) else None
  {
    map k | k in t && KeyWorker(k, n) == w :: t[k]
  }

  /** The events of one worker's connections, in their order. */
  function PartLog(log: seq<Logged>, w: nat, n: nat): seq<Logged>
    requires 0 < n
  {
    if log == [] then [] else
    var m := |log| - 1;
    PartLog(log[..m], w, n) + if KeyWorker(log[m].key, n) == w then [log[m]] else []
  }

  lemma {:induction false} PartLogTagged(log: seq<Logged>, k: ConnKey, evs: seq<Event>, w: nat, n: nat)
    requires 0 < n
    ensures PartLog(log + Tagged(k, evs), w, n) ==
      PartLog(log, w, n) + if KeyWorker(k, n) == w then Tagged(k, evs) else []
  {
    hide KeyWorker;
    var all := log + Tagged(k, evs);
    if evs == [] {
      assert all == log;
    } else {
      var m := |evs| - 1;
      assert all[..|all| - 1] == log + Tagged(k, evs[..m]);
      PartLogTagged(log, k, evs[..m], w, n);
      assert Tagged(k, evs) == Tagged(k, evs[..m]) + [Logged(k, evs[m])];
    }
  }

  /** Splitting a log by workers keeps the events of every connection. */
  lemma {:induction false} PartLogEvents(log: seq<Logged>, k: ConnKey, n: nat)
    requires 0 < n
    ensures EventsOf(PartLog(log, KeyWorker(k, n), n), k) == EventsOf(log, k)
  {
    hide KeyWorker;
    if log != [] {
      var m, w := |log| - 1, KeyWorker(k, n);
      PartLogEvents(log[..m], k, n);
      var p := PartLog(log[..m], w, n);
      if KeyWorker(log[m].key, n) == w {
        assert (p + [log[m]])[..|p|] == p;
      } else {
        assert p + [] == p && log[m].key != k;
        assert EventsOf(log[..m], k) + [] == EventsOf(log[..m], k);
      }
    }
  }

  lemma {:induction false} PartSmaller(t: Table, w: nat, n: nat)
    requires 0 < n
    ensures |Part(t, w, n)| <= |t|
  {
    hide KeyWorker;
    assert Part(t, w, n).Keys <= t.Keys;
    SubsetSize(Part(t, w, n).Keys, t.Keys);
  }

  lemma {:induction false} PartOfPut(t: Table, k: ConnKey, c: Option<Conn>, w: nat, n: nat)
    requires 0 < n
    ensures Part(Put(t, k, c), w, n) == if KeyWorker(k, n) == w then Put(Part(t, w, n), k, c) else Part(t, w, n)
  {
    hide KeyWorker;
  }

  lemma {:induction false} RoutedLast(trace: Trace, w: nat, n: nat)
    requires 0 < n && trace != []
    ensures var m := |trace| - 1;
      Routed(trace, w, n) == Routed(trace[..m], w, n) + if Worker(trace[m].info, n) == w then [trace[m]] else []
  {
    hide Worker;
  }

  lemma {:induction false} FreeLast(cfg: Config, trace: Trace, t0: Table, log0: seq<Logged>, a: Arrival,
                                    t: Table, evs: seq<Event>)
    requires Free(cfg, trace, t0, log0) && FreeStep(cfg, t0, a, t, evs)
    ensures Free(cfg, trace + [a], t, log0 + Tagged(KeyOf(a.info), evs))
  {
    hide FreeStep, KeyOf, Tagged;
    var all := trace + [a];
    assert all[..|all| - 1] == trace && all[|all| - 1] == a;
  }

  /**
   What a single reassembler does without eviction, each worker does with its share: it ends with
   exactly its part of the table and reports exactly its part of the log, in the same order.
   */
  lemma {:induction false} OneAsShards(cfg: Config, trace: Trace, t: Table, log: seq<Logged>, w: nat, n: nat)
    requires 0 < n && Free(cfg, trace, t, log)
    ensures Free(cfg, Routed(trace, w, n), Part(t, w, n), PartLog(log, w, n))
  {
    hide KeyWorker, KeyOf, FreeStep, Part, Tagged;
    if trace == [] {
      NoPart(w, n);
    } else {
      var m := |trace| - 1;
      var a := trace[m];
      var k := KeyOf(a.info);
      var t0, log0, evs :|
        && Free(cfg, trace[..m], t0, log0) && FreeStep(cfg, t0, a, t, evs) && log == log0 + Tagged(k, evs);
      OneAsShards(cfg, trace[..m], t0, log0, w, n);
      hide Free, PartLog, Routed;
      RoutedLast(trace, w, n);
      PartLogTagged(log0, k, evs, w, n);
      PartStep(cfg, t0, a, t, evs, w, n);
      if Worker(a.info, n) == w {
        FreeLast(cfg, Routed(trace[..m], w, n), Part(t0, w, n), PartLog(log0, w, n), a, Part(t, w, n), evs);
      }
      NothingTagged(k);
      assert PartLog(log0, w, n) + [] == PartLog(log0, w, n);
      assert Routed(trace[..m], w, n) + [] == Routed(trace[..m], w, n);
    }
  }

  lemma {:induction false} NothingTagged(k: ConnKey)
    ensures Tagged(k, []) == []
  {
  }

  lemma {:induction false} NoPart(w: nat, n: nat)
    requires 0 < n
    ensures Part(map[], w, n) == map[]
  {
  }

  /** One packet, seen by a worker: a step on its part if the packet is for it, and otherwise nothing. */
  lemma {:induction false} PartStep(cfg: Config, t0: Table, a: Arrival, t: Table, evs: seq<Event>, w: nat, n: nat)
    requires 0 < n && FreeStep(cfg, t0, a, t, evs)
    ensures if Worker(a.info, n) == w then FreeStep(cfg, Part(t0, w, n), a, Part(t, w, n), evs)
            else Part(t, w, n) == Part(t0, w, n)
    ensures a.info.proto != TCP ==> evs == []
    ensures a.info.proto == TCP ==> Worker(a.info, n) == KeyWorker(KeyOf(a.info), n)
  {
    hide KeyWorker, KeyOf, ConnStep, DirectionOf;
    if a.info.proto == TCP {
      var k := KeyOf(a.info);
      var c := StepPuts(cfg, t0, a, t, evs);
      PartOfPut(t0, k, c, w, n);
      if KeyWorker(k, n) == w {
        PartSmaller(t0, w, n);
        assert Get(Part(t0, w, n), k) == Get(t0, k);
        PutSteps(cfg, Part(t0, w, n), a, c, evs);
      }
    } else {
      OtherStep(cfg, t0, a, t, evs);
      OtherStep(cfg, Part(t0, w, n), a, Part(t, w, n), evs);
    }
  }

  /** The table and the log of every worker, none of which evicted anything. */
  ghost predicate WorkersFree(cfg: Config, trace: Trace, n: nat, ts: seq<Table>, logs: seq<seq<Logged>>)
    requires 0 < n
  {
    && |ts| == |logs| == n
    && forall w :: 0 <= w < n ==> Free(cfg, Routed(trace, w, n), ts[w], logs[w])
  }

  /** The tables and logs are the parts of one table and one log. */
  ghost predicate Split(t: Table, log: seq<Logged>, n: nat, ts: seq<Table>, logs: seq<seq<Logged>>)
    requires 0 < n
  {
    && |ts| == |logs| == n
    && forall w :: 0 <= w < n ==> ts[w] == Part(t, w, n) && logs[w] == PartLog(log, w, n)
  }

  /** A reassembler with the room of all the workers together. */
  function Together(cfg: Config, n: nat): Config {
    cfg.(maxConn := n * cfg.maxConn)
  }

  // ----- the room of all workers together -----

  /** Without eviction no table outgrows its limit. */
  lemma {:induction false} FreeSize(cfg: Config, trace: Trace, t: Table, log: seq<Logged>)
    requires Free(cfg, trace, t, log)
    ensures |t| <= Max(cfg.maxConn, 0)
  {
    hide ConnStep, KeyOf, FreeStep, Tagged;
    if trace != [] {
      var m := |trace| - 1;
      var a := trace[m];
      var t0, log0, evs :|
        && Free(cfg, trace[..m], t0, log0) && FreeStep(cfg, t0, a, t, evs) && log == log0 + Tagged(KeyOf(a.info), evs);
      FreeSize(cfg, trace[..m], t0, log0);
      if a.info.proto != TCP {
        OtherStep(cfg, t0, a, t, evs);
      } else {
        var c := StepPuts(cfg, t0, a, t, evs);
        SizeAfterPut(cfg, t0, a, t, evs, c);
      }
    }
  }

  lemma {:induction false} SizeAfterPut(cfg: Config, t0: Table, a: Arrival, t: Table, evs: seq<Event>, c: Option<Conn>)
    requires a.info.proto == TCP && FreeStep(cfg, t0, a, t, evs)
    requires ConnStep(cfg, Get(t0, KeyOf(a.info)), a, c, evs) && t == Put(t0, KeyOf(a.info), c)
    requires |t0| <= Max(cfg.maxConn, 0)
    ensures |t| <= Max(cfg.maxConn, 0)
  {
    var k := KeyOf(a.info);
    hide KeyOf, TryEmit;
    assert t.Keys == if c.Some? then t0.Keys + {k} else t0.Keys - {k};
    if k !in t0 && DirectionOf(cfg, None, a.info).None? {
      assert c == None;
    }
  }

  /** The connections of the first `v` workers. */
  function FirstKeys(t: Table, v: nat, n: nat): set<ConnKey>
    requires 0 < n
  {
    set k | k in t && KeyWorker(k, n) < v
  }

  /** The workers' tables together are no larger than their limits together, less the room left at one of them. */
  lemma {:induction false} RoomTogether(t: Table, n: nat, limit: nat, w: nat, v: nat)
    requires 0 < n && w < n && v <= n && |Part(t, w, n)| < limit
    requires forall u :: 0 <= u < n ==> |Part(t, u, n)| <= limit
    ensures |FirstKeys(t, v, n)| <= v * limit - if w < v then 1 else 0
  {
    hide KeyWorker, Part;
    if v == 0 {
      assert FirstKeys(t, 0, n) == {};
    } else {
      RoomTogether(t, n, limit, w, v - 1);
      NextKeys(t, v - 1, n);
      assert v * limit == (v - 1) * limit + limit;
    }
  }

  lemma {:induction false} NextKeys(t: Table, v: nat, n: nat)
    requires 0 < n
    ensures |FirstKeys(t, v + 1, n)| == |FirstKeys(t, v, n)| + |Part(t, v, n)|
  {
    hide KeyWorker;
    var before, p := FirstKeys(t, v, n), Part(t, v, n).Keys;
    assert FirstKeys(t, v + 1, n) == before + p && before !! p;
  }

  lemma {:induction false} AllKeys(t: Table, n: nat)
    requires 0 < n
    ensures FirstKeys(t, n, n) == t.Keys
  {
    hide KeyWorker;
  }

  /** If a packet needs no room at its worker, it needs none in the table of all workers together. */
  lemma {:induction false} NoRoomNeeded(cfg: Config, t: Table, a: Arrival, n: nat)
    requires 0 < n && a.info.proto == TCP
    requires forall u :: 0 <= u < n ==> |Part(t, u, n)| <= Max(cfg.maxConn, 0)
    requires !NeedsRoom(cfg, Part(t, Worker(a.info, n), n), a)
    ensures !NeedsRoom(Together(cfg, n), t, a)
  {
    hide KeyWorker, KeyOf, Part;
    var k, w := KeyOf(a.info), Worker(a.info, n);
    assert Get(Part(t, w, n), k) == Get(t, k);
    if k !in t && DirectionOf(cfg, None, a.info).Some? {
      assert |Part(t, w, n)| < cfg.maxConn;
      RoomTogether(t, n, cfg.maxConn, w, n);
      AllKeys(t, n);
    }
  }

  /** What a packet does to its connection does not depend on the room in the table. */
  lemma {:induction false} RoomIsNoMatter(cfg: Config, n: nat, c: Option<Conn>, a: Arrival, c': Option<Conn>,
                                          evs: seq<Event>)
    requires ConnStep(cfg, c, a, c', evs)
    ensures ConnStep(Together(cfg, n), c, a, c', evs)
  {
    hide TryEmit, DirState.Fed, DirState.Sized, Touched;
    if DirectionOf(cfg, c, a.info).Some? {
      var dir := DirectionOf(cfg, c, a.info).value;
      var t := Touched(if c.Some? then c.value else FRESH, dir, a);
      var d: DirState, ok: bool :|
        StreamOf(t, dir).Fed(a.info.seqNo, a.info.payload, CapOf(cfg, dir), d, ok) &&
        Settles(cfg, t, dir, a, d, ok, c', evs);
      SameSettling(cfg, n, t, dir, a, d, ok, c', evs);
      StepBy(Together(cfg, n), c, a, dir, d, ok, c', evs);
    }
  }

  lemma {:induction false} StepBy(cfg: Config, c: Option<Conn>, a: Arrival, dir: Direction, d: DirState, ok: bool,
                                  c': Option<Conn>, evs: seq<Event>)
    requires DirectionOf(cfg, c, a.info) == Some(dir)
    requires var t := Touched(if c.Some? then c.value else FRESH, dir, a);
      && StreamOf(t, dir).Sized()
      && StreamOf(t, dir).Fed(a.info.seqNo, a.info.payload, CapOf(cfg, dir), d, ok)
      && Settles(cfg, t, dir, a, d, ok, c', evs)
    ensures ConnStep(cfg, c, a, c', evs)
  {
  }

  lemma {:induction false} SameSettling(cfg: Config, n: nat, t: Conn, dir: Direction, a: Arrival, d: DirState, ok: bool,
                                        c': Option<Conn>, evs: seq<Event>)
    requires Settles(cfg, t, dir, a, d, ok, c', evs)
    ensures Settles(Together(cfg, n), t, dir, a, d, ok, c', evs) && CapOf(Together(cfg, n), dir) == CapOf(cfg, dir)
  {
  }

  /** One step of the worker that the packet is for; the others stay as they are. */
  ghost predicate OneMoves(cfg: Config, a: Arrival, n: nat, ts0: seq<Table>, logs0: seq<seq<Logged>>,
                           evs: seq<Event>, ts: seq<Table>, logs: seq<seq<Logged>>)
    requires 0 < n
  {
    var w := Worker(a.info, n);
    && |ts0| == |logs0| == |ts| == |logs| == n
    && FreeStep(cfg, ts0[w], a, ts[w], evs)
    && logs[w] == logs0[w] + Tagged(KeyOf(a.info), evs)
    && forall u :: 0 <= u < n && u != w ==> ts[u] == ts0[u] && logs[u] == logs0[u]
  }

  /** The workers before the last packet. */
  lemma {:induction false} OneStepBack(cfg: Config, trace: Trace, n: nat, ts: seq<Table>, logs: seq<seq<Logged>>)
    returns (ts0: seq<Table>, logs0: seq<seq<Logged>>, evs: seq<Event>)
    requires 0 < n && trace != [] && WorkersFree(cfg, trace, n, ts, logs)
    ensures WorkersFree(cfg, trace[..|trace| - 1], n, ts0, logs0)
    ensures OneMoves(cfg, trace[|trace| - 1], n, ts0, logs0, evs, ts, logs)
  {
    hide Worker, KeyOf, FreeStep, Tagged, Routed;
    var m := |trace| - 1;
    var a, w := trace[m], Worker(trace[m].info, n);
    RoutedLast(trace, w, n);
    var mine := Routed(trace, w, n);
    assert mine[..|mine| - 1] == Routed(trace[..m], w, n) && mine[|mine| - 1] == a;
    var t0, log0, e :|
      && Free(cfg, mine[..|mine| - 1], t0, log0) && FreeStep(cfg, t0, a, ts[w], e)
      && logs[w] == log0 + Tagged(KeyOf(a.info), e);
    ts0, logs0, evs := ts[w := t0], logs[w := log0], e;
    hide Free;
    forall u | 0 <= u < n
      ensures Free(cfg, Routed(trace[..m], u, n), ts0[u], logs0[u])
    {
      RoutedLast(trace, u, n);
      assert Free(cfg, Routed(trace, u, n), ts[u], logs[u]);
      assert Routed(trace[..m], u, n) + [] == Routed(trace[..m], u, n);
    }
  }

  /** The last packet, put on top of the run of the single reassembler. */
  lemma {:induction false} OneStepOn(cfg: Config, trace: Trace, n: nat, ts0: seq<Table>, logs0: seq<seq<Logged>>,
                                     evs: seq<Event>, ts: seq<Table>, logs: seq<seq<Logged>>,
                                     t0: Table, log0: seq<Logged>)
    returns (t: Table, log: seq<Logged>)
    requires 0 < n && trace != [] && WorkersFree(cfg, trace[..|trace| - 1], n, ts0, logs0)
    requires OneMoves(cfg, trace[|trace| - 1], n, ts0, logs0, evs, ts, logs)
    requires Free(Together(cfg, n), trace[..|trace| - 1], t0, log0) && Split(t0, log0, n, ts0, logs0)
    ensures Free(Together(cfg, n), trace, t, log) && Split(t, log, n, ts, logs)
  {
    hide KeyWorker, KeyOf, FreeStep, Part, PartLog, Tagged, Together, Free, Routed;
    var m := |trace| - 1;
    var a := trace[m];
    var k := KeyOf(a.info);
    forall u | 0 <= u < n
      ensures |Part(t0, u, n)| <= Max(cfg.maxConn, 0)
    {
      assert Free(cfg, Routed(trace[..m], u, n), ts0[u], logs0[u]);
      FreeSize(cfg, Routed(trace[..m], u, n), ts0[u], logs0[u]);
    }
    t := StepTogether(cfg, a, n, t0, ts0[Worker(a.info, n)], ts[Worker(a.info, n)], evs);
    log := log0 + Tagged(k, evs);
    FreeLast(Together(cfg, n), trace[..m], t0, log0, a, t, evs);
    assert trace[..m] + [a] == trace;
    forall u | 0 <= u < n
      ensures ts[u] == Part(t, u, n) && logs[u] == PartLog(log, u, n)
    {
      PartLogTagged(log0, k, evs, u, n);
      assert ts0[u] == Part(t0, u, n) && logs0[u] == PartLog(log0, u, n);
      NothingTagged(k);
      assert logs0[u] + [] == logs0[u];
    }
  }

  /** A step at the packet's worker is one of the single reassembler, and moves that worker's part only. */
  lemma {:induction false} StepTogether(cfg: Config, a: Arrival, n: nat, t0: Table, p0: Table, p: Table,
                                        evs: seq<Event>)
    returns (t: Table)
    requires 0 < n && FreeStep(cfg, p0, a, p, evs) && p0 == Part(t0, Worker(a.info, n), n)
    requires forall u :: 0 <= u < n ==> |Part(t0, u, n)| <= Max(cfg.maxConn, 0)
    ensures FreeStep(Together(cfg, n), t0, a, t, evs)
    ensures forall u :: 0 <= u < n ==> Part(t, u, n) == if u == Worker(a.info, n) then p else Part(t0, u, n)
    ensures a.info.proto != TCP ==> evs == []
    ensures a.info.proto == TCP ==> Worker(a.info, n) == KeyWorker(KeyOf(a.info), n)
  {
    hide KeyWorker, KeyOf, ConnStep, DirectionOf, Part;
    if a.info.proto == TCP {
      var k := KeyOf(a.info);
      var c := StepPuts(cfg, p0, a, p, evs);
      t := Put(t0, k, c);
      assert Get(p0, k) == Get(t0, k);
      RoomIsNoMatter(cfg, n, Get(t0, k), a, c, evs);
      NoRoomNeeded(cfg, t0, a, n);
      PutSteps(Together(cfg, n), t0, a, c, evs);
      forall u | 0 <= u < n
        ensures Part(t, u, n) == if u == Worker(a.info, n) then p else Part(t0, u, n)
      {
        PartOfPut(t0, k, c, u, n);
      }
    } else {
      OtherStep(cfg, p0, a, p, evs);
      t := t0;
      OtherStep(Together(cfg, n), t0, a, t, evs);
    }
  }

  /**
   Whatever n independent workers do without eviction, a single reassembler with the room of all
   of them does with the whole trace, without eviction: the workers' tables and logs are exactly
   the parts of its table and its log.
   */
  lemma {:induction false} ShardsAsOne(cfg: Config, trace: Trace, n: nat, ts: seq<Table>, logs: seq<seq<Logged>>)
    returns (t: Table, log: seq<Logged>)
    requires 0 < n && WorkersFree(cfg, trace, n, ts, logs)
    ensures Free(Together(cfg, n), trace, t, log) && Split(t, log, n, ts, logs)
  {
    hide KeyWorker, KeyOf, FreeStep, Part, Tagged, Together;
    if trace == [] {
      t, log := map[], [];
      forall w | 0 <= w < n
        ensures ts[w] == Part(t, w, n) && logs[w] == PartLog(log, w, n)
      {
        assert Routed(trace, w, n) == [];
        assert Free(cfg, Routed(trace, w, n), ts[w], logs[w]);
        NoPart(w, n);
      }
    } else {
      var m := |trace| - 1;
      var ts0, logs0, evs := OneStepBack(cfg, trace, n, ts, logs);
      var t0, log0 := ShardsAsOne(cfg, trace[..m], n, ts0, logs0);
      t, log := OneStepOn(cfg, trace, n, ts0, logs0, evs, ts, logs, t0, log0);
    }
  }

  /** In a split every connection has its state, and its events in order, at its own worker. */
  lemma {:induction false} SplitByConnection(t: Table, log: seq<Logged>, n: nat, ts: seq<Table>, logs: seq<seq<Logged>>,
                                             k: ConnKey)
    requires 0 < n && Split(t, log, n, ts, logs)
    ensures Get(t, k) == Get(ts[KeyWorker(k, n)], k)
    ensures EventsOf(log, k) == EventsOf(logs[KeyWorker(k, n)], k)
  {
    hide KeyWorker, Part, PartLog, EventsOf;
    PartLogEvents(log, k, n);
    assert Get(Part(t, KeyWorker(k, n), n), k) == Get(t, k);
  }
}
