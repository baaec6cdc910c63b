/**
 What feeding one TCP segment does to a table of reassembled HTTP connections: which
 direction it belongs to, which connection it touches, when a request/response pair is
 reported, and which connection makes room when the table is full.

 The state of a connection is a value here; `Reassembler` keeps it in objects.
 */
module ConnTable {
  import opened Base
  import opened SeqSpace
  import opened DirStreams
  import opened HttpFraming

  /** The layer-4 view of one captured packet. */
  datatype L4Info = L4Info(
    proto: byte, srcIP: Text, dstIP: Text, srcPort: u16, dstPort: u16,
    seqNo: u32, tcpFlags: byte, payload: seq<byte>)
  {
    predicate Fin() {
      tcpFlags % 2 == 1 || tcpFlags / 4 % 2 == 1
    }

    /** The same packet seen from the other end. */
    function Reversed(): L4Info {
      this.(srcIP := dstIP, dstIP := srcIP, srcPort := dstPort, dstPort := srcPort)
    }
  }

  /** A packet ends its connection exactly if its FIN or its RST bit is set (RFC 9293, section 3.1). */
  lemma {:induction false} FinExactly(i: L4Info)
    ensures i.Fin() <==> i.tcpFlags as bv8 & 0x01 != 0 || i.tcpFlags as bv8 & 0x04 != 0
  {
  }

  /** A packet and the clock reading when it is handled. */
  datatype Arrival = Arrival(info: L4Info, now: int)

  // ----- connection keys -----

  datatype ConnKey = ConnKey(ipA: Text, ipB: Text, portA: u16, portB: u16)

  function MakeConnKey(sIP: Text, sPort: u16, dIP: Text, dPort: u16): ConnKey {
    if LexLess(sIP, dIP) || (sIP == dIP && sPort <= dPort)
    then ConnKey(sIP, dIP, sPort, dPort)
    else ConnKey(dIP, sIP, dPort, sPort)
  }

  function KeyOf(info: L4Info): ConnKey {
    MakeConnKey(info.srcIP, info.srcPort, info.dstIP, info.dstPort)
  }

  /** Two packets share a key exactly when they have the same two ends, in either order. */
  lemma {:induction false} KeyIdentifiesConnection(p: L4Info, q: L4Info)
    ensures KeyOf(p) == KeyOf(q) <==>
      || (p.srcIP == q.srcIP && p.srcPort == q.srcPort && p.dstIP == q.dstIP && p.dstPort == q.dstPort)
      || (p.srcIP == q.dstIP && p.srcPort == q.dstPort && p.dstIP == q.srcIP && p.dstPort == q.srcPort)
  {
    LexTrichotomy(p.srcIP, p.dstIP);
    LexTrichotomy(q.srcIP, q.dstIP);
  }

  // ----- connections -----

  datatype Conn = Conn(
    req: DirState, resp: DirState,
    srcIP: Text, srcPort: u16, dstIP: Text, dstPort: u16, endpointsKnown: bool,
    lastSeen: int)

  const FRESH := Conn(EMPTY, EMPTY, [], 0, [], 0, false, 0)

  datatype Event = Event(
    srcIP: Text, dstIP: Text, dstPort: u16, req: ReqHead, resp: RespHead,
    reqTruncated: bool, respTruncated: bool, ts: int)

  datatype Config = Config(ports: seq<int>, reqCap: int, respCap: int, maxConn: int, hd: Headers) {
    ghost predicate Valid() {
      0 <= reqCap < HALF && 0 <= respCap < HALF
    }
  }

  predicate PortMatch(ports: seq<int>, port: u16) {
    ports == [] || port as int in ports
  }

  datatype Direction = Request | Response

  /** The direction of a packet, if there is evidence for one. */
  function DirectionOf(cfg: Config, c: Option<Conn>, info: L4Info): Option<Direction> {
    var reqDir, respDir := PortMatch(cfg.ports, info.dstPort), PortMatch(cfg.ports, info.srcPort);
    if !reqDir && !respDir then None
    else if c.Some? && c.value.endpointsKnown && info.srcIP == c.value.srcIP && info.srcPort == c.value.srcPort then
      Some(Request)
    else if c.Some? && c.value.endpointsKnown && info.srcIP == c.value.dstIP && info.srcPort == c.value.dstPort then
      Some(Response)
    else if reqDir && respDir then
      if RESPONSE_START <= info.payload then Some(Response)
      else if LooksLikeRequest(info.payload) then Some(Request)
      else None
    else if reqDir then Some(Request) else Some(Response)
  }

  /** The connection with the packet's time and ends noted, before its bytes are taken. */
  function Touched(c: Conn, dir: Direction, a: Arrival): Conn {
    var i := a.info;
    if dir.Request? then
      c.(lastSeen := a.now, srcIP := i.srcIP, srcPort := i.srcPort, dstIP := i.dstIP, dstPort := i.dstPort,
      endpointsKnown := true)
    else if !c.endpointsKnown then
      c.(lastSeen := a.now, srcIP := i.dstIP, srcPort := i.dstPort, dstIP := i.srcIP, dstPort := i.srcPort,
      endpointsKnown := true)
    else c.(lastSeen := a.now)
  }

  /** Whether the connection is finished with, and what is reported for it. */
  datatype Outcome = Keep | Drop | Report(ev: Event) {
    function Events(): seq<Event> {
      if Report? then [ev] else []
    }

    function Left(c: Conn): Option<Conn> {
      if Keep? then Some(c) else None
    }
  }

  function TryEmit(hd: Headers, c: Conn, fin: bool, now: int): Outcome {
    var r := ParseReq(hd, c.req.buf);
    if r.Broken? || (!r.ok && !fin) then Keep else
    var s := ParseResp(hd, c.resp.buf);
    if s.Broken? || (!s.ok && !fin) then Keep
    else if r.head.verb == [] && s.head.status == 0 then Drop
    else Report(Event(c.srcIP, c.dstIP, c.dstPort, r.head, s.head, c.req.truncated, c.resp.truncated, now))
  }

  /** `d` takes the place of the stream the packet belongs to. */
  function WithStream(c: Conn, dir: Direction, d: DirState): Conn {
    if dir.Request? then c.(req := d) else c.(resp := d)
  }

  function StreamOf(c: Conn, dir: Direction): DirState {
    if dir.Request? then c.req else c.resp
  }

  function CapOf(cfg: Config, dir: Direction): int {
    if dir.Request? then cfg.reqCap else cfg.respCap
  }

  /** What follows once the packet's stream has become `d`; nothing if that stopped half way. */
  predicate Settles(cfg: Config, t: Conn, dir: Direction, a: Arrival, d: DirState, ok: bool,
                    c': Option<Conn>, evs: seq<Event>)
  {
    var u := WithStream(t, dir, d);
    var out := if ok then TryEmit(cfg.hd, u, a.info.Fin(), a.now) else Keep;
    c' == out.Left(u) && evs == out.Events()
  }

  /** What one packet may do to its connection (absent: not in the table) and report. */
  ghost predicate ConnStep(cfg: Config, c: Option<Conn>, a: Arrival, c': Option<Conn>, evs: seq<Event>) {
    match DirectionOf(cfg, c, a.info)
    case None => c' == c && evs == []
    case Some(dir) =>
      var t := Touched(if c.Some? then c.value else FRESH, dir, a);
      StreamOf(t, dir).Sized() &&
      exists d: DirState, ok: bool ::
        StreamOf(t, dir).Fed(a.info.seqNo, a.info.payload, CapOf(cfg, dir), d, ok) &&
        Settles(cfg, t, dir, a, d, ok, c', evs)
  }

  // ----- the table -----

  type Table = map<ConnKey, Conn>

  const LATE := 0x3FFF_FFFF_FFFF_FFFF
  const ZERO_KEY := ConnKey([], [], 0, 0)

  /** `t'` is `t` without a connection seen longest ago; times from `LATE` on are never picked. */
  ghost predicate Evicted(t: Table, t': Table) {
    if exists k :: k in t && t[k].lastSeen < LATE
    then exists k ::
      && k in t && t' == t - {k} && t[k].lastSeen < LATE
      && forall j :: j in t ==> t[k].lastSeen <= t[j].lastSeen
    else t' == t - {ZERO_KEY}
  }

  function Put(t: Table, k: ConnKey, c: Option<Conn>): Table {
    if c.Some? then t[k := c.value] else t - {k}
  }

  predicate NeedsRoom(cfg: Config, t: Table, a: Arrival) {
    KeyOf(a.info) !in t && DirectionOf(cfg, None, a.info).Some? && |t| >= cfg.maxConn
  }

  /** What feeding one packet may do to the table and report. */
  ghost predicate TableStep(cfg: Config, t: Table, a: Arrival, t': Table, evs: seq<Event>) {
    var k := KeyOf(a.info);
    exists r: Table, c': Option<Conn> ::
      && (if NeedsRoom(cfg, t, a) then Evicted(t, r) else r == t)
      && ConnStep(cfg, Get(t, k), a, c', evs)
      && t' == Put(r, k, c')
  }

  ghost predicate BoundedConn(cfg: Config, c: Conn) {
    && c.req.Bounded(cfg.reqCap) && c.resp.Bounded(cfg.respCap)
    && c.req.Sized() && c.resp.Sized()
  }

  ghost predicate AllBounded(cfg: Config, t: Table) {
    forall k :: k in t ==> BoundedConn(cfg, t[k])
  }

  ghost predicate BoundedTable(cfg: Config, t: Table) {
    && |t| <= Max(cfg.maxConn, 1)
    && AllBounded(cfg, t)
    && forall k :: k in t ==> t[k].lastSeen < LATE
  }

  lemma {:induction false} ConnStepBounded(cfg: Config, c: Option<Conn>, a: Arrival, c': Option<Conn>, evs: seq<Event>)
    requires cfg.Valid() && ConnStep(cfg, c, a, c', evs) && a.now < LATE
    requires c.Some? ==> BoundedConn(cfg, c.value) && c.value.lastSeen < LATE
    ensures c'.Some? ==> BoundedConn(cfg, c'.value) && c'.value.lastSeen < LATE
  {
    hide TryEmit, Touched, DirectionOf;
    var dir := DirectionOf(cfg, c, a.info);
    if dir.Some? {
      var b := if c.Some? then c.value else FRESH;
      SumEmpty(EMPTY.pending, ByteLen);
      TouchedKeeps(b, dir.value, a);
      var t := Touched(b, dir.value, a);
      var d: DirState, ok: bool :|
        StreamOf(t, dir.value).Fed(a.info.seqNo, a.info.payload, CapOf(cfg, dir.value), d, ok) &&
        Settles(cfg, t, dir.value, a, d, ok, c', evs);
      FedBounded(StreamOf(t, dir.value), a.info.seqNo, a.info.payload, CapOf(cfg, dir.value), d, ok);
      SettlesBounded(cfg, t, dir.value, a, d, ok, c', evs);
    }
  }

  lemma {:induction false} SettlesBounded(cfg: Config, t: Conn, dir: Direction, a: Arrival, d: DirState, ok: bool,
                                          c': Option<Conn>, evs: seq<Event>)
    requires Settles(cfg, t, dir, a, d, ok, c', evs)
    requires BoundedConn(cfg, t) && d.Bounded(CapOf(cfg, dir)) && d.Sized()
    ensures c'.Some? ==> BoundedConn(cfg, c'.value) && c'.value.lastSeen == t.lastSeen
  {
    hide TryEmit, DirState.Bounded, DirState.Sized;
  }

  lemma {:induction false} TouchedKeeps(c: Conn, dir: Direction, a: Arrival)
    ensures var t := Touched(c, dir, a); t.req == c.req && t.resp == c.resp && t.lastSeen == a.now
  {
  }

  /**
   The memory bound of the whole reassembler: feeding any packet keeps the table within
   `maxConn` connections, each within its two byte budgets.
   */
  lemma {:induction false} TableStepBounded(cfg: Config, t: Table, a: Arrival, t': Table, evs: seq<Event>)
    requires cfg.Valid() && 1 <= cfg.maxConn && a.now < LATE
    requires BoundedTable(cfg, t) && TableStep(cfg, t, a, t', evs)
    ensures BoundedTable(cfg, t')
  {
    hide ConnStep, DirectionOf, BoundedConn, Evicted;
    var k := KeyOf(a.info);
    hide KeyOf;
    var r: Table, c': Option<Conn> :|
      && (if NeedsRoom(cfg, t, a) then Evicted(t, r) else r == t)
      && ConnStep(cfg, Get(t, k), a, c', evs)
      && t' == Put(r, k, c');
    ConnStepBounded(cfg, Get(t, k), a, c', evs);
    if NeedsRoom(cfg, t, a) {
      EvictedSize(t, r);
    }
    if k !in t && DirectionOf(cfg, None, a.info).None? {
      IgnoredStep(cfg, a, c', evs);
    }
    PutBounded(cfg, r, k, c');
  }

  lemma {:induction false} PutBounded(cfg: Config, r: Table, k: ConnKey, c': Option<Conn>)
    requires |r| <= Max(cfg.maxConn, 1) && (k !in r && c'.Some? ==> |r| < Max(cfg.maxConn, 1))
    requires forall j :: j in r ==> r[j].lastSeen < LATE && BoundedConn(cfg, r[j])
    requires c'.Some? ==> c'.value.lastSeen < LATE && BoundedConn(cfg, c'.value)
    ensures BoundedTable(cfg, Put(r, k, c'))
  {
    hide BoundedConn;
    assert Put(r, k, c').Keys == if c'.Some? then r.Keys + {k} else r.Keys - {k};
  }

  lemma {:induction false} IgnoredStep(cfg: Config, a: Arrival, c': Option<Conn>, evs: seq<Event>)
    requires DirectionOf(cfg, None, a.info).None? && ConnStep(cfg, None, a, c', evs)
    ensures c' == None && evs == []
  {
  }

  lemma {:induction false} EvictedSize(t: Table, r: Table)
    requires Evicted(t, r) && t != map[] && forall k :: k in t ==> t[k].lastSeen < LATE
    ensures |r| == |t| - 1 && forall k :: k in r ==> k in t && r[k] == t[k]
  {
    var j :| j in t;
    assert t[j].lastSeen < LATE;
    var k :| k in t && r == t - {k};
    assert r.Keys == t.Keys - {k};
  }

  /** The connection that makes room for a new one is one of those seen longest ago, and the only one to go. */
  lemma {:induction false} EvictsOldest(cfg: Config, t: Table, a: Arrival, t': Table, evs: seq<Event>)
    returns (gone: ConnKey)
    requires TableStep(cfg, t, a, t', evs) && NeedsRoom(cfg, t, a)
    requires t != map[] && forall k :: k in t ==> t[k].lastSeen < LATE
    ensures gone in t && gone !in t' && forall k :: k in t ==> t[gone].lastSeen <= t[k].lastSeen
    ensures forall k :: k in t && k != gone ==> k in t' && t'[k] == t[k]
  {
    var key := KeyOf(a.info);
    assert key !in t;
    hide KeyOf, ConnStep, DirectionOf, Evicted, Put;
    var r: Table, c': Option<Conn> :|
      && Evicted(t, r)
      && ConnStep(cfg, Get(t, key), a, c', evs)
      && t' == Put(r, key, c');
    gone := OldestGone(t, r);
    OthersPut(t, gone, key, c');
  }

  lemma {:induction false} OthersPut(t: Table, gone: ConnKey, key: ConnKey, c': Option<Conn>)
    requires key !in t && gone in t
    ensures var t' := Put(t - {gone}, key, c');
      gone !in t' && forall k :: k in t && k != gone ==> k in t' && t'[k] == t[k]
  {
  }

  lemma {:induction false} OldestGone(t: Table, r: Table) returns (gone: ConnKey)
    requires Evicted(t, r) && t != map[] && forall k :: k in t ==> t[k].lastSeen < LATE
    ensures gone in t && r == t - {gone} && forall k :: k in t ==> t[gone].lastSeen <= t[k].lastSeen
  {
    var j :| j in t;
    assert t[j].lastSeen < LATE;
    gone :| gone in t && r == t - {gone} && forall k :: k in t ==> t[gone].lastSeen <= t[k].lastSeen;
  }
}
