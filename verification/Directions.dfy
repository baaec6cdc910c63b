/**
 Which of a connection's two streams a packet feeds: the first packet decides by the audited
 ports and the look of its payload, every later one by the end that sent it.
 */
module Directions {
  import opened Base
  import opened SeqSpace
  import opened DirStreams
  import opened HttpFraming
  import opened ConnTable
  import opened Sharding
  import opened AuditEvents

  /** One end of a connection. */
  datatype End = End(ip: Text, port: u16)

  function Source(i: L4Info): End {
    End(i.srcIP, i.srcPort)
  }

  function Target(i: L4Info): End {
    End(i.dstIP, i.dstPort)
  }

  function Client(c: Conn): End {
    End(c.srcIP, c.srcPort)
  }

  function Server(c: Conn): End {
    End(c.dstIP, c.dstPort)
  }

  // ----- what a packet shows by itself -----

  /** With no ports configured, every port is audited. */
  predicate Audited(cfg: Config, port: u16) {
    cfg.ports == [] || exists i :: 0 <= i < |cfg.ports| && cfg.ports[i] == port
  }

  /** The packet goes to the server: by its ports or, if these say nothing, by its payload. */
  predicate ToServer(cfg: Config, i: L4Info) {
    && Audited(cfg, i.dstPort)
    && (Audited(cfg, i.srcPort) ==> !Starts(i.payload, "HTTP/") && StartsRequest(i.payload))
  }

  predicate FromServer(cfg: Config, i: L4Info) {
    Audited(cfg, i.srcPort) && (Audited(cfg, i.dstPort) ==> Starts(i.payload, "HTTP/"))
  }

  lemma {:induction false} AuditedExactly(cfg: Config, port: u16)
    ensures PortMatch(cfg.ports, port) <==> Audited(cfg, port)
  {
  }

  // ----- the first packet -----

  lemma {:induction false} FirstDirection(cfg: Config, i: L4Info)
    ensures DirectionOf(cfg, None, i) ==
      if ToServer(cfg, i) then Some(Request) else if FromServer(cfg, i) then Some(Response) else None
    ensures !(ToServer(cfg, i) && FromServer(cfg, i))
  {
    AuditedExactly(cfg, i.srcPort);
    AuditedExactly(cfg, i.dstPort);
    PayloadExactly(i.payload);
    hide PortMatch, Audited, LooksLikeRequest, Starts, StartsRequest;
  }

  /** A connection with one packet, whose bytes are in one stream; the other is as new. */
  predicate Opened(c: Conn, client: End, server: End, payload: seq<byte>, stream: DirState, other: DirState) {
    && c.endpointsKnown && Client(c) == client && Server(c) == server
    && stream.buf == payload && stream.pending == map[] && !stream.truncated && other == EMPTY
  }

  /** What a fresh stream makes of its first segment. */
  lemma {:induction false} FirstSegment(q: u32, payload: seq<byte>, capacity: int, d: DirState, ok: bool)
    requires EMPTY.Sized() && EMPTY.Fed(q, payload, capacity, d, ok) && |payload| <= capacity < HALF
    ensures ok && d.buf == payload && d.pending == map[] && !d.truncated
  {
  }

  /**
   The first packet of a connection that does not end it. One that goes to the server leaves its
   bytes in the request stream and its ends as client and server; one that comes from the server
   leaves its bytes in the response stream and its ends as server and client; any other is
   ignored.
   */
  lemma {:induction false} FirstPacket(cfg: Config, a: Arrival, c: Option<Conn>, evs: seq<Event>)
    requires cfg.Valid() && ConnStep(cfg, None, a, c, evs)
    requires !a.info.Fin() && |a.info.payload| <= Min(cfg.reqCap, cfg.respCap)
    ensures evs == []
    ensures !ToServer(cfg, a.info) && !FromServer(cfg, a.info) ==> c == None
    ensures ToServer(cfg, a.info) ==>
      c.Some? && Opened(c.value, Source(a.info), Target(a.info), a.info.payload, c.value.req, c.value.resp)
    ensures FromServer(cfg, a.info) ==>
      c.Some? && Opened(c.value, Target(a.info), Source(a.info), a.info.payload, c.value.resp, c.value.req)
  {
    FirstDirection(cfg, a.info);
    hide DirectionOf, ConnStep, ToServer, FromServer, DirState.Fed, DirState.Sized, TryEmit, Touched;
    if DirectionOf(cfg, None, a.info).None? {
      Undirected(cfg, None, a, c, evs);
    } else {
      var dir := DirectionOf(cfg, None, a.info).value;
      var u, ok := StepFeeds(cfg, None, a, c, evs);
      TouchedEnds(FRESH, dir, a);
      NothingPending();
      FirstSegment(a.info.seqNo, a.info.payload, CapOf(cfg, dir), StreamOf(u, dir), ok);
      OneSided(cfg.hd, u, dir, a.now);
    }
  }

  lemma {:induction false} NothingPending()
    ensures EMPTY.Sized()
  {
  }

  /** With nothing in one of its streams a connection is not finished with. */
  lemma {:induction false} OneSided(hd: Headers, u: Conn, dir: Direction, now: int)
    requires StreamOf(u, if dir.Request? then Response else Request) == EMPTY
    ensures TryEmit(hd, u, false, now) == Keep
  {
    assert ParseReq(hd, []) == Parsed(NO_REQ, false) && ParseResp(hd, []) == Parsed(NO_RESP, false) by {
      NothingParsed(hd);
    }
    hide ParseReq, ParseResp;
  }

  lemma {:induction false} NothingParsed(hd: Headers)
    ensures ParseReq(hd, []) == Parsed(NO_REQ, false) && ParseResp(hd, []) == Parsed(NO_RESP, false)
  {
  }

  /** The ends after a packet of a direction. */
  lemma {:induction false} TouchedEnds(c: Conn, dir: Direction, a: Arrival)
    ensures var t := Touched(c, dir, a);
      && t.endpointsKnown
      && (dir.Request? ==> Client(t) == Source(a.info) && Server(t) == Target(a.info))
      && (dir.Response? && !c.endpointsKnown ==> Client(t) == Target(a.info) && Server(t) == Source(a.info))
      && (dir.Response? && c.endpointsKnown ==> Client(t) == Client(c) && Server(t) == Server(c))
  {
  }

  /** The same for the table: what the first packet of a connection leaves there, evictions or not. */
  lemma {:induction false} FirstInTable(cfg: Config, t: Table, a: Arrival, t': Table, evs: seq<Event>)
    requires cfg.Valid() && TableStep(cfg, t, a, t', evs) && KeyOf(a.info) !in t
    requires !a.info.Fin() && |a.info.payload| <= Min(cfg.reqCap, cfg.respCap)
    ensures var k := KeyOf(a.info);
      && evs == []
      && (!ToServer(cfg, a.info) && !FromServer(cfg, a.info) ==> t' == t)
      && (ToServer(cfg, a.info) ==>
            k in t' && Opened(t'[k], Source(a.info), Target(a.info), a.info.payload, t'[k].req, t'[k].resp))
      && (FromServer(cfg, a.info) ==>
            k in t' && Opened(t'[k], Target(a.info), Source(a.info), a.info.payload, t'[k].resp, t'[k].req))
  {
    var k := KeyOf(a.info);
    FirstDirection(cfg, a.info);
    hide KeyOf, DirectionOf, ConnStep, ToServer, FromServer, Opened, Evicted;
    var r: Table, c: Option<Conn> :|
      && (if NeedsRoom(cfg, t, a) then Evicted(t, r) else r == t)
      && ConnStep(cfg, Get(t, k), a, c, evs)
      && t' == Put(r, k, c);
    FirstPacket(cfg, a, c, evs);
  }

  // ----- later packets -----

  /** The packet is between the two ends of the connection. */
  predicate Between(i: L4Info, client: End, server: End) {
    (Source(i) == client && Target(i) == server) || (Source(i) == server && Target(i) == client)
  }

  /** A later packet is a request packet exactly if the client sent it. */
  lemma {:induction false} LaterDirection(cfg: Config, c: Conn, i: L4Info)
    requires c.endpointsKnown && Between(i, Client(c), Server(c))
    requires Audited(cfg, i.srcPort) || Audited(cfg, i.dstPort)
    ensures DirectionOf(cfg, Some(c), i) == Some(if Source(i) == Client(c) then Request else Response)
  {
    AuditedExactly(cfg, i.srcPort);
    AuditedExactly(cfg, i.dstPort);
    hide PortMatch, Audited;
  }

  /** All packets are of one connection. */
  predicate OneConnection(trace: Trace, k: ConnKey) {
    forall i :: 0 <= i < |trace| ==> KeyOf(trace[i].info) == k
  }

  lemma {:induction false} OnlyOne(trace: Trace, k: ConnKey)
    ensures OneConnection(Only(trace, k), k)
  {
    hide KeyOf;
    if trace != [] {
      OnlyOne(trace[..|trace| - 1], k);
    }
  }

  /** The two ends of the connection whose first packet is `i`: which one is the client, and which the server. */
  function ClientOf(cfg: Config, i: L4Info): End {
    if ToServer(cfg, i) then Source(i) else Target(i)
  }

  function ServerOf(cfg: Config, i: L4Info): End {
    if ToServer(cfg, i) then Target(i) else Source(i)
  }

  lemma {:induction false} SameConnection(cfg: Config, i: L4Info, j: L4Info)
    requires KeyOf(i) == KeyOf(j)
    ensures Between(j, ClientOf(cfg, i), ServerOf(cfg, i))
    ensures ToServer(cfg, i) || FromServer(cfg, i) ==> Audited(cfg, j.srcPort) || Audited(cfg, j.dstPort)
  {
    KeyIdentifiesConnection(i, j);
    hide KeyOf, Audited, StartsRequest, Starts;
  }

  /** While a connection lives, its client and its server are those of its first packet. */
  lemma {:induction false} EndsStay(cfg: Config, trace: Trace, h: History, k: ConnKey, from: nat, n: nat)
    requires IsHistory(cfg, trace, h) && Lives(h, from, n) && from < n && OneConnection(trace, k)
    ensures var i := trace[from].info; var c := h.conns[n].value;
      && (ToServer(cfg, i) || FromServer(cfg, i))
      && c.endpointsKnown && Client(c) == ClientOf(cfg, i) && Server(c) == ServerOf(cfg, i)
    decreases n
  {
    hide KeyOf, DirectionOf, ConnStep, ToServer, FromServer, Audited, TryEmit;
    var m := n - 1;
    var first, a := trace[from].info, trace[m];
    assert ConnStep(cfg, h.conns[m], a, h.conns[m + 1], h.events[m]);
    if m == from {
      FirstDirection(cfg, first);
      if DirectionOf(cfg, None, first).None? {
        Undirected(cfg, None, a, h.conns[n], h.events[m]);
        assert false;
      }
    } else {
      EndsStay(cfg, trace, h, k, from, m);
      SameConnection(cfg, first, a.info);
      LaterDirection(cfg, h.conns[m].value, a.info);
    }
    var u, ok := StepFeeds(cfg, h.conns[m], a, h.conns[n], h.events[m]);
    TouchedEnds(if h.conns[m].Some? then h.conns[m].value else FRESH, DirectionOf(cfg, h.conns[m], a.info).value, a);
  }

  // ----- what each stream is given -----

  /** What the packets sent by one end carry, from number `from` up to number `to`. */
  function SentBy(trace: Trace, e: End, from: nat, upto: nat): seq<Taken>
    requires from <= upto <= |trace|
    decreases upto
  {
    if upto == from then [] else
    var i := trace[upto - 1].info;
    SentBy(trace, e, from, upto - 1) + if Source(i) == e then [Taken(i.seqNo, i.payload)] else []
  }

  /**
   While a connection lives, its request stream is given exactly the packets that the client sent,
   and its response stream exactly those that the server sent. The ends are told apart: a socket
   connected to itself is the one exception.
   */
  lemma {:induction false} EachEndFeedsItsStream(cfg: Config, trace: Trace, h: History, k: ConnKey, from: nat, n: nat)
    requires IsHistory(cfg, trace, h) && from <= n < |trace| && Lives(h, from, n) && OneConnection(trace, k)
    requires var i := trace[from].info; (ToServer(cfg, i) || FromServer(cfg, i)) && Source(i) != Target(i)
    ensures var i := trace[from].info;
      && TakenBy(cfg, trace, h.conns, Request, from, n + 1) == SentBy(trace, ClientOf(cfg, i), from, n + 1)
      && TakenBy(cfg, trace, h.conns, Response, from, n + 1) == SentBy(trace, ServerOf(cfg, i), from, n + 1)
    decreases n
  {
    hide KeyOf, DirectionOf, ConnStep, ToServer, FromServer, Audited, TakenBy, SentBy;
    var i := trace[from].info;
    var client, server := ClientOf(cfg, i), ServerOf(cfg, i);
    PacketDirection(cfg, trace, h, k, from, n);
    if n > from {
      EachEndFeedsItsStream(cfg, trace, h, k, from, n - 1);
    } else {
      TakenNone(cfg, trace, h, Request, client, from);
      TakenNone(cfg, trace, h, Response, server, from);
    }
    TakenNext(cfg, trace, h, Request, client, from, n);
    TakenNext(cfg, trace, h, Response, server, from, n);
  }

  lemma {:induction false} TakenNone(cfg: Config, trace: Trace, h: History, d: Direction, e: End, from: nat)
    requires from <= |trace| <= |h.conns|
    ensures TakenBy(cfg, trace, h.conns, d, from, from) == SentBy(trace, e, from, from)
  {
  }

  lemma {:induction false} TakenNext(cfg: Config, trace: Trace, h: History, d: Direction, e: End, from: nat, n: nat)
    requires from <= n < |trace| <= |h.conns|
    requires DirectionOf(cfg, h.conns[n], trace[n].info) == Some(d) <==> Source(trace[n].info) == e
    requires TakenBy(cfg, trace, h.conns, d, from, n) == SentBy(trace, e, from, n)
    ensures TakenBy(cfg, trace, h.conns, d, from, n + 1) == SentBy(trace, e, from, n + 1)
  {
    hide DirectionOf;
  }

  /** The direction of every packet of a connection's life, and the ends it is between. */
  lemma {:induction false} PacketDirection(cfg: Config, trace: Trace, h: History, k: ConnKey, from: nat, n: nat)
    requires IsHistory(cfg, trace, h) && from <= n < |trace| && Lives(h, from, n) && OneConnection(trace, k)
    requires var i := trace[from].info; (ToServer(cfg, i) || FromServer(cfg, i)) && Source(i) != Target(i)
    ensures var i := trace[from].info; var j := trace[n].info;
      && Between(j, ClientOf(cfg, i), ServerOf(cfg, i)) && ClientOf(cfg, i) != ServerOf(cfg, i)
      && DirectionOf(cfg, h.conns[n], j) == Some(if Source(j) == ClientOf(cfg, i) then Request else Response)
  {
    hide KeyOf, DirectionOf, ConnStep, Audited, StartsRequest, Starts;
    var i, j := trace[from].info, trace[n].info;
    SameConnection(cfg, i, j);
    if n == from {
      FirstDirection(cfg, i);
    } else {
      EndsStay(cfg, trace, h, k, from, n);
      LaterDirection(cfg, h.conns[n].value, j);
    }
  }
}
