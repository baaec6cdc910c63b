/**
 Connections whose parse fails: a negative chunk size in either direction keeps a connection from
 ever being reported.
 */
module StuckConns {
  import opened Base
  import opened SeqSpace
  import opened DirStreams
  import opened ByteSearch
  import opened Chunked
  import opened HttpFraming
  import opened ConnTable
  import opened Sharding
  import opened AuditEvents

  /** One of the two parses runs a slice out of range. */
  predicate Stuck(hd: Headers, c: Conn) {
    ParseReq(hd, c.req.buf).Broken? || ParseResp(hd, c.resp.buf).Broken?
  }

  /** The segment starts before the buffer of its stream, whose bytes then move. */
  predicate StartsBefore(s: DirState, info: L4Info) {
    info.payload != [] && s.haveBase && SeqLT(info.seqNo, s.startSeq)
  }

  // ----- buffers that grow at the end -----

  lemma {:induction false} AbsorbedGrows(s: DirState, k: u32, capacity: int)
    requires s.Sized() && k in s.pending && s.Ready(k)
    ensures s.buf <= s.Absorbed(k, capacity).buf
  {
  }

  lemma {:induction false} DrainedGrows(s: DirState, d: DirState, capacity: int)
    requires s.Sized() && s.Drained(d, capacity)
    ensures s.buf <= d.buf
    decreases |s.pending|
  {
    hide DirState.Absorbed, DirState.Ready, DirState.Sized;
    if !(s.Quiet() && d == s) {
      var k :| k in s.pending && s.Ready(k) && s.Absorbed(k, capacity).Drained(d, capacity);
      AbsorbedGrows(s, k, capacity);
      DrainedGrows(s.Absorbed(k, capacity), d, capacity);
    }
  }

  /** A segment that does not start before the buffer only adds to its end. */
  lemma {:induction false} FedGrows(s: DirState, info: L4Info, capacity: int, d: DirState, ok: bool)
    requires s.Sized() && s.Fed(info.seqNo, info.payload, capacity, d, ok) && !StartsBefore(s, info)
    ensures s.buf <= d.buf
  {
    hide DirState.Drained;
    var e := s.Entered(info.seqNo, info.payload, capacity);
    assert s.buf <= e.d.buf;
    if e.ToDrain? {
      DrainedGrows(e.d, d, capacity);
    }
  }

  // ----- broken parses stay broken -----

  lemma {:induction false} BrokenReqGrows(hd: Headers, buf: seq<byte>, ext: seq<byte>)
    requires ParseReq(hd, buf).Broken?
    ensures ParseReq(hd, buf + ext).Broken?
  {
    hide Index, Dechunked, LooksLikeRequest;
    HeadExtend(buf, ext);
    LooksLikeExtend(buf, ext);
    DechunkedExtend(buf[Index(buf, HEAD_END) + 4..], ext);
  }

  lemma {:induction false} BrokenRespGrows(hd: Headers, buf: seq<byte>, ext: seq<byte>)
    requires ParseResp(hd, buf).Broken?
    ensures ParseResp(hd, buf + ext).Broken?
    decreases |buf|
  {
    hide Index, Dechunked;
    HeadExtend(buf, ext);
    var i := Index(buf, HEAD_END);
    assert RESPONSE_START <= buf + ext;
    if Interim(hd.resp(buf[..i]).status) {
      BrokenRespGrows(hd, buf[i + 4..], ext);
    } else {
      DechunkedExtend(buf[i + 4..], ext);
    }
  }

  lemma {:induction false} StuckGrows(hd: Headers, c: Conn, d: Conn)
    requires Stuck(hd, c) && c.req.buf <= d.req.buf && c.resp.buf <= d.resp.buf
    ensures Stuck(hd, d)
  {
    hide ParseReq, ParseResp;
    assert d.req.buf == c.req.buf + d.req.buf[|c.req.buf|..];
    assert d.resp.buf == c.resp.buf + d.resp.buf[|c.resp.buf|..];
    if ParseReq(hd, c.req.buf).Broken? {
      BrokenReqGrows(hd, c.req.buf, d.req.buf[|c.req.buf|..]);
    } else {
      BrokenRespGrows(hd, c.resp.buf, d.resp.buf[|c.resp.buf|..]);
    }
  }

  /** Nothing is reported for a stuck connection, not even when it ends. */
  lemma {:induction false} StuckIsKept(hd: Headers, c: Conn, fin: bool, now: int)
    requires Stuck(hd, c)
    ensures TryEmit(hd, c, fin, now) == Keep
  {
    hide ParseReq, ParseResp;
  }

  // ----- steps and runs -----

  /** The packet starts before the buffer of the stream it is for. */
  predicate Precedes(cfg: Config, c: Option<Conn>, info: L4Info) {
    match DirectionOf(cfg, c, info)
    case None => false
    case Some(dir) => StartsBefore(StreamIn(c, dir), info)
  }

  lemma {:induction false} StuckStep(cfg: Config, c: Conn, a: Arrival, c': Option<Conn>, evs: seq<Event>)
    requires ConnStep(cfg, Some(c), a, c', evs) && Stuck(cfg.hd, c) && !Precedes(cfg, Some(c), a.info)
    ensures c'.Some? && Stuck(cfg.hd, c'.value) && evs == []
  {
    hide DirectionOf, DirState.Fed, DirState.Sized, StartsBefore, ConnStep, Stuck, TryEmit;
    if DirectionOf(cfg, Some(c), a.info).None? {
      Undirected(cfg, Some(c), a, c', evs);
    } else {
      var dir := DirectionOf(cfg, Some(c), a.info).value;
      var u, ok := StepFeeds(cfg, Some(c), a, c', evs);
      FedGrows(StreamOf(c, dir), a.info, CapOf(cfg, dir), StreamOf(u, dir), ok);
      assert forall other: Direction :: other != dir ==> StreamOf(u, other) == StreamOf(c, other);
      BothGrow(c, u, dir);
      StuckGrows(cfg.hd, c, u);
      StuckIsKept(cfg.hd, u, a.info.Fin(), a.now);
    }
  }

  lemma {:induction false} BothGrow(c: Conn, u: Conn, dir: Direction)
    requires StreamOf(c, dir).buf <= StreamOf(u, dir).buf
    requires forall other: Direction :: other != dir ==> StreamOf(u, other) == StreamOf(c, other)
    ensures c.req.buf <= u.req.buf && c.resp.buf <= u.resp.buf
  {
    assert StreamOf(c, Request) == c.req && StreamOf(u, Request) == u.req;
    assert StreamOf(c, Response) == c.resp && StreamOf(u, Response) == u.resp;
  }

  /**
   A connection that is stuck after `i` packets reports nothing in any later packet, the one that
   ends it included, and is never deleted: it leaves the table only if it is evicted. This holds
   as long as no segment arrives for bytes before those buffered.
   */
  lemma {:induction false} StuckForGood(cfg: Config, trace: Trace, h: History, i: nat, n: nat)
    requires IsHistory(cfg, trace, h) && i <= n <= |trace|
    requires h.conns[i].Some? && Stuck(cfg.hd, h.conns[i].value)
    requires forall j :: i <= j < n ==> !Precedes(cfg, h.conns[j], trace[j].info)
    ensures h.conns[n].Some? && Stuck(cfg.hd, h.conns[n].value)
    ensures forall j :: i <= j < n ==> h.events[j] == []
    decreases n
  {
    hide ConnStep, Stuck, Precedes;
    if i < n {
      StuckForGood(cfg, trace, h, i, n - 1);
      assert ConnStep(cfg, h.conns[n - 1], trace[n - 1], h.conns[n - 1 + 1], h.events[n - 1]);
      StuckStep(cfg, h.conns[n - 1].value, trace[n - 1], h.conns[n], h.events[n - 1]);
    }
  }

  /**
   In a run of the whole reassembler without eviction: if the first packets of a connection have
   got it stuck, then after any more it is still in the table, and they have added no event.
   */
  lemma {:induction false} StuckInTable(cfg: Config, trace: Trace, t: Table, log: seq<Logged>, k: ConnKey)
    returns (h: History)
    requires Free(cfg, trace, t, log)
    ensures IsHistory(cfg, Only(trace, k), h) && AllEvents(h.events) == EventsOf(log, k)
    ensures h.conns[|Only(trace, k)|] == Get(t, k)
    ensures forall i :: 0 <= i <= |Only(trace, k)| && StuckFrom(cfg, Only(trace, k), h, i) ==>
      k in t && forall j :: i <= j < |Only(trace, k)| ==> h.events[j] == []
  {
    hide ConnStep, Free, Stuck, Precedes;
    Project(cfg, trace, t, log, k);
    h := HistoryOf(cfg, Only(trace, k), Get(t, k), EventsOf(log, k));
    forall i | 0 <= i <= |Only(trace, k)| && StuckFrom(cfg, Only(trace, k), h, i)
      ensures k in t && forall j :: i <= j < |Only(trace, k)| ==> h.events[j] == []
    {
      StuckForGood(cfg, Only(trace, k), h, i, |Only(trace, k)|);
    }
  }

  /** The connection is stuck after `i` packets, and no later one is for bytes before those buffered. */
  ghost predicate StuckFrom(cfg: Config, trace: Trace, h: History, i: nat)
    requires i <= |trace| < |h.conns|
  {
    && h.conns[i].Some? && Stuck(cfg.hd, h.conns[i].value)
    && forall j :: i <= j < |trace| ==> !Precedes(cfg, h.conns[j], trace[j].info)
  }
}
