/** When a connection reports, and what: from the packets of its two ends alone. */
module Reporting {
  import opened Base
  import opened DirStreams
  import opened StreamOrder
  import opened StreamRuns
  import opened HttpFraming
  import opened ConnTable
  import opened Sharding
  import opened AuditEvents
  import opened Directions

  /** The budget of the stream suffices for these segments in the order in which they come. */
  ghost predicate Uncut(w: Wire, capacity: int)
    requires AllIn(w.segs, |w.stream|)
  {
    !TrackRun(w.segs, capacity, |w.stream|).truncated
  }

  /** That is so if the budget is no less than what they carry, and the first starts before the others. */
  lemma {:induction false} RoomUncut(w: Wire, capacity: int)
    requires AllIn(w.segs, |w.stream|) && TotalLen(w.segs) <= capacity
    requires forall i, j :: 0 <= i < j < |w.segs| ==> 0 < w.segs[i].len && w.segs[0].off <= w.segs[j].off
    ensures Uncut(w, capacity)
  {
    hide TrackRun;
    EnoughRoom(w.segs, capacity, |w.stream|);
  }

  /** The bytes of one end that the packets up to number `n` carry, of which nothing is cut off. */
  ghost predicate Brings(w: Wire, trace: Trace, e: End, from: nat, n: nat, capacity: int)
    requires from <= n < |trace|
  {
    w.Carries(SentBy(trace, e, from, n + 1)) && Uncut(w, capacity)
  }

  /** Both parses can be made, and both messages are complete unless the connection ends. */
  predicate Finished(q: Parsed<ReqHead>, p: Parsed<RespHead>, fin: bool) {
    q.Parsed? && p.Parsed? && (fin || (q.ok && p.ok))
  }

  lemma {:induction false} EmitExactly(hd: Headers, u: Conn, fin: bool, now: int)
    ensures var q, p := ParseReq(hd, u.req.buf), ParseResp(hd, u.resp.buf);
      var out := TryEmit(hd, u, fin, now);
      && (out == Keep <==> !Finished(q, p, fin))
      && (out.Report? <==> Finished(q, p, fin) && (q.head.verb != [] || p.head.status != 0))
      && (out.Report? ==>
            out.ev == Event(u.srcIP, u.dstIP, u.dstPort, q.head, p.head, u.req.truncated, u.resp.truncated, now))
  {
    hide ParseReq, ParseResp;
  }

  /** With nothing cut, each stream holds what was received, and no call stops half way. */
  lemma {:induction false} HoldsReceived(cfg: Config, trace: Trace, h: History, dir: Direction, from: nat, n: nat,
                                         u: Conn, ok: bool, w: Wire)
    requires cfg.Valid() && IsHistory(cfg, trace, h) && n < |trace| && Lives(h, from, n)
    requires FeedsTo(cfg, trace, h.conns, n, u, ok)
    requires w.Carries(TakenBy(cfg, trace, h.conns, dir, from, n + 1)) && Uncut(w, CapOf(cfg, dir))
    ensures StreamOf(u, dir).buf == w.Received() && !StreamOf(u, dir).truncated
    ensures DirectionOf(cfg, h.conns[n], trace[n].info) == Some(dir) ==> ok
  {
    hide DirectionOf, FeedsTo, IsRun, PiecesOf, IsHistory, Lives, TakenBy, Reaches, TrackRun;
    var states, oks := RunOf(cfg, trace, h, dir, from, n, u, ok, w);
    RunShows(states, oks, w.segs, w.stream, w.isn, CapOf(cfg, dir));
    assert |oks| == |w.segs| by { RunLength(states, oks, w); }
    var side := SideOf(cfg, trace, h, dir, from, n, u, ok, w);
    side.Buffered();
  }

  lemma {:induction false} RunLength(states: seq<DirState>, oks: seq<bool>, w: Wire)
    requires AllIn(w.segs, |w.stream|) && exists k :: IsRun(states, oks, w.segs, w.stream, w.isn, k)
    ensures |oks| == |w.segs|
  {
  }

  /**
   When a connection reports, and what. Take any history of a connection between two ends, from
   the packet that opened it to packet number `n`, while it has lived. If what each end has sent
   so far are pieces of a byte stream of which nothing is cut off, then packet number `n` finishes
   with the connection exactly if both parts received can be parsed and are complete messages, or
   the packet ends the connection; and it then reports exactly one event, for the two ends and
   with what the parts received say, unless there is neither a method nor a status.
   */
  lemma {:induction false} ReportsExactly(cfg: Config, trace: Trace, h: History, k: ConnKey, from: nat, n: nat,
                                          q: Wire, p: Wire)
    requires cfg.Valid() && IsHistory(cfg, trace, h) && OneConnection(trace, k)
    requires from <= n < |trace| && Lives(h, from, n)
    requires var i := trace[from].info; (ToServer(cfg, i) || FromServer(cfg, i)) && Source(i) != Target(i)
    requires Brings(q, trace, ClientOf(cfg, trace[from].info), from, n, cfg.reqCap)
    requires Brings(p, trace, ServerOf(cfg, trace[from].info), from, n, cfg.respCap)
    ensures var client, server := ClientOf(cfg, trace[from].info), ServerOf(cfg, trace[from].info);
      var r, s := ParseReq(cfg.hd, q.Received()), ParseResp(cfg.hd, p.Received());
      var finished := Finished(r, s, trace[n].info.Fin());
      && (h.conns[n + 1] == None <==> finished)
      && h.events[n] ==
         if finished && (r.head.verb != [] || s.head.status != 0)
         then [Event(client.ip, server.ip, server.port, r.head, s.head, false, false, trace[n].now)]
         else []
  {
    hide KeyOf, DirectionOf, ConnStep, ToServer, FromServer, ParseReq, ParseResp, TryEmit, TakenBy, SentBy;
    hide Touched, Uncut, Wire.Carries, DirState.Fed, DirState.Sized;
    var c, a := h.conns[n], trace[n];
    assert ConnStep(cfg, c, a, h.conns[n + 1], h.events[n]);
    PacketDirection(cfg, trace, h, k, from, n);
    EachEndFeedsItsStream(cfg, trace, h, k, from, n);
    var u, ok := StepFeeds(cfg, c, a, h.conns[n + 1], h.events[n]);
    HoldsReceived(cfg, trace, h, Request, from, n, u, ok, q);
    HoldsReceived(cfg, trace, h, Response, from, n, u, ok, p);
    EndsAfter(cfg, trace, h, k, from, n, u);
    EmitExactly(cfg.hd, u, a.info.Fin(), a.now);
  }

  lemma {:induction false} EndsAfter(cfg: Config, trace: Trace, h: History, k: ConnKey, from: nat, n: nat, u: Conn)
    requires IsHistory(cfg, trace, h) && OneConnection(trace, k) && from <= n < |trace| && Lives(h, from, n)
    requires var i := trace[from].info; (ToServer(cfg, i) || FromServer(cfg, i)) && Source(i) != Target(i)
    requires DirectionOf(cfg, h.conns[n], trace[n].info).Some?
    requires var c, dir := h.conns[n], DirectionOf(cfg, h.conns[n], trace[n].info).value;
      HasEndsOf(u, Touched(if c.Some? then c.value else FRESH, dir, trace[n]))
    ensures Client(u) == ClientOf(cfg, trace[from].info) && Server(u) == ServerOf(cfg, trace[from].info)
  {
    hide KeyOf, DirectionOf, IsHistory, Touched, Audited, Starts, StartsRequest;
    var c := h.conns[n];
    PacketDirection(cfg, trace, h, k, from, n);
    TouchedEnds(if c.Some? then c.value else FRESH, DirectionOf(cfg, c, trace[n].info).value, trace[n]);
    if from < n {
      EndsStay(cfg, trace, h, k, from, n);
    }
  }

  /**
   `ReportsExactly` in a run of the whole reassembler without eviction: each connection's part of
   it is such a history, over the packets between its two ends.
   */
  lemma {:induction false} HistoryInTable(cfg: Config, trace: Trace, t: Table, log: seq<Logged>, k: ConnKey)
    returns (h: History)
    requires Free(cfg, trace, t, log)
    ensures IsHistory(cfg, Only(trace, k), h) && OneConnection(Only(trace, k), k)
    ensures h.conns[|Only(trace, k)|] == Get(t, k) && AllEvents(h.events) == EventsOf(log, k)
  {
    hide ConnStep, Free, KeyOf;
    Project(cfg, trace, t, log, k);
    OnlyOne(trace, k);
    h := HistoryOf(cfg, Only(trace, k), Get(t, k), EventsOf(log, k));
  }
}
