/** What a reported request/response pair says about the two byte streams of its connection. */
module AuditEvents {
  import opened Base
  import opened SeqSpace
  import opened DirStreams
  import opened StreamOrder
  import opened StreamRuns
  import opened HttpFraming
  import opened ConnTable
  import opened Sharding

  /** What was fed reaches from the start of the stream to `end`; or nothing was fed. */
  ghost predicate Reaches(segs: seq<Seg>, end: nat) {
    FirstBlock(segs, 0, end) || (end == 0 && forall x :: !Covers(segs, x))
  }

  lemma {:induction false} NothingBuffered(states: seq<DirState>, oks: seq<bool>, segs: seq<Seg>, stream: seq<byte>,
                                           isn: u32, capacity: int)
    requires |stream| < HALF && 0 <= capacity < HALF && AllIn(segs, |stream|)
    requires IsRun(states, oks, segs, stream, isn, capacity) && forall x :: !Covers(segs, x)
    ensures states[|segs|].buf == []
  {
    hide SeqOf, Covers;
    RunShows(states, oks, segs, stream, isn, capacity);
    var t := TrackRun(segs, capacity, |stream|);
    if t.kept != [] {
      RunHolds(segs, capacity, |stream|, t.kept[0]);
    }
  }

  /** One direction's run: its states, its segments and the stream they are pieces of. */
  datatype Side = Side(
    states: seq<DirState>, oks: seq<bool>, segs: seq<Seg>, stream: seq<byte>, isn: u32, capacity: int, end: nat)
  {
    /** The segments cover the stream from its start up to `end`, and nothing was cut off. */
    ghost predicate Valid() {
      && |stream| < HALF && 0 <= capacity < HALF && AllIn(segs, |stream|)
      && IsRun(states, oks, segs, stream, isn, capacity)
      && !Last().truncated && Reaches(segs, end)
    }

    ghost function Last(): DirState
      requires AllIn(segs, |stream|) && IsRun(states, oks, segs, stream, isn, capacity)
    {
      states[|segs|]
    }

    lemma {:induction false} Buffered()
      requires Valid()
      ensures end <= |stream| && Last().buf == stream[..end]
    {
      hide SeqOf, FirstBlock;
      if FirstBlock(segs, 0, end) {
        BufferDetermined(states, oks, segs, stream, isn, capacity, 0, end);
      } else {
        NothingBuffered(states, oks, segs, stream, isn, capacity);
      }
    }
  }

  /** The reported request is what is said by the bytes received, and by the whole stream if they are complete. */
  ghost predicate ReqIsTrue(hd: Headers, req: ReqHead, received: seq<byte>, stream: seq<byte>) {
    var r := ParseReq(hd, received);
    && r.Parsed? && req == r.head
    && (r.ok && !OpenReq(hd, received) ==> ParseReq(hd, stream) == Parsed(req, true))
  }

  ghost predicate RespIsTrue(hd: Headers, resp: RespHead, received: seq<byte>, stream: seq<byte>) {
    var r := ParseResp(hd, received);
    && r.Parsed? && resp == r.head
    && (r.ok && !OpenResp(hd, Skipped(hd, received)) ==> ParseResp(hd, stream) == Parsed(resp, true))
  }

  /**
   Whenever a pair is reported, at the end of the connection or before, the event carries exactly
   what the bytes received say. Where they hold a complete message that is not framed by the end
   of the connection, that is also what the whole stream says, whatever follows. Before the end of
   the connection both messages are complete.
   */
  lemma {:induction false} EventIsTrue(hd: Headers, c: Conn, fin: bool, now: int, q: Side, p: Side)
    requires q.Valid() && p.Valid() && c.req == q.Last() && c.resp == p.Last()
    requires TryEmit(hd, c, fin, now).Report?
    ensures q.end <= |q.stream| && p.end <= |p.stream|
    ensures var ev := TryEmit(hd, c, fin, now).ev; var qr, pr := q.stream[..q.end], p.stream[..p.end];
      && ReqIsTrue(hd, ev.req, qr, q.stream) && RespIsTrue(hd, ev.resp, pr, p.stream)
      && !ev.reqTruncated && !ev.respTruncated
      && (!fin ==> ParseReq(hd, qr).ok && ParseResp(hd, pr).ok)
  {
    hide ParseReq, ParseResp, IsRun, Reaches, OpenReq, OpenResp, Skipped;
    q.Buffered();
    p.Buffered();
    var r, s := ParseReq(hd, c.req.buf), ParseResp(hd, c.resp.buf);
    if r.ok {
      ReqStable(hd, c.req.buf, q.stream[q.end..]);
    }
    if s.ok {
      RespStable(hd, c.resp.buf, p.stream[p.end..]);
    }
    assert q.stream[..q.end] + q.stream[q.end..] == q.stream;
    assert p.stream[..p.end] + p.stream[p.end..] == p.stream;
  }

  // ----- from the packets of a connection -----

  /** A run of one connection: its state before and after each packet, and what each packet reported. */
  datatype History = History(conns: seq<Option<Conn>>, events: seq<seq<Event>>)

  ghost predicate IsHistory(cfg: Config, trace: Trace, h: History) {
    && |h.conns| == |trace| + 1 && |h.events| == |trace| && h.conns[0] == None
    && forall i :: 0 <= i < |trace| ==> ConnStep(cfg, h.conns[i], trace[i], h.conns[i + 1], h.events[i])
  }

  function AllEvents(events: seq<seq<Event>>): seq<Event> {
    if events == [] then [] else AllEvents(events[..|events| - 1]) + events[|events| - 1]
  }

  /** What a connection can reach, it reaches by some history. */
  lemma {:induction false} HistoryOf(cfg: Config, trace: Trace, c: Option<Conn>, evs: seq<Event>) returns (h: History)
    requires ConnReached(cfg, trace, c, evs)
    ensures IsHistory(cfg, trace, h) && h.conns[|trace|] == c && AllEvents(h.events) == evs
  {
    hide ConnStep;
    if trace == [] {
      h := History([None], []);
    } else {
      var n := |trace| - 1;
      var c0: Option<Conn>, evs0: seq<Event>, e: seq<Event> :|
        ConnReached(cfg, trace[..n], c0, evs0) && ConnStep(cfg, c0, trace[n], c, e) && evs == evs0 + e;
      var g := HistoryOf(cfg, trace[..n], c0, evs0);
      h := History(g.conns + [c], g.events + [e]);
      assert h.events[..n] == g.events;
      forall i | 0 <= i < |trace|
        ensures ConnStep(cfg, h.conns[i], trace[i], h.conns[i + 1], h.events[i])
      {
        if i < n {
          assert ConnStep(cfg, g.conns[i], trace[..n][i], g.conns[i + 1], g.events[i]);
        }
      }
    }
  }

  /** What a stream is given of a packet. */
  datatype Taken = Taken(seqNo: u32, payload: seq<byte>)

  /** What the packets from number `from` up to number `to` give to the stream of one direction. */
  function TakenBy(cfg: Config, trace: Trace, conns: seq<Option<Conn>>, dir: Direction,
                   from: nat, upto: nat): seq<Taken>
    requires from <= upto <= |trace| <= |conns|
    decreases upto
  {
    if upto == from then [] else
    var a := trace[upto - 1].info;
    TakenBy(cfg, trace, conns, dir, from, upto - 1) +
    if DirectionOf(cfg, conns[upto - 1], a) == Some(dir) then [Taken(a.seqNo, a.payload)] else []
  }

  /** A run of one stream over what it is given. */
  ghost predicate Feeds(states: seq<DirState>, oks: seq<bool>, ts: seq<Taken>, capacity: int) {
    && |states| == |ts| + 1 && |oks| == |ts| && states[0] == EMPTY
    && forall i :: 0 <= i < |ts| ==>
         states[i].Sized() && states[i].Fed(ts[i].seqNo, ts[i].payload, capacity, states[i + 1], oks[i])
  }

  function StreamIn(c: Option<Conn>, dir: Direction): DirState {
    if c.Some? then StreamOf(c.value, dir) else EMPTY
  }

  /** The two connections have the same client and the same server. */
  predicate HasEndsOf(c: Conn, d: Conn) {
    && c.endpointsKnown == d.endpointsKnown
    && c.srcIP == d.srcIP && c.srcPort == d.srcPort && c.dstIP == d.dstIP && c.dstPort == d.dstPort
  }

  /** A packet with a direction feeds the stream of that direction and leaves the other one alone. */
  lemma {:induction false} StepFeeds(cfg: Config, c: Option<Conn>, a: Arrival, c': Option<Conn>, evs: seq<Event>)
    returns (u: Conn, ok: bool)
    requires ConnStep(cfg, c, a, c', evs) && DirectionOf(cfg, c, a.info).Some?
    ensures var dir := DirectionOf(cfg, c, a.info).value;
      && StreamIn(c, dir).Sized()
      && StreamIn(c, dir).Fed(a.info.seqNo, a.info.payload, CapOf(cfg, dir), StreamOf(u, dir), ok)
      && forall other: Direction :: other != dir ==> StreamOf(u, other) == StreamIn(c, other)
    ensures HasEndsOf(u, Touched(if c.Some? then c.value else FRESH, DirectionOf(cfg, c, a.info).value, a))
    ensures var out := if ok then TryEmit(cfg.hd, u, a.info.Fin(), a.now) else Keep;
      c' == out.Left(u) && evs == out.Events()
  {
    hide DirectionOf, ParseReq, ParseResp, DirState.Fed, DirState.Sized;
    var dir := DirectionOf(cfg, c, a.info).value;
    var t := Touched(if c.Some? then c.value else FRESH, dir, a);
    TouchedKeeps(if c.Some? then c.value else FRESH, dir, a);
    hide Touched;
    var d: DirState, k: bool :|
      StreamOf(t, dir).Fed(a.info.seqNo, a.info.payload, CapOf(cfg, dir), d, k) &&
      Settles(cfg, t, dir, a, d, k, c', evs);
    u, ok := WithStream(t, dir, d), k;
    SettlesBy(cfg, t, dir, a, d, k, c', evs);
  }

  lemma {:induction false} SettlesBy(cfg: Config, t: Conn, dir: Direction, a: Arrival, d: DirState, ok: bool,
                                     c': Option<Conn>, evs: seq<Event>)
    requires Settles(cfg, t, dir, a, d, ok, c', evs)
    ensures var u := WithStream(t, dir, d); var out := if ok then TryEmit(cfg.hd, u, a.info.Fin(), a.now) else Keep;
      c' == out.Left(u) && evs == out.Events()
  {
  }

  lemma {:induction false} FeedsOneMore(states: seq<DirState>, oks: seq<bool>, ts: seq<Taken>, capacity: int,
                                        t: Taken, d: DirState, ok: bool)
    requires Feeds(states, oks, ts, capacity)
    requires states[|ts|].Sized() && states[|ts|].Fed(t.seqNo, t.payload, capacity, d, ok)
    ensures Feeds(states + [d], oks + [ok], ts + [t], capacity)
  {
    hide DirState.Fed, DirState.Sized;
  }

  /** The packet numbered `n` adds to the run of a stream if it is for that stream. */
  lemma {:induction false} FeedsPacket(cfg: Config, trace: Trace, conns: seq<Option<Conn>>, dir: Direction,
                                       from: nat, n: nat, states: seq<DirState>, oks: seq<bool>,
                                       u: Conn, ok: bool)
    returns (states': seq<DirState>, oks': seq<bool>)
    requires from <= n < |trace| < |conns| && DirectionOf(cfg, conns[n], trace[n].info).Some?
    requires var d, a := DirectionOf(cfg, conns[n], trace[n].info).value, trace[n].info;
      && StreamIn(conns[n], d).Sized()
      && StreamIn(conns[n], d).Fed(a.seqNo, a.payload, CapOf(cfg, d), StreamOf(u, d), ok)
      && forall other: Direction :: other != d ==> StreamOf(u, other) == StreamIn(conns[n], other)
    requires Feeds(states, oks, TakenBy(cfg, trace, conns, dir, from, n), CapOf(cfg, dir))
    requires states[|states| - 1] == StreamIn(conns[n], dir)
    ensures Feeds(states', oks', TakenBy(cfg, trace, conns, dir, from, n + 1), CapOf(cfg, dir))
    ensures states'[|states'| - 1] == StreamOf(u, dir)
    ensures DirectionOf(cfg, conns[n], trace[n].info) == Some(dir) ==> oks' != [] && oks'[|oks'| - 1] == ok
  {
    hide DirectionOf, DirState.Fed, DirState.Sized, StreamIn;
    var ts, a := TakenBy(cfg, trace, conns, dir, from, n), trace[n].info;
    if DirectionOf(cfg, conns[n], a) == Some(dir) {
      FeedsOneMore(states, oks, ts, CapOf(cfg, dir), Taken(a.seqNo, a.payload), StreamOf(u, dir), ok);
      states', oks' := states + [StreamOf(u, dir)], oks + [ok];
    } else {
      states', oks' := states, oks;
      assert TakenBy(cfg, trace, conns, dir, from, n + 1) == ts;
    }
  }

  /** While a connection lives, each of its streams has run over what its packets gave it. */
  lemma {:induction false} Lived(cfg: Config, trace: Trace, h: History, dir: Direction, from: nat, upto: nat)
    returns (states: seq<DirState>, oks: seq<bool>)
    requires IsHistory(cfg, trace, h) && Lives(h, from, upto)
    ensures Feeds(states, oks, TakenBy(cfg, trace, h.conns, dir, from, upto), CapOf(cfg, dir))
    ensures states[|states| - 1] == StreamIn(h.conns[upto], dir)
    decreases upto
  {
    hide DirectionOf, DirState.Fed, DirState.Sized, TryEmit, ConnStep;
    if upto == from {
      states, oks := [EMPTY], [];
    } else {
      states, oks := Lived(cfg, trace, h, dir, from, upto - 1);
      hide Feeds;
      var c, a := h.conns[upto - 1], trace[upto - 1];
      assert ConnStep(cfg, c, a, h.conns[upto - 1 + 1], h.events[upto - 1]);
      if DirectionOf(cfg, c, a.info).None? {
        Undirected(cfg, c, a, h.conns[upto], h.events[upto - 1]);
        assert TakenBy(cfg, trace, h.conns, dir, from, upto) == TakenBy(cfg, trace, h.conns, dir, from, upto - 1);
      } else {
        var u, ok := StepFeeds(cfg, c, a, h.conns[upto], h.events[upto - 1]);
        states, oks := FeedsPacket(cfg, trace, h.conns, dir, from, upto - 1, states, oks, u, ok);
      }
    }
  }

  lemma {:induction false} Undirected(cfg: Config, c: Option<Conn>, a: Arrival, c': Option<Conn>, evs: seq<Event>)
    requires ConnStep(cfg, c, a, c', evs) && DirectionOf(cfg, c, a.info).None?
    ensures c' == c && evs == []
  {
  }

  /** The connection came up with packet number `from` and is in the table until packet number `to`. */
  ghost predicate Lives(h: History, from: nat, upto: nat) {
    from <= upto < |h.conns| && h.conns[from] == None && forall i :: from < i <= upto ==> h.conns[i].Some?
  }

  /** What a stream is given are pieces of a byte stream. */
  ghost predicate PiecesOf(ts: seq<Taken>, segs: seq<Seg>, stream: seq<byte>, isn: u32) {
    && |segs| == |ts| && AllIn(segs, |stream|)
    && forall i :: 0 <= i < |ts| ==>
         ts[i] == Taken(SeqOf(isn, segs[i].off), stream[segs[i].off..segs[i].off + segs[i].len])
  }

  lemma {:induction false} PiecesRun(states: seq<DirState>, oks: seq<bool>, ts: seq<Taken>, capacity: int,
                                     segs: seq<Seg>, stream: seq<byte>, isn: u32)
    requires Feeds(states, oks, ts, capacity) && PiecesOf(ts, segs, stream, isn)
    ensures IsRun(states, oks, segs, stream, isn, capacity)
  {
    hide DirState.Fed, DirState.Sized, SeqOf;
  }

  /** One direction of a connection on the wire: the byte stream, and how its segments cut it. */
  datatype Wire = Wire(segs: seq<Seg>, stream: seq<byte>, isn: u32, end: nat) {
    /** The packets taken carry pieces of this stream that cover it up to `end`. */
    ghost predicate Carries(ts: seq<Taken>) {
      |stream| < HALF && PiecesOf(ts, segs, stream, isn) && Reaches(segs, end)
    }

    /** The part that has been covered. */
    function Received(): seq<byte> {
      if end <= |stream| then stream[..end] else stream
    }
  }

  /**
   From the packets on the wire to the report. Take any history of a connection, from the packet
   it came up with to packet number `n`, which makes it report, whether it ends the connection or
   not. If the packets taken in each direction are pieces of a byte stream from its start on, and
   the event says that nothing was cut off, then the event is what the bytes received say; and
   where they hold a complete message that is not framed by the end of the connection, it is what
   the whole stream says.
   */
  lemma {:induction false} ReportIsTrue(cfg: Config, trace: Trace, h: History, from: nat, n: nat, ev: Event,
                                        q: Wire, p: Wire)
    requires cfg.Valid() && IsHistory(cfg, trace, h) && n < |trace| && Lives(h, from, n)
    requires h.events[n] == [ev] && !ev.reqTruncated && !ev.respTruncated
    requires q.Carries(TakenBy(cfg, trace, h.conns, Request, from, n + 1))
    requires p.Carries(TakenBy(cfg, trace, h.conns, Response, from, n + 1))
    ensures q.end <= |q.stream| && p.end <= |p.stream|
    ensures ReqIsTrue(cfg.hd, ev.req, q.Received(), q.stream)
    ensures RespIsTrue(cfg.hd, ev.resp, p.Received(), p.stream)
    ensures !trace[n].info.Fin() ==> ParseReq(cfg.hd, q.Received()).ok && ParseResp(cfg.hd, p.Received()).ok
  {
    hide DirectionOf, ConnStep, ParseReq, ParseResp, ReqIsTrue, RespIsTrue, Reaches, IsRun, PiecesOf, Feeds;
    hide DirState.Fed, DirState.Sized;
    var c, a := h.conns[n], trace[n];
    assert ConnStep(cfg, c, a, h.conns[n + 1], h.events[n]);
    if DirectionOf(cfg, c, a.info).None? {
      Undirected(cfg, c, a, h.conns[n + 1], h.events[n]);
    }
    var u, ok := StepFeeds(cfg, c, a, h.conns[n + 1], h.events[n]);
    ReportedCut(cfg.hd, u, a.info.Fin(), a.now, ev);
    var qs := SideOf(cfg, trace, h, Request, from, n, u, ok, q);
    var ps := SideOf(cfg, trace, h, Response, from, n, u, ok, p);
    qs.Buffered();
    ps.Buffered();
    EventIsTrue(cfg.hd, u, a.info.Fin(), a.now, qs, ps);
  }

  lemma {:induction false} ReportedCut(hd: Headers, u: Conn, fin: bool, now: int, ev: Event)
    requires TryEmit(hd, u, fin, now) == Report(ev)
    ensures ev.reqTruncated == u.req.truncated && ev.respTruncated == u.resp.truncated
  {
    hide ParseReq, ParseResp;
  }

  /** Packet number `n` feeds the stream of its direction, which becomes that of `u`, and no other. */
  ghost predicate FeedsTo(cfg: Config, trace: Trace, conns: seq<Option<Conn>>, n: nat, u: Conn, ok: bool)
    requires n < |trace| < |conns|
  {
    var dir, a := DirectionOf(cfg, conns[n], trace[n].info), trace[n].info;
    && dir.Some?
    && StreamIn(conns[n], dir.value).Sized()
    && StreamIn(conns[n], dir.value).Fed(a.seqNo, a.payload, CapOf(cfg, dir.value), StreamOf(u, dir.value), ok)
    && forall other: Direction :: other != dir.value ==> StreamOf(u, other) == StreamIn(conns[n], other)
  }

  /** The run that one stream has behind it when packet number `n` has been taken. */
  lemma {:induction false} RunOf(cfg: Config, trace: Trace, h: History, dir: Direction, from: nat, n: nat,
                                 u: Conn, ok: bool, w: Wire)
    returns (states: seq<DirState>, oks: seq<bool>)
    requires cfg.Valid() && IsHistory(cfg, trace, h) && n < |trace| && Lives(h, from, n)
    requires FeedsTo(cfg, trace, h.conns, n, u, ok)
    requires w.Carries(TakenBy(cfg, trace, h.conns, dir, from, n + 1))
    ensures AllIn(w.segs, |w.stream|) && IsRun(states, oks, w.segs, w.stream, w.isn, CapOf(cfg, dir))
    ensures states[|w.segs|] == StreamOf(u, dir)
    ensures DirectionOf(cfg, h.conns[n], trace[n].info) == Some(dir) ==> oks != [] && oks[|oks| - 1] == ok
  {
    hide DirectionOf, Reaches, IsRun, PiecesOf, Feeds, DirState.Fed, DirState.Sized, ConnStep;
    states, oks := Lived(cfg, trace, h, dir, from, n);
    states, oks := FeedsPacket(cfg, trace, h.conns, dir, from, n, states, oks, u, ok);
    var ts := TakenBy(cfg, trace, h.conns, dir, from, n + 1);
    assert |w.segs| == |ts| == |states| - 1 && AllIn(w.segs, |w.stream|) by {
      PiecesFit(states, oks, ts, CapOf(cfg, dir), w.segs, w.stream, w.isn);
    }
    PiecesRun(states, oks, ts, CapOf(cfg, dir), w.segs, w.stream, w.isn);
  }

  lemma {:induction false} SideOf(cfg: Config, trace: Trace, h: History, dir: Direction, from: nat, n: nat,
                                  u: Conn, ok: bool, w: Wire)
    returns (side: Side)
    requires cfg.Valid() && IsHistory(cfg, trace, h) && n < |trace| && Lives(h, from, n)
    requires FeedsTo(cfg, trace, h.conns, n, u, ok)
    requires w.Carries(TakenBy(cfg, trace, h.conns, dir, from, n + 1)) && !StreamOf(u, dir).truncated
    ensures side.Valid() && side.Last() == StreamOf(u, dir) && side.stream == w.stream && side.end == w.end
  {
    hide DirectionOf, FeedsTo, Reaches, IsRun, PiecesOf, IsHistory, Lives, TakenBy;
    var states, oks := RunOf(cfg, trace, h, dir, from, n, u, ok, w);
    side := Side(states, oks, w.segs, w.stream, w.isn, CapOf(cfg, dir), w.end);
  }

  lemma {:induction false} PiecesFit(states: seq<DirState>, oks: seq<bool>, ts: seq<Taken>, capacity: int,
                                     segs: seq<Seg>, stream: seq<byte>, isn: u32)
    requires Feeds(states, oks, ts, capacity) && PiecesOf(ts, segs, stream, isn)
    ensures |segs| == |ts| == |states| - 1 && AllIn(segs, |stream|)
  {
  }
}
