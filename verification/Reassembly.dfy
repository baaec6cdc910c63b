/** The table of connections, updated in place for every captured TCP segment. */
module Reassembly {
  import opened Base
  import opened DirStreams
  import opened HttpFraming
  import opened ConnTable

  class Reassembler {
    const cfg: Config
    var conns: Table
    var emitted: seq<Event>  // the events handed to the `emit` callback, in order

    ghost predicate Valid()
      reads this
    {
      cfg.Valid() && AllBounded(cfg, conns)
    }

    constructor (cfg: Config)
      requires cfg.Valid()
      ensures Valid() && this.cfg == cfg && conns == map[] && emitted == []
    {
      this.cfg := cfg;
      conns, emitted := map[], [];
    }

    method EvictOldest()
      requires Valid()
      modifies this`conns
      ensures Valid() && Evicted(old(conns), conns)
    {
      hide BoundedConn;
      var oldK, oldT := ZERO_KEY, LATE;
      var rest := conns.Keys;
      while rest != {}
        invariant rest <= conns.Keys
        invariant oldT == LATE ==> oldK == ZERO_KEY
        invariant oldT < LATE ==> oldK in conns && conns[oldK].lastSeen == oldT
        invariant oldT <= LATE
        invariant forall j :: j in conns && j !in rest ==> oldT <= conns[j].lastSeen
      {
        var k :| k in rest;
        rest := rest - {k};
        if conns[k].lastSeen < oldT {
          oldT, oldK := conns[k].lastSeen, k;
        }
      }
      conns := conns - {oldK};
    }

    /** The direction of a packet, looked up against the connection it belongs to. */
    method Classify(key: ConnKey, info: L4Info) returns (dir: Option<Direction>)
      ensures dir == DirectionOf(cfg, Get(conns, key), info)
    {
      var reqDir, respDir := PortMatch(cfg.ports, info.dstPort), PortMatch(cfg.ports, info.srcPort);
      if !reqDir && !respDir {
        return None;
      }
      if key in conns && conns[key].endpointsKnown {
        var s := conns[key];
        if info.srcIP == s.srcIP && info.srcPort == s.srcPort {
          reqDir, respDir := true, false;
        } else if info.srcIP == s.dstIP && info.srcPort == s.dstPort {
          reqDir, respDir := false, true;
        }
      }
      if reqDir && respDir {
        if RESPONSE_START <= info.payload {
          reqDir := false;
        } else if LooksLikeRequest(info.payload) {
          respDir := false;
        } else {
          return None;
        }
      }
      return if reqDir then Some(Request) else Some(Response);
    }

    /** Reports and forgets the connection if it is finished with. */
    method EmitIfDone(key: ConnKey, fin: bool, now: int)
      requires Valid() && key in conns
      modifies this
      ensures Valid()
      ensures var c := old(conns[key]); var out := TryEmit(cfg.hd, c, fin, now);
        conns == Put(old(conns), key, out.Left(c)) && emitted == old(emitted) + out.Events()
    {
      hide BoundedConn, ParseReq, ParseResp;
      var s := conns[key];
      assert conns == conns[key := s];
      var r := ParseReq(cfg.hd, s.req.buf);
      if r.Broken? || (!r.ok && !fin) {
        return;
      }
      var p := ParseResp(cfg.hd, s.resp.buf);
      if p.Broken? || (!p.ok && !fin) {
        return;
      }
      if !(r.head.verb == [] && p.head.status == 0) {
        emitted := emitted +
          [Event(s.srcIP, s.dstIP, s.dstPort, r.head, p.head, s.req.truncated, s.resp.truncated, now)];
      }
      conns := conns - {key};
    }

    /** Takes one TCP segment. */
    method Feed(a: Arrival)
      requires Valid()
      modifies this
      ensures Valid()
      ensures old(emitted) <= emitted
      ensures TableStep(cfg, old(conns), a, conns, emitted[|old(emitted)|..])
    {
      hide BoundedConn, DirectionOf, Touched, TryEmit, Evicted, TableStep, DirState.Fed, DirState.Sized;
      ghost var t := conns;
      var key := KeyOf(a.info);
      var dir := Classify(key, a.info);
      if dir.None? {
        Ignored(cfg, t, a);
        assert emitted[|old(emitted)|..] == [];
        return;
      }
      var c := FRESH;
      if key in conns {
        c := conns[key];
      } else if |conns| >= cfg.maxConn {
        EvictOldest();
      }
      ghost var r := conns;
      var u := Touched(c, dir.value, a);
      Ready(cfg, t, key, dir.value, a);
      var ok, d := Take(u, dir.value, a);
      u := WithStream(u, dir.value, d);
      AllBoundedPut(cfg, r, key, u);
      conns := conns[key := u];
      ghost var out := if ok then TryEmit(cfg.hd, u, a.info.Fin(), a.now) else Keep;
      if ok {
        EmitIfDone(key, a.info.Fin(), a.now);
      }
      assert emitted[|old(emitted)|..] == out.Events();
      PutTwice(r, key, u, out);
      Stepped(cfg, t, r, a, dir.value, d, ok, out);
    }

    /** Gives the packet's bytes to the stream they belong to, in a stream object of its own. */
    method Take(c: Conn, dir: Direction, a: Arrival) returns (ok: bool, d: DirState)
      requires cfg.Valid() && BoundedConn(cfg, c)
      ensures StreamOf(c, dir).Sized()
      ensures StreamOf(c, dir).Fed(a.info.seqNo, a.info.payload, CapOf(cfg, dir), d, ok)
      ensures BoundedConn(cfg, WithStream(c, dir, d))
    {
      hide DirState.Fed, DirState.Bounded, DirState.Sized;
      var s := new DirStream.Restore(StreamOf(c, dir));
      ok := s.AppendSeg(a.info.seqNo, a.info.payload, CapOf(cfg, dir));
      d := s.State();
    }
  }

  lemma {:induction false} PutTwice(r: Table, k: ConnKey, u: Conn, out: Outcome)
    ensures Put(r[k := u], k, out.Left(u)) == Put(r, k, out.Left(u))
  {
    assert r[k := u] - {k} == r - {k};
  }

  lemma {:induction false} Ready(cfg: Config, t: Table, k: ConnKey, dir: Direction, a: Arrival)
    requires cfg.Valid() && AllBounded(cfg, t)
    ensures BoundedConn(cfg, Touched(if k in t then t[k] else FRESH, dir, a))
  {
    SumEmpty(EMPTY.pending, ByteLen);
    TouchedKeeps(if k in t then t[k] else FRESH, dir, a);
  }

  lemma {:induction false} AllBoundedPut(cfg: Config, t: Table, k: ConnKey, c: Conn)
    requires AllBounded(cfg, t) && BoundedConn(cfg, c)
    ensures AllBounded(cfg, t[k := c])
  {
    hide BoundedConn;
  }

  /** The pieces of one `Feed`, put together. */
  lemma {:induction false} Stepped(cfg: Config, t: Table, r: Table, a: Arrival, dir: Direction, d: DirState,
                                   ok: bool, out: Outcome)
    requires var k := KeyOf(a.info);
      && DirectionOf(cfg, Get(t, k), a.info) == Some(dir)
      && (if k !in t && |t| >= cfg.maxConn then Evicted(t, r) else r == t)
      && var c := Touched(if k in t then t[k] else FRESH, dir, a);
      && StreamOf(c, dir).Sized()
      && StreamOf(c, dir).Fed(a.info.seqNo, a.info.payload, CapOf(cfg, dir), d, ok)
      && out == (if ok then TryEmit(cfg.hd, WithStream(c, dir, d), a.info.Fin(), a.now) else Keep)
    ensures var k := KeyOf(a.info);
      var u := WithStream(Touched(if k in t then t[k] else FRESH, dir, a), dir, d);
      TableStep(cfg, t, a, Put(r, k, out.Left(u)), out.Events())
  {
    var k := KeyOf(a.info);
    var oc := Get(t, k);
    var c := Touched(if oc.Some? then oc.value else FRESH, dir, a);
    var u := WithStream(c, dir, d);
    assert Settles(cfg, c, dir, a, d, ok, out.Left(u), out.Events());
    assert ConnStep(cfg, oc, a, out.Left(u), out.Events());
  }

  /** A packet without a direction leaves the table as it is. */
  lemma {:induction false} Ignored(cfg: Config, t: Table, a: Arrival)
    requires DirectionOf(cfg, Get(t, KeyOf(a.info)), a.info).None?
    ensures TableStep(cfg, t, a, t, [])
  {
    var k := KeyOf(a.info);
    assert ConnStep(cfg, Get(t, k), a, Get(t, k), []);
    assert Put(t, k, Get(t, k)) == t;
  }
}
