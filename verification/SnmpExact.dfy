/**
 The walk against an agent that answers GETBULK as section 4.2.3 of RFC 3416 says: the table
 it returns is the one in the agent's sorted data.
 */
module SnmpExact {
  import opened Base
  import opened OidOrder
  import opened SnmpWalk

  type Mib = map<Oid, Value>

  /** Instances of the walked columns have a single index, and stored values are no exceptions. */
  ghost predicate SingleIndex(mib: Mib, cols: seq<Oid>) {
    && (forall o, i :: o in mib && 0 <= i < |cols| && HasPrefix(o, cols[i]) ==> |o| == |cols[i]| + 1)
    && (forall o :: o in mib ==> mib[o].exc != END_OF_MIB_VIEW)
  }

  predicate After(mib: Mib, prev: Oid, o: Oid) {
    o in mib && LexLess(prev, o)
  }

  /** `vb` is what follows the name `prev`: the next stored variable, or the end of the view. */
  ghost predicate Follows(mib: Mib, prev: Oid, vb: VarBind) {
    if exists o :: After(mib, prev, o)
    then After(mib, prev, vb.oid) && vb.value == mib[vb.oid] &&
         forall o: Oid :: After(mib, prev, o) ==> o == vb.oid || LexLess(vb.oid, o)
    else vb.oid == prev && vb.value.exc == END_OF_MIB_VIEW
  }

  /** The name that binding number `v` of a response follows: the request, or the binding one repetition before. */
  function Prev(names: seq<Oid>, vbs: seq<VarBind>, v: nat): Oid
    requires names != [] && v < |vbs| + |names|
  {
    if v < |names| then names[v] else vbs[v - |names|].oid
  }

  /** A response of repetitions in order, with at least one full repetition, cut anywhere after it. */
  ghost predicate Conforms(mib: Mib, names: seq<Oid>, vbs: seq<VarBind>) {
    && names != [] && |names| <= |vbs|
    && forall v :: 0 <= v < |vbs| ==> Follows(mib, Prev(names, vbs, v), vbs[v])
  }

  /** The agent answers every request, with conforming bindings or with "too big". */
  ghost predicate Answers(agent: Agent, mib: Mib) {
    forall round: nat, rep: nat, names: seq<Oid> :: names != [] ==>
      var r := agent(round, rep, names);
      r.Pdu? && (r.errStatus == 1 || (r.errStatus == 0 && Conforms(mib, names, r.varbinds)))
  }

  /** The row indices of a column. */
  function Rows(mib: Mib, col: Oid): set<u32> {
    set o | o in mib && |o| == |col| + 1 && HasPrefix(o, col) :: o[|o| - 1]
  }

  function RowOid(col: Oid, i: u32): Oid {
    col + [i]
  }

  lemma {:induction false} RowsAreStored(mib: Mib, col: Oid, i: u32)
    ensures i in Rows(mib, col) <==> RowOid(col, i) in mib
  {
    var o := RowOid(col, i);
    if i in Rows(mib, col) {
      var p :| p in mib && |p| == |col| + 1 && HasPrefix(p, col) && p[|p| - 1] == i;
      assert p == o;
    }
    assert o[|o| - 1] == i && HasPrefix(o, col);
  }

  /** The rows of a column up to and including the name `o`. */
  function Seen(mib: Mib, col: Oid, o: Oid): set<u32> {
    set i | i in Rows(mib, col) && !LexLess(o, RowOid(col, i))
  }

  // ----- the invariant -----

  ghost predicate Correct(mib: Mib, cols: seq<Oid>, t: Table) {
    && (forall i, col :: Holds(t, i, col) ==> col in cols && RowOid(col, i) in mib && t[i][col] == mib[RowOid(col, i)])
    && (forall i :: i in t ==> t[i] != map[])
  }

  ghost predicate HasRows(t: Table, col: Oid, rows: set<u32>) {
    forall i :: i in rows ==> Holds(t, i, col)
  }

  /** What is known of column `ci`: the rows up to its name are in the table, or all of them once it stopped. */
  ghost predicate ColumnOK(mib: Mib, cols: seq<Oid>, w: Walk, ci: nat)
    requires w.Fits(cols) && ci < |cols|
  {
    && HasPrefix(w.starts[ci], cols[ci])
    && HasRows(w.table, cols[ci], Seen(mib, cols[ci], w.starts[ci]))
    && (!w.active[ci] ==> HasRows(w.table, cols[ci], Rows(mib, cols[ci])))
  }

  ghost predicate WalkOK(mib: Mib, cols: seq<Oid>, w: Walk) {
    && w.Fits(cols)
    && Correct(mib, cols, w.table)
    && forall ci :: 0 <= ci < |cols| ==> ColumnOK(mib, cols, w, ci)
  }

  // ----- one binding -----

  /** If what follows leaves the subtree, every row of the column has been passed. */
  lemma {:induction false} AllSeen(mib: Mib, cols: seq<Oid>, ci: nat, prev: Oid, vb: VarBind)
    requires SingleIndex(mib, cols) && ci < |cols| && HasPrefix(prev, cols[ci]) && Follows(mib, prev, vb)
    requires vb.value.exc == END_OF_MIB_VIEW || !HasPrefix(vb.oid, cols[ci])
    ensures Seen(mib, cols[ci], prev) == Rows(mib, cols[ci])
  {
    var col := cols[ci];
    forall i | i in Rows(mib, col)
      ensures !LexLess(prev, RowOid(col, i))
    {
      RowsAreStored(mib, col, i);
      var o := RowOid(col, i);
      if LexLess(prev, o) {
        assert After(mib, prev, o);
        if o != vb.oid {
          PrefixBetween(col, prev, vb.oid, o);
        }
      }
    }
  }

  /** If what follows is a row of the column, that row and no other is newly passed. */
  lemma {:induction false} OneMoreSeen(mib: Mib, cols: seq<Oid>, ci: nat, prev: Oid, vb: VarBind)
    requires SingleIndex(mib, cols) && ci < |cols| && Follows(mib, prev, vb)
    requires vb.value.exc != END_OF_MIB_VIEW && HasPrefix(vb.oid, cols[ci])
    ensures var i := vb.oid[|vb.oid| - 1];
      && vb.oid == RowOid(cols[ci], i) && vb.value == mib[vb.oid]
      && i in Rows(mib, cols[ci]) && i !in Seen(mib, cols[ci], prev)
      && Seen(mib, cols[ci], vb.oid) == Seen(mib, cols[ci], prev) + {i}
  {
    var col, o := cols[ci], vb.oid;
    assert After(mib, prev, o);
    assert |o| == |col| + 1;
    var i := o[|o| - 1];
    assert o == RowOid(col, i);
    RowsAreStored(mib, col, i);
    forall j | j in Rows(mib, col)
      ensures j in Seen(mib, col, o) <==> j in Seen(mib, col, prev) || j == i
    {
      RowsAreStored(mib, col, j);
      var p := RowOid(col, j);
      LexTrichotomy(o, p);
      LexTrichotomy(prev, p);
      if LexLess(prev, p) {
        assert After(mib, prev, p);
        assert p == o ==> p[|p| - 1] == i;
      } else if LexLess(o, p) {
        LexTransitive(prev, o, p);
      }
    }
  }

  lemma {:induction false} CellCorrect(mib: Mib, cols: seq<Oid>, t: Table, ci: nat, i: u32)
    requires Correct(mib, cols, t) && ci < |cols|
    requires RowOid(cols[ci], i) in mib
    ensures var u := WithCell(t, i, cols[ci], mib[RowOid(cols[ci], i)]);
      && Correct(mib, cols, u)
      && Holds(u, i, cols[ci])
      && forall j: u32, col: Oid :: Holds(t, j, col) ==> Holds(u, j, col)
  {
    var u := WithCell(t, i, cols[ci], mib[RowOid(cols[ci], i)]);
    forall j: u32, col: Oid | Holds(u, j, col)
      ensures col in cols && RowOid(col, j) in mib && u[j][col] == mib[RowOid(col, j)]
    {
      if j != i || col != cols[ci] {
        assert Holds(t, j, col) && u[j][col] == t[j][col];
      }
    }
    assert cols[ci] in u[i];
  }

  /** From `r` to `s` only column `ci` changed; if it goes on it stands at `o` and has gained a row. */
  ghost predicate Moved(mib: Mib, cols: seq<Oid>, r: Round, s: Round, ci: nat, o: Oid)
    requires r.Fits(cols) && s.Fits(cols) && ci < |cols|
  {
    && (forall i :: 0 <= i < |cols| && i != ci ==>
          s.w.starts[i] == r.w.starts[i] && s.w.active[i] == r.w.active[i] && s.progressed[i] == r.progressed[i])
    && (s.w.active[ci] ==> r.w.active[ci] && s.progressed[ci] && s.w.starts[ci] == o)
    && |Seen(mib, cols[ci], r.w.starts[ci])| <= |Seen(mib, cols[ci], s.w.starts[ci])|
    && (s.w.active[ci] ==> |Seen(mib, cols[ci], r.w.starts[ci])| < |Seen(mib, cols[ci], s.w.starts[ci])|)
  }

  /** One binding that follows its column's name keeps the invariant and moves the column on. */
  lemma {:induction false} TakeOK(mib: Mib, cols: seq<Oid>, r: Round, ci: nat, vb: VarBind)
    requires SingleIndex(mib, cols) && ValidCols(cols) && r.Fits(cols) && WalkOK(mib, cols, r.w) && ci < |cols|
    requires r.w.active[ci] ==> Follows(mib, r.w.starts[ci], vb)
    ensures WalkOK(mib, cols, r.Take(cols, ci, vb).w)
    ensures Moved(mib, cols, r, r.Take(cols, ci, vb), ci, vb.oid)
  {
    hide Seen, Rows, Follows, Correct, SingleIndex;
    var s := r.Take(cols, ci, vb);
    if r.w.active[ci] {
      var prev := r.w.starts[ci];
      assert ColumnOK(mib, cols, r.w, ci);
      if vb.value.exc == END_OF_MIB_VIEW || !HasPrefix(vb.oid, cols[ci]) {
        AllSeen(mib, cols, ci, prev, vb);
        assert ColumnOK(mib, cols, s.w, ci);
      } else {
        OneMoreSeen(mib, cols, ci, prev, vb);
        var i := vb.oid[|vb.oid| - 1];
        RowsAreStored(mib, cols[ci], i);
        CellCorrect(mib, cols, r.w.table, ci, i);
        assert |Seen(mib, cols[ci], prev) + {i}| == |Seen(mib, cols[ci], prev)| + 1;
      }
      forall j | 0 <= j < |cols|
        ensures ColumnOK(mib, cols, s.w, j)
      {
        assert ColumnOK(mib, cols, r.w, j);
      }
    }
  }

  // ----- one round -----

  /** Each column of the request stands, before binding `v`, at the name that its next binding follows. */
  ghost predicate Aligned(r: Round, cols: seq<Oid>, idx: seq<nat>, names: seq<Oid>, vbs: seq<VarBind>, v: nat)
    requires r.Fits(cols) && ValidIdx(cols, idx) && |names| == |idx| && v <= |vbs|
  {
    forall u {:trigger Prev(names, vbs, u)} :: v <= u < v + |idx| && r.w.active[idx[u % |idx|]] ==>
      r.w.starts[idx[u % |idx|]] == Prev(names, vbs, u)
  }

  /** Column `ci` has lost nothing since `w`, and has gained rows if it is marked so. */
  ghost predicate Grown(mib: Mib, cols: seq<Oid>, w: Walk, r: Round, ci: nat)
    requires w.Fits(cols) && r.Fits(cols) && ci < |cols|
  {
    var before, now := |Seen(mib, cols[ci], w.starts[ci])|, |Seen(mib, cols[ci], r.w.starts[ci])|;
    && before <= now
    && (r.w.active[ci] ==> w.active[ci])
    && (r.w.active[ci] && r.progressed[ci] ==> before < now)
  }

  /** Every column that goes on and had its turn within `v` bindings is marked. */
  ghost predicate Marked(r: Round, cols: seq<Oid>, idx: seq<nat>, v: nat)
    requires r.Fits(cols) && ValidIdx(cols, idx)
  {
    forall p :: 0 <= p < Min(v, |idx|) && r.w.active[idx[p]] ==> r.progressed[idx[p]]
  }

  ghost predicate RoundOK(mib: Mib, cols: seq<Oid>, w: Walk, r: Round, idx: seq<nat>, names: seq<Oid>,
                          vbs: seq<VarBind>, v: nat)
    requires w.Fits(cols) && r.Fits(cols) && ValidIdx(cols, idx) && |names| == |idx| && v <= |vbs|
  {
    && WalkOK(mib, cols, r.w)
    && Aligned(r, cols, idx, names, vbs, v)
    && (forall ci :: 0 <= ci < |cols| ==> Grown(mib, cols, w, r, ci))
    && Marked(r, cols, idx, v)
  }

  lemma {:induction false} ModDistinct(u: nat, v: nat, n: nat)
    requires v < u < v + n
    ensures u % n != v % n
  {
    var k := u / n - v / n;
    assert u == u / n * n + u % n && v == v / n * n + v % n;
    assert k * n == u / n * n - v / n * n;
    MulSign(k, n);
  }

  lemma {:induction false} ModSame(v: nat, n: nat)
    requires 0 < n
    ensures (v + n) % n == v % n && (v < n ==> v % n == v)
  {
    assert v == v / n * n + v % n;
    assert (v / n + 1) * n == v / n * n + n;
    DivModIs(v + n, v / n + 1, v % n, n);
    if v < n {
      DivModIs(v, 0, v, n);
    }
  }

  lemma {:induction false} AlignedStep(mib: Mib, r: Round, s: Round, cols: seq<Oid>, idx: seq<nat>,
                                       names: seq<Oid>, vbs: seq<VarBind>, v: nat)
    requires r.Fits(cols) && s.Fits(cols) && ValidIdx(cols, idx) && |names| == |idx| && v < |vbs|
    requires forall p, q :: 0 <= p < q < |idx| ==> idx[p] < idx[q]
    requires Aligned(r, cols, idx, names, vbs, v)
    requires Moved(mib, cols, r, s, idx[v % |idx|], vbs[v].oid)
    ensures Aligned(s, cols, idx, names, vbs, v + 1)
  {
    var n := |idx|;
    forall u | v + 1 <= u < v + 1 + n && s.w.active[idx[u % n]]
      ensures s.w.starts[idx[u % n]] == Prev(names, vbs, u)
    {
      if u == v + n {
        ModSame(v, n);
      } else {
        ModDistinct(u, v, n);
        var p, q := u % n, v % n;
        assert idx[p] != idx[q] by {
          if p < q {} else {}
        }
        assert r.w.starts[idx[p]] == Prev(names, vbs, u);
      }
    }
  }

  lemma {:induction false} GrownStep(mib: Mib, cols: seq<Oid>, w: Walk, r: Round, s: Round, ci: nat, o: Oid)
    requires w.Fits(cols) && r.Fits(cols) && s.Fits(cols) && ci < |cols| && Moved(mib, cols, r, s, ci, o)
    requires forall i :: 0 <= i < |cols| ==> Grown(mib, cols, w, r, i)
    ensures forall i :: 0 <= i < |cols| ==> Grown(mib, cols, w, s, i)
  {
    hide Seen;
    forall i | 0 <= i < |cols|
      ensures Grown(mib, cols, w, s, i)
    {
      assert Grown(mib, cols, w, r, i);
    }
  }

  lemma {:induction false} MarkedStep(mib: Mib, cols: seq<Oid>, r: Round, s: Round, idx: seq<nat>, v: nat, o: Oid)
    requires r.Fits(cols) && s.Fits(cols) && ValidIdx(cols, idx)
    requires Moved(mib, cols, r, s, idx[v % |idx|], o) && Marked(r, cols, idx, v)
    ensures Marked(s, cols, idx, v + 1)
  {
    hide Seen;
    ModSame(v, |idx|);
  }

  lemma {:induction false} BegunOK(mib: Mib, cols: seq<Oid>, w: Walk, idx: seq<nat>, names: seq<Oid>, vbs: seq<VarBind>)
    requires WalkOK(mib, cols, w) && ValidIdx(cols, idx)
    requires idx == ActiveIdx(w.active) && names == Requests(w, idx) && |names| <= |vbs|
    ensures RoundOK(mib, cols, w, Begun(w, cols), idx, names, vbs, 0)
  {
    hide Seen, Correct, ColumnOK;
    forall u | 0 <= u < |idx|
      ensures w.starts[idx[u % |idx|]] == Prev(names, vbs, u)
    {
      ModSame(u, |idx|);
    }
  }

  /** One binding of a conforming response keeps what is known inside a round. */
  lemma {:induction false} TakenStep(mib: Mib, cols: seq<Oid>, w: Walk, r: Round, idx: seq<nat>,
                                     names: seq<Oid>, vbs: seq<VarBind>, v: nat)
    requires SingleIndex(mib, cols) && ValidCols(cols) && w.Fits(cols) && r.Fits(cols) && ValidIdx(cols, idx)
    requires Conforms(mib, names, vbs) && v < |vbs| && |names| == |idx|
    requires forall p, q :: 0 <= p < q < |idx| ==> idx[p] < idx[q]
    requires RoundOK(mib, cols, w, r, idx, names, vbs, v)
    ensures RoundOK(mib, cols, w, r.Take(cols, idx[v % |idx|], vbs[v]), idx, names, vbs, v + 1)
  {
    hide SingleIndex, WalkOK, Seen, Follows, Moved, Grown, Round.Take, Marked;
    var ci := idx[v % |idx|];
    assert r.w.active[ci] ==> r.w.starts[ci] == Prev(names, vbs, v);
    assert Follows(mib, Prev(names, vbs, v), vbs[v]);
    hide Aligned, Conforms, Prev;
    TakeOK(mib, cols, r, ci, vbs[v]);
    var s := r.Take(cols, ci, vbs[v]);
    AlignedStep(mib, r, s, cols, idx, names, vbs, v);
    GrownStep(mib, cols, w, r, s, ci, vbs[v].oid);
    MarkedStep(mib, cols, r, s, idx, v, vbs[v].oid);
  }

  lemma {:induction false} TakenOK(mib: Mib, cols: seq<Oid>, w: Walk, r: Round, idx: seq<nat>,
                                   names: seq<Oid>, vbs: seq<VarBind>, v: nat)
    requires SingleIndex(mib, cols) && ValidCols(cols) && w.Fits(cols) && r.Fits(cols) && ValidIdx(cols, idx)
    requires Conforms(mib, names, vbs) && v <= |vbs| && |names| == |idx|
    requires forall p, q :: 0 <= p < q < |idx| ==> idx[p] < idx[q]
    requires RoundOK(mib, cols, w, r, idx, names, vbs, 0)
    ensures RoundOK(mib, cols, w, Taken(r, cols, idx, vbs, v), idx, names, vbs, v)
  {
    hide SingleIndex, RoundOK, Round.Take, Conforms;
    if v > 0 {
      TakenOK(mib, cols, w, r, idx, names, vbs, v - 1);
      TakenStep(mib, cols, w, Taken(r, cols, idx, vbs, v - 1), idx, names, vbs, v - 1);
    }
  }

  /** Every column that goes on has gained a row. */
  ghost predicate Gained(mib: Mib, cols: seq<Oid>, w: Walk, e: Walk)
    requires w.Fits(cols) && e.Fits(cols)
  {
    forall ci :: 0 <= ci < |cols| && e.active[ci] ==>
      w.active[ci] && |Seen(mib, cols[ci], w.starts[ci])| < |Seen(mib, cols[ci], e.starts[ci])|
  }

  /** After a full repetition, the columns that go on are those still active, and all of them are marked. */
  lemma {:induction false} EndedOnlyMarked(mib: Mib, cols: seq<Oid>, w: Walk, r: Round, idx: seq<nat>, v: nat)
    requires w.Fits(cols) && r.Fits(cols) && ValidIdx(cols, idx) && idx == ActiveIdx(w.active) && |idx| <= v
    requires Marked(r, cols, idx, v) && forall ci :: 0 <= ci < |cols| ==> Grown(mib, cols, w, r, ci)
    ensures Ended(r, cols) == r.w && Gained(mib, cols, w, r.w)
  {
    hide Seen, ActiveIdx;
    forall ci | 0 <= ci < |cols| && r.w.active[ci]
      ensures r.progressed[ci] && Grown(mib, cols, w, r, ci)
    {
      assert Grown(mib, cols, w, r, ci);
      ActiveIdxComplete(w.active, ci);
      var p :| 0 <= p < |idx| && idx[p] == ci;
    }
    assert Ended(r, cols).active == r.w.active;
  }

  /** A whole round keeps the invariant, and every column that goes on has gained a row. */
  lemma {:induction false} RoundKeeps(mib: Mib, cols: seq<Oid>, w: Walk, idx: seq<nat>, vbs: seq<VarBind>)
    requires SingleIndex(mib, cols) && ValidCols(cols) && WalkOK(mib, cols, w)
    requires idx == ActiveIdx(w.active) && idx != [] && Conforms(mib, Requests(w, idx), vbs)
    ensures var e := Ended(Taken(Begun(w, cols), cols, idx, vbs, |vbs|), cols);
      WalkOK(mib, cols, e) && Gained(mib, cols, w, e)
  {
    hide SingleIndex, Follows, Correct, ColumnOK, Taken, Begun, ActiveIdx, Grown;
    hide Aligned, Ended, Prev, Marked, Requests, Gained;
    BegunOK(mib, cols, w, idx, Requests(w, idx), vbs);
    TakenOK(mib, cols, w, Begun(w, cols), idx, Requests(w, idx), vbs, |vbs|);
    EndedOnlyMarked(mib, cols, w, Taken(Begun(w, cols), cols, idx, vbs, |vbs|), idx, |vbs|);
  }

  // ----- all rounds -----

  /** How often a repetition count can be halved before it is 1. */
  function Halvings(n: nat): nat {
    if n <= 1 then 0 else 1 + Halvings(n / 2)
  }

  /** The table is the one in the data: these cells and no others. */
  ghost predicate IsTable(mib: Mib, cols: seq<Oid>, t: Table) {
    && (forall i: u32, col: Oid :: Holds(t, i, col) <==> col in cols && RowOid(col, i) in mib)
    && (forall i: u32, col: Oid :: Holds(t, i, col) ==> t[i][col] == mib[RowOid(col, i)])
    && (forall i :: i in t ==> t[i] != map[])
  }

  lemma {:induction false} SameSize<T>(a: set<T>, b: set<T>)
    requires a <= b && |b| <= |a|
    ensures a == b
  {
    if a != b {
      var x :| x in b && x !in a;
      SubsetSize(a, b - {x});
    }
  }

  ghost predicate NeverTooBig(agent: Agent) {
    forall round: nat, rep: nat, names: seq<Oid> ::
      agent(round, rep, names).Pdu? ==> agent(round, rep, names).errStatus != 1
  }

  /** How many answers "too big" the walk still gets from here on. */
  function Retries(agent: Agent, cols: seq<Oid>, w: Walk, maxRep: nat, round: nat): nat
    requires w.Fits(cols) && ValidCols(cols) && round <= MAX_ROUNDS
    decreases MAX_ROUNDS - round
  {
    var idx := ActiveIdx(w.active);
    if round == MAX_ROUNDS || idx == [] then 0 else
    match agent(round, maxRep, Requests(w, idx))
    case Failed => 0
    case Pdu(status, vbs) =>
      if status == 1 then
        if maxRep > 1 then 1 + Retries(agent, cols, w, maxRep / 2, round + 1) else 0
      else if status != 0 then 0
      else Retries(agent, cols, Ended(Taken(Begun(w, cols), cols, idx, vbs, |vbs|), cols), maxRep, round + 1)
  }

  /** There are never more of them than halvings of the repetition count. */
  lemma {:induction false} RetriesBound(agent: Agent, cols: seq<Oid>, w: Walk, maxRep: nat, round: nat)
    requires w.Fits(cols) && ValidCols(cols) && round <= MAX_ROUNDS
    ensures Retries(agent, cols, w, maxRep, round) <= Halvings(maxRep)
    decreases MAX_ROUNDS - round
  {
    hide Taken, Ended, Begun;
    var idx := ActiveIdx(w.active);
    if round < MAX_ROUNDS && idx != [] {
      match agent(round, maxRep, Requests(w, idx))
      case Failed =>
      case Pdu(status, vbs) =>
        if status == 1 && maxRep > 1 {
          RetriesBound(agent, cols, w, maxRep / 2, round + 1);
        } else if status == 0 {
          RetriesBound(agent, cols, Ended(Taken(Begun(w, cols), cols, idx, vbs, |vbs|), cols), maxRep, round + 1);
        }
    }
  }

  lemma {:induction false} NoRetries(agent: Agent, cols: seq<Oid>, w: Walk, maxRep: nat, round: nat)
    requires w.Fits(cols) && ValidCols(cols) && round <= MAX_ROUNDS && NeverTooBig(agent)
    ensures Retries(agent, cols, w, maxRep, round) == 0
    decreases MAX_ROUNDS - round
  {
    hide Taken, Ended, Begun;
    var idx := ActiveIdx(w.active);
    if round < MAX_ROUNDS && idx != [] {
      var r := agent(round, maxRep, Requests(w, idx));
      if r.Pdu? && r.errStatus == 0 {
        NoRetries(agent, cols, Ended(Taken(Begun(w, cols), cols, idx, r.varbinds, |r.varbinds|), cols),
                  maxRep, round + 1);
      }
    }
  }

  /** Rounds spent so far are paid for by rows gained and retries made. */
  ghost predicate Paid(mib: Mib, cols: seq<Oid>, w: Walk, round: nat, retries: nat)
    requires w.Fits(cols)
  {
    forall ci :: 0 <= ci < |cols| && w.active[ci] ==> round <= |Seen(mib, cols[ci], w.starts[ci])| + retries
  }

  /** The rows of each column and some retries fit the round limit. */
  ghost predicate Fit(mib: Mib, cols: seq<Oid>, retries: nat) {
    forall ci :: 0 <= ci < |cols| ==> |Rows(mib, cols[ci])| + retries <= MAX_ROUNDS
  }

  /** When the walk stops, every column is complete. */
  lemma {:induction false} StopsComplete(mib: Mib, cols: seq<Oid>, w: Walk, round: nat, retries: nat)
    requires WalkOK(mib, cols, w) && Paid(mib, cols, w, round, retries) && Fit(mib, cols, retries)
    requires round == MAX_ROUNDS || ActiveIdx(w.active) == []
    ensures IsTable(mib, cols, w.table)
  {
    hide Rows;
    forall ci | 0 <= ci < |cols|
      ensures HasRows(w.table, cols[ci], Rows(mib, cols[ci]))
    {
      assert ColumnOK(mib, cols, w, ci);
      if w.active[ci] {
        ActiveIdxComplete(w.active, ci);
        SameSize(Seen(mib, cols[ci], w.starts[ci]), Rows(mib, cols[ci]));
      }
    }
    forall i: u32, col: Oid
      ensures Holds(w.table, i, col) <==> col in cols && RowOid(col, i) in mib
    {
      RowsAreStored(mib, col, i);
      if col in cols {
        var ci :| 0 <= ci < |cols| && cols[ci] == col;
        assert HasRows(w.table, cols[ci], Rows(mib, cols[ci]));
      }
    }
  }

  lemma {:induction false} RoundsExact(agent: Agent, mib: Mib, cols: seq<Oid>, w: Walk, maxRep: nat,
                                       round: nat, retries: nat)
    requires SingleIndex(mib, cols) && ValidCols(cols) && Answers(agent, mib)
    requires w.Fits(cols) && WalkOK(mib, cols, w) && Paid(mib, cols, w, round, retries) && round <= MAX_ROUNDS
    requires Fit(mib, cols, retries + Retries(agent, cols, w, maxRep, round))
    ensures var r := Rounds(agent, cols, w, maxRep, round);
      (r.ok ==> IsTable(mib, cols, r.table)) && (NeverTooBig(agent) ==> r.ok)
    decreases MAX_ROUNDS - round
  {
    hide SingleIndex, WalkOK, Seen, Rows, IsTable, Conforms, Taken, Ended, Begun, Requests, ActiveIdx, Fit;
    var idx := ActiveIdx(w.active);
    if round == MAX_ROUNDS || idx == [] {
      StopsComplete(mib, cols, w, round, retries);
    } else {
      var names := Requests(w, idx);
      var r := agent(round, maxRep, names);
      assert |names| == |idx|;
      if r.errStatus == 1 {
        if maxRep > 1 {
          RoundsExact(agent, mib, cols, w, maxRep / 2, round + 1, retries + 1);
        }
      } else {
        RoundKeeps(mib, cols, w, idx, r.varbinds);
        var e := Ended(Taken(Begun(w, cols), cols, idx, r.varbinds, |r.varbinds|), cols);
        RoundsExact(agent, mib, cols, e, maxRep, round + 1, retries);
      }
    }
  }

  lemma {:induction false} StartOK(mib: Mib, cols: seq<Oid>)
    ensures WalkOK(mib, cols, Start(cols))
  {
    forall ci | 0 <= ci < |cols|
      ensures Seen(mib, cols[ci], cols[ci]) == {}
    {
      forall i | i in Rows(mib, cols[ci])
        ensures LexLess(cols[ci], RowOid(cols[ci], i))
      {
        RootFirst(cols[ci], i);
      }
    }
  }

  /**
   Against an agent that answers with at least one full repetition, a walk that reports no
   error returns exactly the table in the agent's data, as long as the rows of each column
   and the "too big" answers it gets together fit the round limit.
   */
  lemma {:induction false} WalkExact(agent: Agent, mib: Mib, cols: seq<Oid>, maxRep: int)
    requires SingleIndex(mib, cols) && ValidCols(cols) && Answers(agent, mib)
    requires Fit(mib, cols, Retries(agent, cols, Start(cols), Repetitions(maxRep), 0))
    ensures var r := Walked(agent, cols, maxRep); r.ok ==> IsTable(mib, cols, r.table)
    ensures NeverTooBig(agent) ==> Walked(agent, cols, maxRep).ok
  {
    hide SingleIndex, Rows, IsTable, Answers, WalkOK, Retries, Rounds;
    StartOK(mib, cols);
    RoundsExact(agent, mib, cols, Start(cols), Repetitions(maxRep), 0, 0);
  }

  /** An agent that is never too big has its table read without error up to the full 512 rows. */
  lemma {:induction false} WalkExactAtOnce(agent: Agent, mib: Mib, cols: seq<Oid>, maxRep: int)
    requires SingleIndex(mib, cols) && ValidCols(cols) && Answers(agent, mib) && NeverTooBig(agent)
    requires forall ci :: 0 <= ci < |cols| ==> |Rows(mib, cols[ci])| <= MAX_ROUNDS
    ensures Walked(agent, cols, maxRep).ok && IsTable(mib, cols, Walked(agent, cols, maxRep).table)
  {
    hide SingleIndex, Rows, IsTable, Answers, NeverTooBig, Walked, Retries;
    NoRetries(agent, cols, Start(cols), Repetitions(maxRep), 0);
    WalkExact(agent, mib, cols, maxRep);
  }
}
