/**
 Reading several table columns at once with repeated GETBULK requests.

 The network is a function from the round, the repetition count and the requested names to a
 response: any sequence of responses at all.
 */
module SnmpWalk {
  import opened Base
  import opened OidOrder

  const END_OF_MIB_VIEW: byte := 0x82
  const MAX_ROUNDS := 512

  /** A decoded value; `exc` is 0 or the tag of an exception. */
  datatype Value = Value(tag: byte, content: seq<byte>, exc: byte)

  datatype VarBind = VarBind(oid: Oid, value: Value)

  datatype Response = Failed | Pdu(errStatus: int, varbinds: seq<VarBind>)

  type Agent = (nat, nat, seq<Oid>) -> Response

  /** Row index to column to value. */
  type Table = map<u32, map<Oid, Value>>

  predicate Holds(t: Table, i: u32, col: Oid) {
    i in t && col in t[i]
  }

  function WithCell(t: Table, i: u32, col: Oid, v: Value): Table {
    t[i := (if i in t then t[i] else map[])[col := v]]
  }

  /** A walk between rounds: the table so far and, per column, the name reached and whether it goes on. */
  datatype Walk = Walk(table: Table, starts: seq<Oid>, active: seq<bool>) {
    predicate Fits(cols: seq<Oid>) {
      |starts| == |active| == |cols|
    }
  }

  datatype WalkResult = WalkResult(table: Table, ok: bool)

  // ----- one round -----

  /** The columns that go on, in order. */
  function ActiveIdx(active: seq<bool>): (idx: seq<nat>)
    ensures forall p :: 0 <= p < |idx| ==> idx[p] < |active| && active[idx[p]]
    ensures forall p, q :: 0 <= p < q < |idx| ==> idx[p] < idx[q]
  {
    if active == [] then [] else
    var n := |active| - 1;
    ActiveIdx(active[..n]) + if active[n] then [n] else []
  }

  lemma {:induction false} ActiveIdxComplete(active: seq<bool>, i: nat)
    requires i < |active| && active[i]
    ensures i in ActiveIdx(active)
  {
    var n := |active| - 1;
    if i < n {
      ActiveIdxComplete(active[..n], i);
    }
  }

  function Requests(w: Walk, idx: seq<nat>): (names: seq<Oid>)
    requires forall p :: 0 <= p < |idx| ==> idx[p] < |w.starts|
    ensures |names| == |idx|
  {
    seq(|idx|, p requires 0 <= p < |idx| => w.starts[idx[p]])
  }

  /** A walk inside a round: also which columns have got something. */
  datatype Round = Round(w: Walk, progressed: seq<bool>) {
    predicate Fits(cols: seq<Oid>) {
      w.Fits(cols) && |progressed| == |cols|
    }

    /** One variable binding for column `ci`. */
    function Take(cols: seq<Oid>, ci: nat, vb: VarBind): (r: Round)
      requires Fits(cols) && ci < |cols| && cols[ci] != []
      ensures r.Fits(cols)
    {
      if !w.active[ci] then this
      else if vb.value.exc == END_OF_MIB_VIEW || !HasPrefix(vb.oid, cols[ci]) then
        this.(w := w.(active := w.active[ci := false]))
      else
        Round(Walk(WithCell(w.table, vb.oid[|vb.oid| - 1], cols[ci], vb.value), w.starts[ci := vb.oid], w.active),
              progressed[ci := true])
    }
  }

  ghost predicate ValidCols(cols: seq<Oid>) {
    forall i :: 0 <= i < |cols| ==> cols[i] != []
  }

  ghost predicate ValidIdx(cols: seq<Oid>, idx: seq<nat>) {
    idx != [] && forall p :: 0 <= p < |idx| ==> idx[p] < |cols|
  }

  /** The first `v` bindings of a response, which lists the columns over and over. */
  function Taken(r: Round, cols: seq<Oid>, idx: seq<nat>, vbs: seq<VarBind>, v: nat): (s: Round)
    requires r.Fits(cols) && ValidCols(cols) && ValidIdx(cols, idx) && v <= |vbs|
    ensures s.Fits(cols)
  {
    if v == 0 then r else
    Taken(r, cols, idx, vbs, v - 1).Take(cols, idx[(v - 1) % |idx|], vbs[v - 1])
  }

  /** Columns that got nothing stop. */
  function Ended(r: Round, cols: seq<Oid>): (w: Walk)
    requires r.Fits(cols)
    ensures w.Fits(cols)
  {
    r.w.(active := seq(|cols|, i requires 0 <= i < |cols| => r.w.active[i] && r.progressed[i]))
  }

  function Begun(w: Walk, cols: seq<Oid>): (r: Round)
    requires w.Fits(cols)
    ensures r.Fits(cols)
  {
    Round(w, seq(|cols|, i => false))
  }

  // ----- all rounds -----

  function Rounds(agent: Agent, cols: seq<Oid>, w: Walk, maxRep: nat, round: nat): WalkResult
    requires w.Fits(cols) && ValidCols(cols) && round <= MAX_ROUNDS
    decreases MAX_ROUNDS - round
  {
    var idx := ActiveIdx(w.active);
    if round == MAX_ROUNDS || idx == [] then WalkResult(w.table, true) else
    match agent(round, maxRep, Requests(w, idx))
    case Failed => WalkResult(w.table, false)
    case Pdu(status, vbs) =>
      if status == 1 then
        if maxRep > 1 then Rounds(agent, cols, w, maxRep / 2, round + 1) else WalkResult(w.table, false)
      else if status != 0 then WalkResult(w.table, false)
      else Rounds(agent, cols, Ended(Taken(Begun(w, cols), cols, idx, vbs, |vbs|), cols), maxRep, round + 1)
  }

  function Start(cols: seq<Oid>): (w: Walk)
    ensures w.Fits(cols)
  {
    Walk(map[], cols, seq(|cols|, i => true))
  }

  function Repetitions(maxRep: int): (n: nat)
    ensures n > 0
  {
    if maxRep <= 0 then 10 else maxRep
  }

  function Walked(agent: Agent, cols: seq<Oid>, maxRep: int): WalkResult
    requires ValidCols(cols)
  {
    Rounds(agent, cols, Start(cols), Repetitions(maxRep), 0)
  }

  // ----- the walking loop -----

  method TakeAll(w: Walk, cols: seq<Oid>, idx: seq<nat>, vbs: seq<VarBind>) returns (r: Round)
    requires w.Fits(cols) && ValidCols(cols) && ValidIdx(cols, idx)
    ensures r == Taken(Begun(w, cols), cols, idx, vbs, |vbs|)
  {
    var table, starts, active := w.table, w.starts, w.active;
    var progressed := seq(|cols|, i => false);
    for vi := 0 to |vbs|
      invariant Round(Walk(table, starts, active), progressed) == Taken(Begun(w, cols), cols, idx, vbs, vi)
    {
      var vb, ci := vbs[vi], idx[vi % |idx|];
      if !active[ci] {
        continue;
      }
      if vb.value.exc == END_OF_MIB_VIEW || !HasPrefix(vb.oid, cols[ci]) {
        active := active[ci := false];
        continue;
      }
      var ifIndex := vb.oid[|vb.oid| - 1];
      if ifIndex !in table {
        table := table[ifIndex := map[]];
      }
      table := table[ifIndex := table[ifIndex][cols[ci] := vb.value]];
      starts := starts[ci := vb.oid];
      progressed := progressed[ci := true];
    }
    r := Round(Walk(table, starts, active), progressed);
  }

  method WalkColumns(agent: Agent, cols: seq<Oid>, maxRep: int) returns (r: WalkResult)
    requires ValidCols(cols)
    ensures r == Walked(agent, cols, maxRep)
  {
    var rep: nat := Repetitions(maxRep);
    var w := Start(cols);
    var round := 0;
    while round < MAX_ROUNDS
      invariant 0 <= round <= MAX_ROUNDS && w.Fits(cols)
      invariant Rounds(agent, cols, w, rep, round) == Walked(agent, cols, maxRep)
    {
      var idx := ActiveIdx(w.active);
      if idx == [] {
        break;
      }
      match agent(round, rep, Requests(w, idx)) {
        case Failed =>
          return WalkResult(w.table, false);
        case Pdu(status, vbs) =>
          if status == 1 {
            if rep <= 1 {
              return WalkResult(w.table, false);
            }
            rep := rep / 2;
          } else if status != 0 {
            return WalkResult(w.table, false);
          } else {
            var taken := TakeAll(w, cols, idx, vbs);
            w := Ended(taken, cols);
          }
      }
      round := round + 1;
    }
    return WalkResult(w.table, true);
  }

  // ----- any agent -----

  /** Every binding the walk receives from here on, in order. */
  function Received(agent: Agent, cols: seq<Oid>, w: Walk, maxRep: nat, round: nat): seq<VarBind>
    requires w.Fits(cols) && ValidCols(cols) && round <= MAX_ROUNDS
    decreases MAX_ROUNDS - round
  {
    var idx := ActiveIdx(w.active);
    if round == MAX_ROUNDS || idx == [] then [] else
    match agent(round, maxRep, Requests(w, idx))
    case Failed => []
    case Pdu(status, vbs) =>
      if status == 1 then
        if maxRep > 1 then Received(agent, cols, w, maxRep / 2, round + 1) else []
      else if status != 0 then []
      else vbs + Received(agent, cols, Ended(Taken(Begun(w, cols), cols, idx, vbs, |vbs|), cols), maxRep, round + 1)
  }

  /** The cell holds the value of one of the bindings, under its own column and index. */
  ghost predicate From(got: seq<VarBind>, t: Table, i: u32, col: Oid)
    requires Holds(t, i, col)
  {
    exists v :: 0 <= v < |got| && got[v].value == t[i][col] && got[v].value.exc != END_OF_MIB_VIEW &&
      HasPrefix(got[v].oid, col) && got[v].oid != [] && got[v].oid[|got[v].oid| - 1] == i
  }

  /** Every cell was received, under one of the columns asked for. */
  ghost predicate Genuine(got: seq<VarBind>, cols: seq<Oid>, t: Table) {
    forall i, col :: Holds(t, i, col) ==> col in cols && From(got, t, i, col)
  }

  lemma {:induction false} CellGenuine(got: seq<VarBind>, cols: seq<Oid>, t: Table, ci: nat, vb: VarBind)
    requires Genuine(got, cols, t) && ci < |cols| && cols[ci] != [] && vb in got
    requires HasPrefix(vb.oid, cols[ci]) && vb.value.exc != END_OF_MIB_VIEW
    ensures Genuine(got, cols, WithCell(t, vb.oid[|vb.oid| - 1], cols[ci], vb.value))
  {
    var u := WithCell(t, vb.oid[|vb.oid| - 1], cols[ci], vb.value);
    var v :| 0 <= v < |got| && got[v] == vb;
    forall i, col | Holds(u, i, col)
      ensures col in cols && From(got, u, i, col)
    {
      if i != vb.oid[|vb.oid| - 1] || col != cols[ci] {
        assert Holds(t, i, col) && u[i][col] == t[i][col];
        assert From(got, t, i, col);
      }
    }
  }

  lemma {:induction false} MoreGenuine(got: seq<VarBind>, more: seq<VarBind>, cols: seq<Oid>, t: Table)
    requires Genuine(got, cols, t)
    ensures Genuine(got + more, cols, t)
  {
    forall i, col | Holds(t, i, col)
      ensures col in cols && From(got + more, t, i, col)
    {
      assert From(got, t, i, col);
      var v :| 0 <= v < |got| && got[v].value == t[i][col] && got[v].value.exc != END_OF_MIB_VIEW &&
        HasPrefix(got[v].oid, col) && got[v].oid != [] && got[v].oid[|got[v].oid| - 1] == i;
      assert (got + more)[v] == got[v];
    }
  }

  lemma {:induction false} TakenGenuine(got: seq<VarBind>, r: Round, cols: seq<Oid>, idx: seq<nat>,
                                        vbs: seq<VarBind>, v: nat)
    requires r.Fits(cols) && ValidCols(cols) && ValidIdx(cols, idx) && v <= |vbs|
    requires Genuine(got, cols, r.w.table) && forall vb :: vb in vbs ==> vb in got
    ensures Genuine(got, cols, Taken(r, cols, idx, vbs, v).w.table)
  {
    hide Genuine;
    if v > 0 {
      TakenGenuine(got, r, cols, idx, vbs, v - 1);
      var s, ci, vb := Taken(r, cols, idx, vbs, v - 1), idx[(v - 1) % |idx|], vbs[v - 1];
      if s.w.active[ci] && vb.value.exc != END_OF_MIB_VIEW && HasPrefix(vb.oid, cols[ci]) {
        CellGenuine(got, cols, s.w.table, ci, vb);
      }
    }
  }

  lemma {:induction false} RoundsGenuine(agent: Agent, cols: seq<Oid>, w: Walk, maxRep: nat, round: nat,
                                         got: seq<VarBind>)
    requires w.Fits(cols) && ValidCols(cols) && round <= MAX_ROUNDS && Genuine(got, cols, w.table)
    ensures Genuine(got + Received(agent, cols, w, maxRep, round), cols, Rounds(agent, cols, w, maxRep, round).table)
    decreases MAX_ROUNDS - round
  {
    hide Genuine, Taken, Ended;
    var idx := ActiveIdx(w.active);
    MoreGenuine(got, Received(agent, cols, w, maxRep, round), cols, w.table);
    if round < MAX_ROUNDS && idx != [] {
      var r := agent(round, maxRep, Requests(w, idx));
      if r.Pdu? {
        if r.errStatus == 1 && maxRep > 1 {
          RoundsGenuine(agent, cols, w, maxRep / 2, round + 1, got);
        } else if r.errStatus == 0 {
          var vbs := r.varbinds;
          MoreGenuine(got, vbs, cols, w.table);
          TakenGenuine(got + vbs, Begun(w, cols), cols, idx, vbs, |vbs|);
          var s := Taken(Begun(w, cols), cols, idx, vbs, |vbs|);
          EndedTable(s, cols);
          RoundsGenuine(agent, cols, Ended(s, cols), maxRep, round + 1, got + vbs);
          assert got + vbs + Received(agent, cols, Ended(s, cols), maxRep, round + 1)
              == got + (vbs + Received(agent, cols, Ended(s, cols), maxRep, round + 1));
        }
      }
    }
  }

  lemma {:induction false} EndedTable(r: Round, cols: seq<Oid>)
    requires r.Fits(cols)
    ensures Ended(r, cols).table == r.w.table && Ended(r, cols).starts == r.w.starts
  {
  }

  /**
   Whatever the network answers, the walk ends, and every value in its table is one that this
   walk received, under the right column and index.
   */
  lemma {:induction false} WalkGenuine(agent: Agent, cols: seq<Oid>, maxRep: int)
    requires ValidCols(cols)
    ensures Genuine(Received(agent, cols, Start(cols), Repetitions(maxRep), 0), cols, Walked(agent, cols, maxRep).table)
  {
    var got := Received(agent, cols, Start(cols), Repetitions(maxRep), 0);
    RoundsGenuine(agent, cols, Start(cols), Repetitions(maxRep), 0, []);
    assert [] + got == got;
  }

  // ----- how a walk ends -----

  /** One exchange: the repetition count and the names asked for, and the answer. */
  datatype Turn = Turn(maxRep: nat, names: seq<Oid>, answer: Response) {
    predicate TooBig() {
      answer.Pdu? && answer.errStatus == 1
    }

    /** The answer leaves nothing to go on with. */
    predicate Refused() {
      || answer.Failed?
      || (answer.errStatus != 0 && answer.errStatus != 1)
      || (TooBig() && maxRep <= 1)
    }
  }

  /** The exchanges of a walk, and the columns that go on after them. */
  datatype Course = Course(turns: seq<Turn>, active: seq<bool>)

  function Turns(agent: Agent, cols: seq<Oid>, w: Walk, maxRep: nat, round: nat): Course
    requires w.Fits(cols) && ValidCols(cols) && round <= MAX_ROUNDS
    decreases MAX_ROUNDS - round
  {
    var idx := ActiveIdx(w.active);
    if round == MAX_ROUNDS || idx == [] then Course([], w.active) else
    var t := Turn(maxRep, Requests(w, idx), agent(round, maxRep, Requests(w, idx)));
    if t.Refused() then Course([t], w.active) else
    var next := if t.TooBig() then w
      else Ended(Taken(Begun(w, cols), cols, idx, t.answer.varbinds, |t.answer.varbinds|), cols);
    var rest := Turns(agent, cols, next, if t.TooBig() then maxRep / 2 else maxRep, round + 1);
    Course([t] + rest.turns, rest.active)
  }

  /** These are exchanges with the agent, in rounds from number `round` on, the count halved after each "too big". */
  ghost predicate IsCourse(agent: Agent, turns: seq<Turn>, maxRep: nat, round: nat) {
    forall i :: 0 <= i < |turns| ==>
      && turns[i].answer == agent(round + i, turns[i].maxRep, turns[i].names)
      && turns[i].maxRep == RepetitionsAt(turns, maxRep, i)
  }

  /** The repetition count of exchange number `i`. */
  function RepetitionsAt(turns: seq<Turn>, maxRep: nat, i: nat): nat
    requires i <= |turns|
  {
    if i == 0 then maxRep else
    RepetitionsAt(turns, maxRep, i - 1) / if turns[i - 1].TooBig() then 2 else 1
  }

  /** Only the last answer can have been refused. */
  ghost predicate GoesOn(turns: seq<Turn>) {
    forall i :: 0 <= i < |turns| - 1 ==> !turns[i].Refused()
  }

  predicate EndsRefused(turns: seq<Turn>) {
    turns != [] && turns[|turns| - 1].Refused()
  }

  predicate AnyActive(active: seq<bool>) {
    exists i :: 0 <= i < |active| && active[i]
  }

  lemma {:induction false} NoneActive(active: seq<bool>)
    ensures ActiveIdx(active) == [] <==> !AnyActive(active)
  {
    if i :| 0 <= i < |active| && active[i] {
      ActiveIdxComplete(active, i);
    }
    var idx := ActiveIdx(active);
    assert idx != [] ==> active[idx[0]];
  }

  lemma {:induction false} RoundsEnd(agent: Agent, cols: seq<Oid>, w: Walk, maxRep: nat, round: nat)
    requires w.Fits(cols) && ValidCols(cols) && round <= MAX_ROUNDS
    ensures var c := Turns(agent, cols, w, maxRep, round);
      && IsCourse(agent, c.turns, maxRep, round) && GoesOn(c.turns) && |c.turns| <= MAX_ROUNDS - round
      && (Rounds(agent, cols, w, maxRep, round).ok <==> !EndsRefused(c.turns))
      && (!EndsRefused(c.turns) && |c.turns| < MAX_ROUNDS - round ==> !AnyActive(c.active))
    decreases MAX_ROUNDS - round
  {
    hide Taken, Ended, ActiveIdx, AnyActive, IsCourse;
    NoneActive(w.active);
    NoCourse(agent, maxRep, round);
    var idx := ActiveIdx(w.active);
    if round < MAX_ROUNDS && idx != [] {
      var t := Turn(maxRep, Requests(w, idx), agent(round, maxRep, Requests(w, idx)));
      OneTurn(agent, t, maxRep, round);
      if !t.Refused() {
        var next := if t.TooBig() then w
          else Ended(Taken(Begun(w, cols), cols, idx, t.answer.varbinds, |t.answer.varbinds|), cols);
        var rep := if t.TooBig() then maxRep / 2 else maxRep;
        RoundsEnd(agent, cols, next, rep, round + 1);
        CourseFrom(agent, t, Turns(agent, cols, next, rep, round + 1).turns, maxRep, rep, round);
      }
    }
  }

  lemma {:induction false} FirstRepetitions(turns: seq<Turn>, maxRep: nat)
    ensures RepetitionsAt(turns, maxRep, 0) == maxRep
  {
  }

  lemma {:induction false} RepetitionsFrom(t: Turn, turns: seq<Turn>, maxRep: nat, i: nat)
    requires 0 < i <= |turns| + 1
    ensures RepetitionsAt([t] + turns, maxRep, i) ==
      RepetitionsAt(turns, if t.TooBig() then maxRep / 2 else maxRep, i - 1)
  {
    hide Turn.TooBig;
    var all := [t] + turns;
    if i > 1 {
      RepetitionsFrom(t, turns, maxRep, i - 1);
      assert all[i - 1] == turns[i - 2];
    } else {
      assert RepetitionsAt(all, maxRep, 1) == RepetitionsAt(all, maxRep, 0) / if t.TooBig() then 2 else 1;
    }
  }

  lemma {:induction false} CourseFrom(agent: Agent, t: Turn, turns: seq<Turn>, maxRep: nat, rep: nat, round: nat)
    requires t.maxRep == maxRep && t.answer == agent(round, maxRep, t.names) && !t.Refused()
    requires rep == if t.TooBig() then maxRep / 2 else maxRep
    requires IsCourse(agent, turns, rep, round + 1) && GoesOn(turns)
    ensures IsCourse(agent, [t] + turns, maxRep, round) && GoesOn([t] + turns)
    ensures EndsRefused([t] + turns) <==> EndsRefused(turns)
  {
    hide Turn.Refused, Turn.TooBig, RepetitionsAt;
    var all := [t] + turns;
    forall i | 0 <= i < |all|
      ensures all[i].answer == agent(round + i, all[i].maxRep, all[i].names)
      ensures all[i].maxRep == RepetitionsAt(all, maxRep, i)
    {
      if i == 0 {
        assert RepetitionsAt(all, maxRep, 0) == maxRep by { FirstRepetitions(all, maxRep); }
      } else {
        RepetitionsFrom(t, turns, maxRep, i);
        assert all[i] == turns[i - 1];
      }
    }
  }

  lemma {:induction false} NoCourse(agent: Agent, maxRep: nat, round: nat)
    ensures IsCourse(agent, [], maxRep, round)
  {
  }

  lemma {:induction false} OneTurn(agent: Agent, t: Turn, maxRep: nat, round: nat)
    requires t.maxRep == maxRep && t.answer == agent(round, maxRep, t.names)
    ensures IsCourse(agent, [t], maxRep, round)
  {
    FirstRepetitions([t], maxRep);
  }

  /**
   How a walk ends: it makes at most 512 requests, each after an answer that let it go on; it fails
   exactly if its last answer was a failure, an error, or "too big" for a single repetition; and if
   it does not fail and has requests left, then no column goes on.
   */
  lemma {:induction false} WalkEndsExactly(agent: Agent, cols: seq<Oid>, maxRep: int)
    requires ValidCols(cols)
    ensures var c := Turns(agent, cols, Start(cols), Repetitions(maxRep), 0);
      && IsCourse(agent, c.turns, if maxRep <= 0 then 10 else maxRep, 0) && GoesOn(c.turns) && |c.turns| <= 512
      && (!Walked(agent, cols, maxRep).ok <==> EndsRefused(c.turns))
      && (Walked(agent, cols, maxRep).ok && |c.turns| < 512 ==> !AnyActive(c.active))
  {
    hide Rounds, Turns, IsCourse, GoesOn, EndsRefused, AnyActive;
    RoundsEnd(agent, cols, Start(cols), Repetitions(maxRep), 0);
  }
}
