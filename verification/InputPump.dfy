/**
 The queue between the remote desktop's read loop and the slow input injection: successive
 mouse moves are merged, an overfull queue gives up its oldest move, and nothing else is
 ever dropped or reordered.
 */
module InputPump {
  import opened Base

  datatype Op =
    | Move(x: int, y: int)
    | Button(button: int, down: bool)
    | Wheel(delta: int)
    | Key(vk: int, down: bool)
    | Text(text: string)
    | CtrlAltDel

  const QUEUE_MAX := 512

  // ----- the queue -----

  function FirstMove(q: seq<Op>): (i: nat)
    ensures i <= |q| && (i < |q| ==> q[i].Move?) && forall j :: 0 <= j < i ==> !q[j].Move?
  {
    if q == [] || q[0].Move? then 0 else 1 + FirstMove(q[1..])
  }

  function Without(q: seq<Op>, i: nat): seq<Op> {
    if i < |q| then q[..i] + q[i + 1..] else q
  }

  /** The new move takes the place of the one at the tail. */
  predicate Merges(q: seq<Op>, op: Op) {
    op.Move? && q != [] && q[|q| - 1].Move?
  }

  predicate Overflows(q: seq<Op>, op: Op) {
    !Merges(q, op) && |q| >= QUEUE_MAX
  }

  function Pushed(q: seq<Op>, op: Op): seq<Op> {
    if Merges(q, op) then q[..|q| - 1] + [op]
    else if |q| >= QUEUE_MAX then Without(q, FirstMove(q)) + [op]
    else q + [op]
  }

  // ----- steps of the pump -----

  datatype Step = Push(op: Op) | Deliver | Close

  /** `accepted`: every operation pushed while open; `delivered`: every operation injected. */
  datatype Pump = Pump(q: seq<Op>, closed: bool, accepted: seq<Op>, delivered: seq<Op>) {
    function Next(s: Step): Pump {
      match s
      case Push(op) => if closed then this else this.(q := Pushed(q, op), accepted := accepted + [op])
      case Deliver => if q == [] then this else this.(q := q[1..], delivered := delivered + [q[0]])
      case Close => this.(closed := true)
    }

    /** What has been injected, followed by what will be if nothing else happens. */
    function History(): seq<Op> {
      delivered + q
    }
  }

  const IDLE := Pump([], false, [], [])

  function Run(steps: seq<Step>): Pump {
    if steps == [] then IDLE else Run(steps[..|steps| - 1]).Next(steps[|steps| - 1])
  }

  // ----- the pump object -----

  class DeskInputPump {
    var q: seq<Op>
    var closed: bool
    ghost var accepted: seq<Op>
    var delivered: seq<Op>  // the calls made to the injection backend, in order

    ghost function State(): Pump
      reads this
    {
      Pump(q, closed, accepted, delivered)
    }

    constructor ()
      ensures State() == IDLE
    {
      q, closed, accepted, delivered := [], false, [], [];
    }

    method Push(op: Op)
      modifies this
      ensures State() == old(State()).Next(Step.Push(op))
    {
      if closed {
        return;
      }
      accepted := accepted + [op];
      if op.Move? && |q| > 0 && q[|q| - 1].Move? {
        q := q[..|q| - 1] + [op];
        return;
      }
      if |q| >= QUEUE_MAX {
        var i := 0;
        while i < |q| && !q[i].Move?
          invariant i <= |q| && forall j :: 0 <= j < i ==> !q[j].Move?
        {
          i := i + 1;
        }
        assert i == FirstMove(q);
        if i < |q| {
          q := q[..i] + q[i + 1..];
        }
      }
      q := q + [op];
    }

    /** One round of the injecting loop, when there is something to inject. */
    method InjectNext()
      requires q != []
      modifies this
      ensures State() == old(State()).Next(Deliver)
    {
      var op := q[0];
      q := q[1..];
      delivered := delivered + [op];
    }

    /** Closing waits for the injecting loop, which ends only when the queue is empty. */
    method CloseAndDrain()
      modifies this
      ensures closed && accepted == old(accepted)
      ensures old(closed) ==> State() == old(State())
      ensures !old(closed) ==> q == [] && delivered == old(State()).History()
    {
      if closed {
        return;
      }
      closed := true;
      while q != []
        invariant closed && accepted == old(accepted)
        invariant State().History() == old(State()).History()
        decreases |q|
      {
        InjectNext();
      }
    }
  }

  // ----- the shape of the queue -----

  predicate NoTwoMoves(q: seq<Op>) {
    forall i :: 0 <= i < |q| - 1 ==> !(q[i].Move? && q[i + 1].Move?)
  }

  predicate AtMostOneMove(q: seq<Op>) {
    forall i, j :: 0 <= i < j < |q| ==> !(q[i].Move? && q[j].Move?)
  }

  predicate Shaped(q: seq<Op>) {
    NoTwoMoves(q) && (|q| <= QUEUE_MAX || AtMostOneMove(q))
  }

  lemma {:induction false} PushedShaped(q: seq<Op>, op: Op)
    requires Shaped(q)
    ensures Shaped(Pushed(q, op))
  {
    if Overflows(q, op) {
      var i := FirstMove(q);
      var r := Without(q, i);
      if |q| > QUEUE_MAX || i == |q| {
        assert forall j :: 0 <= j < |r| ==> !r[j].Move?;
      }
    }
  }

  /**
   In every run moves are never adjacent in the queue, and a queue beyond its limit holds at
   most one move: only events that may not be dropped make it grow.
   */
  lemma {:induction false} RunShaped(steps: seq<Step>)
    ensures Shaped(Run(steps).q)
  {
    if steps != [] {
      var before, s := Run(steps[..|steps| - 1]), steps[|steps| - 1];
      RunShaped(steps[..|steps| - 1]);
      if s.Push? {
        PushedShaped(before.q, s.op);
      }
    }
  }

  // ----- what is accepted -----

  /** The operations pushed before the pump is closed. */
  function OpenPushes(steps: seq<Step>): seq<Op> {
    if steps == [] || steps[0].Close? then [] else
    (if steps[0].Push? then [steps[0].op] else []) + OpenPushes(steps[1..])
  }

  lemma {:induction false} OpenPushesLast(steps: seq<Step>, s: Step)
    ensures OpenPushes(steps + [s]) == OpenPushes(steps) + if s.Push? && Close !in steps then [s.op] else []
  {
    var all := steps + [s];
    if steps != [] {
      assert all[1..] == steps[1..] + [s];
      OpenPushesLast(steps[1..], s);
      assert Close in steps <==> steps[0].Close? || Close in steps[1..];
    } else {
      assert all[1..] == [];
    }
  }

  /** In every run, exactly what was pushed before closing is accepted, in order; a closed pump stays closed. */
  lemma {:induction false} AcceptedExactly(steps: seq<Step>)
    ensures Run(steps).accepted == OpenPushes(steps)
    ensures Run(steps).closed <==> Close in steps
  {
    if steps != [] {
      var n := |steps| - 1;
      AcceptedExactly(steps[..n]);
      OpenPushesLast(steps[..n], steps[n]);
      assert steps == steps[..n] + [steps[n]];
      assert Close in steps <==> Close in steps[..n] || steps[n].Close?;
    }
  }

  // ----- order -----

  function NonMoves(h: seq<Op>): seq<Op> {
    if h == [] then [] else
    var n := |h| - 1;
    NonMoves(h[..n]) + if h[n].Move? then [] else [h[n]]
  }

  lemma {:induction false} NonMovesConcat(a: seq<Op>, b: seq<Op>)
    ensures NonMoves(a + b) == NonMoves(a) + NonMoves(b)
  {
    if b == [] {
      assert a + b == a;
    } else {
      var n := |b| - 1;
      assert (a + b)[..|a| + n] == a + b[..n];
      NonMovesConcat(a, b[..n]);
    }
  }

  /** `a` is what is left of `b` after deleting some of its elements. */
  predicate Subsequence(a: seq<Op>, b: seq<Op>) {
    a == [] ||
    (b != [] &&
     var m, n := |a| - 1, |b| - 1;
     (a[m] == b[n] && Subsequence(a[..m], b[..n])) || Subsequence(a, b[..n]))
  }

  lemma {:induction false} SubsequenceWithout(a: seq<Op>, b: seq<Op>, i: nat)
    requires Subsequence(a, b) && i < |a|
    ensures Subsequence(Without(a, i), b)
    decreases |b|
  {
    var m, n := |a| - 1, |b| - 1;
    if a[m] == b[n] && Subsequence(a[..m], b[..n]) {
      if i == m {
        assert Without(a, i) == a[..m];
      } else {
        SubsequenceWithout(a[..m], b[..n], i);
        assert Without(a, i)[..m - 1] == Without(a[..m], i);
      }
    } else {
      SubsequenceWithout(a, b[..n], i);
    }
  }

  lemma {:induction false} SubsequenceBoth(a: seq<Op>, b: seq<Op>, op: Op)
    requires Subsequence(a, b)
    ensures Subsequence(a + [op], b + [op])
  {
    assert (a + [op])[..|a|] == a && (b + [op])[..|b|] == b;
  }

  /**
   In every run, what has been and will be injected is what was pushed with some elements
   deleted, and only moves are deleted: every button, key, wheel, text and Ctrl-Alt-Del event
   is there, in order.
   */
  lemma {:induction false} RunKeepsOrder(steps: seq<Step>)
    ensures var p := Run(steps);
      Subsequence(p.History(), p.accepted) && NonMoves(p.History()) == NonMoves(p.accepted)
  {
    if steps != [] {
      RunKeepsOrder(steps[..|steps| - 1]);
      var p := Run(steps[..|steps| - 1]);
      match steps[|steps| - 1]
      case Push(op) => PushKeepsOrder(p, op);
      case Deliver => DeliverKeepsHistory(p);
      case Close =>
    }
  }

  lemma {:induction false} PushKeepsOrder(p: Pump, op: Op)
    requires Subsequence(p.History(), p.accepted) && NonMoves(p.History()) == NonMoves(p.accepted)
    ensures var r := p.Next(Push(op));
      Subsequence(r.History(), r.accepted) && NonMoves(r.History()) == NonMoves(r.accepted)
  {
    hide NonMoves, Subsequence;
    if !p.closed {
      var h := p.History();
      var kept := KeptBefore(p, op);
      if i: nat :| i < |h| && h[i].Move? && kept == Without(h, i) {
        SubsequenceWithout(h, p.accepted, i);
        NonMovesWithout(h, i);
      }
      SubsequenceBoth(kept, p.accepted, op);
      NonMovesConcat(kept, [op]);
      NonMovesConcat(p.accepted, [op]);
    }
  }

  lemma {:induction false} NonMovesWithout(h: seq<Op>, i: nat)
    requires i < |h| && h[i].Move?
    ensures NonMoves(Without(h, i)) == NonMoves(h)
  {
    hide NonMoves;
    var a, m, b := h[..i], h[i], h[i + 1..];
    assert h == a + ([m] + b);
    NonMovesConcat(a, [m] + b);
    NonMovesConcat([m], b);
    NonMovesConcat(a, b);
    NoneOfMove(m);
  }

  lemma {:induction false} NoneOfMove(m: Op)
    requires m.Move?
    ensures NonMoves([m]) == []
  {
  }

  lemma {:induction false} WithoutSecond(a: seq<Op>, q: seq<Op>, i: nat)
    requires i < |q|
    ensures a + Without(q, i) == Without(a + q, |a| + i) && (a + q)[|a| + i] == q[i]
  {
    assert (a + q)[..|a| + i] == a + q[..i] && (a + q)[|a| + i + 1..] == q[i + 1..];
  }

  /** Injecting moves an operation from the queue to what has been injected. */
  lemma {:induction false} DeliverKeepsHistory(p: Pump)
    ensures p.Next(Deliver).History() == p.History() && p.Next(Deliver).accepted == p.accepted
  {
  }

  /** The history an accepted push adds its operation to: all of it, or all but one move. */
  lemma {:induction false} KeptBefore(p: Pump, op: Op) returns (kept: seq<Op>)
    requires !p.closed
    ensures p.Next(Push(op)).History() == kept + [op]
    ensures kept == p.History()
      || exists i: nat :: i < |p.History()| && p.History()[i].Move? && kept == Without(p.History(), i)
  {
    var i := if Merges(p.q, op) then |p.q| - 1 else if |p.q| >= QUEUE_MAX then FirstMove(p.q) else |p.q|;
    PushedWithout(p.q, op, i);
    hide FirstMove, Without, Pushed;
    kept := p.delivered + Without(p.q, i);
    if i < |p.q| {
      WithoutSecond(p.delivered, p.q, i);
    } else {
      WithoutNone(p.q, i);
    }
  }

  lemma {:induction false} PushedWithout(q: seq<Op>, op: Op, i: nat)
    requires i == if Merges(q, op) then |q| - 1 else if |q| >= QUEUE_MAX then FirstMove(q) else |q|
    ensures Pushed(q, op) == Without(q, i) + [op] && (i < |q| ==> q[i].Move?)
  {
    hide FirstMove;
    if Merges(q, op) {
      assert Without(q, i) == q[..|q| - 1];
    }
  }

  lemma {:induction false} WithoutNone(q: seq<Op>, i: nat)
    requires |q| <= i
    ensures Without(q, i) == q
  {
  }

  // ----- where events take effect -----

  /** The pointer position after a history, if it has been set. */
  function Cursor(h: seq<Op>): Option<Op> {
    if h == [] then None
    else if h[|h| - 1].Move? then Some(h[|h| - 1])
    else Cursor(h[..|h| - 1])
  }

  datatype Effect = Effect(op: Op, at: Option<Op>)

  /** Every event other than a move, with the pointer position it takes effect at. */
  function Effects(h: seq<Op>): seq<Effect> {
    if h == [] then [] else
    var n := |h| - 1;
    Effects(h[..n]) + if h[n].Move? then [] else [Effect(h[n], Cursor(h[..n]))]
  }

  ghost predicate SameSoFar(a: seq<Op>, b: seq<Op>) {
    Effects(a) == Effects(b) && Cursor(a) == Cursor(b)
  }

  lemma {:induction false} EffectsLast(h: seq<Op>, op: Op)
    ensures Effects(h + [op]) == Effects(h) + if op.Move? then [] else [Effect(op, Cursor(h))]
    ensures Cursor(h + [op]) == if op.Move? then Some(op) else Cursor(h)
  {
    assert (h + [op])[..|h|] == h;
  }

  lemma {:induction false} SameLast(a: seq<Op>, b: seq<Op>, op: Op)
    requires SameSoFar(a, b)
    ensures SameSoFar(a + [op], b + [op])
  {
    EffectsLast(a, op);
    EffectsLast(b, op);
  }

  lemma {:induction false} SameConcat(a: seq<Op>, b: seq<Op>, s: seq<Op>)
    requires SameSoFar(a, b)
    ensures SameSoFar(a + s, b + s)
  {
    if s == [] {
      assert a + s == a && b + s == b;
    } else {
      var n := |s| - 1;
      SameConcat(a, b, s[..n]);
      SameLast(a + s[..n], b + s[..n], s[n]);
      assert a + s == a + s[..n] + [s[n]] && b + s == b + s[..n] + [s[n]];
    }
  }

  lemma {:induction false} EffectsPrefix(a: seq<Op>, s: seq<Op>)
    ensures Effects(a) <= Effects(a + s)
  {
    if s == [] {
      assert a + s == a;
    } else {
      var n := |s| - 1;
      EffectsPrefix(a, s[..n]);
      EffectsLast(a + s[..n], s[n]);
      assert a + s == a + s[..n] + [s[n]];
    }
  }

  /** A push that does not meet a full queue leaves every effect as it was meant. */
  lemma {:induction false} PushKeepsEffects(p: Pump, op: Op)
    requires SameSoFar(p.History(), p.accepted) && !Overflows(p.q, op)
    ensures var r := p.Next(Push(op)); SameSoFar(r.History(), r.accepted)
  {
    if !p.closed {
      var h := p.History();
      if Merges(p.q, op) {
        var g, m := p.delivered + p.q[..|p.q| - 1], p.q[|p.q| - 1];
        assert h == g + [m];
        assert p.Next(Push(op)).History() == g + [op];
        EffectsLast(g, m);
        EffectsLast(g, op);
        EffectsLast(p.accepted, op);
      } else {
        assert p.Next(Push(op)).History() == h + [op];
        SameLast(h, p.accepted, op);
      }
    }
  }

  /** No push of the run met a full queue. */
  predicate NeverFull(steps: seq<Step>) {
    forall i :: 0 <= i < |steps| && steps[i].Push? ==>
      Run(steps[..i]).closed || !Overflows(Run(steps[..i]).q, steps[i].op)
  }

  /**
   In every run in which no push meets a full queue, every event that is not a move takes
   effect at the pointer position it was meant for.
   */
  lemma {:induction false} RunKeepsEffects(steps: seq<Step>)
    requires NeverFull(steps)
    ensures SameSoFar(Run(steps).History(), Run(steps).accepted)
  {
    if steps != [] {
      var n := |steps| - 1;
      assert forall i :: 0 <= i < n ==> steps[..n][..i] == steps[..i];
      RunKeepsEffects(steps[..n]);
      hide Effects, Cursor, Pushed;
      var p := Run(steps[..n]);
      match steps[n]
      case Push(op) =>
        assert steps[n].Push?;
        if !p.closed {
          PushKeepsEffects(p, op);
        }
      case Deliver => DeliverKeepsHistory(p);
      case Close =>
    }
  }

  // ----- the full queue -----

  /** Deleting a move that is followed by another event goes unnoticed exactly if the pointer was already there. */
  lemma {:induction false} MoveMatters(a: seq<Op>, m: Op, op: Op, s: seq<Op>)
    requires m.Move? && !op.Move?
    ensures Effects(a + [op] + s) == Effects(a + [m] + [op] + s) <==> Cursor(a) == Some(m)
    ensures Cursor(a) == Some(m) ==> SameSoFar(a + [op] + s, a + [m] + [op] + s)
    ensures Cursor(a) != Some(m) ==> Departs(a + [op], a + [m] + [op] + s)
  {
    EffectsLast(a, m);
    EffectsLast(a, op);
    EffectsLast(a + [m], op);
    if Cursor(a) == Some(m) {
      SameLast(a, a + [m], op);
      SameConcat(a + [op], a + [m] + [op], s);
    } else {
      EffectsPrefix(a + [op], s);
      EffectsPrefix(a + [m] + [op], s);
      var n := |Effects(a)|;
      assert Effects(a + [op] + s)[n] == Effects(a + [op])[n] == Effect(op, Cursor(a));
      assert Effects(a + [m] + [op] + s)[n] == Effect(op, Some(m));
    }
  }

  /** An event in `g` has another effect than the event in its place in `b`. */
  ghost predicate Departs(g: seq<Op>, b: seq<Op>) {
    exists n :: 0 <= n < |Effects(g)| && n < |Effects(b)| && Effects(g)[n] != Effects(b)[n]
  }

  lemma {:induction false} DepartsExtends(g: seq<Op>, b: seq<Op>, s: seq<Op>, t: seq<Op>)
    requires Departs(g, b)
    ensures Departs(g + s, b + t)
  {
    EffectsPrefix(g, s);
    EffectsPrefix(b, t);
    var n :| 0 <= n < |Effects(g)| && n < |Effects(b)| && Effects(g)[n] != Effects(b)[n];
    assert Effects(g + s)[n] == Effects(g)[n] && Effects(b + t)[n] == Effects(b)[n];
  }

  /**
   The guard of the overflow: there is no move to drop, or the oldest one repeats the pointer
   position already in force.
   */
  predicate Harmless(p: Pump) {
    var i := FirstMove(p.q);
    i == |p.q| || Cursor(p.delivered + p.q[..i]) == Some(p.q[i])
  }

  /**
   A push that meets a full queue keeps the effects as they were meant if and only if the
   queue holds no move, or its oldest move repeats the pointer position already in force. A
   dropped move is never obsolete: because moves are not adjacent, another event depends on it.
   */
  lemma {:induction false} OverflowExactly(p: Pump, op: Op)
    requires !p.closed && Shaped(p.q) && SameSoFar(p.History(), p.accepted) && Overflows(p.q, op)
    ensures var r := p.Next(Push(op));
      && (Effects(r.History()) == Effects(r.accepted) <==> Harmless(p))
      && (Harmless(p) ==> SameSoFar(r.History(), r.accepted))
      && (!Harmless(p) ==> exists g :: Misplaced(r, g))
  {
    hide Effects, Cursor;
    var h, i := p.History(), FirstMove(p.q);
    SameLast(h, p.accepted, op);
    var r := p.Next(Push(op));
    if i == |p.q| {
      assert r.History() == h + [op];
    } else {
      var next, s := DropSplit(p, op);
      var a := p.delivered + p.q[..i];
      MoveMatters(a, p.q[i], next, s);
      if !Harmless(p) {
        DepartsFrom(a + [next], h + [op], r.accepted);
        assert Misplaced(r, a + [next]);
      }
    }
  }

  lemma {:induction false} DepartsFrom(g: seq<Op>, a: seq<Op>, b: seq<Op>)
    requires Departs(g, a) && SameSoFar(a, b)
    ensures Departs(g, b)
  {
    hide Effects;
  }

  /** The part `g` of the history has a misplaced effect, and no move in it is left to drop or replace. */
  ghost predicate Misplaced(p: Pump, g: seq<Op>) {
    && g <= p.History() && Departs(g, p.accepted)
    && forall j :: |p.delivered| <= j < |g| ==> !g[j].Move?
  }

  /** A misplaced effect is never put right. */
  lemma {:induction false} MisplacedStays(p: Pump, g: seq<Op>, s: Step)
    requires Misplaced(p, g)
    ensures Misplaced(p.Next(s), g)
  {
    hide Departs;
    var r := p.Next(s);
    match s
    case Push(op) =>
      if !p.closed {
        DepartsExtends(g, p.accepted, [], [op]);
        assert g + [] == g;
        PushedWithout(p.q, op, Dropped(p.q, op));
        hide Pushed;
        KeptPrefix(p, g, op);
      }
    case Deliver => DeliverKeepsHistory(p);
    case Close =>
  }

  /** The number of the queued move that a push takes out, or the queue's length. */
  function Dropped(q: seq<Op>, op: Op): nat {
    if Merges(q, op) then |q| - 1 else if |q| >= QUEUE_MAX then FirstMove(q) else |q|
  }

  lemma {:induction false} KeptPrefix(p: Pump, g: seq<Op>, op: Op)
    requires g <= p.History() && forall j :: |p.delivered| <= j < |g| ==> !g[j].Move?
    requires var i := Dropped(p.q, op); i < |p.q| ==> p.q[i].Move?
    ensures g <= p.delivered + (Without(p.q, Dropped(p.q, op)) + [op])
  {
    hide FirstMove, Merges;
    var i, h := Dropped(p.q, op), p.History();
    hide Dropped;
    if i < |p.q| {
      assert h[|p.delivered| + i] == p.q[i];
      assert |g| <= |p.delivered| + i;
      var r := p.delivered + (Without(p.q, i) + [op]);
      assert r[..|p.delivered| + i] == h[..|p.delivered| + i];
      assert g == h[..|g|];
    } else {
      WithoutNone(p.q, i);
      assert p.delivered + (p.q + [op]) == h + [op];
    }
  }

  /** Every push of the run that met a full queue was harmless. */
  predicate AlwaysHarmless(steps: seq<Step>) {
    forall i :: 0 <= i < |steps| ==> HarmlessStep(Run(steps[..i]), steps[i])
  }

  predicate HarmlessStep(p: Pump, s: Step) {
    s.Push? && !p.closed && Overflows(p.q, s.op) ==> Harmless(p)
  }

  lemma {:induction false} HarmlessLast(steps: seq<Step>)
    requires steps != []
    ensures var n := |steps| - 1;
      AlwaysHarmless(steps) <==> AlwaysHarmless(steps[..n]) && HarmlessStep(Run(steps[..n]), steps[n])
  {
    hide Run, HarmlessStep;
    var n := |steps| - 1;
    assert forall i :: 0 <= i < n ==> steps[..n][..i] == steps[..i];
    if AlwaysHarmless(steps) {
      forall i | 0 <= i < n
        ensures HarmlessStep(Run(steps[..n][..i]), steps[..n][i])
      {
        assert HarmlessStep(Run(steps[..i]), steps[i]);
      }
    }
  }

  /** One step from a state whose effects are as meant. */
  lemma {:induction false} StepFate(p: Pump, s: Step)
    requires Shaped(p.q) && SameSoFar(p.History(), p.accepted)
    ensures if HarmlessStep(p, s) then SameSoFar(p.Next(s).History(), p.Next(s).accepted)
            else exists g :: Misplaced(p.Next(s), g)
  {
    hide Effects, Cursor, Pushed, Misplaced, Harmless, Shaped;
    match s
    case Push(op) =>
      if !p.closed {
        if Overflows(p.q, op) {
          OverflowExactly(p, op);
        } else {
          PushKeepsEffects(p, op);
        }
      }
    case Deliver => DeliverKeepsHistory(p);
    case Close =>
  }

  lemma {:induction false} RunFate(steps: seq<Step>)
    ensures if AlwaysHarmless(steps) then SameSoFar(Run(steps).History(), Run(steps).accepted)
            else exists g :: Misplaced(Run(steps), g)
  {
    hide Departs, Cursor, AlwaysHarmless, HarmlessStep, SameSoFar;
    if steps == [] {
      NothingYet();
    } else {
      var n := |steps| - 1;
      RunFate(steps[..n]);
      RunShaped(steps[..n]);
      HarmlessLast(steps);
      if AlwaysHarmless(steps[..n]) {
        StepFate(Run(steps[..n]), steps[n]);
        if !HarmlessStep(Run(steps[..n]), steps[n]) {
          var g :| Misplaced(Run(steps[..n]).Next(steps[n]), g);
          assert Misplaced(Run(steps), g);
        }
      } else {
        var g :| Misplaced(Run(steps[..n]), g);
        MisplacedStays(Run(steps[..n]), g, steps[n]);
        assert Misplaced(Run(steps), g);
      }
    }
  }

  lemma {:induction false} NothingYet()
    ensures AlwaysHarmless([]) && SameSoFar(IDLE.History(), IDLE.accepted)
  {
  }

  /**
   Over every run: all events other than moves take effect where they were meant to, if and
   only if every push that met a full queue was harmless. One harmful push can never be made
   good.
   */
  lemma {:induction false} RunEffectsExactly(steps: seq<Step>)
    ensures Effects(Run(steps).History()) == Effects(Run(steps).accepted) <==> AlwaysHarmless(steps)
  {
    hide Effects, Cursor, AlwaysHarmless, Run;
    RunFate(steps);
    if !AlwaysHarmless(steps) {
      var p := Run(steps);
      var g :| Misplaced(p, g);
      DepartsExtends(g, p.accepted, p.History()[|g|..], []);
      assert g + p.History()[|g|..] == p.History() && p.accepted + [] == p.accepted;
    }
  }

  /** The history with and without the oldest queued move, split where they differ. */
  lemma {:induction false} DropSplit(p: Pump, op: Op) returns (next: Op, s: seq<Op>)
    requires !p.closed && NoTwoMoves(p.q) && Overflows(p.q, op) && FirstMove(p.q) < |p.q|
    ensures var i := FirstMove(p.q); var a := p.delivered + p.q[..i];
      && !next.Move?
      && p.Next(Push(op)).History() == a + [next] + s
      && p.History() + [op] == a + [p.q[i]] + [next] + s
  {
    var i := FirstMove(p.q);
    PushedWithout(p.q, op, i);
    hide FirstMove, Pushed;
    var rest := p.q[i + 1..] + [op];
    next, s := rest[0], rest[1..];
    assert i + 1 < |p.q| ==> next == p.q[i + 1];
    SplitAt(p.delivered, p.q, i, rest, op);
  }

  lemma {:induction false} SplitAt(d: seq<Op>, q: seq<Op>, i: nat, rest: seq<Op>, op: Op)
    requires i < |q| && rest == q[i + 1..] + [op]
    ensures d + (Without(q, i) + [op]) == d + q[..i] + [rest[0]] + rest[1..]
    ensures d + q + [op] == d + q[..i] + [q[i]] + [rest[0]] + rest[1..]
  {
    assert rest == [rest[0]] + rest[1..];
    assert q == q[..i] + [q[i]] + q[i + 1..];
  }

  /** Any queue within the limit and without adjacent moves is reached by pushing its elements. */
  lemma {:induction false} Reachable(q: seq<Op>)
    requires NoTwoMoves(q) && |q| <= QUEUE_MAX
    ensures Run(seq(|q|, i requires 0 <= i < |q| => Push(q[i]))) == Pump(q, false, q, [])
  {
    if q != [] {
      var n := |q| - 1;
      Reachable(q[..n]);
      var steps := seq(|q|, i requires 0 <= i < |q| => Push(q[i]));
      assert steps[..n] == seq(|q[..n]|, i requires 0 <= i < |q[..n]| => Push(q[..n][i]));
      assert q[..n] + [q[n]] == q;
    }
  }

  /** A run in which a dropped move misplaces the event that depended on it. */
  lemma {:induction false} OverflowMisplaces()
    ensures exists steps: seq<Step> :: Effects(Run(steps).History()) != Effects(Run(steps).accepted)
  {
    hide Effects, Run;
    var q := [Move(1, 1)] + seq(QUEUE_MAX - 1, i => Button(1, true));
    var steps := seq(|q|, i requires 0 <= i < |q| => Push(q[i]));
    Reachable(q);
    var p, op := Pump(q, false, q, []), Button(1, false);
    assert p.History() == q;
    assert FirstMove(q) == 0 && p.delivered + p.q[..0] == [];
    OverflowExactly(p, op);
    RunLast(steps, Push(op));
    assert Effects(p.Next(Push(op)).History()) != Effects(p.Next(Push(op)).accepted);
  }

  lemma {:induction false} RunLast(steps: seq<Step>, s: Step)
    ensures Run(steps + [s]) == Run(steps).Next(s)
  {
    assert (steps + [s])[..|steps|] == steps;
  }
}
