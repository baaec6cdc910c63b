/** Key frames: a run that has sent rectangles comes to send a whole frame. */
module DeskKeyFrames {
  import opened Base
  import opened DeskTiles
  import opened TileCodec
  import opened DeskEncoder

  /** A run of the loop with what each iteration sends. */
  ghost predicate IsRun(m: Media, hash: Hash, shots: seq<Shot>, es: seq<Encoder>, msgs: seq<Message>) {
    && |es| == |shots| + 1 && |msgs| == |shots|
    && forall i :: 0 <= i < |shots| ==> RunStep(m, hash, es[i], shots[i], es[i + 1], msgs[i])
  }

  ghost predicate RunStep(m: Media, hash: Hash, e: Encoder, shot: Shot, e': Encoder, msg: Message) {
    e.tiler.Valid() && Step(m, hash, e, shot, Outcome(e', msg))
  }

  /**
   Since `last`, the loop has sent rectangles and no whole frame; or a whole frame has failed and
   the tiler has forgotten.
   */
  predicate Owes(e: Encoder, last: Option<int>) {
    !e.tiler.ready || (e.tilesSinceKey && e.lastFullAt == last)
  }

  /** The interval has passed. */
  predicate Late(shot: Shot, last: Option<int>) {
    last.None? || shot.now - last.value > KEY_INTERVAL
  }

  /** An iteration that sends no whole frame still owes one; an iteration that can send one and is late does. */
  lemma {:induction false} StepOwes(m: Media, hash: Hash, e: Encoder, shot: Shot, e': Encoder, msg: Message,
                                    last: Option<int>)
    requires RunStep(m, hash, e, shot, e', msg) && Owes(e, last)
    ensures !msg.Key? ==> Owes(e', last)
    ensures Late(shot, last) && WholeJpeg(m, shot).Some? ==> msg == Key(WholeJpeg(m, shot).value)
  {
    hide Sums, FrameOf, WholeJpeg, AllInside, TilesMessage, IsDifference;
    if shot.tiles {
      var r := Rescaled(e, shot.useScale);
      var u, rects, full :|
        IsChanged(hash, r.tiler, FrameOf(shot), u, rects, full) && AllInside(rects, FrameOf(shot)) &&
        Outcome(e', msg) == Sent(m, shot, r.(tiler := u), rects, full);
      assert !r.tiler.ready ==> full;
    }
  }

  lemma {:induction false} StillOwes(m: Media, hash: Hash, shots: seq<Shot>, es: seq<Encoder>,
                                     msgs: seq<Message>, i: nat, j: nat)
    requires IsRun(m, hash, shots, es, msgs) && i < j <= |shots| && Owes(es[i + 1], es[i + 1].lastFullAt)
    requires forall k :: i < k < j ==> !msgs[k].Key?
    ensures Owes(es[j], es[i + 1].lastFullAt)
    decreases j
  {
    hide RunStep, Owes;
    if j > i + 1 {
      StillOwes(m, hash, shots, es, msgs, i, j - 1);
      assert RunStep(m, hash, es[j - 1], shots[j - 1], es[j - 1 + 1], msgs[j - 1]);
      StepOwes(m, hash, es[j - 1], shots[j - 1], es[j], msgs[j - 1], es[i + 1].lastFullAt);
    }
  }

  lemma {:induction false} RectsOwe(m: Media, hash: Hash, e: Encoder, shot: Shot, e': Encoder, msg: Message)
    requires RunStep(m, hash, e, shot, e', msg) && msg.Rects?
    ensures e'.tilesSinceKey
  {
    hide Sums, FrameOf, WholeJpeg, AllInside, TilesMessage, IsChanged;
  }

  /**
   After rectangles have been sent in iteration `i`, take the first later iteration that comes
   after the interval and in which a whole frame can be sent: if none was sent in between, it is
   sent then. Whole frames that failed in between, changes of scale and iterations without
   rectangles make no difference.
   */
  lemma {:induction false} KeyFollows(m: Media, hash: Hash, shots: seq<Shot>, es: seq<Encoder>,
                                      msgs: seq<Message>, i: nat, j: nat)
    requires IsRun(m, hash, shots, es, msgs) && i < j < |shots| && msgs[i].Rects?
    requires forall k :: i < k < j ==> !msgs[k].Key?
    requires Late(shots[j], es[i + 1].lastFullAt) && WholeJpeg(m, shots[j]).Some?
    ensures msgs[j] == Key(WholeJpeg(m, shots[j]).value)
  {
    hide RunStep, WholeJpeg;
    assert RunStep(m, hash, es[i], shots[i], es[i + 1], msgs[i]);
    RectsOwe(m, hash, es[i], shots[i], es[i + 1], msgs[i]);
    StillOwes(m, hash, shots, es, msgs, i, j);
    assert RunStep(m, hash, es[j], shots[j], es[j + 1], msgs[j]);
    StepOwes(m, hash, es[j], shots[j], es[j + 1], msgs[j], es[i + 1].lastFullAt);
  }
}
