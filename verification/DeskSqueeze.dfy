/**
 When a whole frame can be squeezed onto a canvas that keeps its size: exactly when the sizes of
 the frame and of one of its shrunken forms allow it.
 */
module DeskSqueeze {
  import opened Base
  import opened Frames
  import opened DeskTiles
  import opened TileCodec
  import opened DeskCanvas
  import opened DeskEncoder
  import opened DeskSession

  // ----- frames that cannot be squeezed -----

  /** The memory after a step that sends a whole frame. */
  lemma {:induction false} KeyMemory(m: Media, hash: Hash, slack: nat, s: Session, shot: Shot, t: Session,
                                     jpeg: seq<byte>)
    requires shot.tiles && !Empty(FrameOf(shot)) && SentStep(m, hash, slack, s, shot, t, Key(jpeg))
    ensures t.e.tiler == Seen(hash, FrameOf(shot)) && t.base == FrameOf(shot) && WholeJpeg(m, shot) == Some(jpeg)
    ensures t.canvas == OnKey(m, slack, s.canvas, jpeg)
  {
    hide Sums, FrameOf, WholeJpeg, OnKey, IsChanged, AllInside, TilesMessage;
    var r := Rescaled(s.e, shot.useScale);
    var u: Tiler, rects, full :|
      IsChanged(hash, r.tiler, FrameOf(shot), u, rects, full) && AllInside(rects, FrameOf(shot)) &&
      Outcome(t.e, Key(jpeg)) == Sent(m, shot, r.(tiler := u), rects, full);
    ChangedMemory(hash, r.tiler, FrameOf(shot), u, rects, full);
  }

  /** A delivered whole frame restores the agreement, whatever the canvas showed before, lost messages included. */
  lemma {:induction false} KeyHeals(m: Media, hash: Hash, slack: nat, s: Session, shot: Shot, t: Session,
                                    jpeg: seq<byte>)
    requires Lossless(m) && Draws(m) && shot.tiles && !Empty(FrameOf(shot)) && !CanSqueeze(slack, shot)
    requires SentStep(m, hash, slack, s, shot, t, Key(jpeg))
    ensures Agrees(hash, t)
  {
    hide Lossless, Draws, CanSqueeze, FrameOf, SentStep;
    KeyMemory(m, hash, slack, s, shot, t, jpeg);
    AgreesAfterKey(m, hash, slack, s, shot, t, jpeg);
  }

  // ----- frames that can -----

  function Long(shot: Shot): (b: seq<byte>)
    ensures |b| == SoftMax(shot) + 1
  {
    seq(SoftMax(shot) + 1, i => 0)
  }

  /** A pixel other than the first of the frame. */
  function OtherPixel(f: Frame): Pixel {
    if f.w > 0 && f.h > 0 && At(f, 0, 0) == 0 then 1 else 0
  }

  /**
   A coder for the frame and one of its shrunken forms, the first too long to be sent and the
   second not, on a platform that paints stretched pictures in one colour.
   */
  ghost function Squeezer(shot: Shot, img: Frame): Media {
    Media(
      (f, q) => if f == FrameOf(shot) then Some(Long(shot)) else if f == img then Some([1]) else None,
      b => if b == Long(shot) then Some(FrameOf(shot)) else if b == [1] then Some(img) else None,
      (f: Frame, w, h) => if f.w == w && f.h == h then f
        else Drawn(w, h, (x: nat, y: nat) => OtherPixel(FrameOf(shot))))
  }

  lemma {:induction false} SqueezerIsGood(shot: Shot, img: Frame)
    requires Codable(FrameOf(shot)) && Codable(img) && img != FrameOf(shot)
    ensures Lossless(Squeezer(shot, img)) && Draws(Squeezer(shot, img))
  {
    assert |Long(shot)| == SoftMax(shot) + 1 > 1;
    hide FrameOf, Long, Drawn, OtherPixel;
  }

  lemma {:induction false} SqueezerShrinks(shot: Shot, img: Frame, i: nat, k: nat)
    requires i <= k < |Attempts(shot)| && img == AttemptFrame(shot, Attempts(shot)[k]) && img != FrameOf(shot)
    ensures Shrunk(Squeezer(shot, img), shot, i, Long(shot)) == [1]
    decreases k - i
  {
    hide FrameOf, Long, Drawn, OtherPixel, Attempts, AttemptFrame, AttemptQuality;
    if AttemptFrame(shot, Attempts(shot)[i]) != img {
      SqueezerShrinks(shot, img, i + 1, k);
    }
  }

  lemma {:induction false} SqueezerSends(shot: Shot, img: Frame, k: nat)
    requires k < |Attempts(shot)| && img == AttemptFrame(shot, Attempts(shot)[k]) && img != FrameOf(shot)
    ensures WholeJpeg(Squeezer(shot, img), shot) == Some([1])
  {
    SqueezerShrinks(shot, img, 0, k);
    hide FrameOf, Long, Drawn, OtherPixel, Attempts, AttemptFrame, Shrunk;
  }

  /** The first iteration of a session whose canvas happens to have the frame's size. */
  ghost function Before(shot: Shot): Session {
    Session(Encoder(Tiler(0, 0, 0, 0, [], false), -1.0, None, false), FrameOf(shot), FrameOf(shot))
  }

  ghost function After(hash: Hash, slack: nat, shot: Shot, img: Frame): Session {
    Session(Encoder(Seen(hash, FrameOf(shot)), shot.useScale, Some(shot.now), false),
            OnKey(Squeezer(shot, img), slack, FrameOf(shot), [1]), FrameOf(shot))
  }

  lemma {:induction false} SqueezedStep(hash: Hash, slack: nat, shot: Shot, img: Frame, k: nat)
    requires k < |Attempts(shot)| && img == AttemptFrame(shot, Attempts(shot)[k]) && img != FrameOf(shot)
    requires shot.tiles && !Empty(FrameOf(shot))
    ensures SentStep(Squeezer(shot, img), hash, slack, Before(shot), shot, After(hash, slack, shot, img), Key([1]))
  {
    var m := Squeezer(shot, img);
    SqueezerSends(shot, img, k);
    hide FrameOf, WholeJpeg, Squeezer, Sums, OnKey, Attempts, AttemptFrame;
    var e := Before(shot).e;
    assert IsChanged(hash, Rescaled(e, shot.useScale).tiler, FrameOf(shot), Seen(hash, FrameOf(shot)), [], true);
    assert Step(m, hash, e, shot, Outcome(After(hash, slack, shot, img).e, Key([1])));
  }

  lemma {:induction false} SqueezedCanvas(hash: Hash, slack: nat, shot: Shot, img: Frame)
    requires !Empty(FrameOf(shot)) && !Empty(img) && Squeezing(slack, FrameOf(shot), img)
    ensures !Agrees(hash, After(hash, slack, shot, img))
  {
    var f := FrameOf(shot);
    hide FrameOf, Sums;
    assert [1] != Long(shot) by { assert |Long(shot)| > 1; }
    hide Long;
    var c := OnKey(Squeezer(shot, img), slack, f, [1]);
    assert c == Drawn(f.w, f.h, (x: nat, y: nat) => OtherPixel(f));
    assert At(c, 0, 0) != At(f, 0, 0);
  }

  /** An empty frame is never scaled. */
  lemma {:induction false} EmptyUnscaled(src: Frame, scale: real)
    requires Empty(ScaleImage(src, scale))
    ensures ScaleImage(src, scale) == src && Empty(src)
  {
  }

  lemma {:induction false} SqueezedNotEmpty(slack: nat, shot: Shot, k: nat)
    requires k < |Attempts(shot)| && Squeezing(slack, FrameOf(shot), AttemptFrame(shot, Attempts(shot)[k]))
    ensures !Empty(FrameOf(shot)) && !Empty(AttemptFrame(shot, Attempts(shot)[k]))
  {
    var scale := if Attempts(shot)[k].scale < 0.3 then 0.3 else Attempts(shot)[k].scale;
    hide ScaleImage, Attempts;
    ScaledEmpty(shot.img, scale, shot.useScale);
    if Empty(FrameOf(shot)) {
      EmptyUnscaled(shot.img, shot.useScale);
      EmptyUnscaled(shot.img, scale);
    }
  }

  // ----- the exact condition -----

  /** A lossless platform and a step from an agreeing state to one that does not agree. */
  ghost predicate Breaks(m: Media, hash: Hash, slack: nat, s: Session, shot: Shot, t: Session) {
    && Lossless(m) && Draws(m) && ToldApart(hash, s, shot)
    && Agrees(hash, s) && SessionStep(m, hash, slack, s, shot, t) && !Agrees(hash, t)
  }

  /**
   An iteration with rectangles allowed is safe on every lossless platform, from every agreeing
   state, if and only if the sizes of its frames cannot be squeezed.
   */
  lemma {:induction false} StepSafeExactly(hash: Hash, slack: nat, shot: Shot)
    requires shot.tiles
    ensures CanSqueeze(slack, shot) <==> exists m, s, t :: Breaks(m, hash, slack, s, shot, t)
  {
    if CanSqueeze(slack, shot) {
      var m, s, t := SqueezedRun(hash, slack, shot);
    }
    hide CanSqueeze;
    if m, s, t :| Breaks(m, hash, slack, s, shot, t) {
      if !CanSqueeze(slack, shot) {
        StepAgrees(m, hash, slack, s, shot, t);
      }
    }
  }

  lemma {:induction false} SqueezedRun(hash: Hash, slack: nat, shot: Shot) returns (m: Media, s: Session, t: Session)
    requires shot.tiles && CanSqueeze(slack, shot)
    ensures Breaks(m, hash, slack, s, shot, t) && SentStep(m, hash, slack, s, shot, t, Key([1]))
    ensures !Empty(FrameOf(shot))
  {
    hide FrameOf, Attempts, AttemptFrame, Lossless, Draws;
    var k :| 0 <= k < |Attempts(shot)| && Squeezing(slack, FrameOf(shot), AttemptFrame(shot, Attempts(shot)[k]));
    var img := AttemptFrame(shot, Attempts(shot)[k]);
    SqueezedNotEmpty(slack, shot, k);
    SqueezerIsGood(shot, img);
    SqueezedStep(hash, slack, shot, img, k);
    SqueezedCanvas(hash, slack, shot, img);
    hide SentStep, After, Squeezer;
    m, s, t := Squeezer(shot, img), Before(shot), After(hash, slack, shot, img);
  }

  /**
   A delivered whole frame restores the agreement on every lossless platform and from every
   state, agreeing or not, if and only if the sizes of its frames cannot be squeezed.
   */
  lemma {:induction false} KeyHealsExactly(hash: Hash, slack: nat, shot: Shot)
    requires shot.tiles && !Empty(FrameOf(shot))
    ensures !CanSqueeze(slack, shot) <==>
      forall m, s, t, jpeg ::
        Lossless(m) && Draws(m) && SentStep(m, hash, slack, s, shot, t, Key(jpeg)) ==> Agrees(hash, t)
  {
    hide FrameOf, Lossless, Draws, SentStep, Agrees;
    if CanSqueeze(slack, shot) {
      var m, s, t := SqueezedRun(hash, slack, shot);
    }
    hide CanSqueeze;
    if !CanSqueeze(slack, shot) {
      forall m, s, t, jpeg | Lossless(m) && Draws(m) && SentStep(m, hash, slack, s, shot, t, Key(jpeg))
        ensures Agrees(hash, t)
      {
        KeyHeals(m, hash, slack, s, shot, t, jpeg);
      }
    }
  }

  // ----- which sizes -----

  /** A canvas that takes on every size squeezes nothing. */
  lemma {:induction false} ExactSizeNeverSqueezes(shot: Shot)
    ensures !CanSqueeze(0, shot)
  {
    hide FrameOf, AttemptFrame, Attempts;
  }

  /**
   A screen of 7680 by 4320 pixels shown at scale 0.3002. The first attempt at a smaller picture
   is made at scale 0.3, the least that is allowed, and loses one column of pixels.
   */
  predicate LargeScreen(shot: Shot) {
    shot.img.w == 7680 && shot.img.h == 4320 && shot.useScale == 0.3002
  }

  lemma {:induction false} LargeSizes(shot: Shot)
    requires LargeScreen(shot)
    ensures FrameOf(shot).w == 2305 && FrameOf(shot).h == 1296
    ensures var a := AttemptFrame(shot, Attempts(shot)[0]); a.w == 2304 && a.h == 1296
  {
    assert ScaledLength(7680, 0.3002) == 2305 && ScaledLength(4320, 0.3002) == 1296;
    assert ScaledLength(7680, 0.3) == 2304 && ScaledLength(4320, 0.3) == 1296;
  }

  /**
   Every such screen, whatever it shows and whether or not somebody is typing, can be squeezed
   in the live view, with its slack of two pixels; and it is the first attempt that does it.
   */
  lemma {:induction false} LargeScreenCanSqueeze(shot: Shot)
    requires LargeScreen(shot)
    ensures Squeezing(2, FrameOf(shot), AttemptFrame(shot, Attempts(shot)[0])) && CanSqueeze(2, shot)
  {
    LargeSizes(shot);
    hide FrameOf, AttemptFrame;
    assert Squeezing(2, FrameOf(shot), AttemptFrame(shot, Attempts(shot)[0]));
  }

  /**
   On every platform on which the frame's picture is over the soft limit and that of the first
   attempt is not, the picture sent is that of the first attempt, and no other is asked for.
   */
  lemma {:induction false} FirstAttemptSent(m: Media, shot: Shot)
    requires m.encode(FrameOf(shot), shot.quality).Some? && AttemptJpeg(m, shot, 0).Some?
    requires |AttemptJpeg(m, shot, 0).value| <= SoftMax(shot) < |m.encode(FrameOf(shot), shot.quality).value|
    requires AttemptJpeg(m, shot, 0).value != []
    ensures WholeJpeg(m, shot) == AttemptJpeg(m, shot, 0)
  {
    hide FrameOf, AttemptFrame, AttemptQuality;
  }

  /**
   So this screen breaks the agreement on every lossless platform that codes it that way, unless
   stretching the one picture happens to give the other.
   */
  lemma {:induction false} LargeScreenBreaks(m: Media, hash: Hash, shot: Shot, s: Session, t: Session)
    requires Lossless(m) && Draws(m) && LargeScreen(shot) && shot.tiles
    requires m.encode(FrameOf(shot), shot.quality).Some? && AttemptJpeg(m, shot, 0).Some?
    requires |AttemptJpeg(m, shot, 0).value| <= SoftMax(shot) < |m.encode(FrameOf(shot), shot.quality).value|
    requires m.stretch(AttemptFrame(shot, Attempts(shot)[0]), 2305, 1296) != FrameOf(shot)
    requires !s.e.tiler.ready && SameSize(s.canvas, FrameOf(shot)) && SessionStep(m, hash, 2, s, shot, t)
    ensures Agrees(hash, s) && !Agrees(hash, t)
  {
    LargeSizes(shot);
    AttemptPainted(m, shot);
    var jpeg, img := AttemptJpeg(m, shot, 0).value, AttemptFrame(shot, Attempts(shot)[0]);
    SqueezedOnto(m, 2, s.canvas, jpeg, img);
    hide FrameOf, AttemptFrame, Attempts, AttemptJpeg, Lossless, Draws, Sums, ScaleImage, OnKey, SentStep, SessionStep;
    FirstAttemptSent(m, shot);
    FirstSendsWhole(m, hash, 2, s, shot, t);
    KeyMemory(m, hash, 2, s, shot, t, jpeg);
    CanvasDiffers(m, hash, t, img);
  }

  lemma {:induction false} SqueezedOnto(m: Media, slack: nat, c: Frame, jpeg: seq<byte>, img: Frame)
    requires m.decode(jpeg) == Some(img) && !Empty(img) && Near(slack, c, img)
    ensures OnKey(m, slack, c, jpeg) == m.stretch(img, c.w, c.h)
  {
  }

  lemma {:induction false} CanvasDiffers(m: Media, hash: Hash, t: Session, img: Frame)
    requires Draws(m) && t.e.tiler == Seen(hash, t.base)
    requires t.canvas == m.stretch(img, t.base.w, t.base.h) != t.base
    ensures !Agrees(hash, t)
  {
  }

  lemma {:induction false} AttemptPainted(m: Media, shot: Shot)
    requires Lossless(m) && AttemptJpeg(m, shot, 0).Some?
    ensures AttemptJpeg(m, shot, 0).value != []
    ensures m.decode(AttemptJpeg(m, shot, 0).value) == Some(AttemptFrame(shot, Attempts(shot)[0]))
  {
    hide AttemptFrame, AttemptQuality;
  }

  /** While the tiler remembers nothing, a whole frame is sent if one can be. */
  lemma {:induction false} FirstSendsWhole(m: Media, hash: Hash, slack: nat, s: Session, shot: Shot, t: Session)
    requires shot.tiles && !s.e.tiler.ready && WholeJpeg(m, shot).Some? && SessionStep(m, hash, slack, s, shot, t)
    ensures SentStep(m, hash, slack, s, shot, t, Key(WholeJpeg(m, shot).value))
  {
    hide Sums, FrameOf, WholeJpeg, OnKey, AllInside, TilesMessage, IsDifference, OnTiles;
    var msg :| SentStep(m, hash, slack, s, shot, t, msg);
    var r := Rescaled(s.e, shot.useScale);
    var u, rects, full :|
      IsChanged(hash, r.tiler, FrameOf(shot), u, rects, full) && AllInside(rects, FrameOf(shot)) &&
      Outcome(t.e, msg) == Sent(m, shot, r.(tiler := u), rects, full);
    assert full;
  }

  /** There are such platforms and sessions. */
  lemma {:induction false} LargeScreenHappens(hash: Hash, shot: Shot) returns (m: Media, s: Session, t: Session)
    requires LargeScreen(shot) && shot.tiles
    ensures Breaks(m, hash, 2, s, shot, t)
  {
    LargeScreenCanSqueeze(shot);
    m, s, t := SqueezedRun(hash, 2, shot);
  }
}
