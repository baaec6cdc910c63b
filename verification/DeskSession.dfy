/**
 A desktop session from the capture to the browser's canvas: the canvas never mixes frames.

 Messages arrive in order and are painted one after the other.
 */
module DeskSession {
  import opened Base
  import opened Frames
  import opened TileMerge
  import opened DeskTiles
  import opened TileCodec
  import opened DeskCanvas
  import opened DeskEncoder

  /** The loop's variables, the canvas, and the last frame whose checksums were taken. */
  datatype Session = Session(e: Encoder, canvas: Frame, base: Frame)

  function Delivered(m: Media, slack: nat, c: Frame, msg: Message): Frame {
    match msg
    case Nothing => c
    case Rects(payload) => OnTiles(m, c, payload)
    case Key(jpeg) => OnKey(m, slack, c, jpeg)
  }

  predicate Empty(f: Frame) {
    f.w == 0 || f.h == 0
  }

  function Hashed(shot: Shot, base: Frame): Frame {
    if shot.tiles && !Empty(FrameOf(shot)) then FrameOf(shot) else base
  }

  ghost predicate SentStep(m: Media, hash: Hash, slack: nat, s: Session, shot: Shot, t: Session, msg: Message) {
    && s.e.tiler.Valid() && Step(m, hash, s.e, shot, Outcome(t.e, msg))
    && t.canvas == Delivered(m, slack, s.canvas, msg) && t.base == Hashed(shot, s.base)
  }

  ghost predicate SessionStep(m: Media, hash: Hash, slack: nat, s: Session, shot: Shot, t: Session) {
    exists msg :: SentStep(m, hash, slack, s, shot, t, msg)
  }

  /** While the tiler remembers anything, it is the frame `base`, and a canvas of that size shows that frame. */
  ghost predicate Agrees(hash: Hash, s: Session) {
    s.e.tiler.ready ==>
      && s.e.tiler == Seen(hash, s.base)
      && 0 < s.base.w < 0x1_0000 && 0 < s.base.h < 0x1_0000
      && (SameSize(s.canvas, s.base) ==> s.canvas == s.base)
  }

  // ----- whole frames -----

  /** The frames that an iteration may send whole: the scaled frame, and those of the attempts at a smaller one. */
  predicate CanBeSent(shot: Shot, img: Frame) {
    img == FrameOf(shot) || exists i :: 0 <= i < |Attempts(shot)| && img == AttemptFrame(shot, Attempts(shot)[i])
  }

  /** The message is a picture of one of these frames. */
  ghost predicate IsPicture(m: Media, shot: Shot, jpeg: seq<byte>) {
    exists img :: m.decode(jpeg) == Some(img) && CanBeSent(shot, img)
  }

  lemma {:induction false} ShrunkIsPicture(m: Media, shot: Shot, i: nat, jpeg: seq<byte>)
    requires Lossless(m) && i <= |Attempts(shot)| && IsPicture(m, shot, jpeg)
    ensures IsPicture(m, shot, Shrunk(m, shot, i, jpeg))
    decreases |Attempts(shot)| - i
  {
    hide IsPicture, Attempts, AttemptQuality, AttemptFrame;
    if i < |Attempts(shot)| {
      var a := Attempts(shot)[i];
      if m.encode(AttemptFrame(shot, a), AttemptQuality(shot, a)).Some? {
        AttemptIsPicture(m, shot, i);
      }
      hide Lossless;
      ShrunkIsPicture(m, shot, i + 1, Smaller(m, shot, a, jpeg));
    }
  }

  lemma {:induction false} AttemptIsPicture(m: Media, shot: Shot, i: nat)
    requires Lossless(m) && i < |Attempts(shot)| && AttemptJpeg(m, shot, i).Some?
    ensures IsPicture(m, shot, AttemptJpeg(m, shot, i).value)
  {
    hide Attempts, AttemptQuality, AttemptFrame;
    assert CanBeSent(shot, AttemptFrame(shot, Attempts(shot)[i]));
  }

  lemma {:induction false} FrameIsPicture(m: Media, shot: Shot, q: int)
    requires Lossless(m) && m.encode(FrameOf(shot), q).Some?
    ensures IsPicture(m, shot, m.encode(FrameOf(shot), q).value)
  {
    hide FrameOf, Attempts;
    assert CanBeSent(shot, FrameOf(shot));
  }

  /** Whatever is sent as a whole frame is a picture of one of these frames. */
  lemma {:induction false} WholeIsPicture(m: Media, shot: Shot)
    requires Lossless(m) && WholeJpeg(m, shot).Some?
    ensures IsPicture(m, shot, WholeJpeg(m, shot).value)
    ensures FrameOf(shot).w < 0x1_0000 && FrameOf(shot).h < 0x1_0000
  {
    var jpeg := m.encode(FrameOf(shot), shot.quality).value;
    assert FrameOf(shot).w < 0x1_0000 && FrameOf(shot).h < 0x1_0000;
    FrameIsPicture(m, shot, shot.quality);
    hide Lossless, IsPicture;
    ShrunkIsPicture(m, shot, 0, jpeg);
  }

  /** Each of them is the captured frame at some scale. */
  lemma {:induction false} SentIsScaled(shot: Shot, img: Frame) returns (scale: real)
    requires CanBeSent(shot, img)
    ensures img == ScaleImage(shot.img, scale)
  {
    hide ScaleImage, Attempts;
    if img == FrameOf(shot) {
      scale := shot.useScale;
    } else {
      var i :| 0 <= i < |Attempts(shot)| && img == AttemptFrame(shot, Attempts(shot)[i]);
      scale := if Attempts(shot)[i].scale < 0.3 then 0.3 else Attempts(shot)[i].scale;
    }
  }

  lemma {:induction false} ScaledEmpty(src: Frame, s: real, t: real)
    ensures Empty(ScaleImage(src, s)) <==> Empty(ScaleImage(src, t))
  {
  }

  /** A picture can be coded. */
  predicate Codable(f: Frame) {
    f.w < 0x1_0000 && f.h < 0x1_0000
  }

  /**
   Shrinking can leave the frame at another size, yet one that a canvas of the frame's own size
   does not take on. This depends on sizes only.
   */
  predicate CanSqueeze(slack: nat, shot: Shot) {
    Codable(FrameOf(shot)) &&
    exists i :: 0 <= i < |Attempts(shot)| && Squeezing(slack, FrameOf(shot), AttemptFrame(shot, Attempts(shot)[i]))
  }

  predicate Squeezing(slack: nat, f: Frame, img: Frame) {
    Codable(img) && !SameSize(img, f) && Near(slack, f, img)
  }

  lemma {:induction false} SentSize(slack: nat, shot: Shot, img: Frame)
    requires CanBeSent(shot, img) && Codable(img) && Codable(FrameOf(shot)) && !CanSqueeze(slack, shot)
    ensures if SameSize(img, FrameOf(shot)) then img == FrameOf(shot) else !Near(slack, FrameOf(shot), img)
    ensures Empty(img) <==> Empty(FrameOf(shot))
  {
    var scale := SentIsScaled(shot, img);
    ScaledEmpty(shot.img, scale, shot.useScale);
    hide ScaleImage, Attempts, AttemptFrame;
    if SameSize(img, FrameOf(shot)) {
      SizeDetermines(shot.img, scale, shot.useScale);
    } else {
      var i :| 0 <= i < |Attempts(shot)| && img == AttemptFrame(shot, Attempts(shot)[i]);
      assert !Squeezing(slack, FrameOf(shot), AttemptFrame(shot, Attempts(shot)[i]));
    }
  }

  /** A delivered whole frame that cannot be squeezed is the scaled frame if the canvas then has its size. */
  lemma {:induction false} KeyPaints(m: Media, slack: nat, c: Frame, shot: Shot)
    requires Lossless(m) && Draws(m) && WholeJpeg(m, shot).Some? && !Empty(FrameOf(shot)) && !CanSqueeze(slack, shot)
    ensures var f := FrameOf(shot);
      var d := OnKey(m, slack, c, WholeJpeg(m, shot).value);
      SameSize(d, f) ==> d == f
  {
    WholeIsPicture(m, shot);
    PictureCodable(m, shot);
    var img :| m.decode(WholeJpeg(m, shot).value) == Some(img) && CanBeSent(shot, img);
    hide Lossless, WholeJpeg, FrameOf, CanBeSent, CanSqueeze;
    SentSize(slack, shot, img);
  }

  lemma {:induction false} ShrunkCodable(m: Media, shot: Shot, i: nat, jpeg: seq<byte>)
    requires Lossless(m) && i <= |Attempts(shot)| && (m.decode(jpeg).Some? ==> Codable(m.decode(jpeg).value))
    ensures var r := Shrunk(m, shot, i, jpeg); m.decode(r).Some? ==> Codable(m.decode(r).value)
    decreases |Attempts(shot)| - i
  {
    hide Attempts, AttemptQuality, AttemptFrame;
    if i < |Attempts(shot)| {
      var a := Attempts(shot)[i];
      ShrunkCodable(m, shot, i + 1, Smaller(m, shot, a, jpeg));
    }
  }

  lemma {:induction false} PictureCodable(m: Media, shot: Shot)
    requires Lossless(m) && WholeJpeg(m, shot).Some?
    ensures var d := m.decode(WholeJpeg(m, shot).value); d.Some? ==> Codable(d.value)
  {
    hide FrameOf;
    ShrunkCodable(m, shot, 0, m.encode(FrameOf(shot), shot.quality).value);
  }

  // ----- one step -----

  /** If nothing is reported as changed, nothing has. */
  lemma {:induction false} UnchangedIsSame(hash: Hash, base: Frame, f: Frame, u: Tiler)
    requires Separates(hash, {base, f}) && SameSize(base, f) && !Empty(f)
    requires IsChanged(hash, Seen(hash, base), f, u, [], false)
    ensures base == f
  {
    hide Separates, IsChanged, Seen, SameTile;
    ChangedExactly(hash, base, f, u, []);
    forall x, y | 0 <= x < f.w && 0 <= y < f.h
      ensures At(base, x, y) == At(f, x, y)
    {
      assert !Covered([], x, y);
      SameTileAt(base, f, x, y);
    }
    FramesEqual(base, f);
  }

  /** What the tiler reports without asking for a whole frame is about the frame it remembers. */
  lemma {:induction false} ReportsAgainstBase(hash: Hash, s: Session, scale: real, f: Frame, u: Tiler, rects: seq<Rect>)
    requires Agrees(hash, s) && s.e.tiler.Valid()
    requires IsChanged(hash, Rescaled(s.e, scale).tiler, f, u, rects, false)
    ensures s.e.tiler.ready && s.e.tiler == Seen(hash, s.base) && SameSize(s.base, f) && !Empty(f)
    ensures Rescaled(s.e, scale).tiler.ready
    ensures IsChanged(hash, Seen(hash, s.base), f, u, rects, false) && u == Seen(hash, f)
  {
    hide Sums, IsDifference;
  }

  /** After a whole frame that was sent and cannot be squeezed, whatever the canvas showed before. */
  lemma {:induction false} AgreesAfterKey(m: Media, hash: Hash, slack: nat, s: Session, shot: Shot,
                                          t: Session, jpeg: seq<byte>)
    requires Lossless(m) && Draws(m) && !Empty(FrameOf(shot))
    requires WholeJpeg(m, shot) == Some(jpeg) && !CanSqueeze(slack, shot)
    requires t.e.tiler == Seen(hash, FrameOf(shot)) && t.base == FrameOf(shot)
    requires t.canvas == OnKey(m, slack, s.canvas, jpeg)
    ensures Agrees(hash, t)
  {
    hide Lossless, Draws, WholeJpeg, FrameOf, Sums, OnKey, CanSqueeze;
    KeyPaints(m, slack, s.canvas, shot);
    WholeIsPicture(m, shot);
  }

  /** One step with rectangles allowed keeps the agreement. */
  lemma {:induction false} StepAgrees(m: Media, hash: Hash, slack: nat, s: Session, shot: Shot, t: Session)
    requires Lossless(m) && Draws(m) && ToldApart(hash, s, shot) && shot.tiles
    requires Agrees(hash, s) && SessionStep(m, hash, slack, s, shot, t) && !CanSqueeze(slack, shot)
    ensures Agrees(hash, t)
  {
    hide Lossless, Draws, Separates, Sums, FrameOf, WholeJpeg, OnKey;
    hide OnTiles, IsChanged, AllInside, TilesMessage, CanSqueeze, ExactDifference;
    var msg :| SentStep(m, hash, slack, s, shot, t, msg);
    var f := FrameOf(shot);
    var r := Rescaled(s.e, shot.useScale);
    var u: Tiler, rects: seq<Rect>, full: bool :|
      IsChanged(hash, r.tiler, f, u, rects, full) && AllInside(rects, f) &&
      Outcome(t.e, msg) == Sent(m, shot, r.(tiler := u), rects, full);
    match msg {
      case Nothing =>
        if t.e.tiler.ready {
          ReportsAgainstBase(hash, s, shot.useScale, f, u, rects);
          UnchangedIsSame(hash, s.base, f, u);
        }
      case Rects(payload) =>
        ReportsAgainstBase(hash, s, shot.useScale, f, u, rects);
        ChangedExactly(hash, s.base, f, u, rects);
        TilesRepaint(m, s.base, f, rects, shot.quality);
      case Key(jpeg) =>
        ChangedMemory(hash, r.tiler, f, u, rects, full);
        if Empty(f) {
          EmptyKeyIgnored(m, slack, s.canvas, shot);
        } else {
          AgreesAfterKey(m, hash, slack, s, shot, t, jpeg);
        }
    }
  }

  lemma {:induction false} ChangedMemory(hash: Hash, t: Tiler, f: Frame, u: Tiler, rects: seq<Rect>, full: bool)
    requires t.Valid() && IsChanged(hash, t, f, u, rects, full)
    ensures u == if Empty(f) then t else Seen(hash, f)
  {
  }

  lemma {:induction false} EmptyKeyIgnored(m: Media, slack: nat, c: Frame, shot: Shot)
    requires Lossless(m) && Empty(FrameOf(shot)) && WholeJpeg(m, shot).Some?
    ensures OnKey(m, slack, c, WholeJpeg(m, shot).value) == c
  {
    WholeIsPicture(m, shot);
    var jpeg := WholeJpeg(m, shot).value;
    var img :| m.decode(jpeg) == Some(img) && CanBeSent(shot, img);
    var scale := SentIsScaled(shot, img);
    ScaledEmpty(shot.img, scale, shot.useScale);
  }

  // ----- whole runs -----

  /**
   The canvas shows one of the first `n` captured frames, whole, at a size near that of the picture
   sent; or what it showed at first.
   */
  ghost predicate Whole(m: Media, slack: nat, shots: seq<Shot>, n: nat, first: Frame, c: Frame)
    requires n <= |shots|
  {
    c == first || exists k: nat, scale: real :: k < n && ShowsWhole(m, slack, shots[k], scale, c)
  }

  ghost predicate ShowsWhole(m: Media, slack: nat, shot: Shot, scale: real, c: Frame) {
    Near(slack, c, ScaleImage(shot.img, scale)) && c == m.stretch(ScaleImage(shot.img, scale), c.w, c.h)
  }

  lemma {:induction false} WholeStays(m: Media, slack: nat, shots: seq<Shot>, n: nat, first: Frame, c: Frame)
    requires n < |shots| && Whole(m, slack, shots, n, first, c)
    ensures Whole(m, slack, shots, n + 1, first, c)
  {
    hide ShowsWhole;
    if c != first {
      var k: nat, scale: real :| k < n && ShowsWhole(m, slack, shots[k], scale, c);
    }
  }

  /** Painting a whole frame leaves that frame, or nothing new. */
  lemma {:induction false} KeyIsWhole(m: Media, slack: nat, c: Frame, shot: Shot) returns (scale: real)
    requires Lossless(m) && Draws(m) && WholeJpeg(m, shot).Some?
    ensures var d := OnKey(m, slack, c, WholeJpeg(m, shot).value);
      d == c || ShowsWhole(m, slack, shot, scale, d)
  {
    WholeIsPicture(m, shot);
    var jpeg := WholeJpeg(m, shot).value;
    var img :| m.decode(jpeg) == Some(img) && CanBeSent(shot, img);
    scale := SentIsScaled(shot, img);
    hide Lossless, WholeJpeg, ScaleImage, CanBeSent;
  }

  /** One step with rectangles allowed leaves the canvas as it was or with the captured frame on all of it. */
  lemma {:induction false} StepWhole(m: Media, hash: Hash, slack: nat, s: Session, shot: Shot, t: Session)
    returns (scale: real)
    requires Lossless(m) && Draws(m) && ToldApart(hash, s, shot) && shot.tiles
    requires Agrees(hash, s) && SessionStep(m, hash, slack, s, shot, t)
    ensures t.canvas == s.canvas || ShowsWhole(m, slack, shot, scale, t.canvas)
  {
    hide Lossless, Separates, Sums, ScaleImage, WholeJpeg, OnKey;
    hide OnTiles, IsChanged, AllInside, TilesMessage, ExactDifference;
    var msg :| SentStep(m, hash, slack, s, shot, t, msg);
    var f := FrameOf(shot);
    var r := Rescaled(s.e, shot.useScale);
    var u: Tiler, rects: seq<Rect>, full: bool :|
      IsChanged(hash, r.tiler, f, u, rects, full) && AllInside(rects, f) &&
      Outcome(t.e, msg) == Sent(m, shot, r.(tiler := u), rects, full);
    scale := shot.useScale;
    match msg {
      case Nothing =>
      case Rects(payload) =>
        ReportsAgainstBase(hash, s, shot.useScale, f, u, rects);
        ChangedExactly(hash, s.base, f, u, rects);
        TilesRepaint(m, s.base, f, rects, shot.quality);
        if SameSize(s.canvas, f) {
          assert t.canvas == f;
        }
      case Key(jpeg) =>
        scale := KeyIsWhole(m, slack, s.canvas, shot);
    }
  }

  /** A run of the loop with the canvas it feeds: `ss[i]` is the state before iteration `i`. */
  ghost predicate IsSession(m: Media, hash: Hash, slack: nat, shots: seq<Shot>, ss: seq<Session>) {
    && |ss| == |shots| + 1 && !ss[0].e.tiler.ready
    && forall i :: 0 <= i < |shots| ==> SessionStep(m, hash, slack, ss[i], shots[i], ss[i + 1])
  }

  ghost predicate AllTiles(shots: seq<Shot>) {
    forall i :: 0 <= i < |shots| ==> shots[i].tiles
  }

  predicate NoneCanSqueeze(slack: nat, shots: seq<Shot>) {
    forall i :: 0 <= i < |shots| ==> !CanSqueeze(slack, shots[i])
  }

  ghost predicate Good(m: Media, hash: Hash, slack: nat, shots: seq<Shot>, ss: seq<Session>, n: nat)
    requires |ss| == |shots| + 1 && n <= |shots|
  {
    Agrees(hash, ss[n]) && Whole(m, slack, shots, n, ss[0].canvas, ss[n].canvas)
  }

  /**
   The tiler compares the frame of this iteration with the one it remembers, and no tile that
   differs has one checksum in both.
   */
  ghost predicate ToldApart(hash: Hash, s: Session, shot: Shot) {
    Rescaled(s.e, shot.useScale).tiler.ready ==> Separates(hash, {s.base, FrameOf(shot)})
  }

  /** The checksum tells apart the tiles that the run compares. */
  ghost predicate AllToldApart(hash: Hash, shots: seq<Shot>, ss: seq<Session>)
    requires |ss| == |shots| + 1
  {
    forall i :: 0 <= i < |shots| ==> ToldApart(hash, ss[i], shots[i])
  }

  /**
   No mixed picture: in every run with rectangles allowed throughout and frames of sizes that
   cannot be squeezed, the canvas always shows one captured frame, whole, and when it has the
   size the tiler works with, that frame is the one whose checksums the tiler has.
   */
  lemma {:induction false} NoMixedPicture(m: Media, hash: Hash, slack: nat, shots: seq<Shot>, ss: seq<Session>, n: nat)
    requires Lossless(m) && Draws(m) && IsSession(m, hash, slack, shots, ss) && AllTiles(shots) && n <= |shots|
    requires AllToldApart(hash, shots, ss) && NoneCanSqueeze(slack, shots)
    ensures Good(m, hash, slack, shots, ss, n)
  {
    hide Lossless, Draws, ToldApart, SessionStep, Agrees, CanSqueeze, Whole, ShowsWhole;
    if n == 0 {
      NothingSeen(m, hash, slack, shots, ss);
    } else {
      NoMixedPicture(m, hash, slack, shots, ss, n - 1);
      OneMore(m, hash, slack, shots, ss, n - 1);
    }
  }

  lemma {:induction false} NothingSeen(m: Media, hash: Hash, slack: nat, shots: seq<Shot>, ss: seq<Session>)
    requires IsSession(m, hash, slack, shots, ss)
    ensures Good(m, hash, slack, shots, ss, 0)
  {
  }

  lemma {:induction false} OneMore(m: Media, hash: Hash, slack: nat, shots: seq<Shot>, ss: seq<Session>, n: nat)
    requires Lossless(m) && Draws(m) && n < |shots| && IsSession(m, hash, slack, shots, ss) && AllTiles(shots)
    requires ToldApart(hash, ss[n], shots[n]) && !CanSqueeze(slack, shots[n])
    requires Good(m, hash, slack, shots, ss, n)
    ensures Good(m, hash, slack, shots, ss, n + 1)
  {
    hide Lossless, Draws, SessionStep, CanSqueeze, ShowsWhole;
    var s, shot, t := ss[n], shots[n], ss[n + 1];
    assert SessionStep(m, hash, slack, s, shot, t);
    hide Agrees, ToldApart;
    StepAgrees(m, hash, slack, s, shot, t);
    var scale := StepWhole(m, hash, slack, s, shot, t);
    WholeStays(m, slack, shots, n, ss[0].canvas, s.canvas);
  }

  /**
   With no slack, as in the player of recordings, nothing is ever squeezed, and the canvas is pixel
   for pixel a scaled captured frame.
   */
  lemma {:induction false} NoMixedPictureExactSize(m: Media, hash: Hash, shots: seq<Shot>, ss: seq<Session>, n: nat)
    requires Lossless(m) && Draws(m) && IsSession(m, hash, 0, shots, ss) && AllTiles(shots) && n <= |shots|
    requires AllToldApart(hash, shots, ss)
    ensures Agrees(hash, ss[n])
    ensures ss[n].canvas == ss[0].canvas ||
      exists k: nat, scale: real :: k < n && ss[n].canvas == ScaleImage(shots[k].img, scale)
  {
    hide Lossless, ToldApart, SessionStep, FrameOf, Agrees, WholeJpeg, ScaleImage, Attempts, AttemptFrame;
    NoMixedPicture(m, hash, 0, shots, ss, n);
    if ss[n].canvas != ss[0].canvas {
      var k: nat, scale: real :| k < n && ShowsWhole(m, 0, shots[k], scale, ss[n].canvas);
      assert ss[n].canvas == ScaleImage(shots[k].img, scale);
    }
  }
}
