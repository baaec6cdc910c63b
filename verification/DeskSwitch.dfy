/**
 Switching rectangles off and on again: an iteration without rectangles does not tell the tiler
 what it sends.
 */
module DeskSwitch {
  import opened Base
  import opened Frames
  import opened TileMerge
  import opened DeskTiles
  import opened TileCodec
  import opened DeskCanvas
  import opened DeskEncoder
  import opened DeskSession

  /** The frame is sent as it is. */
  ghost predicate SentUnshrunk(m: Media, shot: Shot) {
    m.encode(FrameOf(shot), shot.quality).Some? && |m.encode(FrameOf(shot), shot.quality).value| <= SoftMax(shot)
  }

  /** A canvas takes on the size of the picture, or has it. */
  predicate TakesOn(slack: nat, c: Frame, img: Frame) {
    SameSize(c, img) || !Near(slack, c, img)
  }

  /** Another picture of the size of the frame that the tiler remembers. */
  predicate Replaces(base: Frame, img: Frame) {
    SameSize(img, base) && img != base
  }

  lemma {:induction false} PaintsAsIs(m: Media, slack: nat, c: Frame, jpeg: seq<byte>, img: Frame)
    requires Draws(m) && m.decode(jpeg) == Some(img) && TakesOn(slack, c, img)
    ensures OnKey(m, slack, c, jpeg) == if Empty(img) then c else img
  {
  }

  lemma {:induction false} UnshrunkIsSent(m: Media, shot: Shot)
    requires Lossless(m) && SentUnshrunk(m, shot)
    ensures WholeJpeg(m, shot).Some? && m.decode(WholeJpeg(m, shot).value) == Some(FrameOf(shot))
  {
    hide ScaleImage;
  }

  /** What an iteration without rectangles does, when a picture is sent. */
  lemma {:induction false} OffStep(m: Media, hash: Hash, slack: nat, s: Session, shot: Shot, t: Session, img: Frame)
    requires Draws(m) && !shot.tiles && SessionStep(m, hash, slack, s, shot, t)
    requires WholeJpeg(m, shot).Some? && m.decode(WholeJpeg(m, shot).value) == Some(img)
    requires TakesOn(slack, s.canvas, img)
    ensures t.e == s.e && t.base == s.base && t.canvas == if Empty(img) then s.canvas else img
  {
    PaintsAsIs(m, slack, s.canvas, WholeJpeg(m, shot).value, img);
    hide Draws, Sums, FrameOf, WholeJpeg, OnKey;
    var msg :| SentStep(m, hash, slack, s, shot, t, msg);
  }

  /**
   An iteration with rectangles switched off whose frame is sent as it is, onto a canvas that
   takes on its size, keeps the agreement if and only if the tiler remembers nothing, or the
   frame does not replace the one it remembers.
   */
  lemma {:induction false} OffStepExactly(m: Media, hash: Hash, slack: nat, s: Session, shot: Shot, t: Session)
    requires Lossless(m) && Draws(m) && !shot.tiles && Agrees(hash, s) && SessionStep(m, hash, slack, s, shot, t)
    requires SentUnshrunk(m, shot) && TakesOn(slack, s.canvas, FrameOf(shot))
    ensures Agrees(hash, t) <==> !(s.e.tiler.ready && Replaces(s.base, FrameOf(shot)))
  {
    UnshrunkIsSent(m, shot);
    hide Lossless, Draws, Sums, FrameOf, WholeJpeg, SessionStep, SentUnshrunk, TakesOn;
    OffStep(m, hash, slack, s, shot, t, FrameOf(shot));
  }

  /**
   If the frame may be shrunk: the agreement is kept if none of the frames that may be sent
   replaces the one remembered.
   */
  lemma {:induction false} OffStepKeeps(m: Media, hash: Hash, slack: nat, s: Session, shot: Shot, t: Session)
    requires Lossless(m) && Draws(m) && !shot.tiles && Agrees(hash, s) && SessionStep(m, hash, slack, s, shot, t)
    requires forall img :: CanBeSent(shot, img) ==> TakesOn(slack, s.canvas, img) && !Replaces(s.base, img)
    ensures Agrees(hash, t)
  {
    hide Sums, FrameOf, CanBeSent, TakesOn;
    if WholeJpeg(m, shot).Some? {
      WholeIsPicture(m, shot);
      var img :| m.decode(WholeJpeg(m, shot).value) == Some(img) && CanBeSent(shot, img);
      hide Lossless, Draws, WholeJpeg, SessionStep;
      OffStep(m, hash, slack, s, shot, t, img);
    } else {
      hide Lossless, Draws, WholeJpeg;
      var msg :| SentStep(m, hash, slack, s, shot, t, msg);
    }
  }

  /**
   If the screen is as the tiler remembers it and no rectangles were sent since the last whole
   frame, nothing is sent, whatever the canvas shows.
   */
  lemma {:induction false} StaleStays(m: Media, hash: Hash, slack: nat, s: Session, shot: Shot, t: Session)
    requires shot.tiles && !Empty(FrameOf(shot)) && s.e.tiler == Seen(hash, FrameOf(shot))
    requires s.e.lastTileScale == shot.useScale && !s.e.tilesSinceKey && SessionStep(m, hash, slack, s, shot, t)
    ensures t.e == s.e && t.canvas == s.canvas && t.base == FrameOf(shot)
  {
    hide Sums, FrameOf, WholeJpeg, IsChanged, AllInside, TilesMessage;
    var msg :| SentStep(m, hash, slack, s, shot, t, msg);
    var u, rects, full :|
      IsChanged(hash, s.e.tiler, FrameOf(shot), u, rects, full) && AllInside(rects, FrameOf(shot)) &&
      Outcome(t.e, msg) == Sent(m, shot, s.e.(tiler := u), rects, full);
    StillUnchanged(hash, FrameOf(shot), u, rects, full);
  }

  /**
   So switching rectangles off and on again can leave a wrong picture: one frame with rectangles
   on, another of its size with them off, then the first again with them on. The canvas shows the
   second, the tiler remembers the first, and the last iteration sends nothing; nor, by
   `StaleStays`, does any later one while the screen stays so. This holds in the live view as
   well as in the player: it needs only a first canvas that takes on the frame's size.
   */
  lemma {:induction false} OffAndOnLeavesStale(m: Media, hash: Hash, slack: nat, shots: seq<Shot>, ss: seq<Session>)
    requires Lossless(m) && Draws(m) && |shots| == 3 && IsSession(m, hash, slack, shots, ss)
    requires shots[0].tiles && !shots[1].tiles && shots[2] == shots[0]
    requires !Empty(FrameOf(shots[0])) && Replaces(FrameOf(shots[0]), FrameOf(shots[1]))
    requires SentUnshrunk(m, shots[0]) && SentUnshrunk(m, shots[1]) && TakesOn(slack, ss[0].canvas, FrameOf(shots[0]))
    ensures ss[3].canvas == FrameOf(shots[1]) && ss[3].e == ss[2].e == ss[1].e
    ensures ss[3].e.tiler == Seen(hash, FrameOf(shots[0])) && ss[3].base == FrameOf(shots[0])
    ensures !ss[3].e.tilesSinceKey && !Agrees(hash, ss[3])
  {
    hide Lossless, Draws, Sums, FrameOf, WholeJpeg, SentUnshrunk, SessionStep, Agrees, Seen;
    assert SessionStep(m, hash, slack, ss[0], shots[0], ss[0 + 1]);
    assert SessionStep(m, hash, slack, ss[1], shots[1], ss[1 + 1]);
    assert SessionStep(m, hash, slack, ss[2], shots[2], ss[2 + 1]);
    FirstIsWhole(m, hash, slack, ss[0], shots[0], ss[1]);
    UnshrunkIsSent(m, shots[1]);
    OffStep(m, hash, slack, ss[1], shots[1], ss[2], FrameOf(shots[1]));
    StaleStays(m, hash, slack, ss[2], shots[2], ss[3]);
    Disagrees(hash, ss[3]);
  }

  lemma {:induction false} FirstIsWhole(m: Media, hash: Hash, slack: nat, s: Session, shot: Shot, t: Session)
    requires shot.tiles && !Empty(FrameOf(shot)) && !s.e.tiler.ready && SentUnshrunk(m, shot) && Lossless(m) && Draws(m)
    requires SessionStep(m, hash, slack, s, shot, t) && TakesOn(slack, s.canvas, FrameOf(shot))
    ensures t.e.tiler == Seen(hash, FrameOf(shot)) && t.base == FrameOf(shot) && t.canvas == FrameOf(shot)
    ensures t.e.lastTileScale == shot.useScale && !t.e.tilesSinceKey
  {
    UnshrunkIsSent(m, shot);
    PaintsAsIs(m, slack, s.canvas, WholeJpeg(m, shot).value, FrameOf(shot));
    hide Lossless, Draws, Sums, FrameOf, WholeJpeg, AllInside, TilesMessage, SentUnshrunk, OnKey, IsDifference, TakesOn;
    var msg :| SentStep(m, hash, slack, s, shot, t, msg);
  }

  lemma {:induction false} Disagrees(hash: Hash, s: Session)
    requires s.e.tiler == Seen(hash, s.base) && SameSize(s.canvas, s.base) && s.canvas != s.base
    ensures !Agrees(hash, s)
  {
  }

  // ----- one such session -----

  /** A screen of one pixel. */
  function OnePixel(p: Pixel): Frame {
    Frame(1, 1, [[p]])
  }

  /** A lossless platform for two such screens. */
  ghost function TwoScreens(): Media {
    Media(
      (f, q) => if f == OnePixel(0) then Some([0]) else if f == OnePixel(1) then Some([1]) else None,
      b => if b == [0] then Some(OnePixel(0)) else if b == [1] then Some(OnePixel(1)) else None,
      (f: Frame, w, h) => if f.w == w && f.h == h then f else Drawn(w, h, (x: nat, y: nat) => 0))
  }

  lemma {:induction false} TwoScreensGood()
    ensures Lossless(TwoScreens()) && Draws(TwoScreens())
  {
    hide Drawn;
  }

  function PixelShot(p: Pixel, tiles: bool): Shot {
    Shot(OnePixel(p), 1.0, 80, tiles, false, 0)
  }

  lemma {:induction false} PixelSent(p: Pixel, tiles: bool)
    requires p == 0 || p == 1
    ensures FrameOf(PixelShot(p, tiles)) == OnePixel(p)
    ensures WholeJpeg(TwoScreens(), PixelShot(p, tiles)) == Some([p])
    ensures SentUnshrunk(TwoScreens(), PixelShot(p, tiles))
  {
    assert OnePixel(0).rows[0][0] != OnePixel(1).rows[0][0];
  }

  ghost function PixelShots(): seq<Shot> {
    [PixelShot(0, true), PixelShot(1, false), PixelShot(0, true)]
  }

  /** The loop before the first iteration, and after it. */
  function Idle(): Encoder {
    Encoder(Tiler(0, 0, 0, 0, [], false), -1.0, None, false)
  }

  function Told(hash: Hash): Encoder {
    Encoder(Seen(hash, OnePixel(0)), 1.0, Some(0), false)
  }

  ghost function PixelSessions(hash: Hash): seq<Session> {
    [Session(Idle(), OnePixel(0), OnePixel(0)), Session(Told(hash), OnePixel(0), OnePixel(0)),
     Session(Told(hash), OnePixel(1), OnePixel(0)), Session(Told(hash), OnePixel(1), OnePixel(0))]
  }

  lemma {:induction false} PixelPainted(slack: nat, c: Frame, p: Pixel)
    requires (p == 0 || p == 1) && c.w == 1 && c.h == 1
    ensures OnKey(TwoScreens(), slack, c, [p]) == OnePixel(p)
  {
    TwoScreensGood();
    hide Draws, Lossless, Drawn;
    assert TwoScreens().decode([p]) == Some(OnePixel(p));
  }

  lemma {:induction false} FirstPixel(hash: Hash, slack: nat)
    ensures SessionStep(TwoScreens(), hash, slack, PixelSessions(hash)[0], PixelShots()[0], PixelSessions(hash)[1])
  {
    PixelSent(0, true);
    PixelPainted(slack, OnePixel(0), 0);
    hide TwoScreens, FrameOf, WholeJpeg, OnKey, Sums;
    var f := OnePixel(0);
    assert IsChanged(hash, Rescaled(Idle(), 1.0).tiler, f, Seen(hash, f), [], true);
    assert Step(TwoScreens(), hash, Idle(), PixelShot(0, true), Outcome(Told(hash), Key([0])));
    var ss := PixelSessions(hash);
    assert SentStep(TwoScreens(), hash, slack, ss[0], PixelShots()[0], ss[1], Key([0]));
  }

  lemma {:induction false} SecondPixel(hash: Hash, slack: nat)
    ensures SessionStep(TwoScreens(), hash, slack, PixelSessions(hash)[1], PixelShots()[1], PixelSessions(hash)[2])
  {
    PixelSent(1, false);
    PixelPainted(slack, OnePixel(0), 1);
    hide TwoScreens, FrameOf, WholeJpeg, OnKey, Sums;
    var ss := PixelSessions(hash);
    assert SentStep(TwoScreens(), hash, slack, ss[1], PixelShots()[1], ss[2], Key([1]));
  }

  lemma {:induction false} ThirdPixel(hash: Hash, slack: nat)
    ensures SessionStep(TwoScreens(), hash, slack, PixelSessions(hash)[2], PixelShots()[2], PixelSessions(hash)[3])
  {
    PixelSent(0, true);
    hide TwoScreens, FrameOf, WholeJpeg, OnKey, Sums;
    var f := OnePixel(0);
    SameIsUnchanged(hash, f);
    UnchangedStep(TwoScreens(), hash, Told(hash), PixelShot(0, true));
    var ss := PixelSessions(hash);
    assert SentStep(TwoScreens(), hash, slack, ss[2], PixelShots()[2], ss[3], Nothing);
  }

  /** An iteration that finds the remembered frame again can be one that sends nothing. */
  lemma {:induction false} UnchangedStep(m: Media, hash: Hash, e: Encoder, shot: Shot)
    requires shot.tiles && e.lastTileScale == shot.useScale && !e.tilesSinceKey && e.tiler.Valid()
    requires IsChanged(hash, e.tiler, FrameOf(shot), e.tiler, [], false)
    ensures Step(m, hash, e, shot, Outcome(e, Nothing))
  {
    hide IsChanged, FrameOf, WholeJpeg, Tiler.Valid;
    var rects: seq<Rect> := [];
    assert Rescaled(e, shot.useScale) == e && e.(tiler := e.tiler) == e;
    assert AllInside(rects, FrameOf(shot));
    assert Sent(m, shot, e, rects, false) == Outcome(e, Nothing);
  }

  lemma {:induction false} SameIsUnchanged(hash: Hash, f: Frame)
    requires !Empty(f)
    ensures IsChanged(hash, Seen(hash, f), f, Seen(hash, f), [], false)
  {
  }

  /** For every checksum and every slack there is a session that `OffAndOnLeavesStale` speaks of. */
  lemma {:induction false} OffAndOnHappens(hash: Hash, slack: nat)
    returns (m: Media, shots: seq<Shot>, ss: seq<Session>)
    ensures Lossless(m) && Draws(m) && |shots| == 3 && IsSession(m, hash, slack, shots, ss)
    ensures shots[0].tiles && !shots[1].tiles && shots[2] == shots[0]
    ensures !Empty(FrameOf(shots[0])) && SentUnshrunk(m, shots[0]) && SentUnshrunk(m, shots[1])
    ensures Replaces(FrameOf(shots[0]), FrameOf(shots[1])) && TakesOn(slack, ss[0].canvas, FrameOf(shots[0]))
    ensures ss[3].canvas == FrameOf(shots[1]) && !Agrees(hash, ss[3])
  {
    m, shots, ss := TwoScreens(), PixelShots(), PixelSessions(hash);
    TwoScreensGood();
    PixelSent(0, true);
    PixelSent(1, false);
    FirstPixel(hash, slack);
    SecondPixel(hash, slack);
    ThirdPixel(hash, slack);
    assert OnePixel(0).rows[0][0] != OnePixel(1).rows[0][0];
    hide TwoScreens, FrameOf, SessionStep, Sums, Lossless, Draws, SentUnshrunk;
    assert forall i :: 0 <= i < 3 ==> SessionStep(m, hash, slack, ss[i], shots[i], ss[i + 1]);
    Disagrees(hash, ss[3]);
  }
}
