/** The encoder loop of a desktop session, as long as it sends JPEG pictures. */
module DeskEncoder {
  import opened Base
  import opened Frames
  import opened TileMerge
  import opened DeskTiles
  import opened TileCodec

  const KEY_INTERVAL := 5000
  const SOFT_MAX := 1400 * 1024
  const SOFT_MAX_HOT := 1800 * 1024
  const HARD_MAX := 4 * 1024 * 1024

  /**
   What one iteration finds: the captured frame, the settings it works with, whether somebody is
   typing or the lock screen is up, and the time in milliseconds.
   */
  datatype Shot = Shot(img: Frame, useScale: real, quality: int, tiles: bool, hot: bool, now: int)

  function FrameOf(shot: Shot): Frame {
    ScaleImage(shot.img, shot.useScale)
  }

  datatype Message = Nothing | Rects(payload: seq<byte>) | Key(jpeg: seq<byte>)

  /** What the loop keeps between iterations. */
  datatype Encoder = Encoder(tiler: Tiler, lastTileScale: real, lastFullAt: Option<int>, tilesSinceKey: bool)

  // ----- whole frames -----

  datatype Attempt = Attempt(scale: real, quality: int)

  function SoftMax(shot: Shot): nat {
    if shot.hot then SOFT_MAX_HOT else SOFT_MAX
  }

  function Attempts(shot: Shot): seq<Attempt> {
    if shot.hot then
      [Attempt(shot.useScale * 0.95, shot.quality), Attempt(shot.useScale * 0.88, Max(shot.quality - 4, 78))]
    else
      [Attempt(shot.useScale * 0.9, shot.quality), Attempt(shot.useScale * 0.75, 70),
       Attempt(0.55, 58), Attempt(0.4, 48)]
  }

  function AttemptFrame(shot: Shot, a: Attempt): Frame {
    ScaleImage(shot.img, if a.scale < 0.3 then 0.3 else a.scale)
  }

  function AttemptQuality(shot: Shot, a: Attempt): int {
    Max(if shot.hot then a.quality else Min(a.quality, 78), 36)
  }

  /** The smaller of the picture so far and that of the attempt. */
  function Smaller(m: Media, shot: Shot, a: Attempt, jpeg: seq<byte>): seq<byte> {
    match m.encode(AttemptFrame(shot, a), AttemptQuality(shot, a))
    case Some(alt) => if 0 < |alt| < |jpeg| then alt else jpeg
    case None => jpeg
  }

  /** A picture over the soft limit after the attempts from number `i` on. */
  function Shrunk(m: Media, shot: Shot, i: nat, jpeg: seq<byte>): seq<byte>
    requires i <= |Attempts(shot)|
    decreases |Attempts(shot)| - i
  {
    if i == |Attempts(shot)| then jpeg else
    var a := Attempts(shot)[i];
    var next := Smaller(m, shot, a, jpeg);
    if m.encode(AttemptFrame(shot, a), AttemptQuality(shot, a)).Some? && |next| <= SoftMax(shot) then next
    else Shrunk(m, shot, i + 1, next)
  }

  /** The picture of an attempt, if there is one. */
  function AttemptJpeg(m: Media, shot: Shot, j: nat): Option<seq<byte>>
    requires j < |Attempts(shot)|
  {
    m.encode(AttemptFrame(shot, Attempts(shot)[j]), AttemptQuality(shot, Attempts(shot)[j]))
  }

  /**
   Shrinking never lengthens a picture, and fails to get below the soft limit only if every
   attempt does: the result is then the shortest of all.
   */
  lemma {:induction false} ShrunkIsLeast(m: Media, shot: Shot, i: nat, jpeg: seq<byte>)
    requires i <= |Attempts(shot)|
    ensures var r := Shrunk(m, shot, i, jpeg);
      && |r| <= |jpeg|
      && (|r| > SoftMax(shot) ==> forall j :: i <= j < |Attempts(shot)| ==>
            match AttemptJpeg(m, shot, j) case Some(alt) => alt == [] || |r| <= |alt| case None => true)
    decreases |Attempts(shot)| - i
  {
    hide Attempts, AttemptFrame, AttemptQuality, SoftMax;
    if i < |Attempts(shot)| {
      ShrunkIsLeast(m, shot, i + 1, Smaller(m, shot, Attempts(shot)[i], jpeg));
    }
  }

  /** The whole frame as it is sent, if it is. */
  function WholeJpeg(m: Media, shot: Shot): Option<seq<byte>> {
    match m.encode(FrameOf(shot), shot.quality)
    case None => None
    case Some(jpeg) =>
      var small := if |jpeg| > SoftMax(shot) then Shrunk(m, shot, 0, jpeg) else jpeg;
      if |small| > HARD_MAX then None else Some(small)
  }

  datatype Outcome = Outcome(e: Encoder, msg: Message)

  /** A frame that is not sent makes the tiler forget. */
  function SentWhole(m: Media, shot: Shot, e: Encoder): Outcome {
    match WholeJpeg(m, shot)
    case Some(jpeg) => Outcome(e, Key(jpeg))
    case None => Outcome(e.(tiler := e.tiler.(ready := false)), Nothing)
  }

  // ----- changed rectangles -----

  function NeedKey(shot: Shot, e: Encoder): bool {
    e.tilesSinceKey && (e.lastFullAt.None? || shot.now - e.lastFullAt.value > KEY_INTERVAL)
  }

  /** The iteration after the tiler has reported. */
  function Sent(m: Media, shot: Shot, e: Encoder, rects: seq<Rect>, full: bool): Outcome
    requires AllInside(rects, FrameOf(shot))
  {
    var whole := SentWhole(m, shot, e.(lastFullAt := Some(shot.now), tilesSinceKey := false));
    if full || NeedKey(shot, e) then whole
    else if rects == [] then Outcome(e, Nothing)
    else match TilesMessage(m, FrameOf(shot), rects, shot.quality)
      case Some(payload) => Outcome(e.(tilesSinceKey := true), Rects(payload))
      case None => whole
  }

  /** A change of scale makes the tiler forget. */
  function Rescaled(e: Encoder, scale: real): Encoder {
    if scale != e.lastTileScale then e.(tiler := e.tiler.(ready := false), lastTileScale := scale) else e
  }

  /** One iteration: which rectangles the tiler reports, and in which order, is up to it. */
  ghost predicate Step(m: Media, hash: Hash, e: Encoder, shot: Shot, out: Outcome)
    requires e.tiler.Valid()
  {
    if !shot.tiles then out == SentWhole(m, shot, e)
    else
      var r := Rescaled(e, shot.useScale);
      exists u: Tiler, rects: seq<Rect>, full: bool ::
        && IsChanged(hash, r.tiler, FrameOf(shot), u, rects, full)
        && AllInside(rects, FrameOf(shot))
        && out == Sent(m, shot, r.(tiler := u), rects, full)
  }

  /** The loop's variables, and one round of it. */
  class EncoderLoop {
    const media: Media
    const tiler: DeskTiler
    var lastTileScale: real
    var lastFullAt: Option<int>
    var tilesSinceKey: bool

    function State(): Encoder
      reads this, tiler, tiler.sums
    {
      Encoder(tiler.State(), lastTileScale, lastFullAt, tilesSinceKey)
    }

    constructor (media: Media, hash: Hash)
      ensures State() == Encoder(tiler.State(), -1.0, None, false) && fresh(tiler) && fresh(tiler.sums)
      ensures tiler.Valid() && !tiler.ready && tiler.hash == hash && this.media == media
    {
      this.media := media;
      tiler := new DeskTiler(hash);
      lastTileScale, lastFullAt, tilesSinceKey := -1.0, None, false;
    }

    method Shrink(shot: Shot, jpeg: seq<byte>) returns (small: seq<byte>)
      ensures small == Shrunk(media, shot, 0, jpeg)
    {
      small := jpeg;
      var attempts := Attempts(shot);
      for i := 0 to |attempts|
        invariant Shrunk(media, shot, i, small) == Shrunk(media, shot, 0, jpeg)
      {
        var alt := ScaleFrame(shot.img, if attempts[i].scale < 0.3 then 0.3 else attempts[i].scale);
        match media.encode(alt, AttemptQuality(shot, attempts[i])) {
          case None =>
            continue;
          case Some(altJpeg) =>
            if 0 < |altJpeg| < |small| {
              small := altJpeg;
            }
            if |small| <= SoftMax(shot) {
              return;
            }
        }
      }
    }

    method SendWhole(shot: Shot, scaled: Frame) returns (msg: Message)
      requires scaled == FrameOf(shot) && tiler.Valid()
      modifies tiler`ready
      ensures tiler.Valid() && Outcome(State(), msg) == SentWhole(media, shot, old(State()))
    {
      match media.encode(scaled, shot.quality) {
        case None =>
          tiler.Reset();
          return Nothing;
        case Some(jpeg) =>
          var small := jpeg;
          if |jpeg| > SoftMax(shot) {
            small := Shrink(shot, jpeg);
          }
          if |small| > HARD_MAX {
            tiler.Reset();
            return Nothing;
          }
          return Key(small);
      }
    }

    /** Asks the tiler, which forgets first if the scale has changed. */
    method Look(shot: Shot, scaled: Frame) returns (rects: seq<Rect>, full: bool)
      requires tiler.Valid()
      modifies this`lastTileScale, tiler
      ensures tiler.Valid() && (tiler.sums == old(tiler.sums) || fresh(tiler.sums))
      ensures var r := Rescaled(old(State()), shot.useScale);
        State() == r.(tiler := tiler.State()) && IsChanged(tiler.hash, r.tiler, scaled, tiler.State(), rects, full)
      ensures AllInside(rects, scaled)
    {
      hide IsChanged;
      if shot.useScale != lastTileScale {
        tiler.Reset();
        lastTileScale := shot.useScale;
      }
      ghost var t := tiler.State();
      rects, full := tiler.Changed(scaled);
      ReportInside(tiler.hash, t, scaled, tiler.State(), rects, full);
    }

    /** Sends what the tiler reported: nothing, rectangles, or the whole frame. */
    method SendChanges(shot: Shot, scaled: Frame, rects: seq<Rect>, full: bool) returns (msg: Message)
      requires scaled == FrameOf(shot) && tiler.Valid() && AllInside(rects, scaled)
      modifies this`lastFullAt, this`tilesSinceKey, tiler`ready
      ensures tiler.Valid() && Outcome(State(), msg) == Sent(media, shot, old(State()), rects, full)
    {
      hide FrameOf, SentWhole, TilesMessage;
      var needKey := tilesSinceKey && (lastFullAt.None? || shot.now - lastFullAt.value > KEY_INTERVAL);
      if !full && rects == [] && !needKey {
        return Nothing;
      }
      if !full && !needKey && rects != [] {
        var payload := EncodeDeskTiles(media, scaled, rects, shot.quality);
        if payload.Some? {
          tilesSinceKey := true;
          return Rects(payload.value);
        }
      }
      lastFullAt := Some(shot.now);
      tilesSinceKey := false;
      msg := SendWhole(shot, scaled);
    }

    method Iterate(shot: Shot) returns (msg: Message)
      requires tiler.Valid()
      modifies this, tiler
      ensures tiler.Valid() && (tiler.sums == old(tiler.sums) || fresh(tiler.sums))
      ensures Step(media, tiler.hash, old(State()), shot, Outcome(State(), msg))
    {
      hide IsChanged, Sent, SentWhole, Rescaled;
      var scaled := ScaleFrame(shot.img, shot.useScale);
      if shot.tiles {
        var rects, full := Look(shot, scaled);
        msg := SendChanges(shot, scaled, rects, full);
      } else {
        msg := SendWhole(shot, scaled);
      }
    }
  }
}
