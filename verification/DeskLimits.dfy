/** How large and how good the whole frames are that the encoder loop sends. */
module DeskLimits {
  import opened Base
  import opened Frames
  import opened TileCodec
  import opened DeskEncoder

  /** The limit from which on a smaller picture is tried: 1.4 MiB, or 1.8 MiB while somebody is typing. */
  function Soft(shot: Shot): nat {
    (if shot.hot then 1800 else 1400) * 1024
  }

  /** A picture within the soft limit is sent as it is. */
  lemma {:induction false} SentAsIs(m: Media, shot: Shot)
    requires var jpeg := m.encode(FrameOf(shot), shot.quality); jpeg.Some? && |jpeg.value| <= Soft(shot)
    ensures WholeJpeg(m, shot) == m.encode(FrameOf(shot), shot.quality)
  {
    hide FrameOf;
  }

  /** A picture that is too large to be sent, or none. */
  predicate Unsendable(jpeg: Option<seq<byte>>) {
    jpeg.None? || jpeg.value == [] || |jpeg.value| > 4 * 1024 * 1024
  }

  lemma {:induction false} ShrunkIsOneOf(m: Media, shot: Shot, i: nat, jpeg: seq<byte>)
    requires i <= |Attempts(shot)|
    ensures var r := Shrunk(m, shot, i, jpeg);
      r == jpeg || exists j :: i <= j < |Attempts(shot)| && r != [] && AttemptJpeg(m, shot, j) == Some(r)
    decreases |Attempts(shot)| - i
  {
    hide Attempts, AttemptFrame, AttemptQuality, SoftMax;
    if i < |Attempts(shot)| {
      var next := Smaller(m, shot, Attempts(shot)[i], jpeg);
      ShrunkIsOneOf(m, shot, i + 1, next);
      assert next != jpeg ==> next != [] && AttemptJpeg(m, shot, i) == Some(next);
    }
  }

  /**
   No whole frame is sent exactly if the frame cannot be coded, or its picture is over 4 MiB and
   none of the attempts at a smaller one gives one below that.
   */
  lemma {:induction false} WholeFailsExactly(m: Media, shot: Shot)
    ensures WholeJpeg(m, shot).None? <==>
      var jpeg := m.encode(FrameOf(shot), shot.quality);
      jpeg.None? ||
      (|jpeg.value| > 4 * 1024 * 1024 &&
       forall j :: 0 <= j < |Attempts(shot)| ==> Unsendable(AttemptJpeg(m, shot, j)))
    ensures WholeJpeg(m, shot).Some? ==> |WholeJpeg(m, shot).value| <= 4 * 1024 * 1024
  {
    var jpeg := m.encode(FrameOf(shot), shot.quality);
    hide FrameOf, Attempts, AttemptFrame, AttemptQuality, Shrunk;
    if jpeg.Some? && |jpeg.value| > SoftMax(shot) {
      ShrunkIsLeast(m, shot, 0, jpeg.value);
      ShrunkIsOneOf(m, shot, 0, jpeg.value);
    }
  }

  /**
   While somebody is typing, shrinking is gentle: at most two attempts, none below 0.88 of the
   scale or more than four below the quality. Otherwise the quality falls from 78 at most. The
   scale is never below 0.3, nor the quality below 36.
   */
  lemma {:induction false} AttemptsExactly(shot: Shot, j: nat) returns (scale: real)
    requires j < |Attempts(shot)|
    ensures AttemptFrame(shot, Attempts(shot)[j]) == ScaleImage(shot.img, scale) && scale >= 0.3
    ensures shot.hot ==> j < 2 && scale >= 0.88 * shot.useScale
    ensures shot.useScale >= 0.4 && j < 2 ==> scale < shot.useScale
    ensures AttemptQuality(shot, Attempts(shot)[j]) >= 36
    ensures shot.hot ==> AttemptQuality(shot, Attempts(shot)[j]) >= shot.quality - 4
    ensures shot.hot && shot.quality >= 36 ==> AttemptQuality(shot, Attempts(shot)[j]) <= Max(shot.quality, 78)
    ensures !shot.hot ==> AttemptQuality(shot, Attempts(shot)[j]) <= [78, 70, 58, 48][j]
    ensures !shot.hot && j >= 2 ==> scale <= 0.55
  {
    hide ScaleImage;
    var a := Attempts(shot)[j];
    scale := if a.scale < 0.3 then 0.3 else a.scale;
  }
}
