/**
  Colour segmentation of a 640x480 BGR frame into two binary masks: the ball
  mask (red pixels) and the wall mask (blue pixels). A frame is a row-major
  byte buffer with three channels per pixel, blue first; a mask has one byte
  per pixel, 255 for a member and 0 otherwise.
 */
module Segmentation {

  const Width := 640
  const Height := 480
  const Channels := 3
  const PixelCount := Width * Height
  const FrameSize := PixelCount * Channels

  const RedDisparity := 100
  const RedThreshold := 60
  const BlueDisparity := 25
  const BlueThreshold := 10

  const Member: Byte := 255
  const NonMember: Byte := 0

  /** An unsigned 8-bit sample; sums of samples are taken in int and cannot wrap. */
  type Byte = x: int | 0 <= x < 256

  /** Red beats blue and green by 100 and is at least 60. */
  predicate IsBallPixel(blue: Byte, green: Byte, red: Byte)
  {
    red >= blue + RedDisparity && red >= green + RedDisparity && red >= RedThreshold
  }

  /** Blue beats red and green by 25 and is at least 10. */
  predicate IsWallPixel(blue: Byte, green: Byte, red: Byte)
  {
    blue >= red + BlueDisparity && blue >= green + BlueDisparity && blue >= BlueThreshold
  }

  /** The mask byte of pixel p of a frame, for the ball class. */
  function BallPixel(frame: seq<Byte>, p: int): Byte
    requires |frame| == FrameSize && 0 <= p < PixelCount
  {
    if IsBallPixel(frame[Channels * p], frame[Channels * p + 1], frame[Channels * p + 2])
    then Member else NonMember
  }

  /** The mask byte of pixel p of a frame, for the wall class. */
  function WallPixel(frame: seq<Byte>, p: int): Byte
    requires |frame| == FrameSize && 0 <= p < PixelCount
  {
    if IsWallPixel(frame[Channels * p], frame[Channels * p + 1], frame[Channels * p + 2])
    then Member else NonMember
  }

  function BallMask(frame: seq<Byte>): (m: seq<Byte>)
    requires |frame| == FrameSize
    ensures |m| == PixelCount
    ensures forall p :: 0 <= p < PixelCount ==> m[p] == Member || m[p] == NonMember
  {
    seq(PixelCount, p requires 0 <= p < PixelCount => BallPixel(frame, p))
  }

  function WallMask(frame: seq<Byte>): (m: seq<Byte>)
    requires |frame| == FrameSize
    ensures |m| == PixelCount
    ensures forall p :: 0 <= p < PixelCount ==> m[p] == Member || m[p] == NonMember
  {
    seq(PixelCount, p requires 0 <= p < PixelCount => WallPixel(frame, p))
  }

  /**
    A colour class in general terms: the dominant channel must beat every
    other channel by `disparity` and reach `threshold`.
   */
  datatype ColorClass = ColorClass(dominant: nat, others: set<nat>, disparity: int, threshold: int)

  const BallClass := ColorClass(2, {0, 1}, RedDisparity, RedThreshold)
  const WallClass := ColorClass(0, {1, 2}, BlueDisparity, BlueThreshold)

  predicate InClass(pixel: seq<Byte>, cls: ColorClass)
    requires |pixel| == Channels && cls.dominant < Channels
    requires forall k :: k in cls.others ==> k < Channels
  {
    && (forall k :: k in cls.others ==> pixel[cls.dominant] >= pixel[k] + cls.disparity)
    && pixel[cls.dominant] >= cls.threshold
  }

  /** Both masks agree, pixel by pixel, with the general colour-class rule. */
  lemma MasksFollowColorClasses(frame: seq<Byte>, p: int)
    requires |frame| == FrameSize && 0 <= p < PixelCount
    ensures var pixel := frame[Channels * p .. Channels * p + Channels];
      && (BallMask(frame)[p] == Member <==> InClass(pixel, BallClass))
      && (BallMask(frame)[p] == NonMember <==> !InClass(pixel, BallClass))
      && (WallMask(frame)[p] == Member <==> InClass(pixel, WallClass))
      && (WallMask(frame)[p] == NonMember <==> !InClass(pixel, WallClass))
  {
    var pixel := frame[Channels * p .. Channels * p + Channels];
    assert pixel[0] == frame[Channels * p];
    assert pixel[1] == frame[Channels * p + 1];
    assert pixel[2] == frame[Channels * p + 2];
    assert InClass(pixel, BallClass) <==> IsBallPixel(pixel[0], pixel[1], pixel[2]) by {
      assert 0 in BallClass.others && 1 in BallClass.others;
    }
    assert InClass(pixel, WallClass) <==> IsWallPixel(pixel[0], pixel[1], pixel[2]) by {
      assert 1 in WallClass.others && 2 in WallClass.others;
    }
  }

  /** No pixel is a member of both masks: red 100 above blue and blue 25 above red clash. */
  lemma MasksDisjoint(frame: seq<Byte>)
    requires |frame| == FrameSize
    ensures forall p :: 0 <= p < PixelCount ==> !(BallMask(frame)[p] == Member && WallMask(frame)[p] == Member)
  {
  }

  /** A frame with no ball-coloured pixel gives an all-zero ball mask. */
  lemma NoRedGivesBlankBallMask(frame: seq<Byte>)
    requires |frame| == FrameSize
    requires forall p :: 0 <= p < PixelCount ==>
      !IsBallPixel(frame[Channels * p], frame[Channels * p + 1], frame[Channels * p + 2])
    ensures BallMask(frame) == seq(PixelCount, p => NonMember)
  {
  }
}
