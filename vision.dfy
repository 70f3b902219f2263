/**
  One cycle of the image processor: the two colour masks, the ball pass with
  its circle re-scan, and the wall pass with its line scan. The contour
  finder, the ellipse fit and the two Hough transforms are foreign calls and
  arrive as the functions of a Geometry value.
 */
module Vision {
  import opened Segmentation
  import opened Classification

  /** One Hough circle: center and radius as floats. */
  datatype Circle = Circle(x: real, y: real, radius: real)

  /** One probabilistic Hough line, and the wall line drawn for it: its two end points. */
  datatype Segment = Segment(start: Point, end: Point)

  datatype BallDetection = EllipseDetection(box: Box) | CircleDetection(center: Point, radius: int)

  datatype Detections = Detections(balls: seq<BallDetection>, walls: seq<Segment>)

  /** The contents of a three-channel 640x480 frame. */
  type Frame = f: seq<Byte> | |f| == FrameSize witness seq(FrameSize, k => 0)

  /** The contents of a single-channel 640x480 mask. */
  type Mask = m: seq<Byte> | |m| == PixelCount witness seq(PixelCount, p => NonMember)

  /**
    What the contour finder returns: the contour list, and what it leaves in
    the mask it was given, since it rewrites its source image in place.
   */
  datatype Found = Found(contours: seq<Contour>, image: Mask)

  /** The foreign geometry calls, as pure functions of what they are given. */
  datatype Geometry = Geometry(
    smooth: Frame -> Frame,
    findContours: Mask -> Found,
    fitEllipse: seq<Point> -> Box,
    houghCircles: seq<Contour> -> seq<Circle>,
    houghLines: seq<Contour> -> seq<Segment>)

  /** Rounding to the nearest integer, halves upward. */
  function Round(x: real): (n: int)
    ensures n as real - 0.5 <= x < n as real + 0.5
  {
    (x + 0.5).Floor
  }

  function CircleDetectionOf(c: Circle): BallDetection
  {
    CircleDetection(Point(Round(c.x), Round(c.y)), Round(c.radius))
  }

  function EllipseDetections(boxes: seq<Box>): (ds: seq<BallDetection>)
    ensures |ds| == |boxes|
    ensures forall i :: 0 <= i < |boxes| ==> ds[i] == EllipseDetection(boxes[i])
  {
    seq(|boxes|, i requires 0 <= i < |boxes| => EllipseDetection(boxes[i]))
  }

  /** The detections of one cycle, as a function of the frame and the geometry calls. */
  function Tick(frame: seq<Byte>, geo: Geometry): Detections
    requires |frame| == FrameSize
  {
    var pass := BallPassOf(geo.findContours(BallMask(frame)).contours, geo.fitEllipse);
    var circles := geo.houghCircles(pass.residue);
    var lines := geo.houghLines(WallPassOf(geo.findContours(WallMask(frame)).contours));
    Detections(
      EllipseDetections(pass.ellipses) + seq(|circles|, i requires 0 <= i < |circles| => CircleDetectionOf(circles[i])),
      lines)
  }

  /** One circle detection per Hough circle, center and radius rounded. */
  method EmitCircles(circles: seq<Circle>) returns (ds: seq<BallDetection>)
    ensures |ds| == |circles|
    ensures forall i :: 0 <= i < |circles| ==>
      ds[i].CircleDetection? && ds[i] == CircleDetectionOf(circles[i])
  {
    ds := [];
    for i := 0 to |circles|
      invariant |ds| == i
      invariant forall k :: 0 <= k < i ==> ds[k] == CircleDetectionOf(circles[k])
    {
      var p := circles[i];
      var pt := Point(Round(p.x), Round(p.y));
      ds := ds + [CircleDetection(pt, Round(p.radius))];
    }
  }

  /** One wall line drawn per Hough segment, in order, between the same end points. */
  method EmitLines(segments: seq<Segment>) returns (ls: seq<Segment>)
    ensures ls == segments
  {
    ls := [];
    for i := 0 to |segments|
      invariant ls == segments[..i]
    {
      var line := segments[i];
      ls := ls + [Segment(line.start, line.end)];
    }
  }

  /** Stores into an image buffer what a foreign call left in it. */
  method Store(a: array<Byte>, image: seq<Byte>)
    requires a.Length == |image|
    modifies a
    ensures a[..] == image
  {
    forall i | 0 <= i < a.Length {
      a[i] := image[i];
    }
  }

  /**
    Every ellipse detection of a cycle comes from a ball contour of more than
    20 points whose fitted box passes the eccentricity test; the ball
    detections are the routed ellipses followed by the Hough circles, and
    there is one wall line per Hough line.
   */
  lemma TickDetections(frame: seq<Byte>, geo: Geometry)
    requires |frame| == FrameSize
    ensures var contours := geo.findContours(BallMask(frame)).contours;
      var pass := BallPassOf(contours, geo.fitEllipse);
      && |Tick(frame, geo).balls| == |pass.ellipses| + |geo.houghCircles(pass.residue)|
      && (forall d :: d in Tick(frame, geo).balls && d.EllipseDetection? ==>
            IsRound(d.box) &&
            exists c :: c in contours && |c.points| > BallMinPoints && geo.fitEllipse(c.points) == d.box)
      && |Tick(frame, geo).walls| == |geo.houghLines(WallPassOf(geo.findContours(WallMask(frame)).contours))|
  {
    var contours := geo.findContours(BallMask(frame)).contours;
    var pass := BallPassOf(contours, geo.fitEllipse);
    BallEllipseContents(contours, geo.fitEllipse);
    var balls := Tick(frame, geo).balls;
    var circles := geo.houghCircles(pass.residue);
    forall d | d in balls && d.EllipseDetection?
      ensures IsRound(d.box)
      ensures exists c :: c in contours && |c.points| > BallMinPoints && geo.fitEllipse(c.points) == d.box
    {
      var i :| 0 <= i < |balls| && balls[i] == d;
      if i >= |pass.ellipses| {
        assert false;
      }
      assert d.box == pass.ellipses[i];
      assert d.box in pass.ellipses;
    }
  }

  /**
    A blurred frame (what the segmentation loops read, after cvSmooth)
    without a single ball-coloured pixel yields no ball detection,
    given that the contour finder finds nothing in a blank mask and the circle
    transform finds nothing in an empty residue.
   */
  lemma NoRedNoBalls(frame: seq<Byte>, geo: Geometry)
    requires |frame| == FrameSize
    requires forall p :: 0 <= p < PixelCount ==>
      !IsBallPixel(frame[Channels * p], frame[Channels * p + 1], frame[Channels * p + 2])
    requires geo.findContours(seq(PixelCount, p => NonMember)).contours == []
    requires geo.houghCircles([]) == []
    ensures Tick(frame, geo).balls == []
  {
    NoRedGivesBlankBallMask(frame);
  }

  /**
    The image processor's per-cycle mask buffers. Each segmentation loop
    overwrites every pixel of its own mask and nothing else; the loops only
    read the frame.
   */
  class ImageProcessing {
    var ballImage: array<Byte>
    var wallImage: array<Byte>

    ghost predicate Valid()
      reads this
    {
      ballImage.Length == PixelCount && wallImage.Length == PixelCount && ballImage != wallImage
    }

    constructor ()
      ensures Valid() && fresh(ballImage) && fresh(wallImage)
    {
      ballImage := new Byte[PixelCount];
      wallImage := new Byte[PixelCount];
    }

    /** The red-ball loop: every mask pixel becomes 255 or 0 by the ball rule. */
    method FilterBalls(frame: array<Byte>)
      requires Valid() && frame.Length == FrameSize
      modifies ballImage
      ensures Valid()
      ensures ballImage[..] == BallMask(frame[..])
      ensures frame[..] == old(frame[..]) && wallImage[..] == old(wallImage[..])
    {
      var i := 0;
      while i < Height
        invariant 0 <= i <= Height
        invariant forall p :: 0 <= p < i * Width ==> ballImage[p] == BallPixel(frame[..], p)
      {
        var j := 0;
        while j < Width
          invariant 0 <= j <= Width
          invariant forall p :: 0 <= p < i * Width + j ==> ballImage[p] == BallPixel(frame[..], p)
        {
          var ballImageIndex := i * Width + j;
          var frameIndex := i * Width * Channels + j * Channels;
          if frame[frameIndex + 2] >= frame[frameIndex] + RedDisparity
             && frame[frameIndex + 2] >= frame[frameIndex + 1] + RedDisparity
             && frame[frameIndex + 2] >= RedThreshold
          {
            ballImage[ballImageIndex] := Member;
          } else {
            ballImage[ballImageIndex] := NonMember;
          }
          j := j + 1;
        }
        i := i + 1;
      }
    }

    /** The blue-wall loop: every mask pixel becomes 255 or 0 by the wall rule. */
    method FilterWalls(frame: array<Byte>)
      requires Valid() && frame.Length == FrameSize
      modifies wallImage
      ensures Valid()
      ensures wallImage[..] == WallMask(frame[..])
      ensures frame[..] == old(frame[..]) && ballImage[..] == old(ballImage[..])
    {
      var i := 0;
      while i < Height
        invariant 0 <= i <= Height
        invariant forall p :: 0 <= p < i * Width ==> wallImage[p] == WallPixel(frame[..], p)
      {
        var j := 0;
        while j < Width
          invariant 0 <= j <= Width
          invariant forall p :: 0 <= p < i * Width + j ==> wallImage[p] == WallPixel(frame[..], p)
        {
          var wallImageIndex := i * Width + j;
          var frameIndex := i * Width * Channels + j * Channels;
          if frame[frameIndex] >= frame[frameIndex + 2] + BlueDisparity
             && frame[frameIndex] >= frame[frameIndex + 1] + BlueDisparity
             && frame[frameIndex] >= BlueThreshold
          {
            wallImage[wallImageIndex] := Member;
          } else {
            wallImage[wallImageIndex] := NonMember;
          }
          j := j + 1;
        }
        i := i + 1;
      }
    }

    /**
      One processing cycle on the current frame: blur the frame in place,
      segment it, route the ball contours, re-scan the residue for circles,
      filter the wall contours and scan them for lines. The frame is left
      blurred, so a frame seen by two cycles is blurred twice; each mask ends
      up holding what the contour finder left in it, not the colour rule's
      bytes.
     */
    method ProcessBalls(frame: array<Byte>, geo: Geometry) returns (out: Detections)
      requires Valid() && frame.Length == FrameSize
      modifies frame, ballImage, wallImage
      ensures Valid()
      ensures frame[..] == geo.smooth(old(frame[..]))
      ensures ballImage[..] == geo.findContours(BallMask(frame[..])).image
      ensures wallImage[..] == geo.findContours(WallMask(frame[..])).image
      ensures out == Tick(frame[..], geo)
    {
      Store(frame, geo.smooth(frame[..]));
      FilterBalls(frame);
      FilterWalls(frame);
      var found := geo.findContours(ballImage[..]);
      Store(ballImage, found.image);
      var ellipses, residue := RouteBallContours(found.contours, geo.fitEllipse);
      var houghCircles := geo.houghCircles(residue);
      var circles := EmitCircles(houghCircles);
      found := geo.findContours(wallImage[..]);
      Store(wallImage, found.image);
      var drawn := DrawWallContours(found.contours);
      var houghLines := geo.houghLines(drawn);
      var lines := EmitLines(houghLines);
      out := Detections(EllipseDetections(ellipses) + circles, lines);
    }
  }
}
