/**
  Shape classification of the contours that the contour finder extracts from
  the ball mask and from the wall mask: the eccentricity test, the routing of
  each ball contour to the ellipse output or to the residue raster, and the
  size filter of the wall pass.

  Contour extraction and the ellipse fit are foreign calls; a contour is its
  point sequence, and the fit is a function parameter.
 */
module Classification {

  /** A contour needs MORE than this many points to reach the ellipse fit. */
  const BallMinPoints := 20
  /** A wall contour needs AT LEAST this many points to be drawn. */
  const WallMinPoints := 50
  /** The eccentricity cutoff between a ball and the residue (a double). */
  const EccentricityThreshold: real := 0.1

  datatype Point = Point(x: int, y: int)

  /** A closed boundary; its `total` is the number of points. */
  datatype Contour = Contour(points: seq<Point>)

  /** The fitted ellipse (a CvBox2D): center, size and rotation, as reals. */
  datatype Box = Box(centerX: real, centerY: real, width: real, height: real, angle: real)

  /** The absolute value of an int, for the integer form of the eccentricity test. */
  function Abs(x: int): nat { if x < 0 then -x else x }

  /** The absolute value of a real, standing for the float `abs` of the source. */
  function AbsReal(x: real): (r: real)
    ensures r >= 0.0 && (r == x || r == -x)
  {
    if x < 0.0 then -x else x
  }

  /** The range of |h - w| / (h + w) for sides of any sign, and for positive sides. */
  lemma SideQuotientRange(w: int, h: int)
    requires w + h != 0
    ensures var e := AbsReal((h - w) as real / (h + w) as real);
      (e == 0.0 <==> w == h) && (w > 0 && h > 0 ==> e < 1.0)
  {
    var q := (h - w) as real / (h + w) as real;
    assert q * (h + w) as real == (h - w) as real;
    if w > 0 && h > 0 {
      var a, b := AbsReal((h - w) as real), (h + w) as real;
      assert AbsReal(q) * b == a;
      assert a < b;
    }
  }

  /**
    |h - w| / (h + w), taken as a real: float rounding is idealised away.
    The source does not guard the division; the caller must keep w + h away
    from zero (see IsRound for what the source does when it is zero).
   */
  function Eccentricity(w: int, h: int): (e: real)
    requires w + h != 0
    ensures e >= 0.0
    ensures e == 0.0 <==> w == h
    ensures w > 0 && h > 0 ==> e < 1.0
  {
    SideQuotientRange(w, h);
    AbsReal((h - w) as real / (h + w) as real)
  }

  lemma EccentricitySymmetric(w: int, h: int)
    requires w + h != 0
    ensures Eccentricity(w, h) == Eccentricity(h, w)
  {
  }

  lemma EccentricityOfSquare(w: int)
    requires w != 0
    ensures Eccentricity(w, w) == 0.0
  {
  }

  /** A non-negative quotient is below one tenth iff ten numerators stay below the divisor. */
  lemma QuotientBelowTenth(d: real, s: real)
    requires s > 0.0 && d >= 0.0
    ensures d / s < 0.1 <==> 10.0 * d < s
  {
    var e := d / s;
    assert e * s == d;
    if e < 0.1 {
      assert (0.1 - e) * s > 0.0;
    } else {
      assert (e - 0.1) * s >= 0.0;
    }
  }

  /**
    The eccentricity test in integers: the eccentricity is below 0.1 exactly
    when ten times the side difference is below the absolute side sum.
   */
  lemma EccentricityBelowThreshold(w: int, h: int)
    requires w + h != 0
    ensures Eccentricity(w, h) < EccentricityThreshold <==> 10 * Abs(h - w) < Abs(h + w)
  {
    var a, b := (h - w) as real, (h + w) as real;
    AbsOfQuotient(a, b);
    assert AbsReal(a) == Abs(h - w) as real && AbsReal(b) == Abs(h + w) as real;
    QuotientBelowTenth(AbsReal(a), AbsReal(b));
  }

  /** The absolute value of a quotient is the quotient of the absolute values. */
  lemma AbsOfQuotient(a: real, b: real)
    requires b != 0.0
    ensures AbsReal(a / b) == AbsReal(a) / AbsReal(b)
  {
    var q := a / b;
    var r := AbsReal(a) / AbsReal(b);
    assert q * b == a;
    assert r * AbsReal(b) == AbsReal(a);
    if q >= 0.0 && b > 0.0 {
      assert AbsReal(q) * AbsReal(b) == q * b;
    } else if q >= 0.0 {
      assert AbsReal(q) * AbsReal(b) == -(q * b);
    } else if b > 0.0 {
      assert AbsReal(q) * AbsReal(b) == -(q * b);
    } else {
      assert AbsReal(q) * AbsReal(b) == q * b;
    }
    assert (r - AbsReal(q)) * AbsReal(b) == 0.0;
  }

  /** A C float-to-int conversion: it truncates toward zero. */
  function TruncateToInt(x: real): (n: int)
    ensures x >= 0.0 ==> 0 <= n && n as real <= x < n as real + 1.0
    ensures x < 0.0 ==> n <= 0 && n as real - 1.0 < x <= n as real
  {
    if x >= 0.0 then x.Floor else -((-x).Floor)
  }

  /**
    The ball test on a fitted box, its sizes truncated to int on the call.
    The source tests "float eccentricity <= double 0.1". With integer sides
    that sum to less than 2^24 in magnitude, float rounding moves a ratio
    across 1/10 only when the ratio is exactly 1/10. In that case the float
    is 0.1f, which is greater than the double 0.1, so the test fails. The test
    therefore acts as a strict "< 0.1" on the exact ratio.
    When width + height is zero the source divides by zero: 0/0 is NaN and
    x/0 is an infinity, and neither compares at or below 0.1, so such a box
    is never round.
   */
  predicate IsRound(b: Box)
  {
    var w := TruncateToInt(b.width);
    var h := TruncateToInt(b.height);
    w + h != 0 && Eccentricity(w, h) < EccentricityThreshold
  }

  /** A box of 9 by 11 has eccentricity exactly 1/10, and the source sends it to the residue. */
  lemma TenthRatioIsNotRound(cx: real, cy: real, angle: real)
    ensures Eccentricity(9, 11) == EccentricityThreshold
    ensures !IsRound(Box(cx, cy, 9.0, 11.0, angle))
  {
    assert TruncateToInt(9.0) == 9 && TruncateToInt(11.0) == 11;
  }

  /**
    The test sees the truncated sizes, not the fitted ones: a box of
    8.15625 by 9.96875, also exactly in the ratio 9:11, truncates to 8 by 9
    and is round.
   */
  lemma TruncationDecidesRoundness(cx: real, cy: real, angle: real)
    ensures 11.0 * 8.15625 == 9.0 * 9.96875
    ensures IsRound(Box(cx, cy, 8.15625, 9.96875, angle))
  {
    assert TruncateToInt(8.15625) == 8 && TruncateToInt(9.96875) == 9;
    EccentricityBelowThreshold(8, 9);
  }

  /** Where one contour of the ball pass ends up. */
  datatype BallRoute = TooShort | EllipseOutput | ResidueRaster

  function RouteOf(c: Contour, fit: seq<Point> -> Box): BallRoute
  {
    if |c.points| <= BallMinPoints then TooShort
    else if IsRound(fit(c.points)) then EllipseOutput
    else ResidueRaster
  }

  /** The route of a contour, stated on its point count and fitted sizes alone. */
  lemma RouteOfCharacterized(c: Contour, fit: seq<Point> -> Box)
    ensures RouteOf(c, fit) == TooShort <==> |c.points| <= BallMinPoints
    ensures RouteOf(c, fit) == EllipseOutput <==>
      var w := TruncateToInt(fit(c.points).width);
      var h := TruncateToInt(fit(c.points).height);
      |c.points| > BallMinPoints && w + h != 0 && 10 * Abs(h - w) < Abs(h + w)
    ensures RouteOf(c, fit) == ResidueRaster <==>
      var w := TruncateToInt(fit(c.points).width);
      var h := TruncateToInt(fit(c.points).height);
      |c.points| > BallMinPoints && (w + h == 0 || 10 * Abs(h - w) >= Abs(h + w))
  {
    var w := TruncateToInt(fit(c.points).width);
    var h := TruncateToInt(fit(c.points).height);
    if w + h != 0 {
      EccentricityBelowThreshold(w, h);
    }
  }

  /** What the ball pass produces: ellipses drawn, contours drawn into the residue. */
  datatype BallPass = BallPass(ellipses: seq<Box>, residue: seq<Contour>)

  /** The ball pass over a contour list, in list order. */
  function BallPassOf(cs: seq<Contour>, fit: seq<Point> -> Box): BallPass
    decreases |cs|
  {
    if cs == [] then BallPass([], [])
    else
      var prev := BallPassOf(cs[..|cs| - 1], fit);
      var c := cs[|cs| - 1];
      match RouteOf(c, fit)
      case TooShort => prev
      case EllipseOutput => prev.(ellipses := prev.ellipses + [fit(c.points)])
      case ResidueRaster => prev.(residue := prev.residue + [c])
  }

  /** The contours of `cs` with the given route, in order (a reference definition). */
  function Routed(cs: seq<Contour>, fit: seq<Point> -> Box, route: BallRoute): seq<Contour>
  {
    if cs == [] then []
    else (if RouteOf(cs[0], fit) == route then [cs[0]] else []) + Routed(cs[1..], fit, route)
  }

  function FitAll(cs: seq<Contour>, fit: seq<Point> -> Box): (r: seq<Box>)
    ensures |r| == |cs|
    ensures forall i :: 0 <= i < |cs| ==> r[i] == fit(cs[i].points)
  {
    seq(|cs|, i requires 0 <= i < |cs| => fit(cs[i].points))
  }

  lemma {:induction false} RoutedAppend(cs: seq<Contour>, c: Contour, fit: seq<Point> -> Box, route: BallRoute)
    ensures Routed(cs + [c], fit, route) ==
      Routed(cs, fit, route) + (if RouteOf(c, fit) == route then [c] else [])
  {
    if cs == [] {
      assert [c][1..] == [];
    } else {
      assert (cs + [c])[1..] == cs[1..] + [c];
      RoutedAppend(cs[1..], c, fit, route);
    }
  }

  /**
    The ball pass is a partition: the ellipse output is the fit of exactly the
    round long contours, the residue exactly the other long contours, both in
    list order.
   */
  lemma {:induction false} BallPassPartition(cs: seq<Contour>, fit: seq<Point> -> Box)
    ensures BallPassOf(cs, fit).ellipses == FitAll(Routed(cs, fit, EllipseOutput), fit)
    ensures BallPassOf(cs, fit).residue == Routed(cs, fit, ResidueRaster)
    decreases |cs|
  {
    if cs != [] {
      var init, c := cs[..|cs| - 1], cs[|cs| - 1];
      assert cs == init + [c];
      BallPassPartition(init, fit);
      RoutedAppend(init, c, fit, EllipseOutput);
      RoutedAppend(init, c, fit, ResidueRaster);
    }
  }

  /** Every contour has exactly one route, so the three route lists share out the list. */
  lemma {:induction false} RoutesCoverList(cs: seq<Contour>, fit: seq<Point> -> Box)
    ensures |Routed(cs, fit, TooShort)| + |Routed(cs, fit, EllipseOutput)|
          + |Routed(cs, fit, ResidueRaster)| == |cs|
  {
    if cs != [] {
      RoutesCoverList(cs[1..], fit);
    }
  }

  lemma {:induction false} RoutedMembers(cs: seq<Contour>, fit: seq<Point> -> Box, route: BallRoute)
    ensures forall c :: c in Routed(cs, fit, route) <==> c in cs && RouteOf(c, fit) == route
  {
    if cs != [] {
      RoutedMembers(cs[1..], fit, route);
      assert cs == [cs[0]] + cs[1..];
    }
  }

  /**
    The residue holds exactly the long contours that fail the eccentricity
    test: no contour of 20 points or fewer is drawn into it.
   */
  lemma {:induction false} BallResidueContents(cs: seq<Contour>, fit: seq<Point> -> Box)
    ensures forall c :: c in cs && |c.points| <= BallMinPoints ==> c !in BallPassOf(cs, fit).residue
    ensures forall c :: c in BallPassOf(cs, fit).residue <==>
      c in cs && |c.points| > BallMinPoints && !IsRound(fit(c.points))
  {
    BallPassPartition(cs, fit);
    RoutedMembers(cs, fit, ResidueRaster);
  }

  /**
    The ellipse output holds the fit of every long contour that passes the
    eccentricity test, and nothing else.
   */
  lemma {:induction false} BallEllipseContents(cs: seq<Contour>, fit: seq<Point> -> Box)
    ensures forall c :: c in cs && |c.points| > BallMinPoints && IsRound(fit(c.points)) ==>
      fit(c.points) in BallPassOf(cs, fit).ellipses
    ensures forall b :: b in BallPassOf(cs, fit).ellipses ==>
      exists c :: c in cs && |c.points| > BallMinPoints && IsRound(b) && b == fit(c.points)
  {
    BallPassPartition(cs, fit);
    RoutedMembers(cs, fit, EllipseOutput);
    var round := Routed(cs, fit, EllipseOutput);
    forall c | c in cs && |c.points| > BallMinPoints && IsRound(fit(c.points))
      ensures fit(c.points) in BallPassOf(cs, fit).ellipses
    {
      var i :| 0 <= i < |round| && round[i] == c;
      assert FitAll(round, fit)[i] == fit(c.points);
    }
    forall b | b in BallPassOf(cs, fit).ellipses
      ensures exists c :: c in cs && |c.points| > BallMinPoints && IsRound(b) && b == fit(c.points)
    {
      var i :| 0 <= i < |round| && FitAll(round, fit)[i] == b;
      assert round[i] in round;
    }
  }

  /** Ellipses and residue together are as many as the contours of more than 20 points. */
  lemma {:induction false} BallPassCount(cs: seq<Contour>, fit: seq<Point> -> Box)
    ensures |BallPassOf(cs, fit).ellipses| + |BallPassOf(cs, fit).residue|
         == |cs| - |Routed(cs, fit, TooShort)|
  {
    BallPassPartition(cs, fit);
    RoutesCoverList(cs, fit);
  }

  /**
    The fit is never consulted on a contour of 20 points or fewer: two fits
    that agree on the long contours give the same ball pass.
   */
  lemma {:induction false} FitOnlyOnLongContours(cs: seq<Contour>, fit: seq<Point> -> Box, fit': seq<Point> -> Box)
    requires forall c :: c in cs && |c.points| > BallMinPoints ==> fit(c.points) == fit'(c.points)
    ensures BallPassOf(cs, fit) == BallPassOf(cs, fit')
    decreases |cs|
  {
    if cs != [] {
      var init := cs[..|cs| - 1];
      assert forall c :: c in init ==> c in cs;
      FitOnlyOnLongContours(init, fit, fit');
    }
  }

  /**
    The ball pass loop: walk the contour list, skip short contours, copy the
    points of the rest, fit an ellipse and route it by eccentricity.
   */
  method RouteBallContours(contours: seq<Contour>, fit: seq<Point> -> Box)
    returns (ellipses: seq<Box>, residue: seq<Contour>)
    ensures BallPass(ellipses, residue) == BallPassOf(contours, fit)
  {
    ellipses, residue := [], [];
    var k := 0;
    while k < |contours|
      invariant 0 <= k <= |contours|
      invariant BallPass(ellipses, residue) == BallPassOf(contours[..k], fit)
    {
      var contour := contours[k];
      assert contours[..k + 1][..k] == contours[..k];
      var numPoints := |contour.points|;
      if numPoints <= BallMinPoints {
        k := k + 1;
        continue;
      }
      var listOfPoints: seq<Point> := [];
      var i := 0;
      while i < numPoints
        invariant 0 <= i <= numPoints
        invariant listOfPoints == contour.points[..i]
      {
        listOfPoints := listOfPoints + [contour.points[i]];
        i := i + 1;
      }
      assert listOfPoints == contour.points;
      var ellipseBound := fit(listOfPoints);
      // the source's float test "eccentricity <= 0.1", see IsRound
      if IsRound(ellipseBound) {
        ellipses := ellipses + [ellipseBound];
      } else {
        residue := residue + [contour];
      }
      k := k + 1;
    }
    assert contours[..k] == contours;
  }

  /** The wall pass: the contours with at least 50 points, in list order. */
  function WallPassOf(cs: seq<Contour>): seq<Contour>
    decreases |cs|
  {
    if cs == [] then []
    else
      var prev := WallPassOf(cs[..|cs| - 1]);
      var c := cs[|cs| - 1];
      if |c.points| >= WallMinPoints then prev + [c] else prev
  }

  /** A wall contour is drawn iff it has at least 50 points; nothing is added or repeated. */
  lemma {:induction false} WallPassMembers(cs: seq<Contour>)
    ensures forall c :: c in WallPassOf(cs) <==> c in cs && |c.points| >= WallMinPoints
    ensures |WallPassOf(cs)| <= |cs|
    ensures multiset(WallPassOf(cs)) <= multiset(cs)
    decreases |cs|
  {
    if cs != [] {
      var init := cs[..|cs| - 1];
      assert cs == init + [cs[|cs| - 1]];
      WallPassMembers(init);
    }
  }

  /** The wall pass loop: draw every contour of at least 50 points. */
  method DrawWallContours(contours: seq<Contour>) returns (drawn: seq<Contour>)
    ensures drawn == WallPassOf(contours)
  {
    drawn := [];
    var k := 0;
    while k < |contours|
      invariant 0 <= k <= |contours|
      invariant drawn == WallPassOf(contours[..k])
    {
      assert contours[..k + 1][..k] == contours[..k];
      if |contours[k].points| >= WallMinPoints {
        drawn := drawn + [contours[k]];
      }
      k := k + 1;
    }
    assert contours[..k] == contours;
  }
}
