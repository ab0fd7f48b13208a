/** Where the control points of a spline stand: on a straight line through the point, unless a check moves
    one of them; and how the path uses them. */
module SplineShape {
  import opened Wrappers
  import opened Reals
  import opened Spline

  /** The number nearest to `v` between `a` and `b`. */
  function Nearest(v: real, a: real, b: real): (r: real)
    ensures Between(r, a, b) && (Between(v, a, b) ==> r == v)
    ensures v > r ==> r == Max(a, b)
    ensures v < r ==> r == Min(a, b)
  {
    if v > Max(a, b) then Max(a, b) else if v < Min(a, b) then Min(a, b) else v
  }

  /** The checks in turn: a control point out of its band moves to the nearest height in it, and the other
      becomes its mirror image. */
  function Checked(l: real, r: real, lastY: real, plotY: real, nextY: real): (real, real) {
    var l1 := Nearest(l, lastY, plotY);
    var r1 := if l1 == l then r else 2.0 * plotY - l1;
    var r2 := Nearest(r1, plotY, nextY);
    (if r2 == r1 then l1 else 2.0 * plotY - r2, r2)
  }

  /** In x the control points are weighted means, 3 for the point against 2 for its neighbour. */
  lemma ControlX(last: XY, here: XY, next: XY)
    requires last.x < here.x < next.x
    ensures var c := ControlPoints(SMOOTHING, last, here, next);
            && 5.0 * c.left.x == 3.0 * here.x + 2.0 * last.x
            && 5.0 * c.right.x == 3.0 * here.x + 2.0 * next.x
  {
    hide Correction, ClampLeft, ClampRight;
    WeightedMean(here.x, last.x);
    WeightedMean(here.x, next.x);
  }

  lemma WeightedMean(here: real, other: real)
    ensures 5.0 * Weighted(SMOOTHING, here, other) == 3.0 * here + 2.0 * other
  {
  }

  /** Before the checks the control points and the point lie on one line, and the rise between the control
      points is two fifths of the rise between the neighbours. Both together fix their heights. */
  lemma Straightening(last: XY, here: XY, next: XY) returns (l: real, r: real)
    requires last.x < here.x < next.x
    ensures var c := ControlPoints(SMOOTHING, last, here, next);
            && (r - here.y) * (here.x - c.left.x) == (here.y - l) * (c.right.x - here.x)
            && 5.0 * (r - l) == 2.0 * (next.y - last.y)
            && (c.left.y, c.right.y) == Checked(l, r, last.y, here.y, next.y)
  {
    hide Weighted, Correction, ClampLeft, ClampRight, Checked;
    var left := XY(Weighted(SMOOTHING, here.x, last.x), Weighted(SMOOTHING, here.y, last.y));
    var right := XY(Weighted(SMOOTHING, here.x, next.x), Weighted(SMOOTHING, here.y, next.y));
    WeightedBetween(SMOOTHING, here.x, last.x);
    WeightedBetween(SMOOTHING, here.x, next.x);
    WeightedMean(here.y, last.y);
    WeightedMean(here.y, next.y);
    l, r := left.y + Correction(left, right, here), right.y + Correction(left, right, here);
    CorrectionIsStraight(left, right, here);
    ChecksAre(l, r, last.y, here.y, next.y);
    assert ControlPoints(SMOOTHING, last, here, next).left.x == left.x;
    assert ControlPoints(SMOOTHING, last, here, next).right.x == right.x;
  }

  lemma CorrectionIsStraight(left: XY, right: XY, here: XY)
    requires left.x < here.x < right.x
    ensures var l, r := left.y + Correction(left, right, here), right.y + Correction(left, right, here);
            && (r - here.y) * (here.x - left.x) == (here.y - l) * (right.x - here.x)
            && r - l == right.y - left.y
  {
    var w, p, q := right.y - left.y, right.x - here.x, right.x - left.x;
    var b := (w * p) / q;
    assert b * q == w * p;
    assert Correction(left, right, here) == b + here.y - right.y;
    Proportion(b, p, q, w);
  }

  lemma Proportion(b: real, p: real, q: real, w: real)
    requires b * q == w * p
    ensures b * (q - p) == (w - b) * p
  {
  }

  lemma ChecksAre(l: real, r: real, lastY: real, plotY: real, nextY: real)
    ensures var (l1, r1) := ClampLeft(l, r, lastY, plotY);
            ClampRight(l1, r1, nextY, plotY) == Checked(l, r, lastY, plotY, nextY)
  {
  }

  /** Points on a line have their control points on it. */
  lemma LineStaysStraight(last: XY, here: XY, next: XY, slope: real)
    requires last.x < here.x < next.x
    requires here.y - last.y == slope * (here.x - last.x) && next.y - here.y == slope * (next.x - here.x)
    ensures var c := ControlPoints(SMOOTHING, last, here, next);
            && here.y - c.left.y == slope * (here.x - c.left.x)
            && c.right.y - here.y == slope * (c.right.x - here.x)
  {
    hide ControlPoints, Checked;
    var c := ControlPoints(SMOOTHING, last, here, next);
    ControlX(last, here, next);
    var l, r := Straightening(last, here, next);
    var dl, dr := here.x - c.left.x, c.right.x - here.x;
    assert 5.0 * dl == 2.0 * (here.x - last.x) && 5.0 * dr == 2.0 * (next.x - here.x);
    SlopeOfParts(here.y - l, r - here.y, dl, dr, slope, here.x - last.x, next.x - here.x);
    PartInBand(slope, dl, here.x - last.x, here.y, last.y);
    PartInBand(-slope, dr, next.x - here.x, here.y, next.y);
    NothingToCheck(l, r, last.y, here.y, next.y);
  }

  /** Two rises in proportion to their runs, on a chord of the given slope, have that slope. */
  lemma SlopeOfParts(a: real, b: real, dl: real, dr: real, m: real, w: real, v: real)
    requires dl > 0.0 && dr > 0.0 && 5.0 * dl == 2.0 * w && 5.0 * dr == 2.0 * v
    requires b * dl == a * dr && 5.0 * (a + b) == 2.0 * (m * w + m * v)
    ensures a == m * dl && b == m * dr
  {
    var s := dl + dr;
    assert m * w + m * v == m * (w + v) && 2.0 * (w + v) == 5.0 * s;
    TimesEqual(m, w + v, s);
    assert a + b == m * s;
    assert a * s == a * dl + a * dr && (a + b) * dl == a * dl + b * dl;
    assert a * s == (m * s) * dl;
    Cancel(a, m * dl, s);
    assert (m * s) * dl == (m * dl) * s;
    assert b == m * s - m * dl && m * s == m * dl + m * dr;
  }

  lemma TimesEqual(m: real, x: real, s: real)
    requires 2.0 * x == 5.0 * s
    ensures 2.0 * (m * x) == 5.0 * (m * s)
  {
    assert m * (2.0 * x) == m * (5.0 * s);
  }

  lemma Cancel(a: real, b: real, s: real)
    requires s > 0.0
    ensures a * s == b * s ==> a == b
  {
    if a != b {
      assert (a - b) * s == a * s - b * s;
      assert (a - b) * s != 0.0 by { if a > b { assert (a - b) * s > 0.0; } else { assert (b - a) * s > 0.0; } }
    }
  }

  lemma PartInBand(m: real, d: real, w: real, plotY: real, otherY: real)
    requires 0.0 < d && 5.0 * d == 2.0 * w && plotY - otherY == m * w
    ensures Between(plotY - m * d, otherY, plotY)
  {
    TimesEqual(m, w, d);
    if m >= 0.0 { assert m * d >= 0.0; } else { assert (-m) * d > 0.0; }
  }

  lemma NothingToCheck(l: real, r: real, lastY: real, plotY: real, nextY: real)
    requires Between(l, lastY, plotY) && Between(r, nextY, plotY)
    ensures Checked(l, r, lastY, plotY, nextY) == (l, r)
  {
  }

  /** A curve leaves a point through its right control point and reaches the next through the left one of
      that, a coordinate of zero being replaced by the one of the point itself. */
  lemma PathUsesControls(pts: seq<XY>, i: nat)
    requires IncreasingX(pts) && 1 < i < |pts| - 1
    ensures var c := PathCommand(pts, i);
            var before, here := ControlPoints(SMOOTHING, pts[i - 2], pts[i - 1], pts[i]), ControlPoints(SMOOTHING, pts[i - 1], pts[i], pts[i + 1]);
            && c.CurveTo? && c.end == pts[i]
            && c.control1.x == (if before.right.x != 0.0 then before.right.x else pts[i - 1].x)
            && c.control1.y == (if before.right.y != 0.0 then before.right.y else pts[i - 1].y)
            && c.control2.x == (if here.left.x != 0.0 then here.left.x else pts[i].x)
            && c.control2.y == (if here.left.y != 0.0 then here.left.y else pts[i].y)
  {
    hide ControlPoints;
  }

  /** The first curve starts, and the last one ends, without a control point of its own. */
  lemma PathEnds(pts: seq<XY>)
    requires IncreasingX(pts) && |pts| >= 2
    ensures PathCommand(pts, 0) == MoveTo(pts[0])
    ensures PathCommand(pts, 1).CurveTo? && PathCommand(pts, 1).control1 == pts[0]
    ensures PathCommand(pts, |pts| - 1).CurveTo? && PathCommand(pts, |pts| - 1).control2 == pts[|pts| - 1]
  {
    hide ControlPoints;
  }
}
