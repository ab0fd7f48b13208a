/** The spline of highstock.src.js: control points that are clamped so that the curve makes no
    false extremes. */
module Spline {
  import opened Wrappers
  import opened Reals

  datatype XY = XY(x: real, y: real)

  datatype Controls = Controls(left: XY, right: XY)

  datatype Command = MoveTo(to: XY) | CurveTo(control1: XY, control2: XY, end: XY)

  /** The weight of a point in its control points, against a weight of 1 for the neighbour. */
  const SMOOTHING := 1.5

  /** `a || b`: neither a missing number nor zero counts. */
  function Or(a: Option<real>, b: real): real {
    if a.Some? && a.value != 0.0 then a.value else b
  }

  // ----- the control points as a function

  function Weighted(smoothing: real, here: real, other: real): real
    requires smoothing >= 0.0
  {
    (smoothing * here + other) / (smoothing + 1.0)
  }

  /** What makes the two control points and the point lie on a straight line. */
  function Correction(left: XY, right: XY, here: XY): real
    requires left.x < right.x
  {
    ((right.y - left.y) * (right.x - here.x)) / (right.x - left.x) + here.y - right.y
  }

  /** The first check, on the left control point. */
  function ClampLeft(left: real, right: real, lastY: real, plotY: real): (real, real) {
    if left > lastY && left > plotY then (Max(lastY, plotY), 2.0 * plotY - Max(lastY, plotY))
    else if left < lastY && left < plotY then (Min(lastY, plotY), 2.0 * plotY - Min(lastY, plotY))
    else (left, right)
  }

  /** The second check, on the right control point. */
  function ClampRight(left: real, right: real, nextY: real, plotY: real): (real, real) {
    if right > nextY && right > plotY then (2.0 * plotY - Max(nextY, plotY), Max(nextY, plotY))
    else if right < nextY && right < plotY then (2.0 * plotY - Min(nextY, plotY), Min(nextY, plotY))
    else (left, right)
  }

  lemma WeightedBetween(smoothing: real, here: real, other: real)
    requires smoothing >= 0.0
    ensures here - Weighted(smoothing, here, other) == (here - other) / (smoothing + 1.0)
    ensures other < here ==> Weighted(smoothing, here, other) < here
    ensures other > here ==> Weighted(smoothing, here, other) > here
  {
    var d := smoothing + 1.0;
    assert here == (here * d) / d;
    assert here * d - (smoothing * here + other) == here - other;
    assert (here * d) / d - (smoothing * here + other) / d == (here * d - (smoothing * here + other)) / d;
    if other < here { assert (here - other) / d > 0.0; }
    if other > here { assert (other - here) / d > 0.0; assert (here - other) / d == -((other - here) / d); }
  }

  function ControlPoints(smoothing: real, last: XY, here: XY, next: XY): Controls
    requires smoothing >= 0.0 && last.x < here.x < next.x
  {
    WeightedBetween(smoothing, here.x, last.x);
    WeightedBetween(smoothing, here.x, next.x);
    var left := XY(Weighted(smoothing, here.x, last.x), Weighted(smoothing, here.y, last.y));
    var right := XY(Weighted(smoothing, here.x, next.x), Weighted(smoothing, here.y, next.y));
    var correction := Correction(left, right, here);
    var (l1, r1) := ClampLeft(left.y + correction, right.y + correction, last.y, here.y);
    var (l2, r2) := ClampRight(l1, r1, next.y, here.y);
    Controls(XY(left.x, l2), XY(right.x, r2))
  }

  ghost predicate IncreasingX(pts: seq<XY>) {
    forall i, j | 0 <= i < j < |pts| :: pts[i].x < pts[j].x
  }

  /** The control points of an inner point of a segment. */
  function InnerControls(pts: seq<XY>, i: nat): Option<Controls>
    requires i < |pts| && IncreasingX(pts)
  {
    if 0 < i < |pts| - 1 then Some(ControlPoints(SMOOTHING, pts[i - 1], pts[i], pts[i + 1])) else None
  }

  function LeftOf(c: Option<Controls>, p: XY): XY {
    match c
    case Some(k) => XY(Or(Some(k.left.x), p.x), Or(Some(k.left.y), p.y))
    case None => p
  }

  function RightOf(c: Option<Controls>, p: XY): XY {
    match c
    case Some(k) => XY(Or(Some(k.right.x), p.x), Or(Some(k.right.y), p.y))
    case None => p
  }

  /** The drawing command of the i-th point of a segment. */
  function PathCommand(pts: seq<XY>, i: nat): Command
    requires i < |pts| && IncreasingX(pts)
  {
    if i == 0 then MoveTo(pts[0])
    else CurveTo(RightOf(InnerControls(pts, i - 1), pts[i - 1]), LeftOf(InnerControls(pts, i), pts[i]), pts[i])
  }

  // ----- the code

  class SplinePoint {
    const plotX: real
    const plotY: real
    var rightContX: Option<real>
    var rightContY: Option<real>

    constructor (x: real, y: real)
      ensures plotX == x && plotY == y && rightContX == None && rightContY == None
    {
      plotX, plotY := x, y;
      rightContX, rightContY := None, None;
    }

    function At(): XY {
      XY(plotX, plotY)
    }
  }

  function Plots(segment: seq<SplinePoint>): (r: seq<XY>)
    ensures |r| == |segment|
  {
    seq(|segment|, i requires 0 <= i < |segment| => segment[i].At())
  }

  /** The right control point recorded on a point, for drawing the next one. */
  function Recorded(c: Option<Controls>): (Option<real>, Option<real>) {
    match c case Some(k) => (Some(k.right.x), Some(k.right.y)) case None => (None, None)
  }

  /** The part of `getPointSpline` for inner points: straightening, then the two checks. */
  method FindControls(last: XY, here: XY, next: XY) returns (c: Controls)
    requires last.x < here.x < next.x
    ensures c == ControlPoints(SMOOTHING, last, here, next)
  {
    hide Weighted, Correction, Max, Min;
    WeightedBetween(SMOOTHING, here.x, last.x);
    WeightedBetween(SMOOTHING, here.x, next.x);
    var left := XY(Weighted(SMOOTHING, here.x, last.x), Weighted(SMOOTHING, here.y, last.y));
    var right := XY(Weighted(SMOOTHING, here.x, next.x), Weighted(SMOOTHING, here.y, next.y));
    var correction := Correction(left, right, here);
    var leftY, rightY := left.y + correction, right.y + correction;
    if leftY > last.y && leftY > here.y {
      leftY := Max(last.y, here.y);
      rightY := 2.0 * here.y - leftY;
    } else if leftY < last.y && leftY < here.y {
      leftY := Min(last.y, here.y);
      rightY := 2.0 * here.y - leftY;
    }
    if rightY > next.y && rightY > here.y {
      rightY := Max(next.y, here.y);
      leftY := 2.0 * here.y - rightY;
    } else if rightY < next.y && rightY < here.y {
      rightY := Min(next.y, here.y);
      leftY := 2.0 * here.y - rightY;
    }
    c := Controls(XY(left.x, leftY), XY(right.x, rightY));
  }

  method GetPointSpline(segment: seq<SplinePoint>, i: nat) returns (ret: Command)
    requires i < |segment| && IncreasingX(Plots(segment))
    requires i > 0 ==> (segment[i - 1].rightContX, segment[i - 1].rightContY) ==
                       Recorded(InnerControls(Plots(segment), i - 1))
    requires segment[i].rightContX == None && segment[i].rightContY == None
    modifies if i > 0 then {segment[i], segment[i - 1]} else {segment[i]}
    ensures ret == PathCommand(Plots(segment), i)
    ensures (segment[i].rightContX, segment[i].rightContY) == Recorded(InnerControls(Plots(segment), i))
    ensures i > 0 ==> segment[i - 1].rightContX == None && segment[i - 1].rightContY == None
  {
    hide ControlPoints;
    var point := segment[i];
    ghost var pts := Plots(segment);
    var plotX, plotY := point.plotX, point.plotY;
    var leftContX: Option<real>, leftContY: Option<real> := None, None;
    if i > 0 {
      assert pts[i - 1].x < pts[i].x;
    }
    if i > 0 && i < |segment| - 1 {
      assert pts[i].x < pts[i + 1].x;
      var c := FindControls(segment[i - 1].At(), point.At(), segment[i + 1].At());
      leftContX, leftContY := Some(c.left.x), Some(c.left.y);
      point.rightContX, point.rightContY := Some(c.right.x), Some(c.right.y);
    }
    if i == 0 {
      ret := MoveTo(XY(plotX, plotY));
    } else {
      var lastPoint := segment[i - 1];
      ret := CurveTo(XY(Or(lastPoint.rightContX, lastPoint.plotX), Or(lastPoint.rightContY, lastPoint.plotY)),
                     XY(Or(leftContX, plotX), Or(leftContY, plotY)),
                     XY(plotX, plotY));
      lastPoint.rightContX, lastPoint.rightContY := None, None;
    }
  }

  /** `getSegmentPath`, which leaves every point as it found it. */
  method GetSegmentPath(segment: seq<SplinePoint>) returns (path: seq<Command>)
    requires IncreasingX(Plots(segment))
    requires forall i | 0 <= i < |segment| :: segment[i].rightContX == None && segment[i].rightContY == None
    modifies segment
    ensures |path| == |segment| && forall i | 0 <= i < |path| :: path[i] == PathCommand(Plots(segment), i)
    ensures forall i | 0 <= i < |segment| :: segment[i].rightContX == None && segment[i].rightContY == None
  {
    hide PathCommand, InnerControls;
    path := [];
    ghost var pts := Plots(segment);
    for i := 0 to |segment|
      invariant |path| == i && forall k | 0 <= k < i :: path[k] == PathCommand(pts, k)
      invariant forall k | 0 <= k < |segment| && k != i - 1 ::
          segment[k].rightContX == None && segment[k].rightContY == None
      invariant i > 0 ==> (segment[i - 1].rightContX, segment[i - 1].rightContY) == Recorded(InnerControls(pts, i - 1))
    {
      assert forall j, k | 0 <= j < k < |segment| :: pts[j].x < pts[k].x && segment[j] != segment[k];
      var command := GetPointSpline(segment, i);
      path := path + [command];
    }
    if |segment| > 0 {
      LastHasNone(pts);
    }
  }

  lemma LastHasNone(pts: seq<XY>)
    requires pts != [] && IncreasingX(pts)
    ensures InnerControls(pts, |pts| - 1) == None
  {
  }

  // ----- no false extremes

  ghost predicate Between(v: real, a: real, b: real) {
    Min(a, b) <= v <= Max(a, b)
  }

  /** Where the corrected control points stand: opposite sides of the point, in proportion to the
      x distances, together covering the chord's rise divided by `smoothing + 1`. */
  lemma CorrectedOffsets(smoothing: real, last: XY, here: XY, next: XY) returns (a: real, b: real)
    requires smoothing >= 0.0 && last.x < here.x < next.x
    ensures var left := XY(Weighted(smoothing, here.x, last.x), Weighted(smoothing, here.y, last.y));
            var right := XY(Weighted(smoothing, here.x, next.x), Weighted(smoothing, here.y, next.y));
            && left.x < right.x
            && left.y + Correction(left, right, here) == here.y - a
            && right.y + Correction(left, right, here) == here.y + b
    ensures a + b == (next.y - last.y) / (smoothing + 1.0)
    ensures (a >= 0.0 && b >= 0.0) || (a <= 0.0 && b <= 0.0)
  {
    hide Weighted, Correction;
    var left := XY(Weighted(smoothing, here.x, last.x), Weighted(smoothing, here.y, last.y));
    var right := XY(Weighted(smoothing, here.x, next.x), Weighted(smoothing, here.y, next.y));
    WeightedBetween(smoothing, here.x, last.x);
    WeightedBetween(smoothing, here.x, next.x);
    WeightedRise(smoothing, last.y, here.y, next.y);
    a, b := CorrectionSplits(left, right, here);
  }

  /** The uncorrected control points rise by the chord's rise over `smoothing + 1`. */
  lemma WeightedRise(smoothing: real, last: real, here: real, next: real)
    requires smoothing >= 0.0
    ensures Weighted(smoothing, here, next) - Weighted(smoothing, here, last) == (next - last) / (smoothing + 1.0)
  {
    hide Weighted;
    WeightedBetween(smoothing, here, last);
    WeightedBetween(smoothing, here, next);
    SumOfQuotients(here - last, here - next, smoothing + 1.0);
  }

  /** The correction splits the rise between the two sides of the point. */
  lemma CorrectionSplits(left: XY, right: XY, here: XY) returns (a: real, b: real)
    requires left.x < here.x < right.x
    ensures left.y + Correction(left, right, here) == here.y - a
    ensures right.y + Correction(left, right, here) == here.y + b
    ensures a + b == right.y - left.y
    ensures (a >= 0.0 && b >= 0.0) || (a <= 0.0 && b <= 0.0)
  {
    var w, p, q := right.y - left.y, right.x - here.x, right.x - left.x;
    b := (w * p) / q;
    a := w - b;
    PartOf(w, p, q);
  }

  lemma SumOfQuotients(u: real, v: real, d: real)
    requires d > 0.0
    ensures u / d - v / d == (u - v) / d
  {
  }

  /** A part `p` of `q` of a rise has the rise's sign and is no more than it. */
  lemma PartOf(w: real, p: real, q: real)
    requires 0.0 < p < q
    ensures w >= 0.0 ==> 0.0 <= (w * p) / q <= w
    ensures w <= 0.0 ==> w <= (w * p) / q <= 0.0
  {
    var f := p / q;
    assert 0.0 < f;
    assert (q - p) / q > 0.0;
    assert q / q == 1.0;
    SumOfQuotients(q, p, q);
    assert (w * p) / q == w * f;
    if w >= 0.0 {
      assert w * f >= 0.0 && w * (1.0 - f) >= 0.0;
    } else {
      assert (-w) * f >= 0.0 && (-w) * (1.0 - f) >= 0.0;
    }
  }

  /** The two checks bring both control points between their neighbours, provided the offsets
      together are at most half the rise from the last to the next point. */
  lemma ClampsSuffice(a: real, b: real, lastY: real, plotY: real, nextY: real)
    requires (a >= 0.0 && b >= 0.0 && 2.0 * (a + b) <= nextY - lastY) ||
             (a <= 0.0 && b <= 0.0 && 2.0 * (a + b) >= nextY - lastY)
    ensures var (l1, r1) := ClampLeft(plotY - a, plotY + b, lastY, plotY);
            var (l2, r2) := ClampRight(l1, r1, nextY, plotY);
            Between(l2, lastY, plotY) && Between(r2, plotY, nextY)
  {
  }

  lemma HalfRise(rise: real, d: real)
    requires d >= 2.0
    ensures rise >= 0.0 ==> 2.0 * (rise / d) <= rise && rise / d >= 0.0
    ensures rise <= 0.0 ==> 2.0 * (rise / d) >= rise && rise / d <= 0.0
  {
    var q := rise / d;
    assert rise == q * d;
    if rise >= 0.0 {
      assert q >= 0.0;
      assert q * (d - 2.0) >= 0.0;
    } else {
      assert q <= 0.0;
      assert (-q) * (d - 2.0) >= 0.0;
    }
  }

  /** For a smoothing of at least 1 each control point lies between the point and its neighbour. */
  lemma ControlsInBand(smoothing: real, last: XY, here: XY, next: XY)
    requires smoothing >= 1.0 && last.x < here.x < next.x
    ensures var c := ControlPoints(smoothing, last, here, next);
            && Between(c.left.y, last.y, here.y) && Between(c.right.y, here.y, next.y)
            && last.x < c.left.x < here.x < c.right.x < next.x
  {
    hide Weighted, Correction, ClampLeft, ClampRight, Between;
    var a, b := CorrectedOffsets(smoothing, last, here, next);
    HalfRise(next.y - last.y, smoothing + 1.0);
    ClampsSuffice(a, b, last.y, here.y, next.y);
    WeightedBetween(smoothing, here.x, last.x);
    WeightedBetween(smoothing, here.x, next.x);
    HalfRise(here.x - last.x, smoothing + 1.0);
    HalfRise(here.x - next.x, smoothing + 1.0);
  }

  /** A smaller smoothing would not do. */
  lemma SmoothingMatters()
    ensures var c := ControlPoints(0.5, XY(0.0, 0.0), XY(1.0, 10.0), XY(20.0, 21.0));
            !Between(c.left.y, 0.0, 10.0)
  {
    var last, here, next := XY(0.0, 0.0), XY(1.0, 10.0), XY(20.0, 21.0);
    var left := XY(Weighted(0.5, 1.0, 0.0), Weighted(0.5, 10.0, 0.0));
    var right := XY(Weighted(0.5, 1.0, 20.0), Weighted(0.5, 10.0, 21.0));
    assert left == XY(1.0 / 3.0, 10.0 / 3.0);
    assert right == XY(41.0 / 3.0, 52.0 / 3.0);
    assert Correction(left, right, here) == (14.0 * (38.0 / 3.0)) / (40.0 / 3.0) + 10.0 - 52.0 / 3.0;
  }

  // ----- the curve itself

  function Mix(a: real, b: real, t: real): real {
    a + t * (b - a)
  }

  /** The height of a cubic Bezier curve at parameter `t`, by repeated mixing. */
  function Bezier(p0: real, c1: real, c2: real, p1: real, t: real): real {
    var a, b, c := Mix(p0, c1, t), Mix(c1, c2, t), Mix(c2, p1, t);
    Mix(Mix(a, b, t), Mix(b, c, t), t)
  }

  lemma MixInBand(a: real, b: real, t: real, low: real, high: real)
    requires low <= a <= high && low <= b <= high && 0.0 <= t <= 1.0
    ensures low <= Mix(a, b, t) <= high
  {
    assert t * (b - low) >= 0.0 && (1.0 - t) * (a - low) >= 0.0;
    assert t * (high - b) >= 0.0 && (1.0 - t) * (high - a) >= 0.0;
    assert Mix(a, b, t) == low + t * (b - low) + (1.0 - t) * (a - low);
    assert Mix(a, b, t) == high - t * (high - b) - (1.0 - t) * (high - a);
  }

  lemma BezierInBand(p0: real, c1: real, c2: real, p1: real, t: real)
    requires Between(c1, p0, p1) && Between(c2, p0, p1) && 0.0 <= t <= 1.0
    ensures Between(Bezier(p0, c1, c2, p1, t), p0, p1)
  {
    hide Mix;
    var low, high := Min(p0, p1), Max(p0, p1);
    var a, b, c := Mix(p0, c1, t), Mix(c1, c2, t), Mix(c2, p1, t);
    MixInBand(p0, c1, t, low, high);
    MixInBand(c1, c2, t, low, high);
    MixInBand(c2, p1, t, low, high);
    MixInBand(a, b, t, low, high);
    MixInBand(b, c, t, low, high);
    MixInBand(Mix(a, b, t), Mix(b, c, t), t, low, high);
  }

  /** Every piece of the path of a segment stays between the heights of its two end points, at
      every parameter value, fallbacks included. */
  lemma PathNeverOvershoots(pts: seq<XY>, i: nat, t: real)
    requires IncreasingX(pts) && 0 < i < |pts| && 0.0 <= t <= 1.0
    ensures var c := PathCommand(pts, i);
            && c.CurveTo? && c.end == pts[i]
            && Between(c.control1.y, pts[i - 1].y, pts[i].y)
            && Between(c.control2.y, pts[i - 1].y, pts[i].y)
            && Between(Bezier(pts[i - 1].y, c.control1.y, c.control2.y, c.end.y, t), pts[i - 1].y, pts[i].y)
  {
    hide ControlPoints, Bezier;
    if i > 1 {
      ControlsInBand(SMOOTHING, pts[i - 2], pts[i - 1], pts[i]);
    }
    if i < |pts| - 1 {
      ControlsInBand(SMOOTHING, pts[i - 1], pts[i], pts[i + 1]);
    }
    var c := PathCommand(pts, i);
    BezierInBand(pts[i - 1].y, c.control1.y, c.control2.y, pts[i].y, t);
  }
}
