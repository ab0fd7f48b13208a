/** The per-pixel table of `setTooltipPoints`, against a plain nearest-point search. */
module Tooltip {
  import opened Reals

  class TipPoint {
    const plotX: real
    var high: int

    constructor (plotX: real)
      ensures this.plotX == plotX
    {
      this.plotX, high := plotX, 0;
    }
  }

  function PlotXs(points: seq<TipPoint>): (r: seq<real>)
    ensures |r| == |points|
  {
    seq(|points|, i requires 0 <= i < |points| => points[i].plotX)
  }

  ghost predicate Distinct(points: seq<TipPoint>) {
    forall i, j | 0 <= i < j < |points| :: points[i] != points[j]
  }

  function Reversed<T>(s: seq<T>): (r: seq<T>)
    ensures |r| == |s|
  {
    seq(|s|, i requires 0 <= i < |s| => s[|s| - 1 - i])
  }

  // ----- the last pixel of each point

  function Middle(a: real, b: real): real {
    (a + b) / 2.0
  }

  /** `_high`: halfway to the next point, or the end of the plot area for the last point. */
  function High(xs: seq<real>, plotSize: int, i: int): int
    requires i < |xs|
  {
    if i < 0 then -1
    else if i + 1 < |xs| then
      var h := Middle(xs[i], xs[i + 1]).Floor;
      if h < 0 then 0 else h
    else plotSize
  }

  /** The first point whose last pixel is not before `p`; points after `i` have later pixels. */
  function Owner(xs: seq<real>, plotSize: int, p: int, i: nat): (r: nat)
    requires i < |xs|
    ensures i <= r < |xs|
    ensures forall k | i <= k < r :: High(xs, plotSize, k) < p
    ensures r < |xs| - 1 ==> p <= High(xs, plotSize, r)
    decreases |xs| - i
  {
    if i == |xs| - 1 || p <= High(xs, plotSize, i) then i else Owner(xs, plotSize, p, i + 1)
  }

  function Distance(a: real, b: real): real {
    if a < b then b - a else a - b
  }

  /** Is point `i` at minimum distance from pixel `p`? */
  ghost predicate Nearest(xs: seq<real>, p: int, i: int) {
    && 0 <= i < |xs|
    && forall j | 0 <= j < |xs| :: Distance(xs[i], p as real) <= Distance(xs[j], p as real)
  }

  lemma HighsGrow(xs: seq<real>, plotSize: int, i: int, j: int)
    requires NonDecreasing(xs) && 0 <= i <= j < |xs| - 1
    ensures High(xs, plotSize, i) <= High(xs, plotSize, j)
  {
    assert Middle(xs[i], xs[i + 1]) <= Middle(xs[j], xs[j + 1]);
  }

  /** Is pixel `p` in the range `low..high` of point `i`? */
  predicate InRange(xs: seq<real>, plotSize: int, p: int, i: nat)
    requires i < |xs|
  {
    0 <= High(xs, plotSize, i - 1) + 1 <= p <= High(xs, plotSize, i)
  }

  /** The table after the loop has handled the points before `n`. */
  ghost predicate Filled(xs: seq<real>, plotSize: int, table: map<int, nat>, n: nat)
    requires n <= |xs|
  {
    forall p :: (p in table <==> exists i | 0 <= i < n :: InRange(xs, plotSize, p, i))
                && (p in table ==> table[p] < n && InRange(xs, plotSize, p, table[p]))
  }

  // ----- the loop

  /** `while (low >= 0 && low <= high)`: the pixels of one point. */
  method FillPixels(table: map<int, nat>, low: int, high: int, i: nat) returns (filled: map<int, nat>)
    ensures forall p :: p in filled <==> p in table || 0 <= low <= p <= high
    ensures forall p | p in filled :: filled[p] == if 0 <= low <= p <= high then i else table[p]
  {
    filled := table;
    var at := low;
    while at >= 0 && at <= high
      invariant at == low || 0 <= low <= at <= high + 1
      invariant forall p :: p in filled <==> p in table || low <= p < at
      invariant forall p | p in filled :: filled[p] == if low <= p < at then i else table[p]
      decreases high - at
    {
      filled := filled[at := i];
      at := at + 1;
    }
  }

  lemma FilledStep(xs: seq<real>, plotSize: int, table: map<int, nat>, filled: map<int, nat>, i: nat)
    requires i < |xs| && Filled(xs, plotSize, table, i)
    requires forall p :: p in filled <==> p in table || InRange(xs, plotSize, p, i)
    requires forall p | p in filled :: filled[p] == if InRange(xs, plotSize, p, i) then i else table[p]
    ensures Filled(xs, plotSize, filled, i + 1)
  {
    hide InRange;
    forall p
      ensures p in filled <==> exists k | 0 <= k < i + 1 :: InRange(xs, plotSize, p, k)
      ensures p in filled ==> filled[p] < i + 1 && InRange(xs, plotSize, p, filled[p])
    {
      if p in table {
        assert InRange(xs, plotSize, p, table[p]);
      }
    }
  }

  /** Assigns each pixel to a point. The table holds positions in the (possibly reversed) list;
      each point keeps the last pixel it was given. */
  method SetTooltipPoints(given: seq<TipPoint>, reversed: bool, plotSize: int)
    returns (points: seq<TipPoint>, tooltipPoints: map<int, nat>)
    requires Distinct(given)
    modifies given
    ensures points == if reversed then Reversed(given) else given
    ensures forall i | 0 <= i < |points| :: points[i].high == High(PlotXs(points), plotSize, i)
    ensures Filled(PlotXs(points), plotSize, tooltipPoints, |points|)
  {
    hide Filled, Middle;
    points := given;
    if reversed {
      points := Reversed(points);
    }
    assert Distinct(points);
    ghost var xs := PlotXs(points);
    tooltipPoints := map[];
    NothingFilled(xs, plotSize);
    var pointsLength := |points|;
    for i := 0 to pointsLength
      invariant forall k | 0 <= k < i :: points[k].high == High(xs, plotSize, k)
      invariant Filled(xs, plotSize, tooltipPoints, i)
    {
      var point := points[i];
      var low := if i > 0 then points[i - 1].high + 1 else 0;
      var high := plotSize;
      if i + 1 < pointsLength {
        high := Middle(point.plotX, points[i + 1].plotX).Floor;
        if high < 0 {
          high := 0;
        }
      }
      point.high := high;
      var filled := FillPixels(tooltipPoints, low, high, i);
      FilledStep(xs, plotSize, tooltipPoints, filled, i);
      tooltipPoints := filled;
    }
  }

  lemma NothingFilled(xs: seq<real>, plotSize: int)
    ensures Filled(xs, plotSize, map[], 0)
  {
  }

  // ----- every pixel has an entry

  lemma EveryPixelIsFilled(xs: seq<real>, plotSize: int, table: map<int, nat>, p: int)
    requires xs != [] && NonDecreasing(xs) && Filled(xs, plotSize, table, |xs|) && 0 <= p <= plotSize
    ensures p in table && table[p] == Owner(xs, plotSize, p, 0)
  {
    var r := Owner(xs, plotSize, p, 0);
    assert InRange(xs, plotSize, p, r);
    OwnerIsUnique(xs, plotSize, p, table[p]);
  }

  lemma OwnerIsUnique(xs: seq<real>, plotSize: int, p: int, i: nat)
    requires xs != [] && NonDecreasing(xs) && 0 <= p <= plotSize && i < |xs| && InRange(xs, plotSize, p, i)
    ensures i == Owner(xs, plotSize, p, 0)
  {
    var r := Owner(xs, plotSize, p, 0);
    if r < i {
      HighsGrow(xs, plotSize, r, i - 1);
    }
  }

  // ----- and it is the nearest point

  lemma FloorBelow(a: real, p: int)
    ensures p <= a.Floor <==> p as real <= a
  {
  }

  /** In the pixels of a point, the neighbours are no closer. */
  lemma OwnerBeatsNeighbours(xs: seq<real>, plotSize: int, p: int, i: nat)
    requires NonDecreasing(xs) && i < |xs| && 0 <= p && InRange(xs, plotSize, p, i)
    ensures i > 0 ==> Middle(xs[i - 1], xs[i]) < p as real
    ensures i + 1 < |xs| && (p > 0 || Middle(xs[i], xs[i + 1]) >= 0.0) ==> p as real <= Middle(xs[i], xs[i + 1])
  {
    if i > 0 {
      FloorBelow(Middle(xs[i - 1], xs[i]), p);
    }
    if i + 1 < |xs| {
      FloorBelow(Middle(xs[i], xs[i + 1]), p);
    }
  }

  lemma BetweenMiddlesIsNearest(xs: seq<real>, p: int, i: nat)
    requires NonDecreasing(xs) && i < |xs|
    requires i > 0 ==> Middle(xs[i - 1], xs[i]) < p as real
    requires i + 1 < |xs| ==> p as real <= Middle(xs[i], xs[i + 1])
    ensures Nearest(xs, p, i)
  {
    forall j | 0 <= j < |xs|
      ensures Distance(xs[i], p as real) <= Distance(xs[j], p as real)
    {
      if j < i {
        assert xs[j] <= xs[i - 1];
      } else if i < j {
        assert xs[i + 1] <= xs[j];
      }
    }
  }

  /** The first place after the one of point `i` that is not the same, or the end. */
  function NextPlace(xs: seq<real>, i: nat): (k: nat)
    requires i < |xs|
    ensures i < k <= |xs| && (k < |xs| ==> xs[k] != xs[i])
    ensures forall j | i <= j < k :: xs[j] == xs[i]
    decreases |xs| - i
  {
    if i + 1 == |xs| || xs[i + 1] != xs[i] then i + 1 else NextPlace(xs, i + 1)
  }

  /** Does the middle between the first place and the next one lie on the plot area? This is the
      value that is raised to pixel 0 when it is negative. */
  predicate FirstMiddleIsOnPlot(xs: seq<real>)
    requires xs != []
  {
    var k := NextPlace(xs, 0);
    k == |xs| || Middle(xs[0], xs[k]) >= 0.0
  }

  /** For points in order, every pixel of the plot area has an entry, and the entry is a nearest
      point for every pixel but possibly the first one. */
  lemma TableIsNearest(xs: seq<real>, plotSize: int, table: map<int, nat>, p: int)
    requires xs != [] && NonDecreasing(xs) && Filled(xs, plotSize, table, |xs|) && 0 < p <= plotSize
    ensures p in table && Nearest(xs, p, table[p])
  {
    EveryPixelIsFilled(xs, plotSize, table, p);
    OwnerBeatsNeighbours(xs, plotSize, p, table[p]);
    BetweenMiddlesIsNearest(xs, p, table[p]);
  }

  /** Pixel 0 always goes to the first point. That is a nearest point exactly when the middle to the
      next place is not negative, as it is for points that are not negative. */
  lemma FirstPixel(xs: seq<real>, plotSize: int, table: map<int, nat>)
    requires xs != [] && NonDecreasing(xs) && Filled(xs, plotSize, table, |xs|) && 0 <= plotSize
    ensures 0 in table && table[0] == 0
    ensures Nearest(xs, 0, table[0]) <==> FirstMiddleIsOnPlot(xs)
  {
    EveryPixelIsFilled(xs, plotSize, table, 0);
    assert InRange(xs, plotSize, 0, 0);
    OwnerIsUnique(xs, plotSize, 0, 0);
    var k := NextPlace(xs, 0);
    if FirstMiddleIsOnPlot(xs) {
      forall j | 0 <= j < |xs|
        ensures Distance(xs[0], 0.0) <= Distance(xs[j], 0.0)
      {
        if j >= k { assert xs[0] <= xs[k] <= xs[j]; }
      }
    } else {
      assert xs[0] <= xs[k];
      assert Distance(xs[0], 0 as real) > Distance(xs[k], 0 as real);
    }
  }

  /** The promise for points inside the plot area. */
  lemma TableAgreesWithSearch(xs: seq<real>, plotSize: int, table: map<int, nat>)
    requires xs != [] && NonDecreasing(xs) && xs[0] >= 0.0 && Filled(xs, plotSize, table, |xs|)
    ensures forall p | 0 <= p <= plotSize :: p in table && Nearest(xs, p, table[p])
  {
    forall p | 0 <= p <= plotSize
      ensures p in table && Nearest(xs, p, table[p])
    {
      if p > 0 {
        TableIsNearest(xs, plotSize, table, p);
      } else {
        FirstPixel(xs, plotSize, table);
      }
    }
  }

  /** A cropped chart keeps one point left of the plot area, and then pixel 0 can be wrong. */
  lemma NegativePointWins(table: map<int, nat>)
    requires Filled([-100.0, 10.0], 300, table, 2)
    ensures 0 in table && !Nearest([-100.0, 10.0], 0, table[0])
  {
    var xs := [-100.0, 10.0];
    FirstPixel(xs, 300, table);
    assert NextPlace(xs, 0) == 1;
  }

  /** A pixel as far from two places goes to the left one: every place left of its entry is farther. */
  lemma TiesGoLeft(xs: seq<real>, plotSize: int, table: map<int, nat>, p: int, j: nat)
    requires xs != [] && NonDecreasing(xs) && Filled(xs, plotSize, table, |xs|) && 0 < p <= plotSize
    requires p in table && j < table[p] < |xs| && xs[j] != xs[table[p]]
    ensures Distance(xs[j], p as real) > Distance(xs[table[p]], p as real)
  {
    EveryPixelIsFilled(xs, plotSize, table, p);
    hide Filled, Owner, InRange, High;
    var i: nat := table[p];
    OwnerBeatsNeighbours(xs, plotSize, p, i);
    assert xs[j] <= xs[i - 1] <= xs[i];
    BeyondMiddle(xs[j], xs[i - 1], xs[i], p as real);
  }

  lemma BeyondMiddle(x: real, y: real, z: real, p: real)
    requires x <= y <= z && x != z && Middle(y, z) < p
    ensures Distance(x, p) > Distance(z, p)
  {
  }
}
