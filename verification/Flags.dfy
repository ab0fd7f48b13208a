/** Placing flags on a master series: the single right-to-left pass of the flags `translate`. */
module Flags {
  import opened Wrappers

  /** A point of the master series; its plotY may be missing. */
  datatype OnPoint = OnPoint(x: real, plotY: Option<real>)

  class Flag {
    const x: real
    var plotY: Option<real>

    constructor (x: real, plotY: Option<real>)
      ensures this.x == x && this.plotY == plotY
    {
      this.x, this.plotY := x, plotY;
    }
  }

  ghost predicate SortedOn(onData: seq<OnPoint>) {
    forall i, j | 0 <= i < j < |onData| :: onData[i].x <= onData[j].x
  }

  ghost predicate SortedFlags(points: seq<Flag>) {
    && (forall i, j | 0 <= i < j < |points| :: points[i].x <= points[j].x)
    && forall i, j | 0 <= i < j < |points| :: points[i] != points[j]
  }

  // ----- one flag on its own

  /** Can a flag at `x` stand on this master point or to the right of it? */
  predicate Carries(p: OnPoint, x: real) {
    p.x <= x && p.plotY.Some?
  }

  /** The last of the first `n` master points that carries `x`, or -1. */
  function LastCarrier(onData: seq<OnPoint>, x: real, n: nat): (r: int)
    requires n <= |onData|
    ensures -1 <= r < n
    ensures r >= 0 ==> Carries(onData[r], x)
    ensures forall k | r < k < n :: !Carries(onData[k], x)
  {
    if n == 0 then -1
    else if Carries(onData[n - 1], x) then n - 1
    else LastCarrier(onData, x, n - 1)
  }

  /** The part of the rise `dy` over `width` that is reached after `dx`. */
  function Part(dx: real, width: real, dy: real): real
    requires width != 0.0
  {
    (dx / width) * dy
  }

  /** The height of the master line at `x`, from the carrier `i` on. */
  function HeightAt(onData: seq<OnPoint>, step: bool, x: real, i: nat): real
    requires i < |onData| && Carries(onData[i], x)
    requires i + 1 < |onData| && onData[i + 1].plotY.Some? ==> x < onData[i + 1].x
  {
    var left := onData[i];
    if left.x < x && !step && i + 1 < |onData| && onData[i + 1].plotY.Some? then
      var right := onData[i + 1];
      left.plotY.value + Part(x - left.x, right.x - left.x, right.plotY.value - left.plotY.value)
    else left.plotY.value
  }

  /** Where an independent search puts a flag at `x`; outside the master's range it stays put. */
  function Place(onData: seq<OnPoint>, step: bool, x: real, current: Option<real>): Option<real> {
    if onData == [] then current
    else
      var i := LastCarrier(onData, x, |onData|);
      if i < 0 || x > onData[|onData| - 1].x then current else Some(HeightAt(onData, step, x, i))
  }

  /** On a step line a flag takes the carrier's height; on a sloped line between two points with
      a height it lies on the straight line between them, hence between their heights. */
  lemma PlaceOnLine(onData: seq<OnPoint>, x: real, i: nat, current: Option<real>)
    requires SortedOn(onData) && i + 1 < |onData|
    requires onData[i].plotY.Some? && onData[i + 1].plotY.Some? && onData[i].x <= x < onData[i + 1].x
    ensures Place(onData, true, x, current) == onData[i].plotY
    ensures var y, a, b := Place(onData, false, x, current), onData[i], onData[i + 1];
            && y.Some?
            && (y.value - a.plotY.value) * (b.x - a.x) == (x - a.x) * (b.plotY.value - a.plotY.value)
  {
    hide Part;
    var a, b := onData[i], onData[i + 1];
    assert LastCarrier(onData, x, |onData|) == i;
    PartTimes(x - a.x, b.x - a.x, b.plotY.value - a.plotY.value);
  }

  lemma PartTimes(dx: real, width: real, dy: real)
    requires width != 0.0
    ensures Part(dx, width, dy) * width == dx * dy
  {
    var q := dx / width;
    assert q * width == dx;
    assert (q * dy) * width == (q * width) * dy;
  }

  // ----- the merging pass

  /** No master point from `i` on carries a flag at `x` when none carries a flag further right. */
  lemma CarrierStays(onData: seq<OnPoint>, x: real, y: real, i: nat)
    requires x <= y && i <= |onData|
    requires forall k | i <= k < |onData| :: !Carries(onData[k], y)
    ensures forall k | i <= k < |onData| :: !Carries(onData[k], x)
  {
  }

  lemma CarrierIs(onData: seq<OnPoint>, x: real, i: nat)
    requires i < |onData| && Carries(onData[i], x)
    requires forall k | i < k < |onData| :: !Carries(onData[k], x)
    ensures LastCarrier(onData, x, |onData|) == i
  {
  }

  lemma CarrierMissing(onData: seq<OnPoint>, x: real)
    requires forall k | 0 <= k < |onData| :: !Carries(onData[k], x)
    ensures LastCarrier(onData, x, |onData|) == -1
  {
  }

  /** One flag at its carrier; beyond the last master point it stays put. */
  method PlaceAt(point: Flag, onData: seq<OnPoint>, step: bool, i: nat)
    requires i < |onData| && Carries(onData[i], point.x)
    requires i + 1 < |onData| && onData[i + 1].plotY.Some? ==> point.x < onData[i + 1].x
    modifies point
    ensures point.plotY == if point.x <= onData[|onData| - 1].x then Some(HeightAt(onData, step, point.x, i))
                           else old(point.plotY)
  {
    hide Part;
    var leftPoint, lastX := onData[i], onData[|onData| - 1].x;
    if point.x <= lastX {
      point.plotY := leftPoint.plotY;
      if leftPoint.x < point.x && !step {
        if i + 1 < |onData| && onData[i + 1].plotY.Some? {
          var rightPoint := onData[i + 1];
          point.plotY := Some(point.plotY.value +
                              Part(point.x - leftPoint.x, rightPoint.x - leftPoint.x,
                                   rightPoint.plotY.value - leftPoint.plotY.value));
        }
      }
    }
  }

  /** The pass over sorted flags gives every flag the place an independent search would. Its index
      goes up again after each flag, so the loop is bounded by the two indices together. */
  method PlaceFlags(points: seq<Flag>, onData: seq<OnPoint>, step: bool)
    requires SortedFlags(points)
    modifies points
    ensures forall k | 0 <= k < |points| :: points[k].plotY == Place(onData, step, points[k].x, old(points[k].plotY))
  {
    hide HeightAt, Carries;
    if |onData| == 0 || |points| == 0 {
      return;
    }
    var cursor := |points| - 1;
    var i := |onData|;
    while i > 0 && cursor >= 0
      invariant -1 <= cursor < |points| && 0 <= i <= |onData|
      invariant forall k | cursor < k < |points| :: points[k].plotY == Place(onData, step, points[k].x, old(points[k].plotY))
      invariant forall k | 0 <= k <= cursor :: points[k].plotY == old(points[k].plotY)
      invariant cursor >= 0 ==> forall k | i <= k < |onData| :: !Carries(onData[k], points[cursor].x)
      decreases cursor + 1 + i
    {
      i := i - 1;
      var point := points[cursor];
      var leftPoint := onData[i];
      CarriesMeans(leftPoint, point.x);
      if leftPoint.x <= point.x && leftPoint.plotY.Some? {
        CarrierIs(onData, point.x, i);
        NextIsRight(onData, point.x, i);
        PlaceAt(point, onData, step, i);
        cursor := cursor - 1;
        i := i + 1;
        if cursor >= 0 {
          CarrierStays(onData, points[cursor].x, point.x, i);
        }
      }
    }
    forall k | 0 <= k <= cursor
      ensures points[k].plotY == Place(onData, step, points[k].x, old(points[k].plotY))
    {
      CarrierStays(onData, points[k].x, points[cursor].x, 0);
      CarrierMissing(onData, points[k].x);
    }
  }

  lemma CarriesMeans(p: OnPoint, x: real)
    ensures Carries(p, x) <==> p.x <= x && p.plotY.Some?
  {
  }

  /** A master point with a height right after the carrier lies strictly to the right of the flag. */
  lemma NextIsRight(onData: seq<OnPoint>, x: real, i: nat)
    requires i < |onData| && forall k | i < k < |onData| :: !Carries(onData[k], x)
    ensures i + 1 < |onData| && onData[i + 1].plotY.Some? ==> x < onData[i + 1].x
  {
    if i + 1 < |onData| { assert !Carries(onData[i + 1], x); }
  }

  /** The other places: nothing to the left of all heights or beyond the last master point, that point's height
      on it, and a level line where the next master point has no height. */
  lemma PlaceElsewhere(onData: seq<OnPoint>, step: bool, x: real, current: Option<real>)
    requires SortedOn(onData) && onData != []
    ensures x > onData[|onData| - 1].x ==> Place(onData, step, x, current) == current
    ensures (forall i | 0 <= i < |onData| && onData[i].plotY.Some? :: x < onData[i].x) ==> Place(onData, step, x, current) == current
    ensures x == onData[|onData| - 1].x && onData[|onData| - 1].plotY.Some? ==>
              Place(onData, step, x, current) == onData[|onData| - 1].plotY
    ensures forall i | 0 <= i < |onData| - 1 && onData[i].plotY.Some? && onData[i + 1].plotY == None
                       && onData[i].x <= x < onData[i + 1].x ::
              Place(onData, step, x, current) == onData[i].plotY
  {
    hide Part;
    forall i | 0 <= i < |onData| - 1 && onData[i].plotY.Some? && onData[i + 1].plotY == None
               && onData[i].x <= x < onData[i + 1].x
      ensures Place(onData, step, x, current) == onData[i].plotY
    {
      CarrierIs(onData, x, i);
    }
  }
}
