/** The base `processData` of highstock.src.js: cropping to the visible range and the closest
    distance between points. */
module Crop {
  import opened Wrappers
  import opened Reals

  /** The first index from `from` on whose value is at least `min`. */
  function FirstAtLeast(xs: seq<real>, min: real, from: nat): (k: nat)
    requires from <= |xs|
    ensures from <= k <= |xs|
    ensures forall i | from <= i < k :: xs[i] < min
    ensures k < |xs| ==> xs[k] >= min
    decreases |xs| - from
  {
    if from == |xs| || xs[from] >= min then from else FirstAtLeast(xs, min, from + 1)
  }

  /** The first index from `from` on whose value is above `max`. */
  function FirstAbove(xs: seq<real>, max: real, from: nat): (k: nat)
    requires from <= |xs|
    ensures from <= k <= |xs|
    ensures forall i | from <= i < k :: xs[i] <= max
    ensures k < |xs| ==> xs[k] > max
    decreases |xs| - from
  {
    if from == |xs| || xs[from] > max then from else FirstAbove(xs, max, from + 1)
  }

  /** What is kept: a slice, and whether anything was cropped. */
  datatype Window = Window(start: nat, end: nat, cropped: bool)

  function CropWindow(xs: seq<real>, min: real, max: real): (w: Window)
    ensures w.start <= w.end <= |xs|
  {
    if xs != [] && (xs[|xs| - 1] < min || xs[0] > max) then Window(0, 0, false)
    else if xs != [] && (xs[0] < min || xs[|xs| - 1] > max) then
      var lo := FirstAtLeast(xs, min, 0);
      var hi := FirstAbove(xs, max, lo);
      Window(if lo > 0 && lo < |xs| then lo - 1 else 0, if hi < |xs| then hi + 1 else |xs|, true)
    else Window(0, |xs|, false)
  }

  function ClosestOf(distance: real, other: Option<real>): Option<real> {
    if distance > 0.0 && (other == None || distance < other.value) then Some(distance) else other
  }

  /** The least positive distance between neighbours from index `i` on. */
  function ClosestGap(xs: seq<real>, i: nat): Option<real>
    decreases |xs| - i
  {
    if i + 1 >= |xs| then None else ClosestOf(xs[i + 1] - xs[i], ClosestGap(xs, i + 1))
  }

  method FindWindow(processedXData: seq<real>, min: real, max: real) returns (w: Window)
    ensures w == CropWindow(processedXData, min, max)
  {
    var dataLength := |processedXData|;
    var cropStart, cropEnd, cropped := 0, dataLength, false;
    if dataLength > 0 {
      if processedXData[dataLength - 1] < min || processedXData[0] > max {
        cropEnd := 0;
      } else if processedXData[0] < min || processedXData[dataLength - 1] > max {
        var i := 0;
        while i < dataLength
          invariant 0 <= i <= dataLength && cropStart == 0
          invariant FirstAtLeast(processedXData, min, 0) == FirstAtLeast(processedXData, min, i)
        {
          if processedXData[i] >= min {
            cropStart := if i - 1 > 0 then i - 1 else 0;
            break;
          }
          i := i + 1;
        }
        ghost var lo := i;
        while i < dataLength
          invariant lo <= i <= dataLength && cropEnd == dataLength
          invariant FirstAbove(processedXData, max, lo) == FirstAbove(processedXData, max, i)
        {
          if processedXData[i] > max {
            cropEnd := i + 1;
            break;
          }
          i := i + 1;
        }
        cropped := true;
      }
    }
    w := Window(cropStart, cropEnd, cropped);
  }

  /** The closest distance is searched from the right end. */
  method FindClosest(processedXData: seq<real>) returns (closestPointRange: Option<real>)
    ensures closestPointRange == ClosestGap(processedXData, 0)
  {
    closestPointRange := None;
    var i := |processedXData| - 1;
    while i > 0
      invariant i <= |processedXData| - 1 && (processedXData != [] ==> 0 <= i)
      invariant closestPointRange == ClosestGap(processedXData, if i < 0 then 0 else i)
    {
      var distance := processedXData[i] - processedXData[i - 1];
      if distance > 0.0 && (closestPointRange == None || distance < closestPointRange.value) {
        closestPointRange := Some(distance);
      }
      i := i - 1;
    }
  }

  // ----- what is kept

  ghost predicate InRange(x: real, min: real, max: real) {
    min <= x <= max
  }

  /** Sorted data that overlap the visible range keep every visible point and just the nearest
      neighbour on each side, where there is one. */
  lemma CropIsExact(xs: seq<real>, min: real, max: real)
    requires NonDecreasing(xs) && xs != [] && min <= max
    requires xs[|xs| - 1] >= min && xs[0] <= max
    ensures var w := CropWindow(xs, min, max);
            && (forall i | 0 <= i < |xs| && InRange(xs[i], min, max) :: w.start <= i < w.end)
            && (forall i | w.start < i < w.end - 1 :: InRange(xs[i], min, max))
            && (w.start > 0 ==> xs[w.start] < min)
            && (w.end < |xs| ==> xs[w.end - 1] > max)
            && (xs[0] < min ==> xs[w.start] < min && (w.start + 1 < |xs| ==> xs[w.start + 1] >= min))
            && (xs[|xs| - 1] > max ==> w.end > 0 && xs[w.end - 1] > max && (w.end > 1 ==> xs[w.end - 2] <= max))
            && (w.cropped <==> xs[0] < min || xs[|xs| - 1] > max)
  {
    var w := CropWindow(xs, min, max);
    if w.cropped {
      var lo := FirstAtLeast(xs, min, 0);
      var hi := FirstAbove(xs, max, lo);
      assert lo < |xs|;
      assert hi < |xs| ==> forall i | hi <= i < |xs| :: xs[i] > max;
      assert forall i | 0 <= i < lo :: xs[i] < min <= max;
      assert hi == |xs| ==> xs[|xs| - 1] <= max;
    }
  }

  /** Of two or more points at least two are left. */
  lemma TwoAreLeft(xs: seq<real>, min: real, max: real)
    requires NonDecreasing(xs) && |xs| >= 2 && min <= max
    requires xs[|xs| - 1] >= min && xs[0] <= max
    ensures var w := CropWindow(xs, min, max); w.start + 2 <= w.end
  {
    var lo := FirstAtLeast(xs, min, 0);
    var hi := FirstAbove(xs, max, lo);
    assert lo < |xs|;
    assert hi == lo ==> lo > 0;
  }

  /** Data outside the visible range leave nothing. */
  lemma CropOutside(xs: seq<real>, min: real, max: real)
    requires xs != [] && (xs[|xs| - 1] < min || xs[0] > max)
    ensures var w := CropWindow(xs, min, max); xs[w.start..w.end] == []
  {
  }

  ghost predicate IsGap(xs: seq<real>, d: real, from: nat) {
    exists i, j | from <= i < j < |xs| :: xs[j] - xs[i] == d
  }

  lemma {:induction false} ClosestIsGap(xs: seq<real>, from: nat)
    ensures var c := ClosestGap(xs, from); c.Some? ==> c.value > 0.0 && IsGap(xs, c.value, from)
    decreases |xs| - from
  {
    if from + 1 < |xs| {
      ClosestIsGap(xs, from + 1);
      var c, d := ClosestGap(xs, from), xs[from + 1] - xs[from];
      assert d > 0.0 ==> IsGap(xs, d, from);
      if c.Some? && c != Some(d) {
        var i, j :| from + 1 <= i < j < |xs| && xs[j] - xs[i] == c.value;
      }
    }
  }

  /** For sorted data the recorded range is the least positive distance over all pairs of points,
      and it is missing exactly when all points have the same x. */
  lemma {:induction false} ClosestIsLeast(xs: seq<real>, from: nat)
    requires NonDecreasing(xs)
    ensures var c := ClosestGap(xs, from);
            && (c.Some? ==> c.value > 0.0 && IsGap(xs, c.value, from))
            && (forall i, j | from <= i < j < |xs| && xs[j] > xs[i] :: c.Some? && c.value <= xs[j] - xs[i])
    decreases |xs| - from
  {
    hide IsGap;
    ClosestIsGap(xs, from);
    if from + 1 < |xs| {
      ClosestIsLeast(xs, from + 1);
      var c := ClosestGap(xs, from);
      forall i, j | from <= i < j < |xs| && xs[j] > xs[i]
        ensures c.Some? && c.value <= xs[j] - xs[i]
      {
        if i == from {
          assert xs[from] <= xs[from + 1] <= xs[j];
          if xs[from + 1] == xs[from] {
            assert from + 1 < j;
          }
        }
      }
    }
  }
}
