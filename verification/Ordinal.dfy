/** The ordinal axis of highstock.src.js: the table of positions, the two maps through it
    and panning. */
module Ordinal {
  import opened Wrappers
  import opened Reals

  ghost predicate Increasing(p: seq<real>) {
    forall i, j | 0 <= i < j < |p| :: p[i] < p[j]
  }

  /** Positions in order that can be searched: the first two differ, and so do the last two. */
  ghost predicate Table(p: seq<real>) {
    |p| >= 2 && NonDecreasing(p) && p[0] < p[1] && p[|p| - 2] < p[|p| - 1]
  }

  /** And none is repeated. */
  ghost predicate StrictTable(p: seq<real>) {
    Table(p) && Increasing(p)
  }

  function Ratio(a: real, b: real): real
    requires b != 0.0
  {
    a / b
  }

  // ----- the maps as functions

  /** The last position below `val` at or before `i`, or else the first. */
  function SegmentFrom(p: seq<real>, val: real, i: nat): (r: nat)
    requires i < |p|
    ensures r <= i
    ensures r == 0 || val > p[r]
    ensures forall k | r < k <= i :: val <= p[k]
  {
    if val > p[i] || i == 0 then i else SegmentFrom(p, val, i - 1)
  }

  /** `val` between positions `i` and `i + 1`, counted in positions. */
  function Interpolated(p: seq<real>, val: real, i: nat): real
    requires i + 1 < |p| && p[i] < p[i + 1]
  {
    i as real + Ratio(val - p[i], p[i + 1] - p[i])
  }

  /** `val2lin(val, true)`. */
  function IndexOf(p: seq<real>, val: real): real
    requires Table(p)
  {
    Interpolated(p, val, SegmentFrom(p, val, |p| - 2))
  }

  /** Position `i` plus a part of the step to the next one. */
  function Between(p: seq<real>, i: nat, distance: real): real
    requires i < |p| && (distance != 0.0 ==> i + 1 < |p|)
  {
    p[i] + (if distance != 0.0 then distance * (p[i + 1] - p[i]) else 0.0)
  }

  /** `lin2val(t, true)`. */
  function ValueAt(p: seq<real>, t: real): real
    requires Table(p)
  {
    if t < 0.0 then p[0]
    else if t > (|p| - 1) as real then p[|p| - 1]
    else
      FloorBounds(t, |p| - 1);
      Between(p, t.Floor, t - t.Floor as real)
  }

  lemma FloorBounds(t: real, n: nat)
    requires 0.0 <= t <= n as real
    ensures 0 <= t.Floor <= n && (t != t.Floor as real ==> t.Floor < n)
  {
  }

  /** The linear value of a (fractional) index. */
  function Line(slope: real, offset: real, t: real): real {
    slope * t + offset
  }

  /** The linear equivalent of a table index. */
  function LinearEquivalent(slope: real, offset: real, i: int): real {
    Line(slope, offset, i as real)
  }

  /** The last index at or before `i` whose linear equivalent is not above `val`, or -1. */
  function LinearSegment(slope: real, offset: real, val: real, i: int): (r: int)
    requires i >= -1
    ensures -1 <= r <= i
    ensures r >= 0 ==> val >= LinearEquivalent(slope, offset, r)
    ensures forall k | r < k <= i :: val < LinearEquivalent(slope, offset, k)
    decreases i + 1
  {
    if i < 0 then -1
    else if val >= LinearEquivalent(slope, offset, i) then i
    else LinearSegment(slope, offset, val, i - 1)
  }

  /** `lin2val(val)`. */
  function FromLinear(p: seq<real>, slope: real, offset: real, val: real): real
    requires Table(p) && slope > 0.0
  {
    var i := LinearSegment(slope, offset, val, |p| - 2);
    if i < 0 then val else Between(p, i, LinearDistance(slope, offset, val, i))
  }

  /** The part of the step from the linear equivalent of `i` to that of `i + 1`. */
  function LinearDistance(slope: real, offset: real, val: real, i: nat): real
    requires slope > 0.0
  {
    StepIsSlope(slope, offset, i);
    var left := LinearEquivalent(slope, offset, i);
    var right := LinearEquivalent(slope, offset, i + 1);
    Ratio(val - left, right - left)
  }

  lemma StepIsSlope(slope: real, offset: real, i: int)
    ensures LinearEquivalent(slope, offset, i + 1) - LinearEquivalent(slope, offset, i) == slope
  {
  }

  /** `val2lin(val)`. */
  function ToLinear(p: seq<real>, slope: real, offset: real, val: real): real
    requires Table(p)
  {
    Line(slope, offset, IndexOf(p, val))
  }

  // ----- the position table

  function Insert(x: real, s: seq<real>): (r: seq<real>) {
    if s == [] || x <= s[0] then [x] + s else [s[0]] + Insert(x, s[1..])
  }

  /** `Array.prototype.sort` with a numeric comparison. */
  function Sort(s: seq<real>): (r: seq<real>) {
    if s == [] then [] else Insert(s[0], Sort(s[1..]))
  }

  lemma {:induction false} InsertSorts(x: real, s: seq<real>)
    requires NonDecreasing(s)
    ensures NonDecreasing(Insert(x, s))
    ensures forall v :: v in Insert(x, s) <==> v == x || v in s
  {
    if s != [] && s[0] < x {
      InsertSorts(x, s[1..]);
      var r := Insert(x, s[1..]);
      forall k | 0 <= k < |r|
        ensures s[0] <= r[k]
      {
        assert r[k] in r;
      }
      assert s == [s[0]] + s[1..];
    }
  }

  lemma {:induction false} SortSorts(s: seq<real>)
    ensures NonDecreasing(Sort(s))
    ensures forall v :: v in Sort(s) <==> v in s
  {
    if s != [] {
      SortSorts(s[1..]);
      InsertSorts(s[0], Sort(s[1..]));
      assert s == [s[0]] + s[1..];
    }
  }

  /** A series as far as the ordinal axis looks at it. */
  datatype SeriesView = SeriesView(visible: bool, processedXData: seq<real>)

  ghost predicate HasPosition(series: seq<SeriesView>, v: real) {
    exists k | 0 <= k < |series| :: series[k].visible && v in series[k].processedXData
  }

  /** Is the first series the only visible one? */
  predicate FirstAlone(series: seq<SeriesView>) {
    series != [] && series[0].visible && forall k | 0 < k < |series| :: !series[k].visible
  }

  ghost predicate EquallySpaced(p: seq<real>) {
    |p| >= 2 ==> forall i | 0 <= i < |p| - 1 :: p[i + 1] - p[i] == p[1] - p[0]
  }

  /** Slope and offset that make the linear equivalents of the axis extremes the extremes themselves. */
  function SlopeOf(p: seq<real>, min: real, max: real): real
    requires Table(p) && IndexOf(p, min) < IndexOf(p, max)
  {
    Ratio(max - min, IndexOf(p, max) - IndexOf(p, min))
  }

  /** The linear equivalent of index 0 when `min` has the given index. */
  function Start(min: real, minIndex: real, slope: real): real {
    min - minIndex * slope
  }

  function OffsetOf(p: seq<real>, min: real, max: real): real
    requires Table(p) && IndexOf(p, min) < IndexOf(p, max)
  {
    Start(min, IndexOf(p, min), SlopeOf(p, min, max))
  }

  lemma SegmentEdges(p: seq<real>, val: real)
    requires Table(p)
    ensures var i := SegmentFrom(p, val, |p| - 2);
            && i + 1 < |p| && (i + 2 < |p| ==> val <= p[i + 1])
            && (i > 0 ==> IndexOf(p, val) > i as real)
            && (i + 2 < |p| ==> IndexOf(p, val) <= (i + 1) as real)
  {
    var i := SegmentFrom(p, val, |p| - 2);
    var step := p[i + 1] - p[i];
    if i > 0 {
      assert (val - p[i]) / step > 0.0;
    }
    if i + 2 < |p| {
      assert val - p[i] <= step;
      DivideAtMostOne(val - p[i], step);
    }
  }

  lemma DivideAtMostOne(a: real, b: real)
    requires a <= b && b > 0.0
    ensures a / b <= 1.0
  {
    assert (b - a) / b >= 0.0;
    assert b / b - a / b == (b - a) / b;
  }

  lemma RatioPositive(a: real, b: real)
    requires a > 0.0 && b > 0.0
    ensures Ratio(a, b) > 0.0
  {
  }

  lemma DivideLess(a: real, b: real, c: real)
    requires a < b && c > 0.0
    ensures a / c < b / c
  {
    assert (b - a) / c > 0.0;
    assert b / c - a / c == (b - a) / c;
  }

  /** Index mode is strictly increasing, on and off the table. */
  lemma IndexIncreases(p: seq<real>, v: real, w: real)
    requires Table(p) && v < w
    ensures IndexOf(p, v) < IndexOf(p, w)
  {
    var i, j := SegmentFrom(p, v, |p| - 2), SegmentFrom(p, w, |p| - 2);
    SegmentEdges(p, v);
    SegmentEdges(p, w);
    if i == j {
      DivideLess(v - p[i], w - p[i], p[i + 1] - p[i]);
    } else if i < j {
      assert IndexOf(p, v) <= (i + 1) as real <= j as real;
    } else {
      assert false;
    }
  }

  class OrdinalAxis {
    var ordinalPositions: Option<seq<real>>
    var ordinalSlope: real
    var ordinalOffset: real
    /** The cached table of all the data, as `getExtendedPositions` returns it. */
    var extendedPositions: Option<seq<real>>

    ghost predicate Valid()
      reads this
    {
      && (ordinalPositions.Some? ==> Table(ordinalPositions.value) && ordinalSlope > 0.0)
      && (extendedPositions.Some? ==> Table(extendedPositions.value))
    }

    constructor ()
      ensures Valid() && ordinalPositions == None && extendedPositions == None
    {
      ordinalPositions, extendedPositions := None, None;
      ordinalSlope, ordinalOffset := 0.0, 0.0;
    }

    /** The search of `val2lin`: an exact match first, then an interpolation that replaces it. */
    static method FindIndex(p: seq<real>, val: real) returns (ordinalIndex: real)
      requires Table(p)
      ensures ordinalIndex == IndexOf(p, val)
    {
      hide Interpolated, Increasing, NonDecreasing;
      ordinalIndex := 0.0;
      var i := |p|;
      while i > 0
        invariant 0 <= i <= |p|
      {
        i := i - 1;
        if p[i] == val {
          ordinalIndex := i as real;
          break;
        }
      }
      i := |p| - 2;
      while !(val > p[i] || i == 0)
        invariant 0 <= i <= |p| - 2
        invariant SegmentFrom(p, val, |p| - 2) == SegmentFrom(p, val, i)
        decreases i
      {
        i := i - 1;
      }
      ordinalIndex := Interpolated(p, val, i);
    }

    method Val2Lin(val: real, toIndex: bool) returns (r: real)
      requires Valid()
      ensures ordinalPositions == None ==> r == val
      ensures ordinalPositions.Some? && toIndex ==> r == IndexOf(ordinalPositions.value, val)
      ensures ordinalPositions.Some? && !toIndex ==>
                r == ToLinear(ordinalPositions.value, ordinalSlope, ordinalOffset, val)
    {
      match ordinalPositions {
        case None => r := val;
        case Some(p) =>
          var ordinalIndex := FindIndex(p, val);
          r := if toIndex then ordinalIndex else Line(ordinalSlope, ordinalOffset, ordinalIndex);
      }
    }

    /** `lin2val` from an index, used when panning. */
    static method FromIndex(p: seq<real>, val: real) returns (r: real)
      requires Table(p)
      ensures r == ValueAt(p, val)
    {
      hide Between, NonDecreasing;
      if val < 0.0 {
        r := p[0];
      } else if val > (|p| - 1) as real {
        r := p[|p| - 1];
      } else {
        var i := val.Floor;
        var distance := val - i as real;
        FloorBounds(val, |p| - 1);
        r := Between(p, i, distance);
      }
    }

    /** `lin2val` from a linear value: the positions are tried from the last but one down. */
    static method FromLinearValue(p: seq<real>, slope: real, offset: real, val: real) returns (r: real)
      requires Table(p) && slope > 0.0
      ensures r == FromLinear(p, slope, offset, val)
    {
      hide Increasing, NonDecreasing, LinearEquivalent, LinearDistance;
      var i := |p| - 2;
      while i >= 0 && val < LinearEquivalent(slope, offset, i)
        invariant -1 <= i <= |p| - 2
        invariant LinearSegment(slope, offset, val, |p| - 2) == LinearSegment(slope, offset, val, i)
        decreases i
      {
        i := i - 1;
      }
      if i < 0 {
        r := val;
      } else {
        var distance := LinearDistance(slope, offset, val, i);
        r := Between(p, i, distance);
      }
    }

    method Lin2Val(val: real, fromIndex: bool) returns (r: real)
      requires Valid()
      ensures ordinalPositions == None ==> r == val
      ensures ordinalPositions.Some? && fromIndex ==> r == ValueAt(ordinalPositions.value, val)
      ensures ordinalPositions.Some? && !fromIndex ==>
                r == FromLinear(ordinalPositions.value, ordinalSlope, ordinalOffset, val)
    {
      match ordinalPositions {
        case None => r := val;
        case Some(p) =>
          if fromIndex {
            r := FromIndex(p, val);
          } else {
            r := FromLinearValue(p, ordinalSlope, ordinalOffset, val);
          }
      }
    }

    /** The inner loop of `beforeSetTickPositions`: neighbours that are equal are spliced away. */
    static method RemoveDuplicates(s: seq<real>) returns (r: seq<real>)
      requires NonDecreasing(s)
      ensures Increasing(r)
      ensures forall v :: v in r <==> v in s
    {
      r := s;
      var i := |s| - 1;
      while i > 0
        invariant 0 <= i <= |s| || i == -1
        invariant i <= |r| && (s != [] ==> i < |r|)
        invariant NonDecreasing(r)
        invariant forall j, k | i <= j < k < |r| && 0 <= j :: r[j] < r[k]
        invariant forall v :: v in r <==> v in s
      {
        i := i - 1;
        if r[i] == r[i + 1] {
          ghost var before := r;
          r := r[..i] + r[i + 1..];
          assert forall k | i <= k < |r| :: r[k] == before[k + 1];
          assert before == before[..i] + [before[i]] + before[i + 1..];
          assert before[i + 1] in before[i + 1..];
        } else {
          assert forall k | i + 1 <= k < |r| :: r[i + 1] <= r[k];
        }
      }
    }

    /** The positions of the visible series, in order and without repetition; the first series alone
        is taken as it is. */
    static method CollectPositions(series: seq<SeriesView>) returns (positions: seq<real>)
      ensures forall v :: v in positions <==> HasPosition(series, v)
      ensures if FirstAlone(series) then positions == series[0].processedXData else Increasing(positions)
    {
      positions := [];
      for k := 0 to |series|
        invariant k == 0 ==> positions == []
        invariant forall v :: v in positions <==> HasPosition(series[..k], v)
        invariant if FirstAlone(series[..k]) then positions == series[0].processedXData else Increasing(positions)
      {
        HasPositionSnoc(series, k);
        FirstAloneSnoc(series, k);
        if series[k].visible {
          positions := positions + series[k].processedXData;
          if k > 0 && |positions| > 0 {
            var sorted := Sort(positions);
            SortSorts(positions);
            positions := RemoveDuplicates(sorted);
          } else if k == 0 {
            assert positions == series[k].processedXData;
          }
        }
      }
      assert series[..|series|] == series;
    }

    /** The evenly spaced case needs no table. */
    static method NeedsTable(positions: seq<real>) returns (useOrdinal: bool)
      ensures useOrdinal <==> !EquallySpaced(positions)
    {
      var len := |positions|;
      useOrdinal := false;
      if len > 2 {
        var dist := positions[1] - positions[0];
        var i := len - 1;
        while i > 0 && !useOrdinal
          invariant 0 <= i <= len - 1
          invariant !useOrdinal ==> forall j | i <= j < len - 1 :: positions[j + 1] - positions[j] == dist
          invariant useOrdinal ==> !EquallySpaced(positions)
        {
          i := i - 1;
          if positions[i + 1] - positions[i] != dist {
            useOrdinal := true;
          }
        }
      }
    }

    /** Collects the positions, decides whether a table is needed and records slope and offset. */
    method BeforeSetTickPositions(series: seq<SeriesView>, min: real, max: real)
      returns (ghost positions: seq<real>)
      requires Valid() && min < max
      requires FirstAlone(series) && !EquallySpaced(series[0].processedXData) ==> Table(series[0].processedXData)
      modifies this`ordinalPositions, this`ordinalSlope, this`ordinalOffset
      ensures Valid()
      ensures forall v :: v in positions <==> HasPosition(series, v)
      ensures if FirstAlone(series) then positions == series[0].processedXData else Increasing(positions)
      ensures EquallySpaced(positions) ==> ordinalPositions == None
      ensures !EquallySpaced(positions) ==> ordinalPositions == Some(positions) && Table(positions)
      ensures !EquallySpaced(positions) ==> IndexOf(positions, min) < IndexOf(positions, max)
      ensures !EquallySpaced(positions) ==> ordinalSlope == SlopeOf(positions, min, max)
      ensures !EquallySpaced(positions) ==> ordinalOffset == OffsetOf(positions, min, max)
    {
      hide IndexOf, HasPosition, FirstAlone, Ratio, Increasing, NonDecreasing, EquallySpaced;
      var collected := CollectPositions(series);
      positions := collected;
      var useOrdinal := NeedsTable(collected);
      UnevenHasTwo(collected);
      if useOrdinal {
        if !FirstAlone(series) {
          IncreasingIsTable(collected);
        }
        var minIndex := FindIndex(collected, min);
        var maxIndex := FindIndex(collected, max);
        IndexIncreases(collected, min, max);
        ordinalPositions := Some(collected);
        ordinalSlope := Ratio(max - min, maxIndex - minIndex);
        RatioPositive(max - min, maxIndex - minIndex);
        ordinalOffset := Start(min, minIndex, ordinalSlope);
      } else {
        ordinalPositions := None;
      }
    }

    /** `chart.pan`: the new extremes, if the move is wide enough and stays in range. A table
        that ends before the data does gets the end of the data appended. */
    method Pan(movedUnits: real, min: real, max: real, dataMin: real, dataMax: real)
      returns (runBase: bool, request: Option<(real, real)>)
      requires Valid()
      modifies this`ordinalPositions, this`extendedPositions
      ensures Valid()
      ensures runBase <==> old(extendedPositions) == None
      ensures runBase || -1.0 <= movedUnits <= 1.0 ==>
                request == None && ordinalPositions == old(ordinalPositions) && extendedPositions == old(extendedPositions)
      ensures !runBase && !(-1.0 <= movedUnits <= 1.0) ==>
                var vis, ext := old(ordinalPositions), old(extendedPositions).value;
                && request == PanRequest(vis, ext, movedUnits, min, max, dataMin, dataMax)
                && (if movedUnits < 0.0 && vis.Some?
                    then ordinalPositions == Some(WithEnd(vis.value, dataMax)) && extendedPositions == Some(ext)
                    else ordinalPositions == vis && extendedPositions == Some(WithEnd(ext, dataMax)))
    {
      hide IndexOf, ValueAt, Increasing, NonDecreasing;
      runBase, request := false, None;
      if extendedPositions == None {
        runBase := true;
        return;
      }
      if -1.0 <= movedUnits <= 1.0 {
        return;
      }
      var ext := extendedPositions.value;
      var rightIsVisible := movedUnits < 0.0 && ordinalPositions.Some?;
      var right := if rightIsVisible then ordinalPositions.value else ext;
      if dataMax > right[|right| - 1] {
        assert right + [dataMax] == WithEnd(right, dataMax);
        right := right + [dataMax];
        if rightIsVisible {
          ordinalPositions := Some(right);
        } else {
          extendedPositions := Some(right);
        }
      }
      // the left table is read after the push, from the same array objects
      var left := if movedUnits > 0.0 && ordinalPositions.Some? then ordinalPositions.value else extendedPositions.value;
      var minIndex := FindIndex(left, min);
      var newMin := FromIndex(left, minIndex + movedUnits);
      var maxIndex := FindIndex(right, max);
      var newMax := FromIndex(right, maxIndex + movedUnits);
      if newMin > Min(dataMin, min) && newMax < Max(dataMax, max) {
        request := Some((newMin, newMax));
      }
    }
  }

  lemma IncreasingIsTable(p: seq<real>)
    requires Increasing(p) && |p| >= 2
    ensures Table(p)
  {
  }

  lemma UnevenHasTwo(p: seq<real>)
    ensures !EquallySpaced(p) ==> |p| >= 2
  {
  }

  lemma FirstAloneSnoc(series: seq<SeriesView>, k: nat)
    requires k < |series|
    ensures FirstAlone(series[..k + 1]) <==> if k == 0 then series[0].visible else FirstAlone(series[..k]) && !series[k].visible
  {
    assert series[..k + 1] == series[..k] + [series[k]];
  }

  lemma HasPositionSnoc(series: seq<SeriesView>, k: nat)
    requires k < |series|
    ensures forall v :: HasPosition(series[..k + 1], v) <==>
                          HasPosition(series[..k], v) || (series[k].visible && v in series[k].processedXData)
  {
    forall v
      ensures HasPosition(series[..k + 1], v) <==>
              HasPosition(series[..k], v) || (series[k].visible && v in series[k].processedXData)
    {
      if HasPosition(series[..k], v) {
        var j :| 0 <= j < k && series[..k][j].visible && v in series[..k][j].processedXData;
        assert series[..k + 1][j] == series[..k][j];
      }
      if series[k].visible && v in series[k].processedXData {
        assert series[..k + 1][k] == series[k];
      }
      if HasPosition(series[..k + 1], v) {
        var j :| 0 <= j < k + 1 && series[..k + 1][j].visible && v in series[..k + 1][j].processedXData;
        if j < k {
          assert series[..k][j] == series[..k + 1][j];
        }
      }
    }
  }

  function WithEnd(p: seq<real>, dataMax: real): (r: seq<real>)
    requires Table(p)
    ensures Table(r)
  {
    if dataMax > p[|p| - 1] then p + [dataMax] else p
  }

  /** An extreme moved by `k` units through a table. */
  function Shift(p: seq<real>, val: real, k: real): real
    requires Table(p)
  {
    ValueAt(p, IndexOf(p, val) + k)
  }

  /** The table `pan` moves the lower extreme on. */
  function LeftTable(vis: Option<seq<real>>, ext: seq<real>, k: real, dataMax: real): (r: seq<real>)
    requires Table(ext) && (vis.Some? ==> Table(vis.value))
    ensures Table(r)
  {
    if vis == None then WithEnd(ext, dataMax) else if k > 0.0 then vis.value else if k < 0.0 then ext
    else WithEnd(ext, dataMax)
  }

  /** The table `pan` moves the upper extreme on. */
  function RightTable(vis: Option<seq<real>>, ext: seq<real>, k: real, dataMax: real): (r: seq<real>)
    requires Table(ext) && (vis.Some? ==> Table(vis.value))
    ensures Table(r)
  {
    WithEnd(if k < 0.0 && vis.Some? then vis.value else ext, dataMax)
  }

  /** The window `pan` asks for. */
  function PanRequest(vis: Option<seq<real>>, ext: seq<real>, k: real, min: real, max: real, dataMin: real, dataMax: real)
    : Option<(real, real)>
    requires Table(ext) && (vis.Some? ==> Table(vis.value))
  {
    var newMin := Shift(LeftTable(vis, ext, k, dataMax), min, k);
    var newMax := Shift(RightTable(vis, ext, k, dataMax), max, k);
    if newMin > Min(dataMin, min) && newMax < Max(dataMax, max) then Some((newMin, newMax)) else None
  }
}
