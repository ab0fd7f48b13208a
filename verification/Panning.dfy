/** Panning an ordinal axis on the small table of the visible range instead of the full one. */
module Panning {
  import opened Wrappers
  import opened Reals
  import opened Ordinal
  import opened OrdinalTheorems
  import Crop

  /** `vis` is what cropping leaves of the positions of one series. */
  ghost predicate Slice(vis: seq<real>, ext: seq<real>, a: nat, b: nat) {
    StrictTable(ext) && a + 2 <= b <= |ext| && vis == ext[a..b]
  }

  lemma SliceIsTable(vis: seq<real>, ext: seq<real>, a: nat, b: nat)
    requires Slice(vis, ext, a, b)
    ensures StrictTable(vis)
    ensures forall i | 0 <= i < |vis| :: vis[i] == ext[a + i]
  {
  }

  /** Is `v` inside the slice, or beyond an end that the slice shares with the full table? */
  ghost predicate Covered(vis: seq<real>, ext: seq<real>, a: nat, b: nat, v: real)
    requires Slice(vis, ext, a, b)
  {
    (a == 0 || vis[0] <= v) && (b == |ext| || v <= vis[|vis| - 1])
  }

  lemma SliceIndex(vis: seq<real>, ext: seq<real>, a: nat, b: nat, v: real)
    requires Slice(vis, ext, a, b) && StrictTable(vis) && Covered(vis, ext, a, b, v)
    ensures IndexOf(ext, v) == IndexOf(vis, v) + a as real
  {
    hide Interpolated, Increasing, NonDecreasing;
    var s := SegmentFrom(vis, v, |vis| - 2);
    SlicePart(vis, ext, a, b, v, s);
    IndexOnSegment(ext, v, a + s);
  }

  lemma SlicePart(vis: seq<real>, ext: seq<real>, a: nat, b: nat, v: real, s: nat)
    requires Slice(vis, ext, a, b) && StrictTable(vis) && s + 1 < |vis|
    ensures vis[s] == ext[a + s] && vis[s + 1] == ext[a + s + 1]
    ensures Interpolated(ext, v, a + s) == Interpolated(vis, v, s) + a as real
  {
    hide Ratio, Increasing, NonDecreasing;
  }

  lemma SliceValue(vis: seq<real>, ext: seq<real>, a: nat, b: nat, t: real)
    requires Slice(vis, ext, a, b) && StrictTable(vis) && 0.0 <= t <= (|vis| - 1) as real
    ensures ValueAt(ext, t + a as real) == ValueAt(vis, t)
  {
    hide Increasing, NonDecreasing, Between;
    SliceIsTable(vis, ext, a, b);
    FloorBounds(t, |vis| - 1);
    FloorIs(t + a as real, t.Floor + a);
    BetweenOnSlice(vis, ext, a, t.Floor, t - t.Floor as real);
  }

  lemma BetweenOnSlice(vis: seq<real>, ext: seq<real>, a: nat, i: nat, d: real)
    requires i < |vis| && (d != 0.0 ==> i + 1 < |vis|) && a + |vis| <= |ext|
    requires forall k | 0 <= k < |vis| :: vis[k] == ext[a + k]
    ensures Between(ext, a + i, d) == Between(vis, i, d)
  {
    assert i + 1 < |vis| ==> vis[i + 1] == ext[a + i + 1];
  }

  /** Does the moved index stay on the slice, or leave it where the full table ends too? */
  ghost predicate StaysOn(vis: seq<real>, ext: seq<real>, a: nat, b: nat, t: real) {
    (0.0 <= t || a == 0) && (t <= (|vis| - 1) as real || b == |ext|)
  }

  /** Moving a covered extreme by `k` units gives the same value on the slice as on the full table
      exactly when the target index stays on the slice. */
  lemma ShiftOnSlice(vis: seq<real>, ext: seq<real>, a: nat, b: nat, v: real, k: real)
    requires Slice(vis, ext, a, b) && StrictTable(vis) && Covered(vis, ext, a, b, v)
    ensures Shift(vis, v, k) == Shift(ext, v, k) <==> StaysOn(vis, ext, a, b, IndexOf(vis, v) + k)
  {
    hide IndexOf, Increasing, NonDecreasing;
    SliceIsTable(vis, ext, a, b);
    SliceIndex(vis, ext, a, b, v);
    var t, last := IndexOf(vis, v) + k, |vis| - 1;
    assert IndexOf(ext, v) + k == t + a as real;
    if 0.0 <= t <= last as real {
      SliceValue(vis, ext, a, b, t);
    } else if t < 0.0 {
      LeavesLow(vis, ext, a, b, t);
    } else {
      LeavesHigh(vis, ext, a, b, t);
    }
  }

  lemma LeavesLow(vis: seq<real>, ext: seq<real>, a: nat, b: nat, t: real)
    requires Slice(vis, ext, a, b) && StrictTable(vis) && t < 0.0
    ensures ValueAt(vis, t) == ValueAt(ext, t + a as real) <==> a == 0
  {
    hide Between;
    SliceValue(vis, ext, a, b, 0.0);
    BetweenNothing(vis, 0);
    if a > 0 && t + a as real >= 0.0 {
      ValueIncreases(ext, t + a as real, a as real);
    }
  }

  lemma LeavesHigh(vis: seq<real>, ext: seq<real>, a: nat, b: nat, t: real)
    requires Slice(vis, ext, a, b) && StrictTable(vis) && t > (|vis| - 1) as real
    ensures ValueAt(vis, t) == ValueAt(ext, t + a as real) <==> b == |ext|
  {
    hide Between;
    var last := |vis| - 1;
    SliceIsTable(vis, ext, a, b);
    SliceValue(vis, ext, a, b, last as real);
    FloorIs(last as real, last);
    BetweenNothing(vis, last);
    if b < |ext| && t + a as real <= (|ext| - 1) as real {
      ValueIncreases(ext, (last + a) as real, t + a as real);
    }
  }

  /** Appending the end of the data does not disturb a move to the left. */
  lemma EndDoesNotMatter(p: seq<real>, dataMax: real, v: real, k: real)
    requires StrictTable(p) && v <= p[|p| - 1] && k <= 0.0
    ensures Shift(WithEnd(p, dataMax), v, k) == Shift(p, v, k)
  {
    hide IndexOf;
    var e := WithEnd(p, dataMax);
    if e != p {
      assert p == e[0..|p|];
      IndexAtPosition(p, |p| - 1);
      if v < p[|p| - 1] { IndexIncreases(p, v, p[|p| - 1]); }
      ShiftOnSlice(p, e, 0, |p|, v, k);
    }
  }

  /** Panning with the visible table asks for the window the full table alone would give, as
      long as the extreme moved on the visible table stays on it. The full table ends with the
      data, which is so without data grouping. */
  lemma PanIsExact(vis: seq<real>, ext: seq<real>, a: nat, b: nat, k: real,
                   min: real, max: real, dataMin: real, dataMax: real)
    requires Slice(vis, ext, a, b) && StrictTable(vis) && dataMax == ext[|ext| - 1] && k != 0.0
    requires Covered(vis, ext, a, b, min) && Covered(vis, ext, a, b, max)
    requires k > 0.0 ==> StaysOn(vis, ext, a, b, IndexOf(vis, min) + k)
    requires k < 0.0 ==> StaysOn(vis, ext, a, b, IndexOf(vis, max) + k)
    ensures PanRequest(Some(vis), ext, k, min, max, dataMin, dataMax) ==
            PanRequest(None, ext, k, min, max, dataMin, dataMax)
  {
    hide Shift, IndexOf, LeftTable, RightTable, WithEnd, Increasing, NonDecreasing, Covered;
    SliceIsTable(vis, ext, a, b);
    TablesOf(vis, ext, k, dataMax);
    if k > 0.0 {
      ShiftOnSlice(vis, ext, a, b, min, k);
    } else {
      ShiftOnSlice(vis, ext, a, b, max, k);
      SameBeforeEnd(vis, ext, a, b, max, k);
    }
  }

  /** The tables of a move by `k`, when the full table ends with the data. */
  lemma TablesOf(vis: seq<real>, ext: seq<real>, k: real, dataMax: real)
    requires StrictTable(vis) && StrictTable(ext) && dataMax == ext[|ext| - 1] && k != 0.0
    ensures LeftTable(None, ext, k, dataMax) == ext && RightTable(None, ext, k, dataMax) == ext
    ensures LeftTable(Some(vis), ext, k, dataMax) == if k > 0.0 then vis else ext
    ensures RightTable(Some(vis), ext, k, dataMax) == if k > 0.0 then ext else WithEnd(vis, dataMax)
  {
    hide Increasing, NonDecreasing;
  }

  lemma SameBeforeEnd(vis: seq<real>, ext: seq<real>, a: nat, b: nat, max: real, k: real)
    requires Slice(vis, ext, a, b) && StrictTable(vis) && Covered(vis, ext, a, b, max) && k <= 0.0
    ensures Shift(WithEnd(vis, ext[|ext| - 1]), max, k) == Shift(vis, max, k)
  {
    hide Shift, Increasing, NonDecreasing;
    SliceIsTable(vis, ext, a, b);
    if b < |ext| {
      EndDoesNotMatter(vis, ext[|ext| - 1], max, k);
    } else {
      assert vis[|vis| - 1] == ext[|ext| - 1];
    }
  }

  // ----- one cropped series

  /** A window that shows some of the positions of a series. */
  ghost predicate Overlaps(xs: seq<real>, min: real, max: real) {
    StrictTable(xs) && min <= max && xs[0] <= max && min <= xs[|xs| - 1]
  }

  /** The x values that cropping leaves on the axis: at least two, as in any table. */
  function Visible(xs: seq<real>, min: real, max: real): (vis: seq<real>)
    requires Overlaps(xs, min, max)
    ensures StrictTable(vis)
  {
    var w := Crop.CropWindow(xs, min, max);
    CroppedSlice(xs, min, max);
    xs[w.start..w.end]
  }

  lemma CroppedSlice(xs: seq<real>, min: real, max: real)
    requires Overlaps(xs, min, max)
    ensures var w := Crop.CropWindow(xs, min, max);
            var vis := xs[w.start..w.end];
            && Slice(vis, xs, w.start, w.end) && StrictTable(vis)
            && Covered(vis, xs, w.start, w.end, min) && Covered(vis, xs, w.start, w.end, max)
            && (w.start > 0 ==> vis[0] < min) && (w.end < |xs| ==> max < vis[|vis| - 1])
  {
    hide Crop.CropWindow, Increasing, NonDecreasing;
    Crop.CropIsExact(xs, min, max);
    Crop.TwoAreLeft(xs, min, max);
    var w := Crop.CropWindow(xs, min, max);
    SliceIsTable(xs[w.start..w.end], xs, w.start, w.end);
  }

  /** Is the move by `k` no wider than the window? */
  predicate WithinWindow(xs: seq<real>, min: real, max: real, k: real)
    requires Overlaps(xs, min, max)
  {
    var width := IndexOf(Visible(xs, min, max), max) - IndexOf(Visible(xs, min, max), min);
    -width <= k <= width
  }

  /** The extremes of the window stay on the visible table as long as none moves past the other. */
  lemma WindowStaysOn(xs: seq<real>, min: real, max: real, k: real)
    requires Overlaps(xs, min, max) && WithinWindow(xs, min, max, k)
    ensures var w, vis := Crop.CropWindow(xs, min, max), Visible(xs, min, max);
            && Slice(vis, xs, w.start, w.end)
            && (k > 0.0 ==> StaysOn(vis, xs, w.start, w.end, IndexOf(vis, min) + k))
            && (k < 0.0 ==> StaysOn(vis, xs, w.start, w.end, IndexOf(vis, max) + k))
  {
    hide Crop.CropWindow, IndexOf, Increasing, NonDecreasing;
    CroppedSlice(xs, min, max);
    var w, vis := Crop.CropWindow(xs, min, max), Visible(xs, min, max);
    IndexAtPosition(vis, 0);
    IndexAtPosition(vis, |vis| - 1);
    if w.start > 0 {
      IndexIncreases(vis, vis[0], min);
    }
    if w.end < |xs| {
      IndexIncreases(vis, max, vis[|vis| - 1]);
    }
  }

  /** A drag no wider than the visible window is exact on the table that cropping leaves of one series. */
  lemma DragWithinWindowIsExact(xs: seq<real>, min: real, max: real, k: real, dataMin: real)
    requires Overlaps(xs, min, max) && WithinWindow(xs, min, max, k) && k != 0.0
    ensures PanRequest(Some(Visible(xs, min, max)), xs, k, min, max, dataMin, xs[|xs| - 1]) ==
            PanRequest(None, xs, k, min, max, dataMin, xs[|xs| - 1])
  {
    hide Crop.CropWindow, IndexOf, PanRequest, StaysOn, Increasing, NonDecreasing, WithinWindow;
    var w := Crop.CropWindow(xs, min, max);
    CroppedSlice(xs, min, max);
    WindowStaysOn(xs, min, max, k);
    PanIsExact(Visible(xs, min, max), xs, w.start, w.end, k, min, max, dataMin, xs[|xs| - 1]);
  }

  /** A wider one can go wrong. The window from 0 to 2 shows an uneven table of three positions; moved
      by two and a half units it should start between the fourth and the fifth position, and the
      visible table puts its start at the last one it has. */
  lemma PanBeyondSlice()
    ensures var xs := [0.0, 1.0, 3.0, 4.0, 6.0, 7.0];
            Overlaps(xs, 0.0, 2.0) &&
            var vis := Visible(xs, 0.0, 2.0);
            && vis == [0.0, 1.0, 3.0] && !EquallySpaced(vis) && StrictTable(vis) && StrictTable(xs)
            && PanRequest(Some(vis), xs, 2.5, 0.0, 2.0, 0.0, 7.0) == Some((3.0, 6.0))
            && PanRequest(None, xs, 2.5, 0.0, 2.0, 0.0, 7.0) == Some((3.5, 6.0))
  {
    hide IndexOf, ValueAt, Visible;
    ExampleWindow();
    var xs, vis := [0.0, 1.0, 3.0, 4.0, 6.0, 7.0], [0.0, 1.0, 3.0];
    assert vis[2] - vis[1] != vis[1] - vis[0];
    ExampleIndices(vis, xs);
    ExampleValues(vis, xs);
    assert WithEnd(xs, 7.0) == xs;
  }

  lemma ExampleWindow()
    ensures Visible([0.0, 1.0, 3.0, 4.0, 6.0, 7.0], 0.0, 2.0) == [0.0, 1.0, 3.0]
  {
    var xs := [0.0, 1.0, 3.0, 4.0, 6.0, 7.0];
    assert Crop.FirstAtLeast(xs, 0.0, 0) == 0;
    assert Crop.FirstAbove(xs, 2.0, 0) == 2;
  }

  lemma ExampleIndices(vis: seq<real>, xs: seq<real>)
    requires vis == [0.0, 1.0, 3.0] && xs == [0.0, 1.0, 3.0, 4.0, 6.0, 7.0]
    requires StrictTable(vis) && StrictTable(xs)
    ensures IndexOf(vis, 0.0) == 0.0 && IndexOf(xs, 0.0) == 0.0 && IndexOf(xs, 2.0) == 1.5
  {
    hide IndexOf, Increasing, NonDecreasing;
    IndexAtPosition(vis, 0);
    IndexAtPosition(xs, 0);
    IndexOnSegment(xs, 2.0, 1);
  }

  lemma ExampleValues(vis: seq<real>, xs: seq<real>)
    requires vis == [0.0, 1.0, 3.0] && xs == [0.0, 1.0, 3.0, 4.0, 6.0, 7.0]
    requires StrictTable(vis) && StrictTable(xs)
    ensures ValueAt(vis, 2.5) == 3.0 && ValueAt(xs, 2.5) == 3.5 && ValueAt(xs, 4.0) == 6.0
  {
    hide Increasing, NonDecreasing;
    FloorIs(2.5, 2);
    FloorIs(4.0, 4);
  }

  // ----- what a drag requests

  /** With the extremes on the data, a drag requests a window exactly when both new extremes lie strictly
      inside the data; one that would reach or leave their ends requests nothing. */
  lemma PanStaysInData(vis: Option<seq<real>>, ext: seq<real>, k: real, min: real, max: real, dataMin: real, dataMax: real)
    requires Table(ext) && (vis.Some? ==> Table(vis.value)) && dataMin <= min && max <= dataMax
    ensures var newMin := Shift(LeftTable(vis, ext, k, dataMax), min, k);
            var newMax := Shift(RightTable(vis, ext, k, dataMax), max, k);
            PanRequest(vis, ext, k, min, max, dataMin, dataMax) ==
            if dataMin < newMin && newMax < dataMax then Some((newMin, newMax)) else None
  {
    hide Shift, LeftTable, RightTable;
  }

  /** While it stays on the table, an extreme moves by exactly `k` positions, and otherwise to the end it passes. */
  lemma ShiftMovesBy(p: seq<real>, v: real, k: real)
    requires StrictTable(p)
    ensures IndexOf(p, Shift(p, v, k)) == Clamp(IndexOf(p, v) + k, 0.0, (|p| - 1) as real)
  {
    hide IndexOf, ValueAt;
    IndexOfValue(p, IndexOf(p, v) + k);
  }

  /** The mirror image: a window at the end of the data that moves too far to the left ends at the first position
      its table has. */
  lemma PanBeyondSliceLeft()
    ensures var xs := [0.0, 1.0, 3.0, 4.0, 6.0, 7.0];
            Overlaps(xs, 5.0, 7.0) &&
            var vis := Visible(xs, 5.0, 7.0);
            && vis == [4.0, 6.0, 7.0] && !EquallySpaced(vis)
            && PanRequest(Some(vis), xs, -2.5, 5.0, 7.0, 0.0, 7.0) == Some((1.0, 4.0))
            && PanRequest(None, xs, -2.5, 5.0, 7.0, 0.0, 7.0) == Some((1.0, 3.5))
  {
    hide IndexOf, ValueAt, Visible, WithEnd;
    var xs, vis := [0.0, 1.0, 3.0, 4.0, 6.0, 7.0], [4.0, 6.0, 7.0];
    LeftExampleWindow();
    assert vis[2] - vis[1] != vis[1] - vis[0];
    LeftExampleIndices(vis, xs);
    LeftExampleValues(vis, xs);
    NoEndToAppend(vis, 7.0);
    NoEndToAppend(xs, 7.0);
  }

  lemma NoEndToAppend(p: seq<real>, dataMax: real)
    requires Table(p) && p[|p| - 1] == dataMax
    ensures WithEnd(p, dataMax) == p
  {
  }

  lemma LeftExampleWindow()
    ensures var xs := [0.0, 1.0, 3.0, 4.0, 6.0, 7.0]; Overlaps(xs, 5.0, 7.0) && Visible(xs, 5.0, 7.0) == [4.0, 6.0, 7.0]
  {
    var xs := [0.0, 1.0, 3.0, 4.0, 6.0, 7.0];
    assert Crop.FirstAtLeast(xs, 5.0, 0) == 4;
    assert Crop.FirstAbove(xs, 7.0, 4) == 6;
  }

  lemma LeftExampleIndices(vis: seq<real>, xs: seq<real>)
    requires vis == [4.0, 6.0, 7.0] && xs == [0.0, 1.0, 3.0, 4.0, 6.0, 7.0]
    requires StrictTable(vis) && StrictTable(xs)
    ensures IndexOf(xs, 5.0) == 3.5 && IndexOf(xs, 7.0) == 5.0 && IndexOf(vis, 7.0) == 2.0
  {
    hide IndexOf, Increasing, NonDecreasing;
    IndexAtPosition(vis, 2);
    IndexAtPosition(xs, 5);
    IndexOnSegment(xs, 5.0, 3);
  }

  lemma LeftExampleValues(vis: seq<real>, xs: seq<real>)
    requires vis == [4.0, 6.0, 7.0] && xs == [0.0, 1.0, 3.0, 4.0, 6.0, 7.0]
    requires StrictTable(vis) && StrictTable(xs)
    ensures ValueAt(vis, -0.5) == 4.0 && ValueAt(xs, 2.5) == 3.5 && ValueAt(xs, 1.0) == 1.0
  {
    hide Increasing, NonDecreasing;
    FloorIs(2.5, 2);
    FloorIs(1.0, 1);
  }
}
