/** What the two maps through the position table promise. */
module OrdinalTheorems {
  import opened Reals
  import opened Ordinal

  // ----- which positions can be searched

  /** The search of `val2lin` divides by the width of the segment it finds. For positions in order that is
      never zero exactly when the first two differ and the last two do: repetitions in between do not matter. */
  lemma SearchIsSafe(p: seq<real>)
    requires |p| >= 2 && NonDecreasing(p)
    ensures (forall v :: SegmentWidth(p, v) > 0.0) <==> Table(p)
  {
    if Table(p) {
      forall v: real
        ensures SegmentWidth(p, v) > 0.0
      {
        assert p[SegmentFrom(p, v, |p| - 2)] <= p[SegmentFrom(p, v, |p| - 2) + 1];
      }
    }
    if forall v :: SegmentWidth(p, v) > 0.0 {
      assert SegmentWidth(p, p[0] - 1.0) > 0.0;
      assert SegmentFrom(p, p[0] - 1.0, |p| - 2) == 0;
      assert SegmentWidth(p, p[|p| - 1] + 1.0) > 0.0;
      assert SegmentFrom(p, p[|p| - 1] + 1.0, |p| - 2) == |p| - 2;
    }
  }

  function SegmentWidth(p: seq<real>, v: real): real
    requires |p| >= 2
  {
    var i := SegmentFrom(p, v, |p| - 2);
    p[i + 1] - p[i]
  }

  /** Uneven positions that begin or end with a repetition, and one that has it in between. */
  lemma RepeatedEnds()
    ensures var first, last, inner := [0.0, 0.0, 1.0, 3.0], [0.0, 1.0, 3.0, 3.0], [0.0, 1.0, 1.0, 3.0];
            && !EquallySpaced(first) && SegmentWidth(first, -1.0) == 0.0
            && !EquallySpaced(last) && SegmentWidth(last, 4.0) == 0.0
            && !EquallySpaced(inner) && Table(inner)
  {
    var first, last, inner := [0.0, 0.0, 1.0, 3.0], [0.0, 1.0, 3.0, 3.0], [0.0, 1.0, 1.0, 3.0];
    assert first[3] - first[2] != first[1] - first[0];
    assert last[2] - last[1] != last[1] - last[0];
    assert inner[3] - inner[2] != inner[1] - inner[0];
    assert SegmentFrom(first, -1.0, 2) == 0;
  }

  // ----- index mode

  lemma RatioTimes(a: real, b: real)
    requires b != 0.0
    ensures Ratio(a, b) * b == a
    ensures Ratio(b, b) == 1.0 && Ratio(0.0, b) == 0.0
  {
  }

  /** On a closed segment the index is the segment's start plus the covered part. */
  lemma IndexOnSegment(p: seq<real>, v: real, i: nat)
    requires StrictTable(p) && i + 1 < |p| && (i == 0 || p[i] <= v) && (i + 2 == |p| || v <= p[i + 1])
    ensures IndexOf(p, v) == Interpolated(p, v, i)
  {
    hide Ratio;
    var s := SegmentFrom(p, v, |p| - 2);
    if s < i {
      Ordered(p, s + 1, i);
      assert v == p[s + 1] == p[i];
      RatioTimes(p[i] - p[s], p[i] - p[s]);
      RatioTimes(v - p[i], p[i + 1] - p[i]);
    } else if i < s {
      Ordered(p, i + 1, s);
      assert false;
    }
  }

  lemma Ordered(p: seq<real>, i: int, j: int)
    requires Increasing(p) && 0 <= i <= j < |p|
    ensures p[i] <= p[j] && (p[i] == p[j] ==> i == j)
  {
  }

  /** Covering the part of a segment that belongs to `v` leads to `v`. */
  lemma BetweenPart(p: seq<real>, v: real, i: nat)
    requires i + 1 < |p| && p[i] < p[i + 1]
    ensures Between(p, i, Interpolated(p, v, i) - i as real) == v
  {
    RatioTimes(v - p[i], p[i + 1] - p[i]);
  }

  lemma PartBetween(p: seq<real>, i: nat, d: real)
    requires StrictTable(p) && i + 1 < |p| && 0.0 < d < 1.0
    ensures var v := Between(p, i, d); p[i] < v < p[i + 1] && Interpolated(p, v, i) == i as real + d
  {
    hide Ratio;
    var step := p[i + 1] - p[i];
    ScaleLess(step, 0.0, d);
    ScaleLess(step, d, 1.0);
    assert Between(p, i, d) == p[i] + d * step && d * step == step * d;
    RatioOfProduct(d, step);
  }

  lemma FloorIs(t: real, i: int)
    requires i as real <= t < (i + 1) as real
    ensures t.Floor == i
  {
  }

  lemma IndexAtPosition(p: seq<real>, i: nat)
    requires StrictTable(p) && i < |p|
    ensures IndexOf(p, p[i]) == i as real
  {
    hide Ratio, SegmentFrom;
    var k := if i + 1 < |p| then i else i - 1;
    IndexOnSegment(p, p[i], k);
    RatioTimes(p[k + 1] - p[k], p[k + 1] - p[k]);
  }

  function Clamp(v: real, low: real, high: real): real {
    if v < low then low else if v > high then high else v
  }

  /** Where the index of a value lies: on the segment the search finds, at whose end it is only for
      the position there. */
  lemma IndexInSegment(p: seq<real>, v: real)
    requires Table(p)
    ensures var s := SegmentFrom(p, v, |p| - 2);
            && p[s] < p[s + 1] && IndexOf(p, v) == Interpolated(p, v, s)
            && (v >= p[0] <==> IndexOf(p, v) >= s as real)
            && (v < p[0] ==> s == 0 && IndexOf(p, v) < 0.0)
            && (v < p[s + 1] <==> IndexOf(p, v) < (s + 1) as real)
            && (v == p[s + 1] <==> IndexOf(p, v) == (s + 1) as real)
            && (s + 2 < |p| ==> v <= p[s + 1])
  {
    hide Ratio;
    var s := SegmentFrom(p, v, |p| - 2);
    assert s + 2 < |p| ==> v <= p[s + 1];
    assert p[s] < p[s + 1];
    assert v >= p[0] <==> v >= p[s] by { assert s > 0 ==> p[0] <= p[s] < v; }
    RatioOrder(v - p[s], p[s + 1] - p[s]);
  }

  lemma RatioOrder(a: real, b: real)
    requires b > 0.0
    ensures Ratio(a, b) >= 0.0 <==> a >= 0.0
    ensures Ratio(a, b) < 1.0 <==> a < b
    ensures Ratio(a, b) == 1.0 <==> a == b
  {
    RatioTimes(a, b);
    var q := Ratio(a, b);
    if q >= 0.0 { assert q * b >= 0.0; } else { assert (-q) * b > 0.0; }
    if q < 1.0 { assert (1.0 - q) * b > 0.0; } else if q > 1.0 { assert (q - 1.0) * b > 0.0; }
  }

  /** The position at or below the index of a value, and what is left, give the value back. */
  lemma IndexGivesBack(p: seq<real>, v: real) returns (i: nat)
    requires Table(p) && v >= p[0]
    ensures i + 1 < |p| && IndexOf(p, v) >= i as real && (i + 2 < |p| ==> IndexOf(p, v) < (i + 1) as real)
    ensures Between(p, i, IndexOf(p, v) - i as real) == v
  {
    hide IndexOf, Ratio, Between;
    IndexInSegment(p, v);
    i := SegmentFrom(p, v, |p| - 2);
    BetweenPart(p, v, i);
    if v == p[i + 1] && i + 2 < |p| {
      i := i + 1;
      BetweenNothing(p, i);
    }
  }

  /** Index, then value: the identity on the table, clamped to its ends. */
  lemma ValueOfIndex(p: seq<real>, v: real)
    requires Table(p)
    ensures ValueAt(p, IndexOf(p, v)) == Clamp(v, p[0], p[|p| - 1])
  {
    hide IndexOf, Interpolated, Between;
    IndexInSegment(p, v);
    var last := |p| - 1;
    if v >= p[0] {
      var i := IndexGivesBack(p, v);
      InsideTable(p, v);
      if IndexOf(p, v) < (i + 1) as real {
        FloorIs(IndexOf(p, v), i);
      } else if v == p[last] {
        FloorIs(IndexOf(p, v), last);
        BetweenNothing(p, last);
      }
    }
  }

  /** An index is on the table when its value is. */
  lemma InsideTable(p: seq<real>, v: real)
    requires Table(p) && v >= p[0]
    ensures v < p[|p| - 1] <==> IndexOf(p, v) < (|p| - 1) as real
    ensures v == p[|p| - 1] <==> IndexOf(p, v) == (|p| - 1) as real
  {
    hide IndexOf, Interpolated;
    IndexInSegment(p, v);
    var s := SegmentFrom(p, v, |p| - 2);
    if s + 2 < |p| {
      assert p[s + 1] <= p[|p| - 2] < p[|p| - 1];
    }
  }

  /** Value, then index: the identity on the index range, clamped to its ends. */
  lemma IndexOfValue(p: seq<real>, t: real)
    requires StrictTable(p)
    ensures IndexOf(p, ValueAt(p, t)) == Clamp(t, 0.0, (|p| - 1) as real)
  {
    hide IndexOf, Interpolated, Between;
    var last := |p| - 1;
    IndexAtPosition(p, 0);
    IndexAtPosition(p, last);
    if 0.0 <= t <= last as real {
      FloorBounds(t, last);
      var i := t.Floor;
      if t == i as real {
        BetweenNothing(p, i);
        IndexAtPosition(p, i);
      } else {
        PartBetween(p, i, t - i as real);
        IndexOnSegment(p, ValueAt(p, t), i);
      }
    }
  }

  lemma BetweenNothing(p: seq<real>, i: nat)
    requires i < |p|
    ensures Between(p, i, 0.0) == p[i]
  {
  }

  lemma RatioOfProduct(a: real, b: real)
    requires b != 0.0
    ensures Ratio(a * b, b) == a
  {
  }

  lemma ValueIncreases(p: seq<real>, s: real, t: real)
    requires StrictTable(p) && 0.0 <= s < t <= (|p| - 1) as real
    ensures ValueAt(p, s) < ValueAt(p, t)
  {
    hide ValueAt, IndexOf;
    IndexOfValue(p, s);
    IndexOfValue(p, t);
    if ValueAt(p, s) > ValueAt(p, t) {
      IndexIncreases(p, ValueAt(p, t), ValueAt(p, s));
    }
  }

  // ----- value mode

  lemma ScaleLess(k: real, a: real, b: real)
    requires k > 0.0 && a < b
    ensures k * a < k * b
  {
    assert k * (b - a) > 0.0;
    assert k * b - k * a == k * (b - a);
  }

  /** `val2lin` is strictly increasing. */
  lemma ToLinearIncreases(p: seq<real>, slope: real, offset: real, v: real, w: real)
    requires Table(p) && slope > 0.0 && v < w
    ensures ToLinear(p, slope, offset, v) < ToLinear(p, slope, offset, w)
  {
    hide IndexOf;
    IndexIncreases(p, v, w);
    ScaleLess(slope, IndexOf(p, v), IndexOf(p, w));
  }

  /** The recorded slope and offset fix both axis extremes. */
  lemma ExtremesAreFixed(p: seq<real>, min: real, max: real)
    requires Table(p) && min < max && IndexOf(p, min) < IndexOf(p, max)
    ensures var slope, offset := SlopeOf(p, min, max), OffsetOf(p, min, max);
            && slope > 0.0
            && ToLinear(p, slope, offset, min) == min
            && ToLinear(p, slope, offset, max) == max
  {
    hide IndexOf, Ratio, Line, Start;
    var a, b := IndexOf(p, min), IndexOf(p, max);
    var slope := SlopeOf(p, min, max);
    RatioPositive(max - min, b - a);
    RatioTimes(max - min, b - a);
    FixedLine(slope, a, b, min, max);
  }

  lemma FixedLine(slope: real, a: real, b: real, min: real, max: real)
    requires slope * (b - a) == max - min
    ensures Line(slope, Start(min, a, slope), a) == min
    ensures Line(slope, Start(min, a, slope), b) == max
  {
    assert slope * (b - a) == slope * b - a * slope;
  }

  /** Linear equivalents keep the order of indices. */
  lemma LinearOrder(slope: real, offset: real, a: real, i: int)
    requires slope > 0.0
    ensures Line(slope, offset, a) >= LinearEquivalent(slope, offset, i) <==> a >= i as real
  {
    if a < i as real {
      ScaleLess(slope, a, i as real);
    } else if a > i as real {
      ScaleLess(slope, i as real, a);
    }
  }

  lemma LinearSegmentIs(slope: real, offset: real, a: real, n: int, i: int)
    requires slope > 0.0 && -1 <= i <= n
    requires i >= 0 ==> a >= i as real
    requires i < n ==> a < (i + 1) as real
    ensures LinearSegment(slope, offset, Line(slope, offset, a), n) == i
  {
    hide LinearSegment, LinearEquivalent, Line;
    var r := LinearSegment(slope, offset, Line(slope, offset, a), n);
    if i >= 0 {
      LinearOrder(slope, offset, a, i);
      assert r >= i;
    }
    if r >= 0 {
      LinearOrder(slope, offset, a, r);
    }
  }

  lemma DistanceOfEquivalent(slope: real, offset: real, a: real, i: nat)
    requires slope > 0.0
    ensures LinearDistance(slope, offset, Line(slope, offset, a), i) == a - i as real
  {
    StepIsSlope(slope, offset, i);
    assert Line(slope, offset, a) - LinearEquivalent(slope, offset, i) == (a - i as real) * slope;
    RatioOfProduct(a - i as real, slope);
  }

  /** `lin2val(val2lin(v))` is `v` from the first position on, also beyond the last one; below
      the first position the linear value itself comes back. */
  lemma FromLinearOfToLinear(p: seq<real>, slope: real, offset: real, v: real)
    requires Table(p) && slope > 0.0
    ensures var u := ToLinear(p, slope, offset, v);
            FromLinear(p, slope, offset, u) == if v >= p[0] then v else u
  {
    hide IndexOf, Interpolated, Between, Line, LinearSegment, LinearEquivalent, LinearDistance;
    var t := IndexOf(p, v);
    IndexInSegment(p, v);
    if v < p[0] {
      LinearSegmentIs(slope, offset, t, |p| - 2, -1);
    } else {
      var i := IndexGivesBack(p, v);
      LinearSegmentIs(slope, offset, t, |p| - 2, i);
      DistanceOfEquivalent(slope, offset, t, i);
    }
  }

  lemma BelowFirst(p: seq<real>, slope: real, offset: real, v: real)
    requires Table(p) && slope > 0.0 && v < p[0]
    ensures FromLinear(p, slope, offset, ToLinear(p, slope, offset, v)) ==
            slope * Ratio(v - p[0], p[1] - p[0]) + offset
  {
    hide SegmentFrom, FromLinear, Ratio;
    FromLinearOfToLinear(p, slope, offset, v);
    IndexInSegment(p, v);
  }

  /** So the maps are inverse on the whole line only for the identity scale of the first segment. */
  lemma InverseEverywhere(p: seq<real>, slope: real, offset: real)
    requires Table(p) && slope > 0.0
    ensures (forall v :: FromLinear(p, slope, offset, ToLinear(p, slope, offset, v)) == v) <==>
            slope == p[1] - p[0] && offset == p[0]
  {
    hide ToLinear, Ratio, FromLinear;
    var d := p[1] - p[0];
    if forall v :: FromLinear(p, slope, offset, ToLinear(p, slope, offset, v)) == v {
      BelowFirst(p, slope, offset, p[0] - d);
      BelowFirst(p, slope, offset, p[0] - 2.0 * d);
      RatioOfProduct(-1.0, d);
      RatioOfProduct(-2.0, d);
    }
    if slope == d && offset == p[0] {
      forall v: real
        ensures FromLinear(p, slope, offset, ToLinear(p, slope, offset, v)) == v
      {
        if v < p[0] {
          BelowFirst(p, slope, offset, v);
          RatioTimes(v - p[0], d);
        } else {
          FromLinearOfToLinear(p, slope, offset, v);
        }
      }
    }
  }

  // ----- dropping the table

  function Steps(i: nat, d: real): real {
    i as real * d
  }

  lemma {:induction false} EquallySpacedAt(p: seq<real>, i: nat)
    requires StrictTable(p) && EquallySpaced(p) && i < |p|
    ensures p[i] == p[0] + Steps(i, p[1] - p[0])
  {
    if i > 0 {
      EquallySpacedAt(p, i - 1);
      assert p[i - 1 + 1] - p[i - 1] == p[1] - p[0];
    }
  }

  lemma UniformStep(p: seq<real>, i: nat)
    requires EquallySpaced(p) && i + 1 < |p|
    ensures p[i + 1] - p[i] == p[1] - p[0]
  {
  }

  lemma EquallySpacedIndex(p: seq<real>, v: real)
    requires StrictTable(p) && EquallySpaced(p)
    ensures IndexOf(p, v) == Ratio(v - p[0], p[1] - p[0])
  {
    hide EquallySpaced, Ratio, Steps;
    var i := SegmentFrom(p, v, |p| - 2);
    var d := p[1] - p[0];
    EquallySpacedAt(p, i);
    EquallySpacedAt(p, i + 1);
    assert p[i + 1] - p[i] == d by { assert EquallySpaced(p); UniformStep(p, i); }
    RatioShift(v - p[0], i, d);
  }

  lemma RatioShift(a: real, n: nat, d: real)
    requires d != 0.0
    ensures n as real + Ratio(a - Steps(n, d), d) == Ratio(a, d)
  {
  }

  lemma RatioUnique(a: real, b: real, q: real)
    requires b != 0.0 && a == q * b
    ensures Ratio(a, b) == q
  {
  }

  /** The map a table would give is the identity exactly when the positions are evenly spaced,
      which is exactly when the table is dropped. */
  lemma SkippingTableIsSound(p: seq<real>, min: real, max: real)
    requires StrictTable(p) && min < max && IndexOf(p, min) < IndexOf(p, max)
    ensures EquallySpaced(p) <==>
            forall v :: ToLinear(p, SlopeOf(p, min, max), OffsetOf(p, min, max), v) == v
  {
    hide IndexOf, Ratio;
    var slope, offset := SlopeOf(p, min, max), OffsetOf(p, min, max);
    var d := p[1] - p[0];
    if EquallySpaced(p) {
      hide EquallySpaced;
      EquallySpacedIndex(p, min);
      EquallySpacedIndex(p, max);
      RatioTimes(min - p[0], d);
      RatioTimes(max - p[0], d);
      var a, b := IndexOf(p, min), IndexOf(p, max);
      assert max - min == d * (b - a);
      RatioUnique(max - min, b - a, d);
      assert slope == d;
      forall v: real
        ensures ToLinear(p, slope, offset, v) == v
      {
        EquallySpacedIndex(p, v);
        RatioTimes(v - p[0], d);
      }
    }
    if forall v :: ToLinear(p, slope, offset, v) == v {
      forall i | 0 <= i < |p| - 1
        ensures p[i + 1] - p[i] == p[1] - p[0]
      {
        PositionsAreEquivalents(p, slope, offset, i);
        PositionsAreEquivalents(p, slope, offset, 0);
        StepIsSlope(slope, offset, i);
        StepIsSlope(slope, offset, 0);
      }
    }
  }

  lemma PositionsAreEquivalents(p: seq<real>, slope: real, offset: real, i: nat)
    requires StrictTable(p) && i + 1 < |p|
    requires forall v :: ToLinear(p, slope, offset, v) == v
    ensures p[i] == LinearEquivalent(slope, offset, i) && p[i + 1] == LinearEquivalent(slope, offset, i + 1)
  {
    hide IndexOf;
    IndexAtPosition(p, i);
    IndexAtPosition(p, i + 1);
    assert ToLinear(p, slope, offset, p[i]) == p[i];
    assert ToLinear(p, slope, offset, p[i + 1]) == p[i + 1];
  }

  /** On each segment the index is linear in the value. */
  lemma IndexIsLinear(p: seq<real>, i: nat, d: real)
    requires StrictTable(p) && i + 1 < |p| && 0.0 <= d <= 1.0
    ensures IndexOf(p, p[i] + d * (p[i + 1] - p[i])) == i as real + d
  {
    hide IndexOf, Interpolated, Increasing, NonDecreasing;
    var step := p[i + 1] - p[i];
    if d == 0.0 {
      assert d * step == 0.0;
      IndexAtPosition(p, i);
    } else if d == 1.0 {
      assert d * step == step;
      IndexAtPosition(p, i + 1);
    } else {
      assert Between(p, i, d) == p[i] + d * step;
      hide Between;
      PartBetween(p, i, d);
      IndexOnSegment(p, Between(p, i, d), i);
    }
  }
}
