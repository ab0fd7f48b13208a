/** The scale of an axis: the tick alignment of several axes (`setMaxTicks`, `adjustTickAmount`),
    `setAxisTranslation` and `translate`. `correctFloat` is the identity on reals. */
module TickAlign {
  import opened Wrappers

  /** Ticks are pushed at the end until there are `n`. */
  function Extended(ticks: seq<real>, interval: real, n: nat): (r: seq<real>)
    requires ticks != []
    ensures |r| == if |ticks| < n then n else |ticks|
    ensures ticks <= r
    decreases n - |ticks|
  {
    if |ticks| < n then Extended(ticks + [ticks[|ticks| - 1] + interval], interval, n) else ticks
  }

  /** The ticks of an axis once the most ticks of its direction are known; `maxTicks[xOrY]` may be 0. */
  function Adjusted(ticks: seq<real>, interval: real, adjusts: bool, n: nat): (r: seq<real>)
    ensures ticks <= r
  {
    if adjusts && n > 0 && ticks != [] then Extended(ticks, interval, n) else ticks
  }

  function AdjustedMax(ticks: seq<real>, adjusted: seq<real>, max: real): real {
    if |ticks| < |adjusted| then adjusted[|adjusted| - 1] else max
  }

  function Times(a: real, b: real): real {
    a * b
  }

  function Quotient(a: real, b: real): real
    requires b != 0.0
  {
    a / b
  }

  /** Pixels a unit; `|| 1` replaces an empty range. */
  function Translation(len: real, range: real): real {
    Quotient(len, if range == 0.0 then 1.0 else range)
  }

  /** From a value to a pixel, counted from the side of `min`, and mirrored within `len` when `flipped`. */
  function Forward(val: real, min: real, transA: real, padding: real, len: real, flipped: bool): real {
    var distance := Times(val - min, transA) + padding;
    if flipped then len - distance else distance
  }

  /** From a pixel back to a value: the padding is not taken off, and only `reversed` mirrors. */
  function Backward(pixel: real, min: real, transA: real, len: real, reversed: bool): real
    requires transA != 0.0
  {
    Quotient(if reversed then len - pixel else pixel, transA) + min
  }

  class TickAxis {
    const isX: bool
    const isLinked: bool
    const isDatetimeAxis: bool
    const hasCategories: bool
    const alignTicks: bool
    const reversed: bool
    const len: real
    const tickInterval: real
    const pointRange: real
    var tickPositions: seq<real>
    var tickAmount: Option<nat>
    var min: real
    var max: real
    var transA: real
    var minPixelPadding: real
    var oldMin: real
    var oldTransA: real
    var isDirty: bool

    /** Does the axis take part in the count of the most ticks? */
    predicate Counts() {
      !isLinked && !isDatetimeAxis && alignTicks
    }

    /** Are its ticks adjusted to that count? */
    predicate Adjusts() {
      Counts() && !hasCategories
    }

    constructor (isX: bool, isLinked: bool, isDatetimeAxis: bool, hasCategories: bool, alignTicks: bool, reversed: bool,
                 len: real, tickInterval: real, pointRange: real, tickPositions: seq<real>, min: real, max: real)
      ensures this.isX == isX && this.isLinked == isLinked && this.isDatetimeAxis == isDatetimeAxis
      ensures this.hasCategories == hasCategories && this.alignTicks == alignTicks && this.reversed == reversed
      ensures this.len == len && this.tickInterval == tickInterval && this.tickPositions == tickPositions
      ensures this.min == min && this.max == max && this.pointRange == if isX then pointRange else 0.0
    {
      this.isX, this.isLinked, this.isDatetimeAxis, this.reversed := isX, isLinked, isDatetimeAxis, reversed;
      this.hasCategories, this.alignTicks, this.len := hasCategories, alignTicks, len;
      this.tickInterval, this.tickPositions, this.min, this.max := tickInterval, tickPositions, min, max;
      this.pointRange := if isX then pointRange else 0.0;
      tickAmount, transA, oldTransA, oldMin, minPixelPadding, isDirty := None, 0.0, 0.0, min, 0.0, false;
    }

    /** Is the translation the one of the current extremes? */
    predicate Translated()
      reads this
    {
      && transA == Translation(len, max - min + pointRange)
      && minPixelPadding == Times(transA, pointRange / 2.0)
    }

    method SetAxisTranslation()
      modifies this`transA, this`oldTransA, this`minPixelPadding
      ensures Translated() && oldTransA == old(transA)
    {
      var range := max - min;
      oldTransA := transA;
      transA := Quotient(len, if range + pointRange == 0.0 then 1.0 else range + pointRange);
      minPixelPadding := Times(transA, pointRange / 2.0);
    }

    method Translate(val: real, backwards: bool, cvsCoord: bool, previous: bool) returns (r: real)
      requires transA != 0.0
      ensures var a := if previous && oldTransA != 0.0 then oldTransA else transA;
              var m := if previous then oldMin else min;
              r == if backwards then Backward(val, m, a, len, reversed)
                   else Forward(val, m, a, minPixelPadding, len, cvsCoord != reversed)
    {
      hide Times, Quotient;
      UnitTimes(len);
      var sign, cvsOffset := 1.0, 0.0;
      var localA := if previous then oldTransA else transA;
      var localMin := if previous then oldMin else min;
      if localA == 0.0 {
        localA := transA;
      }
      if cvsCoord {
        sign := -sign;
        cvsOffset := len;
      }
      if reversed {
        sign := -sign;
        cvsOffset := cvsOffset - sign * len;
      }
      assert sign == (if cvsCoord != reversed then -1.0 else 1.0) && cvsOffset == (if cvsCoord != reversed then len else 0.0);
      if backwards {
        var pixel := if reversed then len - val else val;
        r := Quotient(pixel, localA) + localMin;
      } else {
        r := sign * Times(val - localMin, localA) + cvsOffset + sign * minPixelPadding;
        UnitTimes(Times(val - localMin, localA));
        UnitTimes(minPixelPadding);
      }
    }
  }

  lemma UnitTimes(x: real)
    ensures 1.0 * x == x && -1.0 * x == -x
  {
  }

  /** The most ticks on the axes of one direction that count. */
  function MostTicks(axes: seq<TickAxis>, isX: bool): (n: nat)
    reads axes
    ensures forall i | 0 <= i < |axes| && axes[i].isX == isX && axes[i].Counts() :: |axes[i].tickPositions| <= n
  {
    if axes == [] then 0
    else
      var most := MostTicks(axes[..|axes| - 1], isX);
      var last := axes[|axes| - 1];
      if last.isX == isX && last.Counts() && |last.tickPositions| > most then |last.tickPositions| else most
  }

  /** The count is reached by some axis that counts, unless there is none with a tick. */
  lemma {:induction false} MostIsReached(axes: seq<TickAxis>, isX: bool)
    requires MostTicks(axes, isX) > 0
    ensures exists i :: 0 <= i < |axes| && axes[i].isX == isX && axes[i].Counts() && |axes[i].tickPositions| == MostTicks(axes, isX)
  {
    var last := axes[|axes| - 1];
    var front := axes[..|axes| - 1];
    if last.isX == isX && last.Counts() && |last.tickPositions| > MostTicks(front, isX) {
      assert |axes[|axes| - 1].tickPositions| == MostTicks(axes, isX);
    } else {
      MostIsReached(front, isX);
      var i :| 0 <= i < |front| && front[i].isX == isX && front[i].Counts() && |front[i].tickPositions| == MostTicks(front, isX);
      assert axes[i] == front[i];
    }
  }

  ghost predicate Distinct(axes: seq<TickAxis>) {
    forall i, j | 0 <= i < j < |axes| :: axes[i] != axes[j]
  }

  /** What a redraw reads of an axis, as it was before. */
  datatype Was = Was(ticks: seq<real>, min: real, max: real)

  ghost function Record(axes: seq<TickAxis>): (r: seq<Was>)
    reads axes
    ensures |r| == |axes|
    ensures forall i | 0 <= i < |axes| :: r[i] == Was(axes[i].tickPositions, axes[i].min, axes[i].max)
  {
    seq(|axes|, i requires 0 <= i < |axes| reads axes => Was(axes[i].tickPositions, axes[i].min, axes[i].max))
  }

  /** The record of one axis after the adjustment to `n` ticks. */
  ghost function AdjustedRecord(axis: TickAxis, was: Was, n: nat): Was {
    var ticks := Adjusted(was.ticks, axis.tickInterval, axis.Adjusts(), n);
    Was(ticks, was.min, AdjustedMax(was.ticks, ticks, was.max))
  }

  ghost function AdjustedRecords(axes: seq<TickAxis>, was: seq<Was>, x: nat, y: nat): (r: seq<Was>)
    requires |was| == |axes|
    ensures |r| == |axes|
    ensures forall i | 0 <= i < |axes| :: r[i] == AdjustedRecord(axes[i], was[i], if axes[i].isX then x else y)
  {
    seq(|axes|, i requires 0 <= i < |axes| => AdjustedRecord(axes[i], was[i], if axes[i].isX then x else y))
  }

  class TickChart {
    const alignTicks: bool
    var maxX: nat
    var maxY: nat
    var hasMaxTicks: bool

    constructor (alignTicks: bool)
      ensures this.alignTicks == alignTicks && !hasMaxTicks
    {
      this.alignTicks := alignTicks;
      maxX, maxY, hasMaxTicks := 0, 0, false;
    }

    method SetMaxTicks(axis: TickAxis)
      modifies this
      ensures hasMaxTicks
      ensures var x, y := (if old(hasMaxTicks) then old(maxX) else 0), (if old(hasMaxTicks) then old(maxY) else 0);
              var n := |axis.tickPositions|;
              && maxX == (if axis.isX && axis.Counts() && n > x then n else x)
              && maxY == (if !axis.isX && axis.Counts() && n > y then n else y)
    {
      if !hasMaxTicks {
        maxX, maxY := 0, 0;
      }
      var most := if axis.isX then maxX else maxY;
      if !axis.isLinked && !axis.isDatetimeAxis && |axis.tickPositions| > most && axis.alignTicks {
        if axis.isX {
          maxX := |axis.tickPositions|;
        } else {
          maxY := |axis.tickPositions|;
        }
      }
      hasMaxTicks := true;
    }

    function MaxTicks(isX: bool): nat
      reads this
    {
      if !hasMaxTicks then 0 else if isX then maxX else maxY
    }

    method AdjustTickAmount(axis: TickAxis)
      requires axis.Adjusts() ==> axis.tickPositions != []
      modifies axis
      ensures Was(axis.tickPositions, axis.min, axis.max)
           == AdjustedRecord(axis, Was(old(axis.tickPositions), old(axis.min), old(axis.max)), MaxTicks(axis.isX))
      ensures axis.tickAmount == if MaxTicks(axis.isX) > 0 && axis.Adjusts() then Some(MaxTicks(axis.isX)) else old(axis.tickAmount)
      ensures var c := |old(axis.tickPositions)|;
              axis.transA == if c < |axis.tickPositions| then Rescaled(old(axis.transA), c, |axis.tickPositions|) else old(axis.transA)
    {
      hide Rescaled;
      var maxTicks := MaxTicks(axis.isX);
      if maxTicks > 0 && !axis.isDatetimeAxis && !axis.hasCategories && !axis.isLinked && axis.alignTicks {
        var oldTickAmount := axis.tickAmount;
        var calculated := |axis.tickPositions|;
        axis.tickAmount := Some(maxTicks);
        if calculated < maxTicks {
          while |axis.tickPositions| < maxTicks
            invariant calculated <= |axis.tickPositions| <= maxTicks
            invariant Extended(axis.tickPositions, axis.tickInterval, maxTicks) ==
                      Extended(old(axis.tickPositions), axis.tickInterval, maxTicks)
            invariant axis.min == old(axis.min) && axis.transA == old(axis.transA) && axis.tickAmount == Some(maxTicks)
            decreases maxTicks - |axis.tickPositions|
          {
            axis.tickPositions := axis.tickPositions + [axis.tickPositions[|axis.tickPositions| - 1] + axis.tickInterval];
          }
          axis.transA := Rescaled(axis.transA, calculated, maxTicks);
          axis.max := axis.tickPositions[|axis.tickPositions| - 1];
        }
        if oldTickAmount.Some? && oldTickAmount.value != maxTicks {
          axis.isDirty := true;
        }
      }
    }

    method AdjustTickAmounts(axes: seq<TickAxis>)
      requires Distinct(axes)
      requires forall i | 0 <= i < |axes| && axes[i].Adjusts() :: axes[i].tickPositions != []
      modifies this, axes
      ensures !hasMaxTicks
      ensures var was := old(Record(axes));
              var x, y := old(MaxTicks(true)), old(MaxTicks(false));
              Record(axes) == if alignTicks then AdjustedRecords(axes, was, x, y) else was
    {
      hide AdjustedRecord, Rescaled;
      ghost var was := Record(axes);
      ghost var x, y := MaxTicks(true), MaxTicks(false);
      if alignTicks {
        for i := 0 to |axes|
          invariant MaxTicks(true) == x && MaxTicks(false) == y
          invariant forall k | i <= k < |axes| :: Record(axes)[k] == was[k]
          invariant forall k | 0 <= k < i :: Record(axes)[k] == AdjustedRecord(axes[k], was[k], if axes[k].isX then x else y)
        {
          assert Record(axes)[i] == was[i];
          AdjustTickAmount(axes[i]);
        }
      }
      hasMaxTicks := false;
    }

    /** `maxTicks` is forgotten before the axes are counted. */
    method CountAll(axes: seq<TickAxis>)
      modifies this
      ensures MaxTicks(true) == MostTicks(axes, true) && MaxTicks(false) == MostTicks(axes, false)
    {
      hasMaxTicks := false;
      assert axes[..0] == [];
      for i := 0 to |axes|
        invariant MaxTicks(true) == MostTicks(axes[..i], true) && MaxTicks(false) == MostTicks(axes[..i], false)
      {
        SetMaxTicks(axes[i]);
        assert axes[..i + 1][..i] == axes[..i];
      }
      assert axes[..|axes|] == axes;
    }

    method TranslateAll(axes: seq<TickAxis>)
      modifies axes
      ensures forall i | 0 <= i < |axes| :: axes[i].Translated()
      ensures Record(axes) == old(Record(axes))
    {
      ghost var was := Record(axes);
      for i := 0 to |axes|
        invariant forall k | 0 <= k < i :: axes[k].Translated()
        invariant Record(axes) == was
      {
        hide Translation, Times;
        axes[i].SetAxisTranslation();
      }
    }

    method CountAndAdjust(axes: seq<TickAxis>)
      requires Distinct(axes)
      requires forall i | 0 <= i < |axes| && axes[i].Adjusts() :: axes[i].tickPositions != []
      modifies this, axes
      ensures !hasMaxTicks
      ensures var was := old(Record(axes));
              Record(axes) == if alignTicks then AdjustedRecords(axes, was, old(MostTicks(axes, true)), old(MostTicks(axes, false))) else was
    {
      hide AdjustedRecord;
      CountAll(axes);
      AdjustTickAmounts(axes);
    }

    /** One redraw as far as ticks go: count, adjust, forget the count, recompute the translation. Every
        adjusted y axis that started and ended on a tick now has the same number of ticks, and where its
        tick `k` stands depends on `k`, that number and the length of the axis alone. */
    method Redraw(axes: seq<TickAxis>)
      requires Distinct(axes)
      requires forall i | 0 <= i < |axes| && axes[i].Adjusts() :: axes[i].tickPositions != []
      modifies this, axes
      ensures !hasMaxTicks
      ensures var was, most := old(Record(axes)), old(MostTicks(axes, false));
              Record(axes) == if alignTicks then AdjustedRecords(axes, was, old(MostTicks(axes, true)), most) else was
      ensures forall i | 0 <= i < |axes| :: axes[i].Translated()
      ensures forall i | 0 <= i < |axes| && (axes[i].isLinked || axes[i].isDatetimeAxis || axes[i].hasCategories || !axes[i].alignTicks) ::
                Record(axes)[i] == old(Record(axes))[i]
      ensures var was, most := old(Record(axes)), old(MostTicks(axes, false));
              alignTicks && most >= 2 ==> forall i | 0 <= i < |axes| && StartsOnTicks(axes[i], was[i]) :: IsAligned(axes[i], most)
    {
      hide StartsOnTicks, IsAligned, AdjustedRecord, AdjustedRecords;
      ghost var was, mostX, most := Record(axes), MostTicks(axes, true), MostTicks(axes, false);
      CountAndAdjust(axes);
      TranslateAll(axes);
      if alignTicks {
        OthersStay(axes, was, mostX, most);
      }
      if alignTicks && most >= 2 {
        AllAreAligned(axes, was, mostX, most);
      }
    }
  }

  /** A y axis that takes part in the alignment, with ticks `d` apart from its least value to its greatest. */
  ghost predicate StartsOnTicks(axis: TickAxis, was: Was) {
    && axis.Adjusts() && !axis.isX && axis.pointRange == 0.0
    && OnTicks(was.ticks, axis.tickInterval, was.min, was.max)
  }

  /** It has `n` ticks, still from its least value to its greatest, each on its grid line. */
  ghost predicate IsAligned(axis: TickAxis, n: nat)
    requires n >= 2
    reads axis
  {
    && |axis.tickPositions| == n
    && OnTicks(axis.tickPositions, axis.tickInterval, axis.min, axis.max)
    && forall k, flipped: bool | 0 <= k < n ::
      AxisPixel(axis, axis.tickPositions[k], flipped) == GridPixel(k, n, axis.len, flipped)
  }

  /** Where `translate` puts a value on the current scale. */
  function AxisPixel(axis: TickAxis, val: real, flipped: bool): real
    reads axis
  {
    Forward(val, axis.min, axis.transA, axis.minPixelPadding, axis.len, flipped)
  }

  /** The `k`-th of `n` grid lines, equally spread over `len` pixels. */
  function GridPixel(k: nat, n: nat, len: real, flipped: bool): real
    requires n >= 2
  {
    var p := Quotient(Times(k as real, len), (n - 1) as real);
    if flipped then len - p else p
  }

  /** `axis.transA *= (calculatedTickAmount - 1) / (tickAmount - 1)`. */
  function Rescaled(transA: real, calculated: nat, amount: nat): real
    requires calculated < amount && calculated > 0
  {
    transA * Quotient((calculated - 1) as real, (amount - 1) as real)
  }

  // ----- aligned grid lines

  /** Evenly spaced ticks from `min` to `max`: the axis starts and ends on a tick. */
  ghost predicate OnTicks(ticks: seq<real>, interval: real, min: real, max: real) {
    && interval > 0.0 && ticks != [] && min == ticks[0] && max == ticks[|ticks| - 1]
    && forall k | 0 <= k < |ticks| :: ticks[k] == min + k as real * interval
  }

  lemma {:induction false} ExtendedIsEven(ticks: seq<real>, interval: real, n: nat)
    requires ticks != [] && OnTicks(ticks, interval, ticks[0], ticks[|ticks| - 1])
    ensures var r := Extended(ticks, interval, n); OnTicks(r, interval, ticks[0], r[|r| - 1])
    decreases n - |ticks|
  {
    if |ticks| < n {
      var more := ticks + [ticks[|ticks| - 1] + interval];
      assert ((|ticks| - 1) as real + 1.0) * interval == (|ticks| - 1) as real * interval + interval;
      ExtendedIsEven(more, interval, n);
    }
  }

  /** On an axis of at least two ticks that starts and ends on one, tick `k` stands `k` equal steps along. */
  lemma TickPixel(ticks: seq<real>, interval: real, min: real, max: real, len: real, k: nat)
    requires OnTicks(ticks, interval, min, max) && |ticks| >= 2 && k < |ticks|
    ensures Times(ticks[k] - min, Translation(len, max - min)) == Quotient(Times(k as real, len), (|ticks| - 1) as real)
  {
    var n := (|ticks| - 1) as real;
    assert max - min == n * interval;
    ProductPositive(n, interval);
    CancelInterval(k as real, interval, len, n);
  }

  lemma ProductPositive(a: real, b: real)
    requires a > 0.0 && b > 0.0
    ensures a * b > 0.0
  {
  }

  lemma CancelInterval(k: real, d: real, len: real, n: real)
    requires n > 0.0 && d > 0.0 && n * d > 0.0
    ensures (k * d) * Quotient(len, n * d) == Quotient(k * len, n)
  {
    var q := Quotient(len, n * d);
    assert q * (n * d) == len;
    assert ((k * d) * q) * n == k * (q * (n * d));
    UniqueQuotient(k * len, n, (k * d) * q);
  }

  lemma UniqueQuotient(a: real, b: real, q: real)
    requires b != 0.0 && q * b == a
    ensures Quotient(a, b) == q
  {
  }

  /** The rescaling inside `adjustTickAmount` already gives the translation of the extended axis, for
      an axis that had more than one tick; one that had a single tick is left with no extent at all
      until the translation is recomputed. */
  lemma RescalingIsRight(ticks: seq<real>, d: real, n: nat, len: real)
    requires ticks != [] && OnTicks(ticks, d, ticks[0], ticks[|ticks| - 1]) && |ticks| < n && len > 0.0
    ensures var r := Extended(ticks, d, n);
            var before := Translation(len, ticks[|ticks| - 1] - ticks[0]);
            Rescaled(before, |ticks|, n) == Translation(len, r[n - 1] - r[0]) <==> |ticks| >= 2
  {
    hide Quotient;
    hide Times;
    ExtendedIsEven(ticks, d, n);
    var r := Extended(ticks, d, n);
    TranslationOnTicks(r, d, len);
    if |ticks| >= 2 {
      TranslationOnTicks(ticks, d, len);
      RescaleSteps(len, (|ticks| - 1) as real, (n - 1) as real, d);
    } else {
      SingleTick(len, (n - 1) as real, d);
    }
  }

  lemma TranslationOnTicks(ticks: seq<real>, d: real, len: real)
    requires ticks != [] && OnTicks(ticks, d, ticks[0], ticks[|ticks| - 1]) && |ticks| >= 2
    ensures Times((|ticks| - 1) as real, d) > 0.0
    ensures Translation(len, ticks[|ticks| - 1] - ticks[0]) == Quotient(len, Times((|ticks| - 1) as real, d))
  {
    ProductPositive((|ticks| - 1) as real, d);
  }

  lemma RescaleSteps(len: real, c: real, m: real, d: real)
    requires c > 0.0 && m > 0.0 && d > 0.0 && Times(c, d) > 0.0 && Times(m, d) > 0.0
    ensures Quotient(len, Times(c, d)) * Quotient(c, m) == Quotient(len, Times(m, d))
  {
    var u, v := Quotient(len, Times(c, d)), Quotient(c, m);
    assert u * (c * d) == len && v * m == c;
    assert (u * v) * (m * d) == u * ((v * m) * d);
    UniqueQuotient(len, m * d, u * v);
  }

  lemma SingleTick(len: real, m: real, d: real)
    requires m > 0.0 && d > 0.0 && Times(m, d) > 0.0 && len > 0.0
    ensures Quotient(len, 1.0) * Quotient(0.0, m) != Quotient(len, Times(m, d))
  {
    assert Quotient(0.0, m) == 0.0;
    assert Quotient(len, m * d) > 0.0;
  }

  lemma AxisIsAligned(axis: TickAxis, was: Was, most: nat)
    requires Was(axis.tickPositions, axis.min, axis.max) == AdjustedRecord(axis, was, most)
    requires axis.Translated() && StartsOnTicks(axis, was) && most >= 2 && |was.ticks| <= most
    ensures IsAligned(axis, most)
  {
    hide Translation, Quotient;
    var ticks, d := axis.tickPositions, axis.tickInterval;
    assert ticks == Extended(was.ticks, d, most);
    ExtendedIsEven(was.ticks, d, most);
    assert axis.minPixelPadding == 0.0 by { assert axis.minPixelPadding == Times(axis.transA, 0.0); }
    forall k, flipped: bool | 0 <= k < most ensures AxisPixel(axis, ticks[k], flipped) == GridPixel(k, most, axis.len, flipped)
    {
      TickPixel(ticks, d, axis.min, axis.max, axis.len, k);
    }
  }

  lemma OthersStay(axes: seq<TickAxis>, was: seq<Was>, x: nat, y: nat)
    requires |was| == |axes|
    ensures forall i | 0 <= i < |axes| && (axes[i].isLinked || axes[i].isDatetimeAxis || axes[i].hasCategories || !axes[i].alignTicks) ::
              AdjustedRecords(axes, was, x, y)[i] == was[i]
  {
  }

  lemma AllAreAligned(axes: seq<TickAxis>, was: seq<Was>, mostX: nat, most: nat)
    requires |was| == |axes| && most >= 2
    requires Record(axes) == AdjustedRecords(axes, was, mostX, most)
    requires forall i | 0 <= i < |axes| :: axes[i].Translated()
    requires forall i | 0 <= i < |axes| && !axes[i].isX && axes[i].Counts() :: |was[i].ticks| <= most
    ensures forall i | 0 <= i < |axes| && StartsOnTicks(axes[i], was[i]) :: IsAligned(axes[i], most)
  {
    forall i | 0 <= i < |axes| && StartsOnTicks(axes[i], was[i]) ensures IsAligned(axes[i], most) {
      hide AdjustedRecord, IsAligned, Translation, Times;
      assert Record(axes)[i] == AdjustedRecord(axes[i], was[i], most);
      AxisIsAligned(axes[i], was[i], most);
    }
  }

  // ----- translating there and back

  /** Translating back undoes translating forth exactly when no pixels are reserved at the ends; in
      canvas coordinates, which the way back does not mirror, only the value in the middle comes back. */
  lemma TranslateBackAndForth(val: real, min: real, transA: real, padding: real, len: real, cvsCoord: bool, reversed: bool)
    requires transA != 0.0
    ensures Backward(Forward(val, min, transA, padding, len, cvsCoord != reversed), min, transA, len, reversed) == val
       <==> if cvsCoord then 2.0 * Times(val - min, transA) + padding == len else padding == 0.0
  {
    var pixel := Forward(val, min, transA, padding, len, cvsCoord != reversed);
    var p := if reversed then len - pixel else pixel;
    assert p == if cvsCoord then len - (Times(val - min, transA) + padding) else Times(val - min, transA) + padding;
    assert Quotient(p, transA) * transA == p;
    if Times(val - min, transA) == p {
      UniqueQuotient(p, transA, val - min);
    }
  }

  // ----- the ends of an axis

  /** On a translated axis with an extent the least value stands the pixel padding away from one edge, and the
      greatest as far from the other. */
  lemma EndsAtEdges(axis: TickAxis, flipped: bool)
    requires axis.Translated() && axis.max - axis.min + axis.pointRange != 0.0
    ensures var low, high := AxisPixel(axis, axis.min, flipped), AxisPixel(axis, axis.max, flipped);
            && low == (if flipped then axis.len - axis.minPixelPadding else axis.minPixelPadding)
            && high == (if flipped then axis.minPixelPadding else axis.len - axis.minPixelPadding)
            && 2.0 * axis.minPixelPadding == Times(axis.pointRange, axis.transA)
  {
    var a, r, p := axis.transA, axis.max - axis.min, axis.pointRange;
    assert a * (r + p) == axis.len by { QuotientBack(axis.len, r + p); }
    SplitRange(a, r, p);
  }

  lemma QuotientBack(a: real, b: real)
    requires b != 0.0
    ensures Quotient(a, b) * b == a
  {
  }

  lemma SplitRange(a: real, r: real, p: real)
    ensures a * (r + p) == Times(r, a) + Times(a, p / 2.0) + Times(a, p / 2.0)
    ensures 2.0 * Times(a, p / 2.0) == Times(p, a)
  {
    assert p / 2.0 + p / 2.0 == p;
    assert a * (r + p) == a * r + a * p;
    assert a * (p / 2.0 + p / 2.0) == a * (p / 2.0) + a * (p / 2.0);
  }
}
