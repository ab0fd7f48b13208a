/** Data grouping of highstock.src.js: the approximations and `groupData`. */
module Grouping {
  import opened Wrappers
  import opened Reals

  /** A y value: a number, null, or anything else. */
  datatype Y = Num(v: real) | Null | Undefined

  datatype Pt = Pt(x: int, y: Y)

  /** The named approximations of one value a point. */
  datatype Approx = Sum | Average | Open | High | Low | Close

  // ----- approximations

  /** The numbers of a group, in order: what `values1` holds. */
  function Nums(ys: seq<Y>): seq<real> {
    if ys == [] then []
    else Nums(ys[..|ys| - 1]) + match ys[|ys| - 1] case Num(v) => [v] case _ => []
  }

  predicate HasNulls(ys: seq<Y>) {
    Null in ys
  }

  function SumOf(vals: seq<real>): real {
    if vals == [] then 0.0 else SumOf(vals[..|vals| - 1]) + vals[|vals| - 1]
  }

  function MaxOf(vals: seq<real>): real
    requires vals != []
  {
    if |vals| == 1 then vals[0] else Max(MaxOf(vals[..|vals| - 1]), vals[|vals| - 1])
  }

  function MinOf(vals: seq<real>): real
    requires vals != []
  {
    if |vals| == 1 then vals[0] else Min(MinOf(vals[..|vals| - 1]), vals[|vals| - 1])
  }

  function Approximation(a: Approx, vals: seq<real>, hasNulls: bool): Y {
    if vals == [] then (if hasNulls then Null else Undefined)
    else match a
      case Sum => Num(SumOf(vals))
      case Average => Num(SumOf(vals) / |vals| as real)
      case Open => Num(vals[0])
      case High => Num(MaxOf(vals))
      case Low => Num(MinOf(vals))
      case Close => Num(vals[|vals| - 1])
  }

  lemma {:induction false} SumConcat(u: seq<real>, v: seq<real>)
    ensures SumOf(u + v) == SumOf(u) + SumOf(v)
  {
    if v == [] {
      assert u + v == u;
    } else {
      assert (u + v)[..|u + v| - 1] == u + v[..|v| - 1];
      SumConcat(u, v[..|v| - 1]);
    }
  }

  /** `approximations.sum` adds from the last value down. */
  method SumDown(arr: seq<real>) returns (ret: real)
    ensures ret == SumOf(arr)
  {
    ret := 0.0;
    var len := |arr|;
    while len > 0
      invariant 0 <= len <= |arr|
      invariant ret == SumOf(arr[len..])
    {
      len := len - 1;
      ret := ret + arr[len];
      assert arr[len..] == [arr[len]] + arr[len + 1..];
      SumConcat([arr[len]], arr[len + 1..]);
      assert [arr[len]][..0] == [];
    }
    assert arr[0..] == arr;
  }

  lemma {:induction false} MaxConcat(u: seq<real>, v: seq<real>)
    requires u != [] && v != []
    ensures MaxOf(u + v) == Max(MaxOf(u), MaxOf(v))
    ensures MinOf(u + v) == Min(MinOf(u), MinOf(v))
  {
    assert (u + v)[..|u + v| - 1] == u + v[..|v| - 1];
    if |v| == 1 {
      assert u + v[..0] == u;
    } else {
      MaxConcat(u, v[..|v| - 1]);
    }
  }

  /** `arrayMax` and `arrayMin` walk down from the last value. */
  method Extremes(data: seq<real>) returns (max: real, min: real)
    requires data != []
    ensures max == MaxOf(data) && min == MinOf(data)
  {
    var i := |data|;
    max, min := data[0], data[0];
    while i > 0
      invariant 0 <= i <= |data|
      invariant i == |data| ==> max == min == data[0]
      invariant i < |data| ==> max == Max(data[0], MaxOf(data[i..])) && min == Min(data[0], MinOf(data[i..]))
    {
      i := i - 1;
      if i + 1 < |data| {
        assert data[i..] == [data[i]] + data[i + 1..];
        MaxConcat([data[i]], data[i + 1..]);
      } else {
        assert data[i..] == [data[i]];
      }
      if data[i] > max {
        max := data[i];
      }
      if data[i] < min {
        min := data[i];
      }
    }
    assert data[0..] == data;
    MaxBoundsFirst(data);
  }

  lemma {:induction false} MaxBoundsFirst(vals: seq<real>)
    requires vals != []
    ensures MinOf(vals) <= vals[0] <= MaxOf(vals)
  {
    if |vals| > 1 {
      MaxBoundsFirst(vals[..|vals| - 1]);
    }
  }

  method Approximate(a: Approx, arr: seq<real>, hasNulls: bool) returns (ret: Y)
    ensures ret == Approximation(a, arr, hasNulls)
  {
    if |arr| == 0 {
      return if hasNulls then Null else Undefined;
    }
    match a {
      case Sum =>
        var s := SumDown(arr);
        ret := Num(s);
      case Average =>
        var s := SumDown(arr);
        ret := Num(s / |arr| as real);
      case Open => ret := Num(arr[0]);
      case High =>
        var max, _ := Extremes(arr);
        ret := Num(max);
      case Low =>
        var _, min := Extremes(arr);
        ret := Num(min);
      case Close => ret := Num(arr[|arr| - 1]);
    }
  }

  // ----- groups

  function Ys(pts: seq<Pt>): seq<Y> {
    seq(|pts|, i requires 0 <= i < |pts| => pts[i].y)
  }

  /** The value of a whole group. */
  function Aggregate(a: Approx, pts: seq<Pt>): Y {
    Approximation(a, Nums(Ys(pts)), HasNulls(Ys(pts)))
  }

  /** A group is emitted unless it has neither numbers nor nulls. */
  function Emit(a: Approx, x: int, pts: seq<Pt>): seq<Pt> {
    var y := Aggregate(a, pts);
    if y == Undefined then [] else [Pt(x, y)]
  }

  /** How many points come before the first one that reaches `limit`. */
  function Below(pts: seq<Pt>, limit: int): (k: nat)
    ensures k <= |pts|
    ensures forall i | 0 <= i < k :: pts[i].x < limit
    ensures k < |pts| ==> pts[k].x >= limit
  {
    if pts == [] || pts[0].x >= limit then 0 else 1 + Below(pts[1..], limit)
  }

  /** The groups of `pts` from the first position on, `pre` being already in the first group. */
  function GroupFrom(a: Approx, pre: seq<Pt>, pts: seq<Pt>, positions: seq<int>): seq<Pt>
    requires positions != []
    decreases |positions|
  {
    if |positions| == 1 then Emit(a, positions[0], pre + pts)
    else
      var k := Below(pts, positions[1]);
      Emit(a, positions[0], pre + pts[..k]) + GroupFrom(a, [], pts[k..], positions[1..])
  }

  function Group(a: Approx, pts: seq<Pt>, positions: seq<int>): seq<Pt>
    requires positions != []
  {
    GroupFrom(a, [], pts, positions)
  }

  /** The positions `groupData` leaves in the array it was handed. */
  function Remaining(pts: seq<Pt>, positions: seq<int>): seq<int>
    requires positions != []
    decreases |positions|
  {
    if |positions| == 1 || Below(pts, positions[1]) == |pts| then positions[1..]
    else Remaining(pts[Below(pts, positions[1])..], positions[1..])
  }

  function Points(xData: seq<int>, yData: seq<Y>): seq<Pt>
    requires |xData| == |yData|
  {
    seq(|xData|, i requires 0 <= i < |xData| => Pt(xData[i], yData[i]))
  }

  /** Without y data every point counts as a null. */
  function YColumn(xData: seq<int>, yData: Option<seq<Y>>): seq<Y> {
    match yData case Some(ys) => ys case None => seq(|xData|, _ => Null)
  }

  lemma {:induction false} NoPointsNoGroups(a: Approx, positions: seq<int>)
    requires positions != []
    ensures Group(a, [], positions) == []
    decreases |positions|
  {
    assert Ys([]) == [];
    if |positions| > 1 {
      var none: seq<Pt> := [];
      assert none + none[..0] == none;
      NoPointsNoGroups(a, positions[1..]);
    }
  }

  lemma YsSnoc(pts: seq<Pt>, p: Pt)
    ensures Nums(Ys(pts + [p])) == Nums(Ys(pts)) + match p.y case Num(v) => [v] case _ => []
    ensures HasNulls(Ys(pts + [p])) <==> HasNulls(Ys(pts)) || p.y == Null
  {
    assert Ys(pts + [p]) == Ys(pts) + [p.y];
    assert Ys(pts + [p])[..|pts|] == Ys(pts);
  }

  /** Moving the next point into the first group. */
  lemma TakePoint(a: Approx, pre: seq<Pt>, pts: seq<Pt>, positions: seq<int>)
    requires positions != [] && pts != []
    requires |positions| == 1 || pts[0].x < positions[1]
    ensures GroupFrom(a, pre, pts, positions) == GroupFrom(a, pre + [pts[0]], pts[1..], positions)
    ensures Remaining(pts, positions) == Remaining(pts[1..], positions)
  {
    if |positions| == 1 {
      assert pre + pts == pre + [pts[0]] + pts[1..];
    } else {
      var k := Below(pts, positions[1]);
      assert pre + pts[..k] == pre + [pts[0]] + pts[1..][..k - 1];
      assert pts[k..] == pts[1..][k - 1..];
    }
  }

  /** Closing the first group. */
  lemma CloseGroup(a: Approx, pre: seq<Pt>, pts: seq<Pt>, positions: seq<int>)
    requires |positions| > 1 && (pts == [] || pts[0].x >= positions[1])
    ensures GroupFrom(a, pre, pts, positions) == Emit(a, positions[0], pre) + GroupFrom(a, [], pts, positions[1..])
    ensures pts != [] ==> Remaining(pts, positions) == Remaining(pts, positions[1..])
  {
    assert pre + pts[..0] == pre;
    assert pts[0..] == pts;
  }

  lemma NoValues()
    ensures Nums(Ys([])) == [] && !HasNulls(Ys([]))
  {
    assert Ys([]) == [];
  }

  lemma PointsSnoc(xs: seq<int>, ys: seq<Y>, x: int, y: Y)
    requires |xs| == |ys|
    ensures Points(xs + [x], ys + [y]) == Points(xs, ys) + [Pt(x, y)]
  {
  }

  /** What holds between two steps of `groupData`: the groups still to come start with `pre`. */
  ghost predicate Progress(a: Approx, pts: seq<Pt>, positions: seq<int>, i: nat, groupedX: seq<int>, groupedY: seq<Y>,
                           values: seq<real>, hasNulls: bool, pre: seq<Pt>, rest: seq<int>) {
    && positions != [] && rest != [] && i <= |pts| && |groupedX| == |groupedY|
    && values == Nums(Ys(pre)) && hasNulls == HasNulls(Ys(pre))
    && Group(a, pts, positions) == Points(groupedX, groupedY) + GroupFrom(a, pre, pts[i..], rest)
    && Remaining(pts, positions) == Remaining(pts[i..], rest)
  }

  /** The two output lists after a group has been summarized. */
  function PushX(groupedX: seq<int>, x: int, y: Y): seq<int> {
    if y == Undefined then groupedX else groupedX + [x]
  }

  function PushY(groupedY: seq<Y>, y: Y): seq<Y> {
    if y == Undefined then groupedY else groupedY + [y]
  }

  lemma PushEmits(a: Approx, groupedX: seq<int>, groupedY: seq<Y>, x: int, pre: seq<Pt>)
    requires |groupedX| == |groupedY|
    ensures var y := Aggregate(a, pre);
            && |PushX(groupedX, x, y)| == |PushY(groupedY, y)|
            && Points(PushX(groupedX, x, y), PushY(groupedY, y)) == Points(groupedX, groupedY) + Emit(a, x, pre)
  {
    PointsSnoc(groupedX, groupedY, x, Aggregate(a, pre));
  }

  lemma ShiftStep(a: Approx, pts: seq<Pt>, positions: seq<int>, i: nat, groupedX: seq<int>, groupedY: seq<Y>,
                  values: seq<real>, hasNulls: bool, pre: seq<Pt>, rest: seq<int>)
    requires Progress(a, pts, positions, i, groupedX, groupedY, values, hasNulls, pre, rest)
    requires |rest| > 1 && i < |pts| && pts[i].x >= rest[1]
    ensures var y := Approximation(a, values, hasNulls);
            Progress(a, pts, positions, i, PushX(groupedX, rest[0], y), PushY(groupedY, y), [], false, [], rest[1..])
  {
    hide GroupFrom, Remaining, Approximation, Below;
    PushEmits(a, groupedX, groupedY, rest[0], pre);
    CloseGroup(a, pre, pts[i..], rest);
    NoValues();
    hide Nums;
  }

  lemma PushStep(a: Approx, pts: seq<Pt>, positions: seq<int>, i: nat, groupedX: seq<int>, groupedY: seq<Y>,
                 values: seq<real>, hasNulls: bool, pre: seq<Pt>, rest: seq<int>)
    requires Progress(a, pts, positions, i, groupedX, groupedY, values, hasNulls, pre, rest)
    requires i < |pts| && (|rest| == 1 || pts[i].x < rest[1])
    ensures var y := pts[i].y;
            Progress(a, pts, positions, i + 1, groupedX, groupedY, if y.Num? then values + [y.v] else values,
                     hasNulls || y == Null, pre + [pts[i]], rest)
  {
    hide GroupFrom, Remaining, Approximation, Below, Nums;
    assert pts[i..][1..] == pts[i + 1..];
    TakePoint(a, pre, pts[i..], rest);
    YsSnoc(pre, pts[i]);
    assert values + [] == values;
  }

  lemma EndStep(a: Approx, pts: seq<Pt>, positions: seq<int>, groupedX: seq<int>, groupedY: seq<Y>,
                values: seq<real>, hasNulls: bool, pre: seq<Pt>, rest: seq<int>)
    requires Progress(a, pts, positions, |pts|, groupedX, groupedY, values, hasNulls, pre, rest)
    ensures var y := Approximation(a, values, hasNulls);
            && |PushX(groupedX, rest[0], y)| == |PushY(groupedY, y)|
            && Points(PushX(groupedX, rest[0], y), PushY(groupedY, y)) == Group(a, pts, positions)
            && Remaining(pts, positions) == rest[1..]
  {
    hide GroupFrom, Remaining, Approximation, Below, Nums;
    assert pts[|pts|..] == [];
    PushEmits(a, groupedX, groupedY, rest[0], pre);
    LastGroup(a, pre, rest);
  }

  /** The double loop of `groupData`, which shifts the position array as it goes. */
  method GroupData(xData: seq<int>, yData: Option<seq<Y>>, groupPositions: seq<int>, a: Approx)
    returns (groupedX: seq<int>, groupedY: seq<Y>, rest: seq<int>)
    requires groupPositions != []
    requires yData.Some? ==> |yData.value| == |xData|
    ensures |groupedX| == |groupedY|
    ensures Points(groupedX, groupedY) == Group(a, Points(xData, YColumn(xData, yData)), groupPositions)
    ensures rest == Remaining(Points(xData, YColumn(xData, yData)), groupPositions)
  {
    var dataLength := |xData|;
    ghost var pts := Points(xData, YColumn(xData, yData));
    groupedX, groupedY, rest := [], [], groupPositions;
    var values, hasNulls := [], false;
    ghost var pre: seq<Pt> := [];
    var i := 0;
    assert |pts| == dataLength;
    assert forall k | 0 <= k < dataLength ::
        pts[k].x == xData[k] && pts[k].y == match yData case Some(ys) => ys[k] case None => Null;
    hide Points, YColumn, Progress, Approximation, Group, Remaining;
    assert Progress(a, pts, groupPositions, i, groupedX, groupedY, values, hasNulls, pre, rest) by {
      ProgressStart(a, pts, groupPositions);
    }
    while i <= dataLength
      invariant 0 <= i <= dataLength && rest != []
      invariant Progress(a, pts, groupPositions, i, groupedX, groupedY, values, hasNulls, pre, rest)
      decreases dataLength - i
    {
      while (|rest| > 1 && i < dataLength && xData[i] >= rest[1]) || i == dataLength
        invariant rest != []
        invariant Progress(a, pts, groupPositions, i, groupedX, groupedY, values, hasNulls, pre, rest)
        decreases |rest|
      {
        if i == dataLength {
          EndStep(a, pts, groupPositions, groupedX, groupedY, values, hasNulls, pre, rest);
        } else {
          ShiftStep(a, pts, groupPositions, i, groupedX, groupedY, values, hasNulls, pre, rest);
        }
        var pointX := rest[0];
        rest := rest[1..];
        var y := Approximate(a, values, hasNulls);
        if y != Undefined {
          groupedX, groupedY := groupedX + [pointX], groupedY + [y];
        }
        values, hasNulls, pre := [], false, [];
        if i == dataLength {
          return;
        }
      }
      var pointY := match yData case Some(ys) => ys[i] case None => Null;
      PushStep(a, pts, groupPositions, i, groupedX, groupedY, values, hasNulls, pre, rest);
      match pointY {
        case Num(v) => values := values + [v];
        case Null => hasNulls := true;
        case Undefined =>
      }
      pre := pre + [pts[i]];
      i := i + 1;
    }
  }

  lemma ProgressStart(a: Approx, pts: seq<Pt>, positions: seq<int>)
    requires positions != []
    ensures Progress(a, pts, positions, 0, [], [], [], false, [], positions)
  {
    hide GroupFrom, Remaining, Below, Nums;
    assert pts[0..] == pts;
    assert Points([], []) == [];
    assert Points([], []) + Group(a, pts, positions) == Group(a, pts, positions);
    NoValues();
  }

  lemma LastGroup(a: Approx, pre: seq<Pt>, positions: seq<int>)
    requires positions != []
    ensures GroupFrom(a, pre, [], positions) == Emit(a, positions[0], pre)
    ensures Remaining([], positions) == positions[1..]
  {
    assert pre + [] == pre;
    if |positions| > 1 {
      CloseGroup(a, pre, [], positions);
      NoPointsNoGroups(a, positions[1..]);
    }
  }
}
