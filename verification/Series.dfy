/** The series object of highstock.src.js with its mutable parallel arrays and point objects.
    Every method is tied to its effect in SeriesModel. */
module Series {
  import opened Wrappers
  import opened Crop
  import opened SeriesModel

  class Point {
    var x: real
    var y: Val

    constructor (x: real, y: Val)
      ensures this.x == x && this.y == y
    {
      this.x, this.y := x, y;
    }

    /** `applyOptions` on a point that has an x already. */
    method ApplyOptions(options: Config)
      modifies this
      ensures Pt(x, y) == Updated(old(Pt(x, y)), options)
    {
      match options {
        case CNum(n) => y := Num(n);
        case CNull => y := Null;
        case CPair(px, py) => x, y := px, py;
        case CObj(ox, oy) =>
          if ox.Some? { x := ox.value; }
          if oy.Some? { y := oy.value; }
      }
    }
  }

  function View(p: Point?): Option<Pt>
    reads p
  {
    if p == null then None else Some(Pt(p.x, p.y))
  }

  function Views(ps: seq<Point?>): (r: seq<Option<Pt>>)
    reads ps
    ensures |r| == |ps|
  {
    seq(|ps|, i requires 0 <= i < |ps| reads ps => View(ps[i]))
  }

  /** Different positions hold different point objects. */
  ghost predicate Distinct(ps: seq<Point?>) {
    forall i, j | 0 <= i < j < |ps| && ps[i] != null :: ps[i] != ps[j]
  }

  /** `points` are existing points of `data` from `start` on. */
  ghost predicate Shows(points: seq<Point?>, data: seq<Point?>, start: nat) {
    forall k | 0 <= k < |points| :: start + k < |data| && points[k] != null && points[k] == data[start + k]
  }

  lemma ShowsNothing(data: seq<Point?>, start: nat)
    ensures Shows([], data, start)
  {
  }

  lemma ShowsMore(points: seq<Point?>, was: seq<Point?>, data: seq<Point?>, start: nat, point: Point)
    requires Shows(points, was, start) && |was| <= |data| && start + |points| < |data|
    requires data[start + |points|] == point
    requires forall k | 0 <= k < |was| && k != start + |points| :: data[k] == was[k]
    ensures Shows(points + [point], data, start)
  {
  }

  class Series {
    const settings: Settings
    var xData: seq<real>
    var yData: seq<Val>
    var dataOptions: seq<Config>
    var data: seq<Point?>
    var xIncrement: Option<real>
    var processedXData: seq<real>
    var processedYData: seq<Val>
    var cropStart: nat
    var cropped: bool
    var closestPointRange: Option<real>
    var points: seq<Point?>

    ghost predicate Valid()
      reads this
    {
      && Distinct(data) && |xData| == |yData|
    }

    ghost function Abs(): State
      reads this, data
    {
      State(xData, yData, dataOptions, Views(data), xIncrement)
    }

    constructor (settings: Settings)
      ensures Valid() && this.settings == settings
      ensures Abs() == State([], [], [], [], None)
    {
      this.settings := settings;
      xData, yData, dataOptions, data, xIncrement := [], [], [], [], None;
      processedXData, processedYData, cropStart, cropped, closestPointRange := [], [], 0, false, None;
      points := [];
    }

    /** `autoIncrement`, on the counter alone. */
    method FreshValues(options: Config) returns (x: real, y: Val)
      modifies this`xIncrement
      ensures (Pt(x, y), xIncrement) == FreshPoint(options, old(xIncrement), settings)
    {
      y := ConfigY(options, Undef);
      match ConfigX(options, None) {
        case Some(own) => x := own;
        case None =>
          x := if xIncrement.Some? then xIncrement.value else settings.pointStart;
          xIncrement := Some(x + settings.pointInterval);
      }
    }

    /** Turbo mode for plain numbers. */
    method ReadNumbers(configs: seq<Config>) returns (xs: seq<real>, ys: seq<Val>)
      modifies this`xIncrement
      ensures |xs| == |ys| == |configs| && xIncrement == Some(TurboX(settings, |configs|))
      ensures forall k | 0 <= k < |configs| :: xs[k] == TurboX(settings, k) && ys[k] == RawY(configs[k])
    {
      hide RawY;
      xs, ys := [], [];
      var x := settings.pointStart;
      for i := 0 to |configs|
        invariant |xs| == |ys| == i && x == TurboX(settings, i)
        invariant forall k | 0 <= k < i :: xs[k] == TurboX(settings, k) && ys[k] == RawY(configs[k])
      {
        xs, ys := xs + [x], ys + [RawY(configs[i])];
        x := x + settings.pointInterval;
      }
      xIncrement := Some(x);
    }

    /** Turbo mode for pairs. */
    static method ReadPairs(configs: seq<Config>) returns (xs: seq<real>, ys: seq<Val>)
      requires forall i | 0 <= i < |configs| :: configs[i].CPair?
      ensures |xs| == |ys| == |configs|
      ensures forall k | 0 <= k < |configs| :: xs[k] == PairPt(configs[k]).x && ys[k] == PairPt(configs[k]).y
    {
      xs, ys := [], [];
      for i := 0 to |configs|
        invariant |xs| == |ys| == i
        invariant forall k | 0 <= k < i :: xs[k] == PairPt(configs[k]).x && ys[k] == PairPt(configs[k]).y
      {
        xs, ys := xs + [configs[i].px], ys + [configs[i].py];
      }
    }

    /** The normal mode. */
    method ReadConfigs(configs: seq<Config>) returns (xs: seq<real>, ys: seq<Val>)
      modifies this`xIncrement
      ensures var (ps, inc) := Read(configs, old(xIncrement), settings);
              xs == Xs(ps) && ys == Ys(ps) && xIncrement == inc
    {
      xs, ys := [], [];
      ghost var read: seq<Pt> := [];
      assert configs[..0] == [];
      for i := 0 to |configs|
        invariant (read, xIncrement) == Read(configs[..i], old(xIncrement), settings)
        invariant xs == Xs(read) && ys == Ys(read)
      {
        var x, y := FreshValues(configs[i]);
        assert configs[..i + 1][..i] == configs[..i];
        read := read + [Pt(x, y)];
        xs, ys := xs + [x], ys + [y];
      }
      assert configs[..|configs|] == configs;
    }

    method SetData(configs: seq<Config>)
      requires |configs| > TurboThreshold(settings) ==> Indexable(configs)
      modifies this
      ensures Valid() && Abs() == SeriesModel.SetData(settings, configs) && data == []
    {
      xIncrement := None;
      var xs: seq<real>, ys: seq<Val> := [], [];
      if |configs| > TurboThreshold(settings) {
        var firstPoint := FindFirst(configs);
        if firstPoint.Some? && firstPoint.value.CNum? {
          xs, ys := ReadNumbers(configs);
        } else if firstPoint.Some? && firstPoint.value.CPair? {
          xs, ys := ReadPairs(configs);
        }
      } else {
        xs, ys := ReadConfigs(configs);
      }
      data := [];
      dataOptions := configs;
      xData, yData := xs, ys;
    }

    /** The search for the first entry that is not null. */
    static method FindFirst(configs: seq<Config>) returns (first: Option<Config>)
      ensures first == FirstConfig(configs)
    {
      first := None;
      var i := 0;
      while first == None && i < |configs|
        invariant 0 <= i <= |configs|
        invariant FirstConfig(configs) == if first == None then FirstConfig(configs[i..]) else first
      {
        if !configs[i].CNull? {
          first := Some(configs[i]);
        }
        i := i + 1;
      }
    }

    /** `Point.remove`: the position is looked up by identity and spliced from all arrays. */
    method RemovePoint(point: Point, ghost at: nat)
      requires Valid() && |xData| == |dataOptions| && |data| <= |xData|
      requires at < |data| && data[at] == point
      modifies this
      ensures Valid() && Abs() == SeriesModel.Remove(old(Abs()), at)
      ensures data == RemoveAt(old(data), at)
      ensures |xData| == |dataOptions| == old(|xData|) - 1 && |data| == old(|data|) - 1
    {
      var i := 0;
      while i < |data|
        invariant 0 <= i <= at
      {
        if data[i] == point {
          data := data[..i] + data[i + 1..];
          dataOptions := dataOptions[..i] + dataOptions[i + 1..];
          xData := xData[..i] + xData[i + 1..];
          yData := yData[..i] + yData[i + 1..];
          break;
        }
        i := i + 1;
      }
    }

    /** `Point.update`: the point takes the options and its position is overwritten. */
    method UpdatePoint(point: Point, options: Config, ghost at: nat)
      requires Valid() && |xData| == |dataOptions| && |data| <= |xData|
      requires at < |data| && data[at] == point
      modifies this, point
      ensures Valid() && Abs() == SeriesModel.Update(old(Abs()), at, options)
      ensures data == old(data)
    {
      ghost var before := Abs();
      point.ApplyOptions(options);
      var i := 0;
      while i < |data|
        invariant 0 <= i <= at
        invariant xData == before.xs && yData == before.ys && dataOptions == before.opts && data == old(data)
        invariant Pt(point.x, point.y) == Updated(before.data[at].value, options)
        invariant forall k | 0 <= k < |data| && k != at :: View(data[k]) == before.data[k]
        invariant xIncrement == before.xIncrement
      {
        if data[i] == point {
          xData := xData[i := point.x];
          yData := yData[i := point.y];
          dataOptions := dataOptions[i := options];
          break;
        }
        i := i + 1;
      }
      assert Views(data) == before.data[at := View(point)];
    }

    /** The shift that can go with `addPoint`: the first position goes, through its point if there is one. */
    method ShiftFirst()
      requires Valid() && 0 < |xData| == |dataOptions| && |data| <= |xData|
      modifies this
      ensures Valid() && Abs() == SeriesModel.Remove(old(Abs()), 0)
      ensures forall q | q in data :: q in old(data)
    {
      if |data| > 0 && data[0] != null {
        RemovePoint(data[0], 0);
      } else {
        xData := xData[1..];
        yData := yData[1..];
        dataOptions := dataOptions[1..];
        data := if |data| > 0 then data[1..] else data;
        assert Views(data) == RemoveAt(old(Views(data)), 0);
      }
    }

    method AddPoint(options: Config, shift: bool)
      requires Valid() && |xData| == |dataOptions| && |data| <= |xData|
      modifies this
      ensures Valid() && Abs() == SeriesModel.AddPoint(old(Abs()), settings, options, shift)
      ensures forall q | q in data :: q in old(data)
    {
      var x, y := FreshValues(options);
      xData := xData + [x];
      yData := yData + [y];
      dataOptions := dataOptions + [options];
      if shift {
        ShiftFirst();
      }
    }

    /** The base `processData`; `crop` says whether the series is sorted, cartesian and long enough. */
    method ProcessData(min: real, max: real, crop: bool)
      requires |xData| == |yData|
      modifies this`processedXData, this`processedYData, this`cropStart, this`cropped, this`closestPointRange
      ensures var w := VisibleWindow(Abs(), min, max, crop);
              && cropStart == w.start && cropped == w.cropped
              && processedXData == xData[w.start..w.end] && processedYData == yData[w.start..w.end]
              && closestPointRange == ClosestGap(processedXData, 0)
    {
      var w := Window(0, |xData|, false);
      if crop {
        w := FindWindow(xData, min, max);
      }
      processedXData := xData[w.start..w.end];
      processedYData := yData[w.start..w.end];
      cropStart, cropped := w.start, w.cropped;
      closestPointRange := FindClosest(processedXData);
    }

    /** The point at a position, created if it is missing. */
    method PointAt(cursor: nat, x: real) returns (point: Point)
      requires Distinct(data) && cursor < |dataOptions|
      modifies this`data
      ensures Distinct(data) && cursor < |data| && data[cursor] == point
      ensures Views(data) == if cursor < |old(data)| && old(data)[cursor] != null then old(Views(data))
                             else PutAt(old(Views(data)), cursor, Created(dataOptions[cursor], x))
      ensures |old(data)| <= |data|
      ensures forall k | 0 <= k < |old(data)| && k != cursor :: data[k] == old(data)[k]
      ensures forall q | q in data && q != null && q !in old(data) :: fresh(q)
    {
      if cursor < |data| && data[cursor] != null {
        point := data[cursor];
      } else {
        var p := Created(dataOptions[cursor], x);
        point := new Point(p.x, p.y);
        data := if cursor < |data| then data[cursor := point]
                else data + seq(cursor - |data|, _ => null) + [point];
      }
    }

    /** The loop of `generatePoints`: missing points of the processed slice are created. */
    method CollectPoints() returns (generated: seq<Point?>)
      requires Valid() && |xData| == |dataOptions| && |data| <= |xData|
      requires cropStart + |processedXData| <= |xData|
      requires processedXData == xData[cropStart..cropStart + |processedXData|]
      modifies this`data
      ensures Valid() && Abs() == Generate(old(Abs()), cropStart, cropStart + |processedXData|)
      ensures |generated| == |processedXData| && Shows(generated, data, cropStart)
      ensures forall q | q in data && q != null && q !in old(data) :: fresh(q)
    {
      hide Generate, PutAt, Created, Shows;
      ghost var before := Abs();
      generated := [];
      GenerateNothing(before, cropStart);
      ShowsNothing(data, cropStart);
      for i := 0 to |processedXData|
        invariant Distinct(data)
        invariant |generated| == i && Shows(generated, data, cropStart)
        invariant forall q | q in data && q != null && q !in old(data) :: fresh(q)
        invariant Abs() == Generate(before, cropStart, cropStart + i)
      {
        GenerateOne(before, cropStart, cropStart + i);
        ghost var was := data;
        var point := PointAt(cropStart + i, processedXData[i]);
        ShowsMore(generated, was, data, cropStart, point);
        generated := generated + [point];
      }
    }

    /** `generatePoints` without data grouping: `points` are the very objects of the slice. */
    method GeneratePoints()
      requires Valid() && |xData| == |dataOptions| && |data| <= |xData|
      requires cropStart + |processedXData| <= |xData|
      requires processedXData == xData[cropStart..cropStart + |processedXData|]
      modifies this`data, this`points
      ensures Valid() && Abs() == Generate(old(Abs()), cropStart, cropStart + |processedXData|)
      ensures |points| == |processedXData| && Shows(points, data, cropStart)
      ensures forall q | q in data && q != null && q !in old(data) :: fresh(q)
    {
      hide Generate, Shows;
      points := CollectPoints();
    }

    /** What a redraw does to the arrays: crop, then generate. */
    method CropAndGenerate(min: real, max: real, crop: bool)
      requires Valid() && |xData| == |dataOptions| && |data| <= |xData|
      modifies this
      ensures Valid() && Abs() == Step(old(Abs()), settings, OpCropAndGenerate(min, max, crop))
      ensures forall q | q in data && q != null && q !in old(data) :: fresh(q)
    {
      hide Generate, CropWindow, ClosestGap, PutAt;
      ProcessData(min, max, crop);
      GeneratePoints();
    }

    /** One operation of a run; points are named by their position. */
    method Perform(op: Op)
      requires Valid() && Parallel(Abs()) && Allowed(settings, op)
      modifies this, data
      ensures Valid() && Parallel(Abs()) && Abs() == Step(old(Abs()), settings, op)
      ensures forall q | q in data && q != null && q !in old(data) :: fresh(q)
    {
      StepKeepsParallel(Abs(), settings, op);
      match op {
        case OpSetData(configs) => SetData(configs);
        case OpAddPoint(config, shift) => AddPoint(config, shift);
        case OpUpdate(at, options) =>
          if at < |data| && data[at] != null {
            UpdatePoint(data[at], options, at);
          }
        case OpRemove(index) =>
          if index < |data| && data[index] != null {
            RemovePoint(data[index], index);
          }
        case OpCropAndGenerate(min, max, crop) => CropAndGenerate(min, max, crop);
      }
    }

    /** Any run of operations. */
    method PerformAll(ops: seq<Op>)
      requires Valid() && Parallel(Abs())
      requires forall i | 0 <= i < |ops| :: Allowed(settings, ops[i])
      modifies this, data
      ensures Valid() && Parallel(Abs()) && Abs() == Run(old(Abs()), settings, ops)
    {
      ghost var before := Abs();
      for i := 0 to |ops|
        invariant Valid() && Parallel(Abs())
        invariant Abs() == Run(before, settings, ops[..i])
        invariant forall q | q in data && q != null && q !in old(data) :: fresh(q)
      {
        assert forall k | 0 <= k < |data| && data[k] != null :: data[k] in data;
        Perform(ops[i]);
        assert ops[..i + 1][..i] == ops[..i];
      }
      assert ops[..|ops|] == ops;
    }
  }

  lemma GenerateNothing(s: State, start: nat)
    requires start <= |s.xs| && |s.opts| == |s.xs|
    ensures Generate(s, start, start) == s
  {
  }

  /** The last point of a window, after the others. */
  lemma GenerateOne(s: State, start: nat, i: nat)
    requires start <= i < |s.xs| && |s.opts| == |s.xs|
    ensures var t, u := Generate(s, start, i), Generate(s, start, i + 1);
            && t.opts == s.opts && t.xs == s.xs
            && u == if i < |t.data| && t.data[i].Some? then t
                    else t.(data := PutAt(t.data, i, Created(s.opts[i], s.xs[i])))
  {
    GenerateArrays(s, start, i);
  }

  /** Generating points leaves the arrays beside `data` alone. */
  lemma {:induction false} GenerateArrays(s: State, start: nat, end: nat)
    requires start <= end <= |s.xs| && |s.opts| == |s.xs|
    ensures var t := Generate(s, start, end);
            t.xs == s.xs && t.ys == s.ys && t.opts == s.opts && t.xIncrement == s.xIncrement
    decreases end - start
  {
    if start < end {
      GenerateArrays(s, start, end - 1);
    }
  }
}
