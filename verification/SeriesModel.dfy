/** The parallel arrays of a series as values: what each operation does to them and what every
    run of operations keeps. */
module SeriesModel {
  import opened Wrappers
  import opened Crop

  /** The y of a point; `Whole` is an entry of the data that was stored as it is, `Other` anything else
      that is neither a number, null nor undefined. */
  datatype Val = Num(v: real) | Null | Undef | Whole(entry: Config) | Other

  /** One entry of a series' `data` option. */
  datatype Config =
    | CNum(n: real)
    | CNull
    | CPair(px: real, py: Val)
    | CObj(x: Option<real>, y: Option<Val>)

  datatype Pt = Pt(x: real, y: Val)

  datatype Settings = Settings(turboThreshold: nat, pointStart: real, pointInterval: real)

  /** `xData`, `yData`, `options.data` and the sparse `data`, plus the automatic x value. */
  datatype State = State(xs: seq<real>, ys: seq<Val>, opts: seq<Config>, data: seq<Option<Pt>>,
                         xIncrement: Option<real>)

  // ----- applying options to a point

  /** The y that options give to a point that has `old`. */
  function ConfigY(c: Config, current: Val): Val {
    match c
    case CNum(n) => Num(n)
    case CNull => Null
    case CPair(_, y) => y
    case CObj(_, y) => if y.Some? then y.value else current
  }

  function ConfigX(c: Config, current: Option<real>): Option<real> {
    match c
    case CPair(x, _) => Some(x)
    case CObj(x, _) => if x.Some? then x else current
    case _ => current
  }

  function NextX(xIncrement: Option<real>, st: Settings): real {
    if xIncrement.Some? then xIncrement.value else st.pointStart
  }

  /** A fresh point that gets its x automatically if its options have none. */
  function FreshPoint(c: Config, xIncrement: Option<real>, st: Settings): (Pt, Option<real>) {
    match ConfigX(c, None)
    case Some(x) => (Pt(x, ConfigY(c, Undef)), xIncrement)
    case None =>
      var x := NextX(xIncrement, st);
      (Pt(x, ConfigY(c, Undef)), Some(x + st.pointInterval))
  }

  /** A point created on demand for a position whose x is known. */
  function Created(c: Config, x: real): Pt {
    Pt(match ConfigX(c, None) case Some(own) => own case None => x, ConfigY(c, Undef))
  }

  /** New options for an existing point. */
  function Updated(p: Pt, c: Config): Pt {
    Pt(match ConfigX(c, Some(p.x)) case Some(x) => x case None => p.x, ConfigY(c, p.y))
  }

  // ----- the invariant

  /** The arrays are parallel, and whatever point exists or will be created at a position
      carries that position's x and y. */
  ghost predicate Parallel(s: State) {
    && |s.xs| == |s.ys| == |s.opts| && |s.data| <= |s.xs|
    && forall i | 0 <= i < |s.xs| :: PositionAgrees(s, i)
  }

  ghost predicate PositionAgrees(s: State, i: nat)
    requires |s.xs| == |s.ys| == |s.opts| && i < |s.xs|
  {
    var here := Pt(s.xs[i], s.ys[i]);
    if i < |s.data| && s.data[i].Some? then s.data[i].value == here
    else Created(s.opts[i], s.xs[i]) == here
  }

  // ----- setData

  /** `options.turboThreshold || 1000` */
  function TurboThreshold(st: Settings): nat {
    if st.turboThreshold == 0 then 1000 else st.turboThreshold
  }

  function FirstConfig(data: seq<Config>): Option<Config> {
    if data == [] then None else if data[0].CNull? then FirstConfig(data[1..]) else Some(data[0])
  }

  /** In turbo mode the first entry that is not null decides how all of them are read. */
  predicate Uniform(data: seq<Config>) {
    match FirstConfig(data)
    case Some(CNum(_)) => forall i | 0 <= i < |data| :: data[i].CNum? || data[i].CNull?
    case Some(CPair(_, _)) => forall i | 0 <= i < |data| :: data[i].CPair?
    case _ => true
  }

  /** Reading pairs indexes every entry, so each must be an array. */
  predicate Indexable(data: seq<Config>) {
    match FirstConfig(data)
    case Some(CPair(_, _)) => forall i | 0 <= i < |data| :: data[i].CPair?
    case _ => true
  }

  /** The only arrays turbo mode cannot read: the first entry that is not null is neither a number
      nor a pair. */
  predicate TurboReads(data: seq<Config>) {
    match FirstConfig(data)
    case Some(c) => c.CNum? || c.CPair?
    case None => false
  }

  /** What turbo mode for plain numbers takes for the y of an entry: the entry itself. */
  function RawY(c: Config): Val {
    match c
    case CNum(n) => Num(n)
    case CNull => Null
    case _ => Whole(c)
  }

  function Read(data: seq<Config>, xIncrement: Option<real>, st: Settings): (r: (seq<Pt>, Option<real>))
    ensures |r.0| == |data|
  {
    if data == [] then ([], xIncrement)
    else
      var (ps, inc) := Read(data[..|data| - 1], xIncrement, st);
      var (p, next) := FreshPoint(data[|data| - 1], inc, st);
      (ps + [p], next)
  }

  /** The x values of turbo mode for plain numbers. */
  function TurboX(st: Settings, i: nat): real {
    if i == 0 then st.pointStart else TurboX(st, i - 1) + st.pointInterval
  }

  function Xs(ps: seq<Pt>): seq<real> {
    seq(|ps|, i requires 0 <= i < |ps| => ps[i].x)
  }

  function Ys(ps: seq<Pt>): seq<Val> {
    seq(|ps|, i requires 0 <= i < |ps| => ps[i].y)
  }

  function PairPt(c: Config): Pt {
    match c case CPair(x, y) => Pt(x, y) case _ => Pt(0.0, Undef)
  }

  /** What reading a list of data comes to. Where an array is expected, null throws, and anything else that
      is no array has neither an x nor a y. */
  datatype Outcome = Thrown | Loaded(xs: seq<Option<real>>, ys: seq<Val>)

  function PairX(c: Config): Option<real> {
    if c.CPair? then Some(c.px) else None
  }

  function PairY(c: Config): Val {
    if c.CPair? then c.py else Undef
  }

  function Load(st: Settings, data: seq<Config>): Outcome {
    if |data| > TurboThreshold(st) then
      match FirstConfig(data)
      case Some(CNum(_)) =>
        Loaded(seq(|data|, i requires 0 <= i < |data| => Some(TurboX(st, i))),
               seq(|data|, i requires 0 <= i < |data| => RawY(data[i])))
      case Some(CPair(_, _)) =>
        if CNull in data then Thrown
        else Loaded(seq(|data|, i requires 0 <= i < |data| => PairX(data[i])),
                    seq(|data|, i requires 0 <= i < |data| => PairY(data[i])))
      case _ => Loaded([], [])
    else
      var ps := Read(data, None, st).0;
      Loaded(seq(|ps|, i requires 0 <= i < |ps| => Some(ps[i].x)), Ys(ps))
  }

  function SetData(st: Settings, data: seq<Config>): State {
    if |data| > TurboThreshold(st) then
      match FirstConfig(data)
      case Some(CNum(_)) =>
        State(seq(|data|, i requires 0 <= i < |data| => TurboX(st, i)),
              seq(|data|, i requires 0 <= i < |data| => RawY(data[i])),
              data, [], Some(TurboX(st, |data|)))
      case Some(CPair(_, _)) =>
        State(seq(|data|, i requires 0 <= i < |data| => PairPt(data[i]).x),
              seq(|data|, i requires 0 <= i < |data| => PairPt(data[i]).y),
              data, [], None)
      case _ => State([], [], data, [], None)
    else
      var (ps, inc) := Read(data, None, st);
      State(Xs(ps), Ys(ps), data, [], inc)
  }

  // ----- the other operations

  function RemoveAt<T>(s: seq<T>, i: nat): seq<T> {
    if i < |s| then s[..i] + s[i + 1..] else s
  }

  function Remove(s: State, i: nat): State {
    State(RemoveAt(s.xs, i), RemoveAt(s.ys, i), RemoveAt(s.opts, i), RemoveAt(s.data, i), s.xIncrement)
  }

  function AddPoint(s: State, st: Settings, c: Config, shift: bool): State {
    var (p, inc) := FreshPoint(c, s.xIncrement, st);
    var pushed := State(s.xs + [p.x], s.ys + [p.y], s.opts + [c], s.data, inc);
    if shift then Remove(pushed, 0) else pushed
  }

  /** `Point.update` on the point at position `i`. */
  function Update(s: State, i: nat, c: Config): State
    requires i < |s.data| && s.data[i].Some? && i < |s.xs| && i < |s.ys| && i < |s.opts|
  {
    var p := Updated(s.data[i].value, c);
    State(s.xs[i := p.x], s.ys[i := p.y], s.opts[i := c], s.data[i := Some(p)], s.xIncrement)
  }

  /** `data` after `generatePoints` on the positions `start` to `end`. */
  function Generate(s: State, start: nat, end: nat): State
    requires start <= end <= |s.xs| && |s.opts| == |s.xs|
    decreases end - start
  {
    if start == end then s
    else
      var t := Generate(s, start, end - 1);
      var i := end - 1;
      if i < |t.data| && t.data[i].Some? then t
      else t.(data := PutAt(t.data, i, Created(s.opts[i], s.xs[i])))
  }

  /** Assigning to an array element, beyond the end leaves holes before it. */
  function PutAt(data: seq<Option<Pt>>, i: nat, p: Pt): (r: seq<Option<Pt>>)
    ensures |r| == if i < |data| then |data| else i + 1
  {
    if i < |data| then data[i := Some(p)] else data + seq(i - |data|, _ => None) + [Some(p)]
  }

  datatype Op =
    | OpSetData(configs: seq<Config>)
    | OpAddPoint(config: Config, shift: bool)
    | OpUpdate(at: nat, options: Config)
    | OpRemove(index: nat)
    | OpCropAndGenerate(min: real, max: real, crop: bool)

  /** Only existing points can be updated or removed. */
  predicate HasPoint(s: State, i: nat) {
    i < |s.data| && s.data[i].Some? && i < |s.xs| && i < |s.ys| && i < |s.opts|
  }

  function VisibleWindow(s: State, min: real, max: real, crop: bool): (w: Window)
    ensures w.start <= w.end <= |s.xs|
  {
    if crop then CropWindow(s.xs, min, max) else Window(0, |s.xs|, false)
  }

  function Step(s: State, st: Settings, op: Op): State {
    match op
    case OpSetData(configs) => SetData(st, configs)
    case OpAddPoint(c, shift) => AddPoint(s, st, c, shift)
    case OpUpdate(i, c) => if HasPoint(s, i) then Update(s, i, c) else s
    case OpRemove(i) => if HasPoint(s, i) then Remove(s, i) else s
    case OpCropAndGenerate(min, max, crop) =>
      if |s.opts| != |s.xs| then s
      else
        var w := VisibleWindow(s, min, max, crop);
        // outside the visible range an empty slice starts at 0
        Generate(s, w.start, w.end)
  }

  // ----- what each operation keeps

  lemma {:induction false} ReadAgrees(data: seq<Config>, inc: Option<real>, st: Settings, i: nat)
    requires i < |data|
    ensures var p := Read(data, inc, st).0[i]; Created(data[i], p.x) == p
  {
    if i < |data| - 1 {
      ReadAgrees(data[..|data| - 1], inc, st, i);
    }
  }

  /** Are the arrays read parallel to the data, each entry with the x and y a point created from it has? */
  ghost predicate LoadedParallel(o: Outcome, data: seq<Config>) {
    && o.Loaded? && |o.xs| == |o.ys| == |data|
    && forall i | 0 <= i < |data| :: o.xs[i].Some? && Created(data[i], o.xs[i].value) == Pt(o.xs[i].value, o.ys[i])
  }

  /** Reading any list of data gives parallel arrays exactly when the data are not too long for the
      normal mode, or turbo mode can read them and all entries are of the kind of the first. */
  lemma LoadParallel(st: Settings, data: seq<Config>)
    ensures LoadedParallel(Load(st, data), data) <==>
            |data| <= TurboThreshold(st) || (TurboReads(data) && Uniform(data))
  {
    var o := Load(st, data);
    if |data| <= TurboThreshold(st) {
      forall i | 0 <= i < |data|
        ensures Created(data[i], o.xs[i].value) == Pt(o.xs[i].value, o.ys[i])
      {
        ReadAgrees(data, None, st, i);
      }
    } else if TurboReads(data) && !Uniform(data) && o.Loaded? {
      if FirstConfig(data).value.CNum? {
        var i :| 0 <= i < |data| && !data[i].CNum? && !data[i].CNull?;
        assert o.ys[i] == Whole(data[i]);
        WholeIsNoY(data[i]);
      } else {
        var i :| 0 <= i < |data| && !data[i].CPair?;
        assert o.xs[i] == None;
      }
    }
  }

  /** Where every entry gets an x, the state after `setData` holds what was read. */
  lemma SetDataLoads(st: Settings, data: seq<Config>)
    requires |data| > TurboThreshold(st) ==> Indexable(data)
    ensures var s, o := SetData(st, data), Load(st, data);
            && o.Loaded? && |s.xs| == |o.xs| && s.ys == o.ys && s.opts == data && s.data == []
            && forall i | 0 <= i < |s.xs| :: o.xs[i] == Some(s.xs[i])
  {
    var s, o := SetData(st, data), Load(st, data);
    if o.Loaded? {
      assert s.ys == o.ys;
    }
  }

  /** So setting data keeps the arrays parallel under the same condition. */
  lemma SetDataParallel(st: Settings, data: seq<Config>)
    requires |data| > TurboThreshold(st) ==> Indexable(data)
    ensures Parallel(SetData(st, data)) <==> |data| <= TurboThreshold(st) || (TurboReads(data) && Uniform(data))
  {
    hide Load, SetData, Created, TurboReads, Uniform;
    var s, o := SetData(st, data), Load(st, data);
    SetDataLoads(st, data);
    LoadParallel(st, data);
    if Parallel(s) {
      forall i | 0 <= i < |data|
        ensures o.xs[i].Some? && Created(data[i], o.xs[i].value) == Pt(o.xs[i].value, o.ys[i])
      {
        assert PositionAgrees(s, i);
      }
    }
    if LoadedParallel(o, data) {
      forall i | 0 <= i < |data|
        ensures PositionAgrees(s, i)
      {
        assert Created(data[i], o.xs[i].value) == Pt(o.xs[i].value, o.ys[i]);
      }
    }
  }

  /** No entry is its own y. */
  lemma WholeIsNoY(c: Config)
    ensures ConfigY(c, Undef) != Whole(c)
  {
    var y := ConfigY(c, Undef);
    if y.Whole? {
      assert c.CPair? ==> y < c;
      assert c.CObj? ==> y == c.y.value < c;
      assert y.entry < y;
    }
  }

  /** Objects are lost in turbo mode: a thousand and one of them leave no x and no y. */
  lemma TurboLosesObjects()
    ensures var st, data := Settings(1000, 0.0, 1.0), seq(1001, _ => CObj(Some(1.0), Some(Num(2.0))));
            var s := SetData(st, data);
            s.xs == [] && s.ys == [] && |s.opts| == 1001 && !Parallel(s)
  {
  }

  /** And one pair among as many numbers is stored whole as the y of its position. */
  lemma TurboStoresPairs()
    ensures var st, data := Settings(1000, 0.0, 1.0), [CNum(5.0)] + seq(1000, _ => CPair(1.0, Num(2.0)));
            var s := SetData(st, data);
            s.ys[1] == Whole(CPair(1.0, Num(2.0))) && Created(s.opts[1], s.xs[1]).y == Num(2.0) && !Parallel(s)
  {
    var st, data := Settings(1000, 0.0, 1.0), [CNum(5.0)] + seq(1000, _ => CPair(1.0, Num(2.0)));
    assert data[1] == CPair(1.0, Num(2.0));
    assert !PositionAgrees(SetData(st, data), 1);
  }

  /** After a pair, a null throws and a number has no x. */
  lemma PairsMustGoOn()
    ensures var st, pairs := Settings(2, 0.0, 1.0), [CPair(1.0, Num(2.0)), CPair(2.0, Num(3.0))];
            && Load(st, pairs + [CNull]) == Thrown
            && Load(st, pairs + [CNum(4.0)]).Loaded? && Load(st, pairs + [CNum(4.0)]).xs[2] == None
  {
    var pairs := [CPair(1.0, Num(2.0)), CPair(2.0, Num(3.0))];
    assert (pairs + [CNull])[2] == CNull;
    assert CNull !in pairs + [CNum(4.0)];
  }

  lemma RemoveParallel(s: State, i: nat)
    requires Parallel(s) && i < |s.xs|
    ensures Parallel(Remove(s, i))
  {
    var t := Remove(s, i);
    forall k | 0 <= k < |t.xs|
      ensures PositionAgrees(t, k)
    {
      assert PositionAgrees(s, if k < i then k else k + 1);
    }
  }

  lemma AddPointParallel(s: State, st: Settings, c: Config, shift: bool)
    requires Parallel(s)
    ensures Parallel(AddPoint(s, st, c, shift))
  {
    var t := AddPoint(s, st, c, false);
    forall k | 0 <= k < |t.xs|
      ensures PositionAgrees(t, k)
    {
      if k < |s.xs| { assert PositionAgrees(s, k); }
    }
    assert Parallel(t);
    if shift {
      RemoveParallel(t, 0);
    }
  }

  lemma UpdateParallel(s: State, i: nat, c: Config)
    requires Parallel(s) && HasPoint(s, i)
    ensures Parallel(Update(s, i, c))
  {
    var t := Update(s, i, c);
    forall k | 0 <= k < |t.xs|
      ensures PositionAgrees(t, k)
    {
      assert PositionAgrees(s, k);
    }
  }

  /** Generating points keeps the arrays and creates exactly the missing points of the window. */
  lemma {:induction false} GenerateEffect(s: State, start: nat, end: nat)
    requires Parallel(s) && start <= end <= |s.xs|
    ensures var t := Generate(s, start, end);
            && Parallel(t) && t.xs == s.xs && t.ys == s.ys && t.opts == s.opts && t.xIncrement == s.xIncrement
            && |t.data| == (if start < end && end > |s.data| then end else |s.data|)
            && (forall k | start <= k < end :: k < |t.data| && t.data[k] == Some(Pt(s.xs[k], s.ys[k])))
            && (forall k | 0 <= k < |t.data| && !(start <= k < end) ::
                  t.data[k] == if k < |s.data| then s.data[k] else None)
    decreases end - start
  {
    if start < end {
      GenerateEffect(s, start, end - 1);
      var u, t := Generate(s, start, end - 1), Generate(s, start, end);
      assert PositionAgrees(u, end - 1);
      forall k | 0 <= k < |t.xs|
        ensures PositionAgrees(t, k)
      {
        assert PositionAgrees(u, k);
      }
    }
  }

  /** No operation that the source can carry out disturbs the arrays, except setting data that
      turbo mode cannot read. */
  predicate Allowed(st: Settings, op: Op) {
    op.OpSetData? ==> |op.configs| <= TurboThreshold(st) || (Uniform(op.configs) && TurboReads(op.configs))
  }

  lemma StepKeepsParallel(s: State, st: Settings, op: Op)
    requires Parallel(s) && Allowed(st, op)
    ensures Parallel(Step(s, st, op))
  {
    hide Parallel;
    match op
    case OpSetData(configs) => SetDataParallel(st, configs);
    case OpAddPoint(c, shift) => AddPointParallel(s, st, c, shift);
    case OpUpdate(i, c) => if HasPoint(s, i) { UpdateParallel(s, i, c); }
    case OpRemove(i) => if HasPoint(s, i) { RemoveParallel(s, i); }
    case OpCropAndGenerate(min, max, crop) =>
      if |s.opts| == |s.xs| {
        var w := VisibleWindow(s, min, max, crop);
        GenerateEffect(s, w.start, w.end);
      }
  }

  function Run(s: State, st: Settings, ops: seq<Op>): State {
    if ops == [] then s else Step(Run(s, st, ops[..|ops| - 1]), st, ops[|ops| - 1])
  }

  /** Over every run: equal lengths, and every created point carries its position's x and y. */
  lemma {:induction false} RunKeepsParallel(s: State, st: Settings, ops: seq<Op>)
    requires Parallel(s) && forall i | 0 <= i < |ops| :: Allowed(st, ops[i])
    ensures Parallel(Run(s, st, ops))
    ensures var t := Run(s, st, ops);
            && |t.xs| == |t.ys| == |t.opts|
            && forall i | 0 <= i < |t.data| && t.data[i].Some? :: t.data[i].value == Pt(t.xs[i], t.ys[i])
  {
    if ops != [] {
      RunKeepsParallel(s, st, ops[..|ops| - 1]);
      StepKeepsParallel(Run(s, st, ops[..|ops| - 1]), st, ops[|ops| - 1]);
    }
    var t := Run(s, st, ops);
    forall i | 0 <= i < |t.data| && t.data[i].Some?
      ensures t.data[i].value == Pt(t.xs[i], t.ys[i])
    {
      assert PositionAgrees(t, i);
    }
  }

  /** Adding with shift from a full window slides it: the oldest position goes, the new one is last. */
  lemma AddWithShift(s: State, st: Settings, c: Config)
    requires Parallel(s) && |s.xs| > 0
    ensures var t := AddPoint(s, st, c, true);
            && |t.xs| == |s.xs|
            && t.xs[..|s.xs| - 1] == s.xs[1..] && t.ys[..|s.xs| - 1] == s.ys[1..]
            && t.opts[..|s.xs| - 1] == s.opts[1..] && t.opts[|s.xs| - 1] == c
            && (|s.data| > 0 ==> t.data == s.data[1..])
  {
  }
}
