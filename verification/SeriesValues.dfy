/** Which x and y the entries of a series get: given ones, and automatic x values in equal steps. */
module SeriesValues {
  import opened Wrappers
  import opened SeriesModel

  predicate HasX(c: Config) {
    c.CPair? || (c.CObj? && c.x.Some?)
  }

  /** How many of the first `n` entries have no x of their own. */
  function Automatic(data: seq<Config>, n: nat): nat
    requires n <= |data|
  {
    if n == 0 then 0 else Automatic(data, n - 1) + if HasX(data[n - 1]) then 0 else 1
  }

  /** The place `k` steps after `start`. */
  function StepsFrom(start: real, interval: real, k: nat): real {
    start + k as real * interval
  }

  lemma OneMoreStep(start: real, interval: real, k: nat)
    ensures StepsFrom(start, interval, k) + interval == StepsFrom(start, interval, k + 1)
    ensures StepsFrom(start, interval, 0) == start
    ensures StepsFrom(start + interval, interval, k) == StepsFrom(start, interval, k + 1)
  {
  }

  lemma {:induction false} AutomaticPrefix(data: seq<Config>, m: nat, n: nat)
    requires n <= m <= |data|
    ensures Automatic(data[..m], n) == Automatic(data, n)
  {
    if n > 0 {
      AutomaticPrefix(data, m, n - 1);
    }
  }

  /** In the normal mode an entry keeps the x and y it gives; without an x it gets the next step. */
  lemma {:induction false} ReadGives(data: seq<Config>, inc: Option<real>, st: Settings, i: nat)
    requires i < |data|
    ensures var p, start := Read(data, inc, st).0[i], if inc.Some? then inc.value else st.pointStart;
            match data[i]
            case CNum(n) => p == Pt(StepsFrom(start, st.pointInterval, Automatic(data, i)), Num(n))
            case CNull => p == Pt(StepsFrom(start, st.pointInterval, Automatic(data, i)), Null)
            case CPair(x, y) => p == Pt(x, y)
            case CObj(x, y) =>
              && p.x == (if x.Some? then x.value else StepsFrom(start, st.pointInterval, Automatic(data, i)))
              && p.y == if y.Some? then y.value else Undef
    decreases |data|
  {
    hide StepsFrom;
    var m := |data| - 1;
    AutomaticPrefix(data, m, i);
    if i < m {
      ReadGives(data[..m], inc, st, i);
      assert data[..m][i] == data[i];
    } else {
      CounterIs(data[..m], inc, st);
      AutomaticPrefix(data, m, m);
      OneMoreStep(if inc.Some? then inc.value else st.pointStart, st.pointInterval, 0);
    }
  }

  /** The counter after reading stands one step after the last automatic x. */
  lemma {:induction false} CounterIs(data: seq<Config>, inc: Option<real>, st: Settings)
    ensures var start, k := (if inc.Some? then inc.value else st.pointStart), Automatic(data, |data|);
            Read(data, inc, st).1 == if k == 0 then inc else Some(StepsFrom(start, st.pointInterval, k))
    decreases |data|
  {
    hide StepsFrom;
    if data != [] {
      var m := |data| - 1;
      CounterIs(data[..m], inc, st);
      AutomaticPrefix(data, m, m);
      var start := if inc.Some? then inc.value else st.pointStart;
      OneMoreStep(start, st.pointInterval, Automatic(data, m));
      OneMoreStep(start, st.pointInterval, 0);
    }
  }

  lemma {:induction false} TurboXIs(st: Settings, i: nat)
    ensures TurboX(st, i) == StepsFrom(st.pointStart, st.pointInterval, i)
  {
    hide StepsFrom;
    if i == 0 {
      OneMoreStep(st.pointStart, st.pointInterval, 0);
    } else {
      TurboXIs(st, i - 1);
      OneMoreStep(st.pointStart, st.pointInterval, i - 1);
    }
  }

  predicate PlainNumbers(data: seq<Config>) {
    forall i | 0 <= i < |data| :: data[i].CNum? || data[i].CNull?
  }

  lemma {:induction false} PlainAreAutomatic(data: seq<Config>, n: nat)
    requires PlainNumbers(data) && n <= |data|
    ensures Automatic(data, n) == n
  {
    if n > 0 {
      PlainAreAutomatic(data, n - 1);
    }
  }

  lemma {:induction false} FirstOfPlain(data: seq<Config>)
    requires PlainNumbers(data)
    ensures FirstConfig(data).Some? ==> FirstConfig(data).value.CNum?
    ensures (exists i | 0 <= i < |data| :: data[i].CNum?) ==> FirstConfig(data).Some?
  {
    if data != [] && data[0].CNull? {
      FirstOfPlain(data[1..]);
      forall i | 0 <= i < |data| && data[i].CNum?
        ensures exists k | 0 <= k < |data[1..]| :: data[1..][k].CNum?
      {
        assert data[1..][i - 1] == data[i];
      }
    }
  }

  /** What `setData` stores for entries in the normal mode. */
  lemma SetDataStores(st: Settings, data: seq<Config>, i: nat)
    requires |data| <= TurboThreshold(st) && i < |data|
    ensures var s := SetData(st, data);
            && |s.xs| == |s.ys| == |data|
            && s.xs[i] == (match data[i]
                           case CPair(x, _) => x
                           case CObj(Some(x), _) => x
                           case _ => StepsFrom(st.pointStart, st.pointInterval, Automatic(data, i)))
            && s.ys[i] == match data[i]
                          case CNum(n) => Num(n)
                          case CNull => Null
                          case CPair(_, y) => y
                          case CObj(_, y) => if y.Some? then y.value else Undef
  {
    hide StepsFrom, Automatic;
    ReadGives(data, None, st, i);
  }

  /** Plain numbers are stored alike in the normal and in turbo mode. */
  lemma ModesAgree(st: Settings, turbo: Settings, data: seq<Config>)
    requires PlainNumbers(data) && exists i | 0 <= i < |data| :: data[i].CNum?
    requires st.pointStart == turbo.pointStart && st.pointInterval == turbo.pointInterval
    requires TurboThreshold(turbo) < |data| <= TurboThreshold(st)
    ensures SetData(st, data) == SetData(turbo, data)
  {
    hide StepsFrom, Read, TurboX;
    FirstOfPlain(data);
    var s, t := SetData(st, data), SetData(turbo, data);
    forall i | 0 <= i < |data|
      ensures s.xs[i] == t.xs[i] && s.ys[i] == t.ys[i]
    {
      SetDataStores(st, data, i);
      PlainAreAutomatic(data, i);
      TurboXIs(turbo, i);
    }
    assert s.xs == t.xs && s.ys == t.ys;
    CounterIs(data, None, st);
    PlainAreAutomatic(data, |data|);
    TurboXIs(turbo, |data|);
  }

  /** A point added after `setData` goes on where the automatic x values stopped. */
  lemma AddPointGoesOn(st: Settings, data: seq<Config>, c: Config)
    requires |data| <= TurboThreshold(st) && !HasX(c)
    ensures var s := SetData(st, data);
            var t := AddPoint(s, st, c, false);
            && t.xs == s.xs + [StepsFrom(st.pointStart, st.pointInterval, Automatic(data, |data|))]
            && t.xIncrement == Some(StepsFrom(st.pointStart, st.pointInterval, Automatic(data, |data|) + 1))
  {
    hide StepsFrom, SetData, Read, Automatic;
    SetDataCounter(st, data);
    CounterIs(data, None, st);
    OneMoreStep(st.pointStart, st.pointInterval, Automatic(data, |data|));
    OneMoreStep(st.pointStart, st.pointInterval, 0);
    hide AddPoint;
    AddAutomatic(SetData(st, data), st, c);
  }

  lemma AddAutomatic(s: State, st: Settings, c: Config)
    requires !HasX(c)
    ensures var t, x := AddPoint(s, st, c, false), if s.xIncrement.Some? then s.xIncrement.value else st.pointStart;
            t.xs == s.xs + [x] && t.xIncrement == Some(x + st.pointInterval)
  {
  }

  lemma SetDataCounter(st: Settings, data: seq<Config>)
    requires |data| <= TurboThreshold(st)
    ensures SetData(st, data).xIncrement == Read(data, None, st).1 && |SetData(st, data).xs| == |data|
  {
  }

  /** What `addPoint` stores at the end. */
  lemma AddPointStores(s: State, st: Settings, c: Config)
    ensures var t := AddPoint(s, st, c, false);
            && |t.xs| == |s.xs| + 1 && |t.ys| == |s.ys| + 1 && t.opts == s.opts + [c] && t.data == s.data
            && t.xs[..|s.xs|] == s.xs && t.ys[..|s.ys|] == s.ys
            && t.ys[|s.ys|] == (match c
                                case CNum(n) => Num(n)
                                case CNull => Null
                                case CPair(_, y) => y
                                case CObj(_, y) => if y.Some? then y.value else Undef)
            && match c
               case CPair(x, _) => t.xs[|s.xs|] == x && t.xIncrement == s.xIncrement
               case CObj(Some(x), _) => t.xs[|s.xs|] == x && t.xIncrement == s.xIncrement
               case _ =>
                 && t.xs[|s.xs|] == (if s.xIncrement.Some? then s.xIncrement.value else st.pointStart)
                 && t.xIncrement == Some(t.xs[|s.xs|] + st.pointInterval)
  {
  }

  /** What `update` stores at the position of the point: what the options give, and otherwise what was there. */
  lemma UpdateStores(s: State, i: nat, c: Config)
    requires Parallel(s) && HasPoint(s, i)
    ensures var t := Update(s, i, c);
            && t.opts == s.opts[i := c] && |t.xs| == |s.xs| && |t.ys| == |s.ys| && |t.data| == |s.data|
            && (forall k | 0 <= k < |s.xs| && k != i :: t.xs[k] == s.xs[k] && t.ys[k] == s.ys[k])
            && (forall k | 0 <= k < |s.data| && k != i :: t.data[k] == s.data[k])
            && t.xs[i] == (match c case CPair(x, _) => x case CObj(Some(x), _) => x case _ => s.xs[i])
            && t.ys[i] == (match c
                           case CNum(n) => Num(n)
                           case CNull => Null
                           case CPair(_, y) => y
                           case CObj(_, y) => if y.Some? then y.value else s.ys[i])
            && t.data[i] == Some(Pt(t.xs[i], t.ys[i]))
  {
    assert PositionAgrees(s, i);
  }

  /** Removing takes out one position of every array and moves the later ones up. */
  lemma RemoveMovesUp(s: State, i: nat, k: nat)
    requires Parallel(s) && i < |s.xs| && k < |s.xs| - 1
    ensures var t, was := Remove(s, i), if k < i then k else k + 1;
            && |t.xs| == |s.xs| - 1 && t.xs[k] == s.xs[was] && t.ys[k] == s.ys[was] && t.opts[k] == s.opts[was]
            && (k < |t.data| <==> was < |s.data|) && (k < |t.data| ==> t.data[k] == s.data[was])
  {
  }
}
