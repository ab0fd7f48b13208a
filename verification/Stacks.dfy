/** Stacking as highstock.src.js does it: totals are collected in `getSeriesExtremes`, reset in
    `setScale` and consumed by each series in `translate`. */
module Stacks {
  import opened Wrappers
  import opened StackModel

  datatype StackPoint = StackPoint(x: int, y: Option<real>)

  datatype Stacking = NoStacking | Normal | Percent

  /** A series of a y axis; `index` is its place in the whole chart. */
  datatype StackSeries = StackSeries(index: int, key: string, stacking: Stacking, threshold: real, visible: bool,
                                     points: seq<StackPoint>)

  /** How a point is shown: as one of the series taken for the last, from which threshold, and in percent. */
  datatype Look = Look(isLast: bool, threshold: real, percent: bool)

  /** What `translate` records for a point, in axis values. */
  datatype Bar = Unstacked | Bar(bottom: real, top: real, percentage: real, stackTotal: real)

  predicate IsStacked(s: StackSeries) {
    s.visible && s.stacking != NoStacking
  }

  function Contribute(p: StackPoint, s: StackSeries): Contribution {
    var y := match p.y case Some(v) => v case None => 0.0;
    Contribution(Cell(y < s.threshold, s.key, p.x), y, p.y.Some?)
  }

  /** What the points of a stacked series add; other series add nothing. */
  function Contributions(s: StackSeries): (r: seq<Contribution>)
    ensures |r| == if IsStacked(s) then |s.points| else 0
    ensures forall i | 0 <= i < |r| :: r[i] == Contribute(s.points[i], s)
  {
    if IsStacked(s) then seq(|s.points|, i requires 0 <= i < |s.points| => Contribute(s.points[i], s)) else []
  }

  /** The contributions of the series, in order. */
  function AllContributions(series: seq<StackSeries>): seq<Contribution> {
    if series == [] then [] else AllContributions(series[..|series| - 1]) + Contributions(series[|series| - 1])
  }

  ghost predicate HasNumber(cs: seq<Contribution>, c: Cell) {
    exists i | 0 <= i < |cs| :: cs[i].cell == c && cs[i].numeric
  }

  /** The running totals after the contributions `cs`. */
  ghost predicate SumsOf(cs: seq<Contribution>, sums: map<Cell, real>) {
    && (forall c :: c in sums <==> HasNumber(cs, c))
    && (forall c | c in sums :: sums[c] == Sum(cs, c))
    && (forall c | c !in sums :: Sum(cs, c) == 0.0)
  }

  lemma NoSums()
    ensures SumsOf([], map[])
  {
  }

  function AddTo(sums: map<Cell, real>, k: Contribution): map<Cell, real> {
    if k.numeric then sums[k.cell := if k.cell in sums then sums[k.cell] + k.y else k.y] else sums
  }

  lemma SumsStep(cs: seq<Contribution>, k: Contribution, sums: map<Cell, real>)
    requires SumsOf(cs, sums) && (k.numeric || k.y == 0.0)
    ensures SumsOf(cs + [k], AddTo(sums, k))
  {
    var next := cs + [k];
    assert next[..|cs|] == cs;
    forall c
      ensures HasNumber(next, c) <==> HasNumber(cs, c) || (k.numeric && c == k.cell)
    {
      if HasNumber(cs, c) {
        var i :| 0 <= i < |cs| && cs[i].cell == c && cs[i].numeric;
        assert next[i] == cs[i];
      }
      if k.numeric && c == k.cell {
        assert next[|cs|] == k;
      }
    }
  }

  /** The series that `translate` takes for the last one: the axis-level position of the last
      visible series is compared with the chart-level index. */
  function LastVisible(series: seq<StackSeries>, n: nat): int
    requires n <= |series|
  {
    if n == 0 then -1 else if series[n - 1].visible then n - 1 else LastVisible(series, n - 1)
  }

  /** One point of `translate`. */
  function MakeBar(cum: real, total: real, y: real, look: Look): Bar {
    var bottom := cum - y;
    var top := bottom + y;
    var shown := if look.isLast then look.threshold else bottom;
    if look.percent then Bar(Share(shown, total), Share(top, total), Share(y, total), total)
    else Bar(shown, top, Share(y, total), total)
  }

  class StackItem {
    var total: real
    var cum: real

    constructor ()
      ensures total == 0.0 && cum == 0.0
    {
      total, cum := 0.0, 0.0;
    }

    method SetTotal(total: real)
      modifies this
      ensures this.total == total && this.cum == total
    {
      this.total := total;
      this.cum := total;
    }
  }

  function LookOf(s: StackSeries, last: int): Look {
    Look(s.index == last, s.threshold, s.stacking.Percent?)
  }

  function LooksOf(s: StackSeries, last: int): (r: seq<Look>)
    ensures |r| == |Contributions(s)|
  {
    seq(|Contributions(s)|, _ => LookOf(s, last))
  }

  /** How each point of `AllContributions` is shown. */
  function Looks(series: seq<StackSeries>, last: int): (r: seq<Look>)
    ensures |r| == |AllContributions(series)|
  {
    if series == [] then [] else Looks(series[..|series| - 1], last) + LooksOf(series[|series| - 1], last)
  }

  /** What the n-th of the points `cs` records, when the stacks held `cums` at the start. */
  function BarAt(cs: seq<Contribution>, looks: seq<Look>, cums: map<Cell, real>, totals: map<Cell, real>, n: nat): Bar
    requires n < |cs| == |looks| && cums.Keys == totals.Keys
  {
    var c := cs[n].cell;
    if c in cums then MakeBar(cums[c] - Sum(cs[..n], c), totals[c], cs[n].y, looks[n]) else Unstacked
  }

  ghost predicate BarsOf(cs: seq<Contribution>, looks: seq<Look>, cums: map<Cell, real>, totals: map<Cell, real>,
                         bars: seq<Bar>) {
    && |bars| == |cs| == |looks| && cums.Keys == totals.Keys
    && forall n | 0 <= n < |cs| :: bars[n] == BarAt(cs, looks, cums, totals, n)
  }

  /** What is left in the stacks. */
  function Consumed(cums: map<Cell, real>, cs: seq<Contribution>): map<Cell, real> {
    map c | c in cums :: cums[c] - Sum(cs, c)
  }

  lemma ConsumedTwice(cums: map<Cell, real>, u: seq<Contribution>, v: seq<Contribution>)
    ensures Consumed(Consumed(cums, u), v) == Consumed(cums, u + v)
    ensures Consumed(cums, []) == cums
  {
    forall c
      ensures Sum(u + v, c) == Sum(u, c) + Sum(v, c)
    {
      SumConcat(u, v, c);
    }
  }

  lemma NoBars(cums: map<Cell, real>, totals: map<Cell, real>)
    requires cums.Keys == totals.Keys
    ensures BarsOf([], [], cums, totals, [])
  {
  }

  lemma SumOne(k: Contribution)
    ensures forall c :: Sum([k], c) == if c == k.cell then k.y else 0.0
  {
    assert [k][..0] == [];
  }

  lemma BarsAppend(u: seq<Contribution>, v: seq<Contribution>, f: seq<Look>, g: seq<Look>, cums: map<Cell, real>,
                   totals: map<Cell, real>, bars: seq<Bar>, more: seq<Bar>)
    requires BarsOf(u, f, cums, totals, bars)
    requires BarsOf(v, g, Consumed(cums, u), totals, more)
    ensures BarsOf(u + v, f + g, cums, totals, bars + more)
  {
    hide MakeBar, Sum;
    forall n | 0 <= n < |u + v|
      ensures (bars + more)[n] == BarAt(u + v, f + g, cums, totals, n)
    {
      if n < |u| {
        assert (u + v)[..n] == u[..n];
      } else {
        var i := n - |u|;
        assert (u + v)[..n] == u + v[..i];
        SumConcat(u, v[..i], v[i].cell);
        assert more[i] == BarAt(v, g, Consumed(cums, u), totals, i);
      }
    }
  }

  /** What a redraw shows for a point. A null in a stack without numbers finds what an earlier redraw
      has left there, if anything. */
  ghost function Shown(cs: seq<Contribution>, looks: seq<Look>, left: map<Cell, real>, n: nat): Bar
    requires n < |cs| == |looks|
  {
    var c := cs[n].cell;
    if HasNumber(cs, c) then MakeBar(Top(cs, n), Sum(cs, c), cs[n].y, looks[n])
    else if c in left then MakeBar(left[c], left[c], cs[n].y, looks[n])
    else Unstacked
  }

  /** The stacks of the cells of `sums` hold its values as totals and nothing is consumed. */
  ghost predicate Full(sums: map<Cell, real>, totals: map<Cell, real>, cums: map<Cell, real>) {
    forall c | c in sums :: c in totals && totals[c] == sums[c] && c in cums && cums[c] == sums[c]
  }

  lemma FullMore(sums: map<Cell, real>, left: map<Cell, real>, totals: map<Cell, real>, cums: map<Cell, real>, c: Cell, y: real)
    requires Full(sums, totals, cums) && totals == left + sums
    ensures Full(sums[c := y], totals[c := y], cums[c := y]) && totals[c := y] == left + sums[c := y]
  {
  }

  class StackAxis {
    var stacks: map<Cell, StackItem>

    /** Different cells have different items. */
    ghost predicate Valid()
      reads this
    {
      forall c, d | c in stacks && d in stacks && c != d :: stacks[c] != stacks[d]
    }

    function Cums(): (r: map<Cell, real>)
      reads this, stacks.Values
      ensures r.Keys == stacks.Keys
    {
      map c | c in stacks :: stacks[c].cum
    }

    function Totals(): (r: map<Cell, real>)
      reads this, stacks.Values
      ensures r.Keys == stacks.Keys
    {
      map c | c in stacks :: stacks[c].total
    }

    ghost predicate Holds(sums: map<Cell, real>)
      reads this, stacks.Values
    {
      Full(sums, Totals(), Cums())
    }

    constructor ()
      ensures Valid() && stacks == map[]
    {
      stacks := map[];
    }

    /** Every cell keeps its item, and a new cell gets a new one. */
    twostate predicate KeepsItems()
      reads this
    {
      forall c | c in stacks :: (c in old(stacks) && stacks[c] == old(stacks[c])) || fresh(stacks[c])
    }

    method SetTotal(c: Cell, y: real)
      requires Valid() && c in stacks
      modifies stacks[c]
      ensures Valid()
      ensures Totals() == old(Totals())[c := y] && Cums() == old(Cums())[c := y]
    {
      stacks[c].SetTotal(y);
    }

    method Put(c: Cell, item: StackItem)
      requires Valid() && c !in stacks && item !in stacks.Values && item.total == 0.0 && item.cum == 0.0
      modifies this`stacks
      ensures Valid() && stacks == old(stacks)[c := item]
      ensures Totals() == old(Totals())[c := 0.0] && Cums() == old(Cums())[c := 0.0]
    {
      stacks := stacks[c := item];
    }

    method Create(c: Cell)
      requires Valid() && c !in stacks
      modifies this`stacks
      ensures Valid() && KeepsItems() && c in stacks && fresh(stacks[c])
      ensures Totals() == old(Totals())[c := 0.0] && Cums() == old(Cums())[c := 0.0]
      ensures forall d | d in old(stacks) :: d in stacks && stacks[d] == old(stacks[d])
    {
      hide Totals, Cums, Valid;
      var item := new StackItem();
      Put(c, item);
    }

    /** Creates the item of a cell on demand and sets its total. */
    method AddTotal(c: Cell, y: real)
      requires Valid()
      modifies this`stacks, stacks.Values
      ensures Valid() && KeepsItems()
      ensures Totals() == old(Totals())[c := y] && Cums() == old(Cums())[c := y]
    {
      hide Totals, Cums, Valid;
      if c !in stacks {
        Create(c);
      }
      SetTotal(c, y);
    }

    /** One turn of the point loop; `left` is what the axis held before the collection began. */
    method CollectPoint(k: Contribution, given: map<Cell, real>, ghost before: seq<Contribution>, ghost left: map<Cell, real>)
      returns (sums: map<Cell, real>)
      requires Valid() && SumsOf(before, given) && Holds(given) && (k.numeric || k.y == 0.0)
      requires Totals() == left + given
      modifies this`stacks, stacks.Values
      ensures Valid() && SumsOf(before + [k], sums) && Holds(sums)
      ensures Totals() == left + sums
      ensures KeepsItems()
    {
      hide SumsOf, Totals, Cums, Valid, Full;
      SumsStep(before, k, given);
      sums := given;
      if k.numeric {
        var y := if k.cell in sums then sums[k.cell] + k.y else k.y;
        FullMore(sums, left, Totals(), Cums(), k.cell, y);
        sums := sums[k.cell := y];
        AddTotal(k.cell, y);
      }
    }

    /** The point loop of `getSeriesExtremes`; `sums` are its running totals. */
    method CollectSeries(s: StackSeries, given: map<Cell, real>, ghost before: seq<Contribution>, ghost left: map<Cell, real>)
      returns (sums: map<Cell, real>)
      requires Valid() && SumsOf(before, given) && Holds(given) && IsStacked(s)
      requires Totals() == left + given
      modifies this`stacks, stacks.Values
      ensures Valid() && SumsOf(before + Contributions(s), sums) && Holds(sums)
      ensures Totals() == left + sums
      ensures KeepsItems()
    {
      hide SumsOf, Holds, Totals;
      sums := given;
      ghost var cs := Contributions(s);
      assert before + cs[..0] == before;
      for i := 0 to |s.points|
        invariant Valid() && SumsOf(before + cs[..i], sums) && Holds(sums)
        invariant Totals() == left + sums
        invariant KeepsItems()
      {
        assert before + cs[..i + 1] == before + cs[..i] + [cs[i]];
        sums := CollectPoint(Contribute(s.points[i], s), sums, before + cs[..i], left);
      }
      assert cs[..|s.points|] == cs;
    }

    /** The stacking part of `getSeriesExtremes`: hidden and unstacked series are passed over. */
    method GetSeriesExtremes(series: seq<StackSeries>) returns (ghost sums: map<Cell, real>)
      requires Valid()
      modifies this`stacks, stacks.Values
      ensures Valid() && SumsOf(AllContributions(series), sums) && Holds(sums)
      ensures Totals() == old(Totals()) + sums
      ensures KeepsItems()
    {
      hide SumsOf, Totals;
      var collected: map<Cell, real> := map[];
      NoSums();
      ghost var left := Totals();
      assert left + collected == left;
      for k := 0 to |series|
        invariant Valid() && SumsOf(AllContributions(series[..k]), collected) && Holds(collected)
        invariant Totals() == left + collected
        invariant KeepsItems()
      {
        AllContributionsStep(series, k);
        if series[k].visible && series[k].stacking != NoStacking {
          collected := CollectSeries(series[k], collected, AllContributions(series[..k]), left);
        }
      }
      assert series[..|series|] == series;
      sums := collected;
    }

    /** The end of `setScale`: every stack is full again. */
    method ResetCum()
      requires Valid()
      modifies stacks.Values
      ensures Totals() == old(Totals()) && Cums() == Totals()
    {
      var todo := stacks.Keys;
      while todo != {}
        invariant todo <= stacks.Keys
        invariant forall c | c in stacks :: stacks[c].total == old(stacks[c].total)
        invariant forall c | c in stacks && c !in todo :: stacks[c].cum == stacks[c].total
        decreases |todo|
      {
        var c :| c in todo;
        stacks[c].cum := stacks[c].total;
        todo := todo - {c};
      }
    }

    /** One point takes its share off the top of its stack. */
    method Consume(k: Contribution, look: Look) returns (bar: Bar)
      requires Valid()
      modifies if k.cell in stacks then {stacks[k.cell]} else {}
      ensures Totals() == old(Totals()) && Cums() == Consumed(old(Cums()), [k])
      ensures BarsOf([k], [look], old(Cums()), old(Totals()), [bar])
    {
      hide MakeBar;
      if k.cell in stacks {
        var item := stacks[k.cell];
        bar := MakeBar(item.cum, item.total, k.y, look);
        item.cum := item.cum - k.y;
      } else {
        bar := Unstacked;
      }
      SumOne(k);
      assert [k][..0] == [];
    }

    /** The stacking part of `translate` for one stacked series. */
    method TranslateSeries(s: StackSeries, last: int) returns (bars: seq<Bar>)
      requires Valid() && IsStacked(s)
      modifies stacks.Values
      ensures Totals() == old(Totals())
      ensures Cums() == Consumed(old(Cums()), Contributions(s))
      ensures BarsOf(Contributions(s), LooksOf(s, last), old(Cums()), old(Totals()), bars)
    {
      hide BarsOf, Consumed, Cums, Totals;
      bars := [];
      ghost var cs, looks := Contributions(s), LooksOf(s, last);
      ghost var cums, totals := Cums(), Totals();
      ConsumedTwice(cums, [], []);
      NoBars(cums, totals);
      assert cs[..0] == [] && looks[..0] == [];
      var isLast := s.index == last;
      for i := 0 to |s.points|
        invariant Totals() == totals && Cums() == Consumed(cums, cs[..i])
        invariant BarsOf(cs[..i], looks[..i], cums, totals, bars)
      {
        var k, look := Contribute(s.points[i], s), Look(isLast, s.threshold, s.stacking == Percent);
        assert cs[..i + 1] == cs[..i] + [k];
        assert looks[..i + 1] == looks[..i] + [look];
        ConsumedTwice(cums, cs[..i], [k]);
        var bar := Consume(k, look);
        BarsAppend(cs[..i], [k], looks[..i], [look], cums, totals, bars, [bar]);
        bars := bars + [bar];
      }
      assert cs[..|s.points|] == cs && looks[..|s.points|] == looks;
    }

    /** Translating the series in order; the bars are those of the stacked ones. */
    method TranslateAll(series: seq<StackSeries>) returns (bars: seq<Bar>)
      requires Valid()
      modifies stacks.Values
      ensures Totals() == old(Totals())
      ensures Cums() == Consumed(old(Cums()), AllContributions(series))
      ensures BarsOf(AllContributions(series), Looks(series, LastVisible(series, |series|)),
                     old(Cums()), old(Totals()), bars)
    {
      hide BarAt, Consumed, Cums, Totals;
      bars := [];
      var last := FindLast(series);
      ConsumedTwice(Cums(), [], []);
      for k := 0 to |series|
        invariant Totals() == old(Totals())
        invariant Cums() == Consumed(old(Cums()), AllContributions(series[..k]))
        invariant BarsOf(AllContributions(series[..k]), Looks(series[..k], last), old(Cums()), old(Totals()), bars)
      {
        AllContributionsStep(series, k);
        LooksStep(series, last, k);
        if series[k].visible && series[k].stacking != NoStacking {
          ghost var prefix, mine := AllContributions(series[..k]), Contributions(series[k]);
          var more := TranslateSeries(series[k], last);
          BarsAppend(prefix, mine, Looks(series[..k], last), LooksOf(series[k], last), old(Cums()), old(Totals()), bars, more);
          ConsumedTwice(old(Cums()), prefix, mine);
          bars := bars + more;
        }
      }
      assert series[..|series|] == series;
    }

    /** `while (i--)`: the last visible series of the axis. */
    static method FindLast(series: seq<StackSeries>) returns (last: int)
      ensures last == LastVisible(series, |series|)
    {
      last := |series| - 1;
      while last >= 0 && !series[last].visible
        invariant -1 <= last < |series|
        invariant LastVisible(series, |series|) == LastVisible(series, last + 1)
      {
        last := last - 1;
      }
    }

    /** One redraw: totals are collected, stacks are filled and consumed. */
    method Redraw(series: seq<StackSeries>) returns (bars: seq<Bar>)
      requires Valid()
      modifies this`stacks, stacks.Values
      ensures Valid()
      ensures var cs, looks := AllContributions(series), Looks(series, LastVisible(series, |series|));
              && |bars| == |cs|
              && forall n | 0 <= n < |cs| :: bars[n] == Shown(cs, looks, old(Totals()), n)
    {
      hide MakeBar, SumsOf, Cums, Totals, Holds, Sum, Consumed, Shown, BarAt;
      ghost var left := Totals();
      ghost var sums := GetSeriesExtremes(series);
      ResetCum();
      bars := TranslateAll(series);
      ghost var cs, looks := AllContributions(series), Looks(series, LastVisible(series, |series|));
      NullsAreZero(series);
      forall n | 0 <= n < |cs|
        ensures bars[n] == Shown(cs, looks, left, n)
      {
        FullStacksShow(cs, looks, left, sums, n);
      }
    }
  }

  /** In stacks that hold the sums on top of what was left, each bar is the one shown. */
  lemma FullStacksShow(cs: seq<Contribution>, looks: seq<Look>, left: map<Cell, real>, sums: map<Cell, real>, n: nat)
    requires n < |cs| == |looks| && SumsOf(cs, sums) && forall i | 0 <= i < |cs| :: cs[i].numeric || cs[i].y == 0.0
    ensures BarAt(cs, looks, left + sums, left + sums, n) == Shown(cs, looks, left, n)
  {
    hide MakeBar, Sum;
    var c := cs[n].cell;
    AboveStep(cs, c, n);
    if !HasNumber(cs, c) {
      NothingAdded(cs, c, n);
    }
  }

  lemma {:induction false} NothingAdded(cs: seq<Contribution>, c: Cell, n: nat)
    requires n <= |cs| && !HasNumber(cs, c) && forall i | 0 <= i < |cs| :: cs[i].numeric || cs[i].y == 0.0
    ensures Sum(cs[..n], c) == 0.0
  {
    if n > 0 {
      NothingAdded(cs, c, n - 1);
      assert cs[..n][..n - 1] == cs[..n - 1];
    }
  }

  lemma {:induction false} NullsAreZero(series: seq<StackSeries>)
    ensures forall i | 0 <= i < |AllContributions(series)| ::
              AllContributions(series)[i].numeric || AllContributions(series)[i].y == 0.0
  {
    if series != [] {
      NullsAreZero(series[..|series| - 1]);
    }
  }

  lemma AllContributionsStep(series: seq<StackSeries>, k: nat)
    requires k < |series|
    ensures AllContributions(series[..k + 1]) == AllContributions(series[..k]) + Contributions(series[k])
    ensures !IsStacked(series[k]) ==> AllContributions(series[..k + 1]) == AllContributions(series[..k])
  {
    assert series[..k + 1][..k] == series[..k];
  }

  lemma LooksStep(series: seq<StackSeries>, last: int, k: nat)
    requires k < |series|
    ensures Looks(series[..k + 1], last) == Looks(series[..k], last) + LooksOf(series[k], last)
    ensures !IsStacked(series[k]) ==> Looks(series[..k + 1], last) == Looks(series[..k], last)
  {
    assert series[..k + 1][..k] == series[..k];
  }

  // ----- what is shown

  ghost predicate ZeroThresholds(series: seq<StackSeries>) {
    forall k | 0 <= k < |series| && IsStacked(series[k]) :: series[k].threshold == 0.0
  }

  /** With threshold 0 every stack holds values of one sign, and the looks have the threshold too. */
  lemma {:induction false} ZeroThresholdIsSigned(series: seq<StackSeries>, last: int)
    requires ZeroThresholds(series)
    ensures Signed(AllContributions(series))
    ensures forall n | 0 <= n < |Looks(series, last)| :: Looks(series, last)[n].threshold == 0.0
  {
    if series != [] {
      var front := series[..|series| - 1];
      assert forall k | 0 <= k < |front| :: front[k] == series[k];
      ZeroThresholdIsSigned(front, last);
    }
  }

  /** The bar that shows exactly the interval of a point, or its share of the whole. */
  function IntervalBar(cs: seq<Contribution>, n: nat, percent: bool): Bar
    requires n < |cs|
  {
    var total := Sum(cs, cs[n].cell);
    if percent then Bar(Share(Bottom(cs, n), total), Share(Top(cs, n), total), Share(cs[n].y, total), total)
    else Bar(Bottom(cs, n), Top(cs, n), Share(cs[n].y, total), total)
  }

  /** Is point `n` drawn down to the threshold although a later point adds to its stack? */
  ghost predicate DrawnOver(cs: seq<Contribution>, looks: seq<Look>, n: nat)
    requires n < |cs| == |looks|
  {
    looks[n].isLast && exists m | n < m < |cs| :: cs[m].cell == cs[n].cell && cs[m].y != 0.0
  }

  lemma ShownInterval(cs: seq<Contribution>, looks: seq<Look>, left: map<Cell, real>, n: nat)
    requires Signed(cs) && n < |cs| == |looks| && cs[n].numeric && looks[n].threshold == 0.0
    ensures Shown(cs, looks, left, n) == IntervalBar(cs, n, looks[n].percent) <==> !DrawnOver(cs, looks, n)
  {
    hide Sum, Share, Above;
    var c := cs[n].cell;
    assert HasNumber(cs, c);
    AboveStep(cs, c, n);
    LastSeriesRule(cs, n);
    WholeIsAbove(cs, c);
    AboveShrinks(cs, c, 0, n + 1);
    AboveShrinks(cs, c, n + 1, |cs|);
    SameShare(Bottom(cs, n), Sum(cs, c));
  }

  lemma SameShare(bottom: real, total: real)
    requires total == 0.0 ==> bottom == 0.0
    ensures Share(0.0, total) == Share(bottom, total) <==> bottom == 0.0
  {
    ShareAdds(0.0, 0.0, total);
    if total != 0.0 && bottom != 0.0 {
      var q := bottom * 100.0 / total;
      assert q * total == bottom * 100.0;
    }
  }

  /** The bars of a redraw at threshold 0 show the intervals that tile the stacks exactly when no point
      of what is taken for the last series has a later point above zero in its stack. */
  lemma BarsAreIntervals(series: seq<StackSeries>, left: map<Cell, real>)
    requires ZeroThresholds(series)
    ensures var cs, looks := AllContributions(series), Looks(series, LastVisible(series, |series|));
            (forall n | 0 <= n < |cs| && cs[n].numeric :: Shown(cs, looks, left, n) == IntervalBar(cs, n, looks[n].percent))
            <==> forall n | 0 <= n < |cs| && cs[n].numeric :: !DrawnOver(cs, looks, n)
  {
    hide Shown, IntervalBar, DrawnOver, Signed;
    var cs, looks := AllContributions(series), Looks(series, LastVisible(series, |series|));
    ZeroThresholdIsSigned(series, LastVisible(series, |series|));
    forall n | 0 <= n < |cs| && cs[n].numeric
      ensures Shown(cs, looks, left, n) == IntervalBar(cs, n, looks[n].percent) <==> !DrawnOver(cs, looks, n)
    {
      ShownInterval(cs, looks, left, n);
    }
  }

  // ----- when the last series is the last series

  /** Every visible series has its place in the chart for its place on the axis. */
  ghost predicate IndicesMatch(series: seq<StackSeries>) {
    forall k | 0 <= k < |series| && series[k].visible :: series[k].index == k
  }

  ghost predicate DistinctX(s: StackSeries) {
    forall i, j | 0 <= i < j < |s.points| :: s.points[i].x != s.points[j].x
  }

  lemma {:induction false} NoneIsLast(series: seq<StackSeries>, last: int)
    requires forall k | 0 <= k < |series| && series[k].visible :: series[k].index != last
    ensures forall n | 0 <= n < |Looks(series, last)| :: !Looks(series, last)[n].isLast
  {
    if series != [] {
      NoneIsLast(series[..|series| - 1], last);
    }
  }

  /** The points before and those of the last visible series are all there are. */
  lemma {:induction false} UpToLast(series: seq<StackSeries>, flag: int)
    ensures var last := LastVisible(series, |series|);
            && -1 <= last < |series| && (last >= 0 ==> series[last].visible)
            && (last < 0 ==> AllContributions(series) == [])
            && (last >= 0 ==>
                  && AllContributions(series) == AllContributions(series[..last]) + Contributions(series[last])
                  && Looks(series, flag) == Looks(series[..last], flag) + LooksOf(series[last], flag))
  {
    hide Contributions, LooksOf, AllContributions, Looks, LastVisible;
    SeriesUnfold(series, flag);
    if series != [] {
      var front, s := series[..|series| - 1], series[|series| - 1];
      if !s.visible {
        UpToLast(front, flag);
        var last := LastVisible(front, |front|);
        if last >= 0 {
          assert front[..last] == series[..last];
        }
      }
    }
  }

  lemma SeriesUnfold(series: seq<StackSeries>, flag: int)
    ensures series == [] ==> LastVisible(series, 0) == -1 && AllContributions(series) == []
    ensures series != [] ==>
              var front, s := series[..|series| - 1], series[|series| - 1];
              && AllContributions(series) == AllContributions(front) + Contributions(s)
              && Looks(series, flag) == Looks(front, flag) + LooksOf(s, flag)
              && LastVisible(series, |series|) == (if s.visible then |front| else LastVisible(front, |front|))
              && (!s.visible ==> AllContributions(series) == AllContributions(front) && Looks(series, flag) == Looks(front, flag))
  {
    if series != [] {
      LastOfFront(series, |series| - 1);
    }
  }

  lemma {:induction false} LastOfFront(series: seq<StackSeries>, n: nat)
    requires n < |series|
    ensures LastVisible(series, n) == LastVisible(series[..|series| - 1], n)
  {
    if n > 0 {
      LastOfFront(series, n - 1);
    }
  }

  /** On the only y axis of a chart of stacked series, where index and place agree, the bars are right,
      provided no series has two points at one x. */
  lemma MatchingIndicesAreRight(series: seq<StackSeries>, left: map<Cell, real>)
    requires ZeroThresholds(series) && IndicesMatch(series)
    requires forall k | 0 <= k < |series| :: DistinctX(series[k])
    ensures var cs, looks := AllContributions(series), Looks(series, LastVisible(series, |series|));
            forall n | 0 <= n < |cs| && cs[n].numeric :: Shown(cs, looks, left, n) == IntervalBar(cs, n, looks[n].percent)
  {
    hide Shown, IntervalBar, DrawnOver, AllContributions, Looks, LastVisible;
    var last := LastVisible(series, |series|);
    var cs, looks := AllContributions(series), Looks(series, last);
    UpToLast(series, last);
    if last >= 0 {
      NoneIsLast(series[..last], last);
      forall n | 0 <= n < |cs| && cs[n].numeric
        ensures !DrawnOver(cs, looks, n)
      {
        LastIsNotDrawnOver(AllContributions(series[..last]), Looks(series[..last], last), series[last], last, n);
      }
    }
    BarsAreIntervals(series, left);
  }

  lemma LastIsNotDrawnOver(prefix: seq<Contribution>, flags: seq<Look>, s: StackSeries, last: int, n: nat)
    requires |prefix| == |flags| && n < |prefix + Contributions(s)| && DistinctX(s)
    requires forall i | 0 <= i < |flags| :: !flags[i].isLast
    ensures !DrawnOver(prefix + Contributions(s), flags + LooksOf(s, last), n)
  {
    var cs, first := prefix + Contributions(s), |prefix|;
    if n >= first {
      forall m | n < m < |cs|
        ensures cs[m].cell != cs[n].cell
      {
        assert cs[n] == Contributions(s)[n - first] && cs[m] == Contributions(s)[m - first];
        assert s.points[n - first].x != s.points[m - first].x;
      }
    }
  }

  /** On a second axis, after one series on the first, it is the first of two series that is taken for
      the last: its bar, from 2 to 3, is drawn from 0. */
  lemma SecondAxisIsDrawnOver()
    ensures var one := StackSeries(1, "area", Normal, 0.0, true, [StackPoint(0, Some(1.0))]);
            var two := StackSeries(2, "area", Normal, 0.0, true, [StackPoint(0, Some(2.0))]);
            var cs, looks := AllContributions([one, two]), Looks([one, two], LastVisible([one, two], 2));
            && |cs| == 2 && looks[0].isLast && !looks[1].isLast
            && Bottom(cs, 0) == 2.0 && Top(cs, 0) == 3.0
            && Shown(cs, looks, map[], 0).Bar? && Shown(cs, looks, map[], 0).bottom == 0.0
  {
    hide AllContributions, Looks, Sum, Top, Bottom, MakeBar;
    var one := StackSeries(1, "area", Normal, 0.0, true, [StackPoint(0, Some(1.0))]);
    var two := StackSeries(2, "area", Normal, 0.0, true, [StackPoint(0, Some(2.0))]);
    TwoSeries(one, two, 1);
    var cs := AllContributions([one, two]);
    assert cs == [Contribution(Cell(false, "area", 0), 1.0, true), Contribution(Cell(false, "area", 0), 2.0, true)];
    ExampleStack(cs);
    ExampleBar(3.0, Sum(cs, cs[0].cell), 1.0);
    assert cs[0].numeric;
  }

  lemma TwoSeries(one: StackSeries, two: StackSeries, last: int)
    ensures AllContributions([one, two]) == Contributions(one) + Contributions(two)
    ensures Looks([one, two], last) == LooksOf(one, last) + LooksOf(two, last)
  {
    hide Contributions, LooksOf;
    var both := [one, two];
    assert both[..0] == [] && both[..2] == both;
    assert AllContributions([]) == [] && Looks([], last) == [];
    AllContributionsStep(both, 0);
    AllContributionsStep(both, 1);
    LooksStep(both, last, 0);
    LooksStep(both, last, 1);
  }

  lemma ExampleBar(cum: real, total: real, y: real)
    ensures MakeBar(cum, total, y, Look(true, 0.0, false)).Bar?
    ensures MakeBar(cum, total, y, Look(true, 0.0, false)).bottom == 0.0
  {
  }

  lemma ExampleStack(cs: seq<Contribution>)
    requires |cs| == 2 && cs[0].cell == cs[1].cell && cs[0].y == 1.0 && cs[1].y == 2.0
    ensures Bottom(cs, 0) == 2.0 && Top(cs, 0) == 3.0
  {
    SumOne(cs[0]);
    SumOne(cs[1]);
    assert cs[1..] == [cs[1]] && cs[0..] == [cs[0]] + [cs[1]];
    SumConcat([cs[0]], [cs[1]], cs[0].cell);
  }

  // ----- any threshold

  /** A point belongs to the stack of its series' key at its x, on the side of the threshold on which it lies. */
  lemma StackOfPoint(p: StackPoint, s: StackSeries)
    requires p.y.Some?
    ensures Contribute(p, s).y == p.y.value && Contribute(p, s).numeric
    ensures Contribute(p, s).cell == Cell(p.y.value < s.threshold, s.key, p.x)
  {
  }

  /** The bars of the series taken for the last start at its threshold, as heights or as shares of the total. */
  lemma LastStartsAtThreshold(cum: real, total: real, y: real, look: Look)
    requires look.isLast
    ensures var bar := MakeBar(cum, total, y, look);
            && bar.Bar? && bar.stackTotal == total && bar.percentage == Share(y, total)
            && bar.bottom == (if look.percent then Share(look.threshold, total) else look.threshold)
            && bar.top == if look.percent then Share(cum, total) else cum
  {
  }
}
