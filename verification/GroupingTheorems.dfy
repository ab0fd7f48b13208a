/** What grouping promises: a partition of the points, conservation of sums, and that
    grouping can be done in two steps. */
module GroupingTheorems {
  import opened Wrappers
  import opened Reals
  import opened Grouping

  ghost predicate Sorted(pts: seq<Pt>) {
    forall i, j | 0 <= i < j < |pts| :: pts[i].x <= pts[j].x
  }

  ghost predicate Increasing(positions: seq<int>) {
    forall i, j | 0 <= i < j < |positions| :: positions[i] < positions[j]
  }

  lemma GroupOne(a: Approx, pts: seq<Pt>, positions: seq<int>)
    requires |positions| == 1
    ensures Group(a, pts, positions) == Emit(a, positions[0], pts)
  {
    assert [] + pts == pts;
  }

  lemma GroupMore(a: Approx, pts: seq<Pt>, positions: seq<int>)
    requires |positions| > 1
    ensures var k := Below(pts, positions[1]);
            Group(a, pts, positions) == Emit(a, positions[0], pts[..k]) + Group(a, pts[k..], positions[1..])
  {
    var k := Below(pts, positions[1]);
    assert [] + pts[..k] == pts[..k];
  }

  // ----- every point lands in exactly one group

  /** The points of each group, one entry for a position. */
  function Groups(pts: seq<Pt>, positions: seq<int>): (gs: seq<seq<Pt>>)
    requires positions != []
    ensures |gs| == |positions|
    decreases |positions|
  {
    if |positions| == 1 then [pts]
    else
      var k := Below(pts, positions[1]);
      [pts[..k]] + Groups(pts[k..], positions[1..])
  }

  function Flatten(gs: seq<seq<Pt>>): seq<Pt> {
    if gs == [] then [] else gs[0] + Flatten(gs[1..])
  }

  /** The emitted list of the groups `gs` at `positions`. */
  function EmitAll(a: Approx, positions: seq<int>, gs: seq<seq<Pt>>): seq<Pt>
    requires |positions| == |gs|
  {
    if gs == [] then [] else Emit(a, positions[0], gs[0]) + EmitAll(a, positions[1..], gs[1..])
  }

  /** A point belongs to the last position not above its x, or else to the first group. */
  ghost predicate Belongs(positions: seq<int>, g: nat, x: int)
    requires g < |positions|
  {
    (g == 0 || positions[g] <= x) && forall h | g < h < |positions| :: x < positions[h]
  }

  lemma {:induction false} GroupEmitsGroups(a: Approx, pts: seq<Pt>, positions: seq<int>)
    requires positions != []
    ensures Group(a, pts, positions) == EmitAll(a, positions, Groups(pts, positions))
    ensures Flatten(Groups(pts, positions)) == pts
    decreases |positions|
  {
    hide Emit, Group, Below;
    var gs := Groups(pts, positions);
    if |positions| == 1 {
      GroupOne(a, pts, positions);
      assert gs == [pts] && gs[1..] == [];
    } else {
      var k := Below(pts, positions[1]);
      GroupMore(a, pts, positions);
      GroupEmitsGroups(a, pts[k..], positions[1..]);
      assert gs[1..] == Groups(pts[k..], positions[1..]);
      assert pts[..k] + pts[k..] == pts;
    }
  }

  lemma {:induction false} GroupsBelong(pts: seq<Pt>, positions: seq<int>, g: nat, i: nat)
    requires positions != [] && Sorted(pts) && Increasing(positions)
    requires g < |positions| && i < |Groups(pts, positions)[g]|
    ensures Belongs(positions, g, Groups(pts, positions)[g][i].x)
    decreases |positions|
  {
    hide Below, Belongs, Flatten;
    var p := Groups(pts, positions)[g][i];
    if g == 0 {
      BelongsFirst(positions, p.x);
    } else {
      var k := Below(pts, positions[1]);
      var more := Groups(pts[k..], positions[1..]);
      assert Groups(pts, positions)[g] == more[g - 1];
      GroupsBelong(pts[k..], positions[1..], g - 1, i);
      InTail(pts, positions, more, g - 1, i);
      BelongsShift(positions, g, p.x);
    }
  }

  lemma BelongsFirst(positions: seq<int>, x: int)
    requires positions != [] && Increasing(positions)
    requires |positions| > 1 ==> x < positions[1]
    ensures Belongs(positions, 0, x)
  {
  }

  lemma InTail(pts: seq<Pt>, positions: seq<int>, more: seq<seq<Pt>>, g: nat, i: nat)
    requires |positions| > 1 && Sorted(pts) && more == Groups(pts[Below(pts, positions[1])..], positions[1..])
    requires g < |more| && i < |more[g]|
    ensures more[g][i].x >= positions[1]
  {
    hide Below, Groups, Flatten;
    var k := Below(pts, positions[1]);
    GroupEmitsGroups(Sum, pts[k..], positions[1..]);
    FlattenHas(more, g, i);
    BelowSorted(pts, positions[1]);
    var n :| 0 <= n < |pts[k..]| && pts[k..][n] == more[g][i];
    assert pts[k + n] == more[g][i];
  }

  lemma BelongsShift(positions: seq<int>, g: nat, x: int)
    requires 0 < g < |positions| && positions[1] <= x && Belongs(positions[1..], g - 1, x)
    ensures Belongs(positions, g, x)
  {
    forall h | g < h < |positions|
      ensures x < positions[h]
    {
      assert positions[h] == positions[1..][h - 1];
    }
  }

  lemma {:induction false} BelowSorted(pts: seq<Pt>, limit: int)
    requires Sorted(pts)
    ensures forall i | Below(pts, limit) <= i < |pts| :: pts[i].x >= limit
  {
    if pts != [] && pts[0].x < limit {
      BelowSorted(pts[1..], limit);
    }
  }

  lemma {:induction false} FlattenHas(gs: seq<seq<Pt>>, g: nat, i: nat)
    requires g < |gs| && i < |gs[g]|
    ensures gs[g][i] in Flatten(gs)
  {
    if g > 0 {
      FlattenHas(gs[1..], g - 1, i);
    }
  }

  /** No point can belong to two groups. */
  lemma BelongsOnce(positions: seq<int>, g: nat, h: nat, x: int)
    requires g < |positions| && h < |positions| && Belongs(positions, g, x) && Belongs(positions, h, x)
    ensures g == h
  {
  }

  /** The groups cut the sorted points, in order and without loss, into the sets the positions
      define, and `groupData` emits exactly the aggregates of the groups that hold a number or a null. */
  lemma GroupingIsPartition(a: Approx, pts: seq<Pt>, positions: seq<int>)
    requires positions != [] && Sorted(pts) && Increasing(positions)
    ensures var gs := Groups(pts, positions);
            && Flatten(gs) == pts
            && (forall g, i | 0 <= g < |positions| && 0 <= i < |gs[g]| ::
                  forall h | 0 <= h < |positions| :: Belongs(positions, h, gs[g][i].x) <==> h == g)
            && Group(a, pts, positions) == EmitAll(a, positions, gs)
  {
    GroupEmitsGroups(a, pts, positions);
    var gs: seq<seq<Pt>> := Groups(pts, positions);
    forall g, i, h | 0 <= g < |positions| && 0 <= i < |gs[g]| && 0 <= h < |positions|
      ensures Belongs(positions, h, gs[g][i].x) <==> h == g
    {
      GroupsBelong(pts, positions, g, i);
      if Belongs(positions, h, gs[g][i].x) {
        BelongsOnce(positions, g, h, gs[g][i].x);
      }
    }
  }

  /** The emitted x values are positions, in increasing order. */
  lemma {:induction false} EmittedIncreasing(a: Approx, pts: seq<Pt>, positions: seq<int>)
    requires positions != [] && Increasing(positions)
    ensures var r := Group(a, pts, positions);
            && (forall i | 0 <= i < |r| :: r[i].x in positions && positions[0] <= r[i].x)
            && forall i, j | 0 <= i < j < |r| :: r[i].x < r[j].x
    decreases |positions|
  {
    hide Below, Group, Aggregate;
    if |positions| == 1 {
      GroupOne(a, pts, positions);
    } else {
      GroupMore(a, pts, positions);
      EmittedIncreasing(a, pts[Below(pts, positions[1])..], positions[1..]);
      assert positions[1..][0] == positions[1];
    }
  }

  // ----- aggregates of concatenated groups

  /** How the aggregates of two neighbouring groups combine. */
  function Combine(a: Approx, u: Y, v: Y): Y {
    if u.Num? && v.Num? then
      match a
      case Sum => Num(u.v + v.v)
      case Average => Undefined
      case Open => u
      case High => Num(Max(u.v, v.v))
      case Low => Num(Min(u.v, v.v))
      case Close => v
    else if u.Num? then u
    else if v.Num? then v
    else if u == Null || v == Null then Null
    else Undefined
  }

  lemma {:induction false} NumsConcat(u: seq<Y>, v: seq<Y>)
    ensures Nums(u + v) == Nums(u) + Nums(v)
  {
    if v == [] {
      assert u + v == u;
    } else {
      assert (u + v)[..|u + v| - 1] == u + v[..|v| - 1];
      NumsConcat(u, v[..|v| - 1]);
    }
  }

  lemma AggregateConcat(a: Approx, p: seq<Pt>, q: seq<Pt>)
    requires a != Average
    ensures Aggregate(a, p + q) == Combine(a, Aggregate(a, p), Aggregate(a, q))
  {
    assert Ys(p + q) == Ys(p) + Ys(q);
    NumsConcat(Ys(p), Ys(q));
    ApproximationConcat(a, Nums(Ys(p)), Nums(Ys(q)), HasNulls(Ys(p)), HasNulls(Ys(q)));
  }

  lemma ApproximationConcat(a: Approx, u: seq<real>, v: seq<real>, m: bool, n: bool)
    requires a != Average
    ensures Approximation(a, u + v, m || n) == Combine(a, Approximation(a, u, m), Approximation(a, v, n))
  {
    hide SumOf, MaxOf, MinOf;
    if u == [] {
      assert u + v == v;
    } else if v == [] {
      assert u + v == u;
    } else {
      SumConcat(u, v);
      MaxConcat(u, v);
    }
  }

  /** What is emitted for a group aggregates to what the group does. */
  lemma AggregateEmit(a: Approx, x: int, pts: seq<Pt>)
    ensures Aggregate(a, Emit(a, x, pts)) == Aggregate(a, pts)
  {
    var y := Aggregate(a, pts);
    NoValues();
    if y != Undefined {
      var ys := Ys([Pt(x, y)]);
      assert ys == [y];
      assert Nums([y]) == match y case Num(v) => [v] case _ => [];
      assert SumOf([0.0][..0]) == 0.0;
    }
  }

  lemma {:induction false} AggregateGroup(a: Approx, pts: seq<Pt>, positions: seq<int>)
    requires positions != [] && a != Average
    ensures Aggregate(a, Group(a, pts, positions)) == Aggregate(a, pts)
    decreases |positions|
  {
    hide Aggregate, Emit, Group;
    if |positions| == 1 {
      GroupOne(a, pts, positions);
      AggregateEmit(a, positions[0], pts);
    } else {
      var k := Below(pts, positions[1]);
      GroupMore(a, pts, positions);
      AggregateGroup(a, pts[k..], positions[1..]);
      AggregateEmit(a, positions[0], pts[..k]);
      AggregateConcat(a, Emit(a, positions[0], pts[..k]), Group(a, pts[k..], positions[1..]));
      AggregateConcat(a, pts[..k], pts[k..]);
      assert pts[..k] + pts[k..] == pts;
    }
  }

  /** Under `sum` no numeric value is lost or counted twice. */
  lemma SumIsConserved(pts: seq<Pt>, positions: seq<int>)
    requires positions != []
    ensures SumOf(Nums(Ys(Group(Sum, pts, positions)))) == SumOf(Nums(Ys(pts)))
  {
    AggregateGroup(Sum, pts, positions);
  }

  // ----- grouping twice

  /** The coarse positions are some of the fine ones and start with the same. */
  ghost predicate Coarsens(coarse: seq<int>, fine: seq<int>) {
    && coarse != [] && fine != [] && coarse[0] == fine[0]
    && Increasing(coarse) && Increasing(fine)
    && forall c | c in coarse :: c in fine
  }

  lemma BelowUnique(pts: seq<Pt>, limit: int, k: nat)
    requires k <= |pts|
    requires forall i | 0 <= i < k :: pts[i].x < limit
    requires k < |pts| ==> pts[k].x >= limit
    ensures Below(pts, limit) == k
  {
    hide Below;
    var b := Below(pts, limit);
    assert b < |pts| ==> pts[b].x >= limit;
  }

  lemma CutTail(pts: seq<Pt>, limit: int, j: nat)
    requires j <= Below(pts, limit)
    ensures Below(pts[j..], limit) == Below(pts, limit) - j
  {
    hide Below;
    BelowUnique(pts[j..], limit, Below(pts, limit) - j);
  }

  lemma CutHead(pts: seq<Pt>, limit: int, m: nat)
    requires Below(pts, limit) <= m <= |pts|
    ensures Below(pts[..m], limit) == Below(pts, limit)
  {
    hide Below;
    BelowUnique(pts[..m], limit, Below(pts, limit));
  }

  lemma BelowOrder(pts: seq<Pt>, low: int, high: int)
    requires Sorted(pts) && low <= high
    ensures Below(pts, low) <= Below(pts, high)
  {
    hide Below;
    BelowSorted(pts, low);
    var m := Below(pts, high);
    assert m < |pts| ==> pts[m].x >= high;
  }

  lemma Slices<T>(s: seq<T>, j: nat, m: nat)
    requires j <= m <= |s|
    ensures s[j..][..m - j] == s[..m][j..] && s[j..][m - j..] == s[m..] && s[..m][..j] == s[..j]
  {
  }

  /** Splitting at position `k` and at position 1: the same cut seen from the tail and from the head. */
  lemma SplitCuts(pts: seq<Pt>, positions: seq<int>, k: nat)
    requires 1 < k < |positions| && Sorted(pts) && Increasing(positions)
    ensures var j, m := Below(pts, positions[1]), Below(pts, positions[k]);
            && j <= m && Below(pts[j..], positions[k]) == m - j && Below(pts[..m], positions[1]) == j
            && pts[j..][..m - j] == pts[..m][j..] && pts[j..][m - j..] == pts[m..] && pts[..m][..j] == pts[..j]
    ensures positions[1..][k - 1] == positions[k] && positions[1..][k - 1..] == positions[k..]
    ensures positions[1..][..k - 1] == positions[..k][1..] && positions[..k][1] == positions[1]
    ensures Increasing(positions[1..])
  {
    hide Below, Sorted;
    var j, m := Below(pts, positions[1]), Below(pts, positions[k]);
    BelowOrder(pts, positions[1], positions[k]);
    CutTail(pts, positions[k], j);
    CutHead(pts, positions[1], m);
    Slices(pts, j, m);
    Slices(positions, 1, k);
  }

  /** Grouping sorted points splits at any position. */
  lemma {:induction false} GroupSplits(a: Approx, pts: seq<Pt>, positions: seq<int>, k: nat)
    requires 0 < k < |positions| && Sorted(pts) && Increasing(positions)
    ensures var m := Below(pts, positions[k]);
            Group(a, pts, positions) ==
            Group(a, pts[..m], positions[..k]) + Group(a, pts[m..], positions[k..])
    decreases k
  {
    hide Emit, Below, Group, Increasing;
    var m := Below(pts, positions[k]);
    GroupMore(a, pts, positions);
    if k == 1 {
      GroupOne(a, pts[..m], positions[..1]);
    } else {
      var j := Below(pts, positions[1]);
      SplitCuts(pts, positions, k);
      GroupSplits(a, pts[j..], positions[1..], k - 1);
      GroupMore(a, pts[..m], positions[..k]);
    }
  }

  /** Two groups with the same aggregate are emitted alike. */
  lemma EmitSame(a: Approx, x: int, p: seq<Pt>, q: seq<Pt>)
    requires Aggregate(a, p) == Aggregate(a, q)
    ensures Emit(a, x, p) == Emit(a, x, q)
  {
  }

  /** Grouping by fine positions and regrouping the result by coarser ones that start alike
      gives what grouping once by the coarse positions gives. */
  lemma {:induction false} TwoStepGrouping(a: Approx, pts: seq<Pt>, fine: seq<int>, coarse: seq<int>)
    requires a != Average && Sorted(pts) && Coarsens(coarse, fine)
    ensures Group(a, Group(a, pts, fine), coarse) == Group(a, pts, coarse)
    decreases |coarse|
  {
    hide Aggregate, Emit, Below, Group;
    var once := Group(a, pts, fine);
    if |coarse| == 1 {
      AggregateGroup(a, pts, fine);
      EmitSame(a, coarse[0], once, pts);
      GroupOne(a, once, coarse);
      GroupOne(a, pts, coarse);
    } else {
      var k := CoarseIndex(coarse, fine);
      var m := Below(pts, coarse[1]);
      GroupSplits(a, pts, fine, k);
      var left, right := Group(a, pts[..m], fine[..k]), Group(a, pts[m..], fine[k..]);
      EmittedIncreasing(a, pts[..m], fine[..k]);
      EmittedIncreasing(a, pts[m..], fine[k..]);
      BelowUnique(once, coarse[1], |left|);
      assert once[..|left|] == left && once[|left|..] == right;
      AggregateGroup(a, pts[..m], fine[..k]);
      EmitSame(a, coarse[0], left, pts[..m]);
      TwoStepGrouping(a, pts[m..], fine[k..], coarse[1..]);
      GroupMore(a, once, coarse);
      GroupMore(a, pts, coarse);
    }
  }

  /** Where the second coarse position stands among the fine ones. */
  lemma CoarseIndex(coarse: seq<int>, fine: seq<int>) returns (k: nat)
    requires Coarsens(coarse, fine) && |coarse| > 1
    ensures 0 < k < |fine| && fine[k] == coarse[1]
    ensures Coarsens(coarse[1..], fine[k..])
    ensures forall x | x in fine[..k] :: x < coarse[1]
  {
    assert coarse[1] in fine;
    k :| 0 <= k < |fine| && fine[k] == coarse[1];
    forall c | c in coarse[1..]
      ensures c in fine[k..]
    {
      var i :| 0 <= i < |coarse[1..]| && coarse[1..][i] == c;
      assert c == coarse[i + 1] && c in fine;
      var j :| 0 <= j < |fine| && fine[j] == c;
      assert j >= k;
      assert fine[k..][j - k] == c;
    }
  }

  // ----- what the aggregates are

  /** The named approximations of a group with numbers, each by what it is. */
  lemma ApproximationMeans(vals: seq<real>, hasNulls: bool)
    ensures vals == [] ==> forall a :: Approximation(a, vals, hasNulls) == if hasNulls then Null else Undefined
    ensures vals != [] ==>
              var high, low := Approximation(High, vals, hasNulls), Approximation(Low, vals, hasNulls);
              && high.Num? && high.v in vals && (forall v | v in vals :: v <= high.v)
              && low.Num? && low.v in vals && (forall v | v in vals :: low.v <= v)
              && Approximation(Open, vals, hasNulls) == Num(vals[0])
              && Approximation(Close, vals, hasNulls) == Num(vals[|vals| - 1])
              && Approximation(Sum, vals, hasNulls) == Num(SumOf(vals))
  {
    hide SumOf, MaxOf, MinOf;
    if vals != [] {
      ExtremesAre(vals);
    }
  }

  lemma AverageMeans(vals: seq<real>, hasNulls: bool)
    requires vals != []
    ensures var mean := Approximation(Average, vals, hasNulls); mean.Num? && mean.v * |vals| as real == SumOf(vals)
  {
    hide SumOf;
    var s, n := SumOf(vals), |vals| as real;
    assert (s / n) * n == s;
  }

  lemma {:induction false} ExtremesAre(vals: seq<real>)
    requires vals != []
    ensures MaxOf(vals) in vals && MinOf(vals) in vals
    ensures forall v | v in vals :: MinOf(vals) <= v <= MaxOf(vals)
    decreases |vals|
  {
    var m := |vals| - 1;
    if m > 0 {
      ExtremesAre(vals[..m]);
      assert vals == vals[..m] + [vals[m]];
    }
  }

  /** Without y data every group with a point is emitted as null, at its position. */
  lemma {:induction false} GroupsWithoutY(a: Approx, pts: seq<Pt>, positions: seq<int>)
    requires positions != [] && forall i | 0 <= i < |pts| :: pts[i].y == Null
    ensures forall g | 0 <= g < |positions| :: Aggregate(a, Groups(pts, positions)[g]) ==
              if Groups(pts, positions)[g] == [] then Undefined else Null
    decreases |positions|
  {
    hide Aggregate;
    if |positions| == 1 {
      NullsOnly(a, pts);
    } else {
      var k := Below(pts, positions[1]);
      NullsOnly(a, pts[..k]);
      GroupsWithoutY(a, pts[k..], positions[1..]);
    }
  }

  lemma {:induction false} NullsOnly(a: Approx, pts: seq<Pt>)
    requires forall i | 0 <= i < |pts| :: pts[i].y == Null
    ensures Aggregate(a, pts) == if pts == [] then Undefined else Null
  {
    NoValues();
    if pts != [] {
      var m := |pts| - 1;
      NullsOnly(a, pts[..m]);
      assert pts == pts[..m] + [pts[m]];
      YsSnoc(pts[..m], pts[m]);
      NoNumbers(pts[..m]);
    }
  }

  lemma {:induction false} NoNumbers(pts: seq<Pt>)
    requires forall i | 0 <= i < |pts| :: pts[i].y == Null
    ensures Nums(Ys(pts)) == []
  {
    NoValues();
    if pts != [] {
      var m := |pts| - 1;
      NoNumbers(pts[..m]);
      assert pts == pts[..m] + [pts[m]];
      YsSnoc(pts[..m], pts[m]);
    }
  }

  /** The points of `groupData` without y data are null. */
  lemma ColumnWithoutY(xs: seq<int>)
    ensures var pts := Points(xs, YColumn(xs, None));
            |pts| == |xs| && forall i | 0 <= i < |pts| :: pts[i] == Pt(xs[i], Null)
  {
  }

  /** `groupData` leaves the positions after the group of the last point. */
  lemma {:induction false} RemainingAreLater(pts: seq<Pt>, positions: seq<int>) returns (g: nat)
    requires positions != [] && Sorted(pts) && Increasing(positions)
    ensures g < |positions| && Remaining(pts, positions) == positions[g + 1..]
    ensures if pts == [] then g == 0 else Belongs(positions, g, pts[|pts| - 1].x)
    decreases |positions|
  {
    hide Below;
    if |positions| == 1 {
      g := 0;
    } else {
      var k := Below(pts, positions[1]);
      BelowSorted(pts, positions[1]);
      if k == |pts| {
        g := 0;
        if pts != [] { BelongsFirst(positions, pts[|pts| - 1].x); }
      } else {
        var h := RemainingAreLater(pts[k..], positions[1..]);
        g := h + 1;
        assert positions[1..][h + 1..] == positions[g + 1..];
        assert pts[k..][|pts| - k - 1] == pts[|pts| - 1];
        BelongsShift(positions, g, pts[|pts| - 1].x);
      }
    }
  }
}
