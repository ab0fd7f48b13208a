/** Averages are the one approximation that does not regroup in general. When they do. */
module AverageTheorems {
  import opened Grouping
  import opened GroupingTheorems

  // ----- a group as an average sees it

  /** How many numbers a list of points holds. */
  function Count(pts: seq<Pt>): nat {
    |Nums(Ys(pts))|
  }

  function Total(pts: seq<Pt>): real {
    SumOf(Nums(Ys(pts)))
  }

  predicate HoldsNull(pts: seq<Pt>) {
    HasNulls(Ys(pts))
  }

  function Quotient(a: real, n: nat): real
    requires n > 0
  {
    a / n as real
  }

  function Mean(pts: seq<Pt>): real
    requires Count(pts) > 0
  {
    Quotient(Total(pts), Count(pts))
  }

  lemma NothingIn()
    ensures Count([]) == 0 && Total([]) == 0.0 && !HoldsNull([])
  {
    NoValues();
  }

  lemma OneIn(p: Pt)
    ensures Count([p]) == if p.y.Num? then 1 else 0
    ensures Total([p]) == if p.y.Num? then p.y.v else 0.0
    ensures HoldsNull([p]) <==> p.y == Null
  {
    NoValues();
    assert [] + [p] == [p];
    YsSnoc([], p);
    if p.y.Num? {
      assert Nums(Ys([p])) == [p.y.v] && [p.y.v][..0] == [];
      assert SumOf([p.y.v]) == SumOf([]) + p.y.v;
    } else {
      assert Nums(Ys([p])) == [];
    }
  }

  lemma Concat(p: seq<Pt>, q: seq<Pt>)
    ensures Count(p + q) == Count(p) + Count(q)
    ensures Total(p + q) == Total(p) + Total(q)
    ensures HoldsNull(p + q) <==> HoldsNull(p) || HoldsNull(q)
  {
    assert Ys(p + q) == Ys(p) + Ys(q);
    NumsConcat(Ys(p), Ys(q));
    SumConcat(Nums(Ys(p)), Nums(Ys(q)));
  }

  lemma AverageIs(pts: seq<Pt>)
    ensures Aggregate(Average, pts) ==
            if Count(pts) > 0 then Num(Mean(pts)) else if HoldsNull(pts) then Null else Undefined
  {
  }

  lemma EmitAverage(x: int, pts: seq<Pt>)
    ensures var e := Emit(Average, x, pts);
            && Count(e) == (if Count(pts) > 0 then 1 else 0)
            && Total(e) == (if Count(pts) > 0 then Mean(pts) else 0.0)
            && (HoldsNull(e) <==> Count(pts) == 0 && HoldsNull(pts))
            && |e| == if Count(pts) > 0 || HoldsNull(pts) then 1 else 0
  {
    hide Count, Total, HoldsNull, Mean, Aggregate;
    AverageIs(pts);
    NothingIn();
    OneIn(Pt(x, Aggregate(Average, pts)));
  }

  // ----- one coarse group

  /** Do the fine averages of one coarse group average to the average of the group? */
  predicate HeadAgrees(pts: seq<Pt>, fine: seq<int>)
    requires fine != []
  {
    Aggregate(Average, Group(Average, pts, fine)) == Aggregate(Average, pts)
  }

  /** All groups with a number have equally many. */
  ghost predicate Even(gs: seq<seq<Pt>>) {
    forall g, h | 0 <= g < h < |gs| && Count(gs[g]) > 0 && Count(gs[h]) > 0 :: Count(gs[g]) == Count(gs[h])
  }

  lemma GroupsUnfold(pts: seq<Pt>, fine: seq<int>)
    requires fine != []
    ensures |fine| == 1 ==> Groups(pts, fine) == [pts]
    ensures |fine| > 1 ==> var k := Below(pts, fine[1]); Groups(pts, fine) == [pts[..k]] + Groups(pts[k..], fine[1..])
  {
  }

  lemma GroupsStep(pts: seq<Pt>, fine: seq<int>)
    requires |fine| > 1
    ensures var k := Below(pts, fine[1]);
            && Group(Average, pts, fine) == Emit(Average, fine[0], pts[..k]) + Group(Average, pts[k..], fine[1..])
            && pts == pts[..k] + pts[k..]
  {
    hide Group, Emit;
    GroupMore(Average, pts, fine);
  }

  /** Fine groups keep what the average of a group without numbers looks at. */
  lemma {:induction false} KindIsKept(pts: seq<Pt>, fine: seq<int>)
    requires fine != []
    ensures var once := Group(Average, pts, fine);
            && (Count(once) > 0 <==> Count(pts) > 0)
            && (Count(pts) == 0 ==> (HoldsNull(once) <==> HoldsNull(pts)))
    decreases |fine|
  {
    hide Count, Total, HoldsNull, Mean, Emit, Group, Below;
    if |fine| == 1 {
      GroupOne(Average, pts, fine);
      EmitAverage(fine[0], pts);
    } else {
      var k := Below(pts, fine[1]);
      GroupsStep(pts, fine);
      KindIsKept(pts[k..], fine[1..]);
      EmitAverage(fine[0], pts[..k]);
      Concat(pts[..k], pts[k..]);
      Concat(Emit(Average, fine[0], pts[..k]), Group(Average, pts[k..], fine[1..]));
    }
  }

  /** With `c` numbers in every group that has any, counts and totals are `c` times those of the averages. */
  lemma {:induction false} EvenTotals(pts: seq<Pt>, fine: seq<int>, c: nat)
    requires fine != [] && c > 0
    requires forall g | 0 <= g < |fine| :: Count(Groups(pts, fine)[g]) == 0 || Count(Groups(pts, fine)[g]) == c
    ensures var once := Group(Average, pts, fine);
            Count(pts) == Count(once) * c && Total(pts) == Total(once) * c as real
    decreases |fine|
  {
    hide Count, Total, HoldsNull, Mean, Emit, Group, Groups, Below;
    GroupsUnfold(pts, fine);
    if |fine| == 1 {
      GroupOne(Average, pts, fine);
      EmitAverage(fine[0], pts);
      assert Groups(pts, fine)[0] == pts;
      EvenTotal(pts, c);
    } else {
      var k := Below(pts, fine[1]);
      var gs, more := Groups(pts, fine), Groups(pts[k..], fine[1..]);
      GroupsStep(pts, fine);
      assert forall g | 0 <= g < |more| :: more[g] == gs[g + 1];
      assert gs[0] == pts[..k];
      EvenTotals(pts[k..], fine[1..], c);
      EmitAverage(fine[0], pts[..k]);
      EvenTotal(pts[..k], c);
      Concat(pts[..k], pts[k..]);
      Concat(Emit(Average, fine[0], pts[..k]), Group(Average, pts[k..], fine[1..]));
      Distribute(Count(Emit(Average, fine[0], pts[..k])), Count(Group(Average, pts[k..], fine[1..])), c);
      DistributeReal(Total(Emit(Average, fine[0], pts[..k])), Total(Group(Average, pts[k..], fine[1..])), c as real);
    }
  }

  lemma Distribute(a: int, b: int, c: int)
    ensures (a + b) * c == a * c + b * c
  {
  }

  lemma DistributeReal(a: real, b: real, c: real)
    ensures (a + b) * c == a * c + b * c
  {
  }

  lemma EvenTotal(pts: seq<Pt>, c: nat)
    requires c > 0 && (Count(pts) == 0 || Count(pts) == c)
    ensures Count(pts) == (if Count(pts) > 0 then 1 else 0) * c
    ensures Total(pts) == (if Count(pts) > 0 then Mean(pts) else 0.0) * c as real
  {
    hide Ys, Nums;
    if Count(pts) == 0 {
      assert Nums(Ys(pts)) == [];
    } else {
      QuotientTimes(Total(pts), c);
    }
  }

  lemma QuotientTimes(a: real, n: nat)
    requires n > 0
    ensures Quotient(a, n) * n as real == a
  {
  }

  lemma SameQuotient(a: real, m: nat, b: real, n: nat)
    requires m > 0 && n > 0
    ensures Quotient(a, m) == Quotient(b, n) <==> a * n as real == b * m as real
  {
    var q, r, x, y := Quotient(a, m), Quotient(b, n), m as real, n as real;
    QuotientTimes(a, m);
    QuotientTimes(b, n);
    CrossMultiply(q, r, x, y);
  }

  lemma CrossMultiply(q: real, r: real, x: real, y: real)
    requires x > 0.0 && y > 0.0
    ensures q == r <==> (q * x) * y == (r * y) * x
  {
    assert (q * x) * y == q * (x * y) && (r * y) * x == r * (x * y);
    assert (q - r) * (x * y) == q * (x * y) - r * (x * y);
    if q != r {
      assert x * y > 0.0;
    }
  }

  lemma EvenAgrees(pts: seq<Pt>, fine: seq<int>)
    requires fine != [] && Even(Groups(pts, fine))
    ensures HeadAgrees(pts, fine)
  {
    hide Count, Total, HoldsNull, Aggregate, Group, Quotient, Mean;
    var once, gs := Group(Average, pts, fine), Groups(pts, fine);
    KindIsKept(pts, fine);
    AverageIs(pts);
    AverageIs(once);
    if Count(pts) > 0 {
      var g := FilledGroup(pts, fine);
      var c := Count(gs[g]);
      forall h | 0 <= h < |fine|
        ensures Count(gs[h]) == 0 || Count(gs[h]) == c
      {
      }
      EvenTotals(pts, fine, c);
      Scaled(Total(once), Count(once), c, Total(pts), Count(pts));
      MeanIs(pts);
      MeanIs(once);
    }
  }

  lemma Scaled(t: real, n: nat, c: nat, u: real, m: nat)
    requires n > 0 && m > 0 && u == t * c as real && m == n * c
    ensures Quotient(u, m) == Quotient(t, n)
  {
    SameQuotient(t, n, u, m);
    assert (n * c) as real == n as real * c as real;
    TimesOrder(t, c as real, n as real);
  }

  lemma TimesOrder(t: real, c: real, n: real)
    ensures t * (n * c) == (t * c) * n
  {
  }

  lemma {:induction false} FilledGroup(pts: seq<Pt>, fine: seq<int>) returns (g: nat)
    requires fine != [] && Count(pts) > 0
    ensures g < |fine| && Count(Groups(pts, fine)[g]) > 0
    decreases |fine|
  {
    hide Count, Groups, Below;
    GroupsUnfold(pts, fine);
    if |fine| == 1 {
      g := 0;
    } else {
      var k := Below(pts, fine[1]);
      assert pts == pts[..k] + pts[k..];
      Concat(pts[..k], pts[k..]);
      if Count(pts[..k]) > 0 {
        g := 0;
      } else {
        g := FilledGroup(pts[k..], fine[1..]);
        assert Groups(pts, fine)[g + 1] == Groups(pts[k..], fine[1..])[g];
        g := g + 1;
      }
    }
  }

  // ----- other values for the same points

  /** The same x values, and numbers and nulls at the same places. */
  ghost predicate SameShape(p: seq<Pt>, q: seq<Pt>) {
    |p| == |q| && forall i | 0 <= i < |p| :: p[i].x == q[i].x && (p[i].y == q[i].y || (p[i].y.Num? && q[i].y.Num?))
  }

  lemma {:induction false} SameCount(p: seq<Pt>, q: seq<Pt>)
    requires SameShape(p, q)
    ensures Count(p) == Count(q)
  {
    hide Count;
    if p != [] {
      var n := |p| - 1;
      SameCount(p[..n], q[..n]);
      assert p == p[..n] + [p[n]] && q == q[..n] + [q[n]];
      Concat(p[..n], [p[n]]);
      Concat(q[..n], [q[n]]);
      OneIn(p[n]);
      OneIn(q[n]);
    } else {
      assert q == [];
    }
  }

  lemma {:induction false} SameBelow(p: seq<Pt>, q: seq<Pt>, limit: int)
    requires SameShape(p, q)
    ensures Below(p, limit) == Below(q, limit)
  {
    if p != [] && p[0].x < limit {
      SameBelow(p[1..], q[1..], limit);
    }
  }

  lemma {:induction false} SameCounts(p: seq<Pt>, q: seq<Pt>, fine: seq<int>)
    requires fine != [] && SameShape(p, q)
    ensures forall g | 0 <= g < |fine| :: Count(Groups(p, fine)[g]) == Count(Groups(q, fine)[g])
    decreases |fine|
  {
    hide Count;
    if |fine| == 1 {
      SameCount(p, q);
    } else {
      SameBelow(p, q, fine[1]);
      var k := Below(p, fine[1]);
      SameCount(p[..k], q[..k]);
      SameCounts(p[k..], q[k..], fine[1..]);
    }
  }

  /** Every number replaced by `v`. */
  function Fill(pts: seq<Pt>, v: real): (r: seq<Pt>)
    ensures |r| == |pts|
  {
    seq(|pts|, i requires 0 <= i < |pts| => Pt(pts[i].x, if pts[i].y.Num? then Num(v) else pts[i].y))
  }

  lemma {:induction false} FillTotal(pts: seq<Pt>, v: real)
    ensures SameShape(Fill(pts, v), pts) && Count(Fill(pts, v)) == Count(pts)
    ensures Total(Fill(pts, v)) == Count(pts) as real * v
  {
    hide Count, Total;
    SameCount(Fill(pts, v), pts);
    if pts == [] {
      NothingIn();
      assert Fill(pts, v) == [];
    } else {
      var n := |pts| - 1;
      var last := Fill(pts, v)[n];
      FillTotal(pts[..n], v);
      assert pts == pts[..n] + [pts[n]] && Fill(pts, v) == Fill(pts[..n], v) + [last];
      Concat(pts[..n], [pts[n]]);
      Concat(Fill(pts[..n], v), [last]);
      OneIn(pts[n]);
      OneIn(last);
      DistributeReal(Count(pts[..n]) as real, Count([pts[n]]) as real, v);
    }
  }

  /** One in the fine group `g` and zero in all others. */
  function Marked(pts: seq<Pt>, fine: seq<int>, g: int): (r: seq<Pt>)
    requires fine != []
    ensures |r| == |pts|
    decreases |fine|
  {
    if |fine| == 1 then Fill(pts, if g == 0 then 1.0 else 0.0)
    else
      var k := Below(pts, fine[1]);
      Fill(pts[..k], if g == 0 then 1.0 else 0.0) + Marked(pts[k..], fine[1..], g - 1)
  }

  lemma {:induction false} MarkedShape(pts: seq<Pt>, fine: seq<int>, g: int)
    requires fine != []
    ensures SameShape(Marked(pts, fine, g), pts)
    decreases |fine|
  {
    hide Below, SameShape, Fill;
    var v := if g == 0 then 1.0 else 0.0;
    if |fine| == 1 {
      FillTotal(pts, v);
    } else {
      var k := Below(pts, fine[1]);
      MarkedShape(pts[k..], fine[1..], g - 1);
      FillTotal(pts[..k], v);
      ShapeConcat(Fill(pts[..k], v), pts[..k], Marked(pts[k..], fine[1..], g - 1), pts[k..]);
      assert pts[..k] + pts[k..] == pts;
    }
  }

  lemma ShapeConcat(a: seq<Pt>, b: seq<Pt>, c: seq<Pt>, d: seq<Pt>)
    requires SameShape(a, b) && SameShape(c, d)
    ensures SameShape(a + c, b + d)
  {
  }

  function NumbersAt(pts: seq<Pt>, fine: seq<int>, g: int): nat
    requires fine != []
  {
    if 0 <= g < |fine| then Count(Groups(pts, fine)[g]) else 0
  }

  /** The marked total is the number of values in the group, its averages add up to one. */
  lemma {:induction false} MarkedTotals(pts: seq<Pt>, fine: seq<int>, g: int)
    requires fine != []
    ensures Total(Marked(pts, fine, g)) == NumbersAt(pts, fine, g) as real
    ensures Total(Group(Average, Marked(pts, fine, g), fine)) == if NumbersAt(pts, fine, g) > 0 then 1.0 else 0.0
    decreases |fine|
  {
    hide Count, Total, Mean, Emit, Group, Below, Fill;
    if |fine| == 1 {
      FillMean(pts, if g == 0 then 1.0 else 0.0);
      FillTotal(pts, if g == 0 then 1.0 else 0.0);
      GroupOne(Average, Marked(pts, fine, g), fine);
      EmitAverage(fine[0], Marked(pts, fine, g));
    } else {
      var k, v := Below(pts, fine[1]), if g == 0 then 1.0 else 0.0;
      var q := Marked(pts, fine, g);
      var head, tail := Fill(pts[..k], v), Marked(pts[k..], fine[1..], g - 1);
      MarkedTotals(pts[k..], fine[1..], g - 1);
      MarkedShape(pts, fine, g);
      SameBelow(q, pts, fine[1]);
      assert q[..k] == head && q[k..] == tail;
      GroupsStep(q, fine);
      FillMean(pts[..k], v);
      FillTotal(pts[..k], v);
      EmitAverage(fine[0], head);
      Concat(head, tail);
      Concat(Emit(Average, fine[0], head), Group(Average, tail, fine[1..]));
      MarkedAt(pts, fine, g);
    }
  }

  lemma MarkedAt(pts: seq<Pt>, fine: seq<int>, g: int)
    requires |fine| > 1
    ensures var k := Below(pts, fine[1]);
            NumbersAt(pts, fine, g) == if g == 0 then Count(pts[..k]) else NumbersAt(pts[k..], fine[1..], g - 1)
    ensures g == 0 ==> NumbersAt(pts[Below(pts, fine[1])..], fine[1..], g - 1) == 0
  {
  }

  lemma FillMean(pts: seq<Pt>, v: real)
    ensures Count(Fill(pts, v)) > 0 ==> Mean(Fill(pts, v)) == v
  {
    hide Count, Total, Fill;
    FillTotal(pts, v);
    if Count(pts) > 0 {
      SameQuotient(Count(pts) as real * v, Count(pts), v, 1);
      QuotientTimes(v, 1);
    }
  }

  /** If averages agree for the marked values, the marked group holds its share of the numbers. */
  lemma AgreementForces(pts: seq<Pt>, fine: seq<int>, g: nat)
    requires fine != [] && g < |fine| && Count(Groups(pts, fine)[g]) > 0
    requires HeadAgrees(Marked(pts, fine, g), fine)
    ensures var once := Group(Average, pts, fine);
            Count(Groups(pts, fine)[g]) * Count(once) == Count(pts)
  {
    hide Count, Total, HoldsNull, Aggregate, Group, Groups, Marked, Mean, Quotient;
    var q, n := Marked(pts, fine, g), Count(Groups(pts, fine)[g]);
    var once := Group(Average, q, fine);
    MarkedTotals(pts, fine, g);
    MarkedShape(pts, fine, g);
    SameCount(q, pts);
    SameFilled(q, pts, fine);
    GroupIsCounted(pts, fine, g);
    KindIsKept(q, fine);
    AverageIs(q);
    AverageIs(once);
    MeanIs(q);
    MeanIs(once);
    ShareOfAll(Count(once), Count(q), n);
  }

  lemma ShareOfAll(groups: nat, all: nat, n: nat)
    requires groups > 0 && all > 0 && Quotient(1.0, groups) == Quotient(n as real, all)
    ensures n * groups == all
  {
    SameQuotient(1.0, groups, n as real, all);
    assert (n * groups) as real == n as real * groups as real;
  }

  lemma MeanIs(pts: seq<Pt>)
    requires Count(pts) > 0
    ensures Mean(pts) == Quotient(Total(pts), Count(pts))
  {
  }

  lemma {:induction false} GroupIsCounted(pts: seq<Pt>, fine: seq<int>, g: nat)
    requires fine != [] && g < |fine| && Count(Groups(pts, fine)[g]) > 0
    ensures Count(pts) > 0
    decreases |fine|
  {
    hide Count, Groups, Below;
    GroupsUnfold(pts, fine);
    if |fine| > 1 {
      var k := Below(pts, fine[1]);
      assert pts == pts[..k] + pts[k..];
      Concat(pts[..k], pts[k..]);
      if g > 0 {
        GroupIsCounted(pts[k..], fine[1..], g - 1);
      }
    }
  }

  /** How many averages there are depends on the shape alone. */
  lemma {:induction false} SameFilled(p: seq<Pt>, q: seq<Pt>, fine: seq<int>)
    requires fine != [] && SameShape(p, q)
    ensures Count(Group(Average, p, fine)) == Count(Group(Average, q, fine))
    decreases |fine|
  {
    hide Count, Total, HoldsNull, Mean, Emit, Group, Below;
    if |fine| == 1 {
      SameCount(p, q);
      GroupOne(Average, p, fine);
      GroupOne(Average, q, fine);
      EmitAverage(fine[0], p);
      EmitAverage(fine[0], q);
    } else {
      SameBelow(p, q, fine[1]);
      var k := Below(p, fine[1]);
      SameCount(p[..k], q[..k]);
      SameFilled(p[k..], q[k..], fine[1..]);
      GroupsStep(p, fine);
      GroupsStep(q, fine);
      EmitAverage(fine[0], p[..k]);
      EmitAverage(fine[0], q[..k]);
      Concat(Emit(Average, fine[0], p[..k]), Group(Average, p[k..], fine[1..]));
      Concat(Emit(Average, fine[0], q[..k]), Group(Average, q[k..], fine[1..]));
    }
  }

  /** Uneven groups disagree for some values. */
  lemma UnevenFails(pts: seq<Pt>, fine: seq<int>) returns (q: seq<Pt>)
    requires fine != [] && !Even(Groups(pts, fine))
    ensures SameShape(q, pts) && !HeadAgrees(q, fine)
  {
    hide Count, HeadAgrees, SameShape, Marked, Group;
    var gs := Groups(pts, fine);
    var g, h :| 0 <= g < h < |gs| && Count(gs[g]) > 0 && Count(gs[h]) > 0 && Count(gs[g]) != Count(gs[h]);
    q := Marked(pts, fine, g);
    MarkedShape(pts, fine, g);
    if HeadAgrees(q, fine) {
      AgreementForces(pts, fine, g);
      q := Marked(pts, fine, h);
      MarkedShape(pts, fine, h);
      if HeadAgrees(q, fine) {
        AgreementForces(pts, fine, h);
        SameFactor(Count(gs[g]), Count(gs[h]), Count(Group(Average, pts, fine)));
        GroupIsCounted(pts, fine, g);
        assert false;
      }
    }
  }

  lemma SameFactor(a: int, b: int, n: int)
    requires a * n == b * n
    ensures a == b || n == 0
  {
  }

  // ----- all coarse groups

  /** No coarse position separates the fine positions `a` and `b`. */
  ghost predicate SameCoarse(coarse: seq<int>, a: int, b: int) {
    forall c | c in coarse :: c <= a || b < c
  }

  /** Inside each coarse group, all fine groups with a number hold equally many. */
  ghost predicate BalancedOn(gs: seq<seq<Pt>>, fine: seq<int>, coarse: seq<int>)
    requires |gs| == |fine|
  {
    forall g, h | 0 <= g < h < |fine| && SameCoarse(coarse, fine[g], fine[h]) && Count(gs[g]) > 0 && Count(gs[h]) > 0 ::
      Count(gs[g]) == Count(gs[h])
  }

  ghost predicate Balanced(pts: seq<Pt>, fine: seq<int>, coarse: seq<int>)
    requires fine != []
  {
    BalancedOn(Groups(pts, fine), fine, coarse)
  }

  /** Do averages of averages agree with averages? */
  predicate Regroups(pts: seq<Pt>, fine: seq<int>, coarse: seq<int>)
    requires fine != [] && coarse != []
  {
    Group(Average, Group(Average, pts, fine), coarse) == Group(Average, pts, coarse)
  }

  lemma RegroupsOne(pts: seq<Pt>, fine: seq<int>, coarse: seq<int>)
    requires fine != [] && |coarse| == 1
    ensures Regroups(pts, fine, coarse) <==> HeadAgrees(pts, fine)
  {
    hide Aggregate, Group;
    var once := Group(Average, pts, fine);
    GroupOne(Average, once, coarse);
    GroupOne(Average, pts, coarse);
    SameEmit(coarse[0], once, pts);
  }

  lemma SameEmit(x: int, p: seq<Pt>, q: seq<Pt>)
    ensures Emit(Average, x, p) == Emit(Average, x, q) <==> Aggregate(Average, p) == Aggregate(Average, q)
  {
    hide Aggregate;
  }

  lemma Reassociate(a: seq<seq<Pt>>, b: seq<seq<Pt>>, c: seq<seq<Pt>>)
    ensures a + (b + c) == (a + b) + c
  {
  }

  /** The groups split where the regrouping does. */
  lemma {:induction false} GroupsSplit(pts: seq<Pt>, positions: seq<int>, k: nat)
    requires 0 < k < |positions| && Sorted(pts) && Increasing(positions)
    ensures var m := Below(pts, positions[k]);
            Groups(pts, positions) == Groups(pts[..m], positions[..k]) + Groups(pts[m..], positions[k..])
    decreases k
  {
    hide Groups, Below, Increasing;
    var m := Below(pts, positions[k]);
    GroupsUnfold(pts, positions);
    GroupsUnfold(pts[..m], positions[..k]);
    if k > 1 {
      var j := Below(pts, positions[1]);
      SplitCuts(pts, positions, k);
      GroupsSplit(pts[j..], positions[1..], k - 1);
      Reassociate([pts[..j]], Groups(pts[..m][j..], positions[..k][1..]), Groups(pts[m..], positions[k..]));
    }
  }

  /** Regrouping agrees when it does in the first coarse group and in the others. */
  lemma RegroupsMore(pts: seq<Pt>, fine: seq<int>, coarse: seq<int>, k: nat)
    requires Sorted(pts) && Coarsens(coarse, fine) && |coarse| > 1
    requires 0 < k < |fine| && fine[k] == coarse[1] && forall x | x in fine[..k] :: x < coarse[1]
    ensures var m := Below(pts, coarse[1]);
            Regroups(pts, fine, coarse) <==> HeadAgrees(pts[..m], fine[..k]) && Regroups(pts[m..], fine[k..], coarse[1..])
  {
    hide Aggregate, Emit, Below, Group, Count, HoldsNull;
    var once := Group(Average, pts, fine);
    var m := Below(pts, coarse[1]);
    GroupSplits(Average, pts, fine, k);
    var left, right := Group(Average, pts[..m], fine[..k]), Group(Average, pts[m..], fine[k..]);
    EmittedIncreasing(Average, pts[..m], fine[..k]);
    EmittedIncreasing(Average, pts[m..], fine[k..]);
    BelowUnique(once, coarse[1], |left|);
    assert once[..|left|] == left && once[|left|..] == right;
    GroupMore(Average, once, coarse);
    GroupMore(Average, pts, coarse);
    KindIsKept(pts[..m], fine[..k]);
    EmitAverage(coarse[0], left);
    EmitAverage(coarse[0], pts[..m]);
    SameEmit(coarse[0], left, pts[..m]);
    SameParts(Emit(Average, coarse[0], left), Group(Average, right, coarse[1..]),
              Emit(Average, coarse[0], pts[..m]), Group(Average, pts[m..], coarse[1..]));
  }

  lemma SameParts(a: seq<Pt>, b: seq<Pt>, c: seq<Pt>, d: seq<Pt>)
    requires |a| == |c|
    ensures a + b == c + d <==> a == c && b == d
  {
    assert (a + b)[..|a|] == a && (c + d)[..|c|] == c;
    assert (a + b)[|a|..] == b && (c + d)[|c|..] == d;
  }

  lemma BalancedOne(pts: seq<Pt>, fine: seq<int>, coarse: seq<int>)
    requires Coarsens(coarse, fine) && |coarse| == 1
    ensures Balanced(pts, fine, coarse) <==> Even(Groups(pts, fine))
  {
    hide Count, Groups;
    assert forall g, h | 0 <= g < h < |fine| :: SameCoarse(coarse, fine[g], fine[h]);
  }

  /** What is known of the groups at a coarse boundary. */
  ghost predicate Boundary(gs: seq<seq<Pt>>, left: seq<seq<Pt>>, right: seq<seq<Pt>>, fine: seq<int>, coarse: seq<int>, k: nat)
    requires coarse != []
  {
    && |left| == k <= |fine| && gs == left + right && |gs| == |fine|
    && forall g, h | 0 <= g < h < |fine| ::
      && (h < k ==> SameCoarse(coarse, fine[g], fine[h]))
      && (g < k <= h ==> !SameCoarse(coarse, fine[g], fine[h]))
      && (k <= g ==> (SameCoarse(coarse, fine[g], fine[h]) <==> SameCoarse(coarse[1..], fine[g], fine[h])))
  }

  lemma BalanceJoins(gs: seq<seq<Pt>>, left: seq<seq<Pt>>, right: seq<seq<Pt>>, fine: seq<int>, coarse: seq<int>, k: nat)
    requires coarse != [] && Boundary(gs, left, right, fine, coarse, k)
    requires Even(left) && BalancedOn(right, fine[k..], coarse[1..])
    ensures BalancedOn(gs, fine, coarse)
  {
    hide Count, SameCoarse;
    forall g, h | 0 <= g < h < |fine| && SameCoarse(coarse, fine[g], fine[h]) && Count(gs[g]) > 0 && Count(gs[h]) > 0
      ensures Count(gs[g]) == Count(gs[h])
    {
      if k <= g {
        assert fine[k..][g - k] == fine[g] && fine[k..][h - k] == fine[h];
        assert gs[g] == right[g - k] && gs[h] == right[h - k];
      } else {
        assert gs[g] == left[g] && gs[h] == left[h];
      }
    }
  }

  lemma BalanceParts(gs: seq<seq<Pt>>, left: seq<seq<Pt>>, right: seq<seq<Pt>>, fine: seq<int>, coarse: seq<int>, k: nat)
    requires coarse != [] && Boundary(gs, left, right, fine, coarse, k)
    requires BalancedOn(gs, fine, coarse)
    ensures Even(left) && BalancedOn(right, fine[k..], coarse[1..])
  {
    hide Count, SameCoarse;
    forall g, h | 0 <= g < h < |left| && Count(left[g]) > 0 && Count(left[h]) > 0
      ensures Count(left[g]) == Count(left[h])
    {
      assert gs[g] == left[g] && gs[h] == left[h];
    }
    forall g, h | 0 <= g < h < |right| && SameCoarse(coarse[1..], fine[k..][g], fine[k..][h])
                  && Count(right[g]) > 0 && Count(right[h]) > 0
      ensures Count(right[g]) == Count(right[h])
    {
      assert fine[k..][g] == fine[g + k] && fine[k..][h] == fine[h + k];
      assert gs[g + k] == right[g] && gs[h + k] == right[h];
    }
  }

  lemma BalancedMore(pts: seq<Pt>, fine: seq<int>, coarse: seq<int>, k: nat)
    requires Sorted(pts) && Coarsens(coarse, fine) && |coarse| > 1 && 0 < k < |fine| && fine[k] == coarse[1]
    ensures var m := Below(pts, coarse[1]);
            Balanced(pts, fine, coarse) <==>
            Even(Groups(pts[..m], fine[..k])) && Balanced(pts[m..], fine[k..], coarse[1..])
  {
    hide Count, Groups, Below, SameCoarse, BalancedOn, Even;
    GroupsSplit(pts, fine, k);
    var m := Below(pts, coarse[1]);
    var gs, left, right := Groups(pts, fine), Groups(pts[..m], fine[..k]), Groups(pts[m..], fine[k..]);
    assert Boundary(gs, left, right, fine, coarse, k) by {
      forall g, h | 0 <= g < h < |fine|
        ensures h < k ==> SameCoarse(coarse, fine[g], fine[h])
        ensures g < k <= h ==> !SameCoarse(coarse, fine[g], fine[h])
        ensures k <= g ==> (SameCoarse(coarse, fine[g], fine[h]) <==> SameCoarse(coarse[1..], fine[g], fine[h]))
      {
        CoarseSides(coarse, fine, k, g, h);
      }
    }
    hide Boundary;
    if Even(left) && BalancedOn(right, fine[k..], coarse[1..]) {
      BalanceJoins(gs, left, right, fine, coarse, k);
    }
    if BalancedOn(gs, fine, coarse) {
      BalanceParts(gs, left, right, fine, coarse, k);
    }
  }

  lemma FirstIsBefore(coarse: seq<int>, a: int, b: int)
    requires coarse != [] && coarse[0] <= a
    ensures SameCoarse(coarse, a, b) <==> SameCoarse(coarse[1..], a, b)
  {
    if SameCoarse(coarse[1..], a, b) {
      forall c | c in coarse
        ensures c <= a || b < c
      {
        assert c == coarse[0] || c in coarse[1..];
      }
    }
    if SameCoarse(coarse, a, b) {
      forall c | c in coarse[1..]
        ensures c <= a || b < c
      {
        assert c in coarse;
      }
    }
  }

  lemma CoarseSides(coarse: seq<int>, fine: seq<int>, k: nat, g: nat, h: nat)
    requires Coarsens(coarse, fine) && |coarse| > 1 && 0 < k < |fine| && fine[k] == coarse[1] && g < h < |fine|
    ensures h < k ==> SameCoarse(coarse, fine[g], fine[h])
    ensures g < k <= h ==> !SameCoarse(coarse, fine[g], fine[h])
    ensures k <= g ==> (SameCoarse(coarse, fine[g], fine[h]) <==> SameCoarse(coarse[1..], fine[g], fine[h]))
  {
    if h < k {
      forall c | c in coarse
        ensures c <= fine[g] || fine[h] < c
      {
        var i :| 0 <= i < |coarse| && coarse[i] == c;
        if i > 0 {
          assert c >= coarse[1] > fine[h];
        }
      }
    } else if g < k {
      assert coarse[1] in coarse && fine[g] < coarse[1] <= fine[h];
    } else {
      assert coarse[0] == fine[0] <= fine[g];
      FirstIsBefore(coarse, fine[g], fine[h]);
    }
  }

  lemma {:induction false} BalancedRegroups(pts: seq<Pt>, fine: seq<int>, coarse: seq<int>)
    requires Sorted(pts) && Coarsens(coarse, fine) && Balanced(pts, fine, coarse)
    ensures Regroups(pts, fine, coarse)
    decreases |coarse|
  {
    hide Regroups, Balanced, HeadAgrees, Even, Below;
    if |coarse| == 1 {
      BalancedOne(pts, fine, coarse);
      EvenAgrees(pts, fine);
      RegroupsOne(pts, fine, coarse);
    } else {
      var k := CoarseIndex(coarse, fine);
      var m := Below(pts, coarse[1]);
      BalancedMore(pts, fine, coarse, k);
      EvenAgrees(pts[..m], fine[..k]);
      BalancedRegroups(pts[m..], fine[k..], coarse[1..]);
      RegroupsMore(pts, fine, coarse, k);
    }
  }

  lemma BalanceOfShape(p: seq<Pt>, q: seq<Pt>, fine: seq<int>, coarse: seq<int>)
    requires fine != [] && SameShape(p, q)
    ensures Balanced(p, fine, coarse) <==> Balanced(q, fine, coarse)
  {
    hide Count, Groups, SameCoarse;
    SameCounts(p, q, fine);
  }

  /** Unbalanced groups do not regroup for some values. */
  lemma {:induction false} UnbalancedFails(pts: seq<Pt>, fine: seq<int>, coarse: seq<int>) returns (q: seq<Pt>)
    requires Sorted(pts) && Coarsens(coarse, fine) && !Balanced(pts, fine, coarse)
    ensures SameShape(q, pts) && !Regroups(q, fine, coarse)
    decreases |coarse|
  {
    hide Regroups, Balanced, HeadAgrees, Even, Below;
    if |coarse| == 1 {
      BalancedOne(pts, fine, coarse);
      q := UnevenFails(pts, fine);
      RegroupsOne(q, fine, coarse);
    } else {
      var k := CoarseIndex(coarse, fine);
      var m := Below(pts, coarse[1]);
      BalancedMore(pts, fine, coarse, k);
      if !Even(Groups(pts[..m], fine[..k])) {
        var head := UnevenFails(pts[..m], fine[..k]);
        q := head + pts[m..];
        assert q[..m] == head;
      } else {
        var tail := UnbalancedFails(pts[m..], fine[k..], coarse[1..]);
        q := pts[..m] + tail;
        assert q[m..] == tail;
      }
      SameBelow(q, pts, coarse[1]);
      RegroupsMore(q, fine, coarse, k);
    }
  }

  /** Given where the numbers and nulls stand, averages of averages are averages for all values exactly
      when inside each coarse group all fine groups with a number hold equally many. */
  lemma AveragesRegroup(pts: seq<Pt>, fine: seq<int>, coarse: seq<int>)
    requires Sorted(pts) && Coarsens(coarse, fine)
    ensures (forall q | SameShape(q, pts) :: Group(Average, Group(Average, q, fine), coarse) == Group(Average, q, coarse))
       <==> Balanced(pts, fine, coarse)
  {
    hide Balanced, Group;
    if Balanced(pts, fine, coarse) {
      forall q | SameShape(q, pts)
        ensures Group(Average, Group(Average, q, fine), coarse) == Group(Average, q, coarse)
      {
        BalanceOfShape(q, pts, fine, coarse);
        BalancedRegroups(q, fine, coarse);
      }
    } else {
      var q := UnbalancedFails(pts, fine, coarse);
      assert SameShape(q, pts) && !Regroups(q, fine, coarse);
      assert Group(Average, Group(Average, q, fine), coarse) != Group(Average, q, coarse);
    }
  }

  /** Three points of which two share a fine group: the average of the averages is 1.5, the average 1. */
  lemma AverageIsNotTwoStep()
    ensures var pts := [Pt(0, Num(0.0)), Pt(0, Num(0.0)), Pt(1, Num(3.0))];
            Group(Average, Group(Average, pts, [0, 1]), [0]) != Group(Average, pts, [0])
  {
    hide Aggregate, Group, Groups, Count, Total, HoldsNull, Below, Emit, Mean, Quotient;
    var a, b := Pt(0, Num(0.0)), Pt(1, Num(3.0));
    var p, q := [a] + [a], [b];
    var pts := p + q;
    assert pts == [Pt(0, Num(0.0)), Pt(0, Num(0.0)), Pt(1, Num(3.0))];
    OneIn(a);
    OneIn(b);
    Concat([a], [a]);
    Concat(p, q);
    BelowUnique(pts, 1, 2);
    assert pts[..2] == p && pts[2..] == q && [0, 1][1..] == [1];
    GroupsStep(pts, [0, 1]);
    GroupOne(Average, q, [1]);
    var once := Group(Average, pts, [0, 1]);
    EmitAverage(0, p);
    EmitAverage(1, q);
    Concat(Emit(Average, 0, p), Emit(Average, 1, q));
    ExampleMeans(p, q, once, pts);
    AverageIs(once);
    AverageIs(pts);
    RegroupsOne(pts, [0, 1], [0]);
  }

  lemma ExampleMeans(p: seq<Pt>, q: seq<Pt>, once: seq<Pt>, pts: seq<Pt>)
    requires Count(p) == 2 && Total(p) == 0.0 && Count(q) == 1 && Total(q) == 3.0
    requires Count(once) == 2 && Total(once) == Mean(p) + Mean(q) && Count(pts) == 3 && Total(pts) == 3.0
    ensures Mean(once) == 1.5 && Mean(pts) == 1.0
  {
    hide Count, Total;
  }
}
