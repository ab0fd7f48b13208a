/** Stacked values: how the intervals of the points of one stack lie on top of each other. */
module StackModel {

  /** One stack: the sign, the stack key and the x value. */
  datatype Cell = Cell(negative: bool, key: string, x: int)

  /** What a point adds to its stack; a null counts as zero and is not numeric. */
  datatype Contribution = Contribution(cell: Cell, y: real, numeric: bool)

  /** What a list of contributions adds to one stack. */
  function Sum(cs: seq<Contribution>, c: Cell): real {
    if cs == [] then 0.0
    else Sum(cs[..|cs| - 1], c) + (if cs[|cs| - 1].cell == c then cs[|cs| - 1].y else 0.0)
  }

  lemma {:induction false} SumConcat(u: seq<Contribution>, v: seq<Contribution>, c: Cell)
    ensures Sum(u + v, c) == Sum(u, c) + Sum(v, c)
  {
    if v == [] {
      assert u + v == u;
    } else {
      assert (u + v)[..|u + v| - 1] == u + v[..|v| - 1];
      SumConcat(u, v[..|v| - 1], c);
    }
  }

  /** The stack of `c` above everything that comes before position `n`. */
  function Above(cs: seq<Contribution>, c: Cell, n: nat): real
    requires n <= |cs|
  {
    Sum(cs[n..], c)
  }

  lemma AboveStep(cs: seq<Contribution>, c: Cell, n: nat)
    requires n < |cs|
    ensures Above(cs, c, n) == Above(cs, c, n + 1) + (if cs[n].cell == c then cs[n].y else 0.0)
    ensures Above(cs, c, |cs|) == 0.0
    ensures Above(cs, c, n) == Sum(cs, c) - Sum(cs[..n], c)
  {
    assert cs[n..] == [cs[n]] + cs[n + 1..];
    SumConcat([cs[n]], cs[n + 1..], c);
    assert [cs[n]][..0] == [];
    assert cs == cs[..n] + cs[n..];
    SumConcat(cs[..n], cs[n..], c);
  }

  /** The interval of the n-th point, when the stack is consumed from the top in order. */
  function Top(cs: seq<Contribution>, n: nat): real
    requires n < |cs|
  {
    Above(cs, cs[n].cell, n)
  }

  function Bottom(cs: seq<Contribution>, n: nat): real
    requires n < |cs|
  {
    Above(cs, cs[n].cell, n + 1)
  }

  /** Around the threshold 0 a stack holds values of one sign only. */
  ghost predicate Signed(cs: seq<Contribution>) {
    forall i | 0 <= i < |cs| :: if cs[i].cell.negative then cs[i].y < 0.0 else cs[i].y >= 0.0
  }

  /** Is `v` in the interval of point `n`? The end nearer to zero belongs to it. */
  ghost predicate Covers(cs: seq<Contribution>, n: int, c: Cell, v: real) {
    && 0 <= n < |cs| && cs[n].cell == c
    && if c.negative then Top(cs, n) < v <= Bottom(cs, n) else Bottom(cs, n) <= v < Top(cs, n)
  }

  /** Between zero and the total of the stack. */
  ghost predicate InStack(cs: seq<Contribution>, c: Cell, v: real) {
    if c.negative then Sum(cs, c) < v <= 0.0 else 0.0 <= v < Sum(cs, c)
  }

  lemma {:induction false} AboveShrinks(cs: seq<Contribution>, c: Cell, n: nat, m: nat)
    requires Signed(cs) && n <= m <= |cs|
    ensures if c.negative then Above(cs, c, n) <= Above(cs, c, m) else Above(cs, c, n) >= Above(cs, c, m)
    decreases m - n
  {
    hide Above;
    if n < m {
      AboveShrinks(cs, c, n, m - 1);
      AboveStep(cs, c, m - 1);
    }
  }

  lemma WholeIsAbove(cs: seq<Contribution>, c: Cell)
    ensures Above(cs, c, 0) == Sum(cs, c) && Above(cs, c, |cs|) == 0.0
  {
    assert cs[0..] == cs && cs[|cs|..] == [];
  }

  /** Some point covers `v`. */
  lemma SomePointCovers(cs: seq<Contribution>, c: Cell, v: real) returns (n: nat)
    requires Signed(cs) && InStack(cs, c, v)
    ensures Covers(cs, n, c, v)
  {
    hide Above, Sum;
    WholeIsAbove(cs, c);
    n := 0;
    var k := |cs|;
    // v is on the far side at 0 and on the near side at k
    while k > 0 && (if c.negative then v <= Above(cs, c, k - 1) else Above(cs, c, k - 1) <= v)
      invariant 0 <= k <= |cs|
      invariant if c.negative then v <= Above(cs, c, k) else Above(cs, c, k) <= v
    {
      k := k - 1;
    }
    n := k - 1;
    AboveStep(cs, c, n);
  }

  lemma OnePointCovers(cs: seq<Contribution>, c: Cell, v: real, n: int, m: int)
    requires Signed(cs) && Covers(cs, n, c, v) && Covers(cs, m, c, v)
    ensures n == m
  {
    hide Above;
    if n < m {
      AboveShrinks(cs, c, n + 1, m);
    } else if m < n {
      AboveShrinks(cs, c, m + 1, n);
    }
  }

  /** The intervals of a stack tile it: every value between zero and the total lies in the interval
      of exactly one point, and no interval reaches beyond. */
  lemma StacksTile(cs: seq<Contribution>, c: Cell, v: real)
    requires Signed(cs)
    ensures (exists n :: Covers(cs, n, c, v)) <==> InStack(cs, c, v)
    ensures forall n, m | Covers(cs, n, c, v) && Covers(cs, m, c, v) :: n == m
  {
    hide Covers, InStack;
    if InStack(cs, c, v) {
      var n := SomePointCovers(cs, c, v);
    }
    forall n | Covers(cs, n, c, v)
      ensures InStack(cs, c, v)
    {
      CoversInside(cs, c, v, n);
    }
    forall n, m | Covers(cs, n, c, v) && Covers(cs, m, c, v)
      ensures n == m
    {
      OnePointCovers(cs, c, v, n, m);
    }
  }

  lemma CoversInside(cs: seq<Contribution>, c: Cell, v: real, n: int)
    requires Signed(cs) && Covers(cs, n, c, v)
    ensures InStack(cs, c, v)
  {
    hide Above;
    WholeIsAbove(cs, c);
    AboveShrinks(cs, c, 0, n);
    AboveShrinks(cs, c, n + 1, |cs|);
  }

  /** Consecutive points of a stack share an end; the first starts at the total, the last ends at 0. */
  lemma IntervalsAreAdjacent(cs: seq<Contribution>, n: nat, m: nat)
    requires n < m < |cs| && cs[n].cell == cs[m].cell
    requires forall k | n < k < m :: cs[k].cell != cs[n].cell
    ensures Bottom(cs, n) == Top(cs, m)
  {
    NothingBetween(cs, cs[n].cell, n + 1, m);
  }

  lemma {:induction false} NothingBetween(cs: seq<Contribution>, c: Cell, n: nat, m: nat)
    requires n <= m <= |cs| && forall k | n <= k < m :: cs[k].cell != c
    ensures Above(cs, c, n) == Above(cs, c, m)
    decreases m - n
  {
    hide Above;
    if n < m {
      NothingBetween(cs, c, n, m - 1);
      AboveStep(cs, c, m - 1);
    }
  }

  lemma FirstAndLast(cs: seq<Contribution>, n: nat)
    requires n < |cs|
    ensures (forall k | 0 <= k < n :: cs[k].cell != cs[n].cell) ==> Top(cs, n) == Sum(cs, cs[n].cell)
    ensures (forall k | n < k < |cs| :: cs[k].cell != cs[n].cell) ==> Bottom(cs, n) == 0.0
  {
    hide Above;
    WholeIsAbove(cs, cs[n].cell);
    if forall k | 0 <= k < n :: cs[k].cell != cs[n].cell {
      NothingBetween(cs, cs[n].cell, 0, n);
    }
    if forall k | n < k < |cs| :: cs[k].cell != cs[n].cell {
      NothingBetween(cs, cs[n].cell, n + 1, |cs|);
    }
  }

  /** `translate` puts the bottom of a point of the last series at the threshold 0. That is where it
      belongs exactly when no later point adds anything to its stack. */
  lemma LastSeriesRule(cs: seq<Contribution>, n: nat)
    requires Signed(cs) && n < |cs|
    ensures Bottom(cs, n) == 0.0 <==> forall m | n < m < |cs| && cs[m].cell == cs[n].cell :: cs[m].y == 0.0
  {
    hide Above;
    var c := cs[n].cell;
    WholeIsAbove(cs, c);
    if forall m | n < m < |cs| && cs[m].cell == c :: cs[m].y == 0.0 {
      ZerosAdd(cs, c, n + 1);
    }
    forall m | Bottom(cs, n) == 0.0 && n < m < |cs| && cs[m].cell == c
      ensures cs[m].y == 0.0
    {
      AboveShrinks(cs, c, n + 1, m);
      AboveStep(cs, c, m);
      AboveShrinks(cs, c, m + 1, |cs|);
    }
  }

  lemma {:induction false} ZerosAdd(cs: seq<Contribution>, c: Cell, n: nat)
    requires n <= |cs| && forall m | n <= m < |cs| && cs[m].cell == c :: cs[m].y == 0.0
    ensures Above(cs, c, n) == 0.0
    decreases |cs| - n
  {
    hide Above;
    WholeIsAbove(cs, c);
    if n < |cs| {
      ZerosAdd(cs, c, n + 1);
      AboveStep(cs, c, n);
    }
  }

  // ----- percentages

  function Share(y: real, total: real): real {
    if total != 0.0 then y * 100.0 / total else 0.0
  }

  /** The percentages of the points of one stack. */
  function ShareSum(cs: seq<Contribution>, c: Cell, total: real): real {
    if cs == [] then 0.0
    else ShareSum(cs[..|cs| - 1], c, total)
         + (if cs[|cs| - 1].cell == c then Share(cs[|cs| - 1].y, total) else 0.0)
  }

  lemma ShareAdds(a: real, b: real, total: real)
    ensures Share(a + b, total) == Share(a, total) + Share(b, total)
    ensures Share(0.0, total) == 0.0
    ensures total != 0.0 ==> Share(total, total) == 100.0
  {
    if total != 0.0 {
      var u, v := a * 100.0, b * 100.0;
      assert (a + b) * 100.0 == u + v;
      QuotientAdds(u, v, total);
      QuotientOfMultiple(100.0, total);
      assert 0.0 * 100.0 == 0.0 * total;
      QuotientOfMultiple(0.0, total);
    }
  }

  lemma QuotientAdds(u: real, v: real, d: real)
    requires d != 0.0
    ensures (u + v) / d == u / d + v / d
  {
  }

  lemma QuotientOfMultiple(q: real, d: real)
    requires d != 0.0
    ensures (d * q) / d == q && (q * d) / d == q
  {
  }

  lemma {:induction false} SharesFollowSums(cs: seq<Contribution>, c: Cell, total: real)
    ensures ShareSum(cs, c, total) == Share(Sum(cs, c), total)
  {
    hide Share;
    ShareAdds(0.0, 0.0, total);
    if cs != [] {
      SharesFollowSums(cs[..|cs| - 1], c, total);
      ShareAdds(Sum(cs[..|cs| - 1], c), cs[|cs| - 1].y, total);
    }
  }

  /** The percentages of a stack with a non-zero total sum to 100. */
  lemma PercentagesSumTo100(cs: seq<Contribution>, c: Cell)
    requires Sum(cs, c) != 0.0
    ensures ShareSum(cs, c, Sum(cs, c)) == 100.0
  {
    SharesFollowSums(cs, c, Sum(cs, c));
    ShareAdds(0.0, 0.0, Sum(cs, c));
  }
}
