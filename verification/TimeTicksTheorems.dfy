/** Where calendar ticks fall and when they are in order. */
module TimeTicksTheorems {
  import opened JsDate
  import opened TimeTicks

  // ----- the first tick

  /** What a caller can check to know that the first tick does not come after `min`: years are
      rounded toward zero, and weeks start on a fixed day even when `min` falls before it. */
  predicate StartsInTime(u: Unit, count: int, min: int, startOfWeek: int)
    requires count > 0
  {
    match u
    case YearUnit => YearAt(min) >= 0 || -YearAt(min) % count == 0
    case WeekUnit =>
      // the distance from the rounded date to min, in days, covers the shift to the start of the week
      startOfWeek - WeekDay(DayDown(min, count) * MS_DAY) <= DateOf(Day(min)) - Down(DateOf(Day(min)), count)
    case _ => true
  }

  lemma TimeOfDay(min: int, count: int)
    requires count > 0
    ensures var first := FirstTick(SecondUnit, count, min, 0); first <= min < first + count * MS_SECOND
    ensures var first := FirstTick(MinuteUnit, count, min, 0); first <= min < first + count * MS_MINUTE
    ensures var first := FirstTick(HourUnit, count, min, 0); first <= min < first + count * MS_HOUR
  {
    FieldDown(min, MS_SECOND, 60, count);
    FieldDown(min, MS_MINUTE, 60, count);
    FieldDown(min, MS_HOUR, 24, count);
  }

  /** Rounding down one field of a time moves it back by less than `count` of the field's unit. */
  lemma FieldDown(t: int, unit: int, n: int, count: int)
    requires count > 0
    requires (unit == MS_SECOND && n == 60) || (unit == MS_MINUTE && n == 60) || (unit == MS_HOUR && n == 24)
    ensures var first := t - t % (unit * n) + Down(t / unit % n, count) * unit; first <= t < first + count * unit
  {
    var f := t / unit % n;
    DownBounds(f, count);
    FieldSplit(t, unit, n);
    var d := Down(f, count);
    assert f + 1 <= d + count;
    ScaleAtMost(f + 1, d + count, unit);
    ScaleAtMost(d, f, unit);
    assert (d + count) * unit == d * unit + count * unit;
  }

  lemma ScaleAtMost(a: int, b: int, c: int)
    requires a <= b && c > 0
    ensures a * c <= b * c
  {
    assert (b - a) * c >= 0;
  }

  lemma FieldSplit(t: int, unit: int, n: int)
    requires (unit == MS_SECOND && n == 60) || (unit == MS_MINUTE && n == 60) || (unit == MS_HOUR && n == 24)
    ensures var rest := t % (unit * n); (t / unit % n) * unit <= rest < (t / unit % n + 1) * unit
  {
    if unit == MS_SECOND {
      SecondSplit(t);
    } else if unit == MS_MINUTE {
      MinuteSplit(t);
    } else {
      HourSplit(t);
    }
  }

  lemma SecondSplit(t: int)
    ensures t % 60000 == 1000 * (t / 1000 % 60) + t % 1000
  {
    var q := t / 1000;
    assert t == 60000 * (q / 60) + (1000 * (q % 60) + t % 1000);
  }

  lemma MinuteSplit(t: int)
    ensures t % 3600000 == 60000 * (t / 60000 % 60) + t % 60000
  {
    var q := t / 60000;
    assert t == 3600000 * (q / 60) + (60000 * (q % 60) + t % 60000);
  }

  lemma HourSplit(t: int)
    ensures t % 86400000 == 3600000 * (t / 3600000 % 24) + t % 3600000
  {
    var q := t / 3600000;
    assert t == 86400000 * (q / 24) + (3600000 * (q % 24) + t % 3600000);
  }

  lemma DayOrder(a: int, t: int)
    ensures a * MS_DAY <= t <==> a <= Day(t)
    ensures t < a * MS_DAY <==> Day(t) < a
  {
  }

  /** How the date rounded down stands to the date itself. */
  lemma DayDownBounds(min: int, count: int)
    requires count > 0
    ensures Day(min) - DayDown(min, count) == DateOf(Day(min)) - Down(DateOf(Day(min)), count)
    ensures DayDown(min, count) <= Day(min) < DayDown(min, count) + count
  {
    hide MonthStart, YearOf, MonthOf, DateOf, Day;
    CivilRoundTrip(Day(min));
    DownBounds(DateOf(Day(min)), count);
  }

  lemma MonthFirstBounds(min: int, count: int)
    requires count > 0
    ensures var y, m := YearAt(min), Down(MonthAt(min), count);
            MonthStart(y, m) <= Day(min) < MonthStart(y, m + count)
  {
    hide MonthStart, YearOf, MonthOf, DateOf;
    var y, m, k := YearAt(min), MonthAt(min), Down(MonthAt(min), count);
    DownBounds(m, count);
    CivilRoundTrip(Day(min));
    MonthsApart(y, k, m - k);
    MonthsApart(y, m + 1, k + count - (m + 1));
    DayBeforeNextMonth(Day(min));
  }

  lemma DayBeforeNextMonth(day: int)
    ensures day < MonthStart(YearOf(day), MonthOf(day) + 1)
  {
    hide DayFromYear, IsLeap;
    var y, m := YearOf(day), MonthOf(day);
    YearLength(y);
    if m == 11 {
      assert (m + 1) / 12 == 1 && (m + 1) % 12 == 0;
    }
  }

  /** Years are rounded toward zero. */
  lemma YearDown(y: int, count: int)
    requires count > 0
    ensures var r := y - JsRem(y, count);
            && r % count == 0 && y < r + count
            && (r <= y <==> y >= 0 || -y % count == 0)
  {
    var a := if y >= 0 then y else -y;
    var q := a / count;
    assert a == count * q + a % count;
    MultipleRem(q, count);
    MultipleRem(-q, count);
    assert count * -q == -(count * q);
  }

  lemma FirstTickAtMostMin(u: Unit, count: int, min: int, startOfWeek: int)
    requires count > 0
    ensures FirstTick(u, count, min, startOfWeek) <= min <==> StartsInTime(u, count, min, startOfWeek)
  {
    hide MonthStart, YearOf, MonthOf, DateOf, Day, Seconds, Minutes, Hours, JsRem;
    match u
    case MillisecondUnit =>
    case DayUnit =>
      DayDownBounds(min, count);
      DayOrder(DayDown(min, count), min);
    case WeekUnit =>
      DayDownBounds(min, count);
      var d := DayDown(min, count);
      StartOfDay(d);
      DayOrder(d - (d + 4) % 7 + startOfWeek, min);
    case MonthUnit =>
      MonthFirstBounds(min, count);
      DayOrder(MonthStart(YearAt(min), Down(MonthAt(min), count)), min);
    case YearUnit =>
      var y := YearAt(min);
      YearDown(y, count);
      YearStartOrder(y - JsRem(y, count), min);
      DayOrder(MonthStart(y - JsRem(y, count), 0), min);
    case _ => TimeOfDay(min, count);
  }

  lemma YearStart(y: int)
    ensures MonthStart(y, 0) == DayFromYear(y)
  {
    MonthZero(IsLeap(y));
  }

  lemma YearStartOrder(y: int, t: int)
    ensures MonthStart(y, 0) <= Day(t) <==> y <= YearAt(t)
  {
    hide MonthStart, DayFromYear, YearOf;
    YearStart(y);
    var z := YearAt(t);
    if y <= z { YearsApart(y, z); } else { YearsApart(z + 1, y); }
  }

  /** And the second tick comes after `min`: no tick is skipped or repeated at the start. */
  lemma SecondTickAfterMin(u: Unit, count: int, min: int, startOfWeek: int)
    requires count > 0 && startOfWeek >= 0
    ensures min < TickAt(u, count, FirstTick(u, count, min, startOfWeek), 1)
  {
    hide MonthStart, YearOf, MonthOf, DateOf, Day, Seconds, Minutes, Hours, JsRem, Utc;
    FirstTickFields(u, count, min, startOfWeek);
    var first := FirstTick(u, count, min, startOfWeek);
    match u
    case MillisecondUnit =>
    case DayUnit =>
      DayDownBounds(min, count);
      DayOrder(DayDown(min, count) + count, min);
    case WeekUnit =>
      DayDownBounds(min, count);
      var d := DayDown(min, count);
      DayOrder(d - (d + 4) % 7 + startOfWeek + 7 * count, min);
    case MonthUnit =>
      MonthFirstBounds(min, count);
      UtcIsLater(YearAt(first), MonthAt(first) + count);
      DayOrder(MonthStart(YearAt(first), MonthAt(first) + count), min);
    case YearUnit =>
      YearDown(YearAt(min), count);
      UtcIsLater(YearAt(first) + count, 0);
      YearStartOrder(YearAt(first) + count, min);
      DayOrder(MonthStart(YearAt(first) + count, 0), min);
    case _ => TimeOfDay(min, count);
  }

  // ----- ticks on the calendar

  lemma MonthFields(y: int, m: int)
    ensures var t := MakeDate(MonthStart(y, m), 0);
            && TimeWithinDay(t) == 0 && DateOf(Day(t)) == 1 && MonthAt(t) == m % 12
            && 12 * YearAt(t) + MonthAt(t) == 12 * y + m
  {
    hide MonthStart, YearOf, MonthOf, DateOf;
    FirstOfMonth(y, m);
    StartOfDay(MonthStart(y, m));
  }

  lemma MonthTickAt(count: int, min: int, startOfWeek: int, i: nat)
    requires count > 0
    ensures TickAt(MonthUnit, count, FirstTick(MonthUnit, count, min, startOfWeek), i) ==
            MakeDate(MonthStart(if i == 0 then YearAt(min) else UtcYear(YearAt(min)),
                                Down(MonthAt(min), count) + i * count), 0)
  {
    hide MonthStart, YearAt, MonthAt, UtcYear, Down, FirstTick;
    FirstTickFields(MonthUnit, count, min, startOfWeek);
  }

  /** Month ticks fall at midnight on the first of every `count`-th month, across year ends; only
      a first year between 0 and 99 is followed by ticks 1900 years later. */
  lemma MonthTicks(count: int, min: int, startOfWeek: int, i: nat)
    requires count > 0
    ensures var t := TickAt(MonthUnit, count, FirstTick(MonthUnit, count, min, startOfWeek), i);
            var y := YearAt(min);
            && TimeWithinDay(t) == 0 && DateOf(Day(t)) == 1
            && 12 * YearAt(t) + MonthAt(t) ==
               12 * (if i == 0 then y else UtcYear(y)) + Down(MonthAt(min), count) + i * count
            && (12 % count == 0 ==> MonthAt(t) % count == 0)
  {
    hide MonthStart, YearOf, MonthOf, DateOf, Day, TimeWithinDay, UtcYear, Down, FirstTick, TickAt;
    MonthTickAt(count, min, startOfWeek, i);
    var y := if i == 0 then YearAt(min) else UtcYear(YearAt(min));
    MonthFields(y, Down(MonthAt(min), count) + i * count);
    if 12 % count == 0 {
      StepsOfMultiples(MonthAt(min), i, count);
    }
  }

  lemma StepsOfMultiples(m: int, i: int, count: int)
    requires count > 0 && 12 % count == 0
    ensures (Down(m, count) + i * count) % 12 % count == 0
  {
    assert Down(m, count) + i * count == count * (m / count + i);
    MultipleRemainder(m / count + i, count);
  }

  /** A multiple of a divisor of 12 leaves a multiple of it modulo 12. */
  lemma MultipleRemainder(q: int, count: int)
    requires count > 0 && 12 % count == 0
    ensures (count * q) % 12 % count == 0
  {
    var d := 12 / count;
    var p := (count * q) / 12;
    assert 12 == count * d;
    assert count * q - 12 * p == count * (q - d * p) by {
      assert count * (q - d * p) == count * q - count * d * p;
    }
    MultipleRem(q - d * p, count);
  }

  /** Year ticks fall at midnight on 1 January; the first year is a multiple of `count`, and so are
      the others as far as `Date.UTC` leaves them alone or 1900 is one too. */
  lemma YearTicks(count: int, min: int, startOfWeek: int, i: nat)
    requires count > 0
    ensures var t := TickAt(YearUnit, count, FirstTick(YearUnit, count, min, startOfWeek), i);
            var y := YearAt(min) - JsRem(YearAt(min), count) + i * count;
            && TimeWithinDay(t) == 0 && DateOf(Day(t)) == 1 && MonthAt(t) == 0
            && YearAt(t) == (if i == 0 then y else UtcYear(y))
            && y % count == 0
            && (YearAt(t) % count == 0 <==> i == 0 || y < 0 || y > 99 || 1900 % count == 0)
  {
    hide MonthStart, YearOf, MonthOf, DateOf, Day, TimeWithinDay, JsRem;
    FirstTickFields(YearUnit, count, min, startOfWeek);
    YearDown(YearAt(min), count);
    var y0 := YearAt(min) - JsRem(YearAt(min), count);
    var y := y0 + i * count;
    AddMultiple(y0, i, count);
    AddRemainder(1900, y, count);
    var e := if i == 0 then y else UtcYear(y);
    FirstOfMonth(e, 0);
    StartOfDay(MonthStart(e, 0));
  }

  lemma AddMultiple(a: int, i: int, n: int)
    requires n > 0 && a % n == 0
    ensures (a + i * n) % n == 0
  {
    assert a + i * n == n * (a / n + i);
    MultipleRem(a / n + i, n);
  }

  lemma AddRemainder(a: int, b: int, n: int)
    requires n > 0 && b % n == 0
    ensures (a + b) % n == 0 <==> a % n == 0
  {
    if a % n == 0 {
      assert a + b == n * (a / n + b / n);
      MultipleRem(a / n + b / n, n);
    }
    if (a + b) % n == 0 {
      assert a == n * ((a + b) / n - b / n);
      MultipleRem((a + b) / n - b / n, n);
    }
  }

  // ----- the order of the ticks

  /** What `GetTimeTicks` returns. */
  ghost predicate IsTickList(u: Unit, count: int, min: int, max: int, startOfWeek: int, ticks: seq<int>)
    requires count > 0
  {
    var first := FirstTick(u, count, min, startOfWeek);
    && ticks != []
    && (forall k | 0 <= k < |ticks| :: ticks[k] == TickAt(u, count, first, k))
    && (forall k | 0 <= k < |ticks| - 1 :: ticks[k] < max)
    && ticks[|ticks| - 1] >= max
  }

  ghost predicate StrictlyIncreasing(s: seq<int>) {
    forall i, j | 0 <= i < j < |s| :: s[i] < s[j]
  }

  lemma {:induction false} StepwiseIncreasing(s: seq<int>)
    requires forall i | 0 <= i < |s| - 1 :: s[i] < s[i + 1]
    ensures StrictlyIncreasing(s)
  {
    if s != [] {
      StepwiseIncreasing(s[..|s| - 1]);
      if |s| > 1 {
        assert s[|s| - 2] < s[|s| - 2 + 1];
      }
    }
  }

  /** The last step of a series of years that `Date.UTC` moves to the 20th century, if there is one. */
  function LastMoved(y0: int, count: int): int
    requires count > 0
  {
    (99 - y0) / count
  }

  /** No later year tick is reached after one that `Date.UTC` has moved. */
  predicate YearsInOrder(y0: int, count: int, max: int)
    requires count > 0
  {
    var k := LastMoved(y0, count);
    k < 1 || y0 + k * count < 0 || count > 1900 || max <= Utc(y0 + k * count, 0)
  }

  /** The year in which the i-th year tick falls. */
  function TickYear(y0: int, count: int, i: nat): int {
    if i == 0 then y0 else UtcYear(y0 + i * count)
  }

  lemma LastMovedBounds(y0: int, count: int)
    requires count > 0
    ensures var k := LastMoved(y0, count); y0 + k * count <= 99 < y0 + (k + 1) * count
  {
    var k := LastMoved(y0, count);
    assert 99 - y0 == count * k + (99 - y0) % count;
    assert (k + 1) * count == k * count + count;
  }

  lemma MultipleOrder(i: int, k: int, count: int)
    requires count > 0
    ensures i <= k ==> i * count <= k * count
    ensures i < k ==> (i + 1) * count <= k * count
    ensures (i + 1) * count == i * count + count
  {
    if i <= k { ScaleAtMost(i, k, count); }
    if i < k { ScaleAtMost(i + 1, k, count); }
  }

  /** The years step back only right after the last moved one. */
  lemma TickYearStep(y0: int, count: int, i: nat)
    requires count > 0
    ensures var k := LastMoved(y0, count);
            TickYear(y0, count, i) < TickYear(y0, count, i + 1) <==>
            !(i == k && k >= 1 && y0 + k * count >= 0 && count <= 1900)
  {
    var k := LastMoved(y0, count);
    LastMovedBounds(y0, count);
    MultipleOrder(i, k, count);
    MultipleOrder(k, i, count);
    MultipleOrder(0, i, count);
  }

  lemma TickIsYearStart(count: int, min: int, startOfWeek: int, i: nat)
    requires count > 0
    ensures var first := FirstTick(YearUnit, count, min, startOfWeek);
            TickAt(YearUnit, count, first, i) == DayFromYear(TickYear(YearAt(first), count, i)) * MS_DAY
  {
    hide MonthStart, YearOf, MonthOf, DateOf, DayFromYear, JsRem;
    var first := FirstTick(YearUnit, count, min, startOfWeek);
    FirstTickFields(YearUnit, count, min, startOfWeek);
    var e := TickYear(YearAt(first), count, i);
    YearStart(e);
  }

  lemma YearOrder(a: int, b: int)
    ensures a < b <==> DayFromYear(a) * MS_DAY < DayFromYear(b) * MS_DAY
  {
    hide DayFromYear;
    if a < b { YearsApart(a, b); } else { YearsApart(b, a); }
  }

  lemma OtherTicksStep(u: Unit, count: int, min: int, startOfWeek: int, i: nat)
    requires count > 0 && !u.YearUnit?
    ensures var first := FirstTick(u, count, min, startOfWeek);
            TickAt(u, count, first, i) < TickAt(u, count, first, i + 1)
  {
    hide MonthStart, YearOf, MonthOf, FirstTick;
    var first := FirstTick(u, count, min, startOfWeek);
    FirstTickFields(u, count, min, startOfWeek);
    if u.MonthUnit? {
      var y, m := YearAt(first), MonthAt(first);
      MultipleOrder(i, i + 1, count);
      MonthsApart(UtcYear(y), m + i * count, count);
      if i == 0 {
        UtcIsLater(y, m);
      }
    } else {
      ProductAtLeastOne(Range(u), count);
      FixedStep(first, Range(u) * count, i);
    }
  }

  lemma YearTicksUpToLastMoved(count: int, min: int, startOfWeek: int, i: nat, j: nat)
    requires count > 0 && i <= j
    requires var y0 := YearAt(FirstTick(YearUnit, count, min, startOfWeek)); j <= LastMoved(y0, count)
    ensures var first := FirstTick(YearUnit, count, min, startOfWeek);
            TickAt(YearUnit, count, first, i) <= TickAt(YearUnit, count, first, j)
    decreases j - i
  {
    hide FirstTick, TickAt, TickYear, DayFromYear, LastMoved, YearOf;
    if i < j {
      var first := FirstTick(YearUnit, count, min, startOfWeek);
      var y0 := YearAt(first);
      YearTicksUpToLastMoved(count, min, startOfWeek, i, j - 1);
      TickYearStep(y0, count, j - 1);
      YearOrder(TickYear(y0, count, j - 1), TickYear(y0, count, j));
      TickIsYearStart(count, min, startOfWeek, j - 1);
      TickIsYearStart(count, min, startOfWeek, j);
    }
  }

  /** The ticks are strictly increasing, for years exactly when no tick moved to the 20th century
      by `Date.UTC` is followed by a later one. */
  lemma TicksIncrease(u: Unit, count: int, min: int, max: int, startOfWeek: int, ticks: seq<int>)
    requires count > 0 && IsTickList(u, count, min, max, startOfWeek, ticks)
    ensures StrictlyIncreasing(ticks) <==>
            !u.YearUnit? || YearsInOrder(YearAt(FirstTick(u, count, min, startOfWeek)), count, max)
  {
    hide FirstTick, TickAt, YearOf;
    var first := FirstTick(u, count, min, startOfWeek);
    if u.YearUnit? {
      YearTicksIncrease(count, min, max, startOfWeek, ticks);
    } else {
      forall i | 0 <= i < |ticks| - 1
        ensures ticks[i] < ticks[i + 1]
      {
        OtherTicksStep(u, count, min, startOfWeek, i);
      }
      StepwiseIncreasing(ticks);
    }
  }

  lemma YearTicksIncrease(count: int, min: int, max: int, startOfWeek: int, ticks: seq<int>)
    requires count > 0 && IsTickList(YearUnit, count, min, max, startOfWeek, ticks)
    ensures StrictlyIncreasing(ticks) <==> YearsInOrder(YearAt(FirstTick(YearUnit, count, min, startOfWeek)), count, max)
  {
    hide FirstTick, TickAt, YearOf, LastMoved, DayFromYear, TickYear, Utc;
    var first := FirstTick(YearUnit, count, min, startOfWeek);
    var y0 := YearAt(first);
    var k := LastMoved(y0, count);
    var wraps := k >= 1 && y0 + k * count >= 0 && count <= 1900;
    if wraps {
      TickAtMoved(count, first, k);
    }
    forall i | 0 <= i < |ticks| - 1
      ensures ticks[i] < ticks[i + 1] <==> !(i == k && wraps)
    {
      TickYearStep(y0, count, i);
      YearOrder(TickYear(y0, count, i), TickYear(y0, count, i + 1));
      TickIsYearStart(count, min, startOfWeek, i);
      TickIsYearStart(count, min, startOfWeek, i + 1);
    }
    if YearsInOrder(y0, count, max) {
      forall i | 0 <= i < |ticks| - 1
        ensures ticks[i] < ticks[i + 1]
      {
        assert ticks[i] < max;
      }
      StepwiseIncreasing(ticks);
    } else {
      var last := |ticks| - 1;
      if last <= k {
        YearTicksUpToLastMoved(count, min, startOfWeek, last, k);
        assert false;
      }
      assert !(ticks[k] < ticks[k + 1]);
    }
  }

  lemma TickAtMoved(count: int, first: int, k: int)
    requires count > 0 && k >= 1
    ensures TickAt(YearUnit, count, first, k) == Utc(YearAt(first) + k * count, 0)
  {
  }

  // ----- inputs on the other side

  /** 4 January 1970 is a Sunday; with weeks that start on Mondays its first tick is the next day. */
  lemma SundayStartsLate()
    ensures FirstTick(WeekUnit, 1, 3 * MS_DAY, 1) == 4 * MS_DAY
    ensures !StartsInTime(WeekUnit, 1, 3 * MS_DAY, 1)
  {
    hide MonthStart, YearOf, MonthOf, DateOf;
    CivilRoundTrip(Day(3 * MS_DAY));
    assert Down(DateOf(3), 1) == DateOf(3);
    FirstTickAtMostMin(WeekUnit, 1, 3 * MS_DAY, 1);
  }

  lemma FieldsOfYearStart(y: int)
    ensures var t := MonthStart(y, 0) * MS_DAY;
            Day(t) == MonthStart(y, 0) && YearAt(t) == y && t == DayFromYear(y) * MS_DAY
  {
    hide MonthStart, YearOf, MonthOf, DateOf, DayFromYear;
    StartOfDay(MonthStart(y, 0));
    FirstOfMonth(y, 0);
    YearStart(y);
  }

  /** Decades that start in the year -1 start with the year 0. */
  lemma NegativeYearStartsLate()
    ensures var min := MonthStart(-1, 0) * MS_DAY;
            FirstTick(YearUnit, 10, min, 1) == MonthStart(0, 0) * MS_DAY > min
  {
    hide MonthStart, YearOf, DayFromYear;
    FieldsOfYearStart(-1);
    FieldsOfYearStart(0);
    YearOrder(-1, 0);
  }

  /** Every fifth year from 90 to 2000: the second tick is 1995, the third is the year 100. */
  lemma YearsStepBack(ticks: seq<int>)
    requires IsTickList(YearUnit, 5, MonthStart(90, 0) * MS_DAY, MonthStart(2000, 0) * MS_DAY, 1, ticks)
    ensures |ticks| > 2
    ensures ticks[1] == MonthStart(1995, 0) * MS_DAY && ticks[2] == MonthStart(100, 0) * MS_DAY
    ensures ticks[2] < ticks[1]
  {
    hide MonthStart, YearOf, DayFromYear, TickAt;
    var min := MonthStart(90, 0) * MS_DAY;
    FieldsOfYearStart(90);
    FieldsOfYearStart(100);
    FieldsOfYearStart(1995);
    FieldsOfYearStart(2000);
    assert FirstTick(YearUnit, 5, min, 1) == min;
    TickIsYearStart(5, min, 1, 0);
    TickIsYearStart(5, min, 1, 1);
    TickIsYearStart(5, min, 1, 2);
    YearOrder(90, 2000);
    YearOrder(1995, 2000);
    YearOrder(100, 1995);
  }
}
