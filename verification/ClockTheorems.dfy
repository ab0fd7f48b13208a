/** On which clock times and days calendar ticks fall, and the calendar they rest on. */
module ClockTheorems {
  import opened JsDate
  import opened TimeTicks
  import opened TimeTicksTheorems

  // ----- the calendar

  /** The lengths of the months of a common year, in the order of the year. */
  const COMMON_MONTHS: seq<int> := [31, 28, 31, 30, 31, 30, 31, 31, 30, 31, 30, 31]

  /** The Gregorian calendar, counted from Thursday, 1 January 1970. */
  lemma Calendar(y: int, m: int)
    requires 0 <= m < 12
    ensures MonthStart(1970, 0) == 0 && WeekDay(0) == 4
    ensures MonthStart(y, 12) == MonthStart(y + 1, 0)
    ensures MonthStart(y, m + 1) - MonthStart(y, m) ==
            COMMON_MONTHS[m] + if m == 1 && y % 4 == 0 && (y % 100 != 0 || y % 400 == 0) then 1 else 0
  {
    hide MonthStart, WeekDay;
    Epoch();
    NextYear(y);
    NextMonth(y, m);
    hide IsLeap;
  }

  lemma NextYear(y: int)
    ensures MonthStart(y, 12) == MonthStart(y + 1, 0)
  {
    MonthStartSplit(y, 0, 1);
  }

  lemma NextMonth(y: int, m: int)
    requires 0 <= m < 12
    ensures MonthStart(y, m + 1) - MonthStart(y, m) == COMMON_MONTHS[m] + if IsLeap(y) && m == 1 then 1 else 0
  {
    hide DayFromYear, IsLeap, MonthOffset;
    MonthLengths(IsLeap(y), m);
    assert m / 12 == 0 && m % 12 == m;
    if m == 11 {
      assert (m + 1) / 12 == 1 && (m + 1) % 12 == 0;
      YearLength(y);
      MonthZero(IsLeap(y + 1));
    } else {
      assert (m + 1) / 12 == 0 && (m + 1) % 12 == m + 1;
    }
  }

  lemma MonthLengths(leap: bool, m: int)
    requires 0 <= m < 12
    ensures MonthOffset(leap, m + 1) - MonthOffset(leap, m) == COMMON_MONTHS[m] + if leap && m == 1 then 1 else 0
  {
  }

  lemma Epoch()
    ensures MonthStart(1970, 0) == 0 && WeekDay(0) == 4
  {
    hide DayFromYear, IsLeap, MonthOffset, MonthStart, Day;
    YearStart(1970);
    FirstYear();
    assert Day(0) == 0 by { StartOfDay(0); }
  }

  lemma FirstYear()
    ensures DayFromYear(1970) == 0
  {
    assert 1 / 4 == 0 && 69 / 100 == 0 && 369 / 400 == 0;
  }

  /** The fields of a time are its digits in days, hours, minutes, seconds and milliseconds. */
  lemma ClockIs(t: int)
    ensures 0 <= Hours(t) < 24 && 0 <= Minutes(t) < 60 && 0 <= Seconds(t) < 60 && 0 <= t % 1000 < 1000
    ensures t == Day(t) * 86400000 + Hours(t) * 3600000 + Minutes(t) * 60000 + Seconds(t) * 1000 + t % 1000
  {
    SecondSplit(t);
    MinuteSplit(t);
    HourSplit(t);
  }

  // ----- ticks by the clock

  predicate IsClockUnit(u: Unit) {
    u.SecondUnit? || u.MinuteUnit? || u.HourUnit?
  }

  function UnitLength(u: Unit): (r: int)
    ensures r > 0
  {
    match u
    case SecondUnit => 1000
    case MinuteUnit => 60000
    case _ => 3600000
  }

  /** How many of a unit make the next one. */
  function UnitsInNext(u: Unit): (r: int)
    ensures r > 0
  {
    if u.HourUnit? then 24 else 60
  }

  function Field(u: Unit, t: int): int {
    match u
    case SecondUnit => Seconds(t)
    case MinuteUnit => Minutes(t)
    case _ => Hours(t)
  }

  /** The first tick clears the lower fields, rounds the field of the unit down to a multiple of `count` and
      leaves the higher ones. */
  lemma FirstClockTick(u: Unit, count: int, min: int, startOfWeek: int)
    requires IsClockUnit(u) && count > 0
    ensures var first := FirstTick(u, count, min, startOfWeek);
            && first % UnitLength(u) == 0
            && Field(u, first) % count == 0 && Field(u, first) <= Field(u, min) < Field(u, first) + count
            && first / (UnitLength(u) * UnitsInNext(u)) == min / (UnitLength(u) * UnitsInNext(u))
  {
    var d := Down(Field(u, min), count);
    ClockIs(min);
    DownBounds(Field(u, min), count);
    hide Down;
    match u
    case SecondUnit => SecondFields(min / 60000, d);
    case MinuteUnit => MinuteFields(min / 3600000, d);
    case HourUnit => HourFields(min / 86400000, d);
  }

  lemma SecondFields(q: int, d: int)
    requires 0 <= d < 60
    ensures var t := q * 60000 + d * 1000; t % 1000 == 0 && Seconds(t) == d && t / 60000 == q
  {
    var t := q * 60000 + d * 1000;
    assert t / 1000 == 60 * q + d;
  }

  lemma MinuteFields(q: int, d: int)
    requires 0 <= d < 60
    ensures var t := q * 3600000 + d * 60000; t % 60000 == 0 && Minutes(t) == d && t / 3600000 == q
  {
    var t := q * 3600000 + d * 60000;
    assert t / 60000 == 60 * q + d;
  }

  lemma HourFields(q: int, d: int)
    requires 0 <= d < 24
    ensures var t := q * 86400000 + d * 3600000; t % 3600000 == 0 && Hours(t) == d && t / 86400000 == q
  {
    var t := q * 86400000 + d * 3600000;
    assert t / 3600000 == 24 * q + d;
  }

  /** Ticks are `count` units apart, and where `count` divides the next unit they all fall on multiples of it. */
  lemma ClockTicks(u: Unit, count: int, min: int, startOfWeek: int, i: nat)
    requires IsClockUnit(u) && count > 0
    ensures var t := TickAt(u, count, FirstTick(u, count, min, startOfWeek), i);
            && t == FirstTick(u, count, min, startOfWeek) + i * (UnitLength(u) * count)
            && t % UnitLength(u) == 0
            && (UnitsInNext(u) % count == 0 ==> Field(u, t) % count == 0)
  {
    hide FirstTick, Field, UnitsInNext, UnitLength;
    var first, unit, n := FirstTick(u, count, min, startOfWeek), UnitLength(u), UnitsInNext(u);
    FirstClockTick(u, count, min, startOfWeek);
    var k := i * count;
    StepsOfUnit(i, unit, count);
    StepIsUnits(u, count, first, i);
    LaterField(u, first, k);
    if n % count == 0 {
      FieldFollows(u, first, k);
      AddMultiple(Field(u, first), i, count);
      RemainderOfField(Field(u, first) + k, n, count);
    }
  }

  lemma StepsOfUnit(i: int, unit: int, count: int)
    ensures i * (unit * count) == unit * (i * count)
  {
  }

  lemma StepIsUnits(u: Unit, count: int, first: int, i: nat)
    requires IsClockUnit(u) && count > 0
    ensures TickAt(u, count, first, i) == first + i * (UnitLength(u) * count)
  {
  }

  lemma LaterField(u: Unit, first: int, k: int)
    requires IsClockUnit(u) && first % UnitLength(u) == 0
    ensures (first + UnitLength(u) * k) % UnitLength(u) == 0
  {
  }

  lemma FieldFollows(u: Unit, first: int, k: int)
    requires IsClockUnit(u) && first % UnitLength(u) == 0
    ensures Field(u, first + UnitLength(u) * k) == (Field(u, first) + k) % UnitsInNext(u)
  {
    match u
    case SecondUnit => SecondFollows(first, k);
    case MinuteUnit => MinuteFollows(first, k);
    case HourUnit => HourFollows(first, k);
  }

  lemma SecondFollows(first: int, k: int)
    ensures Seconds(first + 1000 * k) == (Seconds(first) + k) % 60
  {
    var q := first / 1000;
    assert (first + 1000 * k) / 1000 == q + k;
    ModuloSum(q, k, 60);
  }

  lemma MinuteFollows(first: int, k: int)
    ensures Minutes(first + 60000 * k) == (Minutes(first) + k) % 60
  {
    var q := first / 60000;
    assert (first + 60000 * k) / 60000 == q + k;
    ModuloSum(q, k, 60);
  }

  lemma HourFollows(first: int, k: int)
    ensures Hours(first + 3600000 * k) == (Hours(first) + k) % 24
  {
    var q := first / 3600000;
    assert (first + 3600000 * k) / 3600000 == q + k;
    ModuloSum(q, k, 24);
  }

  lemma ModuloSum(a: int, b: int, n: int)
    requires n == 24 || n == 60
    ensures (a + b) % n == (a % n + b) % n
  {
  }

  lemma RemainderOfField(a: int, n: int, count: int)
    requires n > 0 && count > 0 && n % count == 0 && a % count == 0
    ensures a % n % count == 0
  {
    var p, d := a / n, n / count;
    assert a == n * p + a % n && n == count * d;
    assert a % n == a + (-(d * p)) * count;
    AddMultiple(a, -(d * p), count);
  }

  /** Milliseconds are not rounded. */
  lemma MillisecondTicks(count: int, min: int, startOfWeek: int, i: nat)
    requires count > 0
    ensures TickAt(MillisecondUnit, count, FirstTick(MillisecondUnit, count, min, startOfWeek), i) == min + i * count
  {
  }

  // ----- ticks by the day

  /** Day ticks fall at midnight, `count` days apart; the first is the last day of its month whose number is a
      multiple of `count` and not after that of `min`, the day before the first counting as number 0. */
  lemma DayTicks(count: int, min: int, startOfWeek: int, i: nat)
    requires count > 0
    ensures var first := FirstTick(DayUnit, count, min, startOfWeek);
            var t := TickAt(DayUnit, count, first, i);
            var date := Day(first) - MonthStart(YearAt(min), MonthAt(min)) + 1;
            && TimeWithinDay(t) == 0 && Day(t) == Day(first) + i * count
            && date % count == 0 && 0 <= date <= DateOf(Day(min)) < date + count
  {
    hide MonthStart, YearOf, MonthOf, DateOf, Day;
    var d := DayDown(min, count);
    CivilRoundTrip(Day(min));
    DownBounds(DateOf(Day(min)), count);
    hide Down;
    StartOfDay(d);
    DaysLater(d, i, count);
  }

  lemma DaysLater(d: int, i: int, count: int)
    ensures var t := d * MS_DAY + i * (86400000 * count); TimeWithinDay(t) == 0 && Day(t) == d + i * count
  {
    var k := i * count;
    assert i * (86400000 * count) == 86400000 * k;
  }

  /** Week ticks fall at midnight on the start of the week, `count` weeks apart; the first is that day of the
      week, counted from Sunday, in which the rounded day falls. */
  lemma WeekTicks(count: int, min: int, startOfWeek: int, i: nat)
    requires count > 0
    ensures var first := FirstTick(WeekUnit, count, min, startOfWeek);
            var t, sunday := TickAt(WeekUnit, count, first, i), Day(first) - startOfWeek;
            && TimeWithinDay(t) == 0 && Day(t) == Day(first) + i * (7 * count)
            && WeekDay(t) == startOfWeek % 7
            && WeekDay(sunday * MS_DAY) == 0 && sunday <= DayDown(min, count) < sunday + 7
  {
    hide DayDown, WeekDay, Day;
    var d := DayDown(min, count);
    FirstWeek(d, startOfWeek);
    WeekSteps(i, count);
    WeekLater(d - (d + 4) % 7 + startOfWeek, i * count);
    WeekLater(d - (d + 4) % 7 + startOfWeek, 0);
  }

  lemma FirstWeek(d: int, startOfWeek: int)
    ensures var sunday := d - (d + 4) % 7;
            && WeekDay(sunday * MS_DAY) == 0 && sunday <= d < sunday + 7
            && (sunday + startOfWeek + 4) % 7 == startOfWeek % 7
  {
    SundayIs(d);
    StartOfDay(d - (d + 4) % 7);
    SundayFollows(d - (d + 4) % 7, startOfWeek);
  }

  lemma SundayFollows(sunday: int, k: int)
    requires (sunday + 4) % 7 == 0
    ensures (sunday + k + 4) % 7 == k % 7
  {
  }

  lemma WeekSteps(i: int, count: int)
    ensures i * (604800000 * count) == 604800000 * (i * count) && i * (7 * count) == 7 * (i * count)
  {
  }

  lemma WeekLater(d: int, k: int)
    ensures var t := d * MS_DAY + 604800000 * k;
            TimeWithinDay(t) == 0 && Day(t) == d + 7 * k && WeekDay(t) == (d + 4) % 7
  {
    StartOfDay(d + 7 * k);
    SameWeekDay(d, k);
  }

  lemma SundayIs(d: int)
    ensures (d - (d + 4) % 7 + 4) % 7 == 0
  {
  }

  lemma SameWeekDay(d: int, k: int)
    ensures (d + 7 * k + 4) % 7 == (d + 4) % 7
  {
  }
}
