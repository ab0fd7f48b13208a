/** Date arithmetic in UTC, as section 15.9.1 of ECMA-262 edition 5.1 defines it for Date
    objects. Times are whole milliseconds since 1 January 1970; `/` and `%` by a positive
    divisor round down, as `floor` and `modulo` do there. */
module JsDate {

  const MS_SECOND := 1000
  const MS_MINUTE := 60000
  const MS_HOUR := 3600000
  const MS_DAY := 86400000

  function Day(t: int): int {
    t / MS_DAY
  }

  function TimeWithinDay(t: int): int {
    t % MS_DAY
  }

  predicate IsLeap(y: int) {
    y % 4 == 0 && (y % 100 != 0 || y % 400 == 0)
  }

  function DayFromYear(y: int): int {
    365 * (y - 1970) + (y - 1969) / 4 - (y - 1901) / 100 + (y - 1601) / 400
  }

  function CommonOffset(m: int): int {
    if m == 0 then 0
    else if m == 1 then 31
    else if m == 2 then 59
    else if m == 3 then 90
    else if m == 4 then 120
    else if m == 5 then 151
    else if m == 6 then 181
    else if m == 7 then 212
    else if m == 8 then 243
    else if m == 9 then 273
    else if m == 10 then 304
    else if m == 11 then 334
    else 365
  }

  /** The day within its year on which month `m` starts; month 12 starts the next year. */
  function MonthOffset(leap: bool, m: int): int
    requires 0 <= m <= 12
  {
    CommonOffset(m) + if leap && m >= 2 then 1 else 0
  }

  lemma YearLength(y: int)
    ensures DayFromYear(y + 1) == DayFromYear(y) + MonthOffset(IsLeap(y), 12)
  {
    FloorStep(y - 1969, 4);
    FloorStep(y - 1901, 100);
    FloorStep(y - 1601, 400);
    Shift4(y);
    Shift100(y);
    Shift400(y);
    MultipleOf(y);
    assert MonthOffset(IsLeap(y), 12) == 365 + if IsLeap(y) then 1 else 0;
  }

  lemma Shift4(y: int)
    ensures y % 4 == (y - 1968) % 4
  {
  }

  lemma Shift100(y: int)
    ensures y % 100 == (y - 1900) % 100
  {
  }

  lemma Shift400(y: int)
    ensures y % 400 == (y - 1600) % 400
  {
  }

  lemma MultipleOf(y: int)
    ensures y % 400 == 0 ==> y % 100 == 0
    ensures y % 100 == 0 ==> y % 4 == 0
  {
    if y % 400 == 0 {
      Multiple100(y, 4 * (y / 400));
    }
    if y % 100 == 0 {
      Multiple4(y, 25 * (y / 100));
    }
  }

  lemma Multiple100(y: int, k: int)
    requires y == 100 * k
    ensures y % 100 == 0
  {
  }

  lemma Multiple4(y: int, k: int)
    requires y == 4 * k
    ensures y % 4 == 0
  {
  }

  lemma FloorStep(a: int, n: int)
    requires n == 4 || n == 100 || n == 400
    ensures (a + 1) / n == a / n + (if (a + 1) % n == 0 then 1 else 0)
  {
  }

  lemma {:induction false} YearsApart(y: int, z: int)
    requires y <= z
    ensures DayFromYear(z) >= DayFromYear(y) + 365 * (z - y)
    decreases z - y
  {
    hide DayFromYear;
    if y < z {
      YearsApart(y, z - 1);
      YearLength(z - 1);
    }
  }

  /** The first day of month `m` counted from January of year `y`: MakeDay of section 15.9.1.12. */
  function MonthStart(y: int, m: int): int {
    DayFromYear(y + m / 12) + MonthOffset(IsLeap(y + m / 12), m % 12)
  }

  lemma MonthLength(y: int, m: int)
    ensures 28 <= MonthStart(y, m + 1) - MonthStart(y, m) <= 31
  {
    hide DayFromYear, IsLeap;
    YearLength(y + m / 12);
    assert if m % 12 == 11 then (m + 1) / 12 == m / 12 + 1 && (m + 1) % 12 == 0
           else (m + 1) / 12 == m / 12 && (m + 1) % 12 == m % 12 + 1;
  }

  lemma {:induction false} MonthsApart(y: int, m: int, k: nat)
    ensures MonthStart(y, m + k) >= MonthStart(y, m) + 28 * k
  {
    hide MonthStart;
    if k > 0 {
      MonthsApart(y, m, k - 1);
      MonthLength(y, m + k - 1);
    }
  }

  // ----- year, month and date of a day

  function YearUp(day: int, y: int): (r: int)
    requires DayFromYear(y) <= day
    ensures DayFromYear(r) <= day < DayFromYear(r + 1)
    decreases day - DayFromYear(y)
  {
    YearLength(y);
    if DayFromYear(y + 1) <= day then YearUp(day, y + 1) else y
  }

  /** The largest year that does not start after the day. */
  function YearOf(day: int): (r: int)
    ensures DayFromYear(r) <= day < DayFromYear(r + 1)
  {
    YearUp(day, if day >= 0 then 1970 else 1970 + day)
  }

  function MonthUp(leap: bool, rest: int, m: int): (r: int)
    requires 0 <= m < 12 && MonthOffset(leap, m) <= rest < MonthOffset(leap, 12)
    ensures 0 <= r < 12 && MonthOffset(leap, r) <= rest < MonthOffset(leap, r + 1)
    decreases 12 - m
  {
    if m < 11 && MonthOffset(leap, m + 1) <= rest then MonthUp(leap, rest, m + 1) else m
  }

  function MonthOf(day: int): (m: int)
    ensures 0 <= m < 12
    ensures var rest := day - DayFromYear(YearOf(day));
            MonthOffset(IsLeap(YearOf(day)), m) <= rest < MonthOffset(IsLeap(YearOf(day)), m + 1)
  {
    YearLength(YearOf(day));
    MonthUp(IsLeap(YearOf(day)), day - DayFromYear(YearOf(day)), 0)
  }

  function DateOf(day: int): int {
    day - DayFromYear(YearOf(day)) - MonthOffset(IsLeap(YearOf(day)), MonthOf(day)) + 1
  }

  lemma MonthSpan(leap: bool, m: int)
    requires 0 <= m < 12
    ensures MonthOffset(leap, m + 1) - MonthOffset(leap, m) <= 31
  {
  }

  /** Year, month and date determine the day. */
  lemma CivilRoundTrip(day: int)
    ensures MonthStart(YearOf(day), MonthOf(day)) + DateOf(day) - 1 == day
    ensures 1 <= DateOf(day) <= 31
  {
    hide DayFromYear, IsLeap, MonthOffset, YearOf, MonthOf;
    MonthSpan(IsLeap(YearOf(day)), MonthOf(day));
    assert MonthOf(day) / 12 == 0 && MonthOf(day) % 12 == MonthOf(day);
  }

  lemma MonthOffsetIncreases(leap: bool, m: int, n: int)
    requires 0 <= m < n <= 12
    ensures MonthOffset(leap, m) < MonthOffset(leap, n)
  {
  }

  /** And the first of a month has the fields it was made from. */
  lemma FirstOfMonth(y: int, m: int)
    ensures var day := MonthStart(y, m);
            YearOf(day) == y + m / 12 && MonthOf(day) == m % 12 && DateOf(day) == 1
  {
    hide DayFromYear, IsLeap, MonthOffset, YearOf, MonthOf;
    var yy, mm, day := y + m / 12, m % 12, MonthStart(y, m);
    var r := YearOf(day);
    YearLength(yy);
    MonthZero(IsLeap(yy));
    if mm > 0 { MonthOffsetIncreases(IsLeap(yy), 0, mm); }
    MonthOffsetIncreases(IsLeap(yy), mm, 12);
    assert DayFromYear(yy) <= day < DayFromYear(yy + 1);
    if r + 1 <= yy {
      YearsApart(r + 1, yy);
    } else if yy + 1 <= r {
      YearsApart(yy + 1, r);
    }
    assert r == yy;
    var k := MonthOf(day);
    if k + 1 < mm {
      MonthOffsetIncreases(IsLeap(yy), k + 1, mm);
    } else if mm < k {
      MonthOffsetIncreases(IsLeap(yy), mm, k);
    }
  }

  lemma MonthZero(leap: bool)
    ensures MonthOffset(leap, 0) == 0
  {
  }

  lemma MonthStartSplit(y: int, m: int, k: int)
    ensures MonthStart(y, m + 12 * k) == MonthStart(y + k, m)
  {
    assert (m + 12 * k) / 12 == m / 12 + k && (m + 12 * k) % 12 == m % 12;
  }

  // ----- the setters of section 15.9.5, on the time value

  function Seconds(t: int): int {
    t / MS_SECOND % 60
  }

  function Minutes(t: int): int {
    t / MS_MINUTE % 60
  }

  function Hours(t: int): int {
    t / MS_HOUR % 24
  }

  function WeekDay(t: int): int {
    (Day(t) + 4) % 7
  }

  function SetMilliseconds(t: int, ms: int): int {
    t - t % MS_SECOND + ms
  }

  function SetSeconds(t: int, s: int): int {
    t + (s - Seconds(t)) * MS_SECOND
  }

  function SetMinutes(t: int, m: int): int {
    t + (m - Minutes(t)) * MS_MINUTE
  }

  function SetHours(t: int, h: int): int {
    t + (h - Hours(t)) * MS_HOUR
  }

  function MakeDate(day: int, time: int): int {
    day * MS_DAY + time
  }

  function SetDate(t: int, d: int): int {
    MakeDate(MonthStart(YearOf(Day(t)), MonthOf(Day(t))) + d - 1, TimeWithinDay(t))
  }

  function SetMonth(t: int, m: int): int {
    MakeDate(MonthStart(YearOf(Day(t)), m) + DateOf(Day(t)) - 1, TimeWithinDay(t))
  }

  function SetFullYear(t: int, y: int): int {
    MakeDate(MonthStart(y, MonthOf(Day(t))) + DateOf(Day(t)) - 1, TimeWithinDay(t))
  }

  /** `Date.UTC` reads the years 0 to 99 as 1900 to 1999 (section 15.9.4.3). */
  function UtcYear(y: int): int {
    if 0 <= y <= 99 then 1900 + y else y
  }

  function Utc(y: int, m: int): int {
    MakeDate(MonthStart(UtcYear(y), m), 0)
  }
}
