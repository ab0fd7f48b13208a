/** `getTimeTicks` of highstock.src.js in UTC mode. */
module TimeTicks {
  import opened JsDate

  datatype Unit = MillisecondUnit | SecondUnit | MinuteUnit | HourUnit | DayUnit | WeekUnit | MonthUnit | YearUnit

  /** The table `timeUnits`. */
  function Range(u: Unit): (r: int)
    ensures r >= 1
  {
    match u
    case MillisecondUnit => 1
    case SecondUnit => 1000
    case MinuteUnit => 60000
    case HourUnit => 3600000
    case DayUnit => 24 * 3600000
    case WeekUnit => 7 * 24 * 3600000
    case MonthUnit => 30 * 24 * 3600000
    case YearUnit => 31556952000
  }

  /** The remainder operator, whose sign is that of the dividend. */
  function JsRem(a: int, n: int): int
    requires n > 0
  {
    if a >= 0 then a % n else -(-a % n)
  }

  /** Rounding a field down to a multiple of `count`. */
  function Down(field: int, count: int): int
    requires count > 0
  {
    count * (field / count)
  }

  function YearAt(t: int): int {
    YearOf(Day(t))
  }

  function MonthAt(t: int): int {
    MonthOf(Day(t))
  }

  /** The day whose number in its month is rounded down. */
  function DayDown(min: int, count: int): int
    requires count > 0
  {
    MonthStart(YearAt(min), MonthAt(min)) + Down(DateOf(Day(min)), count) - 1
  }

  /** Where the ticks start. */
  function FirstTick(u: Unit, count: int, min: int, startOfWeek: int): int
    requires count > 0
  {
    match u
    case MillisecondUnit => min
    case SecondUnit => min - min % MS_MINUTE + Down(Seconds(min), count) * MS_SECOND
    case MinuteUnit => min - min % MS_HOUR + Down(Minutes(min), count) * MS_MINUTE
    case HourUnit => min - min % MS_DAY + Down(Hours(min), count) * MS_HOUR
    case DayUnit => DayDown(min, count) * MS_DAY
    case WeekUnit => (DayDown(min, count) - (DayDown(min, count) + 4) % 7 + startOfWeek) * MS_DAY
    case MonthUnit => MonthStart(YearAt(min), Down(MonthAt(min), count)) * MS_DAY
    case YearUnit => MonthStart(YearAt(min) - JsRem(YearAt(min), count), 0) * MS_DAY
  }

  function TickAt(u: Unit, count: int, first: int, i: nat): int {
    if i == 0 then first
    else match u
      case YearUnit => Utc(YearAt(first) + i * count, 0)
      case MonthUnit => Utc(YearAt(first), MonthAt(first) + i * count)
      case _ => first + i * (Range(u) * count)
  }

  // ----- the setters

  lemma ClearSeconds(t: int)
    ensures SetSeconds(SetMilliseconds(t, 0), 0) == t - t % MS_MINUTE
    ensures forall s: int :: SetSeconds(SetMilliseconds(t, 0), s) == t - t % MS_MINUTE + s * MS_SECOND
    ensures Seconds(SetMilliseconds(t, 0)) == Seconds(t)
  {
    var k := t / MS_SECOND;
    assert t - t % MS_SECOND == k * MS_SECOND;
    assert SetMilliseconds(t, 0) / MS_SECOND == k;
    assert t / MS_MINUTE == k / 60;
    assert k % 60 == k - 60 * (k / 60);
  }

  lemma ClearMinutes(t: int)
    ensures var s := t - t % MS_MINUTE;
            && Minutes(s) == Minutes(t)
            && forall m: int :: SetMinutes(s, m) == t - t % MS_HOUR + m * MS_MINUTE
  {
    var k := t / MS_MINUTE;
    assert (t - t % MS_MINUTE) == k * MS_MINUTE;
    assert (k * MS_MINUTE) / MS_MINUTE == k;
    assert t / MS_HOUR == k / 60;
    assert k % 60 == k - 60 * (k / 60);
  }

  lemma ClearHours(t: int)
    ensures var s := t - t % MS_HOUR;
            && Hours(s) == Hours(t)
            && forall h: int :: SetHours(s, h) == t - t % MS_DAY + h * MS_HOUR
  {
    var k := t / MS_HOUR;
    assert (t - t % MS_HOUR) == k * MS_HOUR;
    assert (k * MS_HOUR) / MS_HOUR == k;
    assert t / MS_DAY == k / 24;
    assert k % 24 == k - 24 * (k / 24);
  }

  lemma StartOfDay(day: int)
    ensures Day(day * MS_DAY) == day && TimeWithinDay(day * MS_DAY) == 0
    ensures MakeDate(day, 0) == day * MS_DAY
  {
  }

  lemma DayStart(t: int)
    ensures t - t % MS_DAY == Day(t) * MS_DAY
    ensures Day(t - t % MS_DAY) == Day(t) && TimeWithinDay(t - t % MS_DAY) == 0
  {
    StartOfDay(Day(t));
  }

  /** The start of `getTimeTicks` up to the hours: the fields below the unit are cleared and the
      unit's own field is rounded down. */
  method FloorTime(u: Unit, count: int, min: int) returns (minDate: int)
    requires count > 0
    ensures Range(u) >= Range(DayUnit) ==> minDate == min - min % MS_DAY
    ensures Range(u) < Range(DayUnit) ==> minDate == FirstTick(u, count, min, 0)
  {
    hide MonthStart, YearOf, MonthOf, DateOf, Seconds, Minutes, Hours, SetMilliseconds, SetSeconds, SetMinutes, SetHours, Day, TimeWithinDay;
    var interval := Range(u);
    minDate := min;
    if interval >= Range(SecondUnit) {
      ClearSeconds(min);
      minDate := SetMilliseconds(minDate, 0);
      minDate := SetSeconds(minDate, if interval >= Range(MinuteUnit) then 0 else count * (Seconds(minDate) / count));
    }
    assert interval >= Range(MinuteUnit) ==> minDate == min - min % MS_MINUTE;
    if interval >= Range(MinuteUnit) {
      ClearMinutes(min);
      minDate := SetMinutes(minDate, if interval >= Range(HourUnit) then 0 else count * (Minutes(minDate) / count));
    }
    assert interval >= Range(HourUnit) ==> minDate == min - min % MS_HOUR;
    if interval >= Range(HourUnit) {
      ClearHours(min);
      minDate := SetHours(minDate, if interval >= Range(DayUnit) then 0 else count * (Hours(minDate) / count));
    }
  }

  /** The same for the date, the month and the year, and the special case of weeks. */
  method FloorDate(u: Unit, count: int, min: int, startOfWeek: int) returns (minDate: int)
    requires count > 0
    ensures minDate == FirstTick(u, count, min, startOfWeek)
  {
    hide MonthStart, YearOf, MonthOf, DateOf, Day, TimeWithinDay, WeekDay, JsRem, Seconds, Minutes, Hours;
    var interval := Range(u);
    minDate := FloorTime(u, count, min);
    if interval >= Range(DayUnit) {
      DayStart(min);
      minDate := SetDate(minDate, if interval >= Range(MonthUnit) then 1 else count * (DateOf(Day(minDate)) / count));
      StartOfDay(DayDown(min, count));
      StartOfDay(MonthStart(YearAt(min), MonthAt(min)));
    }
    assert interval == Range(DayUnit) || interval == Range(WeekUnit) ==> minDate == DayDown(min, count) * MS_DAY;
    assert interval >= Range(MonthUnit) ==> minDate == MonthStart(YearAt(min), MonthAt(min)) * MS_DAY;
    if interval >= Range(MonthUnit) {
      MonthIsFirst(YearAt(min), MonthOf(Day(min)));
      minDate := SetMonth(minDate, if interval >= Range(YearUnit) then 0 else count * (MonthOf(Day(minDate)) / count));
      StartOfDay(MonthStart(YearAt(min), Down(MonthAt(min), count)));
      StartOfDay(MonthStart(YearAt(min), 0));
      if interval >= Range(YearUnit) {
        MonthIsFirst(YearAt(min), 0);
        var minYear := YearOf(Day(minDate));
        minYear := minYear - JsRem(minYear, count);
        minDate := SetFullYear(minDate, minYear);
        StartOfDay(MonthStart(minYear, 0));
      }
    }
    if interval == Range(WeekUnit) {
      WeekStart(DayDown(min, count), startOfWeek);
      minDate := SetDate(minDate, DateOf(Day(minDate)) - WeekDay(minDate) + startOfWeek);
    }
  }

  lemma MonthIsFirst(y: int, m: int)
    requires 0 <= m < 12
    ensures var d := MonthStart(y, m); YearOf(d) == y && MonthOf(d) == m && DateOf(d) == 1
  {
    FirstOfMonth(y, m);
  }

  lemma WeekStart(day: int, startOfWeek: int)
    ensures var t := day * MS_DAY;
            SetDate(t, DateOf(Day(t)) - WeekDay(t) + startOfWeek) == (day - (day + 4) % 7 + startOfWeek) * MS_DAY
  {
    hide MonthStart, YearOf, MonthOf, DateOf;
    StartOfDay(day);
    CivilRoundTrip(day);
  }

  // ----- how far the ticks have come

  lemma {:induction false} FixedStep(first: int, step: int, i: nat)
    requires step >= 1
    ensures first + i * step >= first + i
    ensures first + (i + 1) * step == first + i * step + step
  {
    assert (i + 1) * step == i * step + step;
    if i > 0 {
      assert i * (step - 1) >= 0;
    }
  }

  lemma UtcIsLater(y: int, m: int)
    ensures Utc(y, m) >= MakeDate(MonthStart(y, m), 0)
  {
    hide MonthOffset, DayFromYear;
    if 0 <= y <= 99 {
      MonthStartSplit(y, m, 1900);
      MonthsApart(y, m, 12 * 1900);
    }
  }

  lemma LaterYear(y: int, k: nat)
    ensures Utc(y + k, 0) >= MonthStart(y, 0) * MS_DAY + k
  {
    hide MonthStart, Utc;
    UtcIsLater(y + k, 0);
    MonthStartSplit(y, 0, k);
    MonthsApart(y, 0, 12 * k);
  }

  lemma LaterMonth(y: int, m: int, k: nat)
    ensures Utc(y, m + k) >= MonthStart(y, m) * MS_DAY + k
  {
    hide MonthStart, Utc;
    UtcIsLater(y, m + k);
    MonthsApart(y, m, k);
  }

  lemma TickMakesProgress(u: Unit, count: int, first: int, i: nat)
    requires count > 0
    requires u.MonthUnit? ==> first == MonthStart(YearAt(first), MonthAt(first)) * MS_DAY
    requires u.YearUnit? ==> first == MonthStart(YearAt(first), 0) * MS_DAY
    ensures TickAt(u, count, first, i) >= first + i
  {
    hide MonthStart, YearOf, MonthOf, Utc;
    if i > 0 {
      FixedStep(0, count, i);
      match u
      case YearUnit => LaterYear(YearAt(first), i * count);
      case MonthUnit => LaterMonth(YearAt(first), MonthAt(first), i * count);
      case _ =>
        ProductAtLeastOne(Range(u), count);
        FixedStep(first, Range(u) * count, i);
    }
  }

  lemma ProductAtLeastOne(a: int, b: int)
    requires a >= 1 && b >= 1
    ensures a * b >= a && a * b >= b
  {
    assert (a - 1) * b >= 0 && (b - 1) * a >= 0;
  }

  /** The fields of the first tick, where the unit works on them. */
  lemma FirstTickFields(u: Unit, count: int, min: int, startOfWeek: int)
    requires count > 0
    ensures var first := FirstTick(u, count, min, startOfWeek);
            && (u.MonthUnit? ==> YearAt(first) == YearAt(min) && MonthAt(first) == Down(MonthAt(min), count)
                                 && first == MonthStart(YearAt(first), MonthAt(first)) * MS_DAY)
            && (u.YearUnit? ==> YearAt(first) == YearAt(min) - JsRem(YearAt(min), count) && MonthAt(first) == 0
                                && first == MonthStart(YearAt(first), 0) * MS_DAY)
  {
    hide MonthStart, YearOf, MonthOf;
    DownBounds(MonthAt(min), count);
    var m := Down(MonthAt(min), count);
    MonthIsFirst(YearAt(min), m);
    StartOfDay(MonthStart(YearAt(min), m));
    var y := YearAt(min) - JsRem(YearAt(min), count);
    MonthIsFirst(y, 0);
    StartOfDay(MonthStart(y, 0));
  }

  lemma DownBounds(field: int, count: int)
    requires count > 0 && field >= 0
    ensures 0 <= Down(field, count) <= field < Down(field, count) + count
    ensures Down(field, count) % count == 0
  {
    var q := field / count;
    assert field == count * q + field % count;
    assert q >= 0;
    assert count * q >= 0;
    MultipleRem(q, count);
  }

  lemma MultipleRem(q: int, n: int)
    requires n > 0
    ensures (n * q) % n == 0
  {
    var a := n * q;
    var k := q - a / n;
    assert a == n * (a / n) + a % n;
    assert n * k == n * q - n * (a / n);
    if k != 0 {
      NoSmallMultiple(n, k);
    }
  }

  lemma NoSmallMultiple(n: int, k: int)
    requires n > 0 && k != 0
    ensures n * k >= n || n * k <= -n
  {
    if k >= 1 {
      assert n * (k - 1) >= 0;
    } else {
      assert n * (-k - 1) >= 0;
    }
  }

  method GetTimeTicks(u: Unit, count: int, min: int, max: int, startOfWeek: int) returns (tickPositions: seq<int>)
    requires count > 0
    ensures var first := FirstTick(u, count, min, startOfWeek);
            && tickPositions != []
            && (forall k | 0 <= k < |tickPositions| :: tickPositions[k] == TickAt(u, count, first, k))
            && (forall k | 0 <= k < |tickPositions| - 1 :: tickPositions[k] < max)
            && tickPositions[|tickPositions| - 1] >= max
  {
    hide YearOf, MonthOf, FirstTick, Utc, MonthStart;
    tickPositions := [];
    var first := FloorDate(u, count, min, startOfWeek);
    FirstTickFields(u, count, min, startOfWeek);
    var time := first;
    var minYear, minMonth := YearOf(Day(first)), MonthOf(Day(first));
    var interval := Range(u);
    var i := 1;
    while time < max
      invariant i >= 1 && |tickPositions| == i - 1
      invariant time == TickAt(u, count, first, i - 1) && time >= first + i - 1
      invariant forall k | 0 <= k < i - 1 :: tickPositions[k] == TickAt(u, count, first, k) < max
      decreases max - first - i
    {
      tickPositions := tickPositions + [time];
      TickMakesProgress(u, count, first, i);
      if interval == Range(YearUnit) {
        time := Utc(minYear + i * count, 0);
      } else if interval == Range(MonthUnit) {
        time := Utc(minYear, minMonth + i * count);
      } else {
        FixedStep(first, interval * count, i - 1);
        time := time + interval * count;
      }
      i := i + 1;
    }
    tickPositions := tickPositions + [time];
  }
}
