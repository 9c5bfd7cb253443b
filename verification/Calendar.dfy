/** Proleptic Gregorian calendar arithmetic (section 21.4.1 of ECMA-262), in days and seconds
    since 1970-01-01T00:00:00Z, and the start of the three-calendar-month window. */
module Calendar {
  import opened Results
  import opened Arithmetic

  const SECONDS_PER_DAY: int := 86_400

  /** The last second a Date can represent: 8.64e15 milliseconds. */
  const LAST_SECOND: int := 8_640_000_000_000

  predicate IsLeap(y: int) {
    y % 4 == 0 && (y % 100 != 0 || y % 400 == 0)
  }

  function LeapDay(y: int): int { if IsLeap(y) then 1 else 0 }

  /** The first day of a year. */
  function DayFromYear(y: int): int {
    365 * (y - 1970) + (y - 1969) / 4 - (y - 1901) / 100 + (y - 1601) / 400
  }

  lemma FourthYears(y: int)
    ensures (y - 1968) / 4 == (y - 1969) / 4 + if y % 4 == 0 then 1 else 0
  {
  }

  lemma Centuries(y: int)
    ensures (y - 1900) / 100 == (y - 1901) / 100 + if y % 100 == 0 then 1 else 0
  {
  }

  lemma FourthCenturies(y: int)
    ensures (y - 1600) / 400 == (y - 1601) / 400 + if y % 400 == 0 then 1 else 0
  {
  }

  lemma DivisibleChain(y: int)
    ensures y % 400 == 0 ==> y % 100 == 0
    ensures y % 100 == 0 ==> y % 4 == 0
  {
  }

  /** Leap years have 366 days, the others 365. */
  lemma YearLength(y: int)
    ensures DayFromYear(y + 1) == DayFromYear(y) + 365 + LeapDay(y)
  {
    FourthYears(y);
    Centuries(y);
    FourthCenturies(y);
    DivisibleChain(y);
  }

  /** The year of a day: the one whose days include it. */
  function YearFrom(day: int, y: int): (year: int)
    requires DayFromYear(y) <= day
    ensures DayFromYear(year) <= day < DayFromYear(year + 1)
    decreases day - DayFromYear(y)
  {
    YearLength(y);
    if day < DayFromYear(y + 1) then y else YearFrom(day, y + 1)
  }

  function YearBefore(day: int, y: int): (year: int)
    requires day < DayFromYear(y + 1)
    ensures DayFromYear(year) <= day < DayFromYear(year + 1)
    decreases DayFromYear(y + 1) - day
  {
    YearLength(y);
    if DayFromYear(y) <= day then y else YearBefore(day, y - 1)
  }

  function YearOf(day: int): (year: int)
    ensures DayFromYear(year) <= day < DayFromYear(year + 1)
  {
    if day >= 0 then YearFrom(day, 1970) else YearBefore(day, 1969)
  }

  lemma {:induction false} YearsIncrease(y: int, z: int)
    requires y <= z
    ensures DayFromYear(y) <= DayFromYear(z)
    decreases z - y
  {
  }

  lemma YearUnique(day: int, y: int)
    requires DayFromYear(y) <= day < DayFromYear(y + 1)
    ensures YearOf(day) == y
  {
    hide DayFromYear, YearOf;
    var z := YearOf(day);
    if z < y {
      YearsIncrease(z + 1, y);
    } else if y < z {
      YearsIncrease(y + 1, z);
    }
  }

  /** Days of the year before month `m`, counted from 0; 12 gives the whole year. */
  function MonthStart(y: int, m: int): int
    requires 0 <= m <= 12
  {
    if m == 0 then 0
    else if m == 1 then 31
    else LeapDay(y)
         + (if m == 2 then 59 else if m == 3 then 90 else if m == 4 then 120 else if m == 5 then 151
            else if m == 6 then 181 else if m == 7 then 212 else if m == 8 then 243 else if m == 9 then 273
            else if m == 10 then 304 else if m == 11 then 334 else 365)
  }

  function DaysInMonth(y: int, m: int): int
    requires 0 <= m < 12
  {
    MonthStart(y, m + 1) - MonthStart(y, m)
  }

  /** The month that a day of the year falls in. */
  function MonthFrom(y: int, dayInYear: int, m: int): (month: int)
    requires 0 <= m < 12 && MonthStart(y, m) <= dayInYear < 365 + LeapDay(y)
    ensures 0 <= month < 12 && MonthStart(y, month) <= dayInYear < MonthStart(y, month + 1)
    decreases 12 - m
  {
    if dayInYear < MonthStart(y, m + 1) then m else MonthFrom(y, dayInYear, m + 1)
  }

  /** A calendar date; months count from 0, days from 1. */
  datatype Date = Date(year: int, month: int, day: int)

  predicate ValidDate(d: Date) {
    0 <= d.month < 12 && 1 <= d.day <= DaysInMonth(d.year, d.month)
  }

  function DateOf(day: int): (d: Date)
    ensures ValidDate(d)
  {
    var y := YearOf(day);
    YearLength(y);
    var inYear := day - DayFromYear(y);
    var m := MonthFrom(y, inYear, 0);
    Date(y, m, inYear - MonthStart(y, m) + 1)
  }

  /** The day number of a date; months outside the year and days outside the month carry over. */
  function MakeDay(year: int, month: int, day: int): int {
    DayFromYear(year + month / 12) + MonthStart(year + month / 12, month % 12) + day - 1
  }

  lemma MonthsIncrease(y: int, m: int, n: int)
    requires 0 <= m <= n <= 12
    ensures MonthStart(y, m) <= MonthStart(y, n)
  {
  }

  /** Day numbers and dates are inverse to each other. */
  lemma DateRoundTrip(day: int)
    ensures MakeDay(DateOf(day).year, DateOf(day).month, DateOf(day).day) == day
  {
    hide DayFromYear, MonthStart, LeapDay, YearOf, MonthFrom;
    var d := DateOf(day);
    assert d.month / 12 == 0 && d.month % 12 == d.month;
  }

  lemma YearEnds(y: int)
    ensures MonthStart(y, 0) == 0 && MonthStart(y, 12) == 365 + LeapDay(y)
  {
  }

  lemma MakeDayRoundTrip(d: Date)
    requires ValidDate(d)
    ensures DateOf(MakeDay(d.year, d.month, d.day)) == d
  {
    hide LeapDay, DayFromYear, MonthStart;
    assert d.month / 12 == 0 && d.month % 12 == d.month;
    var day := MakeDay(d.year, d.month, d.day);
    YearLength(d.year);
    YearEnds(d.year);
    MonthsIncrease(d.year, d.month + 1, 12);
    MonthsIncrease(d.year, 0, d.month);
    YearUnique(day, d.year);
    var m := DateOf(day).month;
    if m < d.month {
      MonthsIncrease(d.year, m + 1, d.month);
    } else if d.month < m {
      MonthsIncrease(d.year, d.month + 1, m);
    }
  }

  /** The lengths of the months of a common year; February has a day more in leap years. */
  const MONTH_LENGTHS: seq<int> := [31, 28, 31, 30, 31, 30, 31, 31, 30, 31, 30, 31]

  lemma MonthsExactly(y: int, m: int)
    requires 0 <= m < 12
    ensures DaysInMonth(y, m) == MONTH_LENGTHS[m] + if m == 1 && IsLeap(y) then 1 else 0
    ensures MonthStart(y, 0) == 0
  {
  }

  /** Day 0 is the first of January 1970. */
  lemma EpochExactly()
    ensures DateOf(0) == Date(1970, 0, 1) && MakeDay(1970, 0, 1) == 0
  {
    hide DateOf, MonthStart;
    assert DayFromYear(1970) == 0;
    MonthsExactly(1970, 0);
    MakeDayRoundTrip(Date(1970, 0, 1));
  }

  /** The last representable second ends 100_000_000 days later, of 24 hours of 60 minutes of 60 seconds. */
  lemma RangeExactly()
    ensures LAST_SECOND == 100_000_000 * 24 * 60 * 60 && SECONDS_PER_DAY == 24 * 60 * 60
  {
  }

  // ---- the window ----

  /** The month three months earlier, with its year. */
  function ThirdPreviousMonth(d: Date): (int, int) {
    if d.month >= 3 then (d.year, d.month - 3) else (d.year - 1, d.month + 9)
  }

  /** The date three calendar months earlier, clamped to the length of that month. */
  function ThreeMonthsBefore(d: Date): (e: Date)
    requires ValidDate(d)
    ensures ValidDate(e)
  {
    var (y, m) := ThirdPreviousMonth(d);
    Date(y, m, if d.day < DaysInMonth(y, m) then d.day else DaysInMonth(y, m))
  }

  /** The window's first second: the clamped date at the same time of day. None beyond the range
      of dates, where the original computes NaN. */
  function WindowStart(timestamp: int): Option<int> {
    if timestamp > LAST_SECOND then None
    else
      var e := ThreeMonthsBefore(DateOf(timestamp / SECONDS_PER_DAY));
      Some(MakeDay(e.year, e.month, e.day) * SECONDS_PER_DAY + timestamp % SECONDS_PER_DAY)
  }

  /** Steps a local date as the source does: to the first of its month, three months back, then
      to the day it started from or the last one the month has. */
  method ThreeCalendarMonthsBefore(timestamp: int) returns (start: Option<int>)
    requires timestamp > 0
    ensures start == WindowStart(timestamp)
  {
    hide DateOf, MakeDay, SetDate, SetMonth, ThreeMonthsBefore;
    if timestamp > LAST_SECOND {
      return None;
    }
    var date := timestamp;
    var day := DateOf(date / SECONDS_PER_DAY).day;
    date := SetDate(date, 1);
    date := SetMonth(date, DateOf(date / SECONDS_PER_DAY).month - 3);
    var shown := DateOf(date / SECONDS_PER_DAY);
    var lastDay := DateOf(MakeDay(shown.year, shown.month + 1, 0)).day;
    date := SetDate(date, if day < lastDay then day else lastDay);
    StepsReachWindowStart(timestamp);
    return Some(date);
  }

  /** Sets the day of the month, keeping the time of day. */
  function SetDate(seconds: int, day: int): int {
    var d := DateOf(seconds / SECONDS_PER_DAY);
    MakeDay(d.year, d.month, day) * SECONDS_PER_DAY + seconds % SECONDS_PER_DAY
  }

  /** Sets the month, keeping day of the month and time of day. */
  function SetMonth(seconds: int, month: int): int {
    var d := DateOf(seconds / SECONDS_PER_DAY);
    MakeDay(d.year, month, d.day) * SECONDS_PER_DAY + seconds % SECONDS_PER_DAY
  }

  lemma SecondsSplit(day: int, time: int)
    requires 0 <= time < SECONDS_PER_DAY
    ensures (day * SECONDS_PER_DAY + time) / SECONDS_PER_DAY == day
    ensures (day * SECONDS_PER_DAY + time) % SECONDS_PER_DAY == time
  {
  }

  lemma LastDayOfMonth(y: int, m: int)
    requires 0 <= m < 12
    ensures DateOf(MakeDay(y, m + 1, 0)) == Date(y, m, DaysInMonth(y, m))
  {
    hide MonthStart, DayFromYear, DateOf;
    YearLength(y);
    YearEnds(y);
    YearEnds(y + 1);
    MonthHasDays(y, m);
    assert m / 12 == 0 && m % 12 == m;
    if m == 11 {
      assert (m + 1) / 12 == 1 && (m + 1) % 12 == 0;
    } else {
      assert (m + 1) / 12 == 0 && (m + 1) % 12 == m + 1;
    }
    assert MakeDay(y, m + 1, 0) == MakeDay(y, m, DaysInMonth(y, m));
    MakeDayRoundTrip(Date(y, m, DaysInMonth(y, m)));
  }

  lemma MonthCarriesBack(y: int, m: int, day: int)
    requires 0 <= m < 12
    ensures var (y', m') := ThirdPreviousMonth(Date(y, m, day)); MakeDay(y, m - 3, day) == MakeDay(y', m', day)
  {
    if m < 3 {
      assert (m - 3) / 12 == -1 && (m - 3) % 12 == m + 9;
    }
  }

  lemma StepsReachWindowStart(timestamp: int)
    ensures var t1 := SetDate(timestamp, 1);
            var t2 := SetMonth(t1, DateOf(t1 / SECONDS_PER_DAY).month - 3);
            var shown := DateOf(t2 / SECONDS_PER_DAY);
            var lastDay := DateOf(MakeDay(shown.year, shown.month + 1, 0)).day;
            var day := DateOf(timestamp / SECONDS_PER_DAY).day;
            timestamp <= LAST_SECOND ==>
              WindowStart(timestamp) == Some(SetDate(t2, if day < lastDay then day else lastDay))
  {
    hide MakeDay, DaysInMonth, DateOf;
    var d := DateOf(timestamp / SECONDS_PER_DAY);
    var time := timestamp % SECONDS_PER_DAY;
    MonthHasDays(d.year, d.month);
    MakeDayRoundTrip(Date(d.year, d.month, 1));
    SecondsSplit(MakeDay(d.year, d.month, 1), time);
    var (y, m) := ThirdPreviousMonth(d);
    MonthCarriesBack(d.year, d.month, 1);
    MonthHasDays(y, m);
    MakeDayRoundTrip(Date(y, m, 1));
    SecondsSplit(MakeDay(y, m, 1), time);
    LastDayOfMonth(y, m);
  }

  lemma MonthHasDays(y: int, m: int)
    requires 0 <= m < 12
    ensures 28 <= DaysInMonth(y, m) <= 31
  {
  }

  /** For every instant of the date range the window starts at the same time of day, on the
      clamped day of the third previous month, 89 to 92 whole days earlier. */
  lemma WindowIsThreeMonths(timestamp: int)
    requires timestamp <= LAST_SECOND
    ensures var start := WindowStart(timestamp).value;
            var d := DateOf(timestamp / SECONDS_PER_DAY);
            && start % SECONDS_PER_DAY == timestamp % SECONDS_PER_DAY
            && DateOf(start / SECONDS_PER_DAY) == ThreeMonthsBefore(d)
            && 89 * SECONDS_PER_DAY <= timestamp - start <= 92 * SECONDS_PER_DAY
            && (timestamp - start) % SECONDS_PER_DAY == 0
  {
    hide DaysInMonth, ThirdPreviousMonth, DateOf, MakeDay, ThreeMonthsBefore;
    var d := DateOf(timestamp / SECONDS_PER_DAY);
    var e := ThreeMonthsBefore(d);
    MakeDayRoundTrip(e);
    SecondsSplit(MakeDay(e.year, e.month, e.day), timestamp % SECONDS_PER_DAY);
    DateRoundTrip(timestamp / SECONDS_PER_DAY);
    ThreeMonthsAreDays(d);
    WholeDays(timestamp / SECONDS_PER_DAY - MakeDay(e.year, e.month, e.day));
  }

  lemma WholeDays(days: int)
    ensures (days * SECONDS_PER_DAY) % SECONDS_PER_DAY == 0
  {
  }

  lemma ThreeMonthsAreDays(d: Date)
    requires ValidDate(d)
    ensures var e := ThreeMonthsBefore(d);
            89 <= MakeDay(d.year, d.month, d.day) - MakeDay(e.year, e.month, e.day) <= 92
  {
    hide DayFromYear, IsLeap;
    YearLength(d.year - 1);
    assert d.month / 12 == 0 && d.month % 12 == d.month;
    var e := ThreeMonthsBefore(d);
    assert e.month / 12 == 0 && e.month % 12 == e.month;
    ConsecutiveLeap(d.year);
  }

  lemma ConsecutiveLeap(y: int)
    ensures LeapDay(y) == 0 || LeapDay(y - 1) == 0
    ensures 0 <= LeapDay(y) <= 1 && 0 <= LeapDay(y - 1) <= 1
  {
  }
}
