/** The part of .NET's `System.DateTime` that the toll core reads: calendar fields,
    the exact tick count (100-nanosecond units since 0001-01-01 00:00 in the
    proleptic Gregorian calendar), the date part and the day of the week. */
module Calendar {

  const TicksPerSecond: int := 10_000_000
  const TicksPerMinute: int := 60 * TicksPerSecond
  const TicksPerHour: int := 60 * TicksPerMinute
  const TicksPerDay: int := 24 * TicksPerHour

  /** .NET's `DayOfWeek`, in its numeric order (Sunday is 0). */
  datatype DayOfWeek = Sunday | Monday | Tuesday | Wednesday | Thursday | Friday | Saturday

  predicate IsLeapYear(year: int) {
    year % 4 == 0 && (year % 100 != 0 || year % 400 == 0)
  }

  function DaysInMonth(year: int, month: int): (days: int)
    requires 1 <= month <= 12
    ensures 28 <= days <= 31
    ensures days == 29 <==> month == 2 && IsLeapYear(year)
  {
    if month == 2 then (if IsLeapYear(year) then 29 else 28)
    else if month == 4 || month == 6 || month == 9 || month == 11 then 30
    else 31
  }

  /** A `DateTime` value by its fields; `subTicks` is the fraction of the second in ticks. */
  datatype DateTime = DateTime(year: int, month: int, day: int,
                               hour: int, minute: int, second: int, subTicks: int)
  {
    /** The range of values a .NET `DateTime` can hold. */
    predicate Valid() {
      && 1 <= year <= 9999
      && 1 <= month <= 12
      && 1 <= day <= DaysInMonth(year, month)
      && 0 <= hour < 24
      && 0 <= minute < 60
      && 0 <= second < 60
      && 0 <= subTicks < TicksPerSecond
    }
  }

  /** Every `DateTime` the program can hold. */
  type Timestamp = t: DateTime | t.Valid() witness DateTime(1, 1, 1, 0, 0, 0, 0)

  /** The number of days in the years 1 .. year - 1. */
  function DaysBeforeYear(year: int): int
    requires year >= 1
  {
    var y := year - 1;
    365 * y + y / 4 - y / 100 + y / 400
  }

  /** The number of days in the months before `month` of `year`. */
  function DaysBeforeMonth(year: int, month: int): int
    requires 1 <= month <= 12
  {
    var cumulative := [0, 31, 59, 90, 120, 151, 181, 212, 243, 273, 304, 334];
    cumulative[month - 1] + (if month > 2 && IsLeapYear(year) then 1 else 0)
  }

  /** Days elapsed from 0001-01-01 to the date of `t`. */
  function DayNumber(t: Timestamp): int {
    DaysBeforeYear(t.year) + DaysBeforeMonth(t.year, t.month) + t.day - 1
  }

  /** `DateTime.TimeOfDay`, in ticks: less than a day. */
  function TimeOfDayTicks(t: Timestamp): (ticks: int)
    ensures 0 <= ticks < TicksPerDay
  {
    t.hour * TicksPerHour + t.minute * TicksPerMinute + t.second * TicksPerSecond + t.subTicks
  }

  /** `DateTime.Ticks`: whole days since 0001-01-01, then the time of day. */
  function Ticks(t: Timestamp): int {
    DayNumber(t) * TicksPerDay + TimeOfDayTicks(t)
  }

  /** `DateTime.Date`, compared by its calendar fields. */
  function Date(t: Timestamp): (int, int, int) {
    (t.year, t.month, t.day)
  }

  /** `DateTime.DayOfWeek`: 0001-01-01 was a Monday. */
  function DayOfWeekOf(t: Timestamp): DayOfWeek {
    match (DayNumber(t) + 1) % 7
    case 0 => Sunday
    case 1 => Monday
    case 2 => Tuesday
    case 3 => Wednesday
    case 4 => Thursday
    case 5 => Friday
    case _ => Saturday
  }

  /** Two instants on the same date differ by their time of day alone. */
  lemma SameDateTicks(a: Timestamp, b: Timestamp)
    requires Date(a) == Date(b)
    ensures Ticks(b) - Ticks(a) ==
      (b.hour - a.hour) * TicksPerHour + (b.minute - a.minute) * TicksPerMinute
      + (b.second - a.second) * TicksPerSecond + (b.subTicks - a.subTicks)
  {
    assert DayNumber(a) == DayNumber(b);
  }

  function DaysInYear(year: int): int {
    if IsLeapYear(year) then 366 else 365
  }

  lemma DivisorStep4(n: int)
    ensures n / 4 - (n - 1) / 4 == if n % 4 == 0 then 1 else 0
  {
  }

  lemma DivisorStep100(n: int)
    ensures n / 100 - (n - 1) / 100 == if n % 100 == 0 then 1 else 0
  {
  }

  lemma DivisorStep400(n: int)
    ensures n / 400 - (n - 1) / 400 == if n % 400 == 0 then 1 else 0
  {
  }

  lemma MultipleOf400(k: int)
    ensures (400 * k) % 100 == 0
  {
  }

  lemma MultipleOf100(k: int)
    ensures (100 * k) % 4 == 0
  {
  }

  lemma DivisorChain(n: int)
    ensures n % 400 == 0 ==> n % 100 == 0
    ensures n % 100 == 0 ==> n % 4 == 0
  {
    if n % 400 == 0 {
      MultipleOf400(n / 400);
    }
    if n % 100 == 0 {
      MultipleOf100(n / 100);
    }
  }

  lemma DaysBeforeYearStep(year: int)
    requires year >= 1
    ensures DaysBeforeYear(year + 1) == DaysBeforeYear(year) + DaysInYear(year)
  {
    var leaps := (year / 4 - (year - 1) / 4) - (year / 100 - (year - 1) / 100) + (year / 400 - (year - 1) / 400);
    assert DaysBeforeYear(year + 1) - DaysBeforeYear(year) == 365 + leaps;
    DivisorStep4(year);
    DivisorStep100(year);
    DivisorStep400(year);
    DivisorChain(year);
    assert leaps == if IsLeapYear(year) then 1 else 0;
  }

  lemma {:induction false} DaysBeforeYearGrows(y1: int, y2: int)
    requires 1 <= y1 <= y2
    ensures DaysBeforeYear(y1) <= DaysBeforeYear(y2)
    decreases y2 - y1
  {
    if y1 < y2 {
      DaysBeforeYearStep(y1);
      DaysBeforeYearGrows(y1 + 1, y2);
    }
  }

  lemma DaysBeforeMonthStep(year: int, month: int)
    requires 1 <= month < 12
    ensures DaysBeforeMonth(year, month) + DaysInMonth(year, month) == DaysBeforeMonth(year, month + 1)
  {
  }

  lemma {:induction false} DaysBeforeMonthGrows(year: int, m1: int, m2: int)
    requires 1 <= m1 < m2 <= 12
    ensures DaysBeforeMonth(year, m1) + DaysInMonth(year, m1) <= DaysBeforeMonth(year, m2)
    decreases m2 - m1
  {
    DaysBeforeMonthStep(year, m1);
    if m1 + 1 < m2 {
      DaysBeforeMonthGrows(year, m1 + 1, m2);
    }
  }

  /** The day of the year, counted from 0, stays below the length of the year. */
  lemma DayOfYearBounds(t: Timestamp)
    ensures 0 <= DaysBeforeMonth(t.year, t.month) + t.day - 1 < DaysInYear(t.year)
  {
    if t.month < 12 {
      DaysBeforeMonthGrows(t.year, t.month, 12);
    }
  }

  /** A later year starts after every day of an earlier one. */
  lemma EarlierYearEarlierDay(a: Timestamp, b: Timestamp)
    requires a.year < b.year
    ensures DayNumber(a) < DayNumber(b)
  {
    DayOfYearBounds(a);
    DayOfYearBounds(b);
    DaysBeforeYearStep(a.year);
    DaysBeforeYearGrows(a.year + 1, b.year);
  }

  /** In one year, a later month starts after every day of an earlier one. */
  lemma EarlierMonthEarlierDay(a: Timestamp, b: Timestamp)
    requires a.year == b.year && a.month < b.month
    ensures DayNumber(a) < DayNumber(b)
  {
    DaysBeforeMonthGrows(a.year, a.month, b.month);
  }

  /** Distinct dates have distinct day numbers. */
  lemma DayNumberDeterminesDate(a: Timestamp, b: Timestamp)
    requires DayNumber(a) == DayNumber(b)
    ensures Date(a) == Date(b)
  {
    if a.year < b.year {
      EarlierYearEarlierDay(a, b);
    } else if b.year < a.year {
      EarlierYearEarlierDay(b, a);
    } else if a.month < b.month {
      EarlierMonthEarlierDay(a, b);
    } else if b.month < a.month {
      EarlierMonthEarlierDay(b, a);
    }
  }

  lemma TimeOfDayDeterminesClock(a: Timestamp, b: Timestamp)
    requires TimeOfDayTicks(a) == TimeOfDayTicks(b)
    ensures a.hour == b.hour && a.minute == b.minute && a.second == b.second && a.subTicks == b.subTicks
  {
    var sa, sb := (a.hour * 60 + a.minute) * 60 + a.second, (b.hour * 60 + b.minute) * 60 + b.second;
    assert TimeOfDayTicks(a) == sa * TicksPerSecond + a.subTicks;
    assert TimeOfDayTicks(b) == sb * TicksPerSecond + b.subTicks;
    assert sa == sb;
    var ma, mb := a.hour * 60 + a.minute, b.hour * 60 + b.minute;
    assert ma * 60 + a.second == mb * 60 + b.second;
    assert ma == mb;
  }

  lemma DayTicksSplit(d1: int, t1: int, d2: int, t2: int)
    requires 0 <= t1 < TicksPerDay && 0 <= t2 < TicksPerDay
    requires d1 * TicksPerDay + t1 == d2 * TicksPerDay + t2
    ensures d1 == d2 && t1 == t2
  {
  }

  /** `DateTime` equality compares tick counts; on valid values that is field equality,
      so comparing timestamps as values is comparing them as .NET does. */
  lemma TicksDetermineTimestamp(a: Timestamp, b: Timestamp)
    ensures Ticks(a) == Ticks(b) <==> a == b
  {
    if Ticks(a) == Ticks(b) {
      DayTicksSplit(DayNumber(a), TimeOfDayTicks(a), DayNumber(b), TimeOfDayTicks(b));
      DayNumberDeterminesDate(a, b);
      TimeOfDayDeterminesClock(a, b);
    }
  }
}
