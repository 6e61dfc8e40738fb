/**
 * The proleptic Gregorian calendar as Python's datetime module computes it:
 * minute-precision date-times, the day ordinal (0001-01-01 is day 1) by the
 * closed forms of CPython's _days_before_year and _days_before_month, the
 * weekday derived from it, and day-by-day addition for timedelta(weeks=...).
 */
module Calendar {

  const MINYEAR := 1
  const MAXYEAR := 9999

  /** A naive datetime at minute precision; seconds play no part in either format. */
  datatype DateTime = DateTime(year: int, month: int, day: int, hour: int, minute: int)

  predicate IsLeap(y: int)
  {
    y % 4 == 0 && (y % 100 != 0 || y % 400 == 0)
  }

  function YearLength(y: int): int
  {
    if IsLeap(y) then 366 else 365
  }

  function DaysInMonth(y: int, m: int): (n: int)
    requires 1 <= m <= 12
    ensures 28 <= n <= 31
    ensures n == 29 <==> m == 2 && IsLeap(y)
  {
    if m == 2 then (if IsLeap(y) then 29 else 28)
    else if m == 4 || m == 6 || m == 9 || m == 11 then 30
    else 31
  }

  /** A calendar date; the year has no upper bound here so that date arithmetic can overflow. */
  predicate ValidDate(dt: DateTime)
  {
    dt.year >= MINYEAR && 1 <= dt.month <= 12 && 1 <= dt.day <= DaysInMonth(dt.year, dt.month)
  }

  /** What Python's datetime accepts: a date in years 1..9999 and a time of day. */
  predicate Valid(dt: DateTime)
  {
    ValidDate(dt) && dt.year <= MAXYEAR && 0 <= dt.hour < 24 && 0 <= dt.minute < 60
  }

  /** CPython's _days_before_year: days in the years before y, in closed form. */
  function DaysBeforeYear(y: int): int
    requires y >= 1
  {
    var z := y - 1;
    z * 365 + z / 4 - z / 100 + z / 400
  }

  /** CPython's _days_before_month: a table of cumulative month lengths plus the leap day. */
  function DaysBeforeMonth(y: int, m: int): int
    requires 1 <= m <= 12
  {
    [0, 31, 59, 90, 120, 151, 181, 212, 243, 273, 304, 334][m - 1]
      + (if m > 2 && IsLeap(y) then 1 else 0)
  }

  /** CPython's date.toordinal(). */
  function Ordinal(dt: DateTime): int
    requires ValidDate(dt)
  {
    DaysBeforeYear(dt.year) + DaysBeforeMonth(dt.year, dt.month) + dt.day
  }

  /** CPython's date.weekday(): 0 is Monday, 6 is Sunday. */
  function Weekday(dt: DateTime): (w: int)
    requires ValidDate(dt)
    ensures 0 <= w < 7
  {
    (Ordinal(dt) + 6) % 7
  }

  // Reference definitions: the same counts accumulated one year (one month) at a time.

  function DaysInYearsBefore(y: int): int
    requires y >= 1
    decreases y
  {
    if y == 1 then 0 else DaysInYearsBefore(y - 1) + YearLength(y - 1)
  }

  function DaysInMonthsBefore(y: int, m: int): int
    requires 1 <= m <= 12
  {
    if m == 1 then 0 else DaysInMonthsBefore(y, m - 1) + DaysInMonth(y, m - 1)
  }

  /** The counts of multiples of 4, 100 and 400 up to y grow by one exactly at a multiple. */
  lemma MultiplesOf4Step(y: int)
    requires y >= 1
    ensures y / 4 == (y - 1) / 4 + (if y % 4 == 0 then 1 else 0)
  {
  }

  lemma MultiplesOf100Step(y: int)
    requires y >= 1
    ensures y / 100 == (y - 1) / 100 + (if y % 100 == 0 then 1 else 0)
    ensures y % 100 == 0 ==> y % 4 == 0
  {
  }

  lemma MultiplesOf400Step(y: int)
    requires y >= 1
    ensures y / 400 == (y - 1) / 400 + (if y % 400 == 0 then 1 else 0)
    ensures y % 400 == 0 ==> y % 100 == 0
  {
  }

  /** From one year to the next the closed form grows by exactly that year's length. */
  lemma DaysBeforeYearStep(y: int)
    requires y >= 1
    ensures DaysBeforeYear(y + 1) == DaysBeforeYear(y) + YearLength(y)
  {
    MultiplesOf4Step(y);
    MultiplesOf100Step(y);
    MultiplesOf400Step(y);
    assert DaysBeforeYear(y + 1) == y * 365 + y / 4 - y / 100 + y / 400;
  }

  /** The closed form of _days_before_year counts the days of all earlier years. */
  lemma {:induction false} DaysBeforeYearCounts(y: int)
    requires y >= 1
    ensures DaysBeforeYear(y) == DaysInYearsBefore(y)
    decreases y
  {
    if y > 1 {
      DaysBeforeYearCounts(y - 1);
      DaysBeforeYearStep(y - 1);
    }
  }

  /** The month table of _days_before_month counts the days of all earlier months. */
  lemma {:induction false} DaysBeforeMonthCounts(y: int, m: int)
    requires 1 <= m <= 12
    ensures DaysBeforeMonth(y, m) == DaysInMonthsBefore(y, m)
  {
    if m > 1 {
      DaysBeforeMonthCounts(y, m - 1);
    }
  }

  lemma DaysBeforeMonthStep(y: int, m: int)
    requires 1 <= m < 12
    ensures DaysBeforeMonth(y, m + 1) == DaysBeforeMonth(y, m) + DaysInMonth(y, m)
  {
  }

  lemma DaysBeforeMonthBound(y: int, m: int)
    requires 1 <= m <= 12
    ensures DaysBeforeMonth(y, m) + DaysInMonth(y, m) <= YearLength(y)
  {
  }

  /** The following calendar day, at the same time of day. */
  function NextDay(dt: DateTime): (r: DateTime)
    requires ValidDate(dt)
    ensures ValidDate(r) && r.hour == dt.hour && r.minute == dt.minute
    ensures Ordinal(r) == Ordinal(dt) + 1
  {
    if dt.day < DaysInMonth(dt.year, dt.month) then
      dt.(day := dt.day + 1)
    else if dt.month < 12 then
      DaysBeforeMonthStep(dt.year, dt.month);
      dt.(month := dt.month + 1, day := 1)
    else
      DaysBeforeYearStep(dt.year);
      dt.(year := dt.year + 1, month := 1, day := 1)
  }

  /** dt + timedelta(days = n), computed one day at a time. */
  function AddDays(dt: DateTime, n: nat): (r: DateTime)
    requires ValidDate(dt)
    ensures ValidDate(r) && r.hour == dt.hour && r.minute == dt.minute
    ensures Ordinal(r) == Ordinal(dt) + n
    ensures r.year >= dt.year
    decreases n
  {
    if n == 0 then dt else AddDays(NextDay(dt), n - 1)
  }

  /** Day 1, 0001-01-01, is a Monday. */
  lemma WeekdayOfFirstDay(h: int, m: int)
    ensures ValidDate(DateTime(1, 1, 1, h, m)) && Weekday(DateTime(1, 1, 1, h, m)) == 0
  {
    assert Ordinal(DateTime(1, 1, 1, h, m)) == 1;
  }

  /** Each following day is the following weekday, Sunday wrapping round to Monday. */
  lemma WeekdayNextDay(dt: DateTime)
    requires ValidDate(dt)
    ensures Weekday(NextDay(dt)) == (Weekday(dt) + 1) % 7
  {
    NextWeekdayResidue(Ordinal(dt) + 6);
  }

  lemma NextWeekdayResidue(a: int)
    ensures (a + 1) % 7 == (a % 7 + 1) % 7
  {
  }

  lemma DaysBeforeYearMonotone(y1: int, y2: int)
    requires 1 <= y1 < y2
    ensures DaysBeforeYear(y1) + YearLength(y1) <= DaysBeforeYear(y2)
  {
    DaysBeforeYearStep(y1);
  }

  /** Distinct valid dates have distinct ordinals, so the ordinal names the date. */
  lemma OrdinalInjective(a: DateTime, b: DateTime)
    requires ValidDate(a) && ValidDate(b)
    requires Ordinal(a) == Ordinal(b)
    ensures a.year == b.year && a.month == b.month && a.day == b.day
  {
    DaysBeforeMonthBound(a.year, a.month);
    DaysBeforeMonthBound(b.year, b.month);
    if a.year < b.year {
      DaysBeforeYearMonotone(a.year, b.year);
    } else if b.year < a.year {
      DaysBeforeYearMonotone(b.year, a.year);
    }
    assert a.year == b.year;
    if a.month < b.month {
      DaysBeforeMonthMonotone(a.year, a.month, b.month);
    } else if b.month < a.month {
      DaysBeforeMonthMonotone(a.year, b.month, a.month);
    }
  }

  lemma {:induction false} DaysBeforeMonthMonotone(y: int, m1: int, m2: int)
    requires 1 <= m1 < m2 <= 12
    ensures DaysBeforeMonth(y, m1) + DaysInMonth(y, m1) <= DaysBeforeMonth(y, m2)
    decreases m2 - m1
  {
    DaysBeforeMonthStep(y, m1);
    if m1 + 1 < m2 {
      DaysBeforeMonthMonotone(y, m1 + 1, m2);
    }
  }
}
