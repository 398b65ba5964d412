/** Proleptic Gregorian day-of-year arithmetic: the part of `java.util.Calendar`
    that resolves a YEAR and a DAY_OF_YEAR into a month and a day of month. */
module Gregorian {

  /** First year lying wholly after the Julian/Gregorian cutover of 1582. */
  const FirstModelYear: int := 1583
  /** Last year wholly inside the range of GregorianCalendar's instant, a signed
      64-bit count of milliseconds (it ends in August of year 292278994). */
  const LastModelYear: int := 292278993

  datatype Date = Date(year: int, month: int, day: int)

  predicate IsLeapYear(y: int) {
    y % 4 == 0 && (y % 100 != 0 || y % 400 == 0)
  }

  function DaysInYear(y: int): int {
    if IsLeapYear(y) then 366 else 365
  }

  /** The Gregorian leap rule repeats every 400 years; 1900 is a common year
      and 2000 a leap year. */
  lemma LeapYearRule(y: int)
    ensures IsLeapYear(y + 400) == IsLeapYear(y)
    ensures !IsLeapYear(1900) && IsLeapYear(2000) && IsLeapYear(2024) && !IsLeapYear(2023)
  {
    assert (y + 400) % 4 == y % 4 && (y + 400) % 100 == y % 100 && (y + 400) % 400 == y % 400;
  }

  /** Month lengths: 28 to 31 days, and 29 only for February of a leap year. */
  function DaysInMonth(y: int, m: int): (n: int)
    requires 1 <= m <= 12
    ensures 28 <= n <= 31
    ensures n == 29 <==> m == 2 && IsLeapYear(y)
    ensures n == 28 <==> m == 2 && !IsLeapYear(y)
  {
    if m == 2 then (if IsLeapYear(y) then 29 else 28)
    else if m == 4 || m == 6 || m == 9 || m == 11 then 30
    else 31
  }

  /** Days of year `y` that lie in the months before month `m`. */
  function DaysBeforeMonth(y: int, m: int): nat
    requires 1 <= m <= 13
  {
    if m == 1 then 0 else DaysBeforeMonth(y, m - 1) + DaysInMonth(y, m - 1)
  }

  predicate ValidDate(d: Date) {
    1 <= d.month <= 12 && 1 <= d.day <= DaysInMonth(d.year, d.month)
  }

  /** The ordinal day (1-based) of a calendar date within its year. */
  function DayOfYear(d: Date): (doy: int)
    requires ValidDate(d)
    ensures 1 <= doy <= DaysInYear(d.year)
  {
    DaysBeforeMonthBounds(d.year, d.month + 1, 13);
    YearOfMonths(d.year);
    DaysBeforeMonth(d.year, d.month) + d.day
  }

  /** Twelve months make a year. */
  lemma YearOfMonths(y: int)
    ensures DaysBeforeMonth(y, 13) == DaysInYear(y)
  {
    var leap := if IsLeapYear(y) then 1 else 0;
    assert DaysBeforeMonth(y, 2) == 31;
    assert DaysBeforeMonth(y, 3) == 59 + leap;
    assert DaysBeforeMonth(y, 4) == 90 + leap;
    assert DaysBeforeMonth(y, 5) == 120 + leap;
    assert DaysBeforeMonth(y, 6) == 151 + leap;
    assert DaysBeforeMonth(y, 7) == 181 + leap;
    assert DaysBeforeMonth(y, 8) == 212 + leap;
    assert DaysBeforeMonth(y, 9) == 243 + leap;
    assert DaysBeforeMonth(y, 10) == 273 + leap;
    assert DaysBeforeMonth(y, 11) == 304 + leap;
    assert DaysBeforeMonth(y, 12) == 334 + leap;
    assert DaysBeforeMonth(y, 13) == 365 + leap;
  }

  /** DaysBeforeMonth grows by at least the length of each month it passes. */
  lemma {:induction false} DaysBeforeMonthBounds(y: int, m1: int, m2: int)
    requires 1 <= m1 <= m2 <= 13
    ensures DaysBeforeMonth(y, m1) <= DaysBeforeMonth(y, m2)
    ensures m1 < m2 ==> DaysBeforeMonth(y, m1) + DaysInMonth(y, m1) <= DaysBeforeMonth(y, m2)
  {
    if m1 < m2 {
      DaysBeforeMonthBounds(y, m1, m2 - 1);
    }
  }

  /** Walks the months from `m` on, taking off each month's length from `rem`
      until the remaining day falls within a month. */
  function LocateDay(y: int, m: int, rem: int): (d: Date)
    requires 1 <= m <= 12 && 1 <= rem
    requires DaysBeforeMonth(y, m) + rem <= DaysInYear(y)
    ensures ValidDate(d) && d.year == y && m <= d.month
    ensures DaysBeforeMonth(y, d.month) + d.day == DaysBeforeMonth(y, m) + rem
    decreases 12 - m
  {
    if rem <= DaysInMonth(y, m) then Date(y, m, rem)
    else
      assert m < 12 by { YearOfMonths(y); }
      LocateDay(y, m + 1, rem - DaysInMonth(y, m))
  }

  /** The date that is day `doy` of year `y`, as `Calendar.set(YEAR, y)` followed
      by `Calendar.set(DAY_OF_YEAR, doy)` resolves it. */
  function OrdinalToDate(y: int, doy: int): (d: Date)
    requires 1 <= doy <= DaysInYear(y)
    ensures ValidDate(d) && d.year == y && DayOfYear(d) == doy
  {
    LocateDay(y, 1, doy)
  }

  /** Two valid dates of one year with the same ordinal day are the same date. */
  lemma DayOfYearInjective(d1: Date, d2: Date)
    requires ValidDate(d1) && ValidDate(d2) && d1.year == d2.year
    requires DayOfYear(d1) == DayOfYear(d2)
    ensures d1 == d2
  {
    if d1.month < d2.month {
      DaysBeforeMonthBounds(d1.year, d1.month, d2.month);
    } else if d2.month < d1.month {
      DaysBeforeMonthBounds(d1.year, d2.month, d1.month);
    }
  }

  /** Converting a calendar date to its ordinal day and back gives the date. */
  lemma OrdinalRoundTrip(d: Date)
    requires ValidDate(d)
    ensures OrdinalToDate(d.year, DayOfYear(d)) == d
  {
    DayOfYearInjective(OrdinalToDate(d.year, DayOfYear(d)), d);
  }
}
