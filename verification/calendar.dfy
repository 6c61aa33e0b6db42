/**
  The proleptic Gregorian calendar on day numbers.

  A date is an `int`: the number of the day counted so that 0001-01-01 is day 1
  (the ordinal of Python's `date.toordinal`). Consecutive days have consecutive
  numbers, so a daily range is an integer interval. The routes need three things
  from the calendar: the number of a given year/month/day, the year/month/day of
  a given number (for `pd.DateOffset(years=2)` and `.dt.day`), and the length of
  a month (for `relativedelta(months=1) - timedelta(days=1)`).
*/
module Calendar {

  datatype CivilDate = CivilDate(year: int, month: int, day: int)

  predicate IsLeapYear(y: int) {
    y % 4 == 0 && (y % 100 != 0 || y % 400 == 0)
  }

  function DaysInYear(y: int): int {
    if IsLeapYear(y) then 366 else 365
  }

  function DaysInMonth(y: int, m: int): (n: int)
    requires 1 <= m <= 12
    ensures 28 <= n <= 31
  {
    if m == 2 then (if IsLeapYear(y) then 29 else 28)
    else if m == 4 || m == 6 || m == 9 || m == 11 then 30
    else 31
  }

  predicate IsValid(c: CivilDate) {
    1 <= c.month <= 12 && 1 <= c.day <= DaysInMonth(c.year, c.month)
  }

  /** Days of the years 1 .. y-1 (negative for years before 1). */
  function DaysBeforeYear(y: int): int {
    var p := y - 1;
    365 * p + p / 4 - p / 100 + p / 400
  }

  /** Days of the months 1 .. m-1 of year y; m == 13 gives the whole year. */
  function DaysBeforeMonth(y: int, m: int): int
    requires 1 <= m <= 13
  {
    var common :=
      if m == 1 then 0 else if m == 2 then 31 else if m == 3 then 59
      else if m == 4 then 90 else if m == 5 then 120 else if m == 6 then 151
      else if m == 7 then 181 else if m == 8 then 212 else if m == 9 then 243
      else if m == 10 then 273 else if m == 11 then 304 else if m == 12 then 334
      else 365;
    if m > 2 && IsLeapYear(y) then common + 1 else common
  }

  /** The day number of a calendar date. */
  function Ordinal(c: CivilDate): int
    requires IsValid(c)
  {
    DaysBeforeYear(c.year) + DaysBeforeMonth(c.year, c.month) + c.day
  }

  lemma MonthStep(y: int, m: int)
    requires 1 <= m <= 12
    ensures DaysBeforeMonth(y, m + 1) == DaysBeforeMonth(y, m) + DaysInMonth(y, m)
  {
  }

  lemma MonthsFillYear(y: int)
    ensures DaysBeforeMonth(y, 13) == DaysInYear(y)
  {
  }

  /** One year further on is exactly that year's length further on. */
  lemma YearStep(y: int)
    ensures DaysBeforeYear(y + 1) == DaysBeforeYear(y) + DaysInYear(y)
  {
    var p := y - 1;
    assert y / 4 - p / 4 == (if y % 4 == 0 then 1 else 0);
    assert y / 100 - p / 100 == (if y % 100 == 0 then 1 else 0);
    assert y / 400 - p / 400 == (if y % 400 == 0 then 1 else 0);
  }

  /** The calendar repeats every 400 years, which hold 146097 days. */
  lemma EraStep(y: int, e: int)
    ensures DaysBeforeYear(y + 400 * e) == DaysBeforeYear(y) + 146097 * e
  {
    var p := y - 1;
    assert (p + 400 * e) / 4 == p / 4 + 100 * e;
    assert (p + 400 * e) / 100 == p / 100 + 4 * e;
    assert (p + 400 * e) / 400 == p / 400 + e;
  }

  lemma {:induction false} YearsIncrease(y1: int, y2: int)
    requires y1 < y2
    ensures DaysBeforeYear(y1 + 1) <= DaysBeforeYear(y2)
    decreases y2 - y1
  {
    if y1 + 1 < y2 {
      YearsIncrease(y1, y2 - 1);
      YearStep(y2 - 1);
    }
  }

  /** The year holding day n, found by walking up from year y. */
  function FindYear(n: int, y: int): (r: int)
    requires DaysBeforeYear(y) < n
    ensures DaysBeforeYear(r) < n <= DaysBeforeYear(r + 1)
    decreases n - DaysBeforeYear(y)
  {
    YearStep(y);
    if n <= DaysBeforeYear(y + 1) then y else FindYear(n, y + 1)
  }

  /** The year holding day n: reduce n to the first 400-year era, then walk. */
  function YearOf(n: int): (y: int)
    ensures DaysBeforeYear(y) < n <= DaysBeforeYear(y + 1)
  {
    var era := (n - 1) / 146097;
    var y0 := FindYear((n - 1) % 146097 + 1, 1);
    EraStep(y0, era);
    EraStep(y0 + 1, era);
    assert y0 + 1 + 400 * era == y0 + 400 * era + 1;
    y0 + 400 * era
  }

  lemma YearOfUnique(n: int, y: int)
    requires DaysBeforeYear(y) < n <= DaysBeforeYear(y + 1)
    ensures YearOf(n) == y
  {
    var z := YearOf(n);
    if z < y {
      YearsIncrease(z, y);
    } else if y < z {
      YearsIncrease(y, z);
    }
  }

  /** The month of year y holding its day doy, found by walking up from month m. */
  function FindMonth(y: int, doy: int, m: int): (r: int)
    requires 1 <= m <= 12 && DaysBeforeMonth(y, m) < doy <= DaysInYear(y)
    ensures m <= r <= 12 && DaysBeforeMonth(y, r) < doy <= DaysBeforeMonth(y, r + 1)
    decreases 12 - m
  {
    MonthsFillYear(y);
    if doy <= DaysBeforeMonth(y, m + 1) then m else FindMonth(y, doy, m + 1)
  }

  lemma MonthsIncrease(y: int, m1: int, m2: int)
    requires 1 <= m1 < m2 <= 13
    ensures DaysBeforeMonth(y, m1 + 1) <= DaysBeforeMonth(y, m2)
  {
  }

  /** The calendar date of day n: the inverse of Ordinal. */
  function Civil(n: int): (c: CivilDate)
    ensures IsValid(c) && Ordinal(c) == n
  {
    var y := YearOf(n);
    YearStep(y);
    MonthsFillYear(y);
    var doy := n - DaysBeforeYear(y);
    var m := FindMonth(y, doy, 1);
    MonthStep(y, m);
    CivilDate(y, m, doy - DaysBeforeMonth(y, m))
  }

  /** Ordinal is one-to-one: the date of a date's number is that date. */
  lemma CivilOfOrdinal(c: CivilDate)
    requires IsValid(c)
    ensures Civil(Ordinal(c)) == c
  {
    var n := Ordinal(c);
    MonthStep(c.year, c.month);
    MonthsFillYear(c.year);
    YearStep(c.year);
    YearOfUnique(n, c.year);
    var d := Civil(n);
    assert d.year == c.year;
    if d.month < c.month {
      MonthsIncrease(c.year, d.month, c.month);
    } else if c.month < d.month {
      MonthsIncrease(c.year, c.month, d.month);
    }
  }

  /** The date y-m-d, with the day cut back to the month's last day when the month is shorter. */
  function ClampedDate(y: int, m: int, d: int): (c: CivilDate)
    requires 1 <= m <= 12 && 1 <= d
    ensures IsValid(c)
  {
    CivilDate(y, m, if d <= DaysInMonth(y, m) then d else DaysInMonth(y, m))
  }

  /**
    Day n moved by k calendar years, as `pd.DateOffset(years=k)` does: same month
    and day in year + k, and 29 February becomes 28 February in a common year.
  */
  function AddYears(n: int, k: int): int {
    var c := Civil(n);
    Ordinal(ClampedDate(c.year + k, c.month, c.day))
  }

  /** The date of AddYears(n, k) is the clamped date k years on. */
  lemma AddYearsDate(n: int, k: int)
    ensures var c := Civil(n);
            Civil(AddYears(n, k)) == ClampedDate(c.year + k, c.month, c.day)
  {
    var c := Civil(n);
    var e := ClampedDate(c.year + k, c.month, c.day);
    assert AddYears(n, k) == Ordinal(e);
    CivilOfOrdinal(e);
  }

  /** Two calendar years back is 730 or 731 days back. */
  lemma TwoYearsBack(n: int)
    ensures n - 731 <= AddYears(n, -2) <= n - 730
  {
    var c := Civil(n);
    TwoYearsBackFrom(c);
    assert AddYears(n, -2) == Ordinal(ClampedDate(c.year - 2, c.month, c.day));
  }

  lemma TwoYearsBackFrom(c: CivilDate)
    requires IsValid(c)
    ensures Ordinal(c) - 731 <= Ordinal(ClampedDate(c.year - 2, c.month, c.day)) <= Ordinal(c) - 730
  {
    var y, m, d := c.year, c.month, c.day;
    var e := ClampedDate(y - 2, m, d);
    YearStep(y - 2);
    YearStep(y - 1);
    var span := DaysInYear(y - 2) + DaysInYear(y - 1);
    assert DaysBeforeYear(y) == DaysBeforeYear(y - 2) + span;
    var shift := DaysBeforeMonth(y, m) - DaysBeforeMonth(y - 2, m);
    var cut := d - e.day;
    assert Ordinal(c) - Ordinal(e) == span + shift + cut;
    LeapYearsApart(y - 2);
    LeapYearsApart(y - 1);
    if IsLeapYear(y) {
      assert span == 730 && 0 <= shift + cut <= 1;
    } else if IsLeapYear(y - 2) {
      assert span == 731 && -1 <= shift <= 0 && cut == 0;
    } else if IsLeapYear(y - 1) {
      assert span == 731 && shift == 0 && cut == 0;
    } else {
      assert span == 730 && shift == 0 && cut == 0;
    }
  }

  /** Leap years are at least four years apart. */
  lemma LeapYearsApart(y: int)
    ensures IsLeapYear(y) ==> !IsLeapYear(y + 1) && !IsLeapYear(y + 2)
  {
    if y % 4 == 0 {
      assert (y + 1) % 4 == 1 && (y + 2) % 4 == 2;
    }
  }

  /** The first day of month m of year y. */
  function FirstOfMonth(y: int, m: int): int
    requires 1 <= m <= 12
  {
    Ordinal(CivilDate(y, m, 1))
  }

  /**
    The last day of month m of year y, computed as the route does: the first of
    the next month, one day back. It is the day numbered DaysInMonth(y, m).
  */
  function LastOfMonth(y: int, m: int): (r: int)
    requires 1 <= m <= 12
    ensures r == Ordinal(CivilDate(y, m, DaysInMonth(y, m)))
    ensures r - FirstOfMonth(y, m) + 1 == DaysInMonth(y, m)
  {
    MonthStep(y, m);
    MonthsFillYear(y);
    YearStep(y);
    (if m == 12 then FirstOfMonth(y + 1, 1) else FirstOfMonth(y, m + 1)) - 1
  }

  /** Inside month m of year y, a day's day-of-month is its distance from the first, plus one. */
  lemma DayOfMonthInWindow(y: int, m: int, n: int)
    requires 1 <= m <= 12
    requires FirstOfMonth(y, m) <= n <= LastOfMonth(y, m)
    ensures Civil(n) == CivilDate(y, m, n - FirstOfMonth(y, m) + 1)
  {
    var d := n - FirstOfMonth(y, m) + 1;
    assert 1 <= d <= DaysInMonth(y, m);
    assert Ordinal(CivilDate(y, m, d)) == n;
    CivilOfOrdinal(CivilDate(y, m, d));
  }
}
