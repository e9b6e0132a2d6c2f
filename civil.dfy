/** The proleptic Gregorian calendar as day counts: the conversion between a
    calendar date and the number of days since 1970-01-01 (the day of the
    JavaScript epoch) in both directions. JavaScript's `Date` uses this
    calendar for every year, with no historical switch-over. */
module Civil {

  predicate IsLeapYear(y: int) {
    y % 4 == 0 && (y % 100 != 0 || y % 400 == 0)
  }

  function DaysInYear(y: int): int {
    if IsLeapYear(y) then 366 else 365
  }

  function DaysInMonth(y: int, m: int): int
    requires 1 <= m <= 12
  {
    if m == 2 then (if IsLeapYear(y) then 29 else 28)
    else if m == 4 || m == 6 || m == 9 || m == 11 then 30
    else 31
  }

  predicate ValidDate(y: int, m: int, d: int) {
    1 <= m <= 12 && 1 <= d <= DaysInMonth(y, m)
  }

  /** The number of days from 0000-01-01 to the first of January of year `y`
      (negative for earlier years): 365 per year plus one per leap year. */
  function YearStart(y: int): int {
    365 * y + (y + 3) / 4 - (y + 99) / 100 + (y + 399) / 400
  }

  lemma YearStartStep(y: int)
    ensures YearStart(y + 1) == YearStart(y) + DaysInYear(y)
  {
    StepQuotient4(y);
    StepQuotient100(y);
    StepQuotient400(y);
  }

  /** Passing a multiple of the divisor raises the quotient by one. */
  lemma StepQuotient4(y: int)
    ensures (y + 4) / 4 == (y + 3) / 4 + (if y % 4 == 0 then 1 else 0)
  {
  }

  lemma StepQuotient100(y: int)
    ensures (y + 100) / 100 == (y + 99) / 100 + (if y % 100 == 0 then 1 else 0)
  {
  }

  lemma StepQuotient400(y: int)
    ensures (y + 400) / 400 == (y + 399) / 400 + (if y % 400 == 0 then 1 else 0)
  {
  }

  /** Adding whole multiples of the divisor shifts the quotient and keeps the remainder. */
  lemma ShiftQuotient(x: int, q: int, c: int)
    requires c == 4 || c == 100 || c == 400
    ensures (400 * q + x) / c == (400 / c) * q + x / c
    ensures (400 * q + x) % c == x % c
  {
    var a, b := x / c, x % c;
    assert x == c * a + b && 0 <= b < c;
    assert 400 * q + x == c * ((400 / c) * q + a) + b;
  }

  /** Every 400 years the calendar repeats, after 146097 days. */
  lemma YearStartCycle(q: int, k: int)
    ensures YearStart(400 * q + k) == 146097 * q + YearStart(k)
    ensures IsLeapYear(400 * q + k) == IsLeapYear(k)
  {
    ShiftQuotient(k + 3, q, 4);
    ShiftQuotient(k + 99, q, 100);
    ShiftQuotient(k + 399, q, 400);
    ShiftQuotient(k, q, 4);
    ShiftQuotient(k, q, 100);
    ShiftQuotient(k, q, 400);
  }

  lemma {:induction false} YearStartIncreasing(a: int, b: int)
    requires a < b
    ensures YearStart(a + 1) <= YearStart(b)
    decreases b - a
  {
    YearStartStep(a);
    if a + 1 < b {
      YearStartIncreasing(a + 1, b);
      YearStartStep(a + 1);
    }
  }

  /** The number of days from the first of January of year `y` to the first
      of month `m`; month 13 stands for the next first of January. */
  function MonthStart(y: int, m: int): int
    requires 1 <= m <= 13
  {
    var common :=
      if m == 1 then 0 else if m == 2 then 31 else if m == 3 then 59
      else if m == 4 then 90 else if m == 5 then 120 else if m == 6 then 151
      else if m == 7 then 181 else if m == 8 then 212 else if m == 9 then 243
      else if m == 10 then 273 else if m == 11 then 304 else if m == 12 then 334
      else 365;
    common + (if IsLeapYear(y) && m > 2 then 1 else 0)
  }

  lemma MonthStartStep(y: int, m: int)
    requires 1 <= m <= 12
    ensures MonthStart(y, m + 1) == MonthStart(y, m) + DaysInMonth(y, m)
    ensures MonthStart(y, 1) == 0 && MonthStart(y, 13) == DaysInYear(y)
  {
  }

  /** The day of the JavaScript epoch, 1970-01-01, counted from 0000-01-01. */
  const EpochDay: int := 719528

  /** The day number of a valid date: days since 1970-01-01. */
  function DaysFromCivil(y: int, m: int, d: int): int
    requires ValidDate(y, m, d)
  {
    YearStart(y) + MonthStart(y, m) + d - 1 - EpochDay
  }

  datatype Date = Date(year: int, month: int, day: int)

  predicate Valid(date: Date) {
    ValidDate(date.year, date.month, date.day)
  }

  /** The year of the 400-year cycle in which day `r` of the cycle falls. */
  function YearInCycle(r: int, k: nat): (y: nat)
    requires k < 400 && YearStart(k) <= r < 146097
    ensures k <= y < 400 && YearStart(y) <= r < YearStart(y + 1)
    decreases 400 - k
  {
    if r < YearStart(k + 1) then k else YearInCycle(r, k + 1)
  }

  /** The month, at `m` or later, in which day `doy` (0-based) of year `y` falls. */
  function MonthOfDay(y: int, doy: int, m: int): (month: int)
    requires 1 <= m <= 12 && MonthStart(y, m) <= doy < DaysInYear(y)
    ensures m <= month <= 12 && MonthStart(y, month) <= doy < MonthStart(y, month + 1)
    decreases 12 - m
  {
    if doy < MonthStart(y, m + 1) then m else MonthOfDay(y, doy, m + 1)
  }

  /** The calendar date of day number `n`; it is the valid date whose day
      number is `n`. */
  function CivilFromDays(n: int): (date: Date)
    ensures Valid(date)
    ensures DaysFromCivil(date.year, date.month, date.day) == n
  {
    var z := n + EpochDay;
    var q := z / 146097;
    var r := z % 146097;
    var k := YearInCycle(r, 0);
    YearStartStep(k);
    var doy := r - YearStart(k);
    MonthStartStep(k, 1);
    var m := MonthOfDay(k, doy, 1);
    var date := Date(400 * q + k, m, doy - MonthStart(k, m) + 1);
    DateInCycle(z, q, r, k, doy, m, date);
    date
  }

  /** The date found for day `doy` of year `k` of the `q`-th 400-year
      cycle is valid and denotes day `z` counted from 0000-01-01. */
  lemma DateInCycle(z: int, q: int, r: int, k: int, doy: int, m: int, date: Date)
    requires z == 146097 * q + r
    requires doy == r - YearStart(k)
    requires 1 <= m <= 12 && MonthStart(k, m) <= doy < MonthStart(k, m + 1)
    requires date == Date(400 * q + k, m, doy - MonthStart(k, m) + 1)
    ensures Valid(date) && DaysFromCivil(date.year, date.month, date.day) == z - EpochDay
  {
    MonthStartStep(k, m);
    YearStartCycle(q, k);
    assert MonthStart(400 * q + k, m) == MonthStart(k, m);
    assert DaysInMonth(400 * q + k, m) == DaysInMonth(k, m);
  }

  /** Within a year, the day of the year determines the month. */
  lemma MonthStartIncreasing(y: int, a: int, b: int)
    requires 1 <= a < b <= 13
    ensures MonthStart(y, a + 1) <= MonthStart(y, b)
  {
  }

  /** At most one year contains a given day. */
  lemma YearOfDayUnique(y1: int, y2: int, z: int)
    requires YearStart(y1) <= z < YearStart(y1 + 1)
    requires YearStart(y2) <= z < YearStart(y2 + 1)
    ensures y1 == y2
  {
    if y1 < y2 {
      YearStartIncreasing(y1, y2);
    } else if y2 < y1 {
      YearStartIncreasing(y2, y1);
    }
  }

  /** At most one month of a year contains a given day of that year. */
  lemma MonthOfDayUnique(y: int, m1: int, m2: int, doy: int)
    requires 1 <= m1 <= 12 && 1 <= m2 <= 12
    requires MonthStart(y, m1) <= doy < MonthStart(y, m1 + 1)
    requires MonthStart(y, m2) <= doy < MonthStart(y, m2 + 1)
    ensures m1 == m2
  {
    if m1 < m2 {
      MonthStartIncreasing(y, m1, m2);
    } else if m2 < m1 {
      MonthStartIncreasing(y, m2, m1);
    }
  }

  lemma DayOfYearBounds(a: Date)
    requires Valid(a)
    ensures MonthStart(a.year, a.month) <= MonthStart(a.year, a.month) + a.day - 1 < MonthStart(a.year, a.month + 1)
    ensures MonthStart(a.year, a.month + 1) <= DaysInYear(a.year)
  {
    MonthStartStep(a.year, a.month);
    MonthStartStep(a.year, 12);
    if a.month < 12 {
      MonthStartIncreasing(a.year, a.month, 13);
    }
  }

  /** Distinct valid dates have distinct day numbers. */
  lemma DaysFromCivilInjective(a: Date, b: Date)
    requires Valid(a) && Valid(b)
    requires DaysFromCivil(a.year, a.month, a.day) == DaysFromCivil(b.year, b.month, b.day)
    ensures a == b
  {
    var z := DaysFromCivil(a.year, a.month, a.day) + EpochDay;
    DayOfYearBounds(a);
    DayOfYearBounds(b);
    YearStartStep(a.year);
    YearStartStep(b.year);
    YearOfDayUnique(a.year, b.year, z);
    var doy := z - YearStart(a.year);
    MonthOfDayUnique(a.year, a.month, b.month, doy);
  }

  /** Converting a valid date to its day number and back gives the date. */
  lemma CivilRoundTrip(date: Date)
    requires Valid(date)
    ensures CivilFromDays(DaysFromCivil(date.year, date.month, date.day)) == date
  {
    var back := CivilFromDays(DaysFromCivil(date.year, date.month, date.day));
    DaysFromCivilInjective(back, date);
  }

  /** The day number of a date lies within the days of its year. */
  lemma DayNumberInYear(date: Date)
    requires Valid(date)
    ensures YearStart(date.year) <= DaysFromCivil(date.year, date.month, date.day) + EpochDay < YearStart(date.year + 1)
  {
    DayOfYearBounds(date);
    YearStartStep(date.year);
  }

  /** A day number between the starts of two years belongs to a year between them. */
  lemma YearBetween(date: Date, lo: int, hi: int)
    requires Valid(date)
    requires YearStart(lo) <= DaysFromCivil(date.year, date.month, date.day) + EpochDay < YearStart(hi)
    ensures lo <= date.year < hi
  {
    DayNumberInYear(date);
    if date.year < lo {
      YearStartIncreasing(date.year, lo);
    }
    if date.year >= hi {
      if date.year > hi {
        YearStartIncreasing(hi, date.year);
      }
      YearStartStep(hi);
    }
  }
}
