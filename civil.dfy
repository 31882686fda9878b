/**
 * The proleptic Gregorian calendar that Python's datetime uses, counted in
 * whole days from the Unix epoch 1970-01-01.
 */
module Civil {

  const EPOCH_YEAR := 1970
  /** Days from 1970-01-01 to 10000-01-01, the first day a datetime cannot hold. */
  const DAYS_BEFORE_YEAR_10000 := 2932897

  datatype Date = Date(year: int, month: int, day: int)

  predicate IsLeap(y: int) {
    y % 4 == 0 && (y % 100 != 0 || y % 400 == 0)
  }

  function DaysInYear(y: int): nat {
    if IsLeap(y) then 366 else 365
  }

  function DaysInMonth(y: int, m: int): nat
    requires 1 <= m <= 12
  {
    if m == 2 then (if IsLeap(y) then 29 else 28)
    else if m == 4 || m == 6 || m == 9 || m == 11 then 30
    else 31
  }

  /** Days in the years 1 .. y-1 (the ordinal of y-01-01 minus one). */
  function DaysBeforeYear(y: int): int
    requires y >= 1
  {
    var p := y - 1;
    365 * p + p / 4 - p / 100 + p / 400
  }

  /** Days in the months 1 .. m-1 of year y. */
  function DaysBeforeMonth(y: int, m: int): nat
    requires 1 <= m <= 12
  {
    [0, 31, 59, 90, 120, 151, 181, 212, 243, 273, 304, 334][m - 1]
      + (if m > 2 && IsLeap(y) then 1 else 0)
  }

  predicate ValidDate(d: Date) {
    d.year >= 1 && 1 <= d.month <= 12 && 1 <= d.day <= DaysInMonth(d.year, d.month)
  }

  /** Days from 1970-01-01 to d (negative before the epoch). */
  function DaysFromCivil(d: Date): int
    requires ValidDate(d)
  {
    DaysBeforeYear(d.year) - DaysBeforeYear(EPOCH_YEAR) + DaysBeforeMonth(d.year, d.month) + d.day - 1
  }

  /** Moving from y - 1 to y adds one to the quotient by 4, 100 or 400 exactly at a multiple. */
  lemma QuotientStep(y: int)
    ensures y / 4 == (y - 1) / 4 + (if y % 4 == 0 then 1 else 0)
    ensures y / 100 == (y - 1) / 100 + (if y % 100 == 0 then 1 else 0)
    ensures y / 400 == (y - 1) / 400 + (if y % 400 == 0 then 1 else 0)
  {
    var q4, r4 := (y - 1) / 4, (y - 1) % 4;
    if r4 == 3 { assert y == 4 * (q4 + 1); } else { assert y == 4 * q4 + (r4 + 1); }
    var q100, r100 := (y - 1) / 100, (y - 1) % 100;
    if r100 == 99 { assert y == 100 * (q100 + 1); } else { assert y == 100 * q100 + (r100 + 1); }
    var q400, r400 := (y - 1) / 400, (y - 1) % 400;
    if r400 == 399 { assert y == 400 * (q400 + 1); } else { assert y == 400 * q400 + (r400 + 1); }
  }

  /** A multiple of 400 is a multiple of 100, and a multiple of 100 is a multiple of 4. */
  lemma MultipleNesting(y: int)
    ensures y % 400 == 0 ==> y % 100 == 0
    ensures y % 100 == 0 ==> y % 4 == 0
  {
    if y % 400 == 0 {
      var q, t, r := y / 400, y / 100, y % 100;
      assert y == 400 * q && y == 100 * t + r && 0 <= r < 100;
      assert 100 * (4 * q - t) == r;
    }
    if y % 100 == 0 {
      var q, t, r := y / 100, y / 4, y % 4;
      assert y == 100 * q && y == 4 * t + r && 0 <= r < 4;
      assert 4 * (25 * q - t) == r;
    }
  }

  lemma DaysBeforeYearStep(y: int)
    requires y >= 1
    ensures DaysBeforeYear(y + 1) == DaysBeforeYear(y) + DaysInYear(y)
  {
    QuotientStep(y);
    MultipleNesting(y);
  }

  lemma {:induction false} DaysBeforeYearMonotone(a: int, b: int)
    requires 1 <= a <= b
    ensures DaysBeforeYear(a) + 365 * (b - a) <= DaysBeforeYear(b)
    decreases b - a
  {
    if a < b {
      DaysBeforeYearStep(a);
      DaysBeforeYearMonotone(a + 1, b);
    }
  }

  lemma DaysBeforeMonthStep(y: int, m: int)
    requires 1 <= m <= 12
    ensures m < 12 ==> DaysBeforeMonth(y, m + 1) == DaysBeforeMonth(y, m) + DaysInMonth(y, m)
    ensures m == 12 ==> DaysBeforeMonth(y, m) + DaysInMonth(y, m) == DaysInYear(y)
  {
  }

  lemma DaysBeforeMonthMonotone(y: int, a: int, b: int)
    requires 1 <= a < b <= 12
    ensures DaysBeforeMonth(y, a) + DaysInMonth(y, a) <= DaysBeforeMonth(y, b)
  {
  }

  /** The year that holds day n of year y (counting from 0), and the day of that year. */
  function YearFrom(n: nat, y: int): (r: (int, nat))
    requires y >= 1
    ensures r.0 >= y && r.1 < DaysInYear(r.0)
    ensures DaysBeforeYear(r.0) + r.1 == DaysBeforeYear(y) + n
    decreases n
  {
    if n < DaysInYear(y) then (y, n)
    else
      DaysBeforeYearStep(y);
      YearFrom(n - DaysInYear(y), y + 1)
  }

  /** The month, from m on, that holds day doy of year y (counting from 0). */
  function MonthFrom(y: int, doy: nat, m: int): (r: int)
    requires 1 <= m <= 12 && DaysBeforeMonth(y, m) <= doy < DaysInYear(y)
    ensures m <= r <= 12
    ensures DaysBeforeMonth(y, r) <= doy < DaysBeforeMonth(y, r) + DaysInMonth(y, r)
    decreases 12 - m
  {
    DaysBeforeMonthStep(y, m);
    if doy < DaysBeforeMonth(y, m) + DaysInMonth(y, m) then m
    else MonthFrom(y, doy, m + 1)
  }

  /** The calendar date n days after 1970-01-01. */
  function FromDays(n: nat): (d: Date)
    ensures ValidDate(d) && d.year >= EPOCH_YEAR
    ensures DaysFromCivil(d) == n
  {
    var (y, doy) := YearFrom(n, EPOCH_YEAR);
    var m := MonthFrom(y, doy, 1);
    Date(y, m, doy - DaysBeforeMonth(y, m) + 1)
  }

  /** Every day of year y comes before the first day of year y + 1. */
  lemma DaysFromCivilBeforeNextYear(d: Date)
    requires ValidDate(d)
    ensures DaysFromCivil(d) < DaysBeforeYear(d.year + 1) - DaysBeforeYear(EPOCH_YEAR)
  {
    DaysBeforeMonthStep(d.year, 12);
    if d.month < 12 {
      DaysBeforeMonthMonotone(d.year, d.month, 12);
    }
    DaysBeforeYearStep(d.year);
  }

  /** A date in an earlier year is an earlier day. */
  lemma EarlierYearEarlierDay(a: Date, b: Date)
    requires ValidDate(a) && ValidDate(b) && a.year < b.year
    ensures DaysFromCivil(a) < DaysFromCivil(b)
  {
    DaysFromCivilBeforeNextYear(a);
    DaysBeforeYearMonotone(a.year + 1, b.year);
  }

  /** Distinct valid dates are distinct days. */
  lemma DaysFromCivilInjective(a: Date, b: Date)
    requires ValidDate(a) && ValidDate(b)
    requires DaysFromCivil(a) == DaysFromCivil(b)
    ensures a == b
  {
    if a.year < b.year {
      EarlierYearEarlierDay(a, b);
    } else if b.year < a.year {
      EarlierYearEarlierDay(b, a);
    } else if a.month < b.month {
      DaysBeforeMonthMonotone(a.year, a.month, b.month);
    } else if b.month < a.month {
      DaysBeforeMonthMonotone(a.year, b.month, a.month);
    }
  }

  /** Counting days from the epoch and reading them back as a date gives the date again. */
  lemma FromDaysOfDaysFromCivil(d: Date)
    requires ValidDate(d) && d.year >= EPOCH_YEAR
    ensures DaysFromCivil(d) >= 0
    ensures FromDays(DaysFromCivil(d)) == d
  {
    DaysBeforeYearMonotone(EPOCH_YEAR, d.year);
    DaysFromCivilInjective(FromDays(DaysFromCivil(d)), d);
  }

  /** The date n days after the epoch lies before the year 10000 exactly when n < 2932897. */
  lemma FromDaysYearBound(n: nat)
    ensures FromDays(n).year <= 9999 <==> n < DAYS_BEFORE_YEAR_10000
  {
    var d := FromDays(n);
    assert DaysBeforeYear(10000) - DaysBeforeYear(EPOCH_YEAR) == DAYS_BEFORE_YEAR_10000;
    if d.year <= 9999 {
      DaysFromCivilBeforeNextYear(d);
      DaysBeforeYearMonotone(d.year + 1, 10000);
    } else {
      DaysBeforeYearMonotone(10000, d.year);
    }
  }
}
