/**
  Integer civil-date arithmetic for the proleptic Gregorian calendar, standing in
  for Go's `time.Date(year, 1, 1, ...)` and `AddDate(0, 0, n)` in UTC. Day numbers
  count days since 1970-01-01.
*/
module CivilTime {
  import opened Utils

  /** Leap years among years 1..n; floor division keeps the count right for n <= 0 too. */
  function LeapsThrough(n: int): int {
    n / 4 - n / 100 + n / 400
  }

  /** Day number of January 1 of `year`. */
  function DaysBeforeYear(year: int): int {
    365 * (year - 1970) + LeapsThrough(year - 1) - LeapsThrough(1969)
  }

  /** Day number of a civil date. */
  function DaysFromCivil(year: int, month: int, day: int): int
    requires 1 <= month <= 12
  {
    DaysBeforeYear(year) + PrefixSum(MonthTable(IsLeap(year)), month - 1) + day - 1
  }

  predicate ValidDate(year: int, month: int, day: int) {
    1 <= month <= 12 && 1 <= day <= MonthTable(IsLeap(year))[month - 1]
  }

  lemma DivStep(y: int, k: int)
    requires k > 0
    ensures y / k - (y - 1) / k == if y % k == 0 then 1 else 0
  {
    var q, r := y / k, y % k;
    assert y == k * q + r && 0 <= r < k;
    if r == 0 {
      assert y - 1 == k * (q - 1) + (k - 1);
      DivUnique(y - 1, k, q - 1, k - 1);
    } else {
      assert y - 1 == k * q + (r - 1);
      DivUnique(y - 1, k, q, r - 1);
    }
  }

  lemma DivUnique(a: int, k: int, q: int, r: int)
    requires k > 0 && 0 <= r < k && a == k * q + r
    ensures a / k == q
  {
    var q', r' := a / k, a % k;
    assert a == k * q' + r';
    assert k * (q - q') == r' - r;
    if q' < q {
      MulMonotone(k, 1, q - q');
    } else if q' > q {
      MulMonotone(k, 1, q' - q);
    }
  }

  lemma MulMonotone(k: int, a: int, b: int)
    requires k > 0 && a <= b
    ensures k * a <= k * b
  {
  }

  lemma DivisibleBy400(y: int)
    requires y % 400 == 0
    ensures y % 100 == 0 && y % 4 == 0
  {
    var q := y / 400;
    assert y == 100 * (4 * q);
    assert y == 4 * (100 * q);
    DivUnique(y, 100, 4 * q, 0);
    DivUnique(y, 4, 100 * q, 0);
  }

  lemma DivisibleBy100(y: int)
    requires y % 100 == 0
    ensures y % 4 == 0
  {
    var q := y / 100;
    assert y == 4 * (25 * q);
    DivUnique(y, 4, 25 * q, 0);
  }

  /** The day count between consecutive New Year's Days is 366 exactly for the
      years the `Days2mdhms` leap test accepts, and 365 otherwise. */
  lemma YearLengthMatchesLeapTest(year: int)
    ensures DaysBeforeYear(year + 1) - DaysBeforeYear(year) == YearLength(IsLeap(year))
  {
    DivStep(year, 4);
    DivStep(year, 100);
    DivStep(year, 400);
    if year % 400 == 0 {
      DivisibleBy400(year);
    } else if year % 100 == 0 {
      DivisibleBy100(year);
    }
  }

  /** Every year has at least 365 days, so New Year's Days are at least 365 days apart per year. */
  lemma {:induction false} YearsApart(a: int, b: int)
    requires a <= b
    ensures DaysBeforeYear(b) - DaysBeforeYear(a) >= 365 * (b - a)
    decreases b - a
  {
    if a < b {
      YearsApart(a, b - 1);
      YearLengthMatchesLeapTest(b - 1);
    }
  }

  /** The calendar date of day `dayOfYear` counted from January 1 of `year`, day 1
      being January 1. Day 366 of a common year rolls over into January 1 of the
      next year, as adding 365 days to January 1 does. */
  function DateOfYearDay(year: int, dayOfYear: int): (date: (int, int, int))
    requires 1 <= dayOfYear <= 366
    ensures ValidDate(date.0, date.1, date.2)
    ensures DaysFromCivil(date.0, date.1, date.2) == DaysBeforeYear(year) + dayOfYear - 1
  {
    var leap := IsLeap(year);
    if dayOfYear <= YearLength(leap) then
      MonthDayInRange(dayOfYear, leap);
      var md := MonthDay(dayOfYear, leap);
      (year, md.0, md.1)
    else
      YearLengthMatchesLeapTest(year);
      (year + 1, 1, 1)
  }

  lemma DayNumberAnchors()
    ensures DaysFromCivil(1970, 1, 1) == 0
    ensures DaysFromCivil(2000, 1, 1) == 10957
    ensures DaysFromCivil(2008, 9, 20) == 14142
  {
    PrefixSumIsCumulative(true, 8);
  }
}
