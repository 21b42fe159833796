/** Calendar dates as the generator's `DateTime` values: midnight of a proleptic Gregorian day
    between 0001-01-01 and 9999-12-31. `DateTime.Compare` on such values is the
    lexicographic order on (year, month, day). */
module Dates {

  datatype Date = Date(year: int, month: int, day: int)

  predicate IsLeapYear(y: int)
  {
    y % 4 == 0 && (y % 100 != 0 || y % 400 == 0)
  }

  function DaysInMonth(y: int, m: int): (n: int)
    requires 1 <= m <= 12
    ensures 28 <= n <= 31
  {
    if m == 2 then (if IsLeapYear(y) then 29 else 28)
    else if m == 4 || m == 6 || m == 9 || m == 11 then 30
    else 31
  }

  /** The dates `DateTime` can represent. */
  predicate ValidDate(d: Date)
  {
    && 1 <= d.year <= 9999
    && 1 <= d.month <= 12
    && 1 <= d.day <= DaysInMonth(d.year, d.month)
  }

  /** `Int32.CompareTo` and `DateTime.Compare`: -1, 0 or 1. */
  function CompareInts(a: int, b: int): (c: int)
    ensures c == -1 || c == 0 || c == 1
    ensures c < 0 <==> a < b
    ensures c == 0 <==> a == b
  {
    if a < b then -1 else if a == b then 0 else 1
  }

  /** `DateTime.Compare(d1, d2)` for two dates at midnight. */
  function CompareDates(d1: Date, d2: Date): (c: int)
    ensures c == -1 || c == 0 || c == 1
    ensures c == 0 <==> d1 == d2
  {
    if d1.year != d2.year then CompareInts(d1.year, d2.year)
    else if d1.month != d2.month then CompareInts(d1.month, d2.month)
    else CompareInts(d1.day, d2.day)
  }

  /** The same order stated without comparison codes: earlier by year, then month, then day. */
  predicate Before(d1: Date, d2: Date)
  {
    || d1.year < d2.year
    || (d1.year == d2.year && d1.month < d2.month)
    || (d1.year == d2.year && d1.month == d2.month && d1.day < d2.day)
  }

  lemma CompareDatesMeansBefore(d1: Date, d2: Date)
    ensures CompareDates(d1, d2) < 0 <==> Before(d1, d2)
    ensures CompareDates(d1, d2) > 0 <==> Before(d2, d1)
  {
  }

  lemma CompareDatesAntisymmetric(d1: Date, d2: Date)
    ensures CompareDates(d1, d2) == -CompareDates(d2, d1)
  {
  }

  lemma CompareDatesTransitive(d1: Date, d2: Date, d3: Date)
    requires CompareDates(d1, d2) < 0 && CompareDates(d2, d3) < 0
    ensures CompareDates(d1, d3) < 0
  {
    CompareDatesMeansBefore(d1, d2);
    CompareDatesMeansBefore(d2, d3);
    CompareDatesMeansBefore(d1, d3);
  }
}
