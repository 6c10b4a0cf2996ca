/** Calendar dates as day ordinals, numbered as Python's `date.toordinal` numbers
    them: 0001-01-01 is day 1 and 9999-12-31 (`date.max`) is day 3652059. */
module Dates {
  const MinOrdinal := 1
  const MaxOrdinal := 3652059

  /** A date Python can represent. */
  type Date = d: int | MinOrdinal <= d <= MaxOrdinal witness MinOrdinal

  predicate IsLeapYear(y: int) {
    y % 4 == 0 && (y % 100 != 0 || y % 400 == 0)
  }

  function DaysInMonth(y: int, m: int): int
    requires 1 <= m <= 12
  {
    if m == 2 then (if IsLeapYear(y) then 29 else 28)
    else if m == 4 || m == 6 || m == 9 || m == 11 then 30
    else 31
  }

  /** Days of year `y` before the first of month `m`. */
  function DaysBeforeMonth(y: int, m: int): int
    requires 1 <= m <= 12
  {
    [0, 31, 59, 90, 120, 151, 181, 212, 243, 273, 304, 334][m - 1]
      + (if m > 2 && IsLeapYear(y) then 1 else 0)
  }

  /** The ordinal of the proleptic Gregorian date y-m-d. */
  function Ordinal(y: int, m: int, d: int): int
    requires 1 <= y && 1 <= m <= 12 && 1 <= d <= DaysInMonth(y, m)
  {
    var y1 := y - 1;
    y1 * 365 + y1 / 4 - y1 / 100 + y1 / 400 + DaysBeforeMonth(y, m) + d
  }

  /** The last representable day, `date.max`, is 9999-12-31. */
  lemma LastRepresentableDay()
    ensures Ordinal(9999, 12, 31) == MaxOrdinal
  {
  }
}
