/** Calendar dates as whole-day numbers.
    The budget engine subtracts two dates and keeps the whole-day count. This
    module gives the day number of a proleptic Gregorian date, counted so that
    0001-01-01 is day 1, and proves that consecutive calendar days get
    consecutive numbers, so a difference of day numbers is a count of days. */
module Calendar {

  const MaxYear: int := 9999

  predicate IsLeapYear(y: int) {
    y % 4 == 0 && (y % 100 != 0 || y % 400 == 0)
  }

  function DaysInMonth(y: int, m: int): (n: int)
    requires 1 <= m <= 12
    ensures 28 <= n <= 31
    ensures n == 29 <==> m == 2 && IsLeapYear(y)
  {
    if m == 2 then (if IsLeapYear(y) then 29 else 28)
    else if m == 4 || m == 6 || m == 9 || m == 11 then 30
    else 31
  }

  predicate IsDate(y: int, m: int, d: int) {
    1 <= y <= MaxYear && 1 <= m <= 12 && 1 <= d <= DaysInMonth(y, m)
  }

  /** Days in all the years before year `y`. */
  function DaysBeforeYear(y: int): int
    requires y >= 1
  {
    var p := y - 1;
    p * 365 + p / 4 - p / 100 + p / 400
  }

  /** Days in the months of year `y` before month `m`. */
  function DaysBeforeMonth(y: int, m: int): int
    requires 1 <= m <= 12
  {
    var common :=
      if m == 1 then 0 else if m == 2 then 31 else if m == 3 then 59
      else if m == 4 then 90 else if m == 5 then 120 else if m == 6 then 151
      else if m == 7 then 181 else if m == 8 then 212 else if m == 9 then 243
      else if m == 10 then 273 else if m == 11 then 304 else 334;
    common + (if m > 2 && IsLeapYear(y) then 1 else 0)
  }

  /** The day number of a date; 0001-01-01 is day 1. Every date of year `y`
      is numbered after all days of the earlier years and no later than the
      last day of `y`. */
  function Ordinal(y: int, m: int, d: int): (n: int)
    requires IsDate(y, m, d)
    ensures DaysBeforeYear(y) < n <= DaysBeforeYear(y + 1)
    ensures y == 1 && m == 1 && d == 1 ==> n == 1
  {
    YearLength(y);
    DaysBeforeYear(y) + DaysBeforeMonth(y, m) + d
  }

  /** The calendar day after (y, m, d). */
  function NextDay(y: int, m: int, d: int): (r: (int, int, int))
    requires IsDate(y, m, d)
    requires !(y == MaxYear && m == 12 && d == 31)
    ensures IsDate(r.0, r.1, r.2)
    ensures (r.0, r.1) == (y, m) || r.2 == 1
  {
    if d < DaysInMonth(y, m) then (y, m, d + 1)
    else if m < 12 then (y, m + 1, 1)
    else (y + 1, 1, 1)
  }

  /** Euclidean division is determined by its quotient-remainder equation. */
  lemma DivUnique(x: int, k: int, a: int, b: int)
    requires k > 0 && 0 <= b < k && x == a * k + b
    ensures x / k == a
  {
    var c := a - x / k;
    assert c * k == x % k - b;
  }

  /** Stepping `n` from `n - 1` raises `n / k` by one exactly when `k` divides `n`. */
  lemma DivStep(n: int, k: int)
    requires k > 0
    ensures n / k - (n - 1) / k == if n % k == 0 then 1 else 0
  {
    var q, r := n / k, n % k;
    if r == 0 {
      DivUnique(n - 1, k, q - 1, k - 1);
    } else {
      DivUnique(n - 1, k, q, r - 1);
    }
  }

  /** A year has 366 days when it is a leap year and 365 otherwise. */
  lemma YearLength(y: int)
    requires y >= 1
    ensures DaysBeforeYear(y + 1) - DaysBeforeYear(y) == if IsLeapYear(y) then 366 else 365
  {
    DivStep(y, 4);
    DivStep(y, 100);
    DivStep(y, 400);
    if y % 100 == 0 {
      assert y == 4 * (25 * (y / 100));
    }
    if y % 400 == 0 {
      assert y == 100 * (4 * (y / 400));
    }
  }

  /** Consecutive calendar days have consecutive day numbers. */
  lemma NextDayOrdinal(y: int, m: int, d: int)
    requires IsDate(y, m, d)
    requires !(y == MaxYear && m == 12 && d == 31)
    ensures var r := NextDay(y, m, d); Ordinal(r.0, r.1, r.2) == Ordinal(y, m, d) + 1
  {
    if d == DaysInMonth(y, m) && m == 12 {
      YearLength(y);
    }
  }
}
