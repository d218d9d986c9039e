/**
  Proleptic Gregorian calendar arithmetic on integer day numbers (day 0 is 1 January of year 1).
  The source works with JavaScript `Date` objects and Python `date` objects; every date it uses
  is a whole UTC day, so a day number carries the same information.
 */
module Civil {

  predicate IsLeap(y: int) {
    y % 4 == 0 && (y % 100 != 0 || y % 400 == 0)
  }

  function DaysInMonth(y: int, m: int): (n: int)
    requires 1 <= m <= 12
    ensures 28 <= n <= 31
    ensures n == 29 <==> m == 2 && IsLeap(y)
  {
    if m == 2 then (if IsLeap(y) then 29 else 28)
    else if m == 4 || m == 6 || m == 9 || m == 11 then 30
    else 31
  }

  /** Days in the months before month `m` of year `y`. */
  function DaysBeforeMonth(y: int, m: int): (n: int)
    requires 1 <= m <= 12
    ensures 0 <= n <= 31 * (m - 1)
    decreases m
  {
    if m == 1 then 0 else DaysBeforeMonth(y, m - 1) + DaysInMonth(y, m - 1)
  }

  /** The day number of 1 January of year `y`. */
  function Jan1(y: int): int {
    365 * (y - 1) + (y - 1) / 4 - (y - 1) / 100 + (y - 1) / 400
  }

  function DayNumber(y: int, m: int, d: int): int
    requires 1 <= m <= 12
  {
    Jan1(y) + DaysBeforeMonth(y, m) + d - 1
  }

  /** Consecutive New Year's days are a leap year or a common year apart. */
  lemma Jan1Step(y: int)
    ensures Jan1(y + 1) - Jan1(y) == (if IsLeap(y) then 366 else 365)
  {
    LeapSteps(y);
  }

  /** The leap-day counts of `Jan1` step by one exactly at multiples of 4, 100 and 400. */
  lemma LeapSteps(y: int)
    ensures y / 4 - (y - 1) / 4 == (if y % 4 == 0 then 1 else 0)
    ensures y / 100 - (y - 1) / 100 == (if y % 100 == 0 then 1 else 0)
    ensures y / 400 - (y - 1) / 400 == (if y % 400 == 0 then 1 else 0)
  {
  }

  /** The calendar repeats every 400 years, which are 146097 days. */
  lemma Jan1Cycle(y: int, q: int)
    ensures Jan1(y + 400 * q) == Jan1(y) + 146097 * q
  {
    var a := y - 1;
    assert (a + 400 * q) / 4 == a / 4 + 100 * q;
    assert (a + 400 * q) / 100 == a / 100 + 4 * q;
    assert (a + 400 * q) / 400 == a / 400 + q;
  }

  lemma Jan1Increasing(a: int, b: int)
    requires a <= b
    ensures Jan1(a) <= Jan1(b)
    decreases b - a
  {
    if a < b {
      Jan1Step(a);
      Jan1Increasing(a + 1, b);
    }
  }

  /** The year of cycle position `r`, searching upward from year `y` of the first 400-year cycle. */
  function YearInCycle(r: int, y: int): (yr: int)
    requires 1 <= y <= 400
    requires Jan1(y) <= r < 146097
    ensures y <= yr <= 400
    ensures Jan1(yr) <= r < Jan1(yr + 1)
    decreases 400 - y
  {
    assert Jan1(401) == 146097;
    if r < Jan1(y + 1) then y else YearInCycle(r, y + 1)
  }

  /** The Gregorian year containing day number `n` (JavaScript's `getFullYear`). */
  function YearOfDay(n: int): (y: int)
    ensures Jan1(y) <= n < Jan1(y + 1)
  {
    var q := n / 146097;
    var r := n % 146097;
    CycleSplit(n);
    var yr := YearInCycle(r, 1);
    var y := 400 * q + yr;
    YearOfCycle(n, q, r, yr, y);
    y
  }

  lemma CycleSplit(n: int)
    ensures n == 146097 * (n / 146097) + n % 146097 && 0 <= n % 146097 < 146097
    ensures Jan1(1) == 0
  {
  }

  /** Year `yr` of the cycle, `q` cycles on, holds the day `r` days into cycle `q`. */
  lemma YearOfCycle(n: int, q: int, r: int, yr: int, y: int)
    requires n == 146097 * q + r && y == 400 * q + yr
    requires Jan1(yr) <= r < Jan1(yr + 1)
    ensures Jan1(y) <= n < Jan1(y + 1)
  {
    assert Jan1(y) == Jan1(yr) + 146097 * q by {
      Jan1Cycle(yr, q);
      assert yr + 400 * q == y;
    }
    assert Jan1(y + 1) == Jan1(yr + 1) + 146097 * q by {
      Jan1Cycle(yr + 1, q);
      assert yr + 1 + 400 * q == y + 1;
    }
  }

  /** The year of any date is the year it was written in. */
  lemma YearOfDayNumber(y: int, m: int, d: int)
    requires 1 <= m <= 12 && 1 <= d <= DaysInMonth(y, m)
    ensures YearOfDay(DayNumber(y, m, d)) == y
  {
    var n := DayNumber(y, m, d);
    DaysBeforeMonthBound(y, m);
    Jan1Step(y);
    assert Jan1(y) <= n < Jan1(y + 1);
    YearUnique(n, y, YearOfDay(n));
  }

  /** Exactly one year contains a given day. */
  lemma YearUnique(n: int, y: int, z: int)
    requires Jan1(y) <= n < Jan1(y + 1)
    requires Jan1(z) <= n < Jan1(z + 1)
    ensures y == z
  {
    if z < y {
      Jan1Increasing(z + 1, y);
    } else if y < z {
      Jan1Increasing(y + 1, z);
    }
  }

  lemma {:induction false} DaysBeforeMonthBound(y: int, m: int)
    requires 1 <= m <= 12
    ensures DaysBeforeMonth(y, m) + DaysInMonth(y, m) <= (if IsLeap(y) then 366 else 365)
    decreases 12 - m
  {
    if m < 12 {
      DaysBeforeMonthBound(y, m + 1);
    } else {
      assert DaysBeforeMonth(y, 12) == (if IsLeap(y) then 335 else 334);
    }
  }
}
