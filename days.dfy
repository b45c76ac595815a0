/** Day arithmetic on calendar dates, as `datetime` does it with
    `timedelta(days=...)`: the proleptic Gregorian ordinal (Python's
    `toordinal`, 1 for 0001-01-01), the next day, and adding days. Dates
    are compared by their ordinal, as `datetime` compares them. */
module Days {
  import opened Calendar

  /** Days in the months before month `m` of a common year. */
  const CumulativeDays: seq<int> := [0, 31, 59, 90, 120, 151, 181, 212, 243, 273, 304, 334]

  function DaysBeforeMonth(y: int, m: int): int
    requires 1 <= m <= 12
  {
    CumulativeDays[m - 1] + (if m > 2 && IsLeap(y) then 1 else 0)
  }

  function DaysBeforeYear(y: int): int
    requires y >= 1
  {
    var p := y - 1;
    365 * p + p / 4 - p / 100 + p / 400
  }

  /** `date.toordinal()`. */
  function Ordinal(d: Date): int
    requires Valid(d)
  {
    DaysBeforeYear(d.year) + DaysBeforeMonth(d.year, d.month) + d.day
  }

  /** The last date `datetime` can hold. */
  const MaxDate: Date := Date(9999, 12, 31)

  lemma MonthStep(y: int, m: int)
    requires 1 <= m < 12
    ensures DaysBeforeMonth(y, m + 1) == DaysBeforeMonth(y, m) + DaysInMonth(y, m)
  {
  }

  lemma DivStep(y: int, k: int)
    requires y >= 1 && (k == 4 || k == 100 || k == 400)
    ensures y / k == (y - 1) / k + (if y % k == 0 then 1 else 0)
  {
  }

  /** A multiple of 100 is one of 4. */
  lemma HundredsAreFours(y: int)
    requires y % 100 == 0
    ensures y % 4 == 0
  {
    var q := y / 100;
    assert y == 4 * (25 * q);
  }

  /** A multiple of 400 is one of 100. */
  lemma FourHundredsAreHundreds(y: int)
    requires y % 400 == 0
    ensures y % 100 == 0
  {
    var q := y / 400;
    assert y == 100 * (4 * q);
  }

  /** A year has 366 days when it is a leap year, 365 otherwise. */
  lemma YearStep(y: int)
    requires y >= 1
    ensures DaysBeforeYear(y + 1) == DaysBeforeYear(y) + DaysBeforeMonth(y, 12) + 31
  {
    assert DaysBeforeYear(y + 1) == 365 * y + y / 4 - y / 100 + y / 400;
    assert DaysBeforeYear(y) == 365 * (y - 1) + (y - 1) / 4 - (y - 1) / 100 + (y - 1) / 400;
    assert DaysBeforeMonth(y, 12) == 334 + (if IsLeap(y) then 1 else 0);
    DivStep(y, 4);
    DivStep(y, 100);
    DivStep(y, 400);
    if y % 100 == 0 {
      HundredsAreFours(y);
    }
    if y % 400 == 0 {
      FourHundredsAreHundreds(y);
    }
  }

  /** `d + timedelta(days=1)`. */
  function NextDay(d: Date): (r: Date)
    requires Valid(d) && d != MaxDate
    ensures Valid(r) && Ordinal(r) == Ordinal(d) + 1
  {
    if d.day < DaysInMonth(d.year, d.month) then Date(d.year, d.month, d.day + 1)
    else if d.month < 12 then
      MonthStep(d.year, d.month);
      Date(d.year, d.month + 1, 1)
    else
      YearStep(d.year);
      Date(d.year + 1, 1, 1)
  }

  /** Every valid date is at most the last one. */
  lemma OrdinalAtMostMax(d: Date)
    requires Valid(d)
    ensures Ordinal(d) <= Ordinal(MaxDate)
    ensures Ordinal(d) == Ordinal(MaxDate) ==> d == MaxDate
  {
    if d.year < 9999 {
      YearStep(d.year);
      YearMonotone(d.year + 1, 9999);
    }
  }

  lemma {:induction false} YearMonotone(a: int, b: int)
    requires 1 <= a <= b
    ensures DaysBeforeYear(a) <= DaysBeforeYear(b)
    decreases b - a
  {
    if a < b {
      YearStep(a);
      YearMonotone(a + 1, b);
    }
  }

  /** `d + timedelta(days=n)` for `n >= 0`. */
  function AddDays(d: Date, n: nat): (r: Date)
    requires Valid(d) && Ordinal(d) + n <= Ordinal(MaxDate)
    ensures Valid(r) && Ordinal(r) == Ordinal(d) + n
    decreases n
  {
    if n == 0 then d
    else
      OrdinalAtMostMax(d);
      AddDays(NextDay(d), n - 1)
  }

  /** Adding days one after another is adding them at once. */
  lemma {:induction false} AddDaysStep(d: Date, n: nat)
    requires Valid(d) && Ordinal(d) + n + 1 <= Ordinal(MaxDate)
    ensures AddDays(d, n) != MaxDate
    ensures AddDays(d, n + 1) == NextDay(AddDays(d, n))
    decreases n
  {
    OrdinalAtMostMax(AddDays(d, n));
    if n > 0 {
      OrdinalAtMostMax(d);
      AddDaysStep(NextDay(d), n - 1);
    }
  }

  lemma MonthOrder(y: int, m: int, m2: int)
    requires 1 <= m < m2 <= 12
    ensures DaysBeforeMonth(y, m) + DaysInMonth(y, m) <= DaysBeforeMonth(y, m2)
  {
  }

  /** A date earlier in calendar order has a smaller ordinal. */
  lemma OrdinalOrder(a: Date, b: Date)
    requires Valid(a) && Valid(b)
    requires a.year < b.year || (a.year == b.year && a.month < b.month)
      || (a.year == b.year && a.month == b.month && a.day < b.day)
    ensures Ordinal(a) < Ordinal(b)
  {
    if a.year < b.year {
      if a.month < 12 {
        MonthOrder(a.year, a.month, 12);
      }
      YearStep(a.year);
      YearMonotone(a.year + 1, b.year);
    } else if a.month < b.month {
      MonthOrder(a.year, a.month, b.month);
    }
  }

  /** Different dates have different ordinals. */
  lemma OrdinalInjective(a: Date, b: Date)
    requires Valid(a) && Valid(b) && Ordinal(a) == Ordinal(b)
    ensures a == b
  {
    if a.year < b.year || (a.year == b.year && a.month < b.month)
      || (a.year == b.year && a.month == b.month && a.day < b.day) {
      OrdinalOrder(a, b);
    } else if b.year < a.year || (a.year == b.year && b.month < a.month)
      || (a.year == b.year && a.month == b.month && b.day < a.day) {
      OrdinalOrder(b, a);
    }
  }

  /** The days from `start` to `end`, both included, in order; none when
      `end` is before `start`. */
  function DateRange(start: Date, end: Date): (r: seq<Date>)
    requires Valid(start) && Valid(end)
    ensures |r| == if Ordinal(end) < Ordinal(start) then 0 else Ordinal(end) - Ordinal(start) + 1
    ensures forall k :: 0 <= k < |r| ==> Valid(r[k]) && Ordinal(r[k]) == Ordinal(start) + k
  {
    var n := if Ordinal(end) < Ordinal(start) then 0 else Ordinal(end) - Ordinal(start) + 1;
    OrdinalAtMostMax(end);
    seq(n, k requires 0 <= k < n => AddDays(start, k))
  }

  /** A date is in the range exactly when it lies between its ends. */
  lemma DateRangeMember(start: Date, end: Date, d: Date)
    requires Valid(start) && Valid(end) && Valid(d)
    ensures d in DateRange(start, end) <==> Ordinal(start) <= Ordinal(d) <= Ordinal(end)
  {
    var r := DateRange(start, end);
    if Ordinal(start) <= Ordinal(d) <= Ordinal(end) {
      var k := Ordinal(d) - Ordinal(start);
      OrdinalInjective(r[k], d);
    }
  }
}
