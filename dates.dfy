/**
 * Python's proleptic Gregorian `datetime.date`, as far as the cloud
 * functions use it: the day before a date and the ISO `YYYY-MM-DD` text.
 */
module Dates {
  import opened Wrappers
  import opened Text

  datatype Date = Date(year: int, month: int, day: int)

  const MinYear: int := 1
  const MaxYear: int := 9999

  /** `date.min`, the first representable day. */
  const MinDate: Date := Date(MinYear, 1, 1)

  predicate IsLeap(year: int) {
    year % 4 == 0 && (year % 100 != 0 || year % 400 == 0)
  }

  function DaysInMonth(year: int, month: int): (n: int)
    ensures 28 <= n <= 31
  {
    if month == 2 then (if IsLeap(year) then 29 else 28)
    else if month in {4, 6, 9, 11} then 30
    else 31
  }

  function DaysInYear(year: int): int {
    if IsLeap(year) then 366 else 365
  }

  /** A date `datetime.date` accepts. */
  predicate Valid(d: Date) {
    && MinYear <= d.year <= MaxYear
    && 1 <= d.month <= 12
    && 1 <= d.day <= DaysInMonth(d.year, d.month)
  }

  /** Days in the months of `year` before `month`. */
  function DaysBeforeMonth(year: int, month: int): int
    requires 1 <= month <= 13
  {
    if month == 1 then 0 else DaysBeforeMonth(year, month - 1) + DaysInMonth(year, month - 1)
  }

  /** Days in the years from 1 up to (not including) `year`. */
  function DaysBeforeYear(year: int): int
    requires year >= 1
  {
    if year == 1 then 0 else DaysBeforeYear(year - 1) + DaysInYear(year - 1)
  }

  /** `date.toordinal`: day 1 is 0001-01-01. */
  function Ordinal(d: Date): int
    requires Valid(d)
  {
    DaysBeforeYear(d.year) + DaysBeforeMonth(d.year, d.month) + d.day
  }

  /** The twelve months make up the year. */
  lemma MonthsFillYear(year: int)
    ensures DaysBeforeMonth(year, 13) == DaysInYear(year)
  {
    assert DaysBeforeMonth(year, 2) == 31;
    assert DaysBeforeMonth(year, 3) == 31 + DaysInMonth(year, 2);
    assert DaysBeforeMonth(year, 4) == 62 + DaysInMonth(year, 2);
    assert DaysBeforeMonth(year, 5) == 92 + DaysInMonth(year, 2);
    assert DaysBeforeMonth(year, 6) == 123 + DaysInMonth(year, 2);
    assert DaysBeforeMonth(year, 7) == 153 + DaysInMonth(year, 2);
    assert DaysBeforeMonth(year, 8) == 184 + DaysInMonth(year, 2);
    assert DaysBeforeMonth(year, 9) == 215 + DaysInMonth(year, 2);
    assert DaysBeforeMonth(year, 10) == 245 + DaysInMonth(year, 2);
    assert DaysBeforeMonth(year, 11) == 276 + DaysInMonth(year, 2);
    assert DaysBeforeMonth(year, 12) == 306 + DaysInMonth(year, 2);
  }

  /** `d - timedelta(days=1)`: `OverflowError` on `date.min`. */
  function PrevDay(d: Date): (r: PyResult<Date>)
    requires Valid(d)
    ensures r.Raised? <==> d == MinDate
    ensures r.Raised? ==> r.exception == OverflowError
    ensures r.Value? ==> Valid(r.value)
  {
    if d.day > 1 then Value(Date(d.year, d.month, d.day - 1))
    else if d.month > 1 then Value(Date(d.year, d.month - 1, DaysInMonth(d.year, d.month - 1)))
    else if d.year > MinYear then Value(Date(d.year - 1, 12, 31))
    else Raised(OverflowError)
  }

  /** The day before is exactly one day earlier on the ordinal scale. */
  lemma PrevDayOrdinal(d: Date)
    requires Valid(d) && d != MinDate
    ensures Ordinal(PrevDay(d).value) == Ordinal(d) - 1
  {
    if d.day == 1 && d.month == 1 {
      MonthsFillYear(d.year - 1);
    }
  }

  /** Calendar order: earlier year, then earlier month, then earlier day. */
  predicate Before(a: Date, b: Date) {
    a.year < b.year || (a.year == b.year && (a.month < b.month || (a.month == b.month && a.day < b.day)))
  }

  /** The ordinal follows calendar order. */
  lemma OrdinalMonotone(a: Date, b: Date)
    requires Valid(a) && Valid(b) && Before(a, b)
    ensures Ordinal(a) < Ordinal(b)
  {
    if a.year < b.year {
      YearBound(a);
      DaysBeforeYearMonotone(a.year + 1, b.year);
      DaysBeforeMonthMonotone(b.year, 1, b.month);
    } else if a.month < b.month {
      DaysBeforeMonthMonotone(a.year, a.month + 1, b.month);
    }
  }

  /** Distinct dates are different days. */
  lemma OrdinalInjective(d1: Date, d2: Date)
    requires Valid(d1) && Valid(d2)
    ensures Ordinal(d1) == Ordinal(d2) ==> d1 == d2
  {
    if Before(d1, d2) {
      OrdinalMonotone(d1, d2);
    } else if Before(d2, d1) {
      OrdinalMonotone(d2, d1);
    }
  }

  /** A date's ordinal lies inside its year. */
  lemma YearBound(d: Date)
    requires Valid(d)
    ensures Ordinal(d) <= DaysBeforeYear(d.year + 1)
  {
    DaysBeforeMonthMonotone(d.year, d.month + 1, 13);
    MonthsFillYear(d.year);
  }

  lemma {:induction false} DaysBeforeYearMonotone(y1: int, y2: int)
    requires 1 <= y1 <= y2
    ensures DaysBeforeYear(y1) <= DaysBeforeYear(y2)
  {
    if y1 < y2 {
      DaysBeforeYearMonotone(y1, y2 - 1);
    }
  }

  lemma {:induction false} DaysBeforeMonthMonotone(year: int, m1: int, m2: int)
    requires 1 <= m1 <= m2 <= 13
    ensures DaysBeforeMonth(year, m1) <= DaysBeforeMonth(year, m2)
  {
    if m1 < m2 {
      DaysBeforeMonthMonotone(year, m1, m2 - 1);
    }
  }

  /** `n` as exactly `width` decimal digits, zero-padded (`n` must fit). */
  function Padded(n: nat, width: nat): (s: string)
    ensures |s| == width
    ensures AllDigits(s)
    ensures n < Pow10(width) ==> DigitsValue(s) == n
  {
    if width == 0 then []
    else Padded(n / 10, width - 1) + [DigitChar(n % 10)]
  }

  function Pow10(k: nat): nat {
    if k == 0 then 1 else 10 * Pow10(k - 1)
  }

  /** `date.isoformat()`: `YYYY-MM-DD`. */
  function IsoFormat(d: Date): (s: string)
    requires Valid(d)
    ensures |s| == 10 && s[4] == '-' && s[7] == '-'
  {
    Padded(d.year, 4) + "-" + Padded(d.month, 2) + "-" + Padded(d.day, 2)
  }

  /** Different dates have different ISO texts, so each day's file name is its own. */
  lemma IsoFormatInjective(d1: Date, d2: Date)
    requires Valid(d1) && Valid(d2) && IsoFormat(d1) == IsoFormat(d2)
    ensures d1 == d2
  {
    var s1, s2 := IsoFormat(d1), IsoFormat(d2);
    assert s1[..4] == Padded(d1.year, 4) && s2[..4] == Padded(d2.year, 4);
    assert s1[5..7] == Padded(d1.month, 2) && s2[5..7] == Padded(d2.month, 2);
    assert s1[8..] == Padded(d1.day, 2) && s2[8..] == Padded(d2.day, 2);
  }
}
