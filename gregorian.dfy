/**
 * Proleptic Gregorian calendar arithmetic: the calendar JavaScript's `Date` follows.
 * Dates are (year, month 1..12, day) triples; the leap-year rule and the month lengths
 * are those of Appendix C and section 5.7 of RFC 3339.
 */
module Gregorian {

  datatype CalendarDate = CalendarDate(year: int, month: int, day: int)

  /** Leap years: divisible by 4, except centuries not divisible by 400. */
  predicate IsLeapYear(y: int)
  {
    y % 4 == 0 && (y % 100 != 0 || y % 400 == 0)
  }

  /** The number of days of month `m` (1-based) of year `y`. */
  function DaysInMonth(y: int, m: int): (r: int)
    requires 1 <= m <= 12
    ensures 28 <= r <= 31
    ensures r == 31 <==> m in {1, 3, 5, 7, 8, 10, 12}
    ensures r == 30 <==> m in {4, 6, 9, 11}
    ensures r == 29 <==> m == 2 && IsLeapYear(y)
    ensures r == 28 <==> m == 2 && !IsLeapYear(y)
  {
    if m == 2 then (if IsLeapYear(y) then 29 else 28)
    else if m == 4 || m == 6 || m == 9 || m == 11 then 30
    else 31
  }

  predicate ValidDate(d: CalendarDate)
  {
    1 <= d.month <= 12 && 1 <= d.day <= DaysInMonth(d.year, d.month)
  }

  /** A calendar date that exists: every JavaScript `Date` denotes one. */
  type Date = d: CalendarDate | ValidDate(d) witness CalendarDate(1970, 1, 1)

  /**
   * The number of days from 1970-01-01 to March 1 of year `yy` (negative before it). The
   * calendar is counted in years that start in March, so that a leap day is the last day
   * of its year; 146097 is the number of days in 400 years.
   */
  function MarchFirst(yy: int): int
  {
    var era := yy / 400;
    var yoe := yy % 400;
    era * 146097 + yoe * 365 + yoe / 4 - yoe / 100 - 719468
  }

  /**
   * The number of days from 1970-01-01 to the given date (negative before it): the day
   * number that a `Date` time value counts. January and February belong to the year
   * that starts in March of the year before.
   */
  function DaysFromCivil(y: int, m: int, d: int): int
    requires 1 <= m <= 12
  {
    var yy := if m <= 2 then y - 1 else y;
    var mp := if m > 2 then m - 3 else m + 9;
    MarchFirst(yy) + (153 * mp + 2) / 5 + d - 1
  }

  /** The day of the week as `Date.prototype.getDay` numbers it: 0 is Sunday, 6 is Saturday. */
  function DayOfWeek(d: Date): (r: int)
    ensures 0 <= r <= 6
  {
    (DaysFromCivil(d.year, d.month, d.day) + 4) % 7
  }

  lemma StepDiv(n: int)
    requires 1 <= n <= 399
    ensures n / 4 - (n - 1) / 4 == (if n % 4 == 0 then 1 else 0)
    ensures n / 100 - (n - 1) / 100 == (if n % 100 == 0 then 1 else 0)
  {
  }

  /** Whole 400-year cycles change neither the leap-year rule nor the position in the cycle. */
  lemma CycleShift(e: int, r: int)
    requires 0 <= r < 400
    ensures (400 * e + r) / 400 == e && (400 * e + r) % 400 == r
    ensures (400 * e + r) % 4 == r % 4 && (400 * e + r) % 100 == r % 100
  {
    assert 400 * e + r == 4 * (100 * e) + r;
    assert 400 * e + r == 100 * (4 * e) + r;
  }

  /** A year counted from March has 366 days exactly when the February it ends with is a leap one. */
  lemma {:induction false} MarchYearLength(y: int)
    ensures MarchFirst(y) - MarchFirst(y - 1) == if IsLeapYear(y) then 366 else 365
  {
    var e, a := (y - 1) / 400, (y - 1) % 400;
    assert y - 1 == 400 * e + a;
    if a == 399 {
      assert y == 400 * (e + 1) + 0;
      CycleShift(e + 1, 0);
      assert MarchFirst(y) == (e + 1) * 146097 - 719468;
      assert MarchFirst(y - 1) == e * 146097 + 399 * 365 + 99 - 3 - 719468;
    } else {
      assert y == 400 * e + (a + 1);
      CycleShift(e, a + 1);
      StepDiv(a + 1);
      assert MarchFirst(y) == e * 146097 + (a + 1) * 365 + (a + 1) / 4 - (a + 1) / 100 - 719468;
      assert MarchFirst(y - 1) == e * 146097 + a * 365 + a / 4 - a / 100 - 719468;
    }
  }

  /** Within one March-based year, the day count moves on by the length of each month. */
  lemma MonthStepWithinYear(y: int, m: int)
    requires 1 <= m <= 12 && m != 2
    ensures var n := if m == 12 then 1 else m + 1; var ny := if m == 12 then y + 1 else y;
      DaysFromCivil(ny, n, 1) == DaysFromCivil(y, m, 1) + DaysInMonth(y, m)
  {
    var yy := if m <= 2 then y - 1 else y;
    var mp := if m > 2 then m - 3 else m + 9;
    assert DaysFromCivil(y, m, 1) == MarchFirst(yy) + (153 * mp + 2) / 5;
    if m == 1 { assert DaysFromCivil(y, 2, 1) == MarchFirst(yy) + 337; }
    else if m == 3 { assert DaysFromCivil(y, 4, 1) == MarchFirst(yy) + 31; }
    else if m == 4 { assert DaysFromCivil(y, 5, 1) == MarchFirst(yy) + 61; }
    else if m == 5 { assert DaysFromCivil(y, 6, 1) == MarchFirst(yy) + 92; }
    else if m == 6 { assert DaysFromCivil(y, 7, 1) == MarchFirst(yy) + 122; }
    else if m == 7 { assert DaysFromCivil(y, 8, 1) == MarchFirst(yy) + 153; }
    else if m == 8 { assert DaysFromCivil(y, 9, 1) == MarchFirst(yy) + 184; }
    else if m == 9 { assert DaysFromCivil(y, 10, 1) == MarchFirst(yy) + 214; }
    else if m == 10 { assert DaysFromCivil(y, 11, 1) == MarchFirst(yy) + 245; }
    else if m == 11 { assert DaysFromCivil(y, 12, 1) == MarchFirst(yy) + 275; }
    else { assert DaysFromCivil(y + 1, 1, 1) == MarchFirst(yy) + 306; }
  }

  /**
   * The first of the next month lies exactly DaysInMonth days after the first of this
   * month (December is followed by January of the next year): the month-length table
   * and the day count agree.
   */
  lemma MonthLengthConsistent(y: int, m: int)
    requires 1 <= m <= 12
    ensures var ny, nm := if m == 12 then y + 1 else y, if m == 12 then 1 else m + 1;
      DaysFromCivil(ny, nm, 1) == DaysFromCivil(y, m, 1) + DaysInMonth(y, m)
  {
    if m == 2 {
      MarchYearLength(y);
      assert DaysFromCivil(y, 3, 1) == MarchFirst(y);
      assert DaysFromCivil(y, 2, 1) == MarchFirst(y - 1) + 337;
    } else {
      MonthStepWithinYear(y, m);
    }
  }
}
