/**
 * The proleptic Gregorian calendar as JavaScript's `Date` uses it, reduced to
 * what the company clock needs: dates at midnight, counted in days since
 * 1 January 1970 (UTC, no time zone and no daylight saving time).
 *
 * Months are 0-based, as in JavaScript (0 = January, 11 = December).
 */
module Calendar {

  predicate IsLeapYear(year: int) {
    year % 4 == 0 && (year % 100 != 0 || year % 400 == 0)
  }

  function DaysInYear(year: int): (n: int)
    ensures n == 365 || n == 366
  {
    if IsLeapYear(year) then 366 else 365
  }

  /** Number of days in a month of a year. */
  function DaysInMonth(year: int, month: int): (n: int)
    requires 0 <= month < 12
    ensures 28 <= n <= 31
  {
    if month == 1 then (if IsLeapYear(year) then 29 else 28)
    else if month == 3 || month == 5 || month == 8 || month == 10 then 30
    else 31
  }

  /** Days from 1 January 1970 to 1 January of `year`; negative before 1970. */
  function DaysBeforeYear(year: int): int
    decreases if year < 1970 then 1970 - year else year - 1970
  {
    if year == 1970 then 0
    else if year > 1970 then DaysBeforeYear(year - 1) + DaysInYear(year - 1)
    else DaysBeforeYear(year + 1) - DaysInYear(year)
  }

  /** Days from 1 January to the first of `month` in `year`; `month == 12` gives the whole year. */
  function DaysBeforeMonth(year: int, month: int): (n: int)
    requires 0 <= month <= 12
    ensures 28 * month <= n <= 31 * month
  {
    if month == 0 then 0 else DaysBeforeMonth(year, month - 1) + DaysInMonth(year, month - 1)
  }

  /** The twelve months of a year make up the year. */
  lemma MonthsMakeYear(year: int)
    ensures DaysBeforeMonth(year, 12) == DaysInYear(year)
  {
    var leap := if IsLeapYear(year) then 1 else 0;
    assert DaysBeforeMonth(year, 2) == 59 + leap;
    assert DaysBeforeMonth(year, 4) == 120 + leap;
    assert DaysBeforeMonth(year, 6) == 181 + leap;
    assert DaysBeforeMonth(year, 8) == 243 + leap;
    assert DaysBeforeMonth(year, 10) == 304 + leap;
  }

  /** A calendar date at midnight; `month` is 0-based, `day` is 1-based. */
  datatype Date = Date(year: int, month: int, day: int)

  predicate ValidDate(d: Date) {
    0 <= d.month < 12 && 1 <= d.day <= DaysInMonth(d.year, d.month)
  }

  /** A valid date on the first day of its month. */
  predicate IsFirstOfMonth(d: Date) {
    0 <= d.month < 12 && d.day == 1
  }

  /** Months numbered consecutively across years, so that the month after December is one more. */
  function MonthNumber(d: Date): int {
    12 * d.year + d.month
  }

  /** Days since 1 January 1970. */
  function DayNumber(d: Date): int
    requires 0 <= d.month < 12
  {
    DaysBeforeYear(d.year) + DaysBeforeMonth(d.year, d.month) + d.day - 1
  }

  /** The time value of a date: milliseconds since the epoch, at midnight. */
  function TimeValue(d: Date): int
    requires 0 <= d.month < 12
  {
    DayNumber(d) * 86_400_000
  }

  /** The first day of the month after the month of `d`. */
  function NextMonth(d: Date): (r: Date)
    requires 0 <= d.month < 12
    ensures IsFirstOfMonth(r) && MonthNumber(r) == MonthNumber(d) + 1
  {
    if d.month == 11 then Date(d.year + 1, 0, 1) else Date(d.year, d.month + 1, 1)
  }

  /** A month starts the day after the previous one ends, also across the turn of a year. */
  lemma NextMonthStep(d: Date)
    requires 0 <= d.month < 12
    ensures DayNumber(NextMonth(d)) == DayNumber(Date(d.year, d.month, 1)) + DaysInMonth(d.year, d.month)
  {
    if d.month == 11 {
      MonthsMakeYear(d.year);
    }
  }

  /** The first of the month `n` months after the month of `d`. */
  function MonthsLater(d: Date, n: nat): (r: Date)
    requires 0 <= d.month < 12
    ensures IsFirstOfMonth(r) && MonthNumber(r) == MonthNumber(d) + n
    decreases n
  {
    if n == 0 then Date(d.year, d.month, 1) else NextMonth(MonthsLater(d, n - 1))
  }

  /** Two firsts of a month with the same month number are the same date. */
  lemma FirstsByMonthNumber(a: Date, b: Date)
    requires IsFirstOfMonth(a) && IsFirstOfMonth(b) && MonthNumber(a) == MonthNumber(b)
    ensures a == b
  {
  }

  /** `n` months later is at least `28 * n` days later. */
  lemma {:induction false} MonthsLaterDays(d: Date, n: nat)
    requires IsFirstOfMonth(d)
    ensures DayNumber(d) + 28 * n <= DayNumber(MonthsLater(d, n))
    decreases n
  {
    if n > 0 {
      var before := MonthsLater(d, n - 1);
      MonthsLaterDays(d, n - 1);
      NextMonthStep(before);
    }
  }

  /** Firsts of months come in the order of their month numbers. */
  lemma FirstsOrdered(a: Date, b: Date)
    requires IsFirstOfMonth(a) && IsFirstOfMonth(b)
    ensures DayNumber(a) < DayNumber(b) <==> MonthNumber(a) < MonthNumber(b)
    ensures TimeValue(a) < TimeValue(b) <==> MonthNumber(a) < MonthNumber(b)
  {
    if MonthNumber(a) < MonthNumber(b) {
      var n := MonthNumber(b) - MonthNumber(a);
      MonthsLaterDays(a, n);
      FirstsByMonthNumber(MonthsLater(a, n), b);
    } else if MonthNumber(b) < MonthNumber(a) {
      var n := MonthNumber(a) - MonthNumber(b);
      MonthsLaterDays(b, n);
      FirstsByMonthNumber(MonthsLater(b, n), a);
    } else {
      FirstsByMonthNumber(a, b);
    }
  }

  /**
   * JavaScript's MakeDay for a day of month between 1 and 31: the month may lie
   * outside 0..11 and carries into the year, and a day past the end of the
   * month rolls over into the next month.
   */
  function MakeDate(year: int, month: int, day: int): (d: Date)
    requires 1 <= day <= 31
    ensures ValidDate(d)
    ensures DayNumber(d) == DayNumber(Date(year + month / 12, month % 12, 1)) + day - 1
  {
    var first := Date(year + month / 12, month % 12, 1);
    var len := DaysInMonth(first.year, first.month);
    if day <= len then
      Date(first.year, first.month, day)
    else
      var next := NextMonth(first);
      NextMonthStep(first);
      Date(next.year, next.month, day - len)
  }

  /** `Date.prototype.setMonth(month)`: same day of month, same year unless `month` carries. */
  function SetMonth(d: Date, month: int): (r: Date)
    requires ValidDate(d)
    ensures ValidDate(r)
    ensures DayNumber(r) == DayNumber(Date(d.year + month / 12, month % 12, 1)) + d.day - 1
  {
    MakeDate(d.year, month, d.day)
  }

  /** `Date.prototype.setFullYear(year)`: same month and day of month in another year. */
  function SetFullYear(d: Date, year: int): (r: Date)
    requires ValidDate(d)
    ensures ValidDate(r)
    ensures DayNumber(r) == DayNumber(Date(year, d.month, 1)) + d.day - 1
  {
    assert d.month / 12 == 0 && d.month % 12 == d.month;
    MakeDate(year, d.month, d.day)
  }

  /** On the first of a month no roll-over can happen: one year later is the same month a year on. */
  lemma YearLaterOnFirst(d: Date)
    requires IsFirstOfMonth(d)
    ensures SetFullYear(d, d.year + 1) == Date(d.year + 1, d.month, 1)
  {
    assert d.month / 12 == 0 && d.month % 12 == d.month;
  }

  /** On the first of a month, one month later is the first of the next month. */
  lemma MonthLaterOnFirst(d: Date)
    requires IsFirstOfMonth(d)
    ensures SetMonth(d, d.month + 1) == NextMonth(d)
  {
    if d.month == 11 {
      assert (d.month + 1) / 12 == 1 && (d.month + 1) % 12 == 0;
    } else {
      assert (d.month + 1) / 12 == 0 && (d.month + 1) % 12 == d.month + 1;
    }
  }

  /** JavaScript's roll-over rule at month ends: 31 January plus one month. */
  lemma JanuaryThirtyFirstPlusOneMonth(year: int)
    ensures SetMonth(Date(year, 0, 31), 1) == if IsLeapYear(year) then Date(year, 2, 2) else Date(year, 2, 3)
  {
    assert 1 / 12 == 0 && 1 % 12 == 1;
    var february := DaysInMonth(year, 1);
    assert february == if IsLeapYear(year) then 29 else 28;
    assert NextMonth(Date(year, 1, 1)) == Date(year, 2, 1);
  }

  /** 29 February plus one year rolls over into 1 March, as no leap year follows a leap year. */
  lemma LeapDayPlusOneYear(year: int)
    requires IsLeapYear(year)
    ensures SetFullYear(Date(year, 1, 29), year + 1) == Date(year + 1, 2, 1)
  {
    assert !IsLeapYear(year + 1) by {
      assert (year + 1) % 4 == 1;
    }
  }
}
