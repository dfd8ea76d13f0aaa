/**
 * The company clock: whole years, then whole months, then whole days elapsed
 * since the company's start, 1 March 2015 at midnight.
 *
 * Instants are integer milliseconds since the epoch. The cursor of the
 * computation is always the first of a month at midnight, so it is written as
 * a `Date`; its instant is `TimeValue(cursor)`.
 */
module CompanyClock {
  import opened Calendar

  /** The start date, `new Date(2015, 2, 1)`. */
  const Anchor: Date := Date(2015, 2, 1)

  const AnchorTime: int := TimeValue(Anchor)

  /** The first of the month `months` months (0 to 11) after the `years`-th anniversary of the start. */
  function ClockMonth(years: int, months: int): (d: Date)
    requires 0 <= months < 12
    ensures IsFirstOfMonth(d) && MonthNumber(d) == MonthNumber(Anchor) + 12 * years + months
  {
    if months < 10 then Date(2015 + years, 2 + months, 1) else Date(2016 + years, months - 10, 1)
  }

  /**
   * What the clock shows at `now`. From the start on: `now` lies in the month
   * that begins `years` years and `months` months (at most 11) after the start,
   * and `days` counts the whole days since that month began. Before the start
   * neither loop runs and `days` is the (negative) floor of the difference in
   * days.
   */
  predicate IsElapsed(now: int, years: int, months: int, days: int) {
    if now < AnchorTime then
      years == 0 && months == 0 && days == (now - AnchorTime) / 86_400_000
    else
      && 0 <= years
      && 0 <= months < 12
      && InMonth(now, ClockMonth(years, months), days)
  }

  /** `now` lies in the month starting at `first`, `days` whole days after its start. */
  predicate InMonth(now: int, first: Date, days: int)
    requires 0 <= first.month < 12
  {
    var start := TimeValue(first);
    start <= now < TimeValue(NextMonth(first)) && days == (now - start) / 86_400_000
  }

  /** Dividing by seconds, minutes, hours and days in turn is dividing by a day's milliseconds. */
  lemma NestedFloorDivision(x: int)
    ensures (((x / 1000) / 60) / 60) / 24 == x / 86_400_000
  {
  }

  /**
   * The first loop of `updateCompanyClock`: step `from`, the first of a month,
   * forward one year at a time while the cursor is before `now` and the next
   * year does not pass `now`.
   */
  method WholeYears(from: Date, now: int) returns (years: int, cursor: Date)
    requires IsFirstOfMonth(from)
    ensures 0 <= years && cursor == Date(from.year + years, from.month, 1)
    ensures now <= TimeValue(from) ==> years == 0
    ensures TimeValue(from) <= now ==> TimeValue(cursor) <= now < TimeValue(Date(cursor.year + 1, cursor.month, 1))
  {
    years, cursor := 0, from;
    while TimeValue(cursor) < now
      invariant 0 <= years && cursor == Date(from.year + years, from.month, 1)
      invariant TimeValue(from) <= now ==> TimeValue(cursor) <= now
      invariant now <= TimeValue(from) ==> years == 0
      decreases now - TimeValue(cursor)
    {
      var nextYear := SetFullYear(cursor, cursor.year + 1);
      YearLaterOnFirst(cursor);
      FirstsOrdered(cursor, nextYear);
      if TimeValue(nextYear) <= now {
        years := years + 1;
        cursor := nextYear;
      } else {
        break;
      }
    }
    FirstsOrdered(cursor, Date(cursor.year + 1, cursor.month, 1));
  }

  /**
   * The second loop of `updateCompanyClock`: step `from`, the first of a month,
   * forward one month at a time while the cursor is before `now` and the next
   * month does not pass `now`.
   */
  method WholeMonths(from: Date, now: int) returns (months: int, cursor: Date)
    requires IsFirstOfMonth(from)
    ensures 0 <= months && IsFirstOfMonth(cursor) && MonthNumber(cursor) == MonthNumber(from) + months
    ensures now <= TimeValue(from) ==> months == 0 && cursor == from
    ensures TimeValue(from) <= now ==> TimeValue(cursor) <= now < TimeValue(NextMonth(cursor))
  {
    months, cursor := 0, from;
    while TimeValue(cursor) < now
      invariant 0 <= months && IsFirstOfMonth(cursor) && MonthNumber(cursor) == MonthNumber(from) + months
      invariant TimeValue(from) <= now ==> TimeValue(cursor) <= now
      invariant now <= TimeValue(from) ==> months == 0 && cursor == from
      decreases now - TimeValue(cursor)
    {
      var nextMonth := SetMonth(cursor, cursor.month + 1);
      MonthLaterOnFirst(cursor);
      FirstsOrdered(cursor, nextMonth);
      if TimeValue(nextMonth) <= now {
        months := months + 1;
        cursor := nextMonth;
      } else {
        break;
      }
    }
    FirstsOrdered(cursor, NextMonth(cursor));
  }

  /** Fewer than `n` days' worth of milliseconds make fewer than `n` whole days. */
  lemma WholeDaysBelow(ms: int, n: int)
    requires 0 <= ms < n * 86_400_000
    ensures 0 <= ms / 86_400_000 < n
  {
  }

  /**
   * `updateCompanyClock`'s computation: whole years from the start, then
   * whole months, then the rest floor-divided into seconds, minutes, hours
   * and days.
   */
  method Elapsed(now: int) returns (years: int, months: int, days: int)
    ensures IsElapsed(now, years, months, days)
    ensures now >= AnchorTime ==>
      0 <= days < DaysInMonth(ClockMonth(years, months).year, ClockMonth(years, months).month)
  {
    var cursor;
    years, cursor := WholeYears(Anchor, now);
    ghost var anniversary := cursor;
    months, cursor := WholeMonths(cursor, now);
    var remaining := now - TimeValue(cursor);
    var seconds := remaining / 1000;
    var minutes := seconds / 60;
    var hours := minutes / 60;
    days := hours / 24;
    NestedFloorDivision(remaining);
    if now >= AnchorTime {
      MonthOfTheYear(now, years, anniversary, months, cursor);
      NextMonthStep(cursor);
      WholeDaysBelow(remaining, DaysInMonth(cursor.year, cursor.month));
    }
  }

  /**
   * The month loop, started on an anniversary that lies in the year containing
   * `now`, stops within that year: fewer than 12 months on.
   */
  lemma MonthOfTheYear(now: int, years: int, anniversary: Date, months: int, cursor: Date)
    requires 0 <= years && anniversary == Date(2015 + years, 2, 1)
    requires now < TimeValue(Date(anniversary.year + 1, anniversary.month, 1))
    requires 0 <= months && IsFirstOfMonth(cursor) && MonthNumber(cursor) == MonthNumber(anniversary) + months
    requires TimeValue(cursor) <= now
    ensures months < 12 && cursor == ClockMonth(years, months)
  {
    if months >= 12 {
      FirstsOrdered(Date(anniversary.year + 1, anniversary.month, 1), cursor);
      assert false;
    }
    FirstsByMonthNumber(cursor, ClockMonth(years, months));
  }

  /** The clock's reading is determined by `now`. */
  lemma ElapsedUnique(now: int, y1: int, m1: int, d1: int, y2: int, m2: int, d2: int)
    requires IsElapsed(now, y1, m1, d1) && IsElapsed(now, y2, m2, d2)
    ensures y1 == y2 && m1 == m2 && d1 == d2
  {
    if now >= AnchorTime {
      OneMonthContains(now, ClockMonth(y1, m1), ClockMonth(y2, m2));
      ClockMonthInjective(y1, m1, y2, m2);
    }
  }

  /** At most one month contains a given instant. */
  lemma OneMonthContains(now: int, a: Date, b: Date)
    requires IsFirstOfMonth(a) && TimeValue(a) <= now < TimeValue(NextMonth(a))
    requires IsFirstOfMonth(b) && TimeValue(b) <= now < TimeValue(NextMonth(b))
    ensures a == b
  {
    FirstsOrdered(b, NextMonth(a));
    FirstsOrdered(a, NextMonth(b));
    FirstsByMonthNumber(a, b);
  }

  /** Different readings name different months. */
  lemma ClockMonthInjective(y1: int, m1: int, y2: int, m2: int)
    requires 0 <= m1 < 12 && 0 <= m2 < 12
    requires ClockMonth(y1, m1) == ClockMonth(y2, m2)
    ensures y1 == y2 && m1 == m2
  {
    assert 12 * y1 + m1 == 12 * y2 + m2;
  }

  /**
   * From the start on, `years` counts whole years: the `years`-th anniversary
   * is not after `now` and the next one is.
   */
  lemma ElapsedYearsAreWhole(now: int, years: int, months: int, days: int)
    requires IsElapsed(now, years, months, days) && AnchorTime <= now
    ensures TimeValue(Date(2015 + years, 2, 1)) <= now < TimeValue(Date(2016 + years, 2, 1))
  {
    var c := ClockMonth(years, months);
    FirstsOrdered(c, Date(2015 + years, 2, 1));
    FirstsOrdered(Date(2016 + years, 2, 1), NextMonth(c));
  }

  /**
   * Every instant from the start on has a reading: `r` milliseconds into the
   * month `months` months after the `years`-th anniversary, the clock shows
   * `years`, `months` and the whole days of `r`.
   */
  lemma ElapsedWithin(years: nat, months: int, r: int)
    requires 0 <= months < 12
    requires 0 <= r < DaysInMonth(ClockMonth(years, months).year, ClockMonth(years, months).month) * 86_400_000
    ensures IsElapsed(TimeValue(ClockMonth(years, months)) + r, years, months, r / 86_400_000)
  {
    var c := ClockMonth(years, months);
    FirstsOrdered(c, Anchor);
    NextMonthStep(c);
  }

  /** At the start itself the clock shows zero. */
  lemma ElapsedAtStart()
    ensures IsElapsed(AnchorTime, 0, 0, 0)
  {
    ElapsedWithin(0, 0, 0);
  }

  /** One millisecond before the start the clock shows minus one day. */
  lemma ElapsedJustBeforeStart()
    ensures IsElapsed(AnchorTime - 1, 0, 0, -1)
  {
  }

  /** On 1 March 2016, the first anniversary, the clock shows exactly one year. */
  lemma ElapsedAtFirstAnniversary()
    ensures IsElapsed(TimeValue(Date(2016, 2, 1)), 1, 0, 0)
  {
    ElapsedWithin(1, 0, 0);
  }

  /** At noon on 6 May 2016 the clock shows one year, two months and five days. */
  lemma ElapsedOnSixthOfMay2016()
    ensures IsElapsed(TimeValue(Date(2016, 4, 6)) + 43_200_000, 1, 2, 5)
  {
    ElapsedWithin(1, 2, 5 * 86_400_000 + 43_200_000);
  }
}
