/**
 * Due-date arithmetic on local calendar fields (src/lib/dateUtils.ts).
 *
 * A JavaScript `Date` is modelled by its local calendar fields: a date of
 * (year, month 0..11, day of month) that always exists, plus the milliseconds
 * elapsed since local midnight. The current instant is passed in explicitly.
 */
module DateUtils {

  const MsPerDay: int := 86_400_000

  /** Proleptic Gregorian leap-year rule (Dafny's `%` never goes negative). */
  predicate IsLeapYear(year: int) {
    year % 4 == 0 && (year % 100 != 0 || year % 400 == 0)
  }

  function DaysInMonth(year: int, month: int): (n: int)
    requires 0 <= month < 12
    ensures 28 <= n <= 31
    ensures n < 31 <==> month in {1, 3, 5, 8, 10}
    ensures n == 30 <==> month in {3, 5, 8, 10}
    ensures n == 29 <==> month == 1 && IsLeapYear(year)
    ensures n == 28 <==> month == 1 && !IsLeapYear(year)
  {
    if month == 1 then (if IsLeapYear(year) then 29 else 28)
    else if month in {3, 5, 8, 10} then 30
    else 31
  }

  /** Calendar fields as a JavaScript `Date` reports them: month is 0-based. */
  datatype Date = Date(year: int, month: int, day: int) {
    predicate Valid() {
      0 <= month < 12 && 1 <= day <= DaysInMonth(year, month)
    }
  }

  /** A day that exists in the calendar; every `Date` object denotes one. */
  type CalendarDate = d: Date | d.Valid() witness Date(1970, 0, 1)

  type MsOfDay = n: int | 0 <= n < 86_400_000

  /** A point in (local) time: a calendar day and the time of day within it. */
  datatype Instant = Instant(date: CalendarDate, msOfDay: MsOfDay)

  predicate DateBefore(a: Date, b: Date) {
    a.year < b.year
    || (a.year == b.year && a.month < b.month)
    || (a.year == b.year && a.month == b.month && a.day < b.day)
  }

  /** `a < b` on `Date` objects: chronological order, which is lexicographic on the fields. */
  predicate Before(a: Instant, b: Instant) {
    DateBefore(a.date, b.date) || (a.date == b.date && a.msOfDay < b.msOfDay)
  }

  predicate AtOrBefore(a: Instant, b: Instant) {
    Before(a, b) || a == b
  }

  /** `Before` is a strict total order on instants. */
  lemma BeforeIsStrictTotalOrder(a: Instant, b: Instant, c: Instant)
    ensures !Before(a, a)
    ensures Before(a, b) ==> !Before(b, a)
    ensures Before(a, b) && Before(b, c) ==> Before(a, c)
    ensures Before(a, b) || a == b || Before(b, a)
  {
  }

  /**
   * The sign of `a.getTime() - b.getTime()`. Only the sign of that difference
   * is ever used (as a sort comparator's result), so the model keeps just that.
   */
  function CompareInstants(a: Instant, b: Instant): (r: int)
    ensures r == -1 || r == 0 || r == 1
    ensures r < 0 <==> Before(a, b)
    ensures r == 0 <==> a == b
    ensures r > 0 <==> Before(b, a)
  {
    if Before(a, b) then -1 else if a == b then 0 else 1
  }

  /**
   * The year the `Date` constructor takes a `year` argument to mean: one in
   * 0..99 is read as 1900 + year (section 21.4.2.1 of ECMA-262), any other is
   * kept. So the constructor never yields a year in 0..99.
   */
  function ConstructorYear(year: int): (y: int)
    ensures !(0 <= y <= 99)
    ensures y == year <==> !(0 <= year <= 99)
    ensures 0 <= year <= 99 ==> y == 1900 + year
  {
    if 0 <= year <= 99 then 1900 + year else year
  }

  /**
   * `new Date(year, month, day)` for a day of month in 1..31: the year is read
   * as `ConstructorYear` says, and a day past the end of the month carries over
   * into the next month (29 February of a common year is 1 March).
   */
  function NormalizeDate(year: int, month: int, day: int): (r: CalendarDate)
    requires 0 <= month < 12 && 1 <= day <= 31
    ensures r.year == ConstructorYear(year)
    ensures day <= DaysInMonth(r.year, month) ==> r.month == month && r.day == day
    ensures day > DaysInMonth(r.year, month) ==>
      r.month == month + 1 && r.day == day - DaysInMonth(r.year, month) && r.day <= 3
  {
    var y := ConstructorYear(year);
    var n := DaysInMonth(y, month);
    if day <= n then Date(y, month, day)
    else Date(y, month + 1, day - n)
  }

  /**
   * `calculateDueDate`: local midnight of the same month and day one year
   * later. No vaccination interval is consulted; the offset is always one
   * calendar year, except that a completion in the years -1..98 passes a
   * target year in 0..99 to the constructor, which reads it as 1900 + year.
   */
  function CalculateDueDate(completedAt: Instant): (r: Instant)
    ensures r.msOfDay == 0
    ensures r.date.year == ConstructorYear(completedAt.date.year + 1)
    ensures !(-1 <= completedAt.date.year <= 98) ==> r.date.year == completedAt.date.year + 1
    ensures -1 <= completedAt.date.year <= 98 ==> r.date.year == completedAt.date.year + 1901
    ensures completedAt.date.day <= DaysInMonth(r.date.year, completedAt.date.month) ==>
      r.date == Date(r.date.year, completedAt.date.month, completedAt.date.day)
    ensures completedAt.date.day > DaysInMonth(r.date.year, completedAt.date.month) ==>
      completedAt.date.month == 1 && completedAt.date.day == 29 && r.date == Date(r.date.year, 2, 1)
  {
    var d := completedAt.date;
    Instant(NormalizeDate(d.year + 1, d.month, d.day), 0)
  }

  /** `isOverdue`: strictly before the current instant; a due date equal to now is not overdue. */
  function IsOverdue(dueDate: Instant, now: Instant): (r: bool)
    ensures r <==> CompareInstants(dueDate, now) < 0
    ensures r ==> dueDate != now && !Before(now, dueDate)
  {
    Before(dueDate, now)
  }

  /**
   * A leap day rolls over to 1 March of the following (common) year; for a
   * completion in -1..98 that year is the one the constructor reads, in the 1900s.
   */
  lemma LeapDayRollsToMarchFirst(completedAt: Instant)
    requires completedAt.date.month == 1 && completedAt.date.day == 29
    ensures CalculateDueDate(completedAt).date == Date(ConstructorYear(completedAt.date.year + 1), 2, 1)
    ensures !(-1 <= completedAt.date.year <= 98) ==>
      CalculateDueDate(completedAt).date == Date(completedAt.date.year + 1, 2, 1)
  {
    var y := completedAt.date.year;
    assert IsLeapYear(y);
    assert (y + 1) % 4 != 0;
    assert (y + 1901) % 4 != 0;
  }

  /** So the due date does not determine the completion day: 29 February and 1 March collide. */
  lemma DueDateNotInjective(year: int, ms1: MsOfDay, ms2: MsOfDay)
    requires IsLeapYear(year)
    ensures CalculateDueDate(Instant(Date(year, 1, 29), ms1)) == CalculateDueDate(Instant(Date(year, 2, 1), ms2))
  {
    LeapDayRollsToMarchFirst(Instant(Date(year, 1, 29), ms1));
  }

  /** The time of day of the completion is dropped. */
  lemma DueDateIgnoresTimeOfDay(c1: Instant, c2: Instant)
    requires c1.date == c2.date
    ensures CalculateDueDate(c1) == CalculateDueDate(c2)
  {
  }

  /** The due date is strictly later than the completion. */
  lemma DueDateAfterCompletion(completedAt: Instant)
    ensures Before(completedAt, CalculateDueDate(completedAt))
  {
  }

  /**
   * `calculateDueDate` is monotone, unless the earlier completion falls in the
   * years -1..98 that the constructor moves to the 1900s and the later one does not.
   */
  lemma DueDateMonotone(c1: Instant, c2: Instant)
    requires AtOrBefore(c1, c2)
    requires -1 <= c1.date.year <= 98 ==> c2.date.year <= 98
    ensures AtOrBefore(CalculateDueDate(c1), CalculateDueDate(c2))
  {
    var d1, d2 := c1.date, c2.date;
    var e1, e2 := CalculateDueDate(c1).date, CalculateDueDate(c2).date;
    if d1.year == d2.year && d1.month < d2.month && e1.month != d1.month {
      // Only a leap day overflows, and it lands on 1 March, the first day of its month.
      assert e1 == Date(e1.year, 2, 1);
    }
  }

  /** A two-digit completion year is read as a 1900s year: 15 July 0024 is due 15 July 1925. */
  lemma TwoDigitYearDueDate()
    ensures CalculateDueDate(Instant(Date(24, 6, 15), 0)) == Instant(Date(1925, 6, 15), 0)
  {
  }

  /** Across that window the due dates go backwards: 1 June 0098 is due in 1999, 1 June 0099 in 0100. */
  lemma DueDateNotMonotoneAcrossWindow()
    ensures Before(Instant(Date(98, 5, 1), 0), Instant(Date(99, 5, 1), 0))
    ensures CalculateDueDate(Instant(Date(98, 5, 1), 0)) == Instant(Date(1999, 5, 1), 0)
    ensures CalculateDueDate(Instant(Date(99, 5, 1), 0)) == Instant(Date(100, 5, 1), 0)
    ensures Before(CalculateDueDate(Instant(Date(99, 5, 1), 0)), CalculateDueDate(Instant(Date(98, 5, 1), 0)))
  {
  }
}
