/** The UTC calendar behind JavaScript's `Date` getters, `Date.UTC` and `setUTCDate`, as used by
    the schedule preview of web/app.js.  Days are counted from 1970-01-01. */
module Calendar {

  datatype Date = Date(year: int, month: int, day: int)

  predicate Leap(year: int) { year % 4 == 0 && (year % 100 != 0 || year % 400 == 0) }

  function DaysIn(year: int, month: int): int {
    if month == 2 then (if Leap(year) then 29 else 28)
    else if month in {4, 6, 9, 11} then 30
    else 31
  }

  predicate Valid(d: Date) {
    1 <= d.month <= 12 && 1 <= d.day <= DaysIn(d.year, d.month)
  }

  /** `setUTCDate(getUTCDate() + 1)`: a day past the end of the month runs into the next one. */
  function Tomorrow(d: Date): Date {
    if d.day < DaysIn(d.year, d.month) then d.(day := d.day + 1)
    else if d.month < 12 then Date(d.year, d.month + 1, 1)
    else Date(d.year + 1, 1, 1)
  }

  function Yesterday(d: Date): Date {
    if d.day > 1 then d.(day := d.day - 1)
    else if d.month > 1 then Date(d.year, d.month - 1, DaysIn(d.year, d.month - 1))
    else Date(d.year - 1, 12, 31)
  }

  /** The date of a day number. */
  function DateOf(n: int): (d: Date)
    ensures Valid(d)
    decreases if n < 0 then -n else n
  {
    if n == 0 then Date(1970, 1, 1)
    else if n > 0 then Tomorrow(DateOf(n - 1))
    else Yesterday(DateOf(n + 1))
  }

  /** Counting days and moving the date forward are the same thing. */
  lemma NextDay(n: int)
    ensures DateOf(n + 1) == Tomorrow(DateOf(n))
  {
    if n < 0 {
      var d := DateOf(n + 1);
      assert DateOf(n) == Yesterday(d);
      assert Tomorrow(Yesterday(d)) == d;
    }
  }

  // ---------- Date.UTC ----------

  /** Days before the first of January of a year, counted from the year 1. */
  function DaysBeforeYear(year: int): int {
    365 * (year - 1) + (year - 1) / 4 - (year - 1) / 100 + (year - 1) / 400
  }

  function DaysBeforeMonth(year: int, month: int): int
    decreases month
  {
    if month <= 1 then 0 else DaysBeforeMonth(year, month - 1) + DaysIn(year, month - 1)
  }

  const EPOCH := 719162

  /** The day number that `Date.UTC` gives a date. */
  function DayNumber(d: Date): int {
    DaysBeforeYear(d.year) + DaysBeforeMonth(d.year, d.month) + (d.day - 1) - EPOCH
  }

  lemma NextFourth(y: int)
    ensures y / 4 - (y - 1) / 4 == if y % 4 == 0 then 1 else 0
  {
  }

  lemma NextHundredth(y: int)
    ensures y / 100 - (y - 1) / 100 == if y % 100 == 0 then 1 else 0
  {
  }

  lemma NextFourHundredth(y: int)
    ensures y / 400 - (y - 1) / 400 == if y % 400 == 0 then 1 else 0
  {
  }

  lemma HundredsAreFours(y: int)
    ensures y % 100 == 0 ==> y % 4 == 0
  {
    if y % 100 == 0 { assert y == 4 * (25 * (y / 100)); }
  }

  lemma FourHundredsAreHundreds(y: int)
    ensures y % 400 == 0 ==> y % 100 == 0
  {
    if y % 400 == 0 { assert y == 100 * (4 * (y / 400)); }
  }

  lemma YearLength(year: int)
    ensures DaysBeforeYear(year + 1) - DaysBeforeYear(year) == if Leap(year) then 366 else 365
  {
    NextFourth(year);
    NextHundredth(year);
    NextFourHundredth(year);
    HundredsAreFours(year);
    FourHundredsAreHundreds(year);
  }

  lemma DecemberEnds(year: int)
    ensures DaysBeforeMonth(year, 12) + 31 == if Leap(year) then 366 else 365
  {
    assert DaysBeforeMonth(year, 4) == DaysIn(year, 1) + DaysIn(year, 2) + DaysIn(year, 3);
    assert DaysBeforeMonth(year, 8) ==
      DaysBeforeMonth(year, 4) + DaysIn(year, 4) + DaysIn(year, 5) + DaysIn(year, 6) + DaysIn(year, 7);
    assert DaysBeforeMonth(year, 12) ==
      DaysBeforeMonth(year, 8) + DaysIn(year, 8) + DaysIn(year, 9) + DaysIn(year, 10) + DaysIn(year, 11);
  }

  lemma TomorrowCounts(d: Date)
    requires Valid(d)
    ensures DayNumber(Tomorrow(d)) == DayNumber(d) + 1
  {
    if d.day == DaysIn(d.year, d.month) && d.month == 12 {
      YearLength(d.year);
      DecemberEnds(d.year);
    }
  }

  /** `Date.UTC` of the getters of a day gives that day back. */
  lemma {:induction false} RoundTrip(n: int)
    ensures DayNumber(DateOf(n)) == n
    decreases if n < 0 then -n else n
  {
    if n > 0 {
      RoundTrip(n - 1);
      TomorrowCounts(DateOf(n - 1));
    } else if n < 0 {
      RoundTrip(n + 1);
      NextDay(n);
      TomorrowCounts(DateOf(n));
    }
  }

  /** `getUTCDay`: 1970-01-01 was a Thursday, and Sunday is 0. */
  function Weekday(n: int): int { (n + 4) % 7 }

  /** Known days, and the seven-day week. */
  lemma WeekdaysAdvance(n: int)
    ensures Weekday(n + 1) == (if Weekday(n) == 6 then 0 else Weekday(n) + 1) && Weekday(n + 7) == Weekday(n)
    ensures Weekday(DayNumber(Date(1970, 1, 1))) == 4 && Weekday(DayNumber(Date(2000, 1, 1))) == 6
    ensures DayNumber(Date(1970, 1, 1)) == 0 && DayNumber(Date(2000, 1, 1)) == 10957
  {
  }

  /** How many days of a year come before each month. */
  lemma MonthsBegin(year: int, month: int)
    requires 1 <= month <= 12
    ensures DaysBeforeMonth(year, month) ==
      [0, 31, 59, 90, 120, 151, 181, 212, 243, 273, 304, 334][month - 1] + if month > 2 && Leap(year) then 1 else 0
  {
    if month > 1 { MonthsBegin(year, month - 1); }
  }

  lemma LeapYears()
    ensures Leap(2024) && Leap(2000) && !Leap(2023) && !Leap(1900) && !Leap(2100)
  {
  }
}
