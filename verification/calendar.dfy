/**
 * The proleptic Gregorian calendar on integer day numbers, as a JavaScript
 * Date at local midnight sees it.
 *
 * A day number counts days from 1970-01-01, which is day 0 (a Thursday).
 * The calendar date of a day number is reached from 1970-01-01 by stepping
 * one calendar day at a time (forwards for positive numbers, backwards for
 * negative ones); moving a Date to "its date + 1" is exactly one such step.
 */
module Calendar {

  datatype Date = Date(year: int, month: int, day: int)

  predicate IsLeapYear(y: int) {
    y % 4 == 0 && (y % 100 != 0 || y % 400 == 0)
  }

  function DaysInMonth(y: int, m: int): (n: int)
    requires 1 <= m <= 12
    ensures 28 <= n <= 31
    ensures n == 29 <==> m == 2 && IsLeapYear(y)
  {
    if m == 2 then (if IsLeapYear(y) then 29 else 28)
    else if m == 4 || m == 6 || m == 9 || m == 11 then 30
    else 31
  }

  predicate ValidDate(d: Date) {
    1 <= d.month <= 12 && 1 <= d.day <= DaysInMonth(d.year, d.month)
  }

  /** The calendar day after d; the day of the month rolls over into the next month and year. */
  function NextDate(d: Date): (r: Date)
    requires ValidDate(d)
    ensures ValidDate(r)
    ensures r.day == 1 <==> d.day == DaysInMonth(d.year, d.month)
    ensures d.day < DaysInMonth(d.year, d.month) ==> r == Date(d.year, d.month, d.day + 1)
    ensures d.day == DaysInMonth(d.year, d.month) && d.month < 12 ==> r == Date(d.year, d.month + 1, 1)
    ensures d.month == 12 && d.day == 31 ==> r == Date(d.year + 1, 1, 1)
    ensures r.year == d.year || (r.year == d.year + 1 && r.month == 1 && d.month == 12)
  {
    if d.day < DaysInMonth(d.year, d.month) then Date(d.year, d.month, d.day + 1)
    else if d.month < 12 then Date(d.year, d.month + 1, 1)
    else Date(d.year + 1, 1, 1)
  }

  /** The calendar day before d. */
  function PrevDate(d: Date): (r: Date)
    requires ValidDate(d)
    ensures ValidDate(r)
    ensures r.day == DaysInMonth(r.year, r.month) <==> d.day == 1
  {
    if d.day > 1 then Date(d.year, d.month, d.day - 1)
    else if d.month > 1 then Date(d.year, d.month - 1, DaysInMonth(d.year, d.month - 1))
    else Date(d.year - 1, 12, 31)
  }

  /** Stepping back and then forward returns to the same day, and so does the reverse. */
  lemma NextPrevInverse(d: Date)
    requires ValidDate(d)
    ensures NextDate(PrevDate(d)) == d
    ensures PrevDate(NextDate(d)) == d
  {
  }

  const Epoch: Date := Date(1970, 1, 1)

  /** The calendar date of day number n. */
  function CivilFromDays(n: int): (d: Date)
    ensures ValidDate(d)
    decreases if n < 0 then -n else n
  {
    if n == 0 then Epoch
    else if n > 0 then NextDate(CivilFromDays(n - 1))
    else PrevDate(CivilFromDays(n + 1))
  }

  /** The next day number is the next calendar day, before 1970 as well as after. */
  lemma CivilFromDaysNext(n: int)
    ensures CivilFromDays(n + 1) == NextDate(CivilFromDays(n))
  {
    if n < 0 {
      NextPrevInverse(CivilFromDays(n + 1));
    }
  }

  /** Day of the week of day number n, as getDay() gives it: 0 is Sunday and 6 is Saturday. */
  function Weekday(n: int): (w: int)
    ensures 0 <= w < 7
    ensures w == 4 <==> n % 7 == 0
  {
    (n + 4) % 7
  }

  lemma WeekdayNext(n: int)
    ensures Weekday(n + 1) == (Weekday(n) + 1) % 7
  {
  }
}
