/**
 * The working-day due-date calculator of the client (client/app/lib/date-utils.ts).
 *
 * A date is a day number (see module Calendar): the start date normalised to
 * midnight. A working day is a day that is neither a Saturday nor a Sunday
 * and whose "MM-DD" is not in the fixed table of Philippine holidays; the
 * table does not depend on the year.
 */
module DateUtils {
  import opened Calendar
  import opened Text
  import Lists
  import WorkingDays

  /** Fixed-date Philippine holidays as "MM-DD"; 08-26 stands for National Heroes Day, and Holy Week is not listed. */
  const PhilippineHolidays: seq<string> := [
    "01-01", "04-09", "05-01", "06-12", "08-21", "08-26", "11-01",
    "11-02", "11-30", "12-08", "12-24", "12-25", "12-30", "12-31"
  ]

  /** Two-digit zero-padded rendering of a month or a day, as String(n).padStart(2, "0"). */
  function TwoDigits(n: nat): string {
    PadLeft(NatToString(n), 2, '0')
  }

  /** The "MM-DD" key of a month and a day. */
  function MonthDayKey(month: nat, day: nat): string {
    TwoDigits(month) + "-" + TwoDigits(day)
  }

  predicate IsWeekend(n: int) {
    var dayOfWeek := Weekday(n);
    dayOfWeek == 0 || dayOfWeek == 6
  }

  predicate IsHoliday(n: int) {
    var d := CivilFromDays(n);
    MonthDayKey(d.month, d.day) in PhilippineHolidays
  }


  /** The holiday table read as (month, day) pairs, entry by entry. */
  const HolidayMonthDays: seq<(int, int)> := [
    (1, 1), (4, 9), (5, 1), (6, 12), (8, 21), (8, 26), (11, 1),
    (11, 2), (11, 30), (12, 8), (12, 24), (12, 25), (12, 30), (12, 31)
  ]

  /** (m, d) is entry i of HolidayMonthDays or a later one. */
  predicate ListedFrom(m: int, d: int, i: nat)
    decreases |HolidayMonthDays| - i
  {
    i < |HolidayMonthDays| && (HolidayMonthDays[i] == (m, d) || ListedFrom(m, d, i + 1))
  }

  /** The holiday table lists month m, day d. */
  predicate IsListedMonthDay(m: int, d: int) {
    ListedFrom(m, d, 0)
  }

  lemma {:induction false} ListedFromIn(m: int, d: int, i: nat)
    requires i <= |HolidayMonthDays|
    ensures ListedFrom(m, d, i) <==> (m, d) in HolidayMonthDays[i..]
    decreases |HolidayMonthDays| - i
  {
    if i < |HolidayMonthDays| {
      ListedFromIn(m, d, i + 1);
      assert HolidayMonthDays[i..] == [HolidayMonthDays[i]] + HolidayMonthDays[i + 1..];
    }
  }

  /** IsListedMonthDay is membership in the pair table. */
  lemma ListedIn(m: int, d: int)
    ensures IsListedMonthDay(m, d) <==> (m, d) in HolidayMonthDays
  {
    ListedFromIn(m, d, 0);
    assert HolidayMonthDays[0..] == HolidayMonthDays;
  }

  predicate IsListedDate(d: Date) {
    IsListedMonthDay(d.month, d.day)
  }

  /** Day number k falls on a month and day of the holiday table. */
  predicate IsListedDay(k: int) {
    IsListedDate(CivilFromDays(k))
  }

  /**
   * A working day is neither a Saturday nor a Sunday nor on a month and day of
   * the holiday table; HolidayIsYearIndependent shows the table lookup is the
   * string lookup of IsHoliday.
   */
  predicate IsWorkingDay(n: int) {
    !IsWeekend(n) && !IsListedDay(n)
  }

  lemma TwoDigitsOf(n: nat)
    requires n < 100
    ensures TwoDigits(n) == [DigitChar(n / 10), DigitChar(n % 10)]
  {
    if n >= 10 {
      assert NatToString(n / 10) == [DigitChar(n / 10)];
    }
  }

  lemma TwoDigitsInjective(a: nat, b: nat)
    requires a < 100 && b < 100 && TwoDigits(a) == TwoDigits(b)
    ensures a == b
  {
    TwoDigitsOf(a);
    TwoDigitsOf(b);
    assert DigitValue(DigitChar(a / 10)) == a / 10 && DigitValue(DigitChar(b / 10)) == b / 10;
    assert DigitValue(DigitChar(a % 10)) == a % 10 && DigitValue(DigitChar(b % 10)) == b % 10;
  }

  /** Two dates have the same key only when they have the same month and day. */
  lemma MonthDayKeyInjective(m1: nat, d1: nat, m2: nat, d2: nat)
    requires m1 < 100 && d1 < 100 && m2 < 100 && d2 < 100
    ensures MonthDayKey(m1, d1) == MonthDayKey(m2, d2) <==> m1 == m2 && d1 == d2
  {
    TwoDigitsOf(m1);
    TwoDigitsOf(d1);
    TwoDigitsOf(m2);
    TwoDigitsOf(d2);
    var k1, k2 := MonthDayKey(m1, d1), MonthDayKey(m2, d2);
    if k1 == k2 {
      assert k1[..2] == TwoDigits(m1) && k2[..2] == TwoDigits(m2);
      assert k1[3..] == TwoDigits(d1) && k2[3..] == TwoDigits(d2);
      TwoDigitsInjective(m1, m2);
      TwoDigitsInjective(d1, d2);
    }
  }

  /** The key of a month and a day below 100 spelled out character by character. */
  lemma MonthDayKeyChars(m: nat, d: nat)
    requires m < 100 && d < 100
    ensures MonthDayKey(m, d) == [DigitChar(m / 10), DigitChar(m % 10), '-', DigitChar(d / 10), DigitChar(d % 10)]
  {
    TwoDigitsOf(m);
    TwoDigitsOf(d);
  }

  /** Entry i of the string table is the key of entry i of the pair table. */
  lemma EntryKey(i: int)
    requires 0 <= i < |PhilippineHolidays|
    ensures |HolidayMonthDays| == |PhilippineHolidays|
    ensures 1 <= HolidayMonthDays[i].0 <= 12 && 1 <= HolidayMonthDays[i].1 <= 31
    ensures PhilippineHolidays[i] == MonthDayKey(HolidayMonthDays[i].0, HolidayMonthDays[i].1)
  {
    MonthDayKeyChars(HolidayMonthDays[i].0, HolidayMonthDays[i].1);
  }

  /**
   * The table is well formed: no key is listed twice, and every entry is a real
   * calendar day in every year (none is February 29).
   */
  lemma HolidayTableWellFormed()
    ensures Lists.NoDuplicates(PhilippineHolidays)
    ensures forall i, y :: 0 <= i < |HolidayMonthDays| ==> ValidDate(Date(y, HolidayMonthDays[i].0, HolidayMonthDays[i].1))
  {
    forall i, j | 0 <= i < j < |PhilippineHolidays|
      ensures PhilippineHolidays[i] != PhilippineHolidays[j]
    {
      EntryKey(i);
      EntryKey(j);
      MonthDayKeyInjective(HolidayMonthDays[i].0, HolidayMonthDays[i].1, HolidayMonthDays[j].0, HolidayMonthDays[j].1);
    }
  }

  /** A month and day is in the table exactly when IsListedMonthDay says so. */
  lemma HolidayTable(m: int, d: int)
    requires 1 <= m <= 12 && 1 <= d <= 31
    ensures MonthDayKey(m, d) in PhilippineHolidays <==> IsListedMonthDay(m, d)
  {
    ListedIn(m, d);
    var k := MonthDayKey(m, d);
    if k in PhilippineHolidays {
      var i :| 0 <= i < |PhilippineHolidays| && PhilippineHolidays[i] == k;
      EntryKey(i);
      MonthDayKeyInjective(m, d, HolidayMonthDays[i].0, HolidayMonthDays[i].1);
      assert HolidayMonthDays[i] == (m, d);
    }
    if IsListedMonthDay(m, d) {
      var i :| 0 <= i < |HolidayMonthDays| && HolidayMonthDays[i] == (m, d);
      EntryKey(i);
      assert PhilippineHolidays[i] == k;
    }
  }

  /** Whether a day is a holiday depends only on its month and day, never on its year. */
  lemma HolidayIsYearIndependent(n: int)
    ensures IsHoliday(n) <==> IsListedMonthDay(CivilFromDays(n).month, CivilFromDays(n).day)
  {
    HolidayTable(CivilFromDays(n).month, CivilFromDays(n).day);
  }

  /** Two listed days in a row: Nov 1-2, Dec 24-25, Dec 30-31 and Dec 31-Jan 1. */
  lemma ListedPair(d: Date)
    requires ValidDate(d) && IsListedDate(d) && IsListedDate(NextDate(d))
    ensures (d.month, d.day) in [(11, 1), (12, 24), (12, 30), (12, 31)]
  {
    ListedIn(d.month, d.day);
    ListedIn(NextDate(d).month, NextDate(d).day);
  }

  /** The only three listed days in a row are Dec 30, Dec 31 and Jan 1. */
  lemma ListedTriple(d: Date)
    requires ValidDate(d) && IsListedDate(d) && IsListedDate(NextDate(d)) && IsListedDate(NextDate(NextDate(d)))
    ensures d.month == 12 && d.day == 30
  {
    ListedPair(d);
    ListedPair(NextDate(d));
  }

  lemma ThreeListedDays(k: int)
    requires IsListedDay(k) && IsListedDay(k + 1) && IsListedDay(k + 2)
    ensures CivilFromDays(k).month == 12 && CivilFromDays(k).day == 30
  {
    CivilFromDaysNext(k);
    CivilFromDaysNext(k + 1);
    ListedTriple(CivilFromDays(k));
  }

  /** No four days in a row are all listed. */
  lemma NoFourListedDays(k: int)
    ensures !(IsListedDay(k) && IsListedDay(k + 1) && IsListedDay(k + 2) && IsListedDay(k + 3))
  {
    if IsListedDay(k) && IsListedDay(k + 1) && IsListedDay(k + 2) && IsListedDay(k + 3) {
      ThreeListedDays(k);
      ThreeListedDays(k + 1);
      CivilFromDaysNext(k);
      assert false;
    }
  }

  lemma ModOfMultiple(y: int, m: int, r: int)
    requires y == 7 * m + r && 0 <= r < 7
    ensures y % 7 == r
  {
  }

  lemma WeekdayShift(a: int, j: nat)
    ensures Weekday(a + j) == (Weekday(a) + j) % 7
  {
    var x := a + 4;
    ModOfMultiple(x + j, x / 7 + (x % 7 + j) / 7, (x % 7 + j) % 7);
  }

  /** One of four days in a row is not listed. */
  lemma UnlistedAmongFour(s: int) returns (k: int)
    ensures s <= k <= s + 3 && !IsListedDay(k)
  {
    NoFourListedDays(s);
    if !IsListedDay(s) {
      k := s;
    } else if !IsListedDay(s + 1) {
      k := s + 1;
    } else if !IsListedDay(s + 2) {
      k := s + 2;
    } else {
      k := s + 3;
    }
  }

  /** Five days after a Dec 30 is a Jan 4. */
  lemma Dec30PlusFive(k: int)
    requires CivilFromDays(k).month == 12 && CivilFromDays(k).day == 30
    ensures CivilFromDays(k + 5).month == 1 && CivilFromDays(k + 5).day == 4
  {
    var y := CivilFromDays(k).year;
    CivilFromDaysNext(k);
    assert CivilFromDays(k + 1) == Date(y, 12, 31);
    CivilFromDaysNext(k + 1);
    assert CivilFromDays(k + 2) == Date(y + 1, 1, 1);
    CivilFromDaysNext(k + 2);
    assert CivilFromDays(k + 3) == Date(y + 1, 1, 2);
    CivilFromDaysNext(k + 3);
    assert CivilFromDays(k + 4) == Date(y + 1, 1, 3);
    CivilFromDaysNext(k + 4);
  }

  /** Four days before a Dec 30 is a Dec 26. */
  lemma Dec30MinusFour(k: int)
    requires CivilFromDays(k + 4).month == 12 && CivilFromDays(k + 4).day == 30
    ensures CivilFromDays(k).month == 12 && CivilFromDays(k).day == 26
  {
    CivilFromDaysNext(k + 3);
    assert CivilFromDays(k + 3).month == 12 && CivilFromDays(k + 3).day == 29;
    CivilFromDaysNext(k + 2);
    assert CivilFromDays(k + 2).month == 12 && CivilFromDays(k + 2).day == 28;
    CivilFromDaysNext(k + 1);
    assert CivilFromDays(k + 1).month == 12 && CivilFromDays(k + 1).day == 27;
    CivilFromDaysNext(k);
  }

  /** Days a, a+1, a+2 and a+5 are never all listed. */
  lemma NotAllListedThreeThenOne(a: int)
    ensures !(IsListedDay(a) && IsListedDay(a + 1) && IsListedDay(a + 2) && IsListedDay(a + 5))
  {
    if IsListedDay(a) && IsListedDay(a + 1) && IsListedDay(a + 2) {
      ThreeListedDays(a);
      Dec30PlusFive(a);
      ListedIn(1, 4);
    }
  }

  /** Days a, a+4, a+5 and a+6 are never all listed. */
  lemma NotAllListedOneThenThree(a: int)
    ensures !(IsListedDay(a) && IsListedDay(a + 4) && IsListedDay(a + 5) && IsListedDay(a + 6))
  {
    if IsListedDay(a + 4) && IsListedDay(a + 5) && IsListedDay(a + 6) {
      ThreeListedDays(a + 4);
      Dec30MinusFour(a);
      ListedIn(12, 26);
    }
  }

  /** Of days a, a+1, a+2 and a+5, one is not listed. */
  lemma UnlistedThreeThenOne(a: int) returns (k: int)
    ensures (k == a || k == a + 1 || k == a + 2 || k == a + 5) && !IsListedDay(k)
  {
    NotAllListedThreeThenOne(a);
    if !IsListedDay(a) {
      k := a;
    } else if !IsListedDay(a + 1) {
      k := a + 1;
    } else if !IsListedDay(a + 2) {
      k := a + 2;
    } else {
      k := a + 5;
    }
  }

  /** Of days a, a+4, a+5 and a+6, one is not listed. */
  lemma UnlistedOneThenThree(a: int) returns (k: int)
    ensures (k == a || k == a + 4 || k == a + 5 || k == a + 6) && !IsListedDay(k)
  {
    NotAllListedOneThenThree(a);
    if !IsListedDay(a) {
      k := a;
    } else if !IsListedDay(a + 4) {
      k := a + 4;
    } else if !IsListedDay(a + 5) {
      k := a + 5;
    } else {
      k := a + 6;
    }
  }

  /** A weekday (Monday to Friday) that is not listed within the seven days starting at a. */
  lemma UnlistedWeekday(a: int) returns (k: int)
    ensures a <= k <= a + 6 && !IsListedDay(k) && 1 <= Weekday(k) <= 5
  {
    var w := Weekday(a);
    if w == 1 || w == 2 {
      k := UnlistedAmongFour(a);
    } else if w == 5 {
      k := UnlistedAmongFour(a + 3);
    } else if w == 6 {
      k := UnlistedAmongFour(a + 2);
    } else if w == 0 {
      k := UnlistedAmongFour(a + 1);
    } else if w == 3 {
      k := UnlistedThreeThenOne(a);
    } else {
      k := UnlistedOneThenThree(a);
    }
    WeekdayShift(a, k - a);
  }

  /** Every seven consecutive days after n hold a working day. */
  lemma WorkingDayWithinWeek(n: int)
    ensures exists k :: n < k <= n + 7 && IsWorkingDay(k)
  {
    var k := UnlistedWeekday(n + 1);
    assert IsWorkingDay(k);
  }

  /** The working-day rule meets the weekly condition of module WorkingDays. */
  lemma EveryWeekHasWorkingDay()
    ensures WorkingDays.EveryWeekHasWorkingDay(IsWorkingDay)
  {
    forall n
      ensures WorkingDays.WeekHasWorkingDay(IsWorkingDay, n)
    {
      WorkingDayWithinWeek(n);
    }
  }

  /** The first working day strictly after day n. */
  function NextWorkingDay(n: int): (r: int)
    ensures n < r <= n + 7 && IsWorkingDay(r)
    ensures forall k :: n < k < r ==> !IsWorkingDay(k)
  {
    WorkingDayWithinWeek(n);
    WorkingDays.NextWorkingDay(IsWorkingDay, n)
  }

  /**
   * The result of calculateDueDate(start, n) as a function: the start day when
   * n <= 0, and otherwise the day at which the number of working days after
   * start first reaches n.
   */
  function DueDate(start: int, n: int): (r: int)
    ensures n <= 0 ==> r == start
    ensures n >= 1 ==> start < r && IsWorkingDay(r)
    ensures n >= 0 ==> WorkingDays.WorkingDaysBetween(IsWorkingDay, start, r) == n
    ensures n >= 0 ==> forall k :: start <= k < r ==> WorkingDays.WorkingDaysBetween(IsWorkingDay, start, k) < n
  {
    EveryWeekHasWorkingDay();
    WorkingDays.DueDateCount(IsWorkingDay, start, if n >= 0 then n else 0);
    WorkingDays.DueDate(IsWorkingDay, start, n)
  }

  /** calculateDueDate(start, n + 1) is the first working day strictly after calculateDueDate(start, n). */
  lemma DueDateNext(start: int, n: nat)
    ensures DueDate(start, n + 1) == NextWorkingDay(DueDate(start, n))
  {
    EveryWeekHasWorkingDay();
    WorkingDays.DueDateStep(IsWorkingDay, start, n);
  }

  /** Counting more working days ends strictly later. */
  lemma DueDateIncreasing(start: int, m: nat, n: nat)
    requires m < n
    ensures DueDate(start, m) < DueDate(start, n)
  {
    EveryWeekHasWorkingDay();
    WorkingDays.DueDateIncreasing(IsWorkingDay, start, m, n);
  }

  /** The loop's test: a day counts exactly when it is a working day. */
  lemma CountsExactlyWorkingDays(k: int)
    ensures var d := CivilFromDays(k);
      IsWorkingDay(k) <==> !(Weekday(k) == 0 || Weekday(k) == 6) && MonthDayKey(d.month, d.day) !in PhilippineHolidays
  {
    HolidayIsYearIndependent(k);
  }

  /**
   * One step of the loop: between the added-th and the next working day, the
   * day after currentDate either is the next working day, which is the due
   * date for added + 1, or still lies before it.
   */
  lemma LoopStep(start: int, added: nat, currentDate: int)
    requires DueDate(start, added) <= currentDate < NextWorkingDay(DueDate(start, added))
    ensures IsWorkingDay(currentDate + 1) ==>
      currentDate + 1 == DueDate(start, added + 1) < NextWorkingDay(DueDate(start, added + 1))
    ensures !IsWorkingDay(currentDate + 1) ==> currentDate + 1 < NextWorkingDay(DueDate(start, added))
  {
    DueDateNext(start, added);
  }

  /**
   * calculateDueDate: from the start day (already at midnight), step one
   * calendar day at a time and count each day that is neither a Saturday nor a
   * Sunday and whose "MM-DD" is not in the holiday table, until
   * workingDaysToAdd days have been counted.
   */
  method CalculateDueDate(startDate: int, workingDaysToAdd: int) returns (currentDate: int)
    ensures currentDate == DueDate(startDate, workingDaysToAdd)
  {
    currentDate := startDate;
    var addedDays := 0;
    while addedDays < workingDaysToAdd
      invariant 0 <= addedDays && (addedDays <= workingDaysToAdd || addedDays == 0)
      invariant DueDate(startDate, addedDays) <= currentDate < NextWorkingDay(DueDate(startDate, addedDays))
      invariant addedDays < workingDaysToAdd || currentDate == DueDate(startDate, addedDays)
      decreases workingDaysToAdd - addedDays, NextWorkingDay(DueDate(startDate, addedDays)) - currentDate
    {
      currentDate := currentDate + 1;
      var date := CivilFromDays(currentDate);
      var dayOfWeek := Weekday(currentDate);
      var month := PadLeft(NatToString(date.month), 2, '0');
      var day := PadLeft(NatToString(date.day), 2, '0');
      var monthDay := month + "-" + day;
      var isWeekend := dayOfWeek == 0 || dayOfWeek == 6;
      var isHoliday := monthDay in PhilippineHolidays;
      LoopStep(startDate, addedDays, currentDate - 1);
      CountsExactlyWorkingDays(currentDate);
      if !isWeekend && !isHoliday {
        addedDays := addedDays + 1;
      }
    }
  }
}
