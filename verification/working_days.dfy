/**
 * Counting working days forward from a start day.
 *
 * Which days are working days is a parameter here: any classification of day
 * numbers in which every seven consecutive days hold a working day. The due-date
 * calculator (module DateUtils) instantiates it with its weekend-and-holiday rule
 * and proves that rule meets the weekly condition.
 */
module WorkingDays {

  /** Some day of n+1..n+7 is a working day. */
  predicate WeekHasWorkingDay(working: int -> bool, n: int) {
    exists k :: n < k <= n + 7 && working(k)
  }

  ghost predicate EveryWeekHasWorkingDay(working: int -> bool) {
    forall n :: WeekHasWorkingDay(working, n)
  }

  /** The first working day of lo..hi, given that there is one. */
  function FirstWorkingDayFrom(working: int -> bool, lo: int, hi: int): (r: int)
    requires exists k :: lo <= k <= hi && working(k)
    ensures lo <= r <= hi && working(r)
    ensures forall k :: lo <= k < r ==> !working(k)
    decreases hi - lo
  {
    if working(lo) then lo else FirstWorkingDayFrom(working, lo + 1, hi)
  }

  /** The first working day strictly after day n. */
  function NextWorkingDay(working: int -> bool, n: int): (r: int)
    requires WeekHasWorkingDay(working, n)
    ensures n < r <= n + 7 && working(r)
    ensures forall k :: n < k < r ==> !working(k)
  {
    FirstWorkingDayFrom(working, n + 1, n + 7)
  }

  /**
   * The day reached by counting n working days after start; start itself when n <= 0.
   * (start in the decreases clause keeps the verifier from unrolling the recursion
   * all the way down when n is a literal such as 12.)
   */
  function DueDate(working: int -> bool, start: int, n: int): (r: int)
    requires EveryWeekHasWorkingDay(working)
    ensures n <= 0 ==> r == start
    ensures n >= 1 ==> start < r && working(r)
    decreases if n < 0 then 0 else n, start
  {
    if n <= 0 then start
    else
      var previous := DueDate(working, start, n - 1);
      assert WeekHasWorkingDay(working, previous);
      NextWorkingDay(working, previous)
  }

  /** Number of working days in the half-open range (a, b]. */
  function WorkingDaysBetween(working: int -> bool, a: int, b: int): (c: nat)
    ensures c <= if b > a then b - a else 0
    decreases b - a
  {
    if b <= a then 0 else WorkingDaysBetween(working, a, b - 1) + (if working(b) then 1 else 0)
  }

  /** Days that are not working days do not change the count. */
  lemma {:induction false} CountUnchanged(working: int -> bool, a: int, p: int, r: int)
    requires a <= p <= r
    requires forall k :: p < k <= r ==> !working(k)
    ensures WorkingDaysBetween(working, a, r) == WorkingDaysBetween(working, a, p)
    decreases r - p
  {
    if r > p {
      CountUnchanged(working, a, p, r - 1);
    }
  }

  /** The (n+1)-th working day is the first working day after the n-th one, at most a week later. */
  lemma DueDateStep(working: int -> bool, start: int, n: nat)
    requires EveryWeekHasWorkingDay(working)
    ensures var p, q := DueDate(working, start, n), DueDate(working, start, n + 1);
      p < q <= p + 7 && working(q) && forall k :: p < k < q ==> !working(k)
  {
    assert WeekHasWorkingDay(working, DueDate(working, start, n));
  }

  /** From the n-th to the (n+1)-th working day the count goes from n to n+1, and stays at n in between. */
  lemma CountStep(working: int -> bool, start: int, n: nat)
    requires EveryWeekHasWorkingDay(working)
    requires WorkingDaysBetween(working, start, DueDate(working, start, n)) == n
    ensures WorkingDaysBetween(working, start, DueDate(working, start, n + 1)) == n + 1
    ensures forall k :: DueDate(working, start, n) <= k < DueDate(working, start, n + 1) ==>
      WorkingDaysBetween(working, start, k) == n
  {
    var p, q := DueDate(working, start, n), DueDate(working, start, n + 1);
    DueDateStep(working, start, n);
    CountUnchanged(working, start, p, q - 1);
    forall k | p <= k < q
      ensures WorkingDaysBetween(working, start, k) == n
    {
      CountUnchanged(working, start, p, k);
    }
  }

  /**
   * Counting on from the m-th working day: the range (start, DueDate(start, n)]
   * holds n working days, and every day from DueDate(start, m) up to it fewer.
   */
  lemma {:induction false} CountFrom(working: int -> bool, start: int, m: nat, n: nat)
    requires EveryWeekHasWorkingDay(working) && m <= n
    requires WorkingDaysBetween(working, start, DueDate(working, start, m)) == m
    ensures WorkingDaysBetween(working, start, DueDate(working, start, n)) == n
    ensures forall k :: DueDate(working, start, m) <= k < DueDate(working, start, n) ==>
      WorkingDaysBetween(working, start, k) < n
    decreases n - m
  {
    if m < n {
      CountStep(working, start, m);
      CountFrom(working, start, m + 1, n);
    }
  }

  /**
   * Counting n >= 0 working days from start: the range (start, DueDate(start, n)]
   * holds exactly n working days, and every earlier day fewer, so the count
   * reaches n first at DueDate(start, n).
   */
  lemma DueDateCount(working: int -> bool, start: int, n: nat)
    requires EveryWeekHasWorkingDay(working)
    ensures WorkingDaysBetween(working, start, DueDate(working, start, n)) == n
    ensures forall k :: start <= k < DueDate(working, start, n) ==> WorkingDaysBetween(working, start, k) < n
  {
    CountFrom(working, start, 0, n);
  }

  /** Counting more working days ends strictly later. */
  lemma {:induction false} DueDateIncreasing(working: int -> bool, start: int, m: nat, n: nat)
    requires EveryWeekHasWorkingDay(working) && m < n
    ensures DueDate(working, start, m) < DueDate(working, start, n)
    decreases n - m
  {
    DueDateStep(working, start, m);
    if m + 1 < n {
      DueDateIncreasing(working, start, m + 1, n);
    }
  }
}
