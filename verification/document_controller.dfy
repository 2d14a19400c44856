/**
 * The two computations of the document controller that are more than database
 * plumbing: the next sequential zoning application number, and the twelve-month
 * table of document counts on the dashboard.
 *
 * The database is a parameter: the stored application numbers are a sequence of
 * strings, and the per-month grouped counts are a map from month to count. The
 * current year, which the server reads from the clock, is a parameter too.
 */
module DocumentController {
  import opened Wrappers
  import opened Text

  // ---------------------------------------------------------------------------
  // String order, as "ORDER BY ... DESC" ranks the stored numbers
  // ---------------------------------------------------------------------------

  /** a sorts strictly before b, character by character; a proper prefix sorts first. */
  predicate Before(a: string, b: string)
    decreases |a|
  {
    if a == [] then b != []
    else if b == [] then false
    else a[0] < b[0] || (a[0] == b[0] && Before(a[1..], b[1..]))
  }

  predicate AtMost(a: string, b: string) {
    a == b || Before(a, b)
  }

  lemma {:induction false} BeforeIrreflexive(a: string)
    ensures !Before(a, a)
    decreases |a|
  {
    if a != [] {
      BeforeIrreflexive(a[1..]);
    }
  }

  lemma {:induction false} BeforeTransitive(a: string, b: string, c: string)
    requires Before(a, b) && Before(b, c)
    ensures Before(a, c)
    decreases |a|
  {
    if a != [] && a[0] == b[0] && b[0] == c[0] {
      BeforeTransitive(a[1..], b[1..], c[1..]);
    }
  }

  /** Any two different strings are ordered one way or the other. */
  lemma {:induction false} BeforeTotal(a: string, b: string)
    requires a != b
    ensures Before(a, b) || Before(b, a)
    decreases |a|
  {
    if a != [] && b != [] && a[0] == b[0] {
      BeforeTotal(a[1..], b[1..]);
    }
  }

  /** Strings with a common prefix are ordered as what follows the prefix. */
  lemma {:induction false} BeforeAfterPrefix(p: string, a: string, b: string)
    ensures Before(p + a, p + b) <==> Before(a, b)
    decreases |p|
  {
    if p != [] {
      assert (p + a)[1..] == p[1..] + a && (p + b)[1..] == p[1..] + b;
      BeforeAfterPrefix(p[1..], a, b);
    } else {
      assert p + a == a && p + b == b;
    }
  }

  // ---------------------------------------------------------------------------
  // The latest stored number with a given prefix
  // ---------------------------------------------------------------------------

  /**
   * The stored number that a prefix match ordered descending returns first:
   * the greatest entry of store that starts with key, or None when no entry does.
   */
  function Latest(store: seq<string>, key: string): (r: Option<string>)
    ensures r.None? <==> forall s :: s in store ==> !(key <= s)
    ensures r.Some? ==> r.value in store && key <= r.value
    ensures r.Some? ==> forall s :: s in store && key <= s ==> AtMost(s, r.value)
  {
    if store == [] then None
    else
      var rest := Latest(store[..|store| - 1], key);
      var last := store[|store| - 1];
      assert store == store[..|store| - 1] + [last];
      assert forall s :: s in store ==> s in store[..|store| - 1] || s == last;
      assert last in store && (rest.Some? ==> rest.value in store);
      if !(key <= last) then rest
      else if rest.None? then Some(last)
      else if Before(rest.value, last) then
        assert forall s :: s in store[..|store| - 1] && key <= s ==> AtMost(s, last) by {
          forall s | s in store[..|store| - 1] && key <= s && Before(s, rest.value) {
            BeforeTransitive(s, rest.value, last);
          }
        }
        Some(last)
      else
        assert AtMost(last, rest.value) by {
          if last != rest.value {
            BeforeTotal(last, rest.value);
          }
        }
        rest
  }

  /** Entries that do not start with the key, such as numbers of other years, do not affect the result. */
  lemma LatestIgnoresOtherKeys(store: seq<string>, key: string, other: string)
    requires !(key <= other)
    ensures Latest(store + [other], key) == Latest(store, key)
  {
    assert (store + [other])[..|store|] == store;
  }

  /** Adding a number that sorts before the current latest one leaves the latest one in place. */
  lemma LatestKeepsGreater(store: seq<string>, key: string, latest: string, added: string)
    requires Latest(store, key) == Some(latest)
    requires Before(added, latest)
    ensures Latest(store + [added], key) == Some(latest)
  {
    assert (store + [added])[..|store|] == store;
    if Before(latest, added) {
      BeforeTransitive(latest, added, latest);
      BeforeIrreflexive(latest);
    }
  }

  // ---------------------------------------------------------------------------
  // getNextApplicationNo
  // ---------------------------------------------------------------------------

  /** The prefix of every application number; the title no longer selects one. */
  const Prefix: string := "LC"

  /**
   * The key that all numbers of the given year start with: the prefix LC, a
   * dash, the year and a dash. Nothing but the year varies, and the year reads
   * back from the key.
   */
  function SearchPrefix(year: int): (key: string)
    ensures |key| >= 5 && key[..3] == "LC-" && key[|key| - 1] == '-'
    ensures key[3..|key| - 1] == IntToString(year)
    ensures PhpIntVal(key[3..]) == year
  {
    KeyParts(IntToString(year));
    PhpIntValOfIntToString(year, "-");
    Prefix + "-" + IntToString(year) + "-"
  }

  /** The parts of "LC-" + digits + "-" are found back at their positions. */
  lemma KeyParts(digits: string)
    ensures var key := Prefix + "-" + digits + "-";
      |key| == |digits| + 4 && key[..3] == "LC-" && key[3..] == digits + "-" && key[3..|key| - 1] == digits
  {
    var key := Prefix + "-" + digits + "-";
    assert key == "LC-" + (digits + "-");
  }

  /** The number that follows a suffix value: one more, left-padded with zeros to at least four characters. */
  function NextSuffix(lastNumber: int): (r: string)
    ensures |r| >= 4
    ensures lastNumber >= -1 ==> PhpIntVal(r) == lastNumber + 1
  {
    if lastNumber + 1 >= 0 then
      PhpIntValOfPadded(lastNumber + 1, 4);
      PadLeft(NatToString(lastNumber + 1), 4, '0')
    else
      PadLeft(IntToString(lastNumber + 1), 4, '0')
  }

  /**
   * The next application number of the year: the key followed by 0001 when the
   * store holds no number with that key, and otherwise by one more than the
   * value of the last four characters of the latest such number.
   */
  function NextApplicationNo(store: seq<string>, year: int): (r: string)
    ensures SearchPrefix(year) <= r
    ensures Latest(store, SearchPrefix(year)).None? ==> r == SearchPrefix(year) + "0001"
    ensures Latest(store, SearchPrefix(year)).Some? ==>
      r == SearchPrefix(year) + NextSuffix(PhpIntVal(Last(Latest(store, SearchPrefix(year)).value, 4)))
  {
    var key := SearchPrefix(year);
    match Latest(store, key)
    case None => key + "0001"
    case Some(latest) => key + NextSuffix(PhpIntVal(Last(latest, 4)))
  }

  /** The decimal rendering of a number below 10^k has at most k digits. */
  lemma {:induction false} NatToStringShort(n: nat, k: nat)
    requires 1 <= k && n < Power10(k)
    ensures |NatToString(n)| <= k
  {
    if n >= 10 {
      NatToStringShort(n / 10, k - 1);
    }
  }

  function Power10(k: nat): (p: nat)
    ensures p >= 1
  {
    if k == 0 then 1 else 10 * Power10(k - 1)
  }

  /** A suffix value n up to 9998 is followed by exactly four digits that read back as n + 1. */
  lemma NextSuffixRoundTrip(n: int)
    requires 0 <= n <= 9998
    ensures |NextSuffix(n)| == 4
    ensures forall i :: 0 <= i < 4 ==> IsDigit(NextSuffix(n)[i])
    ensures PhpIntVal(Last(NextSuffix(n), 4)) == n + 1
  {
    var s := NatToString(n + 1);
    assert Power10(4) == 10000;
    NatToStringShort(n + 1, 4);
    PadLeftShape(s, 4, '0');
    PhpIntValOfPadded(n + 1, 4);
  }

  /** Numbers are handed out in sequence: the number after one with suffix n <= 9998 carries suffix n + 1. */
  lemma NextApplicationNoSequential(store: seq<string>, year: int, n: int)
    requires Latest(store, SearchPrefix(year)).Some?
    requires PhpIntVal(Last(Latest(store, SearchPrefix(year)).value, 4)) == n
    requires 0 <= n <= 9998
    ensures var r := NextApplicationNo(store, year);
      |r| == |SearchPrefix(year)| + 4 && PhpIntVal(Last(r, 4)) == n + 1
  {
    NextSuffixRoundTrip(n);
    var r := NextApplicationNo(store, year);
    assert Last(r, 4) == Last(NextSuffix(n), 4);
  }

  /** Padding never truncates: the number after suffix 9999 has the five-digit suffix 10000. */
  lemma NextSuffixAfter9999()
    ensures NextSuffix(9999) == "10000"
  {
    assert NatToString(10000) == "10000";
  }

  lemma TenThousandBeforeLast(key: string)
    ensures Before(key + "10000", key + "9999")
  {
    BeforeAfterPrefix(key, "10000", "9999");
  }

  /**
   * Once the year's latest number ends in 9999, every request yields the same
   * number ending in 10000: storing it does not change the latest number,
   * because "...10000" sorts before "...9999".
   */
  lemma NumbersStopAt10000(store: seq<string>, year: int)
    requires Latest(store, SearchPrefix(year)) == Some(SearchPrefix(year) + "9999")
    ensures NextApplicationNo(store, year) == SearchPrefix(year) + "10000"
    ensures NextApplicationNo(store + [NextApplicationNo(store, year)], year) == SearchPrefix(year) + "10000"
  {
    var key := SearchPrefix(year);
    SuffixValue9999(key);
    NextSuffixAfter9999();
    TenThousandBeforeLast(key);
    LatestKeepsGreater(store, key, key + "9999", key + "10000");
  }

  lemma SuffixValue9999(key: string)
    ensures PhpIntVal(Last(key + "9999", 4)) == 9999
  {
    assert Last(key + "9999", 4) == "9999";
    PhpIntValOfDigits("9999");
    assert DigitsValue("9") == 9 by { assert "9"[..0] == ""; }
    assert DigitsValue("99") == 99 by { assert "99"[..1] == "9"; }
    assert DigitsValue("999") == 999 by { assert "999"[..2] == "99"; }
    assert DigitsValue("9999") == 9999 by { assert "9999"[..3] == "999"; }
  }

  // ---------------------------------------------------------------------------
  // dashboard: documents per month of a year
  // ---------------------------------------------------------------------------

  datatype MonthCount = MonthCount(month: int, monthName: string, count: int)

  /** English month names, as Carbon's format('F') prints them. */
  const MonthNames: seq<string> := ["January", "February", "March", "April", "May", "June",
    "July", "August", "September", "October", "November", "December"]

  /**
   * The twelve entries of the dashboard's monthly table. rows holds the grouped
   * counts of the year's documents, keyed by month; a month without a row has no
   * documents.
   */
  method MonthlyCounts(rows: map<int, int>) returns (months: seq<MonthCount>)
    ensures |months| == 12
    ensures forall i :: 0 <= i < 12 ==> months[i].month == i + 1 && months[i].monthName == MonthNames[i]
    ensures forall i :: 0 <= i < 12 ==> months[i].count == if i + 1 in rows then rows[i + 1] else 0
  {
    months := [];
    var m := 1;
    while m <= 12
      invariant 1 <= m <= 13 && |months| == m - 1
      invariant forall i :: 0 <= i < m - 1 ==> months[i].month == i + 1 && months[i].monthName == MonthNames[i]
      invariant forall i :: 0 <= i < m - 1 ==> months[i].count == if i + 1 in rows then rows[i + 1] else 0
    {
      var count := if m in rows then rows[m] else 0;
      months := months + [MonthCount(m, MonthNames[m - 1], count)];
      m := m + 1;
    }
  }
}
