/**
 * Operations on lists shared by the selection widgets: removing every
 * occurrence of a value (JavaScript's filter with !==), and the subsequence
 * order that filtering respects.
 */
module Lists {

  /** a is b with some elements left out, the rest in their original order. */
  predicate IsSubsequence<T(==,!new)>(a: seq<T>, b: seq<T>)
    decreases |b|
  {
    if a == [] then true
    else if b == [] then false
    else if a[0] == b[0] then IsSubsequence(a[1..], b[1..])
    else IsSubsequence(a, b[1..])
  }

  predicate NoDuplicates<T(==,!new)>(xs: seq<T>) {
    forall i, j :: 0 <= i < j < |xs| ==> xs[i] != xs[j]
  }

  /** xs without any occurrence of x. */
  function RemoveAll<T(==,!new)>(xs: seq<T>, x: T): (r: seq<T>)
    ensures x !in r
    ensures forall y :: y != x ==> (y in r <==> y in xs)
    ensures forall y :: y != x ==> multiset(r)[y] == multiset(xs)[y]
    ensures |r| == |xs| - multiset(xs)[x]
  {
    if xs == [] then []
    else
      var rest := RemoveAll(xs[1..], x);
      assert xs == [xs[0]] + xs[1..];
      if xs[0] == x then rest else [xs[0]] + rest
  }

  /** The list without x keeps the other elements in their original order. */
  lemma {:induction false} RemoveAllSubsequence<T(!new)>(xs: seq<T>, x: T)
    ensures IsSubsequence(RemoveAll(xs, x), xs)
  {
    if xs != [] {
      RemoveAllSubsequence(xs[1..], x);
      var r := RemoveAll(xs, x);
      if xs[0] == x {
        SubsequenceOfTail(r, xs);
      } else {
        assert r[1..] == RemoveAll(xs[1..], x);
      }
    }
  }

  /** Skipping the first element of b keeps a a subsequence. */
  lemma {:induction false} SubsequenceOfTail<T(!new)>(a: seq<T>, b: seq<T>)
    requires b != [] && IsSubsequence(a, b[1..])
    ensures IsSubsequence(a, b)
    decreases |b|, 0
  {
    if a != [] && a[0] == b[0] {
      SubsequenceDropFirst(a, b[1..]);
    }
  }

  /** Dropping the first element of a keeps it a subsequence. */
  lemma {:induction false} SubsequenceDropFirst<T(!new)>(a: seq<T>, b: seq<T>)
    requires a != [] && IsSubsequence(a, b)
    ensures IsSubsequence(a[1..], b)
    decreases |b|, 1
  {
    if a[0] == b[0] {
      if a[1..] != [] {
        SubsequenceOfTail(a[1..], b);
      }
    } else {
      SubsequenceDropFirst(a, b[1..]);
      if a[1..] != [] {
        SubsequenceOfTail(a[1..], b);
      }
    }
  }

  /** Removing a value that does not occur changes nothing. */
  lemma {:induction false} RemoveAllAbsent<T(!new)>(xs: seq<T>, x: T)
    requires x !in xs
    ensures RemoveAll(xs, x) == xs
  {
    if xs != [] {
      assert xs == [xs[0]] + xs[1..];
      RemoveAllAbsent(xs[1..], x);
    }
  }

  /** Removing x after appending x is the same as removing it from the original list. */
  lemma {:induction false} RemoveAllAppended<T(!new)>(xs: seq<T>, x: T)
    ensures RemoveAll(xs + [x], x) == RemoveAll(xs, x)
  {
    if xs != [] {
      assert (xs + [x])[1..] == xs[1..] + [x];
      RemoveAllAppended(xs[1..], x);
    } else {
      assert RemoveAll([x], x) == RemoveAll([x][1..], x);
    }
  }

  /** Removing a value keeps a list without duplicates free of them. */
  lemma {:induction false} RemoveAllNoDuplicates<T(!new)>(xs: seq<T>, x: T)
    requires NoDuplicates(xs)
    ensures NoDuplicates(RemoveAll(xs, x))
  {
    if xs != [] {
      assert NoDuplicates(xs[1..]);
      RemoveAllNoDuplicates(xs[1..], x);
      assert xs[0] !in xs[1..];
    }
  }
}
