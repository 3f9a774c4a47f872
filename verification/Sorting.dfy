/** Go's sort package, as insertion sort on sequences. */
module Sorting {
  import opened Seqs

  /** Equal elements keep their order: x goes before the first element it is less than. */
  function Insert<T>(x: T, s: seq<T>, less: (T, T) -> bool): seq<T> {
    if s == [] then [x]
    else if less(x, s[0]) then [x] + s
    else [s[0]] + Insert(x, s[1..], less)
  }

  function Sort<T>(s: seq<T>, less: (T, T) -> bool): seq<T> {
    if s == [] then [] else Insert(s[|s| - 1], Sort(s[..|s| - 1], less), less)
  }

  /** What less must be for sorting to make sense, on the elements of s. */
  ghost predicate Orders<T>(less: (T, T) -> bool, s: multiset<T>) {
    && (forall x, y :: x in s && y in s && less(x, y) ==> !less(y, x))
    && (forall x, y, z :: x in s && y in s && z in s && less(x, y) && !less(z, y) ==> less(x, z))
  }

  ghost predicate Sorted<T>(s: seq<T>, less: (T, T) -> bool) {
    forall i, j :: 0 <= i < j < |s| ==> !less(s[j], s[i])
  }

  lemma {:induction false} InsertPermutes<T>(x: T, s: seq<T>, less: (T, T) -> bool)
    ensures multiset(Insert(x, s, less)) == multiset(s) + multiset{x}
  {
    if s != [] && !less(x, s[0]) {
      InsertPermutes(x, s[1..], less);
      assert s == [s[0]] + s[1..];
    }
  }

  lemma {:induction false} SortPermutes<T>(s: seq<T>, less: (T, T) -> bool)
    ensures multiset(Sort(s, less)) == multiset(s)
    decreases |s|
  {
    if s != [] {
      SortPermutes(s[..|s| - 1], less);
      InsertPermutes(s[|s| - 1], Sort(s[..|s| - 1], less), less);
      assert s == s[..|s| - 1] + [s[|s| - 1]];
    }
  }

  /** Is no element of s before x? */
  ghost predicate NoneBefore<T>(s: seq<T>, x: T, less: (T, T) -> bool) {
    forall y :: y in s ==> !less(y, x)
  }

  lemma SortedCons<T>(x: T, s: seq<T>, less: (T, T) -> bool)
    ensures Sorted([x] + s, less) <==> NoneBefore(s, x, less) && Sorted(s, less)
  {
    var r := [x] + s;
    if Sorted(r, less) {
      forall y | y in s ensures !less(y, x) {
        var j :| 0 <= j < |s| && s[j] == y;
        assert r[j + 1] == y && r[0] == x;
      }
      assert forall i, j :: 0 <= i < j < |s| ==> s[i] == r[i + 1] && s[j] == r[j + 1];
    }
  }

  lemma InsertMembers<T>(x: T, s: seq<T>, less: (T, T) -> bool, y: T)
    ensures y in Insert(x, s, less) <==> y == x || y in s
  {
    InsertPermutes(x, s, less);
    assert y in Insert(x, s, less) <==> y in multiset(Insert(x, s, less));
  }

  lemma {:induction false} InsertSorted<T>(x: T, s: seq<T>, less: (T, T) -> bool)
    requires Orders(less, multiset(s) + multiset{x}) && Sorted(s, less)
    ensures Sorted(Insert(x, s, less), less)
  {
    if s != [] {
      var rest := s[1..];
      assert s == [s[0]] + rest;
      SortedCons(s[0], rest, less);
      if less(x, s[0]) {
        SortedCons(x, s, less);
        forall y | y in s ensures !less(y, x) {
          assert y in multiset(s) && s[0] in multiset(s);
        }
      } else {
        InsertSorted(x, rest, less);
        forall y | y in Insert(x, rest, less) ensures !less(y, s[0]) {
          InsertMembers(x, rest, less, y);
        }
        SortedCons(s[0], Insert(x, rest, less), less);
      }
    }
  }

  lemma {:induction false} SortSorted<T>(s: seq<T>, less: (T, T) -> bool)
    requires Orders(less, multiset(s))
    ensures Sorted(Sort(s, less), less)
    decreases |s|
  {
    if s != [] {
      var n := |s| - 1;
      assert s == s[..n] + [s[n]];
      SortSorted(s[..n], less);
      SortPermutes(s[..n], less);
      InsertSorted(s[n], Sort(s[..n], less), less);
    }
  }

  // Stability

  /** Does less leave the elements that satisfy p unordered among themselves? */
  ghost predicate Tied<T>(s: multiset<T>, p: T -> bool, less: (T, T) -> bool) {
    forall x, y :: x in s && y in s && p(x) && p(y) ==> !less(x, y)
  }

  lemma NoneTied<T>(x: T, s: seq<T>, less: (T, T) -> bool, p: T -> bool)
    requires Orders(less, multiset(s) + multiset{x}) && Sorted(s, less) && Tied(multiset(s) + multiset{x}, p, less)
    requires s != [] && less(x, s[0]) && p(x)
    ensures Filter(s, p) == []
  {
    forall y | y in s ensures less(x, y) {
      var j :| 0 <= j < |s| && s[j] == y;
      assert y in multiset(s) && s[0] in multiset(s);
    }
    forall y | y in s ensures !p(y) {
      assert y in multiset(s) && less(x, y);
    }
    FilterNone(s, p);
  }

  lemma {:induction false} FilterNone<T>(s: seq<T>, p: T -> bool)
    requires forall y :: y in s ==> !p(y)
    ensures Filter(s, p) == []
    decreases |s|
  {
    if s != [] {
      FilterNone(s[..|s| - 1], p);
      assert s[|s| - 1] in s;
    }
  }

  lemma FilterOne<T>(x: T, p: T -> bool)
    ensures Filter([x], p) == if p(x) then [x] else []
  {
    assert [] + [x] == [x];
    FilterAppend([], x, p);
  }

  lemma TailStays<T>(x: T, s: seq<T>, less: (T, T) -> bool, p: T -> bool)
    requires s != [] && Orders(less, multiset(s) + multiset{x}) && Sorted(s, less) && Tied(multiset(s) + multiset{x}, p, less)
    ensures Orders(less, multiset(s[1..]) + multiset{x}) && Sorted(s[1..], less) && Tied(multiset(s[1..]) + multiset{x}, p, less)
  {
    assert s == [s[0]] + s[1..];
  }

  lemma {:induction false} InsertStable<T>(x: T, s: seq<T>, less: (T, T) -> bool, p: T -> bool)
    requires Orders(less, multiset(s) + multiset{x}) && Sorted(s, less) && Tied(multiset(s) + multiset{x}, p, less)
    ensures Filter(Insert(x, s, less), p) == Filter(s, p) + if p(x) then [x] else []
  {
    hide Filter, Orders, Sorted, Tied;
    FilterOne(x, p);
    if s == [] {
      FilterNone(s, p);
    } else if less(x, s[0]) {
      FilterSplit([x], s, p);
      if p(x) {
        NoneTied(x, s, less, p);
      }
    } else {
      var rest := s[1..];
      TailStays(x, s, less, p);
      InsertStable(x, rest, less, p);
      FilterSplit([s[0]], rest, p);
      FilterSplit([s[0]], Insert(x, rest, less), p);
      assert s == [s[0]] + rest;
    }
  }

  /** Elements that less does not tell apart keep the order they had. */
  lemma {:induction false} SortStable<T>(s: seq<T>, less: (T, T) -> bool, p: T -> bool)
    requires Orders(less, multiset(s)) && Tied(multiset(s), p, less)
    ensures Filter(Sort(s, less), p) == Filter(s, p)
    decreases |s|
  {
    if s != [] {
      var n := |s| - 1;
      assert s == s[..n] + [s[n]];
      SortStable(s[..n], less, p);
      SortSorted(s[..n], less);
      SortPermutes(s[..n], less);
      InsertStable(s[n], Sort(s[..n], less), less, p);
    }
  }

  // Sorting distinct elements under a total order

  ghost predicate Distinct<T>(s: seq<T>) {
    forall i, j :: 0 <= i < j < |s| ==> s[i] != s[j]
  }

  ghost predicate StrictlySorted<T>(s: seq<T>, less: (T, T) -> bool) {
    forall i, j :: 0 <= i < j < |s| ==> less(s[i], s[j])
  }

  lemma {:induction false} AtMostOnce<T>(s: seq<T>, x: T)
    requires Distinct(s)
    ensures multiset(s)[x] <= 1
    decreases |s|
  {
    if s != [] {
      assert s == s[..|s| - 1] + [s[|s| - 1]];
      AtMostOnce(s[..|s| - 1], x);
      if s[|s| - 1] == x {
        assert x !in s[..|s| - 1];
      }
    }
  }

  lemma Twice<T>(s: seq<T>, i: nat, j: nat)
    requires i < j < |s| && s[i] == s[j]
    ensures multiset(s)[s[i]] >= 2
  {
    assert s == s[..i] + [s[i]] + s[i + 1..j] + [s[j]] + s[j + 1..];
  }

  lemma SortMembers<T>(s: seq<T>, less: (T, T) -> bool, x: T)
    ensures x in Sort(s, less) <==> x in s
  {
    SortPermutes(s, less);
    assert x in Sort(s, less) <==> x in multiset(Sort(s, less));
  }

  lemma SortStrictly<T>(s: seq<T>, less: (T, T) -> bool)
    requires Orders(less, multiset(s)) && Distinct(s)
    requires forall x, y :: x in s && y in s && x != y ==> less(x, y) || less(y, x)
    ensures StrictlySorted(Sort(s, less), less)
    ensures forall x :: x in Sort(s, less) <==> x in s
  {
    var r := Sort(s, less);
    forall x ensures x in r <==> x in s {
      SortMembers(s, less, x);
    }
    SortSorted(s, less);
    SortPermutes(s, less);
    forall i, j | 0 <= i < j < |r| ensures less(r[i], r[j]) {
      assert r[i] in s && r[j] in s && !less(r[j], r[i]);
      if r[i] == r[j] {
        Twice(r, i, j);
        AtMostOnce(s, r[i]);
      }
    }
  }

  /** Two strictly sorted sequences with the same elements are the same sequence. */
  lemma {:induction false} StrictlySortedUnique<T>(a: seq<T>, b: seq<T>, less: (T, T) -> bool)
    requires StrictlySorted(a, less) && StrictlySorted(b, less)
    requires forall x :: x in a <==> x in b
    requires forall x, y :: x in a && y in a && less(x, y) ==> !less(y, x)
    ensures a == b
    decreases |a|
  {
    assert (a == [] || a[0] in a) && (b == [] || b[0] in b);
    if a != [] && b != [] {
      SameFirst(a, b, less);
      forall x ensures x in a[1..] <==> x in b[1..] {
        assert x in a <==> x == a[0] || x in a[1..];
        assert x in b <==> x == b[0] || x in b[1..];
      }
      StrictlySortedUnique(a[1..], b[1..], less);
      assert a == [a[0]] + a[1..] && b == [b[0]] + b[1..];
    }
  }

  lemma SameFirst<T>(a: seq<T>, b: seq<T>, less: (T, T) -> bool)
    requires a != [] && b != [] && StrictlySorted(a, less) && StrictlySorted(b, less)
    requires forall x :: x in a <==> x in b
    requires forall x, y :: x in a && y in a && less(x, y) ==> !less(y, x)
    ensures a[0] == b[0]
    ensures a[0] !in a[1..] && b[0] !in b[1..]
  {
    assert a[0] in b && b[0] in a;
    assert forall k :: 0 < k < |a| ==> less(a[0], a[k]) && a[k] in a;
    assert forall k :: 0 < k < |b| ==> less(b[0], b[k]) && b[k] in b;
  }
}
