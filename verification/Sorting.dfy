/** Stable sorting by a strict order, and `sorted` on integers. */
module Sorting {
  import opened Sequences

  ghost predicate StrictOrder<T(!new)>(less: (T, T) -> bool) {
    && (forall x :: !less(x, x))
    && (forall x, y, z :: less(x, y) && less(y, z) ==> less(x, z))
  }

  ghost predicate SortedBy<T>(s: seq<T>, less: (T, T) -> bool) {
    forall i, j | 0 <= i < j < |s| :: !less(s[j], s[i])
  }

  function InsertBy<T>(s: seq<T>, x: T, less: (T, T) -> bool): seq<T> {
    if s == [] || less(x, s[0]) then [x] + s else [s[0]] + InsertBy(s[1..], x, less)
  }

  function SortBy<T>(s: seq<T>, less: (T, T) -> bool): seq<T> {
    if s == [] then [] else InsertBy(SortBy(s[..|s| - 1], less), s[|s| - 1], less)
  }

  lemma {:induction false} InsertMembers<T>(s: seq<T>, x: T, less: (T, T) -> bool)
    ensures multiset(InsertBy(s, x, less)) == multiset(s) + multiset{x}
  {
    if s == [] || less(x, s[0]) {
    } else {
      InsertMembers(s[1..], x, less);
      assert s == [s[0]] + s[1..];
    }
  }

  lemma {:induction false} InsertSorted<T(!new)>(s: seq<T>, x: T, less: (T, T) -> bool)
    requires StrictOrder(less) && SortedBy(s, less)
    ensures SortedBy(InsertBy(s, x, less), less)
  {
    if s != [] && less(x, s[0]) {
      forall j | 0 <= j < |s|
        ensures !less(s[j], x)
      {
        var y, z := s[j], s[0];
        assert less(y, x) && less(x, z) ==> less(y, z);
      }
    } else if s != [] {
      InsertSorted(s[1..], x, less);
      InsertMembers(s[1..], x, less);
      var rest := InsertBy(s[1..], x, less);
      forall i | 0 <= i < |rest|
        ensures !less(rest[i], s[0])
      {
        assert rest[i] in multiset(rest);
      }
    }
  }

  lemma {:induction false} SortMembers<T>(s: seq<T>, less: (T, T) -> bool)
    ensures multiset(SortBy(s, less)) == multiset(s)
  {
    if s == [] {
    } else {
      SortMembers(s[..|s| - 1], less);
      InsertMembers(SortBy(s[..|s| - 1], less), s[|s| - 1], less);
      assert s == s[..|s| - 1] + [s[|s| - 1]];
    }
  }

  lemma {:induction false} SortOrders<T(!new)>(s: seq<T>, less: (T, T) -> bool)
    requires StrictOrder(less)
    ensures SortedBy(SortBy(s, less), less)
  {
    if s == [] {
    } else {
      SortOrders(s[..|s| - 1], less);
      InsertSorted(SortBy(s[..|s| - 1], less), s[|s| - 1], less);
    }
  }

  lemma {:induction false} InsertLast<T>(s: seq<T>, x: T, less: (T, T) -> bool)
    requires SortedBy(s + [x], less)
    ensures InsertBy(s, x, less) == s + [x]
  {
    if s == [] {
    } else {
      assert s[0] == (s + [x])[0] && x == (s + [x])[|s|];
      assert (s + [x])[1..] == s[1..] + [x];
      InsertLast(s[1..], x, less);
    }
  }

  /** Sorting leaves a sorted list as it is. */
  lemma {:induction false} SortBySorted<T>(s: seq<T>, less: (T, T) -> bool)
    requires SortedBy(s, less)
    ensures SortBy(s, less) == s
  {
    if s == [] {
    } else {
      SortBySorted(s[..|s| - 1], less);
      assert s == s[..|s| - 1] + [s[|s| - 1]];
      InsertLast(s[..|s| - 1], s[|s| - 1], less);
    }
  }

  // ----- Integers --------------------------------------------------------------------------------------

  const LESS: (int, int) -> bool := (a, b) => a < b

  predicate Sorted(s: seq<int>) {
    forall i, j | 0 <= i < j < |s| :: s[i] <= s[j]
  }

  function Sort(s: seq<int>): seq<int> {
    SortBy(s, LESS)
  }

  lemma SortFacts(s: seq<int>)
    ensures Sorted(Sort(s)) && multiset(Sort(s)) == multiset(s)
    ensures forall x :: x in Sort(s) <==> x in s
  {
    SortMembers(s, LESS);
    SortOrders(s, LESS);
    SameMembers(Sort(s), s);
  }

  lemma SortSorted(s: seq<int>)
    requires Sorted(s)
    ensures Sort(s) == s
  {
    SortBySorted(s, LESS);
  }
}
