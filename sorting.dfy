/**
 * The ordering the LINQ queries apply (`OrderBy`, `OrderByDescending`
 * followed by `ThenByDescending`), as an insertion sort parameterised by
 * a strict "comes before" relation. Every key the service sorts by is
 * unique, so the stable LINQ sort and this sort agree: a sorted
 * permutation of a sequence is unique (SortedPermutationIsUnique).
 */
module Sorting {

  /** `before` never relates an element to itself. */
  ghost predicate Irreflexive<T(!new)>(before: (T, T) -> bool)
  {
    forall a :: !before(a, a)
  }

  ghost predicate Transitive<T(!new)>(before: (T, T) -> bool)
  {
    forall a, b, c :: before(a, b) && before(b, c) ==> before(a, c)
  }

  /** Any two different elements of `s` are ordered one way or the other. */
  ghost predicate Connected<T>(before: (T, T) -> bool, s: seq<T>)
  {
    forall i, j :: 0 <= i < |s| && 0 <= j < |s| && s[i] != s[j] ==>
      before(s[i], s[j]) || before(s[j], s[i])
  }

  /** No element occurs twice. */
  predicate Distinct<T(==)>(s: seq<T>)
  {
    forall i, j :: 0 <= i < j < |s| ==> s[i] != s[j]
  }

  /** Every element comes strictly before every later one. */
  predicate SortedBy<T>(before: (T, T) -> bool, s: seq<T>)
  {
    forall i, j :: 0 <= i < j < |s| ==> before(s[i], s[j])
  }

  /** Places `x` in front of the first element it comes before. */
  function Insert<T(!new)>(x: T, s: seq<T>, before: (T, T) -> bool): (r: seq<T>)
    ensures multiset(r) == multiset(s) + multiset{x}
    ensures forall y :: y in r <==> y == x || y in s
  {
    if s == [] || before(x, s[0]) then [x] + s
    else
      assert s == [s[0]] + s[1..];
      [s[0]] + Insert(x, s[1..], before)
  }

  function InsertionSort<T(!new)>(s: seq<T>, before: (T, T) -> bool): (r: seq<T>)
    ensures multiset(r) == multiset(s)
    ensures forall y :: y in r <==> y in s
  {
    if s == [] then []
    else
      assert s == [s[0]] + s[1..];
      Insert(s[0], InsertionSort(s[1..], before), before)
  }

  lemma {:induction false} InsertSorted<T(!new)>(x: T, s: seq<T>, before: (T, T) -> bool)
    requires Transitive(before)
    requires SortedBy(before, s) && x !in s
    requires forall y :: y in s ==> before(x, y) || before(y, x)
    ensures SortedBy(before, Insert(x, s, before))
  {
    if s == [] || before(x, s[0]) {
      var r := [x] + s;
      forall i, j | 0 <= i < j < |r| ensures before(r[i], r[j]) {
        if i == 0 && j > 1 {
          assert before(x, s[0]) && before(s[0], s[j - 1]);
        }
      }
    } else {
      assert before(s[0], x);
      InsertSorted(x, s[1..], before);
      var rest := Insert(x, s[1..], before);
      var r := [s[0]] + rest;
      forall i, j | 0 <= i < j < |r| ensures before(r[i], r[j]) {
        if i == 0 {
          assert r[j] in rest;
          if r[j] != x {
            assert r[j] in s[1..];
          }
        }
      }
    }
  }

  /** Insertion sort of a duplicate-free sequence over which `before` is total is sorted. */
  lemma {:induction false} SortIsSorted<T(!new)>(s: seq<T>, before: (T, T) -> bool)
    requires Transitive(before)
    requires Distinct(s) && Connected(before, s)
    ensures SortedBy(before, InsertionSort(s, before))
  {
    if s != [] {
      var tail := s[1..];
      assert Distinct(tail);
      assert Connected(before, tail) by {
        forall i, j | 0 <= i < |tail| && 0 <= j < |tail| && tail[i] != tail[j]
          ensures before(tail[i], tail[j]) || before(tail[j], tail[i])
        {
          assert tail[i] == s[i + 1] && tail[j] == s[j + 1];
        }
      }
      SortIsSorted(tail, before);
      var sorted := InsertionSort(tail, before);
      forall y | y in sorted ensures before(s[0], y) || before(y, s[0]) {
        var k :| 0 <= k < |tail| && tail[k] == y;
        assert s[k + 1] == y;
      }
      InsertSorted(s[0], sorted, before);
    }
  }

  /** The first elements of two sorted arrangements of the same elements agree. */
  lemma SortedHeadsAgree<T(!new)>(r1: seq<T>, r2: seq<T>, before: (T, T) -> bool)
    requires Irreflexive(before) && Transitive(before)
    requires SortedBy(before, r1) && SortedBy(before, r2)
    requires r1 != [] && r2 != []
    requires r1[0] in r2 && r2[0] in r1
    ensures r1[0] == r2[0]
  {
  }

  /**
   * Two sorted arrangements of the same elements are the same sequence:
   * the order does not depend on the order the rows were stored in.
   */
  lemma {:induction false} SortedPermutationIsUnique<T(!new)>(r1: seq<T>, r2: seq<T>, before: (T, T) -> bool)
    requires Irreflexive(before) && Transitive(before)
    requires SortedBy(before, r1) && SortedBy(before, r2)
    requires multiset(r1) == multiset(r2)
    ensures r1 == r2
  {
    if r1 == [] {
      assert |r2| == |multiset(r2)| == 0;
    } else {
      assert |r2| == |multiset(r2)| == |r1|;
      assert r1[0] in multiset(r2) && r2[0] in multiset(r1);
      SortedHeadsAgree(r1, r2, before);
      DropHead(r1, before);
      DropHead(r2, before);
      SortedPermutationIsUnique(r1[1..], r2[1..], before);
      assert r1 == [r1[0]] + r1[1..] && r2 == [r2[0]] + r2[1..];
    }
  }

  /** Dropping the first element of a sorted sequence leaves a sorted sequence of the others. */
  lemma DropHead<T>(r: seq<T>, before: (T, T) -> bool)
    requires r != [] && SortedBy(before, r)
    ensures SortedBy(before, r[1..])
    ensures multiset(r[1..]) == multiset(r) - multiset{r[0]}
  {
    assert r == [r[0]] + r[1..];
  }

  /** LINQ `Take(n)`: the first `n` elements, or all of them when there are fewer. */
  function Take<T>(s: seq<T>, n: nat): (r: seq<T>)
    ensures |r| == if n < |s| then n else |s|
    ensures r <= s
  {
    if n < |s| then s[..n] else s
  }

  /** In a duplicate-free sequence every element occurs exactly once. */
  lemma {:induction false} DistinctMultiplicity<T>(s: seq<T>)
    requires Distinct(s)
    ensures forall x :: multiset(s)[x] == if x in s then 1 else 0
  {
    if s != [] {
      assert s == [s[0]] + s[1..];
      DistinctMultiplicity(s[1..]);
      assert s[0] !in s[1..];
    }
  }

  /** Two duplicate-free sequences with the same elements are permutations of each other. */
  lemma SameElementsPermutation<T>(a: seq<T>, b: seq<T>)
    requires Distinct(a) && Distinct(b)
    requires forall x :: x in a <==> x in b
    ensures multiset(a) == multiset(b)
  {
    DistinctMultiplicity(a);
    DistinctMultiplicity(b);
    assert forall x :: multiset(a)[x] == multiset(b)[x];
  }
}
