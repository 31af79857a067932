/**
 * The LINQ operators the controllers compose their queries from, over
 * a table's rows in storage order (`OrderBy` and `Take` are in Sorting).
 */
module Linq {
  import opened Wrappers
  import opened Sorting

  /** `Where(p)`: the rows satisfying `p`. */
  function Where<T(!new)>(s: seq<T>, p: T -> bool): (r: seq<T>)
    ensures forall x :: x in r <==> x in s && p(x)
    ensures multiset(r) <= multiset(s)
    ensures |r| <= |s|
    ensures r == [] <==> !Any(s, p)
  {
    if s == [] then []
    else
      assert s == [s[0]] + s[1..];
      (if p(s[0]) then [s[0]] else []) + Where(s[1..], p)
  }

  /** `Any(p)`: some row satisfies `p`. */
  predicate Any<T>(s: seq<T>, p: T -> bool)
  {
    exists i :: 0 <= i < |s| && p(s[i])
  }

  /** `FirstOrDefault(p)`: the first row satisfying `p`, or null. */
  function FirstOrDefault<T>(s: seq<T>, p: T -> bool): (r: Option<T>)
    ensures r.Some? <==> Any(s, p)
    ensures r.Some? ==> r.value in s && p(r.value)
    ensures r.Some? ==> exists i :: 0 <= i < |s| && s[i] == r.value && forall j :: 0 <= j < i ==> !p(s[j])
  {
    if s == [] then None
    else if p(s[0]) then Some(s[0])
    else
      var r := FirstOrDefault(s[1..], p);
      assert r.Some? ==> exists i :: 0 <= i < |s| && s[i] == r.value && forall j :: 0 <= j < i ==> !p(s[j]) by {
        if r.Some? {
          var i :| 0 <= i < |s[1..]| && s[1..][i] == r.value && forall j :: 0 <= j < i ==> !p(s[1..][j]);
          assert s[i + 1] == r.value && forall j :: 0 <= j < i + 1 ==> !p(s[j]);
        }
      }
      r
  }

  /** `Select(f)`: the projection of every row, in order. */
  function Select<T, U>(s: seq<T>, f: T -> U): (r: seq<U>)
    ensures |r| == |s|
    ensures forall i :: 0 <= i < |s| ==> r[i] == f(s[i])
  {
    if s == [] then [] else [f(s[0])] + Select(s[1..], f)
  }

  /** Filtering keeps a duplicate-free sequence duplicate-free. */
  lemma {:induction false} WhereDistinct<T(!new)>(s: seq<T>, p: T -> bool)
    ensures Distinct(s) ==> Distinct(Where(s, p))
  {
    if s != [] && Distinct(s) {
      WhereDistinct(s[1..], p);
      var rest := Where(s[1..], p);
      if p(s[0]) {
        assert s[0] !in s[1..];
        assert Where(s, p) == [s[0]] + rest;
        ConsDistinct(s[0], rest);
      } else {
        assert Where(s, p) == rest;
      }
    }
  }

  /** `Where` keeps every occurrence of a row satisfying `p` and no occurrence of any other. */
  lemma {:induction false} WhereMultiplicity<T(!new)>(s: seq<T>, p: T -> bool, x: T)
    ensures multiset(Where(s, p))[x] == if p(x) then multiset(s)[x] else 0
  {
    if s != [] {
      assert s == [s[0]] + s[1..];
      WhereMultiplicity(s[1..], p, x);
    }
  }

  /** A row not yet in a duplicate-free sequence can be put in front of it. */
  lemma ConsDistinct<T>(x: T, t: seq<T>)
    requires Distinct(t) && x !in t
    ensures Distinct([x] + t)
  {
    var r := [x] + t;
    forall i, j | 0 <= i < j < |r| ensures r[i] != r[j] {
      if i == 0 {
        assert r[j] == t[j - 1];
      } else {
        assert r[i] == t[i - 1] && r[j] == t[j - 1];
      }
    }
  }

  /** Filtering out exactly one element of a duplicate-free sequence removes one occurrence of it. */
  lemma {:induction false} WhereDropsOne<T(!new)>(s: seq<T>, p: T -> bool, x: T)
    requires Distinct(s) && x in s && !p(x)
    requires forall y :: y in s && y != x ==> p(y)
    ensures multiset(Where(s, p)) == multiset(s) - multiset{x}
  {
    assert s == [s[0]] + s[1..];
    if s[0] == x {
      assert x !in s[1..];
      assert Where(s[1..], p) == s[1..] by {
        WhereKeepsAll(s[1..], p);
      }
    } else {
      WhereDropsOne(s[1..], p, x);
    }
  }

  /** Filtering by a condition every element meets changes nothing. */
  lemma {:induction false} WhereKeepsAll<T(!new)>(s: seq<T>, p: T -> bool)
    requires forall y :: y in s ==> p(y)
    ensures Where(s, p) == s
  {
    if s != [] {
      assert s == [s[0]] + s[1..];
      WhereKeepsAll(s[1..], p);
    }
  }

  /** Projection distributes over concatenation. */
  lemma SelectAppend<T, U>(a: seq<T>, b: seq<T>, f: T -> U)
    ensures Select(a + b, f) == Select(a, f) + Select(b, f)
  {
  }

  /** Projecting two orderings of the same rows gives two orderings of the same projections. */
  lemma {:induction false} SelectPermutation<T, U>(a: seq<T>, b: seq<T>, f: T -> U)
    requires multiset(a) == multiset(b)
    ensures multiset(Select(a, f)) == multiset(Select(b, f))
  {
    if a != [] {
      var x := a[0];
      var front, back := SplitAt(a, b);
      SelectPermutation(a[1..], front + back, f);
      assert a == [x] + a[1..];
      SelectCons(x, a[1..], f);
      SelectAround(front, x, back, f);
    }
  }

  /** Projecting a row put in front adds its projection. */
  lemma SelectCons<T, U>(x: T, t: seq<T>, f: T -> U)
    ensures multiset(Select([x] + t, f)) == multiset{f(x)} + multiset(Select(t, f))
  {
    SelectAppend([x], t, f);
  }

  /** Projecting a row put anywhere adds its projection. */
  lemma SelectAround<T, U>(front: seq<T>, x: T, back: seq<T>, f: T -> U)
    ensures multiset(Select(front + ([x] + back), f)) == multiset{f(x)} + multiset(Select(front + back, f))
  {
    SelectAppend(front, [x] + back, f);
    SelectAppend(front, back, f);
    SelectCons(x, back, f);
  }

  /** Where the head of `a` sits in its permutation `b`, and what surrounds it there. */
  lemma SplitAt<T>(a: seq<T>, b: seq<T>) returns (front: seq<T>, back: seq<T>)
    requires a != [] && multiset(a) == multiset(b)
    ensures b == front + ([a[0]] + back)
    ensures multiset(a[1..]) == multiset(front + back)
  {
    assert a[0] in multiset(b);
    var i :| 0 <= i < |b| && b[i] == a[0];
    front, back := b[..i], b[i + 1..];
    assert b == front + ([a[0]] + back);
    assert a == [a[0]] + a[1..];
    assert multiset(b) == multiset(front) + multiset{a[0]} + multiset(back);
    assert multiset(a) == multiset{a[0]} + multiset(a[1..]);
    calc {
      multiset(a[1..]);
      multiset(a) - multiset{a[0]};
      multiset(b) - multiset{a[0]};
      multiset(front) + multiset(back);
      multiset(front + back);
    }
  }
}
