/** Numeric ascending sort, the effect of `arr.sort((a, b) => a - b)` on a
    list of integers. */
module Sorting {

  predicate Sorted(s: seq<int>) {
    forall i, j :: 0 <= i < j < |s| ==> s[i] <= s[j]
  }

  /** Every element of a sorted list is at least its first one. */
  lemma HeadIsLeast(s: seq<int>, x: int)
    requires Sorted(s) && x in multiset(s)
    ensures s[0] <= x
  {
    assert x in s;
    var k :| 0 <= k < |s| && s[k] == x;
  }

  /** Every element of a sorted list is at most its last one. */
  lemma LastIsGreatest(s: seq<int>, x: int)
    requires Sorted(s) && x in multiset(s)
    ensures x <= s[|s| - 1]
  {
    assert x in s;
    var k :| 0 <= k < |s| && s[k] == x;
  }

  lemma SortedTail(s: seq<int>)
    requires Sorted(s) && |s| > 0
    ensures Sorted(s[1..])
  {
  }

  /** Removing the first element removes one copy of it. */
  lemma TailMultiset(s: seq<int>)
    requires |s| > 0
    ensures multiset(s[1..]) == multiset(s) - multiset{s[0]}
  {
    assert s == [s[0]] + s[1..];
  }

  /** A lower bound of every element of `u` bounds every element of a
      permutation `t` of `u`. */
  lemma BoundCarries(h: int, t: seq<int>, u: seq<int>)
    requires forall i :: 0 <= i < |u| ==> h <= u[i]
    requires multiset(t) == multiset(u)
    ensures forall i :: 0 <= i < |t| ==> h <= t[i]
  {
    forall i | 0 <= i < |t|
      ensures h <= t[i]
    {
      assert t[i] in multiset(u);
      assert t[i] in u;
      var k :| 0 <= k < |u| && u[k] == t[i];
    }
  }

  /** Places `x` before the first element not smaller than it. */
  function Insert(x: int, s: seq<int>): (r: seq<int>)
    requires Sorted(s)
    ensures Sorted(r)
    ensures multiset(r) == multiset(s) + multiset{x}
  {
    if |s| == 0 then [x]
    else if x <= s[0] then [x] + s
    else
      var tail := Insert(x, s[1..]);
      assert s == [s[0]] + s[1..];
      assert multiset(tail) == multiset(s[1..] + [x]);
      BoundCarries(s[0], tail, s[1..] + [x]);
      [s[0]] + tail
  }

  /** Insertion sort: the ascending permutation of `s`. */
  function Sort(s: seq<int>): (r: seq<int>)
    ensures Sorted(r)
    ensures multiset(r) == multiset(s)
  {
    if |s| == 0 then []
    else
      assert s == [s[0]] + s[1..];
      Insert(s[0], Sort(s[1..]))
  }

  /** The first element of a sorted permutation is a least element of the
      input and the last one a greatest. */
  lemma SortExtremes(s: seq<int>)
    requires |s| > 0
    ensures |Sort(s)| == |s|
    ensures Sort(s)[0] in s && Sort(s)[|s| - 1] in s
    ensures forall x :: x in s ==> Sort(s)[0] <= x <= Sort(s)[|s| - 1]
  {
    PermutationExtremes(Sort(s), s);
  }

  lemma PermutationExtremes(r: seq<int>, s: seq<int>)
    requires Sorted(r) && multiset(r) == multiset(s) && |s| > 0
    ensures |r| == |s|
    ensures r[0] in s && r[|s| - 1] in s
    ensures forall x :: x in s ==> r[0] <= x <= r[|s| - 1]
  {
    assert |r| == |s| by {
      assert |multiset(r)| == |multiset(s)|;
    }
    assert r[0] in multiset(r) && r[|r| - 1] in multiset(r);
    forall x | x in s
      ensures r[0] <= x <= r[|r| - 1]
    {
      assert x in multiset(r);
      HeadIsLeast(r, x);
      LastIsGreatest(r, x);
    }
  }

  /** There is only one ascending arrangement of a multiset of numbers, so
      the sorted result is determined by the input's elements alone. */
  lemma {:induction false} SortedUnique(a: seq<int>, b: seq<int>)
    requires Sorted(a) && Sorted(b) && multiset(a) == multiset(b)
    ensures a == b
  {
    assert |a| == |multiset(a)| == |multiset(b)| == |b|;
    if |a| > 0 {
      assert a[0] == b[0] by {
        assert a[0] in multiset(a) && b[0] in multiset(b);
        HeadIsLeast(b, a[0]);
        HeadIsLeast(a, b[0]);
      }
      assert multiset(a[1..]) == multiset(b[1..]) by {
        TailMultiset(a);
        TailMultiset(b);
      }
      SortedTail(a);
      SortedTail(b);
      SortedUnique(a[1..], b[1..]);
      assert a == [a[0]] + a[1..];
      assert b == [b[0]] + b[1..];
    }
  }

  /** Sorting yields the one ascending arrangement of the input. */
  lemma SortIsTheSortedPermutation(s: seq<int>, t: seq<int>)
    requires Sorted(t) && multiset(s) == multiset(t)
    ensures Sort(s) == t
  {
    SortedUnique(Sort(s), t);
  }
}
