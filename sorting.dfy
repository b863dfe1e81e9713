/**
 * Ascending sort of a list of numbers, the effect of
 * `numbers.sort((a, b) => a - b)`. Any sorted permutation of a list is
 * the same sequence, so the sort algorithm chosen here does not affect
 * any result built on it.
 */
module Sorting {

  ghost predicate IsSorted(s: seq<real>)
  {
    forall i, j :: 0 <= i < j < |s| ==> s[i] <= s[j]
  }

  /** `s` with `x` placed before the first element not smaller than it. */
  function Insert(x: real, s: seq<real>): (r: seq<real>)
    requires IsSorted(s)
    ensures IsSorted(r)
    ensures multiset(r) == multiset(s) + multiset{x}
  {
    if s == [] || x <= s[0] then
      SortedCons(x, s);
      [x] + s
    else
      var rest := Insert(x, s[1..]);
      SortedTail(s);
      InsertAbove(x, s[1..], rest, s[0]);
      SortedCons(s[0], rest);
      ConsMultiset(s[0], rest, s[1..], x);
      [s[0]] + rest
  }

  /** Putting in front an element no larger than any other keeps a sequence sorted. */
  lemma SortedCons(x: real, s: seq<real>)
    requires IsSorted(s) && (s == [] || x <= s[0])
    ensures IsSorted([x] + s)
  {
    var r := [x] + s;
    forall i, j | 0 <= i < j < |r| ensures r[i] <= r[j] {
      if i > 0 {
        assert r[i] == s[i - 1] && r[j] == s[j - 1];
      } else {
        assert r[j] == s[j - 1];
      }
    }
  }

  /** A sequence built from a head and a tail holds the head and the tail's elements. */
  lemma ConsMultiset(h: real, rest: seq<real>, t: seq<real>, x: real)
    requires multiset(rest) == multiset(t) + multiset{x}
    ensures multiset([h] + rest) == multiset([h] + t) + multiset{x}
  {
  }

  /** Every element of a sequence with the elements of `s` and `x` is at least `lo` when they are. */
  lemma InsertAbove(x: real, s: seq<real>, r: seq<real>, lo: real)
    requires multiset(r) == multiset(s) + multiset{x}
    requires lo <= x && forall i :: 0 <= i < |s| ==> lo <= s[i]
    ensures forall i :: 0 <= i < |r| ==> lo <= r[i]
  {
    forall i | 0 <= i < |r| ensures lo <= r[i] {
      assert r[i] in multiset(r);
      if r[i] != x {
        assert r[i] in multiset(s);
      }
    }
  }

  /** The elements of `xs` in ascending order. */
  function Sort(xs: seq<real>): (r: seq<real>)
    ensures IsSorted(r)
    ensures multiset(r) == multiset(xs)
    ensures |r| == |xs|
  {
    if xs == [] then []
    else
      assert xs == [xs[0]] + xs[1..];
      Insert(xs[0], Sort(xs[1..]))
  }

  /** Sorted sequences with the same elements start with the same, smallest, element. */
  lemma SameHead(a: seq<real>, b: seq<real>)
    requires IsSorted(a) && IsSorted(b)
    requires multiset(a) == multiset(b) && a != []
    ensures b != [] && a[0] == b[0]
  {
    assert a[0] in multiset(b);
    var j :| 0 <= j < |b| && b[j] == a[0];
    assert b[0] in multiset(a);
    var k :| 0 <= k < |a| && a[k] == b[0];
  }

  /** Removing the head keeps a sequence sorted and removes one copy of the head from its elements. */
  lemma SortedTail(a: seq<real>)
    requires IsSorted(a) && a != []
    ensures IsSorted(a[1..])
    ensures multiset(a[1..]) == multiset(a) - multiset{a[0]}
  {
    assert a == [a[0]] + a[1..];
  }

  /** Two sequences that agree on the head and on the tail are equal. */
  lemma HeadTailEqual(a: seq<real>, b: seq<real>)
    requires a != [] && b != [] && a[0] == b[0] && a[1..] == b[1..]
    ensures a == b
  {
    assert a == [a[0]] + a[1..] && b == [b[0]] + b[1..];
  }

  /** Two sorted sequences with the same elements are equal. */
  lemma {:induction false} SortedPermutationUnique(a: seq<real>, b: seq<real>)
    requires IsSorted(a) && IsSorted(b)
    requires multiset(a) == multiset(b)
    ensures a == b
    decreases |a|
  {
    if a == [] {
      assert |b| == |multiset(b)| == 0;
    } else {
      SameHead(a, b);
      SortedTail(a);
      SortedTail(b);
      SortedPermutationUnique(a[1..], b[1..]);
      HeadTailEqual(a, b);
    }
  }
}
