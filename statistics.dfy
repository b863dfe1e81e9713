/**
 * The two value-returning statistics over an already validated list:
 * the mean (sum divided by count) and the median (middle of the sorted
 * list, or the average of the two middle elements).
 */
module Statistics {
  import opened NumberLists
  import opened Sorting

  /** The sum of the list divided by its length. */
  function Mean(xs: seq<real>): (r: real)
    requires |xs| > 0
    ensures r * |xs| as real == Sum(xs)
    ensures Min(xs) <= r <= Max(xs)
  {
    var total, n := Sum(xs), |xs| as real;
    SumAtLeast(xs, Min(xs));
    SumAtMost(xs, Max(xs));
    MeanBetween(total, n, Min(xs), Max(xs));
    total / n
  }

  /** Dividing a total by a positive count keeps the per-element bounds. */
  lemma MeanBetween(total: real, n: real, lo: real, hi: real)
    requires n > 0.0
    requires n * lo <= total <= n * hi
    ensures lo <= total / n <= hi
    ensures total / n * n == total
  {
    var q := total / n;
    assert total == n * q;
  }

  /** Inserting `x` adds one to the count exactly when `x` passes the test. */
  lemma {:induction false} CountIfInsert(x: real, s: seq<real>, p: real -> bool)
    requires IsSorted(s)
    ensures CountIf(Insert(x, s), p) == CountIf(s, p) + (if p(x) then 1 else 0)
  {
    if s == [] || x <= s[0] {
      assert ([x] + s)[1..] == s;
    } else {
      CountIfInsert(x, s[1..], p);
      assert ([s[0]] + Insert(x, s[1..]))[1..] == Insert(x, s[1..]);
    }
  }

  /** Sorting does not change how many elements pass a test. */
  lemma {:induction false} CountIfSort(xs: seq<real>, p: real -> bool)
    ensures CountIf(Sort(xs), p) == CountIf(xs, p)
  {
    if xs != [] {
      CountIfSort(xs[1..], p);
      CountIfInsert(xs[0], Sort(xs[1..]), p);
    }
  }

  /**
   * The middle element of the sorted list when its length is odd, and the
   * average of the two middle elements when it is even. At least half of
   * the elements are at most the result and at least half are at least it.
   */
  function Median(xs: seq<real>): (r: real)
    requires |xs| > 0
    ensures Min(xs) <= r <= Max(xs)
    ensures 2 * CountIf(xs, AtMost(r)) >= |xs|
    ensures 2 * CountIf(xs, AtLeast(r)) >= |xs|
    ensures |xs| % 2 == 1 ==> r in xs
  {
    var r := Middle(Sort(xs));
    MedianSplits(xs, Sort(xs), r);
    r
  }

  /**
   * The median read off a sorted list: its middle element when the length
   * is odd, the average of its two middle elements when it is even.
   */
  function Middle(s: seq<real>): (r: real)
    requires |s| > 0
    ensures IsSorted(s) ==> s[(|s| - 1) / 2] <= r <= s[|s| / 2]
  {
    if |s| % 2 == 0 then (s[|s| / 2 - 1] + s[|s| / 2]) / 2.0 else s[|s| / 2]
  }

  /** The median of a list that is already sorted is read off the list itself. */
  lemma MedianOfSorted(xs: seq<real>)
    requires |xs| > 0 && IsSorted(xs)
    ensures Median(xs) == Middle(xs)
  {
    SortedPermutationUnique(Sort(xs), xs);
  }

  /** The median depends only on the elements, not on their order. */
  lemma MedianOfPermutation(xs: seq<real>, ys: seq<real>)
    requires |xs| > 0 && multiset(xs) == multiset(ys)
    ensures |ys| == |xs| && Median(xs) == Median(ys)
  {
    assert |ys| == |multiset(ys)|;
    SortedPermutationUnique(Sort(xs), Sort(ys));
    assert Median(xs) == Middle(Sort(xs));
  }

  /** The median is the middle of any sorted rearrangement of the list. */
  lemma MedianOfSortedPermutation(xs: seq<real>, s: seq<real>)
    requires |xs| > 0 && IsSorted(s) && multiset(s) == multiset(xs)
    ensures |s| == |xs| && Median(xs) == Middle(s)
  {
    MedianOfPermutation(xs, s);
    MedianOfSorted(s);
  }

  /** The median's bounds, proved on the sorted list and carried back to `xs`. */
  lemma MedianSplits(xs: seq<real>, s: seq<real>, r: real)
    requires |xs| > 0 && s == Sort(xs)
    requires r == Middle(s)
    ensures Min(xs) <= r <= Max(xs)
    ensures 2 * CountIf(xs, AtMost(r)) >= |xs|
    ensures 2 * CountIf(xs, AtLeast(r)) >= |xs|
    ensures |xs| % 2 == 1 ==> r in xs
  {
    var n, m := |s|, |s| / 2;
    var low := (n - 1) / 2;
    assert n - m == low + 1;
    SortedElementIn(xs, s, low);
    SortedElementIn(xs, s, m);
    HalfAtMost(s, r, low + 1);
    HalfAtLeast(s, r, m);
    CountIfSort(xs, AtMost(r));
    CountIfSort(xs, AtLeast(r));
  }

  /** Every element of the sorted list is an element of the list. */
  lemma SortedElementIn(xs: seq<real>, s: seq<real>, i: nat)
    requires s == Sort(xs) && i < |s|
    ensures s[i] in xs && Min(xs) <= s[i] <= Max(xs)
  {
    assert s[i] in multiset(s);
  }

  /** When the first `k` sorted elements are at most `r`, at least `k` elements are. */
  lemma HalfAtMost(s: seq<real>, r: real, k: nat)
    requires IsSorted(s) && 0 < k <= |s| && s[k - 1] <= r
    ensures CountIf(s, AtMost(r)) >= k
  {
    CountIfPrefix(s, AtMost(r), k);
  }

  /** When the sorted elements from index `k` on are at least `r`, at least `|s| - k` elements are. */
  lemma HalfAtLeast(s: seq<real>, r: real, k: nat)
    requires IsSorted(s) && k < |s| && r <= s[k]
    ensures CountIf(s, AtLeast(r)) >= |s| - k
  {
    CountIfSuffix(s, AtLeast(r), k);
  }
}
