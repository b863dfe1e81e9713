/**
 * Reductions over a parsed list of numbers that the statistics are stated
 * against: the left-to-right sum that `reduce` computes, the smallest and
 * largest element, and counts of the elements on one side of a bound.
 */
module NumberLists {

  /** The sum accumulated from the left, starting at 0, as `reduce((acc, curr) => acc + curr, 0)`. */
  function Sum(xs: seq<real>): real
  {
    if xs == [] then 0.0 else Sum(xs[..|xs| - 1]) + xs[|xs| - 1]
  }

  /** One more step of the reduction: appending `v` adds `v` to the sum. */
  lemma SumAppend(p: seq<real>, v: real)
    ensures Sum(p + [v]) == Sum(p) + v
  {
    assert (p + [v])[..|p|] == p;
  }

  /** The sum of a concatenation is the sum of the two parts: the order of accumulation does not matter over the reals. */
  lemma {:induction false} SumConcat(a: seq<real>, b: seq<real>)
    ensures Sum(a + b) == Sum(a) + Sum(b)
    decreases |b|
  {
    if b == [] {
      assert a + b == a;
    } else {
      var front := b[..|b| - 1];
      SumConcat(a, front);
      assert a + b == (a + front) + [b[|b| - 1]];
      SumAppend(a + front, b[|b| - 1]);
    }
  }

  /** The smallest element. */
  function Min(xs: seq<real>): (m: real)
    requires |xs| > 0
    ensures m in xs
    ensures forall i :: 0 <= i < |xs| ==> m <= xs[i]
  {
    if |xs| == 1 then xs[0]
    else
      var rest := Min(xs[..|xs| - 1]);
      assert xs == xs[..|xs| - 1] + [xs[|xs| - 1]];
      if xs[|xs| - 1] < rest then xs[|xs| - 1] else rest
  }

  /** The largest element. */
  function Max(xs: seq<real>): (m: real)
    requires |xs| > 0
    ensures m in xs
    ensures forall i :: 0 <= i < |xs| ==> xs[i] <= m
  {
    if |xs| == 1 then xs[0]
    else
      var rest := Max(xs[..|xs| - 1]);
      assert xs == xs[..|xs| - 1] + [xs[|xs| - 1]];
      if xs[|xs| - 1] > rest then xs[|xs| - 1] else rest
  }

  /** A sum of `n` numbers each at least `lo` is at least `n * lo`. */
  lemma {:induction false} SumAtLeast(xs: seq<real>, lo: real)
    requires forall i :: 0 <= i < |xs| ==> lo <= xs[i]
    ensures |xs| as real * lo <= Sum(xs)
  {
    if xs != [] {
      var front := xs[..|xs| - 1];
      SumAtLeast(front, lo);
      assert |xs| as real * lo == |front| as real * lo + lo;
    }
  }

  /** A sum of `n` numbers each at most `hi` is at most `n * hi`. */
  lemma {:induction false} SumAtMost(xs: seq<real>, hi: real)
    requires forall i :: 0 <= i < |xs| ==> xs[i] <= hi
    ensures Sum(xs) <= |xs| as real * hi
  {
    if xs != [] {
      var front := xs[..|xs| - 1];
      SumAtMost(front, hi);
      assert |xs| as real * hi == |front| as real * hi + hi;
    }
  }

  /** The number of elements that satisfy `p`. */
  function CountIf(xs: seq<real>, p: real -> bool): nat
  {
    if xs == [] then 0 else (if p(xs[0]) then 1 else 0) + CountIf(xs[1..], p)
  }

  /** The test "at most `bound`". */
  function AtMost(bound: real): real -> bool
  {
    y => y <= bound
  }

  /** The test "at least `bound`". */
  function AtLeast(bound: real): real -> bool
  {
    y => y >= bound
  }

  /** If the first `k` elements satisfy `p`, at least `k` elements do. */
  lemma {:induction false} CountIfPrefix(xs: seq<real>, p: real -> bool, k: nat)
    requires k <= |xs|
    requires forall i :: 0 <= i < k ==> p(xs[i])
    ensures CountIf(xs, p) >= k
  {
    if k > 0 {
      CountIfPrefix(xs[1..], p, k - 1);
    }
  }

  /** If every element from index `k` on satisfies `p`, at least `|xs| - k` elements do. */
  lemma {:induction false} CountIfSuffix(xs: seq<real>, p: real -> bool, k: nat)
    requires k <= |xs|
    requires forall i :: k <= i < |xs| ==> p(xs[i])
    ensures CountIf(xs, p) >= |xs| - k
  {
    if xs != [] {
      CountIfSuffix(xs[1..], p, if k > 0 then k - 1 else 0);
    }
  }
}
