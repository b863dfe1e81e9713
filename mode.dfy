/**
 * The mode: one pass over the list that keeps a count per value, the
 * running maximum count, and the list of values currently at that maximum.
 * Its result is exactly the set of most frequent values, each once, in the
 * order in which each of them first reached the final maximum count.
 */
module ModeScan {

  /** How many times `x` occurs in `s`. */
  function Occurrences(s: seq<real>, x: real): nat
  {
    if s == [] then 0
    else Occurrences(s[..|s| - 1], x) + (if s[|s| - 1] == x then 1 else 0)
  }

  /** Appending `v` adds one occurrence of `v` and no other. */
  lemma OccurrencesAppend(p: seq<real>, v: real, x: real)
    ensures Occurrences(p + [v], x) == Occurrences(p, x) + (if v == x then 1 else 0)
  {
    assert (p + [v])[..|p|] == p;
  }

  /** A value occurs at least once exactly when it is in the list. */
  lemma {:induction false} OccursIffIn(s: seq<real>, x: real)
    ensures Occurrences(s, x) > 0 <==> x in s
  {
    if s != [] {
      var front := s[..|s| - 1];
      OccursIffIn(front, x);
      assert s == front + [s[|s| - 1]];
    }
  }

  /** The highest number of occurrences of any value (0 for the empty list). */
  function MaxFrequency(s: seq<real>): (m: nat)
    ensures forall x :: Occurrences(s, x) <= m
    ensures s == [] ==> m == 0
    ensures s != [] ==> exists i :: 0 <= i < |s| && Occurrences(s, s[i]) == m
  {
    if s == [] then 0
    else
      var front := s[..|s| - 1];
      var prev := MaxFrequency(front);
      var last := Occurrences(s, s[|s| - 1]);
      assert forall i :: 0 <= i < |front| ==> s[i] == front[i];
      if last > prev then last else prev
  }

  /** The index at which `x` occurs for the `c`-th time. */
  function FirstReach(s: seq<real>, x: real, c: nat): (r: nat)
    requires 1 <= c <= Occurrences(s, x)
    ensures r < |s| && s[r] == x
    ensures Occurrences(s[..r + 1], x) == c
    decreases |s|
  {
    var front := s[..|s| - 1];
    if Occurrences(front, x) >= c then
      var r := FirstReach(front, x, c);
      assert s[..r + 1] == front[..r + 1];
      r
    else
      assert s[..|s|] == s;
      |s| - 1
  }

  /**
   * For a most frequent value, the index at which it reached the highest
   * frequency; for every other value, the length of the list.
   */
  function Rank(s: seq<real>, x: real): nat
  {
    var m := MaxFrequency(s);
    if 1 <= m && Occurrences(s, x) == m then FirstReach(s, x, m) else |s|
  }

  /**
   * `modes` holds exactly the values of `xs` that occur the highest number
   * of times, ordered by the index at which each reached that number.
   */
  ghost predicate IsModeResult(xs: seq<real>, modes: seq<real>)
  {
    && (forall x :: x in modes <==> x in xs && Occurrences(xs, x) == MaxFrequency(xs))
    && (forall i, j :: 0 <= i < j < |modes| ==> Rank(xs, modes[i]) < Rank(xs, modes[j]))
  }

  /** A value already at the maximum keeps its rank when another value is appended. */
  lemma RankKept(p: seq<real>, v: real, x: real)
    requires MaxFrequency(p + [v]) == MaxFrequency(p) >= 1
    requires Occurrences(p, x) == MaxFrequency(p)
    requires x != v
    ensures Rank(p + [v], x) == Rank(p, x) < |p|
  {
    OccurrencesAppend(p, v, x);
    assert (p + [v])[..|p|] == p;
  }

  /** A value whose new occurrence reaches the maximum is ranked at that occurrence. */
  lemma RankNew(p: seq<real>, v: real)
    requires Occurrences(p + [v], v) == MaxFrequency(p + [v]) >= 1
    ensures Rank(p + [v], v) == |p|
  {
    OccurrencesAppend(p, v, v);
    assert (p + [v])[..|p|] == p;
  }

  /** `counts` maps each value of `p`, and nothing else, to its number of occurrences. */
  ghost predicate CountsAgree(p: seq<real>, counts: map<real, nat>)
  {
    && (forall x :: x in counts <==> x in p)
    && (forall x :: x in counts ==> counts[x] == Occurrences(p, x))
  }

  /** `modes` is ordered by the index at which each value reached the highest frequency of `p`. */
  ghost predicate RankedByReach(p: seq<real>, modes: seq<real>)
  {
    forall a, b :: 0 <= a < b < |modes| ==> Rank(p, modes[a]) < Rank(p, modes[b])
  }

  /**
   * What the scan knows after the prefix `p`: `counts` maps each value seen
   * to its number of occurrences, `maxCount` is the highest of them, and
   * `modes` lists the values at that count in the order they reached it.
   */
  ghost predicate ScanState(p: seq<real>, counts: map<real, nat>, maxCount: nat, modes: seq<real>)
  {
    && CountsAgree(p, counts)
    && maxCount == MaxFrequency(p)
    && (forall x :: x in modes <==> x in p && Occurrences(p, x) == maxCount)
    && RankedByReach(p, modes)
  }

  /** Counting `v` keeps the count map in step with the prefix. */
  lemma CountStep(p: seq<real>, v: real, counts: map<real, nat>, count: nat)
    requires CountsAgree(p, counts)
    requires count == (if v in counts then counts[v] else 0) + 1
    ensures count == Occurrences(p + [v], v)
    ensures CountsAgree(p + [v], counts[v := count])
  {
    OccursIffIn(p, v);
    OccurrencesAppend(p, v, v);
    forall x | x != v ensures Occurrences(p + [v], x) == Occurrences(p, x) {
      OccurrencesAppend(p, v, x);
    }
  }

  /** The highest frequency after `v` is the larger of the old one and the count of `v`. */
  lemma MaxStep(p: seq<real>, v: real)
    ensures MaxFrequency(p + [v]) == if Occurrences(p + [v], v) > MaxFrequency(p) then Occurrences(p + [v], v) else MaxFrequency(p)
  {
    assert (p + [v])[..|p|] == p;
  }

  /** The membership part of the scan state survives a step. */
  lemma ModesStep(p: seq<real>, v: real, maxCount: nat, modes: seq<real>,
                  count: nat, maxCount': nat, modes': seq<real>)
    requires maxCount == MaxFrequency(p)
    requires forall x :: x in modes <==> x in p && Occurrences(p, x) == maxCount
    requires count == Occurrences(p + [v], v)
    requires count > maxCount ==> modes' == [v] && maxCount' == count
    requires count == maxCount ==> modes' == modes + [v] && maxCount' == maxCount
    requires count < maxCount ==> modes' == modes && maxCount' == maxCount
    ensures maxCount' == MaxFrequency(p + [v])
    ensures forall x :: x in modes' <==> x in p + [v] && Occurrences(p + [v], x) == maxCount'
  {
    MaxStep(p, v);
    forall x | x != v ensures Occurrences(p + [v], x) == Occurrences(p, x) {
      OccurrencesAppend(p, v, x);
    }
  }

  /** The ordering part of the scan state survives a step. */
  lemma OrderStep(p: seq<real>, v: real, maxCount: nat, modes: seq<real>,
                  count: nat, modes': seq<real>)
    requires maxCount == MaxFrequency(p)
    requires forall x :: x in modes <==> x in p && Occurrences(p, x) == maxCount
    requires RankedByReach(p, modes)
    requires count == Occurrences(p + [v], v)
    requires count > maxCount ==> modes' == [v]
    requires count == maxCount ==> modes' == modes + [v]
    requires count < maxCount ==> modes' == modes
    ensures RankedByReach(p + [v], modes')
  {
    MaxStep(p, v);
    OccurrencesAppend(p, v, v);
    if count == maxCount {
      RankNew(p, v);
      forall x | x in modes ensures Rank(p + [v], x) == Rank(p, x) < |p| {
        RankKept(p, v, x);
      }
    } else if count < maxCount {
      forall x | x in modes ensures Rank(p + [v], x) == Rank(p, x) {
        RankKept(p, v, x);
      }
    }
  }

  /** One step of the scan: count `v`, then reset, extend or keep the list of modes. */
  lemma ScanStep(p: seq<real>, v: real, counts: map<real, nat>, maxCount: nat, modes: seq<real>,
                 count: nat, maxCount': nat, modes': seq<real>)
    requires ScanState(p, counts, maxCount, modes)
    requires count == (if v in counts then counts[v] else 0) + 1
    requires count > maxCount ==> modes' == [v] && maxCount' == count
    requires count == maxCount ==> modes' == modes + [v] && maxCount' == maxCount
    requires count < maxCount ==> modes' == modes && maxCount' == maxCount
    ensures ScanState(p + [v], counts[v := count], maxCount', modes')
  {
    CountStep(p, v, counts, count);
    ModesStep(p, v, maxCount, modes, count, maxCount', modes');
    OrderStep(p, v, maxCount, modes, count, modes');
  }

  /** The prefix one longer is the prefix followed by the next element. */
  lemma PrefixGrows(xs: seq<real>, i: nat)
    requires i < |xs|
    ensures xs[..i + 1] == xs[..i] + [xs[i]]
  {
  }

  /**
   * The mode scan: the list of most frequent values of `xs`. The second
   * postcondition states outright that no value is listed twice (it also
   * follows from the strict rank order of `IsModeResult`).
   */
  method Modes(xs: seq<real>) returns (modes: seq<real>)
    ensures IsModeResult(xs, modes)
    ensures forall i, j :: 0 <= i < j < |modes| ==> modes[i] != modes[j]
    ensures |xs| > 0 ==> |modes| > 0
  {
    var modeMap: map<real, nat> := map[];
    var maxCount: nat := 0;
    modes := [];
    for i := 0 to |xs|
      invariant ScanState(xs[..i], modeMap, maxCount, modes)
    {
      var num := xs[i];
      var count := (if num in modeMap then modeMap[num] else 0) + 1;
      ghost var oldMax, oldModes := maxCount, modes;
      if count > maxCount {
        modes := [num];
        maxCount := count;
      } else if count == maxCount {
        modes := modes + [num];
      }
      ScanStep(xs[..i], num, modeMap, oldMax, oldModes, count, maxCount, modes);
      modeMap := modeMap[num := count];
      PrefixGrows(xs, i);
    }
    assert xs[..|xs|] == xs;
    if |xs| > 0 {
      var k :| 0 <= k < |xs| && Occurrences(xs, xs[k]) == maxCount;
      assert xs[k] in modes;
    }
  }

  /** `a` is strictly increasing in `key`. */
  ghost predicate IncreasingBy(a: seq<real>, key: real -> nat)
  {
    forall i, j :: 0 <= i < j < |a| ==> key(a[i]) < key(a[j])
  }

  /** Every element of `a` is an element of `b`. */
  ghost predicate Within(a: seq<real>, b: seq<real>)
  {
    forall i :: 0 <= i < |a| ==> a[i] in b
  }

  /** Dropping the first element keeps the order. */
  lemma TailIncreasing(a: seq<real>, key: real -> nat)
    requires IncreasingBy(a, key) && a != []
    ensures IncreasingBy(a[1..], key)
  {
    forall i, j | 0 <= i < j < |a| - 1 ensures key(a[1..][i]) < key(a[1..][j]) {
      assert a[1..][i] == a[i + 1] && a[1..][j] == a[j + 1];
    }
  }

  /** The element with the smallest key comes first in both lists. */
  lemma HeadsEqual(a: seq<real>, b: seq<real>, key: real -> nat)
    requires IncreasingBy(a, key) && IncreasingBy(b, key)
    requires Within(a, b) && Within(b, a)
    requires a != [] && b != []
    ensures a[0] == b[0]
  {
    assert a[0] in b && b[0] in a;
    var j :| 0 <= j < |a| && a[j] == b[0];
    var k :| 0 <= k < |b| && b[k] == a[0];
    assert key(a[0]) <= key(a[j]);
    assert key(b[0]) <= key(b[k]);
  }

  /** With equal heads, the tails still hold each other's elements. */
  lemma TailWithin(a: seq<real>, b: seq<real>, key: real -> nat)
    requires IncreasingBy(a, key) && Within(a, b)
    requires a != [] && b != [] && a[0] == b[0]
    ensures Within(a[1..], b[1..])
  {
    forall j | 0 <= j < |a| - 1 ensures a[1..][j] in b[1..] {
      assert key(a[0]) < key(a[j + 1]);
      assert a[j + 1] in b;
      var k :| 0 <= k < |b| && b[k] == a[j + 1];
      assert k != 0 && b[1..][k - 1] == b[k];
    }
  }

  /** Two lists with the same elements, both strictly increasing in `key`, are equal. */
  lemma {:induction false} KeyOrderedListsEqual(a: seq<real>, b: seq<real>, key: real -> nat)
    requires IncreasingBy(a, key) && IncreasingBy(b, key)
    requires Within(a, b) && Within(b, a)
    ensures a == b
    decreases |a|
  {
    if |a| > 0 { assert a[0] in b; }
    if |b| > 0 { assert b[0] in a; }
    if a != [] {
      HeadsEqual(a, b, key);
      TailIncreasing(a, key);
      TailIncreasing(b, key);
      TailWithin(a, b, key);
      TailWithin(b, a, key);
      KeyOrderedListsEqual(a[1..], b[1..], key);
      assert a == [a[0]] + a[1..] && b == [b[0]] + b[1..];
    }
  }

  /** Two lists with the same elements, both ordered by rank, are equal. */
  lemma RankedListsEqual(xs: seq<real>, a: seq<real>, b: seq<real>)
    requires RankedByReach(xs, a) && RankedByReach(xs, b)
    requires forall x :: x in a <==> x in b
    ensures a == b
  {
    var key := x => Rank(xs, x);
    forall i | 0 <= i < |a| ensures a[i] in b { assert a[i] in a; }
    forall i | 0 <= i < |b| ensures b[i] in a { assert b[i] in b; }
    assert IncreasingBy(a, key) && IncreasingBy(b, key);
    KeyOrderedListsEqual(a, b, key);
  }

  /** The result of the mode scan is determined by the input alone. */
  lemma ModeResultUnique(xs: seq<real>, a: seq<real>, b: seq<real>)
    requires IsModeResult(xs, a) && IsModeResult(xs, b)
    ensures a == b
  {
    RankedListsEqual(xs, a, b);
  }

  /** In a list without repeated values every value occurs exactly once. */
  lemma {:induction false} DistinctOccursOnce(xs: seq<real>, x: real)
    requires forall i, j :: 0 <= i < j < |xs| ==> xs[i] != xs[j]
    ensures Occurrences(xs, x) == if x in xs then 1 else 0
  {
    if xs != [] {
      var front := xs[..|xs| - 1];
      DistinctOccursOnce(front, x);
      assert xs == front + [xs[|xs| - 1]];
      OccursIffIn(front, x);
    }
  }

  /** When every value is distinct, the modes are the whole list in input order. */
  lemma DistinctModes(xs: seq<real>, modes: seq<real>)
    requires forall i, j :: 0 <= i < j < |xs| ==> xs[i] != xs[j]
    requires IsModeResult(xs, modes)
    ensures modes == xs
  {
    forall x { DistinctOccursOnce(xs, x); }
    if xs != [] {
      assert MaxFrequency(xs) == 1 by {
        var k :| 0 <= k < |xs| && Occurrences(xs, xs[k]) == MaxFrequency(xs);
      }
      forall i | 0 <= i < |xs| ensures Rank(xs, xs[i]) == i {
        var r := FirstReach(xs, xs[i], 1);
      }
    }
    RankedListsEqual(xs, modes, xs);
  }
}
