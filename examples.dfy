/** The worked examples of the statistics, checked against the model's definitions. */
module Examples {
  import opened NumberLists
  import opened Sorting
  import opened Statistics
  import opened ModeScan

  /** The median of 1, 2, 3 is its middle element 2. */
  lemma MedianOddExample(xs: seq<real>)
    requires xs == [1.0, 2.0, 3.0]
    ensures Median(xs) == 2.0
  {
    assert IsSorted(xs) by {
      assert forall i :: 0 <= i < |xs| ==> xs[i] == (i + 1) as real;
    }
    assert Middle(xs) == 2.0 by {
      assert |xs| == 3 && xs[1] == 2.0;
    }
    MedianOfSorted(xs);
  }

  /** The median of 1, 2, 3, 4 is the average 2.5 of its two middle elements. */
  lemma MedianEvenExample(xs: seq<real>)
    requires xs == [1.0, 2.0, 3.0, 4.0]
    ensures Median(xs) == 2.5
  {
    assert IsSorted(xs) by {
      assert forall i :: 0 <= i < |xs| ==> xs[i] == (i + 1) as real;
    }
    assert Middle(xs) == 2.5 by {
      assert |xs| == 4 && xs[1] + xs[2] == 5.0;
    }
    MedianOfSorted(xs);
  }

  /** For 4, 8, 4, 2 the mean is 4.5. */
  lemma MeanExample(xs: seq<real>)
    requires xs == [4.0, 8.0, 4.0, 2.0]
    ensures Mean(xs) == 4.5
  {
    var p1 := [] + [xs[0]];
    var p2 := p1 + [xs[1]];
    var p3 := p2 + [xs[2]];
    assert p3 + [xs[3]] == xs;
    SumAppend([], xs[0]);
    SumAppend(p1, xs[1]);
    SumAppend(p2, xs[2]);
    SumAppend(p3, xs[3]);
    assert Sum(xs) == 18.0;
  }

  /** For 4, 8, 4, 2 the median is 4, the average of the middle elements 4 and 4. */
  lemma MedianExample(xs: seq<real>)
    requires xs == [4.0, 8.0, 4.0, 2.0]
    ensures Median(xs) == 4.0
  {
    var sorted := [xs[3], xs[0], xs[2], xs[1]];
    assert sorted[0] == 2.0 && sorted[1] == 4.0 && sorted[2] == 4.0 && sorted[3] == 8.0;
    assert IsSorted(sorted);
    assert multiset(xs) == multiset(sorted);
    assert Middle(sorted) == 4.0 by {
      assert |sorted| == 4 && sorted[1] + sorted[2] == 8.0;
    }
    MedianOfSortedPermutation(xs, sorted);
  }

  /** How often each value occurs in 4, 8, 4, 2. */
  lemma CountsOfSample(xs: seq<real>, x: real)
    requires xs == [4.0, 8.0, 4.0, 2.0]
    ensures Occurrences(xs, x) == (if x == 4.0 then 2 else 0) + (if x == 8.0 || x == 2.0 then 1 else 0)
  {
    assert xs[..0] + [xs[0]] == xs[..1] && xs[..1] + [xs[1]] == xs[..2];
    assert xs[..2] + [xs[2]] == xs[..3] && xs[..3] + [xs[3]] == xs;
    OccurrencesAppend(xs[..0], xs[0], x);
    OccurrencesAppend(xs[..1], xs[1], x);
    OccurrencesAppend(xs[..2], xs[2], x);
    OccurrencesAppend(xs[..3], xs[3], x);
  }

  /** For 4, 8, 4, 2 the only mode is 4. */
  lemma ModeExample(xs: seq<real>, modes: seq<real>)
    requires xs == [4.0, 8.0, 4.0, 2.0] && IsModeResult(xs, modes)
    ensures modes == [4.0]
  {
    forall x ensures Occurrences(xs, x) <= 2 {
      CountsOfSample(xs, x);
    }
    CountsOfSample(xs, 4.0);
    assert MaxFrequency(xs) == 2;
    forall x ensures x in [4.0] <==> x in xs && Occurrences(xs, x) == 2 {
      CountsOfSample(xs, x);
    }
    ModeResultUnique(xs, modes, [4.0]);
  }

  /** How often each value occurs in 1, 1, 2, 2. */
  lemma CountsOfTiedSample(xs: seq<real>, x: real)
    requires xs == [1.0, 1.0, 2.0, 2.0]
    ensures Occurrences(xs, x) == if x == 1.0 || x == 2.0 then 2 else 0
  {
    assert xs[..0] + [xs[0]] == xs[..1] && xs[..1] + [xs[1]] == xs[..2];
    assert xs[..2] + [xs[2]] == xs[..3] && xs[..3] + [xs[3]] == xs;
    OccurrencesAppend(xs[..0], xs[0], x);
    OccurrencesAppend(xs[..1], xs[1], x);
    OccurrencesAppend(xs[..2], xs[2], x);
    OccurrencesAppend(xs[..3], xs[3], x);
  }

  /** In 1, 1, 2, 2 the value 1 reaches two occurrences at index 1 and the value 2 at index 3. */
  lemma RanksOfTiedSample(xs: seq<real>)
    requires xs == [1.0, 1.0, 2.0, 2.0]
    requires MaxFrequency(xs) == 2
    ensures Rank(xs, 1.0) == 1 && Rank(xs, 2.0) == 3
  {
    CountsOfTiedSample(xs, 1.0);
    CountsOfTiedSample(xs, 2.0);
    var one := FirstReach(xs, 1.0, 2);
    assert one == 1 by {
      if one == 0 {
        assert xs[..1] == [1.0];
        OccurrencesAppend([], 1.0, 1.0);
      }
    }
    var two := FirstReach(xs, 2.0, 2);
    assert two == 3;
  }

  /** For 1, 1, 2, 2 both values are modes, 1 first because it reached two occurrences first. */
  lemma TiedModeExample(xs: seq<real>, modes: seq<real>)
    requires xs == [1.0, 1.0, 2.0, 2.0] && IsModeResult(xs, modes)
    ensures modes == [1.0, 2.0]
  {
    forall x ensures Occurrences(xs, x) <= 2 {
      CountsOfTiedSample(xs, x);
    }
    CountsOfTiedSample(xs, 1.0);
    assert MaxFrequency(xs) == 2;
    forall x ensures x in [1.0, 2.0] <==> x in xs && Occurrences(xs, x) == 2 {
      CountsOfTiedSample(xs, x);
    }
    RanksOfTiedSample(xs);
    ModeResultUnique(xs, modes, [1.0, 2.0]);
  }
}
