/**
 * Splitting the `nums` parameter on commas, with the semantics of
 * JavaScript's `String.prototype.split(',')`: every comma separates two
 * tokens, tokens may be empty, and the empty string splits into one empty
 * token (never into zero tokens).
 */
module CommaSplit {

  /** The tokens of `s` between commas, in order. */
  function Split(s: string): (parts: seq<string>)
    ensures |parts| >= 1
    ensures forall i :: 0 <= i < |parts| ==> ',' !in parts[i]
    decreases |s|
  {
    if s == [] then [""]
    else
      var rest := Split(s[1..]);
      if s[0] == ',' then [""] + rest
      else [[s[0]] + rest[0]] + rest[1..]
  }

  /** The inverse of Split: the tokens glued back together with commas. */
  function Join(parts: seq<string>): string
    requires |parts| >= 1
  {
    if |parts| == 1 then parts[0] else parts[0] + "," + Join(parts[1..])
  }

  /** Joining the tokens of a split gives back the original string. */
  lemma {:induction false} JoinSplit(s: string)
    ensures Join(Split(s)) == s
    decreases |s|
  {
    if s != [] {
      JoinSplit(s[1..]);
      var rest := Split(s[1..]);
      if s[0] == ',' {
        JoinAfterEmpty(rest);
      } else {
        JoinExtendFirst(s[0], rest);
      }
      assert s == [s[0]] + s[1..];
    }
  }

  /** An empty first token contributes only its separating comma. */
  lemma JoinAfterEmpty(rest: seq<string>)
    requires |rest| >= 1
    ensures Join([""] + rest) == "," + Join(rest)
  {
    assert ([""] + rest)[1..] == rest;
  }

  /** Extending the first token by a character extends the join by that character. */
  lemma JoinExtendFirst(c: char, parts: seq<string>)
    requires |parts| >= 1
    ensures Join([[c] + parts[0]] + parts[1..]) == [c] + Join(parts)
  {
    var q := [[c] + parts[0]] + parts[1..];
    if |parts| == 1 {
      assert q == [[c] + parts[0]];
    } else {
      assert q[0] == [c] + parts[0] && q[1..] == parts[1..];
      var rest := Join(parts[1..]);
      calc {
        Join(q);
        ([c] + parts[0]) + "," + rest;
        { ConsAssoc(c, parts[0], ","); }
        ([c] + (parts[0] + ",")) + rest;
        { ConsAssoc(c, parts[0] + ",", rest); }
        [c] + (parts[0] + "," + rest);
      }
    }
  }

  /** Putting a character in front commutes with appending. */
  lemma ConsAssoc(c: char, p: string, t: string)
    ensures ([c] + p) + t == [c] + (p + t)
  {
  }

  /** A string without commas is a single token. */
  lemma {:induction false} SplitNoComma(w: string)
    requires ',' !in w
    ensures Split(w) == [w]
    decreases |w|
  {
    if w != [] {
      SplitNoComma(w[1..]);
      assert [w[0]] + w[1..] == w;
    }
  }

  /** A comma-free prefix followed by a comma becomes the first token. */
  lemma {:induction false} SplitAfterToken(w: string, t: string)
    requires ',' !in w
    ensures Split(w + "," + t) == [w] + Split(t)
    decreases |w|
  {
    if w == [] {
      assert w + "," + t == [','] + t;
      assert (w + "," + t)[1..] == t;
    } else {
      assert (w + "," + t)[1..] == w[1..] + "," + t;
      SplitAfterToken(w[1..], t);
      assert [w[0]] + w[1..] == w;
    }
  }

  /** Splitting a join of comma-free tokens gives back the tokens. */
  lemma {:induction false} SplitJoin(parts: seq<string>)
    requires |parts| >= 1
    requires forall i :: 0 <= i < |parts| ==> ',' !in parts[i]
    ensures Split(Join(parts)) == parts
    decreases |parts|
  {
    if |parts| == 1 {
      SplitNoComma(parts[0]);
    } else {
      SplitJoin(parts[1..]);
      SplitAfterToken(parts[0], Join(parts[1..]));
      assert parts == [parts[0]] + parts[1..];
    }
  }
}
