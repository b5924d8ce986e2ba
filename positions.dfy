/** Where a text sits inside a larger text: the writer's output is laid out
    piece by piece, and the parser reads it back position by position. */
module Positions {
  /** `t` occurs in `s` at position `i`. */
  predicate At(s: string, i: nat, t: string)
    decreases |t|
  {
    i + |t| <= |s| && (t == [] || (s[i] == t[0] && At(s, i + 1, t[1..])))
  }

  /** Position `j` ends a token that stops at `stops`. */
  predicate Ends(s: string, j: nat, stops: set<char>)
  {
    j == |s| || (j < |s| && s[j] in stops)
  }

  lemma {:induction false} AtIndex(s: string, i: nat, t: string, k: nat)
    requires At(s, i, t) && k < |t|
    ensures s[i + k] == t[k]
    decreases k
  {
    if k > 0 {
      AtIndex(s, i + 1, t[1..], k - 1);
    }
  }

  lemma {:induction false} AtConcat(s: string, i: nat, a: string, b: string)
    requires At(s, i, a + b)
    ensures At(s, i, a) && At(s, i + |a|, b)
    decreases |a|
  {
    if a == [] {
      assert a + b == b;
    } else {
      assert (a + b)[1..] == a[1..] + b;
      AtConcat(s, i + 1, a[1..], b);
    }
  }

  lemma AtSlice(s: string, i: nat, t: string)
    requires At(s, i, t)
    ensures s[i..i + |t|] == t
  {
    var u := s[i..i + |t|];
    forall k | 0 <= k < |t|
      ensures u[k] == t[k]
    {
      AtIndex(s, i, t, k);
    }
  }

  /** Every text sits in itself at its start. */
  lemma {:induction false} AtSuffix(s: string, i: nat)
    requires i <= |s|
    ensures At(s, i, s[i..])
    decreases |s| - i
  {
    if i < |s| {
      AtSuffix(s, i + 1);
      assert s[i..][1..] == s[i + 1..];
    }
  }
}
