/**
 Substring search on strings, as Python's `sub in s` does it. The workers use
 it to recognise the failure strings the generators return.
 */
module Text {

  /** `p` is a prefix of `s`. */
  predicate IsPrefix(p: string, s: string)
  {
    |p| <= |s| && s[..|p|] == p
  }

  /** `sub` occurs in `s` starting at position `i`. */
  predicate OccursAt(s: string, sub: string, i: int)
  {
    0 <= i && i + |sub| <= |s| && s[i..i + |sub|] == sub
  }

  /** Python's `sub in s`: some position of `s` starts an occurrence of `sub`. */
  predicate Contains(s: string, sub: string)
    ensures Contains(s, sub) <==> exists i :: OccursAt(s, sub, i)
    decreases |s|
  {
    OccursShift(s, sub);
    IsPrefix(sub, s) || (|s| > 0 && Contains(s[1..], sub))
  }

  /** An occurrence at 0 is a prefix, and an occurrence further on is an
      occurrence in the tail, one position earlier. */
  lemma {:induction false} OccursShift(s: string, sub: string)
    ensures OccursAt(s, sub, 0) <==> IsPrefix(sub, s)
    ensures |s| > 0 ==> forall i :: 0 < i ==> (OccursAt(s, sub, i) <==> OccursAt(s[1..], sub, i - 1))
    ensures |s| > 0 ==> forall i :: OccursAt(s[1..], sub, i) ==> OccursAt(s, sub, i + 1)
  {
  }

  /** A string that starts with `p` contains `p`. */
  lemma PrefixIsContained(p: string, rest: string)
    ensures Contains(p + rest, p)
  {
    assert (p + rest)[..|p|] == p;
  }
}
