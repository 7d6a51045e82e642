/** Sequences of numbers without repetition. */
module Sequences {
  ghost predicate Distinct(s: seq<nat>) {
    forall i, j :: 0 <= i < j < |s| ==> s[i] != s[j]
  }

  lemma {:induction false} DistinctIsBounded(s: seq<nat>, n: nat)
    requires Distinct(s) && forall v :: v in s ==> v < n
    ensures |s| <= n
  {
    if |s| > 0 {
      assert s[0] in s;
      if i :| 0 <= i < |s| && s[i] == n - 1 {
        var t := s[..i] + s[i + 1..];
        assert forall v :: v in t ==> v in s;
        DistinctIsBounded(t, n - 1);
      } else {
        DistinctIsBounded(s, n - 1);
      }
    }
  }
}
