/** Lists of distinct numbers below a bound. */
module Counting {
  import opened Sequences

  ghost predicate DistinctBelow(s: seq<int>, m: nat) {
    (forall i :: 0 <= i < |s| ==> 0 <= s[i] < m) && Distinct(s)
  }

  /** Distinct numbers below m are at most m many, and exactly m of them are all the numbers below m. */
  lemma {:induction false} Pigeonhole(s: seq<int>, m: nat)
    requires DistinctBelow(s, m)
    ensures |s| <= m
    ensures |s| == m ==> forall x :: 0 <= x < m ==> x in s
    decreases m
  {
    if |s| > 0 {
      assert s[0] < m;
      if k :| 0 <= k < |s| && s[k] == m - 1 {
        var t := s[..k] + s[k + 1..];
        Pigeonhole(t, m - 1);
        if |s| == m {
          forall x | 0 <= x < m ensures x in s {
            if x < m - 1 { assert x in t; }
          }
        }
      } else {
        Pigeonhole(s, m - 1);
      }
    }
  }

  /** A list of distinct numbers below m that misses none has length m. */
  lemma {:induction false} CompleteLength(s: seq<int>, m: nat)
    requires DistinctBelow(s, m)
    requires forall x :: 0 <= x < m ==> x in s
    ensures |s| == m
    decreases m
  {
    Pigeonhole(s, m);
    if m == 0 {
    } else {
      assert m - 1 in s;
      var k: nat :| k < |s| && s[k] == m - 1;
      var t := s[..k] + s[k + 1..];
      forall x | 0 <= x < m - 1 ensures x in t {
        assert x in s;
        var j: nat :| j < |s| && s[j] == x;
        assert j < k || (j > k && s[j] == t[j - 1]);
      }
      CompleteLength(t, m - 1);
    }
  }
}
