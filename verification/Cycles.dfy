/** Single cycles, and how Sattolo's draws name them: each legal series of draws is one cycle, each cycle one series. */
module Cycles {
  import opened Counting
  import opened Sequences

  // ---- single cycles -------------------------------------------------------

  /** The index after k, round a circle of n. */
  function After(k: nat, n: nat): nat
    requires k < n
  {
    if k + 1 == n then 0 else k + 1
  }

  /** The index k steps after i, round a circle of n. */
  function Along(i: nat, k: nat, n: nat): nat
    requires i < n && k <= n
  {
    if i + k < n then i + k else i + k - n
  }

  /** c lists the n positions of the map a, each once, in the order in which a visits them. */
  ghost predicate CycleOf(a: seq<nat>, c: seq<nat>) {
    |c| == |a| > 0
    && (forall k :: 0 <= k < |c| ==> c[k] < |a|)
    && (forall j, k :: 0 <= j < k < |c| ==> c[j] != c[k])
    && (forall k :: 0 <= k < |c| ==> a[c[k]] == c[After(k, |c|)])
  }

  /** Following a from any position passes through all positions. */
  ghost predicate SingleCycle(a: seq<nat>) {
    exists c :: CycleOf(a, c)
  }

  /** The walk p = a[p], k times from x. */
  function Walk(a: seq<nat>, x: nat, k: nat): (p: nat)
    requires x < |a| && forall i :: 0 <= i < |a| ==> a[i] < |a|
    ensures p < |a|
  {
    if k == 0 then x else a[Walk(a, x, k - 1)]
  }

  lemma CycleCovers(a: seq<nat>, c: seq<nat>, x: nat)
    requires CycleOf(a, c) && x < |a|
    ensures x in c && a[x] < |a|
  {
    Pigeonhole(c, |a|);
    assert x in c;
    var k: nat :| k < |c| && c[k] == x;
  }

  lemma {:induction false} WalkFollows(a: seq<nat>, c: seq<nat>, i: nat, k: nat)
    requires CycleOf(a, c) && i < |c| && k <= |c|
    requires forall j :: 0 <= j < |a| ==> a[j] < |a|
    ensures Walk(a, c[i], k) == c[Along(i, k, |c|)]
  {
    if k == 0 {
    } else {
      WalkFollows(a, c, i, k - 1);
      var m := Along(i, k - 1, |c|);
      assert Along(i, k, |c|) == After(m, |c|);
      assert a[c[m]] == c[After(m, |c|)];
    }
  }

  /** Within |a| steps the walk from x is at y. */
  ghost predicate Reaches(a: seq<nat>, x: nat, y: nat)
    requires x < |a| && forall i :: 0 <= i < |a| ==> a[i] < |a|
  {
    exists k: nat :: k < |a| && Walk(a, x, k) == y
  }

  /** On a single cycle the walk from any start x returns to x after n steps, and within n steps it is at each
      position y exactly once. */
  lemma WalkVisitsAll(a: seq<nat>, x: nat)
    requires SingleCycle(a) && x < |a|
    ensures forall i :: 0 <= i < |a| ==> a[i] < |a|
    ensures Walk(a, x, |a|) == x
    ensures forall y: nat :: y < |a| ==> Reaches(a, x, y)
    ensures forall j: nat, k: nat :: j < k < |a| ==> Walk(a, x, j) != Walk(a, x, k)
  {
    var c :| CycleOf(a, c);
    var n := |a|;
    forall i | 0 <= i < n ensures a[i] < n { CycleCovers(a, c, i); }
    CycleCovers(a, c, x);
    var i: nat :| i < |c| && c[i] == x;
    WalkFollows(a, c, i, n);
    forall y: nat | y < n ensures Reaches(a, x, y) { CycleReaches(a, c, i, y); }
    forall j: nat, k: nat | j < k < n ensures Walk(a, x, j) != Walk(a, x, k) {
      WalkFollows(a, c, i, j);
      WalkFollows(a, c, i, k);
      assert Along(i, j, n) != Along(i, k, n);
    }
  }

  lemma CycleReaches(a: seq<nat>, c: seq<nat>, i: nat, y: nat)
    requires CycleOf(a, c) && i < |c| && y < |a|
    requires forall j :: 0 <= j < |a| ==> a[j] < |a|
    ensures Reaches(a, c[i], y)
  {
    CycleCovers(a, c, y);
    var j: nat :| j < |c| && c[j] == y;
    var k := if j >= i then j - i else j + |c| - i;
    WalkFollows(a, c, i, k);
  }

  ghost predicate Permutation(a: seq<nat>) {
    (forall i :: 0 <= i < |a| ==> a[i] < |a|) && Distinct(a)
  }

  lemma DifferentNext(a: seq<nat>, c: seq<nat>, x: nat, y: nat)
    requires CycleOf(a, c) && x < |a| && y < |a| && x != y
    ensures a[x] != a[y]
  {
    var k := PlaceInCycle(a, c, x);
    var l := PlaceInCycle(a, c, y);
    assert After(k, |c|) != After(l, |c|);
  }

  lemma PlaceInCycle(b: seq<nat>, c: seq<nat>, x: nat) returns (k: nat)
    requires CycleOf(b, c) && x < |b|
    ensures k < |c| && c[k] == x
  {
    CycleCovers(b, c, x);
    k :| k < |c| && c[k] == x;
  }

  lemma CycleIsPermutation(a: seq<nat>)
    requires SingleCycle(a)
    ensures Permutation(a)
  {
    var c :| CycleOf(a, c);
    hide CycleOf;
    forall x: nat | x < |a| ensures a[x] < |a| { CycleCovers(a, c, x); }
    forall x: nat, y: nat | x < y < |a| ensures a[x] != a[y] { DifferentNext(a, c, x, y); }
  }

  // ---- the outcome of the draws --------------------------------------------

  /** `picks[i]` is a draw from 0 .. i - 1; the first entry is never used. */
  predicate LegalPicks(picks: seq<nat>) {
    |picks| > 0 && forall i :: 1 <= i < |picks| ==> picks[i] < i
  }

  /** A new position |b| goes into the cycle of b, in front of position p. */
  function Inserted(b: seq<nat>, p: nat): (a: seq<nat>)
    ensures |a| == |b| + 1
  {
    seq(|b| + 1, x requires 0 <= x <= |b| => if x == |b| then p else if b[x] == p then |b| else b[x])
  }

  /** The cycle that the draws stand for: each position in turn goes in front of the one it drew. */
  function Drawn(picks: seq<nat>): (a: seq<nat>)
    requires LegalPicks(picks)
    ensures |a| == |picks|
    ensures forall x :: 0 <= x < |a| ==> a[x] < |a|
  {
    var n := |picks| - 1;
    if n == 0 then [0] else Inserted(Drawn(picks[..n]), picks[n])
  }

  lemma DrawnStep(picks: seq<nat>, i: nat)
    requires LegalPicks(picks) && 0 < i < |picks|
    ensures LegalPicks(picks[..i]) && LegalPicks(picks[..i + 1])
    ensures Drawn(picks[..i + 1]) == Inserted(Drawn(picks[..i]), picks[i])
  {
    assert picks[..i + 1][..i] == picks[..i];
  }

  lemma FirstDraw(picks: seq<nat>)
    requires LegalPicks(picks)
    ensures LegalPicks(picks[..1]) && Drawn(picks[..1]) == [0]
  {
  }

  /** The list of the positions with x in front of the k-th. */
  function With(c: seq<nat>, k: nat, x: nat): (d: seq<nat>)
    requires k < |c|
    ensures |d| == |c| + 1
  {
    c[..k] + [x] + c[k..]
  }

  lemma WithStep(b: seq<nat>, c: seq<nat>, k: nat, m: nat)
    requires CycleOf(b, c) && k < |c| && m <= |b|
    ensures With(c, k, |b|)[m] <= |b|
    ensures Inserted(b, c[k])[With(c, k, |b|)[m]] == With(c, k, |b|)[After(m, |b| + 1)]
  {
    if m < k {
      assert b[c[m]] == c[m + 1];
    } else if m > k {
      assert b[c[m - 1]] == c[After(m - 1, |b|)];
    }
  }

  lemma WithDistinct(b: seq<nat>, c: seq<nat>, k: nat, j: nat, m: nat)
    requires CycleOf(b, c) && k < |c| && j < m <= |b|
    ensures With(c, k, |b|)[j] != With(c, k, |b|)[m]
  {
  }

  /** The new position lies on the way into the k-th, and nothing else changes. */
  lemma InsertedCycle(b: seq<nat>, c: seq<nat>, k: nat)
    requires CycleOf(b, c) && k < |c|
    ensures CycleOf(Inserted(b, c[k]), With(c, k, |b|))
  {
    hide Inserted, With;
    forall m: nat | m <= |b|
      ensures With(c, k, |b|)[m] <= |b| && Inserted(b, c[k])[With(c, k, |b|)[m]] == With(c, k, |b|)[After(m, |b| + 1)]
    {
      WithStep(b, c, k, m);
    }
    forall j: nat, m: nat | j < m <= |b| ensures With(c, k, |b|)[j] != With(c, k, |b|)[m] {
      WithDistinct(b, c, k, j, m);
    }
  }

  lemma {:induction false} DrawnIsCycle(picks: seq<nat>)
    requires LegalPicks(picks)
    ensures SingleCycle(Drawn(picks))
    decreases |picks|
  {
    var n := |picks| - 1;
    if n == 0 {
      assert CycleOf([0], [0]);
    } else {
      hide Inserted, CycleOf;
      DrawnIsCycle(picks[..n]);
      var b := Drawn(picks[..n]);
      var c :| CycleOf(b, c);
      var k := PlaceInCycle(b, c, picks[n]);
      InsertedCycle(b, c, k);
    }
  }

  // ---- reading the draws back ----------------------------------------------

  predicate InRange(a: seq<nat>) {
    forall x :: 0 <= x < |a| ==> a[x] < |a|
  }

  /** After k steps the walk from i is at j, and that is the first position below i it comes to. */
  ghost predicate MeetsFirst(a: seq<nat>, i: nat, j: nat, k: nat)
    requires InRange(a) && i < |a|
  {
    k > 0 && j < i && Walk(a, i, k) == j && forall m: nat :: 0 < m < k ==> Walk(a, i, m) >= i
  }

  /** Each position i > 0 drew the first position below i that the walk from i comes to. */
  ghost predicate DrawsAre(a: seq<nat>, picks: seq<nat>) {
    |a| == |picks| && InRange(a) && forall i: nat :: 1 <= i < |a| ==> Met(a, i, picks[i])
  }

  ghost predicate Met(a: seq<nat>, i: nat, j: nat)
    requires InRange(a) && i < |a|
  {
    exists k: nat :: MeetsFirst(a, i, j, k)
  }

  lemma MetOnce(a: seq<nat>, i: nat, j: nat, l: nat)
    requires InRange(a) && i < |a| && Met(a, i, j) && Met(a, i, l)
    ensures j == l
  {
    var k: nat :| MeetsFirst(a, i, j, k);
    var m: nat :| MeetsFirst(a, i, l, m);
    assert k >= m && m >= k;
  }

  /** A step of b is one step of the longer cycle, or two with the new position in between. */
  lemma StepInserted(b: seq<nat>, p: nat, x: nat, k: nat)
    requires InRange(b) && p < |b| && InRange(Inserted(b, p)) && x < |b| && Walk(Inserted(b, p), x, k) < |b|
    ensures var a, y := Inserted(b, p), Walk(Inserted(b, p), x, k);
      if b[y] == p then Walk(a, x, k + 1) == |b| && Walk(a, x, k + 2) == p else Walk(a, x, k + 1) == b[y]
  {
  }

  /** The walk that b makes through positions from i on is part of the one through the longer cycle. */
  lemma {:induction false} WalkInserted(b: seq<nat>, p: nat, i: nat, x: nat, k: nat) returns (l: nat)
    requires InRange(b) && p < |b| && InRange(Inserted(b, p)) && i <= |b| && x < |b|
    requires forall m: nat :: 0 < m < k ==> Walk(b, x, m) >= i
    ensures Walk(Inserted(b, p), x, l) == Walk(b, x, k) && l >= k && (k == 0 ==> l == 0)
    ensures forall m: nat :: 0 < m < l ==> Walk(Inserted(b, p), x, m) >= i
  {
    hide Inserted;
    var a := Inserted(b, p);
    if k == 0 {
      l := 0;
    } else {
      l := WalkInserted(b, p, i, x, k - 1);
      StepInserted(b, p, x, l);
      var here := l;
      l := if b[Walk(b, x, k - 1)] == p then here + 2 else here + 1;
      forall m: nat | 0 < m < l ensures Walk(a, x, m) >= i {
        if m == here { assert Walk(a, x, m) == Walk(b, x, k - 1); }
      }
    }
  }

  lemma MetInserted(b: seq<nat>, p: nat, i: nat, j: nat)
    requires InRange(b) && p < |b| && InRange(Inserted(b, p)) && i < |b| && Met(b, i, j)
    ensures Met(Inserted(b, p), i, j)
  {
    hide Inserted, Walk;
    var k: nat :| MeetsFirst(b, i, j, k);
    var l := WalkInserted(b, p, i, i, k);
    assert MeetsFirst(Inserted(b, p), i, j, l);
  }

  lemma InsertedMeets(b: seq<nat>, p: nat)
    requires InRange(b) && p < |b| && InRange(Inserted(b, p))
    ensures Met(Inserted(b, p), |b|, p)
  {
    var a := Inserted(b, p);
    assert Walk(a, |b|, 0) == |b|;
    assert MeetsFirst(a, |b|, p, 1);
  }

  lemma MetByDraw(picks: seq<nat>, i: nat)
    requires LegalPicks(picks) && |picks| >= 2 && 1 <= i < |picks|
    requires var n := |picks| - 1; i < n ==> Met(Drawn(picks[..n]), i, picks[i])
    ensures Met(Drawn(picks), i, picks[i])
  {
    hide Inserted, Met, Drawn;
    var n := |picks| - 1;
    DrawnStep(picks, n);
    assert picks[..n + 1] == picks;
    if i < n {
      MetInserted(Drawn(picks[..n]), picks[n], i, picks[i]);
    } else {
      InsertedMeets(Drawn(picks[..n]), picks[n]);
    }
  }

  /** In the cycle that draws stand for, each position meets the one it drew first. */
  lemma {:induction false} DrawsAreMet(picks: seq<nat>)
    requires LegalPicks(picks)
    ensures DrawsAre(Drawn(picks), picks)
    decreases |picks|
  {
    hide Met, Drawn;
    var n := |picks| - 1;
    if n > 0 {
      DrawsAreMet(picks[..n]);
      forall i: nat | 1 <= i < |picks| ensures Met(Drawn(picks), i, picks[i]) {
        if i < n { assert picks[..n][i] == picks[i]; }
        MetByDraw(picks, i);
      }
    }
  }

  /** Series of draws that differ anywhere leave different cycles. */
  lemma DifferentDrawsDiffer(p: seq<nat>, q: seq<nat>, i: nat)
    requires LegalPicks(p) && LegalPicks(q) && |p| == |q| && 1 <= i < |p| && p[i] != q[i]
    ensures Drawn(p) != Drawn(q)
  {
    hide Drawn, Met;
    DrawsAreMet(p);
    DrawsAreMet(q);
    if Drawn(p) == Drawn(q) {
      MetOnce(Drawn(p), i, p[i], q[i]);
    }
  }

  // ---- every cycle is drawn ------------------------------------------------

  /** The cycle without its last position. */
  function Removed(a: seq<nat>): (b: seq<nat>)
    requires |a| >= 2
    ensures |b| == |a| - 1
  {
    var n := |a| - 1;
    seq(n, x requires 0 <= x < n => if a[x] == n then a[n] else a[x])
  }

  /** The list of the positions without the k-th. */
  function Without(c: seq<nat>, k: nat): (d: seq<nat>)
    requires k < |c|
    ensures |d| == |c| - 1
  {
    c[..k] + c[k + 1..]
  }

  lemma WithoutStep(a: seq<nat>, c: seq<nat>, k: nat, m: nat)
    requires CycleOf(a, c) && |a| >= 2 && k < |c| && c[k] == |a| - 1 && m < |a| - 1
    ensures Without(c, k)[m] < |a| - 1
    ensures Removed(a)[Without(c, k)[m]] == Without(c, k)[After(m, |a| - 1)]
  {
    var l := if m < k then m else m + 1;
    assert Without(c, k)[m] == c[l] && c[l] != c[k];
    assert a[c[l]] == c[After(l, |c|)];
    assert After(l, |c|) != k ==> c[After(l, |c|)] != c[k];
  }

  lemma WithoutDistinct(c: seq<nat>, k: nat, j: nat, m: nat)
    requires Distinct(c) && k < |c| && j < m < |c| - 1
    ensures Without(c, k)[j] != Without(c, k)[m]
  {
  }

  lemma RemovedCycle(a: seq<nat>, c: seq<nat>, k: nat)
    requires CycleOf(a, c) && |a| >= 2 && k < |c| && c[k] == |a| - 1
    ensures CycleOf(Removed(a), Without(c, k))
  {
    hide Removed, Without;
    forall m: nat | m < |a| - 1
      ensures Without(c, k)[m] < |a| - 1 && Removed(a)[Without(c, k)[m]] == Without(c, k)[After(m, |a| - 1)]
    {
      WithoutStep(a, c, k, m);
    }
    forall j: nat, m: nat | j < m < |a| - 1 ensures Without(c, k)[j] != Without(c, k)[m] {
      WithoutDistinct(c, k, j, m);
    }
  }

  lemma RemovedAndInserted(a: seq<nat>)
    requires SingleCycle(a) && |a| >= 2
    ensures SingleCycle(Removed(a)) && a[|a| - 1] < |a| - 1
    ensures Inserted(Removed(a), a[|a| - 1]) == a
  {
    var c :| CycleOf(a, c);
    var k := PlaceInCycle(a, c, |a| - 1);
    RemovedCycle(a, c, k);
    CycleIsPermutation(a);
    assert a[c[k]] == c[After(k, |c|)] != c[k];
  }

  /** Every single cycle is the outcome of some draws. */
  lemma {:induction false} EveryCycleIsDrawn(a: seq<nat>) returns (picks: seq<nat>)
    requires SingleCycle(a)
    ensures |picks| == |a| && LegalPicks(picks) && Drawn(picks) == a
    decreases |a|
  {
    if |a| == 1 {
      CycleIsPermutation(a);
      picks := [0];
    } else {
      hide Inserted, Removed, SingleCycle;
      var n := |a| - 1;
      CycleSize(a);
      RemovedAndInserted(a);
      picks := EveryCycleIsDrawn(Removed(a));
      picks := picks + [a[n]];
      assert picks[..n] + [a[n]] == picks;
    }
  }

  lemma CycleSize(a: seq<nat>)
    requires SingleCycle(a)
    ensures |a| > 0
  {
  }

  /** A single cycle is the outcome of the draws exactly when each position drew the first lower one on its way. */
  lemma DrawnExactly(a: seq<nat>, picks: seq<nat>)
    requires SingleCycle(a) && LegalPicks(picks) && |a| == |picks|
    ensures a == Drawn(picks) <==> DrawsAre(a, picks)
  {
    hide Drawn, Met, SingleCycle;
    DrawsAreMet(picks);
    if DrawsAre(a, picks) {
      var q := EveryCycleIsDrawn(a);
      DrawsAreMet(q);
      forall i: nat | 1 <= i < |a| ensures q[i] == picks[i] {
        MetOnce(a, i, q[i], picks[i]);
      }
      SameDraws(picks, q);
    }
  }

  /** The first entry plays no part. */
  lemma {:induction false} SameDraws(p: seq<nat>, q: seq<nat>)
    requires LegalPicks(p) && LegalPicks(q) && |p| == |q| && forall i :: 1 <= i < |p| ==> p[i] == q[i]
    ensures Drawn(p) == Drawn(q)
    decreases |p|
  {
    if |p| > 1 {
      SameDraws(p[..|p| - 1], q[..|q| - 1]);
    }
  }
}
