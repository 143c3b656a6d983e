/** The pointer-chase builder of the cache and memory benchmarks: Sattolo's shuffle, the successor array, the walk. */
module PointerChase {
  import opened Counting
  import opened Cycles
  import opened Sequences

  // ---- Sattolo's shuffle ---------------------------------------------------

  /** c is the cycle of a through r, listed from a[r] round to r. */
  ghost predicate Ring(a: seq<nat>, c: seq<nat>, r: nat) {
    |c| > 0 && r < |a| && c[|c| - 1] == r && c[0] == a[r]
    && (forall k :: 0 <= k < |c| ==> c[k] < |a|)
    && (forall k :: 0 <= k < |c| - 1 ==> a[c[k]] == c[k + 1])
    && (forall j, k :: 0 <= j < k < |c| ==> c[j] != c[k])
  }

  /** The cycles of a: one for each position r < m, and together they hold every position once. */
  ghost predicate Rings(a: seq<nat>, rings: seq<seq<nat>>, m: nat) {
    m <= |rings|
    && (forall r: nat :: r < m ==> Ring(a, rings[r], r))
    && (forall r: nat, s: nat, x :: r < s < m && x in rings[r] ==> x !in rings[s])
    && (forall x: nat :: x < |a| ==> Covered(rings, m, x))
  }

  ghost predicate Covered(rings: seq<seq<nat>>, m: nat, x: nat)
    requires m <= |rings|
  {
    exists r: nat :: r < m && x in rings[r]
  }

  ghost function Swapped(a: seq<nat>, i: nat, j: nat): (b: seq<nat>)
    requires i < |a| && j < |a|
    ensures |b| == |a|
  {
    a[i := a[j]][j := a[i]]
  }

  lemma RingAt(a: seq<nat>, c: seq<nat>, r: nat, k: nat)
    requires Ring(a, c, r) && k < |c|
    ensures c[k] == r <==> k == |c| - 1
  {
  }

  /** A swap of a[i] and a[j] joins the cycles of i and j. */
  lemma JoinRings(a: seq<nat>, ci: seq<nat>, i: nat, cj: seq<nat>, j: nat)
    requires Ring(a, ci, i) && Ring(a, cj, j) && i != j
    requires forall x :: x in ci ==> x !in cj
    ensures Ring(Swapped(a, i, j), ci + cj, j)
  {
    var b, c := Swapped(a, i, j), ci + cj;
    assert i in ci && j in cj;
    forall k | 0 <= k < |c| - 1 ensures b[c[k]] == c[k + 1] {
      if k < |ci| {
        assert c[k] in ci;
        RingAt(a, ci, i, k);
      } else {
        assert c[k] in cj;
        RingAt(a, cj, j, k - |ci|);
      }
    }
    forall k, l | 0 <= k < l < |c| ensures c[k] != c[l] {
      if k < |ci| <= l {
        assert c[k] in ci && c[l] in cj;
      }
    }
  }

  /** A cycle that touches neither i nor j stays. */
  lemma OtherRing(a: seq<nat>, c: seq<nat>, r: nat, i: nat, j: nat)
    requires Ring(a, c, r) && i < |a| && j < |a| && i !in c && j !in c
    ensures Ring(Swapped(a, i, j), c, r)
  {
    assert c[|c| - 1] in c;
    forall k | 0 <= k < |c| ensures c[k] != i && c[k] != j {
      assert c[k] in c;
    }
  }

  /** The rings after a swap of a[i] and a[j]: ring i goes in front of ring j. */
  ghost function Merged(rings: seq<seq<nat>>, i: nat, j: nat): (after: seq<seq<nat>>)
    requires j < i < |rings|
    ensures |after| == |rings|
  {
    rings[j := rings[i] + rings[j]]
  }

  lemma MergedRing(a: seq<nat>, rings: seq<seq<nat>>, i: nat, j: nat, r: nat)
    requires j < i < |a| && Rings(a, rings, i + 1) && r < i
    ensures Ring(Swapped(a, i, j), Merged(rings, i, j)[r], r)
  {
    assert Ring(a, rings[i], i) && Ring(a, rings[j], j) && Ring(a, rings[r], r);
    assert i in rings[i] && j in rings[j];
    if r == j {
      JoinRings(a, rings[i], i, rings[j], j);
    } else {
      assert i !in rings[r];
      assert j !in rings[r];
      OtherRing(a, rings[r], r, i, j);
    }
  }

  lemma MergedDisjoint(a: seq<nat>, rings: seq<seq<nat>>, i: nat, j: nat, r: nat, s: nat, x: nat)
    requires j < i < |a| && Rings(a, rings, i + 1) && r < s < i && x in Merged(rings, i, j)[r]
    ensures x !in Merged(rings, i, j)[s]
  {
    hide Ring;
    if r == j && x in rings[i] {
      assert x !in rings[s];
    } else if s == j {
      assert x in rings[r] && x !in rings[i] && x !in rings[j];
    }
  }

  lemma MergedCovers(a: seq<nat>, rings: seq<seq<nat>>, i: nat, j: nat, x: nat)
    requires j < i < |a| && Rings(a, rings, i + 1) && x < |a|
    ensures Covered(Merged(rings, i, j), i, x)
  {
    hide Ring;
    assert Covered(rings, i + 1, x);
    var r: nat :| r < i + 1 && x in rings[r];
    var t := if r == i then j else r;
    assert x in Merged(rings, i, j)[t];
  }

  lemma SwapJoins(a: seq<nat>, rings: seq<seq<nat>>, i: nat, j: nat)
    requires j < i < |a| && Rings(a, rings, i + 1)
    ensures Rings(Swapped(a, i, j), Merged(rings, i, j), i)
  {
    hide Ring, Swapped, Merged, Covered;
    forall r: nat | r < i ensures Ring(Swapped(a, i, j), Merged(rings, i, j)[r], r) {
      MergedRing(a, rings, i, j, r);
    }
    forall r: nat, s: nat, x | r < s < i && x in Merged(rings, i, j)[r] ensures x !in Merged(rings, i, j)[s] {
      MergedDisjoint(a, rings, i, j, r, s, x);
    }
    forall x: nat | x < |a| ensures Covered(Merged(rings, i, j), i, x) {
      MergedCovers(a, rings, i, j, x);
    }
  }

  lemma LastRingIsCycle(a: seq<nat>, rings: seq<seq<nat>>)
    requires |a| > 0 && Rings(a, rings, 1)
    ensures CycleOf(a, rings[0])
  {
    var c := rings[0];
    assert Ring(a, c, 0);
    forall x: nat | x < |a| ensures x in c {
      assert Covered(rings, 1, x);
    }
    CompleteLength(c, |a|);
  }

  lemma SwapPermutes(a: seq<nat>, i: nat, j: nat)
    requires Permutation(a) && i < |a| && j < |a|
    ensures Permutation(Swapped(a, i, j))
  {
  }

  lemma IdentityPermutes(a: seq<nat>)
    requires forall i: nat :: i < |a| ==> a[i] == i
    ensures Permutation(a)
  {
  }

  lemma IdentityRings(a: seq<nat>, rings: seq<seq<nat>>)
    requires |rings| == |a| && forall i: nat :: i < |a| ==> a[i] == i && rings[i] == [i]
    ensures Rings(a, rings, |a|)
  {
    forall x: nat | x < |a| ensures Covered(rings, |a|, x) { assert x in rings[x]; }
  }

  // ---- the shuffle ---------------------------------------------------------

  /** The map a, with what it says about the positions up to i looked up in `labels`. */
  ghost function Relabelled(labels: seq<nat>, a: seq<nat>, i: nat): (b: seq<nat>)
    requires i < |labels| && |a| == i + 1 && forall x :: 0 <= x < |a| ==> a[x] < |a|
    ensures |b| == |labels|
  {
    seq(|labels|, x requires 0 <= x < |labels| => if x <= i then labels[a[x]] else labels[x])
  }

  /** Swapping entry i with the one drawn leaves the same to be done as inserting i in front of it. */
  lemma SwapIsInsertion(labels: seq<nat>, b: seq<nat>, i: nat, p: nat)
    requires p < i < |labels| && |b| == i && forall x :: 0 <= x < |b| ==> b[x] < |b|
    ensures Relabelled(labels, Inserted(b, p), i) == Relabelled(Swapped(labels, i, p), b, i - 1)
  {
  }

  lemma NothingToRelabel(labels: seq<nat>, a: seq<nat>)
    requires |a| == |labels| > 0 && forall x: nat :: x < |labels| ==> labels[x] == x && a[x] < |a|
    ensures Relabelled(labels, a, |a| - 1) == a
  {
  }

  lemma OnlyOneLeft(labels: seq<nat>)
    requires |labels| > 0
    ensures Relabelled(labels, [0], 0) == labels
  {
  }

  /** Sattolo's shuffle in place. `picks[i]` is what the generator draws from 0 .. i - 1 at step i. */
  method Shuffle(indices: array<nat>, picks: seq<nat>)
    requires |picks| == indices.Length && LegalPicks(picks)
    requires forall i :: 0 <= i < indices.Length ==> indices[i] == i
    modifies indices
    ensures Permutation(indices[..])
    ensures SingleCycle(indices[..])
    ensures indices[..] == Drawn(picks) && DrawsAre(indices[..], picks)
  {
    hide Permutation, Merged, Ring, Covered, Drawn, DrawsAre, Inserted, Relabelled, Swapped;
    var n := indices.Length;
    IdentityPermutes(indices[..]);
    ghost var rings: seq<seq<nat>> := seq(n, r => [r]);
    IdentityRings(indices[..], rings);
    var i := n - 1;
    assert picks[..n] == picks;
    NothingToRelabel(indices[..], Drawn(picks));
    while i > 0
      invariant 0 <= i < n
      invariant Permutation(indices[..])
      invariant Rings(indices[..], rings, i + 1)
      invariant LegalPicks(picks[..i + 1])
      invariant Drawn(picks) == Relabelled(indices[..], Drawn(picks[..i + 1]), i)
    {
      var j := picks[i];
      ghost var before := indices[..];
      indices[i], indices[j] := indices[j], indices[i];
      SwappedInPlace(before, indices[..], i, j);
      SwapPermutes(before, i, j);
      SwapJoins(before, rings, i, j);
      rings := Merged(rings, i, j);
      DrawnStep(picks, i);
      SwapIsInsertion(before, Drawn(picks[..i]), i, j);
      i := i - 1;
    }
    LastRingIsCycle(indices[..], rings);
    FirstDraw(picks);
    OnlyOneLeft(indices[..]);
    DrawsAreMet(picks);
  }

  lemma SwappedInPlace(before: seq<nat>, after: seq<nat>, i: nat, j: nat)
    requires i < |before| && j < |before| && after == before[i := before[j]][j := before[i]]
    ensures after == Swapped(before, i, j)
  {
  }

  // ---- the successor array -------------------------------------------------

  lemma CircularNext(k: nat, n: nat)
    requires k < n
    ensures (k + 1) % n == After(k, n)
  {
  }

  /** The first m slots named by `indices` point to their successors. */
  ghost predicate Linked(indices: seq<nat>, chase: seq<nat>, m: nat)
    requires Permutation(indices) && |chase| == |indices| && m <= |indices|
  {
    forall k :: 0 <= k < m ==> chase[indices[k]] == indices[After(k, |indices|)]
  }

  lemma LinkOne(indices: seq<nat>, chase: seq<nat>, m: nat)
    requires Permutation(indices) && |chase| == |indices| && m < |indices| && Linked(indices, chase, m)
    ensures Linked(indices, chase[indices[m] := indices[After(m, |indices|)]], m + 1)
  {
  }

  /** create_pointer_chase_array. */
  method CreatePointerChase(chase: array<nat>, picks: seq<nat>)
    requires |picks| == chase.Length && LegalPicks(picks)
    modifies chase
    ensures SingleCycle(chase[..])
    ensures CycleOf(chase[..], Drawn(picks))
  {
    hide Drawn;
    var count := chase.Length;
    var indices := new nat[count](i => i);
    Shuffle(indices, picks);
    ghost var order := indices[..];
    var i := 0;
    while i < count
      invariant 0 <= i <= count && indices[..] == order
      invariant Linked(order, chase[..], i)
    {
      var next := (i + 1) % count;
      CircularNext(i, count);
      LinkOne(order, chase[..], i);
      assert indices[i] == order[i] && indices[next] == order[next];
      ghost var linked := chase[..][order[i] := order[next]];
      chase[indices[i]] := indices[next];
      assert chase[..] == linked;
      i := i + 1;
    }
    assert CycleOf(chase[..], order);
  }

  /** A traversal loop of the latency measurement. */
  method Traverse(chase: array<nat>, steps: nat) returns (p: nat)
    requires chase.Length > 0 && SingleCycle(chase[..])
    ensures forall i :: 0 <= i < chase.Length ==> chase[i] < chase.Length
    ensures p == Walk(chase[..], 0, steps)
    ensures steps == chase.Length ==> p == 0
  {
    WalkVisitsAll(chase[..], 0);
    p := 0;
    var i := 0;
    while i < steps
      invariant 0 <= i <= steps
      invariant p == Walk(chase[..], 0, i)
    {
      p := chase[p];
      i := i + 1;
    }
  }

  /** The builder followed by the warm-up loop: every slot is used, and the walk ends where it began. */
  method BuildAndWarmUp(count: nat, picks: seq<nat>) returns (chase: array<nat>, p: nat)
    requires count >= 2 && |picks| == count && LegalPicks(picks)
    ensures fresh(chase) && chase.Length == count && SingleCycle(chase[..]) && p == 0
    ensures CycleOf(chase[..], Drawn(picks))
  {
    chase := new nat[count];
    CreatePointerChase(chase, picks);
    p := Traverse(chase, count);
  }

  // ---- small cases ---------------------------------------------------------

  lemma DrawnByHand(p: nat, q: nat, r: nat)
    requires q < 2 && r < 3
    ensures Drawn([p, 0, q]) == Inserted([1, 0], q)
    ensures Drawn([p, 0, q, r]) == Inserted(Inserted([1, 0], q), r)
  {
    assert [p, 0, q, r][..3] == [p, 0, q] && [p, 0, q][..2] == [p, 0] && [p, 0][..1] == [p];
    assert Inserted([0], 0) == [1, 0];
  }

  /** With three slots every outcome of the draws builds the sequential chain 0, 1, 2: the list of the slots is a
      single cycle as a map, and the two such lists are rotations of the same order. */
  lemma ThreeSlotsAreSequential(chase: seq<nat>, picks: seq<nat>)
    requires |picks| == 3 && LegalPicks(picks) && CycleOf(chase, Drawn(picks))
    ensures chase == [1, 2, 0]
  {
    assert picks == [picks[0], 0, picks[2]];
    DrawnByHand(picks[0], picks[2], 0);
    var c := Drawn(picks);
    assert c == if picks[2] == 0 then [1, 2, 0] else [2, 0, 1];
    assert chase[c[0]] == c[1] && chase[c[1]] == c[2] && chase[c[2]] == c[0];
  }

  /** With four slots the draws matter: these lead to the order 0, 1, 3, 2. */
  lemma FourSlots(chase: seq<nat>)
    requires CycleOf(chase, Drawn([0, 0, 0, 1]))
    ensures chase == [1, 3, 0, 2]
  {
    DrawnByHand(0, 0, 1);
    var c := Drawn([0, 0, 0, 1]);
    assert c == [3, 2, 0, 1];
    assert chase[c[0]] == c[1] && chase[c[1]] == c[2] && chase[c[2]] == c[3] && chase[c[3]] == c[0];
  }
}
