/** The six patterns of src/engines/ram_engine.cpp as passes; each compares only with what it wrote last. */
module Patterns {
  import opened FaultyMemory
  import opened MarchTheory
  import opened QuietTheory
  import opened Wrappers
  import Prng

  // ---- the patterns as passes ----------------------------------------------

  datatype Pattern = MarchCMinus | WalkingOnes | WalkingZeros | Checkerboard | Random | Bandwidth

  const CHECKER_A: bv64 := 0xAAAA_AAAA_AAAA_AAAA
  const CHECKER_B: bv64 := 0x5555_5555_5555_5555
  const BANDWIDTH_WORD: bv64 := 0xDEAD_BEEF_CAFE_BABE

  function WalkingOne(bit: nat): bv64
    requires bit < 64
  {
    (1 as bv64) << bit
  }

  function Alternating(n: nat, even: bv64, odd: bv64): (s: seq<bv64>)
    ensures |s| == n
  {
    seq(n, i => if i % 2 == 0 then even else odd)
  }

  /** The first n outputs of the generator from state s. */
  function RandomWords(s: Prng.State, n: nat): (w: seq<bv64>)
    ensures |w| == n
  {
    seq(n, i requires 0 <= i < n => Prng.Output(Prng.Draws(s, i)))
  }

  function WriteVerify(v: seq<bv64>): (ps: seq<Pass>)
    ensures PassesFor(ps, |v|)
  {
    [Pass(true, None, Some(v)), Pass(true, Some(v), None)]
  }

  /** The writing or the comparing pass of the random pattern. */
  function RandomPass(n: nat, seed: bv64, verify: bool): (p: Pass)
    ensures PassFor(p, n)
  {
    var w := Some(RandomWords(Prng.Seeded(seed), n));
    if verify then Pass(true, w, None) else Pass(true, None, w)
  }

  lemma RandomOp(n: nat, seed: bv64, verify: bool, i: nat)
    requires i < n
    ensures var value := Prng.Output(Prng.Draws(Prng.Seeded(seed), i));
      PassOps(n, RandomPass(n, seed, verify))[i]
        == Op(i, if verify then Some(value) else None, if verify then None else Some(value))
  {
    hide Prng.Seeded, Prng.Draws, Prng.Output;
  }

  /** Write and verify the walking bit (or its complement) for bits 0 .. k - 1. */
  function Walk(n: nat, inverted: bool, k: nat): (ps: seq<Pass>)
    requires k <= 64
    ensures PassesFor(ps, n)
  {
    if k == 0 then []
    else
      var w := WalkingOne(k - 1);
      Walk(n, inverted, k - 1) + WriteVerify(Fill(n, if inverted then !w else w))
  }

  function PatternPasses(pattern: Pattern, n: nat, seed: bv64): (ps: seq<Pass>)
    ensures PassesFor(ps, n)
  {
    match pattern
    case MarchCMinus => MarchPasses(n)
    case WalkingOnes => Walk(n, false, 64)
    case WalkingZeros => Walk(n, true, 64)
    case Checkerboard =>
      WriteVerify(Alternating(n, CHECKER_A, CHECKER_B)) + WriteVerify(Alternating(n, CHECKER_B, CHECKER_A))
    case Random => WriteVerify(RandomWords(Prng.Seeded(seed), n))
    case Bandwidth => WriteVerify(Fill(n, BANDWIDTH_WORD))
  }

  /** A run of several rounds; only the random pattern looks at its round's seed. */
  function RunPasses(pattern: Pattern, n: nat, seeds: seq<bv64>): (ps: seq<Pass>)
    ensures PassesFor(ps, n)
    decreases |seeds|
  {
    if seeds == [] then []
    else RunPasses(pattern, n, seeds[..|seeds| - 1]) + PatternPasses(pattern, n, seeds[|seeds| - 1])
  }

  // ---- every pattern is consistent -----------------------------------------

  lemma {:induction false} LatestAppend(a: seq<Pass>, b: seq<Pass>)
    ensures Latest(a + b) == if Latest(b).Some? then Latest(b) else Latest(a)
    decreases |b|
  {
    if b == [] {
      assert a + b == a;
    } else {
      assert (a + b)[..|a + b| - 1] == a + b[..|b| - 1];
      LatestAppend(a, b[..|b| - 1]);
    }
  }

  lemma ConsistentAppend(a: seq<Pass>, b: seq<Pass>)
    requires Consistent(a) && Consistent(b)
    ensures Consistent(a + b)
  {
    hide Latest;
    var c := a + b;
    forall k | 0 <= k < |c| && c[k].expects.Some? ensures Latest(c[..k]) == c[k].expects {
      if k < |a| {
        assert c[..k] == a[..k];
      } else {
        assert c[..k] == a + b[..k - |a|];
        LatestAppend(a, b[..k - |a|]);
      }
    }
  }

  lemma WriteVerifyConsistent(v: seq<bv64>)
    ensures Consistent(WriteVerify(v))
  {
    var ps := WriteVerify(v);
    assert ps[..1] == [ps[0]];
    assert Latest([ps[0]]) == Some(v);
  }

  lemma {:induction false} WalkConsistent(n: nat, inverted: bool, k: nat)
    requires k <= 64
    ensures Consistent(Walk(n, inverted, k))
  {
    if k == 0 {
    } else {
      hide Consistent, WriteVerify, WalkingOne;
      var w := WalkingOne(k - 1);
      WalkConsistent(n, inverted, k - 1);
      WriteVerifyConsistent(Fill(n, if inverted then !w else w));
      ConsistentAppend(Walk(n, inverted, k - 1), WriteVerify(Fill(n, if inverted then !w else w)));
    }
  }

  lemma LatestOne(ps: seq<Pass>, p: Pass)
    ensures Latest(ps + [p]) == if p.writes.Some? then p.writes else Latest(ps)
  {
    assert (ps + [p])[..|ps|] == ps;
  }

  lemma MarchConsistent(n: nat)
    ensures Consistent(MarchPasses(n))
  {
    var ps := MarchPasses(n);
    hide Latest;
    forall k | 1 <= k < 6 ensures Latest(ps[..k]) == Background(n, MARCH[k - 1].write) {
      assert ps[..k] == ps[..k - 1] + [ps[k - 1]];
      LatestOne(ps[..k - 1], ps[k - 1]);
    }
  }

  lemma PatternConsistent(pattern: Pattern, n: nat, seed: bv64)
    ensures Consistent(PatternPasses(pattern, n, seed))
  {
    hide Consistent, WriteVerify;
    match pattern {
      case MarchCMinus => MarchConsistent(n);
      case WalkingOnes => WalkConsistent(n, false, 64);
      case WalkingZeros => WalkConsistent(n, true, 64);
      case Checkerboard =>
        var a, b := Alternating(n, CHECKER_A, CHECKER_B), Alternating(n, CHECKER_B, CHECKER_A);
        WriteVerifyConsistent(a);
        WriteVerifyConsistent(b);
        ConsistentAppend(WriteVerify(a), WriteVerify(b));
      case Random => WriteVerifyConsistent(RandomWords(Prng.Seeded(seed), n));
      case Bandwidth => WriteVerifyConsistent(Fill(n, BANDWIDTH_WORD));
    }
  }

  lemma {:induction false} RunConsistent(pattern: Pattern, n: nat, seeds: seq<bv64>)
    ensures Consistent(RunPasses(pattern, n, seeds))
    decreases |seeds|
  {
    hide PatternPasses;
    if seeds == [] {
    } else {
      var init, last := seeds[..|seeds| - 1], seeds[|seeds| - 1];
      RunConsistent(pattern, n, init);
      PatternConsistent(pattern, n, last);
      hide Consistent;
      ConsistentAppend(RunPasses(pattern, n, init), PatternPasses(pattern, n, last));
    }
  }

  /** A March run of at least one round on a faulty memory reports something. */
  lemma {:induction false} MarchRunDetects(f: Fault, mem: seq<bv64>, seeds: seq<bv64>)
    requires FaultIn(f, |mem|) && |seeds| > 0
    ensures Exec(f, Snapshot(mem, []), PassesOps(|mem|, RunPasses(MarchCMinus, |mem|, seeds))).reports != []
    decreases |seeds|
  {
    hide Exec, PassesOps, MarchPasses, OneHot;
    var n, s := |mem|, Snapshot(mem, []);
    var init := seeds[..|seeds| - 1];
    var before, last := RunPasses(MarchCMinus, n, init), MarchPasses(n);
    PassesAppend(n, before, last);
    ExecAppend(f, s, PassesOps(n, before), PassesOps(n, last));
    var t := Exec(f, s, PassesOps(n, before));
    ReportsOffset(f, t, PassesOps(n, last));
    MarchDetects(f, t.mem);
  }

  lemma WriteVerifyOps(v: seq<bv64>)
    ensures PassesOps(|v|, WriteVerify(v)) ==
      PassOps(|v|, Pass(true, None, Some(v))) + PassOps(|v|, Pass(true, Some(v), None))
  {
    hide PassOps, PassesOps;
    var n, w, r := |v|, Pass(true, None, Some(v)), Pass(true, Some(v), None);
    PassesNone(n);
    PassesOne(n, [], w);
    assert [] + [w] == [w];
    PassesOne(n, [w], r);
    assert [w] + [r] == WriteVerify(v);
    assert [] + PassOps(n, w) == PassOps(n, w);
  }
}
