/** Every pattern but March C- writes and verifies one content after another: exactly which faults that reports. */
module RoundTheory {
  import opened CellTheory
  import opened FaultyMemory
  import opened Patterns
  import opened PatternTheory
  import opened QuietTheory
  import opened Sequences
  import opened Wrappers
  import Prng

  // ---- rounds of writing and verifying -------------------------------------

  predicate AllFit(n: nat, ws: seq<seq<bv64>>) {
    forall k :: 0 <= k < |ws| ==> |ws[k]| == n
  }

  /** Write and verify one content after another. */
  function Rounds(n: nat, ws: seq<seq<bv64>>): (ps: seq<Pass>)
    requires AllFit(n, ws)
    ensures PassesFor(ps, n)
    decreases |ws|
  {
    if ws == [] then [] else Rounds(n, ws[..|ws| - 1]) + WriteVerify(ws[|ws| - 1])
  }

  /** The round that replaces the bits of `before` by those of `c` reports the fault. A coupling that acts on writes is
      reported only if the victim is written before the aggressor, and the aggressor then changes in the direction
      that triggers it, to a value the victim should not have. */
  predicate Exposes(f: Fault, before: Cells, c: Cells)
    requires f.Fault?
  {
    match f.kind
    case StuckAt(value) => c.v != value
    case Transition(rising) => before.v != rising && c.v == rising
    case Inversion(rising) => f.aggressor > f.victim && before.a != rising && c.a == rising
    case Idempotent(rising, forced) => f.aggressor > f.victim && before.a != rising && c.a == rising && c.v != forced
    case StateCoupling(when, forced) => c.a == when && c.v != forced
  }

  /** Round k reports the fault, seen from the content it replaces and the content it writes. */
  predicate ExposesAt(f: Fault, mem: seq<bv64>, ws: seq<seq<bv64>>, k: nat)
    requires FaultIn(f, |mem|) && AllFit(|mem|, ws) && k < |ws|
  {
    Exposes(f, CellsOf(f, if k == 0 then mem else ws[k - 1]), CellsOf(f, ws[k]))
  }

  ghost predicate SomeRoundExposes(f: Fault, mem: seq<bv64>, ws: seq<seq<bv64>>)
    requires FaultIn(f, |mem|) && AllFit(|mem|, ws)
  {
    exists k: nat :: k < |ws| && ExposesAt(f, mem, ws, k)
  }

  /** The two cells after writing and verifying the words w; x and y are their bits in it. */
  function WriteVerifyCells(f: Fault, c: Cells, x: bool, y: bool): Cells
    requires f.Fault?
  {
    var none: Option<bool> := None;
    if !Coupling(f.kind) then
      VisitVictim(f.kind, VisitVictim(f.kind, c, none, Some(y)), Some(y), none)
    else if f.aggressor < f.victim then
      var d := VisitVictim(f.kind, VisitAggressor(f.kind, c, none, Some(x)), none, Some(y));
      VisitVictim(f.kind, VisitAggressor(f.kind, d, Some(x), none), Some(y), none)
    else
      var d := VisitAggressor(f.kind, VisitVictim(f.kind, c, none, Some(y)), none, Some(x));
      VisitAggressor(f.kind, VisitVictim(f.kind, d, Some(y), none), Some(x), none)
  }

  lemma WriteVerifyEffect(f: Fault, c: Cells, w: seq<bv64>)
    requires FaultIn(f, |w|)
    ensures CellsAfter(f, c, PassesOps(|w|, WriteVerify(w))) ==
      WriteVerifyCells(f, c, Coupling(f.kind) && Bit(w[f.aggressor], f.abit), Bit(w[f.victim], f.vbit))
  {
    hide CellsAfter, PassOps, PassesOps, Bit, OneHot, VisitVictim, VisitAggressor;
    var n, write, read := |w|, Pass(true, None, Some(w)), Pass(true, Some(w), None);
    WriteVerifyOps(w);
    CellsAfterAppend(f, c, PassOps(n, write), PassOps(n, read));
    PassEffect(f, c, n, write);
    PassEffect(f, PassCells(f, c, n, write), n, read);
  }

  /** A round on cells that hold c: it goes wrong exactly when it exposes the fault, and otherwise the cells then hold
      what was written. */
  lemma RoundStep(f: Fault, c: Cells, x: bool, y: bool)
    requires f.Fault? && (if Coupling(f.kind) then f.aggressor != f.victim else c.bad || c.a == x)
    ensures c.bad ==> WriteVerifyCells(f, c, x, y).bad
    ensures !c.bad ==> (WriteVerifyCells(f, c, x, y).bad <==> Exposes(f, c, Cells(x, y, false)))
    ensures !c.bad && !WriteVerifyCells(f, c, x, y).bad ==> WriteVerifyCells(f, c, x, y) == Cells(x, y, false)
  {
  }

  lemma RoundEffect(f: Fault, mem: seq<bv64>, c: Cells, w: seq<bv64>)
    requires FaultIn(f, |mem|) && |w| == |mem|
    requires c.bad || c == CellsOf(f, mem)
    ensures var d := CellsAfter(f, c, PassesOps(|w|, WriteVerify(w)));
      (d.bad <==> c.bad || Exposes(f, CellsOf(f, mem), CellsOf(f, w))) && (d.bad || d == CellsOf(f, w))
  {
    hide CellsAfter, PassesOps, WriteVerify, WriteVerifyCells, Exposes, Bit, OneHot;
    WriteVerifyEffect(f, c, w);
    RoundStep(f, c, Coupling(f.kind) && Bit(w[f.aggressor], f.abit), Bit(w[f.victim], f.vbit));
  }

  /** What the rounds leave in sound cells. */
  function LastContent(mem: seq<bv64>, ws: seq<seq<bv64>>): seq<bv64> {
    if ws == [] then mem else ws[|ws| - 1]
  }

  lemma SomeRoundStep(f: Fault, mem: seq<bv64>, ws: seq<seq<bv64>>)
    requires FaultIn(f, |mem|) && AllFit(|mem|, ws) && ws != []
    ensures SomeRoundExposes(f, mem, ws) <==>
      (SomeRoundExposes(f, mem, ws[..|ws| - 1])
       || Exposes(f, CellsOf(f, LastContent(mem, ws[..|ws| - 1])), CellsOf(f, ws[|ws| - 1])))
  {
    hide Exposes, OneHot;
    var n := |ws| - 1;
    assert ExposesAt(f, mem, ws, n) <==> Exposes(f, CellsOf(f, LastContent(mem, ws[..n])), CellsOf(f, ws[n]));
    assert forall k: nat :: k < n ==> (ExposesAt(f, mem, ws, k) <==> ExposesAt(f, mem, ws[..n], k));
  }

  lemma {:induction false} RoundsEffect(f: Fault, mem: seq<bv64>, ws: seq<seq<bv64>>)
    requires FaultIn(f, |mem|) && AllFit(|mem|, ws)
    ensures var d := CellsAfter(f, CellsOf(f, mem), PassesOps(|mem|, Rounds(|mem|, ws)));
      (d.bad <==> SomeRoundExposes(f, mem, ws)) && (d.bad || d == CellsOf(f, LastContent(mem, ws)))
    decreases |ws|
  {
    hide CellsAfter, PassesOps, WriteVerify, CellsOf, SomeRoundExposes, Exposes, OneHot;
    var n, c := |mem|, CellsOf(f, mem);
    if ws == [] {
      PassesNone(n);
      CellsAfterNothing(f, c);
      NoRound(f, mem);
    } else {
      var init, last := ws[..|ws| - 1], ws[|ws| - 1];
      RoundsEffect(f, mem, init);
      PassesAppend(n, Rounds(n, init), WriteVerify(last));
      CellsAfterAppend(f, c, PassesOps(n, Rounds(n, init)), PassesOps(n, WriteVerify(last)));
      RoundEffect(f, LastContent(mem, init), CellsAfter(f, c, PassesOps(n, Rounds(n, init))), last);
      SomeRoundStep(f, mem, ws);
    }
  }

  lemma NoRound(f: Fault, mem: seq<bv64>)
    requires FaultIn(f, |mem|)
    ensures !SomeRoundExposes(f, mem, []) && !CellsOf(f, mem).bad
  {
  }

  lemma {:induction false} RoundsConsistent(n: nat, ws: seq<seq<bv64>>)
    requires AllFit(n, ws)
    ensures Consistent(Rounds(n, ws))
    decreases |ws|
  {
    if ws == [] {
    } else {
      hide Consistent, WriteVerify;
      RoundsConsistent(n, ws[..|ws| - 1]);
      WriteVerifyConsistent(ws[|ws| - 1]);
      ConsistentAppend(Rounds(n, ws[..|ws| - 1]), WriteVerify(ws[|ws| - 1]));
    }
  }

  /** Any rounds of writing and verifying report a fault if and only if one of them exposes it. */
  lemma RoundsReportExactly(f: Fault, mem: seq<bv64>, ws: seq<seq<bv64>>)
    requires FaultIn(f, |mem|) && AllFit(|mem|, ws)
    ensures Exec(f, Snapshot(mem, []), PassesOps(|mem|, Rounds(|mem|, ws))).reports != [] <==>
      SomeRoundExposes(f, mem, ws)
  {
    hide Exec, CellsAfter, PassesOps, Consistent, OneHot, Rounds, SomeRoundExposes;
    RoundsConsistent(|mem|, ws);
    ReportsExactly(f, mem, Rounds(|mem|, ws));
    RoundsEffect(f, mem, ws);
  }

  // ---- the patterns as rounds ----------------------------------------------

  /** What one round of a pattern writes, content after content. */
  function PatternContents(pattern: Pattern, n: nat, seed: bv64): (ws: seq<seq<bv64>>)
    requires !pattern.MarchCMinus?
    ensures AllFit(n, ws)
  {
    match pattern
    case WalkingOnes => seq(64, k requires 0 <= k < 64 => WalkWords(n, false, k))
    case WalkingZeros => seq(64, k requires 0 <= k < 64 => WalkWords(n, true, k))
    case Checkerboard => [Alternating(n, CHECKER_A, CHECKER_B), Alternating(n, CHECKER_B, CHECKER_A)]
    case Random => [RandomWords(Prng.Seeded(seed), n)]
    case Bandwidth => [Fill(n, BANDWIDTH_WORD)]
  }

  function RunContents(pattern: Pattern, n: nat, seeds: seq<bv64>): (ws: seq<seq<bv64>>)
    requires !pattern.MarchCMinus?
    ensures AllFit(n, ws)
    decreases |seeds|
  {
    if seeds == [] then []
    else RunContents(pattern, n, seeds[..|seeds| - 1]) + PatternContents(pattern, n, seeds[|seeds| - 1])
  }

  lemma RoundsOne(n: nat, ws: seq<seq<bv64>>, w: seq<bv64>)
    requires AllFit(n, ws) && |w| == n
    ensures Rounds(n, ws + [w]) == Rounds(n, ws) + WriteVerify(w)
  {
    hide WriteVerify;
    FrontOfSnoc(ws, w);
  }

  lemma {:induction false} RoundsAppend(n: nat, a: seq<seq<bv64>>, b: seq<seq<bv64>>)
    requires AllFit(n, a) && AllFit(n, b)
    ensures Rounds(n, a + b) == Rounds(n, a) + Rounds(n, b)
    decreases |b|
  {
    hide WriteVerify;
    if b == [] {
      assert a + b == a;
    } else {
      var init, last := b[..|b| - 1], b[|b| - 1];
      RoundsAppend(n, a, init);
      Associate(a, init, [last]);
      FrontAndLast(b);
      RoundsOne(n, a + init, last);
      Associate(Rounds(n, a), Rounds(n, init), WriteVerify(last));
    }
  }

  lemma {:induction false} WalkIsRounds(n: nat, inverted: bool, k: nat)
    requires k <= 64
    ensures Walk(n, inverted, k) == Rounds(n, seq(k, b requires 0 <= b < k => WalkWords(n, inverted, b)))
  {
    hide WalkingOne, WriteVerify, Fill;
    if k > 0 {
      WalkIsRounds(n, inverted, k - 1);
      var ws := seq(k, b requires 0 <= b < k => WalkWords(n, inverted, b));
      assert ws[..k - 1] == seq(k - 1, b requires 0 <= b < k - 1 => WalkWords(n, inverted, b));
    }
  }

  lemma RoundsOfOne(n: nat, w: seq<bv64>)
    requires |w| == n
    ensures Rounds(n, [w]) == WriteVerify(w)
  {
    hide WriteVerify;
    assert [w][..0] == [];
  }

  lemma PatternIsRounds(pattern: Pattern, n: nat, seed: bv64)
    requires !pattern.MarchCMinus?
    ensures PatternPasses(pattern, n, seed) == Rounds(n, PatternContents(pattern, n, seed))
  {
    hide WriteVerify, Alternating, RandomWords, Fill, Rounds, Walk, WalkWords;
    match pattern {
      case WalkingOnes => WalkIsRounds(n, false, 64);
      case WalkingZeros => WalkIsRounds(n, true, 64);
      case Checkerboard =>
        RoundsOfOne(n, Alternating(n, CHECKER_A, CHECKER_B));
        RoundsOne(n, [Alternating(n, CHECKER_A, CHECKER_B)], Alternating(n, CHECKER_B, CHECKER_A));
        assert [Alternating(n, CHECKER_A, CHECKER_B)] + [Alternating(n, CHECKER_B, CHECKER_A)] ==
          PatternContents(pattern, n, seed);
      case Random => RoundsOfOne(n, RandomWords(Prng.Seeded(seed), n));
      case Bandwidth => RoundsOfOne(n, Fill(n, BANDWIDTH_WORD));
    }
  }

  lemma {:induction false} RunIsRounds(pattern: Pattern, n: nat, seeds: seq<bv64>)
    requires !pattern.MarchCMinus?
    ensures RunPasses(pattern, n, seeds) == Rounds(n, RunContents(pattern, n, seeds))
    decreases |seeds|
  {
    hide PatternPasses, PatternContents;
    if seeds != [] {
      var init, last := seeds[..|seeds| - 1], seeds[|seeds| - 1];
      RunIsRounds(pattern, n, init);
      PatternIsRounds(pattern, n, last);
      RoundsAppend(n, RunContents(pattern, n, init), PatternContents(pattern, n, last));
    }
  }

  /** A round of any pattern but March C- reports a fault if and only if one of its contents exposes it. */
  lemma PatternReportsExactly(f: Fault, mem: seq<bv64>, pattern: Pattern, seed: bv64)
    requires FaultIn(f, |mem|) && !pattern.MarchCMinus?
    ensures Exec(f, Snapshot(mem, []), PassesOps(|mem|, PatternPasses(pattern, |mem|, seed))).reports != [] <==>
      SomeRoundExposes(f, mem, PatternContents(pattern, |mem|, seed))
  {
    hide Exec, PassesOps, OneHot, Rounds, SomeRoundExposes, PatternPasses, PatternContents;
    PatternIsRounds(pattern, |mem|, seed);
    RoundsReportExactly(f, mem, PatternContents(pattern, |mem|, seed));
  }

  /** So does a run of any number of rounds. */
  lemma RunReportsExactly(f: Fault, mem: seq<bv64>, pattern: Pattern, seeds: seq<bv64>)
    requires FaultIn(f, |mem|) && !pattern.MarchCMinus?
    ensures Exec(f, Snapshot(mem, []), PassesOps(|mem|, RunPasses(pattern, |mem|, seeds))).reports != [] <==>
      SomeRoundExposes(f, mem, RunContents(pattern, |mem|, seeds))
  {
    hide Exec, PassesOps, OneHot, Rounds, SomeRoundExposes, RunPasses, RunContents;
    RunIsRounds(pattern, |mem|, seeds);
    RoundsReportExactly(f, mem, RunContents(pattern, |mem|, seeds));
  }

  // ---- what the walking patterns report ------------------------------------

  /** The faults a walking pattern reports, when the aggressor's and the victim's bit have the indices a and v and hold
      c; for walking zeros all values are turned round. A transition, or a change of the aggressor, must start from the
      other value, which needs a step before or after the bit's own step, or an initial content that provides it. */
  predicate WalkFinds(f: Fault, c: Cells, inverted: bool, a: nat, v: nat)
    requires f.Fault?
  {
    match f.kind
    case StuckAt(_) => true
    case Transition(rising) => Starts(c.v, rising, inverted, v)
    case Inversion(rising) => f.aggressor > f.victim && Starts(c.a, rising, inverted, a)
    case Idempotent(rising, forced) => f.aggressor > f.victim && Forces(c.a, rising, forced != inverted, inverted, a, v)
    case StateCoupling(when, forced) =>
      if when != inverted then (forced != inverted) != (a == v) else forced != inverted || a != v
  }

  /** The walk takes a bit with index i and initial value `was` to `rising`. */
  predicate Starts(was: bool, rising: bool, inverted: bool, i: nat) {
    was != rising || if rising != inverted then i > 0 else i < 63
  }

  /** The walk takes the aggressor to `rising` in a step in which the victim should not be forced. */
  predicate Forces(was: bool, rising: bool, forced: bool, inverted: bool, a: nat, v: nat) {
    if rising != inverted then (a > 0 || was != rising) && forced != (a == v)
    else (a < 63 && forced != (v == a + 1)) || (a > 0 && was != rising && forced != (v == 0))
  }

  /** The two bits after step k of the walk. */
  function WalkCells(f: Fault, inverted: bool, a: nat, v: nat, k: nat): Cells
    requires f.Fault?
  {
    Cells(Coupling(f.kind) && (k == a) != inverted, (k == v) != inverted, false)
  }

  predicate StepExposes(f: Fault, c: Cells, inverted: bool, a: nat, v: nat, k: nat)
    requires f.Fault?
  {
    Exposes(f, if k == 0 then c else WalkCells(f, inverted, a, v, k - 1), WalkCells(f, inverted, a, v, k))
  }

  lemma StepsOnlyFind(f: Fault, c: Cells, inverted: bool, a: nat, v: nat, k: nat)
    requires f.Fault? && a < 64 && v < 64 && k < 64 && StepExposes(f, c, inverted, a, v, k)
    ensures WalkFinds(f, c, inverted, a, v)
  {
  }

  /** The steps that may report: the first one, those of the two bits, the steps after them, and one of neither. */
  function ShowingStep(f: Fault, c: Cells, inverted: bool, a: nat, v: nat): (k: nat)
    requires f.Fault? && a < 64 && v < 64
    ensures k < 64
  {
    var other := if a != 0 && v != 0 then 0 else if a != 1 && v != 1 then 1 else 2;
    match f.kind
    case StuckAt(value) => if value == inverted then v else other
    case Transition(rising) => if rising != inverted then v else if v < 63 then v + 1 else 0
    case Inversion(rising) => if rising != inverted then a else if a < 63 then a + 1 else 0
    case Idempotent(rising, forced) =>
      if rising != inverted then a else if a < 63 && (forced != inverted) != (v == a + 1) then a + 1 else 0
    case StateCoupling(when, forced) => if when != inverted then a else if forced != inverted then other else v
  }

  lemma SingleStep(f: Fault, c: Cells, inverted: bool, a: nat, v: nat)
    requires f.Fault? && a < 64 && v < 64 && !Coupling(f.kind) && WalkFinds(f, c, inverted, a, v)
    ensures StepExposes(f, c, inverted, a, v, ShowingStep(f, c, inverted, a, v))
  {
  }

  lemma InversionStep(f: Fault, c: Cells, inverted: bool, a: nat, v: nat)
    requires f.Fault? && a < 64 && v < 64 && f.kind.Inversion? && WalkFinds(f, c, inverted, a, v)
    ensures StepExposes(f, c, inverted, a, v, ShowingStep(f, c, inverted, a, v))
  {
  }

  lemma IdempotentStep(f: Fault, c: Cells, inverted: bool, a: nat, v: nat)
    requires f.Fault? && a < 64 && v < 64 && f.kind.Idempotent? && WalkFinds(f, c, inverted, a, v)
    ensures StepExposes(f, c, inverted, a, v, ShowingStep(f, c, inverted, a, v))
  {
  }

  lemma StateStep(f: Fault, c: Cells, inverted: bool, a: nat, v: nat)
    requires f.Fault? && a < 64 && v < 64 && f.kind.StateCoupling? && WalkFinds(f, c, inverted, a, v)
    ensures StepExposes(f, c, inverted, a, v, ShowingStep(f, c, inverted, a, v))
  {
  }

  lemma StepsFind(f: Fault, c: Cells, inverted: bool, a: nat, v: nat)
    requires f.Fault? && a < 64 && v < 64 && WalkFinds(f, c, inverted, a, v)
    ensures StepExposes(f, c, inverted, a, v, ShowingStep(f, c, inverted, a, v))
  {
    hide StepExposes, WalkFinds, ShowingStep;
    match f.kind {
      case Inversion(_) => InversionStep(f, c, inverted, a, v);
      case Idempotent(_, _) => IdempotentStep(f, c, inverted, a, v);
      case StateCoupling(_, _) => StateStep(f, c, inverted, a, v);
      case _ => SingleStep(f, c, inverted, a, v);
    }
  }

  lemma BitsApart(x: bv64, m: bv64)
    requires OneHot(x) && OneHot(m)
    ensures Bit(x, m) <==> x == m
    ensures Bit(!x, m) <==> x != m
  {
  }

  lemma WalkingOneHot(bit: nat)
    requires bit < 64
    ensures OneHot(WalkingOne(bit))
  {
  }

  lemma WalkingInside(bit: nat)
    requires bit < 64
    ensures bit > 0 ==> WalkingOne(bit) != 1
    ensures bit < 63 ==> WalkingOne(bit) != TOP_BIT
  {
  }

  lemma DoubledDiffer(x: bv64, y: bv64)
    requires OneHot(x) && OneHot(y) && x != TOP_BIT && y != TOP_BIT && x != y
    ensures Doubled(x) != Doubled(y)
  {
  }

  lemma {:induction false} WalkingDiffer(low: nat, high: nat)
    requires low < high < 64
    ensures WalkingOne(low) != WalkingOne(high)
  {
    hide WalkingOne, OneHot, Doubled;
    if low == 0 {
      WalkingEnds();
      WalkingInside(high);
    } else {
      WalkingDiffer(low - 1, high - 1);
      WalkingNext(low - 1);
      WalkingNext(high - 1);
      WalkingOneHot(low - 1);
      WalkingOneHot(high - 1);
      WalkingInside(low - 1);
      WalkingInside(high - 1);
      DoubledDiffer(WalkingOne(low - 1), WalkingOne(high - 1));
    }
  }

  /** Bit number i of the word that walks at step k. */
  lemma WalkBit(n: nat, inverted: bool, k: nat, i: nat, word: nat)
    requires k < 64 && i < 64 && word < n
    ensures Bit(WalkWords(n, inverted, k)[word], WalkingOne(i)) == ((k == i) != inverted)
  {
    hide WalkingOne, OneHot, Bit;
    WalkingOneHot(k);
    WalkingOneHot(i);
    BitsApart(WalkingOne(k), WalkingOne(i));
    if k < i {
      WalkingDiffer(k, i);
    } else if i < k {
      WalkingDiffer(i, k);
    }
  }

  lemma WalkExposesAt(f: Fault, mem: seq<bv64>, inverted: bool, a: nat, v: nat, k: nat)
    requires FaultIn(f, |mem|) && k < 64
    requires v < 64 && WalkingOne(v) == f.vbit && (Coupling(f.kind) ==> a < 64 && WalkingOne(a) == f.abit)
    ensures var ws := seq(64, b requires 0 <= b < 64 => WalkWords(|mem|, inverted, b));
      ExposesAt(f, mem, ws, k) <==> StepExposes(f, CellsOf(f, mem), inverted, a, v, k)
  {
    hide WalkingOne, OneHot, Bit, WalkWords, Exposes;
    WalkCellsShow(f, |mem|, inverted, a, v, k);
    if k > 0 {
      WalkCellsShow(f, |mem|, inverted, a, v, k - 1);
    }
  }

  lemma WalkCellsShow(f: Fault, n: nat, inverted: bool, a: nat, v: nat, k: nat)
    requires FaultIn(f, n) && k < 64
    requires v < 64 && WalkingOne(v) == f.vbit && (Coupling(f.kind) ==> a < 64 && WalkingOne(a) == f.abit)
    ensures CellsOf(f, WalkWords(n, inverted, k)) == WalkCells(f, inverted, a, v, k)
  {
    hide WalkingOne, OneHot, Bit, WalkWords;
    WalkBit(n, inverted, k, v, f.victim);
    if Coupling(f.kind) {
      WalkBit(n, inverted, k, a, f.aggressor);
    }
  }

  /** A round of a walking pattern reports a fault if and only if it meets the condition above. */
  lemma WalkingReportsExactly(f: Fault, mem: seq<bv64>, inverted: bool, seed: bv64, a: nat, v: nat)
    requires FaultIn(f, |mem|) && a < 64 && v < 64
    requires WalkingOne(v) == f.vbit && (Coupling(f.kind) ==> WalkingOne(a) == f.abit)
    ensures var pattern := if inverted then WalkingZeros else WalkingOnes;
      Exec(f, Snapshot(mem, []), PassesOps(|mem|, PatternPasses(pattern, |mem|, seed))).reports != [] <==>
        WalkFinds(f, CellsOf(f, mem), inverted, a, v)
  {
    hide Exec, PassesOps, OneHot, PatternPasses, WalkingOne, ExposesAt, StepExposes, WalkFinds, CellsOf;
    var pattern := if inverted then WalkingZeros else WalkingOnes;
    PatternReportsExactly(f, mem, pattern, seed);
    var ws, c := PatternContents(pattern, |mem|, seed), CellsOf(f, mem);
    assert ws == seq(64, b requires 0 <= b < 64 => WalkWords(|mem|, inverted, b));
    if k: nat :| k < 64 && ExposesAt(f, mem, ws, k) {
      WalkExposesAt(f, mem, inverted, a, v, k);
      StepsOnlyFind(f, c, inverted, a, v, k);
    }
    if WalkFinds(f, c, inverted, a, v) {
      StepsFind(f, c, inverted, a, v);
      WalkExposesAt(f, mem, inverted, a, v, ShowingStep(f, c, inverted, a, v));
    }
  }

  /** For example: walking ones misses a cell that cannot fall, in the top bit of a word that starts at zero. */
  lemma WalkingOnesMissesTopBit(seed: bv64)
    ensures var f, mem: seq<bv64> := Fault(Transition(false), 0, 1, 0, TOP_BIT), [0];
      FaultIn(f, |mem|)
      && Exec(f, Snapshot(mem, []), PassesOps(|mem|, PatternPasses(WalkingOnes, |mem|, seed))).reports == []
  {
    hide Exec, PassesOps, PatternPasses;
    var f, mem: seq<bv64> := Fault(Transition(false), 0, 1, 0, TOP_BIT), [0];
    WalkingEnds();
    WalkingReportsExactly(f, mem, false, seed, 0, 63);
  }

  // ---- what the checkerboard reports ---------------------------------------

  /** The checkerboard value of a cell in the first half; in the second half it is inverted. */
  function FirstBit(i: nat, m: bv64): bool {
    Bit(if i % 2 == 0 then CHECKER_A else CHECKER_B, m)
  }

  /** The faults the checkerboard reports on a memory whose faulty cells hold c. A coupling that acts on writes is
      reported only if the victim is written before the aggressor, and the aggressor then changes in the direction
      that triggers it, to a value the victim should not have. */
  predicate CheckerFinds(f: Fault, c: Cells)
    requires f.Fault?
  {
    var a, v := FirstBit(f.aggressor, f.abit), FirstBit(f.victim, f.vbit);
    match f.kind
    case StuckAt(_) => true
    case Transition(rising) => v != rising || c.v != rising
    case Inversion(rising) => f.aggressor > f.victim && (a != rising || c.a != rising)
    case Idempotent(rising, forced) =>
      f.aggressor > f.victim && if a == rising then c.a != rising && forced != v else forced == v
    case StateCoupling(when, forced) => if a == when then forced != v else forced == v
  }

  lemma CheckerBits(n: nat, i: nat, m: bv64)
    requires i < n && OneHot(m)
    ensures Bit(Alternating(n, CHECKER_A, CHECKER_B)[i], m) == FirstBit(i, m)
    ensures Bit(Alternating(n, CHECKER_B, CHECKER_A)[i], m) == !FirstBit(i, m)
  {
    hide Bit, OneHot;
    CheckersAreOpposite(m);
  }

  /** The board is one: neighbouring bits of a word and the same bits of neighbouring words have opposite values. */
  lemma NeighboursAreOpposite(i: nat, m: bv64)
    requires OneHot(m)
    ensures FirstBit(i + 1, m) == !FirstBit(i, m)
    ensures m != TOP_BIT ==> FirstBit(i, Doubled(m)) == !FirstBit(i, m)
  {
    CheckersAreOpposite(m);
    if m != TOP_BIT { BitsAlternate(m); }
  }

  lemma BitsAlternate(m: bv64)
    requires OneHot(m) && m != TOP_BIT
    ensures Bit(CHECKER_A, Doubled(m)) != Bit(CHECKER_A, m)
    ensures Bit(CHECKER_B, Doubled(m)) != Bit(CHECKER_B, m)
  {
  }

  lemma TwoRounds(f: Fault, mem: seq<bv64>, one: seq<bv64>, two: seq<bv64>)
    requires FaultIn(f, |mem|) && |one| == |two| == |mem|
    ensures SomeRoundExposes(f, mem, [one, two]) <==>
      Exposes(f, CellsOf(f, mem), CellsOf(f, one)) || Exposes(f, CellsOf(f, one), CellsOf(f, two))
  {
    hide Exposes, CellsOf, OneHot;
    assert ExposesAt(f, mem, [one, two], 0) <==> Exposes(f, CellsOf(f, mem), CellsOf(f, one));
    assert ExposesAt(f, mem, [one, two], 1) <==> Exposes(f, CellsOf(f, one), CellsOf(f, two));
  }

  /** The checkerboard reports a fault if and only if the contents of its cells and their addresses meet the
      condition above. */
  lemma CheckerboardReportsExactly(f: Fault, mem: seq<bv64>, seed: bv64)
    requires FaultIn(f, |mem|)
    ensures Exec(f, Snapshot(mem, []), PassesOps(|mem|, PatternPasses(Checkerboard, |mem|, seed))).reports != [] <==>
      CheckerFinds(f, CellsOf(f, mem))
  {
    hide Exec, PassesOps, OneHot, Bit, FirstBit, PatternPasses, Alternating, SomeRoundExposes;
    var n := |mem|;
    PatternReportsExactly(f, mem, Checkerboard, seed);
    TwoRounds(f, mem, Alternating(n, CHECKER_A, CHECKER_B), Alternating(n, CHECKER_B, CHECKER_A));
    CheckerBits(n, f.victim, f.vbit);
    if Coupling(f.kind) {
      CheckerBits(n, f.aggressor, f.abit);
    }
  }

  /** A coupling between neighbouring words that the checkerboard misses: word 0 forces bit 0 of word 1 to one when
      its own bit 0 rises. */
  lemma CheckerboardMissesNeighbour(seed: bv64)
    ensures var f, mem: seq<bv64> := Fault(Idempotent(true, true), 0, 1, 1, 1), [0, 0];
      FaultIn(f, |mem|)
      && Exec(f, Snapshot(mem, []), PassesOps(|mem|, PatternPasses(Checkerboard, |mem|, seed))).reports == []
  {
    hide Exec, PassesOps, PatternPasses;
    var f, mem: seq<bv64> := Fault(Idempotent(true, true), 0, 1, 1, 1), [0, 0];
    assert FaultIn(f, |mem|);
    CheckerboardReportsExactly(f, mem, seed);
  }

  // ---- runs of several rounds ----------------------------------------------

  /** Only March C- finds a coupling by a write to a lower address: no run of another pattern reports it. */
  lemma LowAggressorIsMissed(f: Fault, mem: seq<bv64>, pattern: Pattern, seeds: seq<bv64>)
    requires FaultIn(f, |mem|) && !pattern.MarchCMinus?
    requires (f.kind.Inversion? || f.kind.Idempotent?) && f.aggressor < f.victim
    ensures Exec(f, Snapshot(mem, []), PassesOps(|mem|, RunPasses(pattern, |mem|, seeds))).reports == []
  {
    hide Exec, PassesOps, OneHot, RunPasses, RunContents, CellsOf;
    RunReportsExactly(f, mem, pattern, seeds);
  }

  /** Some content of a round gives the bit the value b, because the round would report a cell stuck at the other. */
  lemma GivesValue(n: nat, pattern: Pattern, seed: bv64, word: nat, m: bv64, b: bool) returns (k: nat)
    requires word < n && OneHot(m) && UsesBothValues(pattern) && !pattern.MarchCMinus?
    ensures var ws := PatternContents(pattern, n, seed); k < |ws| && Bit(ws[k][word], m) == b
  {
    hide Exec, PassesOps, OneHot, PatternPasses, PatternContents, UsesBothValues, Bit;
    var f, mem := Fault(StuckAt(!b), 0, 1, word, m), Fill(n, 0);
    StuckCellReported(f, mem, pattern, seed);
    PatternReportsExactly(f, mem, pattern, seed);
    k :| k < |PatternContents(pattern, n, seed)| && ExposesAt(f, mem, PatternContents(pattern, n, seed), k);
  }

  /** A bit that has two values in two contents changes from one content to the next in between. */
  lemma {:induction false} ChangeBetween(n: nat, ws: seq<seq<bv64>>, word: nat, m: bv64, i: nat, j: nat)
      returns (k: nat)
    requires AllFit(n, ws) && word < n && i < j < |ws| && Bit(ws[i][word], m) != Bit(ws[j][word], m)
    ensures 0 < k < |ws| && Bit(ws[k - 1][word], m) != Bit(ws[j][word], m) && Bit(ws[k][word], m) == Bit(ws[j][word], m)
    decreases j - i
  {
    hide Bit;
    if Bit(ws[i + 1][word], m) == Bit(ws[j][word], m) {
      k := i + 1;
    } else {
      k := ChangeBetween(n, ws, word, m, i + 1, j);
    }
  }

  lemma RunStep(pattern: Pattern, n: nat, seeds: seq<bv64>)
    requires !pattern.MarchCMinus? && seeds != []
    ensures RunContents(pattern, n, seeds) ==
      RunContents(pattern, n, seeds[..|seeds| - 1]) + PatternContents(pattern, n, seeds[|seeds| - 1])
  {
    hide PatternContents;
  }

  /** Two rounds take every bit to either value. */
  lemma RunChanges(n: nat, pattern: Pattern, seeds: seq<bv64>, word: nat, m: bv64, b: bool) returns (k: nat)
    requires word < n && OneHot(m) && UsesBothValues(pattern) && !pattern.MarchCMinus? && |seeds| >= 2
    ensures var ws := RunContents(pattern, n, seeds);
      0 < k < |ws| && Bit(ws[k - 1][word], m) != b && Bit(ws[k][word], m) == b
  {
    hide PatternContents, RunContents, Bit, OneHot, UsesBothValues;
    var c := |seeds| - 1;
    var init := seeds[..c];
    var start, first, last := RunContents(pattern, n, init[..c - 1]), PatternContents(pattern, n, init[c - 1]),
      PatternContents(pattern, n, seeds[c]);
    var ws := RunContents(pattern, n, seeds);
    RunStep(pattern, n, init);
    RunStep(pattern, n, seeds);
    assert ws == (start + first) + last;
    var i := GivesValue(n, pattern, init[c - 1], word, m, !b);
    var j := GivesValue(n, pattern, seeds[c], word, m, b);
    assert ws[|start| + i] == first[i] && ws[|start| + |first| + j] == last[j];
    k := ChangeBetween(n, ws, word, m, |start| + i, |start| + |first| + j);
  }

  lemma ChangeExposes(f: Fault, mem: seq<bv64>, ws: seq<seq<bv64>>, k: nat)
    requires FaultIn(f, |mem|) && AllFit(|mem|, ws) && 0 < k < |ws| && (f.kind.Transition? || f.kind.Inversion?)
    requires var word, m := ChangingWord(f), ChangingBit(f);
      Bit(ws[k - 1][word], m) != f.kind.rising && Bit(ws[k][word], m) == f.kind.rising
    ensures ExposesAt(f, mem, ws, k) <==> (f.kind.Inversion? ==> f.aggressor > f.victim)
  {
    hide Bit, OneHot;
    assert |ws[k - 1]| == |ws[k]| == |mem|;
  }

  /** The cell whose change matters: the aggressor of a coupling, otherwise the victim. */
  function ChangingWord(f: Fault): nat
    requires f.Fault?
  {
    if Coupling(f.kind) then f.aggressor else f.victim
  }

  function ChangingBit(f: Fault): bv64
    requires f.Fault?
  {
    if Coupling(f.kind) then f.abit else f.vbit
  }

  lemma LowInversion(f: Fault, mem: seq<bv64>, ws: seq<seq<bv64>>)
    requires FaultIn(f, |mem|) && AllFit(|mem|, ws) && f.kind.Inversion? && f.aggressor < f.victim
    ensures !SomeRoundExposes(f, mem, ws)
  {
    hide Bit, OneHot, CellsOf;
  }

  /** From the second round on a walking pattern or the checkerboard reports every transition fault, and an inversion
      coupling if and only if the aggressor is above the victim. */
  lemma RepeatedRunReports(f: Fault, mem: seq<bv64>, pattern: Pattern, seeds: seq<bv64>)
    requires FaultIn(f, |mem|) && UsesBothValues(pattern) && !pattern.MarchCMinus? && |seeds| >= 2
    requires f.kind.Transition? || f.kind.Inversion?
    ensures Exec(f, Snapshot(mem, []), PassesOps(|mem|, RunPasses(pattern, |mem|, seeds))).reports != [] <==>
      (f.kind.Inversion? ==> f.aggressor > f.victim)
  {
    hide Exec, PassesOps, OneHot, RunPasses, RunContents, Bit, UsesBothValues, ExposesAt;
    var n, ws := |mem|, RunContents(pattern, |mem|, seeds);
    RunReportsExactly(f, mem, pattern, seeds);
    if f.kind.Inversion? && f.aggressor < f.victim {
      LowInversion(f, mem, ws);
    } else {
      var k := RunChanges(n, pattern, seeds, ChangingWord(f), ChangingBit(f), f.kind.rising);
      ChangeExposes(f, mem, ws, k);
    }
  }

  // ---- what the random pattern writes --------------------------------------

  /** The first word already tells the seed: rounds with different seeds write different contents. */
  lemma RandomContentsDiffer(n: nat, seed: bv64, other: bv64)
    requires n > 0 && PatternContents(Random, n, seed)[0][0] == PatternContents(Random, n, other)[0][0]
    ensures seed == other
  {
    hide Prng.Output, Prng.Mix, Prng.Plus, Prng.Unscramble;
    var s, t := Prng.Seeded(seed), Prng.Seeded(other);
    Prng.NoDraws(s);
    Prng.NoDraws(t);
    Prng.OutputIsBijective(s, Prng.Output(s));
    Prng.OutputIsBijective(t, Prng.Output(s));
    Prng.MixInjective(Prng.Advance(seed, 2), Prng.Advance(other, 2));
    AdvanceTwice(seed);
    AdvanceTwice(other);
    PlusInjective(seed, other);
  }

  lemma AdvanceTwice(seed: bv64)
    ensures Prng.Advance(seed, 2) == Prng.Plus(Prng.Plus(seed))
  {
    hide Prng.Plus;
    assert Prng.Advance(seed, 1) == Prng.Plus(seed);
  }

  lemma PlusInjective(x: bv64, y: bv64)
    requires Prng.Plus(Prng.Plus(x)) == Prng.Plus(Prng.Plus(y))
    ensures x == y
  {
  }

  /** Seed 0 starts with these two words. */
  lemma RandomFirstWords(n: nat)
    requires n >= 2
    ensures PatternContents(Random, n, 0)[0][..2] == [0x99EC_5F36_CB75_F2B4, 0xBF6E_1F78_4956_452A]
  {
    hide Prng.Seeded, Prng.Output, Prng.Next;
    Prng.ReferenceSeed();
    var s := Prng.Seeded(0);
    Prng.NoDraws(s);
    assert Prng.Draws(s, 1) == Prng.Next(Prng.Draws(s, 0));
    FirstStates();
  }

  lemma FirstStates()
    ensures var s := Prng.State(0xE220_A839_7B1D_CDAF, 0x6E78_9E6A_A1B9_65F4, 0x06C4_5D18_8009_454F,
        0xF88B_B8A8_724C_81EC);
      Prng.Output(s) == 0x99EC_5F36_CB75_F2B4 && Prng.Output(Prng.Next(s)) == 0xBF6E_1F78_4956_452A
  {
  }
}
