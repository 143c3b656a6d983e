/** March C- reports every single fault. */
module MarchTheory {
  import opened Arithmetic
  import opened CellTheory
  import opened FaultyMemory
  import opened Sequences
  import opened Wrappers

  /** One March element over solid backgrounds. */
  datatype Element = Element(up: bool, expected: Option<bool>, write: Option<bool>)

  const MARCH: seq<Element> := [
    Element(true, None, Some(false)),
    Element(true, Some(false), Some(true)),
    Element(true, Some(true), Some(false)),
    Element(false, Some(false), Some(true)),
    Element(false, Some(true), Some(false)),
    Element(true, Some(false), None)]

  function Background(n: nat, b: Option<bool>): (r: Option<seq<bv64>>)
    ensures r.Some? ==> |r.value| == n
  {
    if b.Some? then Some(Fill(n, Solid(b.value))) else None
  }

  function ElementPass(n: nat, e: Element): (p: Pass)
    ensures PassFor(p, n)
  {
    Pass(e.up, Background(n, e.expected), Background(n, e.write))
  }

  /** March C- on n words: six passes. */
  function MarchPasses(n: nat): (ps: seq<Pass>)
    ensures |ps| == 6 && PassesFor(ps, n)
  {
    seq(6, k requires 0 <= k < 6 => ElementPass(n, MARCH[k]))
  }

  // ---- one element, seen through the two cells -----------------------------

  /** The net effect of an element on the two cells. */
  function ElementCells(f: Fault, c: Cells, e: Element): Cells
    requires f.Fault?
  {
    if !Coupling(f.kind) then VisitVictim(f.kind, c, e.expected, e.write)
    else if (f.aggressor < f.victim) == e.up
    then VisitVictim(f.kind, VisitAggressor(f.kind, c, e.expected, e.write), e.expected, e.write)
    else VisitAggressor(f.kind, VisitVictim(f.kind, c, e.expected, e.write), e.expected, e.write)
  }

  /** Over a solid background every bit of a word has the element's value. */
  lemma BackgroundBit(n: nat, b: Option<bool>, i: nat, m: bv64)
    requires i < n && OneHot(m)
    ensures BitOf(At(Background(n, b), i), m) == b
  {
    hide OneHot, Bit, Solid;
    if b.Some? { BitOfSolid(b.value, m); }
  }

  lemma ElementEffect(f: Fault, c: Cells, n: nat, e: Element)
    requires FaultIn(f, n)
    ensures CellsAfter(f, c, PassOps(n, ElementPass(n, e))) == ElementCells(f, c, e)
  {
    hide CellsAfter, VisitVictim, VisitAggressor, BitOf, Background, OneHot, PassOps;
    PassEffect(f, c, n, ElementPass(n, e));
    BackgroundBit(n, e.expected, f.victim, f.vbit);
    BackgroundBit(n, e.write, f.victim, f.vbit);
    if Coupling(f.kind) {
      BackgroundBit(n, e.expected, f.aggressor, f.abit);
      BackgroundBit(n, e.write, f.aggressor, f.abit);
    }
  }

  // ---- the whole test ------------------------------------------------------

  /** The cells after the first k elements. */
  function CellMarch(f: Fault, c: Cells, k: nat): Cells
    requires f.Fault? && k <= 6
  {
    if k == 0 then c else ElementCells(f, CellMarch(f, c, k - 1), MARCH[k - 1])
  }

  lemma {:induction false} MarchEffect(f: Fault, c: Cells, n: nat, k: nat)
    requires FaultIn(f, n) && k <= 6
    ensures CellsAfter(f, c, PassesOps(n, MarchPasses(n)[..k])) == CellMarch(f, c, k)
  {
    hide CellsAfter, ElementCells, PassOps, PassesOps, OneHot, ElementPass;
    var ps := MarchPasses(n);
    if k == 0 {
      assert ps[..0] == [];
      PassesNone(n);
      CellsAfterNothing(f, c);
    } else {
      MarchEffect(f, c, n, k - 1);
      PrefixStep(ps, k - 1);
      PassesOne(n, ps[..k - 1], ps[k - 1]);
      CellsAfterAppend(f, c, PassesOps(n, ps[..k - 1]), PassOps(n, ps[k - 1]));
      ElementEffect(f, CellMarch(f, c, k - 1), n, MARCH[k - 1]);
    }
  }

  /** Six elements expose the fault, whatever the cells held. */
  lemma MarchExposes(f: Fault, c: Cells)
    requires f.Fault?
    ensures CellMarch(f, c, 6).bad
  {
    hide ElementCells;
    var c1 := ElementCells(f, c, Element(true, None, Some(false)));
    var c2 := ElementCells(f, c1, Element(true, Some(false), Some(true)));
    var c3 := ElementCells(f, c2, Element(true, Some(true), Some(false)));
    var c4 := ElementCells(f, c3, Element(false, Some(false), Some(true)));
    var c5 := ElementCells(f, c4, Element(false, Some(true), Some(false)));
    var c6 := ElementCells(f, c5, Element(true, Some(false), None));
    assert CellMarch(f, c, 1) == c1;
    assert CellMarch(f, c, 2) == c2;
    assert CellMarch(f, c, 3) == c3;
    assert CellMarch(f, c, 4) == c4;
    assert CellMarch(f, c, 5) == c5;
    assert CellMarch(f, c, 6) == c6;
    SixExpose(f, c);
  }

  lemma SixExpose(f: Fault, c: Cells)
    requires f.Fault?
    ensures var c1 := ElementCells(f, c, Element(true, None, Some(false)));
      var c2 := ElementCells(f, c1, Element(true, Some(false), Some(true)));
      var c3 := ElementCells(f, c2, Element(true, Some(true), Some(false)));
      var c4 := ElementCells(f, c3, Element(false, Some(false), Some(true)));
      var c5 := ElementCells(f, c4, Element(false, Some(true), Some(false)));
      ElementCells(f, c5, Element(true, Some(false), None)).bad
  {
  }

  /** March C- reports every single stuck-at, transition, inversion-, idempotent- or state-coupling fault,
      for every memory size and whatever the memory held before. */
  lemma MarchDetects(f: Fault, mem: seq<bv64>)
    requires FaultIn(f, |mem|)
    ensures Exec(f, Snapshot(mem, []), PassesOps(|mem|, MarchPasses(|mem|))).reports != []
  {
    hide OneHot, Exec, PassesOps, CellMarch, CellsOf, CellsAfter;
    var n, s, c := |mem|, Snapshot(mem, []), CellsOf(f, mem);
    StartShows(f, mem);
    MarchEffect(f, c, n, 6);
    MarchExposes(f, c);
    assert MarchPasses(n)[..6] == MarchPasses(n);
    RunShows(f, s, c, PassesOps(n, MarchPasses(n)));
  }

  // ---- the schedule, operation by operation --------------------------------

  /** Operation k of pass e is operation e n + k of the schedule. */
  lemma {:induction false} OperationOfPass(n: nat, ps: seq<Pass>, e: nat, k: nat)
    requires PassesFor(ps, n) && e < |ps| && k < n
    ensures |PassesOps(n, ps)| == |ps| * n && 0 <= e * n + k < |ps| * n
    ensures PassesOps(n, ps)[e * n + k] == OpAt(n, ps[e], k)
    decreases |ps|
  {
    hide OpAt;
    var last := |ps| - 1;
    RowsBelow(n, e, |ps|);
    MulMono(n, 0, e);
    MulCommutes(n, e);
    assert last * n + n == |ps| * n;
    if last == 0 {
      PassesNone(n);
      assert e * n == 0;
    } else if e < last {
      OperationOfPass(n, ps[..last], e, k);
    } else {
      OperationOfPass(n, ps[..last], 0, k);
    }
  }

  /** The six loops: write zeros; upwards read zeros and write ones, then read ones and write zeros; the same two
      downwards; read zeros. */
  lemma MarchSchedule(n: nat, k: nat)
    requires k < n
    ensures var ops, zero, ones := PassesOps(n, MarchPasses(n)), Some(0 as bv64), Some(0xFFFF_FFFF_FFFF_FFFF as bv64);
      |ops| == 6 * n
      && ops[k] == Op(k, None, zero)
      && ops[n + k] == Op(k, zero, ones)
      && ops[2 * n + k] == Op(k, ones, zero)
      && ops[3 * n + k] == Op(n - 1 - k, zero, ones)
      && ops[4 * n + k] == Op(n - 1 - k, ones, zero)
      && ops[5 * n + k] == Op(k, zero, None)
  {
    hide PassesOps, MarchPasses;
    var ps := MarchPasses(n);
    OperationOfPass(n, ps, 0, k);
    OperationOfPass(n, ps, 1, k);
    OperationOfPass(n, ps, 2, k);
    OperationOfPass(n, ps, 3, k);
    OperationOfPass(n, ps, 4, k);
    OperationOfPass(n, ps, 5, k);
    MarchOperations(n, k);
  }

  lemma MarchOperations(n: nat, k: nat)
    requires k < n
    ensures var ps, zero, ones := MarchPasses(n), Some(0 as bv64), Some(0xFFFF_FFFF_FFFF_FFFF as bv64);
      OpAt(n, ps[0], k) == Op(k, None, zero) && OpAt(n, ps[1], k) == Op(k, zero, ones)
      && OpAt(n, ps[2], k) == Op(k, ones, zero) && OpAt(n, ps[3], k) == Op(n - 1 - k, zero, ones)
      && OpAt(n, ps[4], k) == Op(n - 1 - k, ones, zero) && OpAt(n, ps[5], k) == Op(k, zero, None)
  {
  }
}
