/** A fault seen through the one or two bits it concerns, for any schedule of reads and writes. */
module CellTheory {
  import opened FaultyMemory
  import opened Sequences
  import opened Wrappers

  /** The aggressor's bit, the victim's bit, and whether a read of either has mismatched. */
  datatype Cells = Cells(a: bool, v: bool, bad: bool)

  function VisitAggressor(k: Kind, c: Cells, expected: Option<bool>, write: Option<bool>): Cells {
    var bad := c.bad || (expected.Some? && c.a != expected.value);
    if write.None? then c.(bad := bad)
    else
      var x := write.value;
      var v := match k
        case Inversion(rising) => if c.a != rising && x == rising then !c.v else c.v
        case Idempotent(rising, forced) => if c.a != rising && x == rising then forced else c.v
        case _ => c.v;
      Cells(x, v, bad)
  }

  function VisitVictim(k: Kind, c: Cells, expected: Option<bool>, write: Option<bool>): Cells {
    var bad := c.bad || (expected.Some? && SeenVictim(k, c) != expected.value);
    if write.None? then c.(bad := bad)
    else
      var x := write.value;
      var v := match k
        case Transition(rising) => if c.v != rising && x == rising then !rising else x
        case _ => x;
      Cells(c.a, v, bad)
  }

  /** The victim's bit as a read returns it. */
  function SeenVictim(k: Kind, c: Cells): bool {
    match k
    case StuckAt(value) => value
    case StateCoupling(when, forced) => if c.a == when then forced else c.v
    case _ => c.v
  }

  function BitOf(w: Option<bv64>, m: bv64): Option<bool> {
    if w.Some? then Some(Bit(w.value, m)) else None
  }

  /** What one operation does to the two cells. */
  function VisitOp(f: Fault, c: Cells, op: Op): Cells
    requires f.Fault?
  {
    if op.word == f.victim then
      VisitVictim(f.kind, c, BitOf(op.expected, f.vbit), BitOf(op.write, f.vbit))
    else if Coupling(f.kind) && op.word == f.aggressor then
      VisitAggressor(f.kind, c, BitOf(op.expected, f.abit), BitOf(op.write, f.abit))
    else c
  }

  /** The memory, seen through the two cells. */
  ghost predicate Shows(f: Fault, s: Snapshot, c: Cells)
    requires FaultIn(f, |s.mem|)
  {
    c.v == Bit(s.mem[f.victim], f.vbit)
    && (Coupling(f.kind) ==> c.a == Bit(s.mem[f.aggressor], f.abit))
    && (c.bad ==> s.reports != [])
  }

  /** What the cells of a memory hold. */
  function CellsOf(f: Fault, mem: seq<bv64>): Cells
    requires FaultIn(f, |mem|)
  {
    Cells(Coupling(f.kind) && Bit(mem[f.aggressor], f.abit), Bit(mem[f.victim], f.vbit), false)
  }

  // ---- one operation -------------------------------------------------------

  lemma ReadVictim(f: Fault, s: Snapshot, c: Cells)
    requires FaultIn(f, |s.mem|) && Shows(f, s, c)
    ensures Bit(Observed(f, s.mem, f.victim), f.vbit) == SeenVictim(f.kind, c)
  {
    hide Put, Bit, OneHot, Flip;
    if f.kind.StuckAt? { BitOfPut(s.mem[f.victim], f.vbit, f.kind.value); }
    if f.kind.StateCoupling? { BitOfPut(s.mem[f.victim], f.vbit, f.kind.forced); }
  }

  lemma ReadElsewhere(f: Fault, mem: seq<bv64>, i: nat)
    requires Fits(f, |mem|) && i < |mem| && (f.Fault? ==> i != f.victim)
    ensures Observed(f, mem, i) == mem[i]
  {
  }

  lemma WriteVictim(f: Fault, s: Snapshot, c: Cells, w: bv64)
    requires FaultIn(f, |s.mem|) && Shows(f, s, c)
    ensures var mem, d := Stored(f, s.mem, f.victim, w), VisitVictim(f.kind, c, None, Some(Bit(w, f.vbit)));
      Bit(mem[f.victim], f.vbit) == d.v && (Coupling(f.kind) ==> Bit(mem[f.aggressor], f.abit) == d.a)
  {
    hide Put, Bit, OneHot, Flip;
    if f.kind.Transition? { BitOfPut(w, f.vbit, !f.kind.rising); }
  }

  /** Writing the aggressor changes its own bit as on a sound memory ... */
  lemma WriteAggressor(f: Fault, s: Snapshot, w: bv64)
    requires FaultIn(f, |s.mem|) && Coupling(f.kind)
    ensures Stored(f, s.mem, f.aggressor, w)[f.aggressor] == w
  {
    hide Put, Bit, OneHot, Flip;
  }

  /** ... and the victim's bit as the fault says. */
  lemma WriteCouples(f: Fault, s: Snapshot, c: Cells, w: bv64)
    requires FaultIn(f, |s.mem|) && Shows(f, s, c) && Coupling(f.kind)
    ensures Bit(Stored(f, s.mem, f.aggressor, w)[f.victim], f.vbit) ==
      VisitAggressor(f.kind, c, None, Some(Bit(w, f.abit))).v
  {
    hide Put, Bit, OneHot, Flip;
    match f.kind {
      case Inversion(rising) => BitOfFlip(s.mem[f.victim], f.vbit);
      case Idempotent(rising, forced) => BitOfPut(s.mem[f.victim], f.vbit, forced);
      case _ =>
    }
  }

  lemma VictimShows(f: Fault, s: Snapshot, c: Cells, op: Op)
    requires FaultIn(f, |s.mem|) && Shows(f, s, c) && op.word == f.victim
    ensures Shows(f, Visit(f, s, op), VisitVictim(f.kind, c, BitOf(op.expected, f.vbit), BitOf(op.write, f.vbit)))
  {
    hide Put, Bit, OneHot, Flip, Stored, Observed;
    ReadVictim(f, s, c);
    if op.write.Some? { WriteVictim(f, s, c, op.write.value); }
  }

  lemma AggressorShows(f: Fault, s: Snapshot, c: Cells, op: Op)
    requires FaultIn(f, |s.mem|) && Shows(f, s, c) && Coupling(f.kind) && op.word == f.aggressor
    ensures Shows(f, Visit(f, s, op), VisitAggressor(f.kind, c, BitOf(op.expected, f.abit), BitOf(op.write, f.abit)))
  {
    hide Put, Bit, OneHot, Flip, Stored, Observed, Fits;
    ReadElsewhere(f, s.mem, f.aggressor);
    if op.write.Some? {
      WriteAggressor(f, s, op.write.value);
      WriteCouples(f, s, c, op.write.value);
    }
  }

  lemma OtherShows(f: Fault, s: Snapshot, c: Cells, op: Op)
    requires FaultIn(f, |s.mem|) && Shows(f, s, c) && op.word < |s.mem|
    requires op.word != f.victim && (Coupling(f.kind) ==> op.word != f.aggressor)
    ensures Shows(f, Visit(f, s, op), c)
  {
    hide Put, Bit, OneHot, Flip;
  }

  lemma OpShows(f: Fault, s: Snapshot, c: Cells, op: Op)
    requires FaultIn(f, |s.mem|) && Shows(f, s, c) && op.word < |s.mem|
    ensures Shows(f, Visit(f, s, op), VisitOp(f, c, op))
  {
    hide Visit, Shows, VisitVictim, VisitAggressor, BitOf, OneHot;
    if op.word == f.victim {
      VictimShows(f, s, c, op);
    } else if Coupling(f.kind) && op.word == f.aggressor {
      AggressorShows(f, s, c, op);
    } else {
      OtherShows(f, s, c, op);
    }
  }

  // ---- a schedule ----------------------------------------------------------

  /** The cells after a schedule. */
  function CellsAfter(f: Fault, c: Cells, ops: seq<Op>): Cells
    requires f.Fault?
    decreases |ops|
  {
    if ops == [] then c else VisitOp(f, CellsAfter(f, c, ops[..|ops| - 1]), ops[|ops| - 1])
  }

  lemma CellsAfterOne(f: Fault, c: Cells, ops: seq<Op>, op: Op)
    requires f.Fault?
    ensures CellsAfter(f, c, ops + [op]) == VisitOp(f, CellsAfter(f, c, ops), op)
  {
    hide VisitOp;
    FrontOfSnoc(ops, op);
  }

  lemma CellsAfterNothing(f: Fault, c: Cells)
    requires f.Fault?
    ensures CellsAfter(f, c, []) == c
  {
  }

  lemma {:induction false} CellsAfterAppend(f: Fault, c: Cells, a: seq<Op>, b: seq<Op>)
    requires f.Fault?
    ensures CellsAfter(f, c, a + b) == CellsAfter(f, CellsAfter(f, c, a), b)
    decreases |b|
  {
    hide CellsAfter, VisitOp;
    if b == [] {
      assert a + b == a;
      CellsAfterNothing(f, CellsAfter(f, c, a));
    } else {
      var init, last := b[..|b| - 1], b[|b| - 1];
      CellsAfterAppend(f, c, a, init);
      FrontAndLast(b);
      CellsAfterOne(f, CellsAfter(f, c, a), init, last);
      Associate(a, init, [last]);
      CellsAfterOne(f, c, a + init, last);
    }
  }

  /** A whole run on the faulty memory shows what the two cells go through. */
  lemma {:induction false} RunShows(f: Fault, s: Snapshot, c: Cells, ops: seq<Op>)
    requires FaultIn(f, |s.mem|) && Shows(f, s, c) && OpsIn(ops, |s.mem|)
    ensures Shows(f, Exec(f, s, ops), CellsAfter(f, c, ops))
    decreases |ops|
  {
    hide Shows, Visit, VisitOp, OneHot;
    if ops == [] {
    } else {
      var init, last := ops[..|ops| - 1], ops[|ops| - 1];
      RunShows(f, s, c, init);
      OpShows(f, Exec(f, s, init), CellsAfter(f, c, init), last);
    }
  }

  lemma StartShows(f: Fault, mem: seq<bv64>)
    requires FaultIn(f, |mem|)
    ensures Shows(f, Snapshot(mem, []), CellsOf(f, mem))
  {
  }

  // ---- one pass ------------------------------------------------------------

  function Position(up: bool, n: nat, i: nat): (k: nat)
    requires i < n
    ensures k < n
  {
    if up then i else n - 1 - i
  }

  /** What a pass does at word i. */
  function OpOn(n: nat, p: Pass, i: nat): Op
    requires PassFor(p, n) && i < n
  {
    Op(i, At(p.expects, i), At(p.writes, i))
  }

  function AtVictim(f: Fault, c: Cells, n: nat, p: Pass): Cells
    requires FaultIn(f, n) && PassFor(p, n)
  {
    VisitOp(f, c, OpOn(n, p, f.victim))
  }

  function AtAggressor(f: Fault, c: Cells, n: nat, p: Pass): Cells
    requires FaultIn(f, n) && PassFor(p, n) && Coupling(f.kind)
  {
    VisitOp(f, c, OpOn(n, p, f.aggressor))
  }

  /** The net effect of a pass: one visit to the victim, before or after the visit to the aggressor. */
  function PassCells(f: Fault, c: Cells, n: nat, p: Pass): Cells
    requires FaultIn(f, n) && PassFor(p, n)
  {
    if !Coupling(f.kind) then AtVictim(f, c, n, p)
    else if (f.aggressor < f.victim) == p.up then AtVictim(f, AtAggressor(f, c, n, p), n, p)
    else AtAggressor(f, AtVictim(f, c, n, p), n, p)
  }

  /** A pass meets word i as its Position-th. */
  lemma Meets(up: bool, n: nat, i: nat, k: nat)
    requires i < n && k < n
    ensures WordAt(up, n, k) == i <==> Position(up, n, i) == k
  {
  }

  lemma PassStep(f: Fault, c: Cells, n: nat, p: Pass, k: nat)
    requires FaultIn(f, n) && PassFor(p, n) && 0 < k <= n
    ensures var ops, i := PassOps(n, p), WordAt(p.up, n, k - 1);
      CellsAfter(f, c, ops[..k]) == VisitOp(f, CellsAfter(f, c, ops[..k - 1]), OpOn(n, p, i))
  {
    hide VisitOp, OneHot, CellsAfter;
    PrefixStep(PassOps(n, p), k - 1);
    CellsAfterOne(f, c, PassOps(n, p)[..k - 1], PassOps(n, p)[k - 1]);
  }

  lemma PassStart(f: Fault, c: Cells, n: nat, p: Pass)
    requires f.Fault? && PassFor(p, n)
    ensures CellsAfter(f, c, PassOps(n, p)[..0]) == c
  {
  }

  lemma VisitElsewhere(f: Fault, c: Cells, n: nat, p: Pass, i: nat)
    requires FaultIn(f, n) && PassFor(p, n) && i < n && i != f.victim && (Coupling(f.kind) ==> i != f.aggressor)
    ensures VisitOp(f, c, OpOn(n, p, i)) == c
  {
  }

  /** The victim part-way through a pass, for faults of a single cell. */
  lemma {:induction false} SingleInOrder(f: Fault, c: Cells, n: nat, p: Pass, k: nat)
    requires FaultIn(f, n) && PassFor(p, n) && k <= n && !Coupling(f.kind)
    ensures CellsAfter(f, c, PassOps(n, p)[..k]) ==
      if Position(p.up, n, f.victim) < k then AtVictim(f, c, n, p) else c
  {
    hide CellsAfter, VisitOp, OneHot, WordAt, Position, PassOps, OpOn;
    if k == 0 {
      PassStart(f, c, n, p);
    } else {
      var i := WordAt(p.up, n, k - 1);
      SingleInOrder(f, c, n, p, k - 1);
      PassStep(f, c, n, p, k);
      Meets(p.up, n, f.victim, k - 1);
      if i != f.victim { VisitElsewhere(f, c, n, p, i); VisitElsewhere(f, AtVictim(f, c, n, p), n, p, i); }
    }
  }

  /** The two cells part-way through a pass, for couplings. */
  lemma {:induction false} CoupledInOrder(f: Fault, c: Cells, n: nat, p: Pass, k: nat)
    requires FaultIn(f, n) && PassFor(p, n) && k <= n && Coupling(f.kind)
    ensures var pv, pa := Position(p.up, n, f.victim), Position(p.up, n, f.aggressor);
      CellsAfter(f, c, PassOps(n, p)[..k]) ==
        if pv < k && pa < k then PassCells(f, c, n, p)
        else if pv < k then AtVictim(f, c, n, p)
        else if pa < k then AtAggressor(f, c, n, p)
        else c
  {
    hide CellsAfter, VisitOp, OneHot, WordAt, Position, PassOps, OpOn;
    Apart(f, n, p.up);
    if k == 0 {
      PassStart(f, c, n, p);
    } else {
      var i := WordAt(p.up, n, k - 1);
      CoupledInOrder(f, c, n, p, k - 1);
      PassStep(f, c, n, p, k);
      Meets(p.up, n, f.victim, k - 1);
      Meets(p.up, n, f.aggressor, k - 1);
      if i != f.victim && i != f.aggressor {
        VisitElsewhere(f, CellsAfter(f, c, PassOps(n, p)[..k - 1]), n, p, i);
      }
    }
  }

  lemma Apart(f: Fault, n: nat, up: bool)
    requires FaultIn(f, n) && Coupling(f.kind)
    ensures Position(up, n, f.aggressor) != Position(up, n, f.victim)
    ensures Position(up, n, f.aggressor) < Position(up, n, f.victim) <==> (f.aggressor < f.victim) == up
  {
  }

  /** A pass moves the two cells as its visits to their words do, in the order of the addresses. */
  lemma PassEffect(f: Fault, c: Cells, n: nat, p: Pass)
    requires FaultIn(f, n) && PassFor(p, n)
    ensures CellsAfter(f, c, PassOps(n, p)) == PassCells(f, c, n, p)
  {
    hide CellsAfter, AtVictim, AtAggressor, OneHot, Position;
    if Coupling(f.kind) {
      CoupledInOrder(f, c, n, p, n);
    } else {
      SingleInOrder(f, c, n, p, n);
    }
    assert PassOps(n, p)[..n] == PassOps(n, p);
  }
}
