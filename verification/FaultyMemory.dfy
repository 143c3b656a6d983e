/** A word memory that may carry one fault, and the effect of a schedule of reads and writes on it. */
module FaultyMemory {
  import opened Sequences
  import opened Wrappers

  const ALL_ONES: bv64 := 0xFFFF_FFFF_FFFF_FFFF

  // ---- bits of a word ------------------------------------------------------

  /** A mask selecting one bit. */
  predicate OneHot(m: bv64) { m != 0 && m & (m - 1) == 0 }

  function Bit(w: bv64, m: bv64): bool { w & m != 0 }

  function Flip(w: bv64, m: bv64): bv64 { w ^ m }

  function Put(w: bv64, m: bv64, v: bool): bv64 { if v then w | m else w & !m }

  /** The solid background of a bit value. */
  function Solid(b: bool): bv64 { if b then ALL_ONES else 0 }

  lemma BitOfFlip(w: bv64, m: bv64)
    requires OneHot(m)
    ensures Bit(Flip(w, m), m) == !Bit(w, m)
  {
  }

  lemma BitOfPut(w: bv64, m: bv64, v: bool)
    requires OneHot(m)
    ensures Bit(Put(w, m, v), m) == v
  {
  }

  lemma BitOfSolid(b: bool, m: bv64)
    requires OneHot(m)
    ensures Bit(Solid(b), m) == b
  {
  }

  // ---- faults --------------------------------------------------------------

  datatype Kind =
    | StuckAt(value: bool)                     // the cell always reads `value`
    | Transition(rising: bool)                 // a write cannot take the cell to `rising`
    | Inversion(rising: bool)                  // a transition of the aggressor to `rising` inverts the victim
    | Idempotent(rising: bool, forced: bool)   // ... forces the victim to `forced`
    | StateCoupling(when: bool, forced: bool)  // the victim reads `forced` while the aggressor holds `when`

  predicate Coupling(k: Kind) {
    k.Inversion? || k.Idempotent? || k.StateCoupling?
  }

  /** At most one fault: a cell (victim word and bit) and, for couplings, a cell of another word. */
  datatype Fault =
    | NoFault
    | Fault(kind: Kind, aggressor: nat, abit: bv64, victim: nat, vbit: bv64)

  predicate FaultIn(f: Fault, n: nat) {
    f.Fault? && f.victim < n && OneHot(f.vbit)
    && (Coupling(f.kind) ==> f.aggressor < n && f.aggressor != f.victim && OneHot(f.abit))
  }

  predicate Fits(f: Fault, n: nat) {
    f.NoFault? || FaultIn(f, n)
  }

  /** Writing v to word i takes the aggressor's bit to `rising`. */
  predicate Triggers(f: Fault, mem: seq<bv64>, i: nat, v: bv64, rising: bool)
    requires f.Fault? && i < |mem|
  {
    i == f.aggressor && Bit(mem[i], f.abit) != rising && Bit(v, f.abit) == rising
  }

  /** The memory after writing v to word i. */
  function Stored(f: Fault, mem: seq<bv64>, i: nat, v: bv64): (after: seq<bv64>)
    requires Fits(f, |mem|) && i < |mem|
    ensures |after| == |mem|
  {
    var plain := mem[i := v];
    if f.NoFault? then plain
    else match f.kind
      case Transition(rising) =>
        if i == f.victim && Bit(mem[i], f.vbit) != rising && Bit(v, f.vbit) == rising
        then mem[i := Put(v, f.vbit, !rising)] else plain
      case Inversion(rising) =>
        if Triggers(f, mem, i, v, rising) then plain[f.victim := Flip(mem[f.victim], f.vbit)] else plain
      case Idempotent(rising, forced) =>
        if Triggers(f, mem, i, v, rising) then plain[f.victim := Put(mem[f.victim], f.vbit, forced)] else plain
      case _ => plain
  }

  /** What a read of word i returns. */
  function Observed(f: Fault, mem: seq<bv64>, i: nat): bv64
    requires Fits(f, |mem|) && i < |mem|
  {
    if f.NoFault? || i != f.victim then mem[i]
    else match f.kind
      case StuckAt(value) => Put(mem[i], f.vbit, value)
      case StateCoupling(when, forced) =>
        if Bit(mem[f.aggressor], f.abit) == when then Put(mem[i], f.vbit, forced) else mem[i]
      case _ => mem[i]
  }

  // ---- schedules -----------------------------------------------------------

  /** One loop iteration of a test: compare the word if a value is expected, then write if there is one to write. */
  datatype Op = Op(word: nat, expected: Option<bv64>, write: Option<bv64>)

  datatype Report = Report(word: nat, expected: bv64, actual: bv64)

  datatype Snapshot = Snapshot(mem: seq<bv64>, reports: seq<Report>)

  predicate OpsIn(ops: seq<Op>, n: nat) {
    forall k :: 0 <= k < |ops| ==> ops[k].word < n
  }

  function Visit(f: Fault, s: Snapshot, op: Op): (t: Snapshot)
    requires Fits(f, |s.mem|) && op.word < |s.mem|
    ensures |t.mem| == |s.mem|
  {
    var seen := Observed(f, s.mem, op.word);
    Snapshot(
      if op.write.Some? then Stored(f, s.mem, op.word, op.write.value) else s.mem,
      if op.expected.Some? && seen != op.expected.value
      then s.reports + [Report(op.word, op.expected.value, seen)] else s.reports)
  }

  function Exec(f: Fault, s: Snapshot, ops: seq<Op>): (t: Snapshot)
    requires Fits(f, |s.mem|) && OpsIn(ops, |s.mem|)
    ensures |t.mem| == |s.mem|
    decreases |ops|
  {
    if ops == [] then s
    else Visit(f, Exec(f, s, ops[..|ops| - 1]), ops[|ops| - 1])
  }

  lemma ExecOne(f: Fault, s: Snapshot, ops: seq<Op>, op: Op)
    requires Fits(f, |s.mem|) && OpsIn(ops, |s.mem|) && op.word < |s.mem|
    ensures Exec(f, s, ops + [op]) == Visit(f, Exec(f, s, ops), op)
  {
    hide Visit;
    assert (ops + [op])[..|ops|] == ops;
  }

  lemma {:induction false} ExecAppend(f: Fault, s: Snapshot, a: seq<Op>, b: seq<Op>)
    requires Fits(f, |s.mem|) && OpsIn(a, |s.mem|) && OpsIn(b, |s.mem|)
    ensures Exec(f, s, a + b) == Exec(f, Exec(f, s, a), b)
    decreases |b|
  {
    hide Visit, Exec, Fits;
    if b == [] {
      assert a + b == a;
      ExecNothing(f, Exec(f, s, a));
    } else {
      var init, last := b[..|b| - 1], b[|b| - 1];
      ExecAppend(f, s, a, init);
      FrontAndLast(b);
      ExecOne(f, Exec(f, s, a), init, last);
      Associate(a, init, [last]);
      ExecOne(f, s, a + init, last);
    }
  }

  lemma ExecNothing(f: Fault, s: Snapshot)
    requires Fits(f, |s.mem|)
    ensures Exec(f, s, []) == s
  {
  }

  /** Reports are only ever appended. */
  lemma {:induction false} ReportsGrow(f: Fault, s: Snapshot, ops: seq<Op>)
    requires Fits(f, |s.mem|) && OpsIn(ops, |s.mem|)
    ensures s.reports <= Exec(f, s, ops).reports
    decreases |ops|
  {
    if ops == [] {
    } else {
      ReportsGrow(f, s, ops[..|ops| - 1]);
    }
  }

  /** What happens does not depend on the reports made before. */
  lemma {:induction false} ReportsOffset(f: Fault, s: Snapshot, ops: seq<Op>)
    requires Fits(f, |s.mem|) && OpsIn(ops, |s.mem|)
    ensures var clean := Exec(f, Snapshot(s.mem, []), ops);
      Exec(f, s, ops) == Snapshot(clean.mem, s.reports + clean.reports)
    decreases |ops|
  {
    if ops == [] {
    } else {
      ReportsOffset(f, s, ops[..|ops| - 1]);
    }
  }

  // ---- passes over the whole memory ----------------------------------------

  function Fill(n: nat, w: bv64): (s: seq<bv64>)
    ensures |s| == n && forall i :: 0 <= i < n ==> s[i] == w
  {
    seq(n, _ => w)
  }

  /** A sweep over all words in one direction; the values are listed per word. */
  datatype Pass = Pass(up: bool, expects: Option<seq<bv64>>, writes: Option<seq<bv64>>)

  predicate PassFor(p: Pass, n: nat) {
    (p.expects.Some? ==> |p.expects.value| == n) && (p.writes.Some? ==> |p.writes.value| == n)
  }

  function WordAt(up: bool, n: nat, k: nat): (i: nat)
    requires k < n
    ensures i < n
  {
    if up then k else n - 1 - k
  }

  function At(values: Option<seq<bv64>>, i: nat): Option<bv64>
    requires values.Some? ==> i < |values.value|
  {
    if values.Some? then Some(values.value[i]) else None
  }

  function OpAt(n: nat, p: Pass, k: nat): Op
    requires PassFor(p, n) && k < n
  {
    var i := WordAt(p.up, n, k);
    Op(i, At(p.expects, i), At(p.writes, i))
  }

  function PassOps(n: nat, p: Pass): (ops: seq<Op>)
    requires PassFor(p, n)
    ensures |ops| == n && OpsIn(ops, n)
  {
    seq(n, k requires 0 <= k < n => OpAt(n, p, k))
  }

  predicate PassesFor(ps: seq<Pass>, n: nat) {
    forall k :: 0 <= k < |ps| ==> PassFor(ps[k], n)
  }

  function PassesOps(n: nat, ps: seq<Pass>): (ops: seq<Op>)
    requires PassesFor(ps, n)
    ensures OpsIn(ops, n)
    decreases |ps|
  {
    if ps == [] then []
    else PassesOps(n, ps[..|ps| - 1]) + PassOps(n, ps[|ps| - 1])
  }

  lemma PassesOne(n: nat, ps: seq<Pass>, p: Pass)
    requires PassesFor(ps, n) && PassFor(p, n)
    ensures PassesOps(n, ps + [p]) == PassesOps(n, ps) + PassOps(n, p)
  {
    assert (ps + [p])[..|ps|] == ps;
  }

  lemma PassesNone(n: nat)
    ensures PassesOps(n, []) == []
  {
  }

  lemma {:induction false} PassesAppend(n: nat, a: seq<Pass>, b: seq<Pass>)
    requires PassesFor(a, n) && PassesFor(b, n)
    ensures PassesOps(n, a + b) == PassesOps(n, a) + PassesOps(n, b)
    decreases |b|
  {
    hide PassesOps, PassOps;
    if b == [] {
      assert a + b == a;
      PassesNone(n);
    } else {
      var init, last := b[..|b| - 1], b[|b| - 1];
      PassesAppend(n, a, init);
      assert a + b == (a + init) + [last];
      PassesOne(n, a + init, last);
      assert b == init + [last];
      PassesOne(n, init, last);
      Associate(PassesOps(n, a), PassesOps(n, init), PassOps(n, last));
    }
  }
}
