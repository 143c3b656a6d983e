/** What the patterns report: a consistent test reports something exactly when the bits of the faulty cells show it. */
module PatternTheory {
  import opened CellTheory
  import opened FaultyMemory
  import opened MarchTheory
  import opened Patterns
  import opened QuietTheory
  import opened Sequences
  import opened Wrappers
  import Prng

  // ---- the faulty memory beside a sound one --------------------------------

  /** Two words agree except perhaps in the bits of m. */
  predicate Near(x: bv64, y: bv64, m: bv64) {
    x & !m == y & !m
  }

  lemma SetKeeps(w: bv64, m: bv64)
    ensures (w | m) & !m == w & !m
  {
  }

  lemma ClearKeeps(w: bv64, m: bv64)
    ensures (w & !m) & !m == w & !m
  {
  }

  lemma FlipKeeps(w: bv64, m: bv64)
    ensures (w ^ m) & !m == w & !m
  {
  }

  lemma PutNear(w: bv64, m: bv64, v: bool)
    ensures Near(Put(w, m, v), w, m)
  {
    if v {
      SetKeeps(w, m);
    } else {
      ClearKeeps(w, m);
    }
  }

  lemma FlipNear(w: bv64, m: bv64)
    ensures Near(Flip(w, m), w, m)
  {
    FlipKeeps(w, m);
  }

  lemma NearSelf(w: bv64, m: bv64)
    ensures Near(w, w, m)
  {
  }

  lemma NearLaws(w: bv64, m: bv64, v: bool)
    ensures Near(w, w, m) && Near(Put(w, m, v), w, m) && Near(Flip(w, m), w, m)
  {
    hide Near, Put, Flip;
    NearSelf(w, m);
    PutNear(w, m, v);
    FlipNear(w, m);
  }

  lemma NearTrans(x: bv64, y: bv64, z: bv64, m: bv64)
    requires Near(x, y, m) && Near(y, z, m)
    ensures Near(x, z, m)
  {
  }

  function Own(x: bv64, m: bv64): bv64 { x & m }

  function Others(x: bv64, m: bv64): bv64 { x & !m }

  function Joined(own: bv64, others: bv64): bv64 { own | others }

  lemma OneBitOrNone(x: bv64, m: bv64)
    requires OneHot(m)
    ensures Own(x, m) == if Bit(x, m) then m else 0
  {
  }

  lemma InParts(x: bv64, m: bv64)
    ensures x == Joined(Own(x, m), Others(x, m))
  {
  }

  lemma NearMeans(x: bv64, y: bv64, m: bv64)
    requires Near(x, y, m)
    ensures Others(x, m) == Others(y, m)
  {
  }

  /** Words that agree outside one bit and in that bit are equal. */
  lemma NearAndSameBit(x: bv64, y: bv64, m: bv64)
    requires OneHot(m) && Near(x, y, m) && Bit(x, m) == Bit(y, m)
    ensures x == y
  {
    hide OneHot, Near, Bit, Own, Others, Joined;
    OneBitOrNone(x, m);
    OneBitOrNone(y, m);
    NearMeans(x, y, m);
    InParts(x, m);
    InParts(y, m);
  }

  /** The faulty memory differs from the sound one at most in the victim's bit, the cells show the faulty one, and
      something was reported exactly when the cells have seen a mismatch. */
  ghost predicate Twin(f: Fault, s: Snapshot, q: Snapshot, c: Cells)
    requires FaultIn(f, |s.mem|)
  {
    |q.mem| == |s.mem| && Shows(f, s, c) && q.reports == []
    && (forall i :: 0 <= i < |s.mem| && i != f.victim ==> s.mem[i] == q.mem[i])
    && Near(s.mem[f.victim], q.mem[f.victim], f.vbit)
    && (s.reports != [] ==> c.bad)
  }

  lemma ObservedNear(f: Fault, mem: seq<bv64>)
    requires FaultIn(f, |mem|)
    ensures Near(Observed(f, mem, f.victim), mem[f.victim], f.vbit)
  {
    hide Near, Put, Flip, Bit, OneHot;
    NearLaws(mem[f.victim], f.vbit, if f.kind.StuckAt? then f.kind.value else f.kind.StateCoupling? && f.kind.forced);
  }

  lemma StoredNear(f: Fault, mem: seq<bv64>, i: nat, w: bv64)
    requires FaultIn(f, |mem|) && i < |mem|
    ensures var after := Stored(f, mem, i, w);
      Near(after[f.victim], if i == f.victim then w else mem[f.victim], f.vbit)
      && forall k :: 0 <= k < |mem| && k != f.victim ==> after[k] == mem[i := w][k]
  {
    hide Near, Put, Flip, Bit, OneHot;
    var was := if i == f.victim then w else mem[f.victim];
    NearLaws(was, f.vbit, if f.kind.Transition? then !f.kind.rising else f.kind.Idempotent? && f.kind.forced);
  }

  /** A sound memory that reports nothing holds what is expected. */
  lemma QuietExpected(q: Snapshot, op: Op)
    requires op.word < |q.mem| && q.reports == [] && Visit(NoFault, q, op).reports == []
    ensures op.expected.Some? ==> op.expected.value == q.mem[op.word]
    ensures Visit(NoFault, q, op).mem == if op.write.Some? then q.mem[op.word := op.write.value] else q.mem
  {
  }

  /** A report of the faulty memory is a mismatch in the victim's bit. */
  lemma ReportIsBad(f: Fault, s: Snapshot, q: Snapshot, c: Cells, op: Op)
    requires FaultIn(f, |s.mem|) && Twin(f, s, q, c) && op.word < |s.mem|
    requires op.expected.Some? ==> op.expected.value == q.mem[op.word]
    requires Visit(f, s, op).reports != []
    ensures VisitOp(f, c, op).bad
  {
    hide Near, Put, Flip, Bit, OneHot, Stored, Observed;
    if op.word == f.victim {
      ReadVictim(f, s, c);
      ObservedNear(f, s.mem);
      if op.expected.Some? && Observed(f, s.mem, f.victim) != op.expected.value {
        NearTrans(Observed(f, s.mem, f.victim), s.mem[f.victim], q.mem[f.victim], f.vbit);
        BitsDiffer(Observed(f, s.mem, f.victim), op.expected.value, f.vbit);
      }
    } else {
      ReadElsewhere(f, s.mem, op.word);
    }
  }

  lemma BitsDiffer(x: bv64, y: bv64, m: bv64)
    requires OneHot(m) && Near(x, y, m) && x != y
    ensures Bit(x, m) != Bit(y, m)
  {
    hide Near, Bit, OneHot;
    if Bit(x, m) == Bit(y, m) {
      NearAndSameBit(x, y, m);
    }
  }

  /** The memories after one operation. */
  lemma TwinWrites(f: Fault, s: Snapshot, q: Snapshot, c: Cells, op: Op)
    requires FaultIn(f, |s.mem|) && Twin(f, s, q, c) && op.word < |s.mem| && op.write.Some?
    ensures var after, plain := Stored(f, s.mem, op.word, op.write.value), q.mem[op.word := op.write.value];
      Near(after[f.victim], plain[f.victim], f.vbit)
      && forall i :: 0 <= i < |s.mem| && i != f.victim ==> after[i] == plain[i]
  {
    hide Near, Put, Flip, Bit, OneHot, Stored, Shows;
    StoredNear(f, s.mem, op.word, op.write.value);
    var after := Stored(f, s.mem, op.word, op.write.value);
    if op.word != f.victim {
      NearTrans(after[f.victim], s.mem[f.victim], q.mem[f.victim], f.vbit);
    }
  }

  lemma TwinStep(f: Fault, s: Snapshot, q: Snapshot, c: Cells, op: Op)
    requires FaultIn(f, |s.mem|) && Twin(f, s, q, c) && op.word < |s.mem|
    requires Visit(NoFault, q, op).reports == []
    ensures Twin(f, Visit(f, s, op), Visit(NoFault, q, op), VisitOp(f, c, op))
  {
    hide Near, Put, Flip, Bit, OneHot, Stored, Observed, VisitOp, Shows;
    QuietExpected(q, op);
    OpShows(f, s, c, op);
    if Visit(f, s, op).reports != [] {
      ReportIsBad(f, s, q, c, op);
    }
    if op.write.Some? {
      TwinWrites(f, s, q, c, op);
    }
  }

  lemma {:induction false} RunTwin(f: Fault, mem: seq<bv64>, ps: seq<Pass>, done: seq<Op>)
    requires FaultIn(f, |mem|) && PassesFor(ps, |mem|) && Consistent(ps) && done <= PassesOps(|mem|, ps)
    ensures OpsIn(done, |mem|)
    ensures Twin(f, Exec(f, Snapshot(mem, []), done), Exec(NoFault, Snapshot(mem, []), done),
                 CellsAfter(f, CellsOf(f, mem), done))
    decreases |done|
  {
    hide Twin, Visit, VisitOp, Consistent, PassesOps, OneHot;
    NoFalseAlarm(mem, ps, done);
    var s := Snapshot(mem, []);
    if done == [] {
      StartTwin(f, mem);
    } else {
      var init, last := done[..|done| - 1], done[|done| - 1];
      RunTwin(f, mem, ps, init);
      TwinStep(f, Exec(f, s, init), Exec(NoFault, s, init), CellsAfter(f, CellsOf(f, mem), init), last);
    }
  }

  lemma StartTwin(f: Fault, mem: seq<bv64>)
    requires FaultIn(f, |mem|)
    ensures Twin(f, Snapshot(mem, []), Snapshot(mem, []), CellsOf(f, mem))
  {
    hide Near, OneHot, Bit;
    NearLaws(mem[f.victim], f.vbit, true);
  }

  /** A consistent test on a faulty memory reports something if and only if its cells see a mismatch. */
  lemma ReportsExactly(f: Fault, mem: seq<bv64>, ps: seq<Pass>)
    requires FaultIn(f, |mem|) && PassesFor(ps, |mem|) && Consistent(ps)
    ensures Exec(f, Snapshot(mem, []), PassesOps(|mem|, ps)).reports != [] <==>
      CellsAfter(f, CellsOf(f, mem), PassesOps(|mem|, ps)).bad
  {
    hide Exec, CellsAfter, PassesOps, Consistent, OneHot, Near;
    RunTwin(f, mem, ps, PassesOps(|mem|, ps));
  }

  // ---- stuck cells ---------------------------------------------------------

  /** Some comparison expects the value the cell cannot give. */
  ghost predicate ExpectsOther(f: Fault, n: nat, ps: seq<Pass>)
    requires FaultIn(f, n) && f.kind.StuckAt? && PassesFor(ps, n)
  {
    exists k :: 0 <= k < |ps| && ExpectsOtherIn(f, n, ps[k])
  }

  predicate ExpectsOtherIn(f: Fault, n: nat, p: Pass)
    requires FaultIn(f, n) && f.kind.StuckAt? && PassFor(p, n)
  {
    p.expects.Some? && Bit(p.expects.value[f.victim], f.vbit) != f.kind.value
  }

  lemma {:induction false} StuckCells(f: Fault, c: Cells, n: nat, ps: seq<Pass>)
    requires FaultIn(f, n) && f.kind.StuckAt? && PassesFor(ps, n)
    ensures CellsAfter(f, c, PassesOps(n, ps)).bad <==> c.bad || ExpectsOther(f, n, ps)
    decreases |ps|
  {
    hide CellsAfter, PassesOps, PassOps, OneHot, ExpectsOtherIn;
    if ps == [] {
      PassesNone(n);
      CellsAfterNothing(f, c);
    } else {
      var init, last := ps[..|ps| - 1], ps[|ps| - 1];
      StuckCells(f, c, n, init);
      FrontAndLast(ps);
      PassesOne(n, init, last);
      CellsAfterAppend(f, c, PassesOps(n, init), PassOps(n, last));
      StuckPass(f, CellsAfter(f, c, PassesOps(n, init)), n, last);
      assert ExpectsOther(f, n, ps) <==> ExpectsOther(f, n, init) || ExpectsOtherIn(f, n, last) by {
        if k :| 0 <= k < |init| && ExpectsOtherIn(f, n, init[k]) {
          assert ps[k] == init[k];
        }
      }
    }
  }

  lemma StuckPass(f: Fault, c: Cells, n: nat, p: Pass)
    requires FaultIn(f, n) && f.kind.StuckAt? && PassFor(p, n)
    ensures CellsAfter(f, c, PassOps(n, p)).bad <==> c.bad || ExpectsOtherIn(f, n, p)
  {
    hide CellsAfter, PassOps, Bit, OneHot;
    PassEffect(f, c, n, p);
  }

  /** A stuck cell is reported by a consistent test if and only if it expects the other value there. */
  lemma StuckReportedExactly(f: Fault, mem: seq<bv64>, ps: seq<Pass>)
    requires FaultIn(f, |mem|) && f.kind.StuckAt? && PassesFor(ps, |mem|) && Consistent(ps)
    ensures Exec(f, Snapshot(mem, []), PassesOps(|mem|, ps)).reports != [] <==> ExpectsOther(f, |mem|, ps)
  {
    hide Exec, CellsAfter, PassesOps, Consistent, OneHot, ExpectsOther;
    ReportsExactly(f, mem, ps);
    StuckCells(f, CellsOf(f, mem), |mem|, ps);
  }

  // ---- which patterns report a stuck cell ----------------------------------

  const TOP_BIT: bv64 := 0x8000_0000_0000_0000

  predicate AtMost(x: bv64, y: bv64) { x <= y }

  function Doubled(w: bv64): bv64 { w << 1 }

  lemma WalkingTable0()
    ensures WalkingOne(0) == 0x1 && WalkingOne(1) == 0x2 && WalkingOne(2) == 0x4 && WalkingOne(3) == 0x8
    ensures WalkingOne(4) == 0x10 && WalkingOne(5) == 0x20 && WalkingOne(6) == 0x40 && WalkingOne(7) == 0x80
    ensures WalkingOne(8) == 0x100 && WalkingOne(9) == 0x200 && WalkingOne(10) == 0x400 && WalkingOne(11) == 0x800
    ensures WalkingOne(12) == 0x1000 && WalkingOne(13) == 0x2000 && WalkingOne(14) == 0x4000 && WalkingOne(15) == 0x8000
  {
  }

  lemma WalkingTable1()
    ensures WalkingOne(16) == 0x1_0000 && WalkingOne(17) == 0x2_0000
    ensures WalkingOne(18) == 0x4_0000 && WalkingOne(19) == 0x8_0000
    ensures WalkingOne(20) == 0x10_0000 && WalkingOne(21) == 0x20_0000
    ensures WalkingOne(22) == 0x40_0000 && WalkingOne(23) == 0x80_0000
    ensures WalkingOne(24) == 0x100_0000 && WalkingOne(25) == 0x200_0000
    ensures WalkingOne(26) == 0x400_0000 && WalkingOne(27) == 0x800_0000
    ensures WalkingOne(28) == 0x1000_0000 && WalkingOne(29) == 0x2000_0000
    ensures WalkingOne(30) == 0x4000_0000 && WalkingOne(31) == 0x8000_0000
  {
  }

  lemma WalkingTable2()
    ensures WalkingOne(32) == 0x1_0000_0000 && WalkingOne(33) == 0x2_0000_0000
    ensures WalkingOne(34) == 0x4_0000_0000 && WalkingOne(35) == 0x8_0000_0000
    ensures WalkingOne(36) == 0x10_0000_0000 && WalkingOne(37) == 0x20_0000_0000
    ensures WalkingOne(38) == 0x40_0000_0000 && WalkingOne(39) == 0x80_0000_0000
    ensures WalkingOne(40) == 0x100_0000_0000 && WalkingOne(41) == 0x200_0000_0000
    ensures WalkingOne(42) == 0x400_0000_0000 && WalkingOne(43) == 0x800_0000_0000
    ensures WalkingOne(44) == 0x1000_0000_0000 && WalkingOne(45) == 0x2000_0000_0000
    ensures WalkingOne(46) == 0x4000_0000_0000 && WalkingOne(47) == 0x8000_0000_0000
  {
  }

  lemma WalkingTable3()
    ensures WalkingOne(48) == 0x1_0000_0000_0000 && WalkingOne(49) == 0x2_0000_0000_0000
    ensures WalkingOne(50) == 0x4_0000_0000_0000 && WalkingOne(51) == 0x8_0000_0000_0000
    ensures WalkingOne(52) == 0x10_0000_0000_0000 && WalkingOne(53) == 0x20_0000_0000_0000
    ensures WalkingOne(54) == 0x40_0000_0000_0000 && WalkingOne(55) == 0x80_0000_0000_0000
    ensures WalkingOne(56) == 0x100_0000_0000_0000 && WalkingOne(57) == 0x200_0000_0000_0000
    ensures WalkingOne(58) == 0x400_0000_0000_0000 && WalkingOne(59) == 0x800_0000_0000_0000
    ensures WalkingOne(60) == 0x1000_0000_0000_0000 && WalkingOne(61) == 0x2000_0000_0000_0000
    ensures WalkingOne(62) == 0x4000_0000_0000_0000 && WalkingOne(63) == 0x8000_0000_0000_0000
  {
  }

  lemma WalkingNext0(bit: nat)
    requires 0 <= bit < 16
    ensures WalkingOne(bit + 1) == Doubled(WalkingOne(bit))
  {
    hide WalkingOne;
    WalkingTable0();
    WalkingTable1();
  }

  lemma WalkingNext1(bit: nat)
    requires 16 <= bit < 32
    ensures WalkingOne(bit + 1) == Doubled(WalkingOne(bit))
  {
    hide WalkingOne;
    WalkingTable1();
    WalkingTable2();
  }

  lemma WalkingNext2(bit: nat)
    requires 32 <= bit < 48
    ensures WalkingOne(bit + 1) == Doubled(WalkingOne(bit))
  {
    hide WalkingOne;
    WalkingTable2();
    WalkingTable3();
  }

  lemma WalkingNext3(bit: nat)
    requires 48 <= bit < 63
    ensures WalkingOne(bit + 1) == Doubled(WalkingOne(bit))
  {
    hide WalkingOne;
    WalkingTable3();
  }

  lemma WalkingNext(bit: nat)
    requires bit < 63
    ensures WalkingOne(bit + 1) == Doubled(WalkingOne(bit))
  {
    hide WalkingOne, Doubled;
    if bit < 16 {
      WalkingNext0(bit);
    } else if bit < 32 {
      WalkingNext1(bit);
    } else if bit < 48 {
      WalkingNext2(bit);
    } else {
      WalkingNext3(bit);
    }
  }

  lemma WalkingEnds()
    ensures WalkingOne(0) == 1 && WalkingOne(63) == TOP_BIT
  {
  }

  /** Between a bit and the next one there is no word with one bit set. */
  lemma NoneBetween(w: bv64, m: bv64)
    requires OneHot(w) && OneHot(m) && AtMost(w, m) && w != m
    ensures w != TOP_BIT && OneHot(Doubled(w)) && AtMost(Doubled(w), m)
  {
  }

  /** Every word with one bit set is one of those the walking patterns use. */
  lemma {:induction false} BitIndexFrom(m: bv64, low: nat) returns (bit: nat)
    requires OneHot(m) && low < 64 && OneHot(WalkingOne(low)) && AtMost(WalkingOne(low), m)
    ensures bit < 64 && WalkingOne(bit) == m
    decreases 64 - low
  {
    hide WalkingOne, OneHot, AtMost, Doubled;
    bit := low;
    if WalkingOne(low) != m {
      NoneBetween(WalkingOne(low), m);
      WalkingEnds();
      WalkingNext(low);
      bit := BitIndexFrom(m, low + 1);
    }
  }

  lemma BitIndex(m: bv64) returns (bit: nat)
    requires OneHot(m)
    ensures bit < 64 && WalkingOne(bit) == m
  {
    hide WalkingOne;
    WalkingEnds();
    bit := BitIndexFrom(m, 0);
  }

  /** Another bit than the given one walks, too. */
  lemma OtherIndex(m: bv64) returns (bit: nat)
    requires OneHot(m)
    ensures bit < 64 && !Bit(WalkingOne(bit), m) && Bit(!WalkingOne(bit), m)
  {
    assert WalkingOne(0) == 1 && WalkingOne(1) == 2;
    bit := if m == 1 then 1 else 0;
    OtherBit(m);
  }

  lemma OtherBit(m: bv64)
    requires OneHot(m)
    ensures m != 1 ==> !Bit(1, m) && Bit(!1, m)
    ensures m == 1 ==> !Bit(2, m) && Bit(!2, m)
  {
  }

  lemma OwnBit(m: bv64)
    requires OneHot(m)
    ensures Bit(m, m) && !Bit(!m, m)
  {
  }

  /** The words of the walk for one bit. */
  function WalkWords(n: nat, inverted: bool, bit: nat): (w: seq<bv64>)
    requires bit < 64
    ensures |w| == n
  {
    Fill(n, if inverted then !WalkingOne(bit) else WalkingOne(bit))
  }

  lemma WalkStep(n: nat, inverted: bool, bit: nat)
    requires bit < 64
    ensures var w := Some(WalkWords(n, inverted, bit));
      Walk(n, inverted, bit + 1) == Walk(n, inverted, bit) + [Pass(true, None, w), Pass(true, w, None)]
  {
    hide WalkingOne, Fill;
  }

  /** The walk contains the verifying pass of each of its bits. */
  lemma {:induction false} WalkVerifies(n: nat, inverted: bool, k: nat, bit: nat)
    requires bit < k <= 64
    ensures |Walk(n, inverted, k)| == 2 * k
    ensures Walk(n, inverted, k)[2 * bit + 1] == Pass(true, Some(WalkWords(n, inverted, bit)), None)
  {
    hide Walk, WalkWords;
    WalkStep(n, inverted, k - 1);
    if bit < k - 1 {
      WalkVerifies(n, inverted, k - 1, bit);
    } else if k == 1 {
      WalkNothing(n, inverted);
    } else {
      WalkVerifies(n, inverted, k - 1, 0);
    }
  }

  lemma WalkNothing(n: nat, inverted: bool)
    ensures Walk(n, inverted, 0) == []
  {
  }

  lemma WalkFindsStuck(f: Fault, n: nat, inverted: bool)
    requires FaultIn(f, n) && f.kind.StuckAt?
    ensures ExpectsOther(f, n, Walk(n, inverted, 64))
  {
    hide WalkingOne, OneHot, Bit, Walk;
    var own := BitIndex(f.vbit);
    OwnBit(f.vbit);
    var other := OtherIndex(f.vbit);
    WalkVerifies(n, inverted, 64, own);
    WalkVerifies(n, inverted, 64, other);
    var ps := Walk(n, inverted, 64);
    assert ExpectsOtherIn(f, n, ps[2 * own + 1]) || ExpectsOtherIn(f, n, ps[2 * other + 1]);
  }

  lemma CheckersAreOpposite(m: bv64)
    requires OneHot(m)
    ensures Bit(CHECKER_A, m) != Bit(CHECKER_B, m)
  {
  }

  lemma CheckerFindsStuck(f: Fault, n: nat, seed: bv64)
    requires FaultIn(f, n) && f.kind.StuckAt?
    ensures ExpectsOther(f, n, PatternPasses(Checkerboard, n, seed))
  {
    hide OneHot, Bit;
    CheckersAreOpposite(f.vbit);
    var ps := PatternPasses(Checkerboard, n, seed);
    assert ExpectsOtherIn(f, n, ps[1]) || ExpectsOtherIn(f, n, ps[3]);
  }

  lemma MarchFindsStuck(f: Fault, n: nat, seed: bv64)
    requires FaultIn(f, n) && f.kind.StuckAt?
    ensures ExpectsOther(f, n, PatternPasses(MarchCMinus, n, seed))
  {
    hide OneHot, Bit, Solid;
    BitOfSolid(false, f.vbit);
    BitOfSolid(true, f.vbit);
    var ps := PatternPasses(MarchCMinus, n, seed);
    assert ps[1] == ElementPass(n, MARCH[1]) && ps[2] == ElementPass(n, MARCH[2]);
    assert ExpectsOtherIn(f, n, ps[1]) || ExpectsOtherIn(f, n, ps[2]);
  }

  /** The one value the random and the bandwidth pattern give to a word in a round. */
  function OnlyWord(pattern: Pattern, n: nat, seed: bv64, i: nat): bv64
    requires i < n
  {
    if pattern.Random? then RandomWords(Prng.Seeded(seed), n)[i] else BANDWIDTH_WORD
  }

  lemma OneWordFindsStuck(f: Fault, n: nat, pattern: Pattern, seed: bv64)
    requires FaultIn(f, n) && f.kind.StuckAt? && (pattern.Random? || pattern.Bandwidth?)
    ensures ExpectsOther(f, n, PatternPasses(pattern, n, seed)) <==>
      Bit(OnlyWord(pattern, n, seed, f.victim), f.vbit) != f.kind.value
  {
    hide OneHot, Bit, RandomWords, Prng.Seeded;
    var ps := PatternPasses(pattern, n, seed);
    assert |ps| == 2 && !ExpectsOtherIn(f, n, ps[0]);
    assert ExpectsOtherIn(f, n, ps[1]) <==> Bit(OnlyWord(pattern, n, seed, f.victim), f.vbit) != f.kind.value;
  }

  /** The patterns that give every bit both values. */
  predicate UsesBothValues(pattern: Pattern) {
    !pattern.Random? && !pattern.Bandwidth?
  }

  lemma PatternExpectsOther(f: Fault, n: nat, pattern: Pattern, seed: bv64)
    requires FaultIn(f, n) && f.kind.StuckAt?
    ensures ExpectsOther(f, n, PatternPasses(pattern, n, seed)) <==>
      (UsesBothValues(pattern) || Bit(OnlyWord(pattern, n, seed, f.victim), f.vbit) != f.kind.value)
  {
    hide OneHot, Bit, ExpectsOther, OnlyWord;
    match pattern {
      case MarchCMinus => MarchFindsStuck(f, n, seed);
      case WalkingOnes => WalkFindsStuck(f, n, false);
      case WalkingZeros => WalkFindsStuck(f, n, true);
      case Checkerboard => CheckerFindsStuck(f, n, seed);
      case _ => OneWordFindsStuck(f, n, pattern, seed);
    }
  }

  /** One round of March C-, of a walking pattern or of the checkerboard reports every stuck cell; one of the random or
      the bandwidth pattern reports it exactly when the word it writes there has the other value. */
  lemma StuckCellReported(f: Fault, mem: seq<bv64>, pattern: Pattern, seed: bv64)
    requires FaultIn(f, |mem|) && f.kind.StuckAt?
    ensures Exec(f, Snapshot(mem, []), PassesOps(|mem|, PatternPasses(pattern, |mem|, seed))).reports != [] <==>
      (UsesBothValues(pattern) || Bit(OnlyWord(pattern, |mem|, seed, f.victim), f.vbit) != f.kind.value)
  {
    hide Exec, PassesOps, Consistent, OneHot, Bit, ExpectsOther, OnlyWord, PatternPasses, UsesBothValues;
    PatternConsistent(pattern, |mem|, seed);
    StuckReportedExactly(f, mem, PatternPasses(pattern, |mem|, seed));
    PatternExpectsOther(f, |mem|, pattern, seed);
  }

  lemma ExpectsOtherLater(f: Fault, n: nat, before: seq<Pass>, ps: seq<Pass>)
    requires FaultIn(f, n) && f.kind.StuckAt? && PassesFor(before, n) && PassesFor(ps, n)
    requires ExpectsOther(f, n, ps)
    ensures ExpectsOther(f, n, before + ps)
  {
    hide ExpectsOtherIn, OneHot;
    var k :| 0 <= k < |ps| && ExpectsOtherIn(f, n, ps[k]);
    assert (before + ps)[|before| + k] == ps[k];
  }

  /** A run of at least one round of a pattern with both values reports every stuck cell. */
  lemma StuckRunDetects(f: Fault, mem: seq<bv64>, pattern: Pattern, seeds: seq<bv64>)
    requires FaultIn(f, |mem|) && f.kind.StuckAt? && UsesBothValues(pattern) && |seeds| > 0
    ensures Exec(f, Snapshot(mem, []), PassesOps(|mem|, RunPasses(pattern, |mem|, seeds))).reports != []
  {
    hide Exec, PassesOps, Consistent, OneHot, Bit, ExpectsOther, OnlyWord, PatternPasses, UsesBothValues;
    var n, init, last := |mem|, seeds[..|seeds| - 1], seeds[|seeds| - 1];
    RunConsistent(pattern, n, seeds);
    StuckReportedExactly(f, mem, RunPasses(pattern, n, seeds));
    PatternExpectsOther(f, n, pattern, last);
    ExpectsOtherLater(f, n, RunPasses(pattern, n, init), PatternPasses(pattern, n, last));
  }
}
