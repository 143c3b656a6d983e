/** No consistent test reports anything on a fault-free memory. */
module QuietTheory {
  import opened FaultyMemory
  import opened Wrappers
  import CellTheory

  /** The values the last writing pass left, if there was one. */
  function Latest(ps: seq<Pass>): Option<seq<bv64>>
    decreases |ps|
  {
    if ps == [] then None
    else if ps[|ps| - 1].writes.Some? then ps[|ps| - 1].writes
    else Latest(ps[..|ps| - 1])
  }

  /** Every comparing pass expects what was last written. */
  ghost predicate Consistent(ps: seq<Pass>) {
    forall k :: 0 <= k < |ps| && ps[k].expects.Some? ==> Latest(ps[..k]) == ps[k].expects
  }

  /** The memory part-way through a pass. */
  function Mixed(mem: seq<bv64>, p: Pass, k: nat): (m: seq<bv64>)
    requires PassFor(p, |mem|) && k <= |mem|
    ensures |m| == |mem|
  {
    if p.writes.None? then mem
    else seq(|mem|, i requires 0 <= i < |mem| => MixedAt(mem, p, k, i))
  }

  function MixedAt(mem: seq<bv64>, p: Pass, k: nat, i: nat): bv64
    requires PassFor(p, |mem|) && p.writes.Some? && i < |mem|
  {
    if CellTheory.Position(p.up, |mem|, i) < k then p.writes.value[i] else mem[i]
  }

  lemma MixedStep(mem: seq<bv64>, p: Pass, k: nat)
    requires PassFor(p, |mem|) && k < |mem|
    ensures var i := WordAt(p.up, |mem|, k);
      Mixed(mem, p, k)[i] == mem[i]
      && Mixed(mem, p, k + 1) == if p.writes.Some? then Mixed(mem, p, k)[i := p.writes.value[i]] else mem
  {
    assert forall j :: 0 <= j < |mem| && CellTheory.Position(p.up, |mem|, j) == k ==> j == WordAt(p.up, |mem|, k);
  }

  lemma QuietVisit(s: Snapshot, i: nat, expected: Option<bv64>, write: Option<bv64>)
    requires i < |s.mem| && (expected.Some? ==> expected.value == s.mem[i])
    ensures Visit(NoFault, s, Op(i, expected, write)) ==
      Snapshot(if write.Some? then s.mem[i := write.value] else s.mem, s.reports)
  {
  }

  lemma {:induction false} QuietPass(s: Snapshot, p: Pass, k: nat)
    requires PassFor(p, |s.mem|) && k <= |s.mem|
    requires p.expects.Some? ==> p.expects.value == s.mem
    ensures Exec(NoFault, s, PassOps(|s.mem|, p)[..k]) == Snapshot(Mixed(s.mem, p, k), s.reports)
  {
    hide Visit, Mixed;
    var n := |s.mem|;
    var ops := PassOps(n, p);
    if k == 0 {
      assert ops[..0] == [];
      MixedStart(s.mem, p);
    } else {
      QuietPass(s, p, k - 1);
      assert ops[..k] == ops[..k - 1] + [ops[k - 1]];
      ExecOne(NoFault, s, ops[..k - 1], ops[k - 1]);
      MixedStep(s.mem, p, k - 1);
      var i := WordAt(p.up, n, k - 1);
      QuietVisit(Snapshot(Mixed(s.mem, p, k - 1), s.reports), i, At(p.expects, i), At(p.writes, i));
      if p.writes.None? { MixedNone(s.mem, p, k - 1); }
    }
  }

  lemma MixedStart(mem: seq<bv64>, p: Pass)
    requires PassFor(p, |mem|)
    ensures Mixed(mem, p, 0) == mem
  {
  }

  lemma MixedNone(mem: seq<bv64>, p: Pass, k: nat)
    requires PassFor(p, |mem|) && k <= |mem| && p.writes.None?
    ensures Mixed(mem, p, k) == mem
  {
  }

  lemma {:induction false} QuietPasses(s: Snapshot, ps: seq<Pass>)
    requires PassesFor(ps, |s.mem|) && Consistent(ps)
    ensures var t := Exec(NoFault, s, PassesOps(|s.mem|, ps));
      t.reports == s.reports && (Latest(ps).Some? ==> t.mem == Latest(ps).value)
    decreases |ps|
  {
    hide Mixed;
    var n := |s.mem|;
    if ps == [] {
    } else {
      var init, p := ps[..|ps| - 1], ps[|ps| - 1];
      assert forall k :: 0 <= k < |init| ==> init[..k] == ps[..k];
      assert Consistent(init);
      QuietPasses(s, init);
      var t := Exec(NoFault, s, PassesOps(n, init));
      ExecAppend(NoFault, s, PassesOps(n, init), PassOps(n, p));
      QuietPass(t, p, n);
      assert PassOps(n, p)[..n] == PassOps(n, p);
      MixedAll(t.mem, p);
    }
  }

  lemma MixedAll(mem: seq<bv64>, p: Pass)
    requires PassFor(p, |mem|)
    ensures Mixed(mem, p, |mem|) == if p.writes.Some? then p.writes.value else mem
  {
    if p.writes.None? {
      MixedNone(mem, p, |mem|);
    }
  }

  /** A fault-free memory passes every prefix of a consistent test without a report. */
  lemma {:induction false} NoFalseAlarm(mem: seq<bv64>, ps: seq<Pass>, done: seq<Op>)
    requires PassesFor(ps, |mem|) && Consistent(ps) && done <= PassesOps(|mem|, ps)
    ensures OpsIn(done, |mem|)
    ensures Exec(NoFault, Snapshot(mem, []), done).reports == []
    decreases |ps|
  {
    var n, s := |mem|, Snapshot(mem, []);
    var all := PassesOps(n, ps);
    assert OpsIn(done, n) by {
      forall k | 0 <= k < |done| ensures done[k].word < n { assert done[k] == all[k]; }
    }
    QuietPasses(s, ps);
    ReportsGrow(NoFault, Exec(NoFault, s, done), all[|done|..]);
    assert done + all[|done|..] == all;
    ExecAppend(NoFault, s, done, all[|done|..]);
  }
}
