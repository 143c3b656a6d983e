/** The RAM test engine of src/engines/ram_engine.cpp: six patterns, error reporting and stopping. */
module RamTest {
  import opened FaultyMemory
  import opened Sequences
  import opened Wrappers
  import opened MarchTheory
  import opened PatternTheory
  import opened Patterns
  import opened QuietTheory
  import opened RoundTheory
  import Prng

  // ---- the engine ----------------------------------------------------------

  datatype MemoryError = MemoryError(address: nat, expected: bv64, actual: bv64, bitDiff: bv64)

  const LOG_LIMIT := 1000

  function Diff(x: bv64, y: bv64): bv64 { x ^ y }

  function ErrorOf(r: Report): MemoryError {
    MemoryError(r.word * 8, r.expected, r.actual, Diff(r.expected, r.actual))
  }

  /** The error log: the first thousand reports. */
  function LogOf(reports: seq<Report>): (log: seq<MemoryError>)
    ensures |log| == if |reports| < LOG_LIMIT then |reports| else LOG_LIMIT
  {
    seq(if |reports| < LOG_LIMIT then |reports| else LOG_LIMIT, k requires 0 <= k < |reports| => ErrorOf(reports[k]))
  }

  /** Each entry of the log names the byte offset, both words, and the bits in which they differ; a thousand are
      kept. */
  lemma LogEntryMeans(reports: seq<Report>, k: nat, m: bv64)
    requires k < |reports| && k < 1000 && OneHot(m)
    ensures |LogOf(reports)| <= 1000 && k < |LogOf(reports)|
    ensures var entry := LogOf(reports)[k];
      entry.address == 8 * reports[k].word && entry.expected == reports[k].expected
      && entry.actual == reports[k].actual
      && (Bit(entry.bitDiff, m) <==> Bit(entry.expected, m) != Bit(entry.actual, m))
  {
    hide Bit, OneHot, Diff;
    DifferentBits(reports[k].expected, reports[k].actual, m);
  }

  lemma MaskedDiff(x: bv64, y: bv64, m: bv64)
    ensures Diff(x, y) & m == Diff(x & m, y & m)
  {
  }

  lemma OwnIs(x: bv64, m: bv64)
    ensures Own(x, m) == x & m
  {
  }

  lemma OwnDiff(x: bv64, y: bv64, m: bv64)
    ensures Own(Diff(x, y), m) == Diff(Own(x, m), Own(y, m))
  {
    hide Diff, Own;
    MaskedDiff(x, y, m);
    OwnIs(x, m);
    OwnIs(y, m);
    OwnIs(Diff(x, y), m);
  }

  lemma DiffOfBits(m: bv64)
    ensures Diff(0, 0) == 0 && Diff(m, m) == 0 && Diff(m, 0) == m && Diff(0, m) == m
  {
  }

  lemma DifferentBits(x: bv64, y: bv64, m: bv64)
    requires OneHot(m)
    ensures Bit(Diff(x, y), m) <==> Bit(x, m) != Bit(y, m)
  {
    hide Diff, OneHot, Bit, Own;
    OwnDiff(x, y, m);
    OneBitOrNone(Diff(x, y), m);
    OneBitOrNone(x, m);
    OneBitOrNone(y, m);
    DiffOfBits(m);
    HotIsNotZero(m);
  }

  lemma HotIsNotZero(m: bv64)
    requires OneHot(m)
    ensures m != 0
  {
  }

  /** From trace t to trace u with the stop flag s before and v after: the iterations done are a prefix of `ops`,
      none if the flag was up before, all if it is not up after. */
  ghost predicate Progress(t: seq<Op>, s: bool, u: seq<Op>, v: bool, ops: seq<Op>) {
    t <= u <= t + ops && (s ==> v && u == t) && (!v ==> u == t + ops)
  }

  lemma ProgressNothing(t: seq<Op>, s: bool)
    ensures Progress(t, s, t, s, [])
  {
  }

  lemma ProgressFresh(u: seq<Op>, v: bool, ops: seq<Op>)
    requires Progress([], false, u, v, ops)
    ensures u <= ops && (!v ==> u == ops)
  {
    assert [] + ops == ops;
  }

  lemma ProgressPrefix(t: seq<Op>, s: bool, v: bool, ops: seq<Op>, k: nat)
    requires k <= |ops| && (s ==> v && k == 0) && (!v ==> k == |ops|)
    ensures Progress(t, s, t + ops[..k], v, ops)
  {
  }

  lemma NextPrefix(t: seq<Op>, ops: seq<Op>, k: nat)
    requires k < |ops|
    ensures (t + ops[..k]) + [ops[k]] == t + ops[..k + 1]
  {
  }

  lemma ProgressThen(t: seq<Op>, s: bool, u: seq<Op>, v: bool, w: seq<Op>, x: bool, a: seq<Op>, b: seq<Op>)
    requires Progress(t, s, u, v, a) && Progress(u, v, w, x, b)
    ensures Progress(t, s, w, x, a + b)
  {
    assert (t + a) + b == t + (a + b);
  }

  lemma ProgressWiden(t: seq<Op>, s: bool, u: seq<Op>, a: seq<Op>, b: seq<Op>)
    requires Progress(t, s, u, true, a) && a <= b
    ensures Progress(t, s, u, true, b)
  {
    assert t + a <= t + b;
  }

  lemma ProgressStopped(t: seq<Op>, s: bool, u: seq<Op>, v: bool, a: seq<Op>)
    requires Progress(t, s, u, v, a)
    ensures Progress(t, s, u, true, a)
  {
  }

  class RamEngine {
    const fault: Fault
    const memory: array<bv64>
    const stopOnError: bool
    /** The first poll of the stop flag that sees a stop() made from outside, if there is one. */
    const stopAtPoll: Option<nat>

    var polls: nat
    var stopRequested: bool
    var errorsFound: nat
    var errorLog: seq<MemoryError>

    ghost const initial: seq<bv64>
    /** The loop iterations executed so far. */
    ghost var trace: seq<Op>

    ghost predicate Valid()
      reads this, memory
    {
      Fits(fault, memory.Length) && |initial| == memory.Length && OpsIn(trace, memory.Length)
      && memory[..] == Executed().mem
      && errorsFound == |Executed().reports|
      && errorLog == LogOf(Executed().reports)
      && (stopRequested ==> stopAtPoll.Some? || (stopOnError && errorsFound > 0))
    }

    ghost function Executed(): Snapshot
      requires Fits(fault, |initial|) && OpsIn(trace, |initial|)
      reads this
    {
      Exec(fault, Snapshot(initial, []), trace)
    }

    twostate predicate Advanced(ops: seq<Op>)
      reads this
    {
      Progress(old(trace), old(stopRequested), trace, stopRequested, ops)
    }

    constructor (cells: array<bv64>, f: Fault, onError: bool, stopAt: Option<nat>)
      requires Fits(f, cells.Length)
      ensures Valid() && fault == f && memory == cells && stopOnError == onError && stopAtPoll == stopAt
      ensures trace == [] && !stopRequested && initial == cells[..]
    {
      fault, memory, stopOnError, stopAtPoll := f, cells, onError, stopAt;
      polls, stopRequested, errorsFound, errorLog := 0, false, 0, [];
      initial, trace := cells[..], [];
    }

    /** stop_requested_.load() in a loop condition. */
    method PollStop() returns (stop: bool)
      requires Valid()
      modifies this`polls, this`stopRequested
      ensures Valid() && stop == stopRequested
      ensures old(stopRequested) ==> stop
    {
      if stopAtPoll.Some? && polls >= stopAtPoll.value {
        stopRequested := true;
      }
      polls := polls + 1;
      stop := stopRequested;
    }

    method ReadWord(i: nat) returns (v: bv64)
      requires Fits(fault, memory.Length) && i < memory.Length
      ensures v == Observed(fault, memory[..], i)
    {
      v := memory[i];
      if fault.Fault? && i == fault.victim {
        match fault.kind {
          case StuckAt(value) => v := Put(v, fault.vbit, value);
          case StateCoupling(when, forced) =>
            if Bit(memory[fault.aggressor], fault.abit) == when { v := Put(v, fault.vbit, forced); }
          case _ =>
        }
      }
    }

    method WriteWord(i: nat, v: bv64)
      requires Fits(fault, memory.Length) && i < memory.Length
      modifies memory
      ensures memory[..] == Stored(fault, old(memory[..]), i, v)
    {
      hide Put, Bit, Flip, OneHot;
      var w := memory[i];
      memory[i] := v;
      if fault.Fault? {
        match fault.kind {
          case Transition(rising) =>
            if i == fault.victim && Bit(w, fault.vbit) != rising && Bit(v, fault.vbit) == rising {
              memory[i] := Put(v, fault.vbit, !rising);
            }
          case Inversion(rising) =>
            if i == fault.aggressor && Bit(w, fault.abit) != rising && Bit(v, fault.abit) == rising {
              memory[fault.victim] := Flip(memory[fault.victim], fault.vbit);
            }
          case Idempotent(rising, forced) =>
            if i == fault.aggressor && Bit(w, fault.abit) != rising && Bit(v, fault.abit) == rising {
              memory[fault.victim] := Put(memory[fault.victim], fault.vbit, forced);
            }
          case _ =>
        }
      }
    }

    method ReportError(address: nat, expected: bv64, actual: bv64)
      modifies this`errorsFound, this`errorLog, this`stopRequested
      ensures errorsFound == old(errorsFound) + 1
      ensures errorLog == if |old(errorLog)| < LOG_LIMIT
        then old(errorLog) + [MemoryError(address, expected, actual, expected ^ actual)] else old(errorLog)
      ensures stopRequested == (old(stopRequested) || stopOnError)
    {
      errorsFound := errorsFound + 1;
      if |errorLog| < LOG_LIMIT {
        errorLog := errorLog + [MemoryError(address, expected, actual, expected ^ actual)];
      }
      if stopOnError { stopRequested := true; }
    }

    /** Compares word i with the expected value; `reports` are the reports made so far. */
    method CompareWord(i: nat, expected: bv64, ghost reports: seq<Report>)
      requires Fits(fault, memory.Length) && i < memory.Length
      requires errorsFound == |reports| && errorLog == LogOf(reports)
      modifies this`errorsFound, this`errorLog, this`stopRequested
      ensures var seen := Observed(fault, memory[..], i);
        var after := if seen != expected then reports + [Report(i, expected, seen)] else reports;
        errorsFound == |after| && errorLog == LogOf(after)
      ensures old(stopRequested) ==> stopRequested
      ensures stopRequested ==> old(stopRequested) || (stopOnError && errorsFound > 0)
    {
      hide LogOf, Observed;
      var actual := ReadWord(i);
      if actual != expected {
        LogGrows(reports, Report(i, expected, actual));
        ReportError(i * 8, expected, actual);
      }
    }

    /** The body of a test loop at word i. */
    method VisitWord(i: nat, expected: Option<bv64>, write: Option<bv64>)
      requires Valid() && i < memory.Length
      modifies this, memory
      ensures Valid() && trace == old(trace) + [Op(i, expected, write)]
      ensures old(stopRequested) ==> stopRequested
    {
      ghost var op := Op(i, expected, write);
      ghost var before := Executed();
      hide Exec, LogOf, Observed, Stored;
      ExecOne(fault, Snapshot(initial, []), trace, op);
      trace := trace + [op];
      if expected.Some? {
        CompareWord(i, expected.value, before.reports);
      }
      if write.Some? {
        WriteWord(i, write.value);
      }
    }

    method RunPass(p: Pass)
      requires Valid() && PassFor(p, memory.Length)
      modifies this, memory
      ensures Valid() && Advanced(PassOps(memory.Length, p))
    {
      hide Exec, LogOf;
      var n := memory.Length;
      ghost var ops := PassOps(n, p);
      var k := 0;
      var stop := false;
      while k < n
        invariant 0 <= k <= n && Valid()
        invariant trace == old(trace) + ops[..k]
        invariant old(stopRequested) ==> stopRequested && k == 0
      {
        stop := PollStop();
        if stop { break; }
        var i := if p.up then k else n - 1 - k;
        VisitWord(i, At(p.expects, i), At(p.writes, i));
        assert ops[..k + 1] == ops[..k] + [ops[k]];
        k := k + 1;
      }
    }

    method RunAll(ps: seq<Pass>)
      requires Valid() && PassesFor(ps, memory.Length)
      modifies this, memory
      ensures Valid() && Advanced(PassesOps(memory.Length, ps))
    {
      hide Exec, LogOf, PassOps, Fits, Progress;
      var n := memory.Length;
      var k := 0;
      PassesNone(n);
      ProgressNothing(trace, stopRequested);
      assert ps[..0] == [];
      while k < |ps|
        invariant 0 <= k <= |ps| && Valid()
        invariant Advanced(PassesOps(n, ps[..k]))
      {
        ghost var t, s := trace, stopRequested;
        RunPass(ps[k]);
        PrefixStep(ps, k);
        PassesOne(n, ps[..k], ps[k]);
        ProgressThen(old(trace), old(stopRequested), t, s, trace, stopRequested,
          PassesOps(n, ps[..k]), PassOps(n, ps[k]));
        k := k + 1;
      }
      assert ps[..|ps|] == ps;
    }

    method WalkingBits(inverted: bool)
      requires Valid()
      modifies this, memory
      ensures Valid() && Advanced(PassesOps(memory.Length, Walk(memory.Length, inverted, 64)))
    {
      hide Valid, PassesOps, WriteVerify, Progress, WalkingOne;
      var n := memory.Length;
      var bit := 0;
      PassesNone(n);
      ProgressNothing(trace, stopRequested);
      while bit < 64
        invariant 0 <= bit <= 64 && Valid()
        invariant Advanced(PassesOps(n, Walk(n, inverted, bit)))
      {
        ghost var done := PassesOps(n, Walk(n, inverted, bit));
        ProgressStopped(old(trace), old(stopRequested), trace, stopRequested, done);
        var stop := PollStop();
        if stop {
          WalkPrefix(n, inverted, bit, 64);
          ProgressWiden(old(trace), old(stopRequested), trace, done, PassesOps(n, Walk(n, inverted, 64)));
          break;
        }
        var w := WalkingOne(bit);
        var pattern := if inverted then !w else w;
        ghost var t, s := trace, stopRequested;
        RunAll(WriteVerify(Fill(n, pattern)));
        PassesAppend(n, Walk(n, inverted, bit), WriteVerify(Fill(n, pattern)));
        ProgressThen(old(trace), old(stopRequested), t, s, trace, stopRequested, done,
          PassesOps(n, WriteVerify(Fill(n, pattern))));
        bit := bit + 1;
      }
    }

    /** Writes a random sequence, then re-seeds a second generator and compares. */
    method RandomPattern(seed: bv64)
      requires Valid()
      modifies this, memory
      ensures Valid() && Advanced(PassesOps(memory.Length, WriteVerify(RandomWords(Prng.Seeded(seed), memory.Length))))
    {
      hide Exec, LogOf, PassOps, PassesOps, Progress, Prng.Seeded;
      var n := memory.Length;
      ghost var words := RandomWords(Prng.Seeded(seed), n);
      RandomSweep(seed, false);
      ghost var t, s := trace, stopRequested;
      RandomSweep(seed, true);
      WriteVerifyOps(words);
      ProgressThen(old(trace), old(stopRequested), t, s, trace, stopRequested,
        PassOps(n, Pass(true, None, Some(words))), PassOps(n, Pass(true, Some(words), None)));
    }

    /** One of the two loops of the random pattern. */
    method RandomSweep(seed: bv64, verify: bool)
      requires Valid()
      modifies this, memory
      ensures Valid() && Advanced(PassOps(memory.Length, RandomPass(memory.Length, seed, verify)))
    {
      hide Valid, PassOps, Progress, RandomPass, Prng.Seeded, Prng.Draws, Prng.Xoshiro256.Abs;
      var n := memory.Length;
      ghost var ops := PassOps(n, RandomPass(n, seed, verify));
      var rng := new Prng.Xoshiro256();
      rng.Seed(seed);
      Prng.NoDraws(Prng.Seeded(seed));
      var i := 0;
      while i < n
        invariant 0 <= i <= n && Valid() && rng.Valid() && fresh(rng.s)
        invariant rng.Abs() == Prng.Draws(Prng.Seeded(seed), i)
        invariant trace == old(trace) + ops[..i]
        invariant old(stopRequested) ==> stopRequested && i == 0
      {
        var stop := PollStop();
        if stop { break; }
        RandomVisit(rng, i, seed, verify);
        NextPrefix(old(trace), ops, i);
        i := i + 1;
      }
      ProgressPrefix(old(trace), old(stopRequested), stopRequested, ops, i);
    }

    /** Draws the next word and writes it to word i, or compares word i with it. */
    method RandomVisit(rng: Prng.Xoshiro256, i: nat, ghost seed: bv64, verify: bool)
      requires Valid() && i < memory.Length && rng.Valid() && rng.s != memory
      requires rng.Abs() == Prng.Draws(Prng.Seeded(seed), i)
      modifies this, memory, rng.s
      ensures Valid() && rng.Abs() == Prng.Draws(Prng.Seeded(seed), i + 1)
      ensures trace == old(trace) + [PassOps(memory.Length, RandomPass(memory.Length, seed, verify))[i]]
      ensures old(stopRequested) ==> stopRequested
    {
      hide Exec, LogOf, PassOps, RandomPass, Prng.Seeded, Prng.Output, Prng.Next;
      var value := rng.Draw();
      RandomOp(memory.Length, seed, verify, i);
      VisitWord(i, if verify then Some(value) else None, if verify then None else Some(value));
    }

    method RunPattern(pattern: Pattern, seed: bv64)
      requires Valid()
      modifies this, memory
      ensures Valid() && Advanced(PassesOps(memory.Length, PatternPasses(pattern, memory.Length, seed)))
    {
      hide Exec, LogOf, PassesOps, MarchPasses, Prng.Seeded;
      var n := memory.Length;
      match pattern {
        case MarchCMinus => RunAll(MarchPasses(n));
        case WalkingOnes => WalkingBits(false);
        case WalkingZeros => WalkingBits(true);
        case Checkerboard =>
          RunAll(WriteVerify(Alternating(n, CHECKER_A, CHECKER_B)) + WriteVerify(Alternating(n, CHECKER_B, CHECKER_A)));
        case Random => RandomPattern(seed);
        case Bandwidth => RunAll(WriteVerify(Fill(n, BANDWIDTH_WORD)));
      }
    }

    /** The loop over the rounds. */
    method RunRounds(pattern: Pattern, seeds: seq<bv64>)
      requires Valid()
      modifies this, memory
      ensures Valid() && Advanced(PassesOps(memory.Length, RunPasses(pattern, memory.Length, seeds)))
    {
      hide Valid, Exec, LogOf, PassesOps, PatternPasses, Progress;
      var n := memory.Length;
      var round := 0;
      assert seeds[..0] == [];
      PassesNone(n);
      ProgressNothing(trace, stopRequested);
      while round < |seeds|
        invariant 0 <= round <= |seeds| && Valid()
        invariant Advanced(PassesOps(n, RunPasses(pattern, n, seeds[..round])))
      {
        ghost var done := PassesOps(n, RunPasses(pattern, n, seeds[..round]));
        ProgressStopped(old(trace), old(stopRequested), trace, stopRequested, done);
        var stop := PollStop();
        if stop {
          RunPrefix(pattern, n, seeds, round);
          ProgressWiden(old(trace), old(stopRequested), trace, done, PassesOps(n, RunPasses(pattern, n, seeds)));
          return;
        }
        ghost var t, s := trace, stopRequested;
        RunPattern(pattern, seeds[round]);
        ProgressThen(old(trace), old(stopRequested), t, s, trace, stopRequested, done,
          PassesOps(n, PatternPasses(pattern, n, seeds[round])));
        PrefixStep(seeds, round);
        PassesAppend(n, RunPasses(pattern, n, seeds[..round]), PatternPasses(pattern, n, seeds[round]));
        round := round + 1;
      }
      assert seeds[..|seeds|] == seeds;
    }

    /** A whole run of a fresh engine, one round per seed. On a sound memory it never reports an error, whenever it
        is stopped. A March run that nobody stops from outside reports every fault, and so do the walking patterns and
        the checkerboard for every stuck cell. */
    method Run(pattern: Pattern, seeds: seq<bv64>)
      requires Valid() && trace == [] && !stopRequested
      modifies this, memory
      ensures Valid()
      ensures trace <= PassesOps(memory.Length, RunPasses(pattern, memory.Length, seeds))
      ensures !stopRequested ==> trace == PassesOps(memory.Length, RunPasses(pattern, memory.Length, seeds))
      ensures fault.NoFault? ==> errorsFound == 0 && errorLog == []
      ensures pattern.MarchCMinus? && fault.Fault? && |seeds| > 0 && stopAtPoll.None? ==> errorsFound > 0
      ensures UsesBothValues(pattern) && fault.Fault? && fault.kind.StuckAt? && |seeds| > 0 && stopAtPoll.None? ==>
        errorsFound > 0
      ensures !pattern.MarchCMinus? && fault.Fault? && stopAtPoll.None? ==>
        (errorsFound > 0 <==> SomeRoundExposes(fault, initial, RunContents(pattern, memory.Length, seeds)))
    {
      hide Exec, LogOf, PassesOps, RunPasses, OneHot, Progress, SomeRoundExposes, RunContents;
      RunRounds(pattern, seeds);
      ghost var n := memory.Length;
      ProgressFresh(trace, stopRequested, PassesOps(n, RunPasses(pattern, n, seeds)));
      if fault.NoFault? {
        RunConsistent(pattern, n, seeds);
        NoFalseAlarm(initial, RunPasses(pattern, n, seeds), trace);
        EmptyLog();
      }
      if pattern.MarchCMinus? && fault.Fault? && |seeds| > 0 && stopAtPoll.None? {
        MarchRunDetects(fault, initial, seeds);
      }
      if UsesBothValues(pattern) && fault.Fault? && fault.kind.StuckAt? && |seeds| > 0 {
        StuckRunDetects(fault, initial, pattern, seeds);
      }
      if !pattern.MarchCMinus? && fault.Fault? {
        RunReportsExactly(fault, initial, pattern, seeds);
        PrefixReports(fault, Snapshot(initial, []), trace, PassesOps(n, RunPasses(pattern, n, seeds)));
      }
    }
  }

  /** What a part of a schedule reports the whole schedule reports, too. */
  lemma PrefixReports(f: Fault, s: Snapshot, done: seq<Op>, ops: seq<Op>)
    requires FaultIn(f, |s.mem|) && OpsIn(ops, |s.mem|) && done <= ops
    ensures OpsIn(done, |s.mem|)
    ensures Exec(f, s, done).reports != [] ==> Exec(f, s, ops).reports != []
  {
    hide Exec, OneHot;
    var rest := ops[|done|..];
    assert ops == done + rest;
    ExecAppend(f, s, done, rest);
    ReportsGrow(f, Exec(f, s, done), rest);
  }

  lemma EmptyLog()
    ensures LogOf([]) == []
  {
  }

  lemma {:induction false} WalkPrefix(n: nat, inverted: bool, i: nat, k: nat)
    requires i <= k <= 64
    ensures PassesOps(n, Walk(n, inverted, i)) <= PassesOps(n, Walk(n, inverted, k))
  {
    hide PassesOps, WriteVerify, WalkingOne;
    if i < k {
      WalkPrefix(n, inverted, i, k - 1);
      var w := WalkingOne(k - 1);
      PassesAppend(n, Walk(n, inverted, k - 1), WriteVerify(Fill(n, if inverted then !w else w)));
    }
  }

  lemma {:induction false} RunPrefix(pattern: Pattern, n: nat, seeds: seq<bv64>, i: nat)
    requires i <= |seeds|
    ensures PassesOps(n, RunPasses(pattern, n, seeds[..i])) <= PassesOps(n, RunPasses(pattern, n, seeds))
    decreases |seeds|
  {
    hide PassesOps, PatternPasses;
    if i == |seeds| {
      assert seeds[..i] == seeds;
    } else {
      var init, last := seeds[..|seeds| - 1], seeds[|seeds| - 1];
      assert init[..i] == seeds[..i];
      RunPrefix(pattern, n, init, i);
      PassesAppend(n, RunPasses(pattern, n, init), PatternPasses(pattern, n, last));
    }
  }

  lemma LogGrows(reports: seq<Report>, r: Report)
    ensures LogOf(reports + [r]) ==
      if |LogOf(reports)| < LOG_LIMIT then LogOf(reports) + [ErrorOf(r)] else LogOf(reports)
  {
  }
}
