/** The power/error correlation of src/engines/psu_engine.cpp: a streaming analysis against its whole-history
  * meaning. */
module PsuAnalysis {

  /** What one poll reads: the time, the powers and the cumulative error counts of the two sub-engines. */
  datatype Sample = Sample(
    time: real,
    cpuPower: real,
    gpuPower: real,
    cpuErrors: int,
    gpuErrors: int,
    cpuRunning: bool,
    gpuRunning: bool)

  function Power(s: Sample): real { s.cpuPower + s.gpuPower }

  function Errors(s: Sample): int { s.cpuErrors + s.gpuErrors }

  // ---- the meaning, over the whole history ---------------------------------

  predicate TimeOrdered(h: seq<Sample>) {
    forall i, j :: 0 <= i <= j < |h| ==> h[i].time <= h[j].time
  }

  /** Total power at sample k, 0 before the first. */
  function PowerBefore(h: seq<Sample>, k: nat): real
    requires k < |h|
  {
    if k == 0 then 0.0 else Power(h[k - 1])
  }

  function ErrorsBefore(h: seq<Sample>, k: nat): int
    requires k < |h|
  {
    if k == 0 then 0 else Errors(h[k - 1])
  }

  function DropWatts(h: seq<Sample>, k: nat): real
    requires k < |h|
  {
    PowerBefore(h, k) - Power(h[k])
  }

  /** Sample k lies more than 10% below its predecessor, both being positive. */
  predicate IsDrop(h: seq<Sample>, k: nat)
    requires k < |h|
  {
    PowerBefore(h, k) > 0.0 && Power(h[k]) > 0.0 && DropWatts(h, k) / PowerBefore(h, k) > 0.10
  }

  predicate RaisesErrors(h: seq<Sample>, k: nat)
    requires k < |h|
  {
    Errors(h[k]) > ErrorsBefore(h, k)
  }

  /** Sample k raises the error count at most one second after the drop d, which is not later. */
  predicate CorrelatedAt(h: seq<Sample>, d: nat, k: nat) {
    d <= k < |h| && IsDrop(h, d) && RaisesErrors(h, k) && h[k].time - h[d].time <= 1.0
  }

  ghost predicate Correlated(h: seq<Sample>) {
    exists d: nat, k: nat :: CorrelatedAt(h, d, k)
  }

  /** Sample k raises the error count within a second of some drop up to it. */
  ghost predicate CorrelatedNow(h: seq<Sample>, k: nat) {
    exists d: nat :: CorrelatedAt(h, d, k)
  }

  function DropCount(h: seq<Sample>): nat {
    if h == [] then 0 else DropCount(h[..|h| - 1]) + if IsDrop(h, |h| - 1) then 1 else 0
  }

  /** m is the largest drop, 0 if there is none. */
  ghost predicate LargestDrop(h: seq<Sample>, m: real) {
    (forall k: nat :: k < |h| && IsDrop(h, k) ==> DropWatts(h, k) <= m)
    && (m == 0.0 || exists k: nat :: k < |h| && IsDrop(h, k) && DropWatts(h, k) == m)
  }

  /** The powers that count: the positive ones. */
  function PositiveSum(h: seq<Sample>): real {
    if h == [] then 0.0
    else PositiveSum(h[..|h| - 1]) + if Power(h[|h| - 1]) > 0.0 then Power(h[|h| - 1]) else 0.0
  }

  function PositiveCount(h: seq<Sample>): nat {
    if h == [] then 0 else PositiveCount(h[..|h| - 1]) + if Power(h[|h| - 1]) > 0.0 then 1 else 0
  }

  const MIN_START := 1000000000.0

  /** lo and hi bound the positive powers, tightly unless all lie above the starting minimum. */
  ghost predicate Range(h: seq<Sample>, lo: real, hi: real) {
    (forall k: nat :: k < |h| && Power(h[k]) > 0.0 ==> lo <= Power(h[k]) <= hi)
    && (lo == MIN_START || exists k: nat :: k < |h| && Power(h[k]) > 0.0 && Power(h[k]) == lo)
    && (hi == 0.0 || exists k: nat :: k < |h| && Power(h[k]) > 0.0 && Power(h[k]) == hi)
    && lo <= MIN_START && hi >= 0.0
  }

  /** The stability figure for given statistics. */
  function Stability(sum: real, count: nat, lo: real, hi: real): real
    requires count > 0 && sum > 0.0
  {
    var s := 100.0 - (hi - lo) / (sum / count as real) * 100.0;
    if s < 0.0 then 0.0 else s
  }

  function LatestPower(h: seq<Sample>): real { if h == [] then 0.0 else Power(h[|h| - 1]) }

  function LatestErrors(h: seq<Sample>): int { if h == [] then 0 else Errors(h[|h| - 1]) }

  // ---- the same in other words ---------------------------------------------

  /** Sample k has less than nine tenths of the power of sample k - 1, but some. */
  predicate FallsShort(h: seq<Sample>, k: nat) {
    0 < k < |h| && h[k].cpuPower + h[k].gpuPower > 0.0
    && 10.0 * (h[k].cpuPower + h[k].gpuPower) < 9.0 * (h[k - 1].cpuPower + h[k - 1].gpuPower)
  }

  lemma DropExactly(h: seq<Sample>, k: nat)
    requires k < |h|
    ensures IsDrop(h, k) <==> FallsShort(h, k)
  {
    if k > 0 && Power(h[k - 1]) > 0.0 {
      TenPercent(Power(h[k - 1]), Power(h[k]));
    }
  }

  lemma TenPercent(before: real, now: real)
    requires before > 0.0
    ensures (before - now) / before > 0.10 <==> 10.0 * now < 9.0 * before
  {
    var part := (before - now) / before;
    assert part * before == before - now;
    if part > 0.10 { Scale(part - 0.10, before); }
    if part <= 0.10 { Scale(0.10 - part, before); }
  }

  lemma Scale(x: real, y: real)
    requires x >= 0.0 && y > 0.0
    ensures x * y >= 0.0 && (x > 0.0 ==> x * y > 0.0)
  {
  }

  /** The errors of both engines together grow from sample k - 1 to sample k; before the first there are none. */
  predicate NewErrors(h: seq<Sample>, k: nat) {
    k < |h| && h[k].cpuErrors + h[k].gpuErrors > if k == 0 then 0 else h[k - 1].cpuErrors + h[k - 1].gpuErrors
  }

  /** Correlation in terms of the samples alone. */
  lemma CorrelatedExactly(h: seq<Sample>)
    ensures Correlated(h) <==>
      exists d: nat, k: nat :: d <= k && FallsShort(h, d) && NewErrors(h, k) && h[k].time <= h[d].time + 1.0
  {
    hide IsDrop, FallsShort;
    forall d: nat, k: nat | d <= k < |h|
      ensures CorrelatedAt(h, d, k) <==> FallsShort(h, d) && NewErrors(h, k) && h[k].time <= h[d].time + 1.0
    {
      DropExactly(h, d);
    }
    if d: nat, k: nat :| d <= k && FallsShort(h, d) && NewErrors(h, k) && h[k].time <= h[d].time + 1.0 {
      assert CorrelatedAt(h, d, k);
    }
    if Correlated(h) {
      var d: nat, k: nat :| CorrelatedAt(h, d, k);
      assert FallsShort(h, d) && NewErrors(h, k);
    }
  }

  /** The samples that are drops. */
  function Drops(h: seq<Sample>): set<nat> {
    set k: nat | k < |h| && FallsShort(h, k)
  }

  lemma {:induction false} DropCountIsNumber(h: seq<Sample>)
    ensures DropCount(h) == |Drops(h)|
  {
    hide FallsShort, IsDrop;
    if h == [] {
      assert Drops(h) == {};
    } else {
      var n := |h| - 1;
      DropCountIsNumber(h[..n]);
      forall k: nat | k < n ensures FallsShort(h[..n], k) == FallsShort(h, k) { SameShort(h, k, n); }
      DropExactly(h, n);
      if FallsShort(h, n) {
        assert Drops(h) == Drops(h[..n]) + {n};
      } else {
        assert Drops(h) == Drops(h[..n]);
      }
    }
  }

  lemma SameShort(h: seq<Sample>, k: nat, n: nat)
    requires k < n <= |h|
    ensures FallsShort(h[..n], k) == FallsShort(h, k)
  {
  }

  /** The watts lost from sample k - 1 to sample k. */
  function Lost(h: seq<Sample>, k: nat): real
    requires 0 < k < |h|
  {
    h[k - 1].cpuPower + h[k - 1].gpuPower - (h[k].cpuPower + h[k].gpuPower)
  }

  /** The stored maximum in terms of the samples alone. */
  lemma LargestDropExactly(h: seq<Sample>, m: real)
    ensures LargestDrop(h, m) <==>
      ((forall k: nat :: FallsShort(h, k) ==> Lost(h, k) <= m)
       && (m == 0.0 || exists k: nat :: FallsShort(h, k) && Lost(h, k) == m))
  {
    hide IsDrop;
    forall k: nat | k < |h|
      ensures IsDrop(h, k) <==> FallsShort(h, k)
      ensures FallsShort(h, k) ==> DropWatts(h, k) == Lost(h, k)
    {
      DropExactly(h, k);
    }
  }

  /** The figure is 100 less the range in percent of the average, and 0 when the range is at least the average. */
  lemma StabilityExactly(sum: real, count: nat, lo: real, hi: real)
    requires count > 1 && sum > 0.0
    ensures var s, range := StabilityOf(sum, count, lo, hi), (hi - lo) * count as real;
      if range >= sum then s == 0.0 else (100.0 - s) * sum == 100.0 * range
  {
    var n := count as real;
    var avg := sum / n;
    assert avg * n == sum;
    AveragePositive(sum, count);
    var q := (hi - lo) / avg;
    assert q * avg == hi - lo;
    MulSwap(q, avg, n);
    assert q * sum == (hi - lo) * n;
    if q >= 1.0 { Scale(q - 1.0, sum); }
    if q < 1.0 { Scale(1.0 - q, sum); }
  }

  lemma MulSwap(q: real, a: real, n: real)
    ensures (q * a) * n == q * (a * n)
  {
  }

  // ---- one more sample -----------------------------------------------------

  /** The definitions at an old index do not change when a sample is appended. */
  lemma OldIndex(h: seq<Sample>, s: Sample, k: nat)
    requires k < |h|
    ensures IsDrop(h + [s], k) == IsDrop(h, k) && DropWatts(h + [s], k) == DropWatts(h, k)
    ensures RaisesErrors(h + [s], k) == RaisesErrors(h, k)
  {
  }

  /** The latest drop, if any. */
  ghost predicate LastDrop(h: seq<Sample>, d: nat) {
    d < |h| && IsDrop(h, d) && forall k: nat :: d < k < |h| ==> !IsDrop(h, k)
  }

  ghost predicate NoDrop(h: seq<Sample>) {
    forall k: nat :: k < |h| ==> !IsDrop(h, k)
  }

  lemma CorrelatedGrows(h: seq<Sample>, s: Sample)
    ensures Correlated(h + [s]) <==> Correlated(h) || CorrelatedNow(h + [s], |h|)
  {
    var g := h + [s];
    if Correlated(h) {
      var d: nat, k: nat :| CorrelatedAt(h, d, k);
      OldIndex(h, s, d);
      OldIndex(h, s, k);
      assert CorrelatedAt(g, d, k);
    }
    if Correlated(g) {
      var d: nat, k: nat :| CorrelatedAt(g, d, k);
      if k < |h| {
        OldIndex(h, s, d);
        OldIndex(h, s, k);
        assert CorrelatedAt(h, d, k);
      } else {
        assert CorrelatedAt(g, d, |h|);
      }
    }
  }

  /** Only the latest drop matters: it is the closest in time. */
  lemma LastDropDecides(g: seq<Sample>, d: nat, k: nat)
    requires TimeOrdered(g) && k == |g| - 1 && LastDrop(g, d)
    ensures CorrelatedNow(g, k) <==> RaisesErrors(g, k) && g[k].time - g[d].time <= 1.0
  {
    hide IsDrop, RaisesErrors;
    if CorrelatedNow(g, k) {
      var e: nat :| CorrelatedAt(g, e, k);
      assert e <= d;
    }
    if RaisesErrors(g, k) && g[k].time - g[d].time <= 1.0 {
      assert CorrelatedAt(g, d, k);
    }
  }

  lemma NoDropNoCorrelation(g: seq<Sample>, k: nat)
    requires NoDrop(g)
    ensures !CorrelatedNow(g, k)
  {
  }

  /** The latest drop after one more sample. */
  lemma LastDropGrows(h: seq<Sample>, s: Sample)
    ensures var g := h + [s];
      (IsDrop(g, |h|) ==> LastDrop(g, |h|))
      && (!IsDrop(g, |h|) ==> (NoDrop(h) ==> NoDrop(g)) && forall d: nat :: LastDrop(h, d) ==> LastDrop(g, d))
  {
    var g := h + [s];
    forall k: nat | k < |h| ensures IsDrop(g, k) == IsDrop(h, k) { OldIndex(h, s, k); }
    hide IsDrop;
  }

  lemma CountsGrow(h: seq<Sample>, s: Sample)
    ensures DropCount(h + [s]) == DropCount(h) + if IsDrop(h + [s], |h|) then 1 else 0
    ensures PositiveSum(h + [s]) == PositiveSum(h) + if Power(s) > 0.0 then Power(s) else 0.0
    ensures PositiveCount(h + [s]) == PositiveCount(h) + if Power(s) > 0.0 then 1 else 0
  {
    assert (h + [s])[..|h|] == h;
  }

  lemma LargestDropGrows(h: seq<Sample>, s: Sample, m: real)
    requires LargestDrop(h, m) && m >= 0.0
    ensures var g := h + [s];
      LargestDrop(g, if IsDrop(g, |h|) && DropWatts(g, |h|) > m then DropWatts(g, |h|) else m)
  {
    var g := h + [s];
    forall k: nat | k < |h| ensures IsDrop(g, k) == IsDrop(h, k) && DropWatts(g, k) == DropWatts(h, k) {
      OldIndex(h, s, k);
    }
    hide IsDrop, DropWatts;
    if m != 0.0 {
      var k: nat :| k < |h| && IsDrop(h, k) && DropWatts(h, k) == m;
      assert IsDrop(g, k) && DropWatts(g, k) == m;
    }
  }

  lemma RangeGrows(h: seq<Sample>, s: Sample, lo: real, hi: real)
    requires Range(h, lo, hi)
    ensures var p := Power(s);
      Range(h + [s], if p > 0.0 && p < lo then p else lo, if p > 0.0 && p > hi then p else hi)
  {
    hide Power;
    var g, p := h + [s], Power(s);
    assert g[|h|] == s;
    if lo != MIN_START {
      var k: nat :| k < |h| && Power(h[k]) > 0.0 && Power(h[k]) == lo;
      assert g[k] == h[k];
    }
    if hi != 0.0 {
      var k: nat :| k < |h| && Power(h[k]) > 0.0 && Power(h[k]) == hi;
      assert g[k] == h[k];
    }
  }

  /** With at least one positive sample the range is not inverted and the sum is positive. */
  lemma {:induction false} PositiveStatistics(h: seq<Sample>, lo: real, hi: real)
    requires Range(h, lo, hi)
    ensures PositiveSum(h) >= 0.0
    ensures PositiveCount(h) > 0 ==> lo <= hi && PositiveSum(h) > 0.0
  {
    PositiveExists(h);
  }

  lemma {:induction false} PositiveExists(h: seq<Sample>)
    ensures PositiveSum(h) >= 0.0
    ensures PositiveCount(h) > 0 ==> PositiveSum(h) > 0.0 && exists k: nat :: k < |h| && Power(h[k]) > 0.0
  {
    if h == [] {
    } else {
      var init := h[..|h| - 1];
      PositiveExists(init);
      if PositiveCount(init) > 0 {
        var k: nat :| k < |init| && Power(init[k]) > 0.0;
        assert h[k] == init[k];
      }
    }
  }

  /** The reported figure: 100 until there are two positive samples. */
  function StabilityOf(sum: real, count: nat, lo: real, hi: real): real {
    if count > 1 && sum > 0.0 then Stability(sum, count, lo, hi) else 100.0
  }

  lemma StabilityAtFirst(sum: real, count: nat, lo: real, hi: real)
    ensures count <= 1 ==> StabilityOf(sum, count, lo, hi) == 100.0
  {
  }

  lemma AveragePositive(sum: real, count: nat)
    requires count > 0 && sum > 0.0
    ensures sum / count as real > 0.0
  {
  }

  lemma StabilityBounded(sum: real, count: nat, lo: real, hi: real)
    requires count > 0 ==> sum > 0.0 && lo <= hi
    ensures 0.0 <= StabilityOf(sum, count, lo, hi) <= 100.0
  {
    if count > 1 { StabilityInRange(sum, count, lo, hi); }
  }

  lemma StabilityInRange(sum: real, count: nat, lo: real, hi: real)
    requires count > 0 && sum > 0.0 && lo <= hi
    ensures sum / count as real > 0.0
    ensures 0.0 <= Stability(sum, count, lo, hi) <= 100.0
  {
    var avg := sum / count as real;
    assert avg > 0.0;
    Quotient(hi - lo, avg);
  }

  lemma Quotient(x: real, y: real)
    requires x >= 0.0 && y > 0.0
    ensures x / y >= 0.0
  {
  }

  lemma LatestOfAppended(h: seq<Sample>, s: Sample)
    ensures LatestPower(h + [s]) == Power(s) && LatestErrors(h + [s]) == Errors(s)
  {
  }

  /** The drop test and the error test as the program makes them. */
  lemma DropIs(h: seq<Sample>, s: Sample, prev: real)
    requires prev == LatestPower(h)
    ensures var g, p := h + [s], Power(s);
      DropWatts(g, |h|) == prev - p
      && (IsDrop(g, |h|) <==> prev > 0.0 && p > 0.0 && (prev - p) / prev > 0.10)
  {
  }

  lemma RaisesIs(h: seq<Sample>, s: Sample, prev: int)
    requires prev == LatestErrors(h)
    ensures RaisesErrors(h + [s], |h|) <==> Errors(s) > prev
  {
  }

  /** The state of the window: open with the time of the latest drop, or closed because there is none or it is old. */
  ghost predicate Window(h: seq<Sample>, recent: bool, dropTime: real) {
    if recent then exists d: nat :: LastDrop(h, d) && dropTime == h[d].time
    else NoDrop(h) || exists d: nat :: LastDrop(h, d) && h[|h| - 1].time - h[d].time > 1.0
  }

  /** The window after the drop test of sample s decides correlation, and after expiry it is right again. */
  lemma WindowGrows(h: seq<Sample>, s: Sample, recent: bool, dropTime: real)
    requires TimeOrdered(h + [s]) && Window(h, recent, dropTime)
    ensures var g := h + [s];
      var isDrop := IsDrop(g, |h|);
      var recent2, dropTime2 := isDrop || recent, if isDrop then s.time else dropTime;
      (CorrelatedNow(g, |h|) <==> recent2 && RaisesErrors(g, |h|) && s.time - dropTime2 <= 1.0)
      && Window(g, recent2 && s.time - dropTime2 <= 1.0, dropTime2)
  {
    hide IsDrop, RaisesErrors, NoDrop, CorrelatedNow;
    var g := h + [s];
    LastDropGrows(h, s);
    if IsDrop(g, |h|) {
      LastDropDecides(g, |h|, |h|);
    } else if NoDrop(h) {
      NoDropNoCorrelation(g, |h|);
      if recent { NoDropNoLast(h); }
    } else {
      var d: nat :| d < |h| && LastDrop(h, d)
        && if recent then dropTime == h[d].time else h[|h| - 1].time - h[d].time > 1.0;
      LastDropDecides(g, d, |h|);
      assert g[d] == h[d] && g[|h| - 1] == h[|h| - 1];
      assert g[|h| - 1].time <= g[|h|].time;
    }
  }

  lemma NoDropNoLast(h: seq<Sample>)
    requires NoDrop(h)
    ensures forall d: nat :: !LastDrop(h, d)
  {
  }

  // ---- the engine ----------------------------------------------------------

  datatype Health = Healthy | Marginal | Unstable | Failed

  class PsuEngine {
    // tracking state
    var prevTotalPower: real
    var powerSum: real
    var powerSampleCount: nat
    var powerMin: real
    var powerMax: real
    var prevTotalErrors: int
    var lastDropTime: real
    var recentPowerDrop: bool
    // metrics
    var stabilityPct: real
    var maxPowerDrop: real
    var powerDropEvents: nat
    var correlatedErrors: bool
    var health: Health

    var stopRequested: bool

    const startTime: real
    const stopOnError: bool
    ghost var history: seq<Sample>

    /** The statistics are those of h. */
    ghost predicate StatisticsOk(h: seq<Sample>)
      reads this`powerSum, this`powerSampleCount, this`powerMin, this`powerMax
    {
      powerSum == PositiveSum(h) && powerSampleCount == PositiveCount(h) && Range(h, powerMin, powerMax)
    }

    ghost predicate DropsOk(h: seq<Sample>)
      reads this`powerDropEvents, this`maxPowerDrop
    {
      powerDropEvents == DropCount(h) && maxPowerDrop >= 0.0 && LargestDrop(h, maxPowerDrop)
    }

    ghost predicate StabilityOk()
      reads this`stabilityPct, this`powerSum, this`powerSampleCount, this`powerMin, this`powerMax
    {
      stabilityPct == StabilityOf(powerSum, powerSampleCount, powerMin, powerMax) && 0.0 <= stabilityPct <= 100.0
    }

    ghost predicate Valid()
      reads this
    {
      TimeOrdered(history)
      && prevTotalPower == LatestPower(history) && prevTotalErrors == LatestErrors(history)
      && StatisticsOk(history) && DropsOk(history) && StabilityOk()
      && Window(history, recentPowerDrop, lastDropTime)
      && correlatedErrors == Correlated(history)
    }

    /** start(): all tracking state is reset. */
    constructor (startTime: real, stopOnError: bool)
      ensures Valid() && history == [] && this.startTime == startTime && this.stopOnError == stopOnError
      ensures !stopRequested
    {
      prevTotalPower, powerSum, powerSampleCount := 0.0, 0.0, 0;
      powerMin, powerMax, prevTotalErrors := MIN_START, 0.0, 0;
      lastDropTime, recentPowerDrop := 0.0, false;
      stabilityPct, maxPowerDrop, powerDropEvents, correlatedErrors := 100.0, 0.0, 0, false;
      health := Healthy;
      this.startTime, this.stopOnError, stopRequested := startTime, stopOnError, false;
      history := [];
      new;
      assert forall d: nat, k: nat :: !CorrelatedAt(history, d, k);
    }

    /** Running sum, count, minimum and maximum of the positive powers. */
    method TrackPower(p: real, ghost h: seq<Sample>, ghost s: Sample)
      requires StatisticsOk(h) && p == Power(s)
      modifies this`powerSum, this`powerSampleCount, this`powerMin, this`powerMax
      ensures StatisticsOk(h + [s]) && powerSampleCount >= old(powerSampleCount)
    {
      hide Range, PositiveSum, PositiveCount;
      CountsGrow(h, s);
      RangeGrows(h, s, powerMin, powerMax);
      if p > 0.0 {
        powerSum := powerSum + p;
        powerSampleCount := powerSampleCount + 1;
        if p < powerMin { powerMin := p; }
        if p > powerMax { powerMax := p; }
      }
    }

    /** Counts a drop of more than 10% and opens the one-second window. */
    method DetectDrop(now: real, p: real, ghost h: seq<Sample>, ghost s: Sample)
      requires DropsOk(h) && Window(h, recentPowerDrop, lastDropTime) && TimeOrdered(h + [s])
      requires p == Power(s) && now == s.time && prevTotalPower == LatestPower(h)
      modifies this`powerDropEvents, this`lastDropTime, this`recentPowerDrop, this`maxPowerDrop
      ensures DropsOk(h + [s])
      ensures Window(h + [s], recentPowerDrop && now - lastDropTime <= 1.0, lastDropTime)
      ensures CorrelatedNow(h + [s], |h|) <==>
        recentPowerDrop && RaisesErrors(h + [s], |h|) && now - lastDropTime <= 1.0
    {
      hide LargestDrop, IsDrop, RaisesErrors, DropWatts, DropCount, Window, CorrelatedNow, TimeOrdered;
      CountsGrow(h, s);
      LargestDropGrows(h, s, maxPowerDrop);
      DropIs(h, s, prevTotalPower);
      WindowGrows(h, s, recentPowerDrop, lastDropTime);
      if prevTotalPower > 0.0 && p > 0.0 {
        var drop := prevTotalPower - p;
        var dropPct := drop / prevTotalPower;
        if dropPct > 0.10 {
          powerDropEvents := powerDropEvents + 1;
          lastDropTime := now;
          recentPowerDrop := true;
          if drop > maxPowerDrop { maxPowerDrop := drop; }
        }
      }
    }

    /** New errors inside the window are correlated; an expired window is closed. */
    method CheckWindow(now: real, errors: int, ghost h: seq<Sample>, ghost s: Sample)
      requires errors == Errors(s) && prevTotalErrors == LatestErrors(h) && correlatedErrors == Correlated(h)
      requires CorrelatedNow(h + [s], |h|) <==>
        recentPowerDrop && RaisesErrors(h + [s], |h|) && now - lastDropTime <= 1.0
      modifies this`correlatedErrors, this`recentPowerDrop
      ensures correlatedErrors == Correlated(h + [s])
      ensures recentPowerDrop == (old(recentPowerDrop) && now - lastDropTime <= 1.0)
    {
      hide Correlated, CorrelatedNow, RaisesErrors;
      CorrelatedGrows(h, s);
      RaisesIs(h, s, prevTotalErrors);
      if recentPowerDrop && errors > prevTotalErrors {
        var sinceDrop := now - lastDropTime;
        if sinceDrop <= 1.0 { correlatedErrors := true; }
      }
      if recentPowerDrop {
        var sinceDrop := now - lastDropTime;
        if sinceDrop > 1.0 { recentPowerDrop := false; }
      }
    }

    /** The stability figure for the current statistics. */
    method UpdateStability(ghost h: seq<Sample>)
      requires StatisticsOk(h) && (powerSampleCount > 1 || stabilityPct == 100.0)
      modifies this`stabilityPct
      ensures StabilityOk()
    {
      hide Range, PositiveSum, PositiveCount;
      PositiveStatistics(h, powerMin, powerMax);
      StabilityBounded(powerSum, powerSampleCount, powerMin, powerMax);
      if powerSampleCount > 1 {
        var avg := powerSum / powerSampleCount as real;
        AveragePositive(powerSum, powerSampleCount);
        if avg > 0.0 {
          var variation := powerMax - powerMin;
          var stability := 100.0 - (variation / avg * 100.0);
          stabilityPct := if stability < 0.0 then 0.0 else stability;
        }
      }
    }

    function HealthOf(s: Sample): Health
      reads this`correlatedErrors, this`powerDropEvents
    {
      if !s.cpuRunning && !s.gpuRunning && s.time - startTime > 1.0 then Failed
      else if correlatedErrors then Unstable
      else if powerDropEvents > 5 then Marginal
      else Healthy
    }

    /** The verdicts in their order, in terms of the history. */
    lemma HealthIs(s: Sample, h: seq<Sample>)
      requires correlatedErrors == Correlated(h) && DropsOk(h)
      ensures var failed := !s.cpuRunning && !s.gpuRunning && s.time > startTime + 1.0;
        HealthOf(s) == if failed then Failed else if Correlated(h) then Unstable
                       else if |Drops(h)| > 5 then Marginal else Healthy
    {
      hide Correlated, DropCount, Drops, LargestDrop;
      DropCountIsNumber(h);
    }

    /** The analysis of one sample: statistics, drop test, window, stability. */
    method Analyse(s: Sample, ghost h: seq<Sample>)
      requires history == h && Valid() && TimeOrdered(h + [s])
      modifies this`powerSum, this`powerSampleCount, this`powerMin, this`powerMax, this`powerDropEvents,
        this`lastDropTime, this`recentPowerDrop, this`maxPowerDrop, this`correlatedErrors, this`stabilityPct
      ensures StatisticsOk(h + [s]) && DropsOk(h + [s]) && StabilityOk()
      ensures Window(h + [s], recentPowerDrop, lastDropTime)
      ensures correlatedErrors == Correlated(h + [s])
    {
      hide TimeOrdered, Correlated, CorrelatedNow, StabilityOf, Window, Range, LargestDrop, RaisesErrors, Power, Errors,
        PositiveSum, PositiveCount, DropCount, StatisticsOk, DropsOk, LatestPower, LatestErrors;
      StabilityAtFirst(powerSum, powerSampleCount, powerMin, powerMax);
      TrackPower(Power(s), h, s);
      DetectDrop(s.time, Power(s), h, s);
      CheckWindow(s.time, Errors(s), h, s);
      UpdateStability(h + [s]);
    }

    /** One turn of the polling loop. */
    method Poll(s: Sample)
      requires Valid() && TimeOrdered(history + [s])
      modifies this
      ensures Valid() && history == old(history) + [s]
      ensures var failed := !s.cpuRunning && !s.gpuRunning && s.time > startTime + 1.0;
        (health == Failed <==> failed)
        && (health == Unstable <==> !failed && Correlated(history))
        && (health == Marginal <==> !failed && !Correlated(history) && |Drops(history)| > 5)
        && (health == Healthy <==> !failed && !Correlated(history) && |Drops(history)| <= 5)
      ensures stopRequested == (old(stopRequested) || (stopOnError && (s.cpuErrors > 0 || s.gpuErrors > 0)))
    {
      hide TimeOrdered, Correlated, Window, StatisticsOk, DropsOk, StabilityOk, LatestPower, LatestErrors, Power,
        Errors, HealthOf, Drops, DropCount;
      ghost var h := history;
      LatestOfAppended(h, s);
      Analyse(s, h);
      health := HealthOf(s);
      HealthIs(s, h + [s]);
      prevTotalPower := Power(s);
      prevTotalErrors := Errors(s);
      history := h + [s];
      if stopOnError && (s.cpuErrors > 0 || s.gpuErrors > 0) {
        stopRequested := true;
      }
    }
  }
}
