/** The random I/O workers of src/engines/storage_engine.cpp as a state machine over their shared counters. Every
  * access to a shared counter or to the stop flag and every I/O call is a step of its own; steps of different workers
  * interleave freely. */
module StorageTickets {
  import opened Arithmetic
  import opened Counting
  import opened Wrappers

  /** The run's parameters: file and block size, queue depth, a duration limit or none, stop on error or not. */
  datatype Config = Config(fileSize: nat, blk: nat, depth: nat, timed: bool, stopOnError: bool)

  predicate Runnable(c: Config) {
    c.blk > 0 && c.fileSize >= c.blk
  }

  /** max_blocks, which is also target_ops. */
  function Target(c: Config): (t: nat)
    requires c.blk > 0
  {
    c.fileSize / c.blk
  }

  datatype Why = NoBuffer | SawStop | Overshot | TimedOut(ticket: nat)

  /** Where a worker stands in its loop. */
  datatype Worker =
    | Fresh
    | AtLoop
    | Claiming
    | Holding(ticket: nat)
    | Expiring(ticket: nat)
    | Ready(ticket: nat)
    | Failing(read: bool)
    | Halting(read: bool)
    | Tallying(read: bool)
    | Done(why: Why)

  /** One I/O call. */
  datatype Io = Io(ticket: nat, offset: nat, read: bool, ok: bool)

  datatype State = State(
    sharedOps: nat,
    stop: bool,
    errors: nat,
    readCount: nat,
    writeCount: nat,
    workers: seq<Worker>,
    performed: seq<Io>)

  datatype Action =
    | Start(w: nat, hasBuffer: bool)
    | Poll(w: nat)
    | Claim(w: nat)
    | CheckTime(w: nat, up: bool)
    | Expire(w: nat)
    | Perform(w: nat, random: nat, read: bool, ok: bool)
    | CountError(w: nat)
    | RaiseStop(w: nat)
    | Tally(w: nat)
    | MonitorTimeout
    | StopOutside

  predicate IsWorkerStep(a: Action) {
    !a.MonitorTimeout? && !a.StopOutside?
  }

  function Initial(c: Config): State {
    State(0, false, 0, 0, 0, seq(c.depth, _ => Fresh), [])
  }

  predicate Enabled(c: Config, s: State, a: Action) {
    match a
    case Start(w, _) => w < |s.workers| && s.workers[w].Fresh?
    case Poll(w) => w < |s.workers| && s.workers[w].AtLoop?
    case Claim(w) => w < |s.workers| && s.workers[w].Claiming?
    case CheckTime(w, up) => w < |s.workers| && s.workers[w].Holding? && (up ==> c.timed)
    case Expire(w) => w < |s.workers| && s.workers[w].Expiring?
    case Perform(w, _, _, _) => w < |s.workers| && s.workers[w].Ready?
    case CountError(w) => w < |s.workers| && s.workers[w].Failing?
    case RaiseStop(w) => w < |s.workers| && s.workers[w].Halting?
    case Tally(w) => w < |s.workers| && s.workers[w].Tallying?
    case MonitorTimeout => c.timed
    case StopOutside => true
  }

  function SetWorker(s: State, w: nat, x: Worker): State
    requires w < |s.workers|
  {
    s.(workers := s.workers[w := x])
  }

  function Apply(c: Config, s: State, a: Action): State
    requires Runnable(c) && Enabled(c, s, a)
  {
    match a
    case Start(w, hasBuffer) => SetWorker(s, w, if hasBuffer then AtLoop else Done(NoBuffer))
    case Poll(w) => SetWorker(s, w, if s.stop then Done(SawStop) else Claiming)
    case Claim(w) =>
      SetWorker(s, w, if s.sharedOps >= Target(c) then Done(Overshot) else Holding(s.sharedOps))
        .(sharedOps := s.sharedOps + 1)
    case CheckTime(w, up) =>
      var t := s.workers[w].ticket;
      SetWorker(s, w, if up then Expiring(t) else Ready(t))
    case Expire(w) => SetWorker(s, w, Done(TimedOut(s.workers[w].ticket))).(stop := true)
    case Perform(w, random, read, ok) => DoIo(c, s, w, random, read, ok)
    case CountError(w) =>
      var read := s.workers[w].read;
      SetWorker(s, w, if c.stopOnError then Halting(read) else Tallying(read)).(errors := s.errors + 1)
    case RaiseStop(w) => SetWorker(s, w, Tallying(s.workers[w].read)).(stop := true)
    case Tally(w) =>
      if s.workers[w].read then SetWorker(s, w, AtLoop).(readCount := s.readCount + 1)
      else SetWorker(s, w, AtLoop).(writeCount := s.writeCount + 1)
    case MonitorTimeout => s.(stop := true)
    case StopOutside => s.(stop := true)
  }

  /** A block chosen by the generator is read or written. */
  function DoIo(c: Config, s: State, w: nat, random: nat, read: bool, ok: bool): State
    requires Runnable(c) && w < |s.workers| && s.workers[w].Ready?
  {
    TargetPositive(c);
    var block := random % Target(c);
    var io := Io(s.workers[w].ticket, block * c.blk, read, ok);
    SetWorker(s, w, if ok then Tallying(read) else Failing(read)).(performed := s.performed + [io])
  }

  lemma TargetPositive(c: Config)
    requires Runnable(c)
    ensures Target(c) > 0 && Target(c) * c.blk <= c.fileSize
  {
    var t := c.fileSize / c.blk;
    assert c.fileSize == t * c.blk + c.fileSize % c.blk;
    NonPositiveProduct(t, c.blk);
  }

  lemma NonPositiveProduct(t: int, b: nat)
    ensures t <= 0 ==> t * b <= 0
  {
    if t <= 0 { assert -t * b >= 0; }
  }

  // ---- runs ----------------------------------------------------------------

  /** Each action is enabled when it is taken. */
  predicate Legal(c: Config, actions: seq<Action>)
    requires Runnable(c)
    decreases |actions|, 0
  {
    actions == []
    || (Legal(c, actions[..|actions| - 1])
        && Enabled(c, After(c, actions[..|actions| - 1]), actions[|actions| - 1]))
  }

  /** The state after a sequence of actions. */
  function After(c: Config, actions: seq<Action>): State
    requires Runnable(c) && Legal(c, actions)
    decreases |actions|, 1
  {
    if actions == [] then Initial(c)
    else Apply(c, After(c, actions[..|actions| - 1]), actions[|actions| - 1])
  }

  // ---- the invariant -------------------------------------------------------

  /** A ticket claimed by this worker and not performed. */
  function Held(x: Worker): Option<nat> {
    match x
    case Holding(t) => Some(t)
    case Expiring(t) => Some(t)
    case Ready(t) => Some(t)
    case Done(why) => if why.TimedOut? then Some(why.ticket) else None
    case _ => None
  }

  function Tickets(ios: seq<Io>): (t: seq<int>)
    ensures |t| == |ios|
  {
    seq(|ios|, k requires 0 <= k < |ios| => ios[k].ticket)
  }

  /** How many tickets below the target have been claimed. */
  function Claimed(c: Config, s: State): nat
    requires Runnable(c)
  {
    if s.sharedOps < Target(c) then s.sharedOps else Target(c)
  }

  /** The workers of a kind. */
  function Those(workers: seq<Worker>, kind: Worker -> bool): set<nat> {
    set w: nat | w < |workers| && kind(workers[w])
  }

  predicate HasOvershot(x: Worker) {
    x == Done(Overshot)
  }

  predicate HoldsTicket(x: Worker) {
    Held(x).Some?
  }

  /** Between a failed I/O call and the count of it. */
  predicate IsFailing(x: Worker) {
    x.Failing?
  }

  /** Between an I/O call and its tally. */
  predicate IsPending(x: Worker, read: bool) {
    (x.Failing? || x.Halting? || x.Tallying?) && x.read == read
  }

  predicate ReadPending(x: Worker) {
    IsPending(x, true)
  }

  predicate WritePending(x: Worker) {
    IsPending(x, false)
  }

  /** The workers that drew a ticket past the target. */
  function Overshooters(workers: seq<Worker>): set<nat> {
    Those(workers, HasOvershot)
  }

  /** The workers that have a ticket, or gave one up on a timeout. */
  function Holders(workers: seq<Worker>): set<nat> {
    Those(workers, HoldsTicket)
  }

  /** The workers between an I/O call and its tally. */
  function Untallied(workers: seq<Worker>, read: bool): set<nat> {
    if read then Those(workers, ReadPending) else Those(workers, WritePending)
  }

  function CountOf(ios: seq<Io>, read: bool): nat {
    if ios == [] then 0
    else CountOf(ios[..|ios| - 1], read) + if ios[|ios| - 1].read == read then 1 else 0
  }

  function Failures(ios: seq<Io>): nat {
    if ios == [] then 0 else Failures(ios[..|ios| - 1]) + if ios[|ios| - 1].ok then 0 else 1
  }

  /** Every claimed ticket below the target is performed or held, exactly one of the two, by exactly one worker. */
  ghost predicate TicketsOk(c: Config, s: State)
    requires Runnable(c)
  {
    DistinctBelow(Tickets(s.performed), Claimed(c, s))
    && (forall w: nat :: w < |s.workers| && Held(s.workers[w]).Some? ==>
          Held(s.workers[w]).value < Claimed(c, s) && Held(s.workers[w]).value !in Tickets(s.performed))
    && (forall v: nat, w: nat :: v < w < |s.workers| && Held(s.workers[v]).Some? ==>
          Held(s.workers[v]) != Held(s.workers[w]))
    && (forall t: nat :: t < Claimed(c, s) ==> t in Tickets(s.performed) || HeldBySome(s.workers, t))
  }

  ghost predicate HeldBySome(workers: seq<Worker>, t: nat) {
    exists w: nat :: HeldBy(workers, t, w)
  }

  predicate HeldBy(workers: seq<Worker>, t: nat, w: nat) {
    w < |workers| && Held(workers[w]) == Some(t)
  }

  /** What the shared counter counts. */
  ghost predicate CounterOk(c: Config, s: State)
    requires Runnable(c)
  {
    s.sharedOps == Claimed(c, s) + |Overshooters(s.workers)|
    && s.sharedOps == |s.performed| + |Holders(s.workers)| + |Overshooters(s.workers)|
  }

  /** The tallies and the error count lag behind the I/O calls by the workers on their way to them. */
  ghost predicate TalliesOk(s: State) {
    s.readCount + |Untallied(s.workers, true)| == CountOf(s.performed, true)
    && s.writeCount + |Untallied(s.workers, false)| == CountOf(s.performed, false)
    && s.errors + |Those(s.workers, IsFailing)| == Failures(s.performed)
  }

  ghost predicate OffsetsOk(c: Config, s: State) {
    forall k :: 0 <= k < |s.performed| ==> s.performed[k].offset + c.blk <= c.fileSize
  }

  /** A worker leaves its loop early only under a raised stop flag. */
  ghost predicate StopsOk(s: State) {
    forall w: nat :: w < |s.workers| && s.workers[w].Done? && (s.workers[w].why.SawStop? || s.workers[w].why.TimedOut?)
      ==> s.stop
  }

  ghost predicate Inv(c: Config, s: State)
    requires Runnable(c)
  {
    |s.workers| == c.depth && TicketsOk(c, s) && CounterOk(c, s) && TalliesOk(s) && OffsetsOk(c, s) && StopsOk(s)
  }

  // ---- each action keeps it ------------------------------------------------

  lemma TicketsSame(c: Config, s: State, t: State)
    requires Runnable(c) && TicketsOk(c, s) && Claimed(c, t) == Claimed(c, s) && t.performed == s.performed
    requires |t.workers| == |s.workers| && forall w: nat :: w < |s.workers| ==> Held(t.workers[w]) == Held(s.workers[w])
    ensures TicketsOk(c, t)
  {
    hide Claimed, Tickets, Held;
    forall n: nat | n < Claimed(c, t) ensures n in Tickets(t.performed) || HeldBySome(t.workers, n) {
      if n !in Tickets(s.performed) {
        assert HeldBySome(s.workers, n);
        var w: nat :| HeldBy(s.workers, n, w);
        assert HeldBy(t.workers, n, w);
      }
    }
  }

  lemma ClaimKeepsTickets(c: Config, s: State, w: nat)
    requires Runnable(c) && TicketsOk(c, s) && Enabled(c, s, Claim(w)) && s.sharedOps < Target(c)
    ensures TicketsOk(c, Apply(c, s, Claim(w)))
  {
    hide Target, Tickets;
    var t := Apply(c, s, Claim(w));
    assert HeldBy(t.workers, s.sharedOps, w);
    forall n: nat | n < Claimed(c, t) ensures n in Tickets(t.performed) || HeldBySome(t.workers, n) {
      if n < s.sharedOps && n !in Tickets(s.performed) {
        assert HeldBySome(s.workers, n);
        var v: nat :| HeldBy(s.workers, n, v);
        assert HeldBy(t.workers, n, v);
      }
    }
  }

  lemma TicketsAppend(ios: seq<Io>, io: Io)
    ensures Tickets(ios + [io]) == Tickets(ios) + [io.ticket]
  {
  }

  lemma PerformKeepsTickets(c: Config, s: State, w: nat, random: nat, read: bool, ok: bool)
    requires Runnable(c) && TicketsOk(c, s) && Enabled(c, s, Perform(w, random, read, ok))
    ensures TicketsOk(c, Apply(c, s, Perform(w, random, read, ok)))
  {
    hide Target, Tickets;
    var t := Apply(c, s, Perform(w, random, read, ok));
    var n := s.workers[w].ticket;
    assert Held(s.workers[w]) == Some(n);
    TicketsAppend(s.performed, t.performed[|s.performed|]);
    assert t.performed == s.performed + [t.performed[|s.performed|]];
    forall m: nat | m < Claimed(c, t) ensures m in Tickets(t.performed) || HeldBySome(t.workers, m) {
      if m !in Tickets(s.performed) && m != n {
        assert HeldBySome(s.workers, m);
        var v: nat :| HeldBy(s.workers, m, v);
        assert HeldBy(t.workers, m, v);
      }
    }
  }

  /** The other actions leave the tickets where they are. */
  lemma LeavesTickets(c: Config, s: State, a: Action)
    requires Runnable(c) && Enabled(c, s, a) && !a.Perform? && (a.Claim? ==> s.sharedOps >= Target(c))
    ensures var t := Apply(c, s, a);
      Claimed(c, t) == Claimed(c, s) && t.performed == s.performed && |t.workers| == |s.workers|
      && forall w: nat :: w < |s.workers| ==> Held(t.workers[w]) == Held(s.workers[w])
  {
    hide Target;
  }

  lemma KeepsTickets(c: Config, s: State, a: Action)
    requires Runnable(c) && TicketsOk(c, s) && Enabled(c, s, a)
    ensures TicketsOk(c, Apply(c, s, a))
  {
    hide TicketsOk, Target, Apply, Held, Claimed;
    if a.Perform? {
      PerformKeepsTickets(c, s, a.w, a.random, a.read, a.ok);
    } else if a.Claim? && s.sharedOps < Target(c) {
      ClaimKeepsTickets(c, s, a.w);
    } else {
      LeavesTickets(c, s, a);
      TicketsSame(c, s, Apply(c, s, a));
    }
  }

  lemma CountAppend(ios: seq<Io>, io: Io)
    ensures forall r :: CountOf(ios + [io], r) == CountOf(ios, r) + if io.read == r then 1 else 0
    ensures Failures(ios + [io]) == Failures(ios) + if io.ok then 0 else 1
  {
    assert (ios + [io])[..|ios|] == ios;
  }

  /** How the number of workers of a kind changes when worker w becomes x. */
  lemma SizeAfter(workers: seq<Worker>, kind: Worker -> bool, w: nat, x: Worker)
    requires w < |workers|
    ensures |Those(workers[w := x], kind)| == |Those(workers, kind)| + One(kind(x)) - One(kind(workers[w]))
  {
    var before, after := Those(workers, kind), Those(workers[w := x], kind);
    assert after == if kind(x) then before + {w} else before - {w};
    Exchange(before, w);
  }

  lemma SizesAfter(workers: seq<Worker>, w: nat, x: Worker)
    requires w < |workers|
    ensures var after, y := workers[w := x], workers[w];
      |Overshooters(after)| == |Overshooters(workers)| + One(HasOvershot(x)) - One(HasOvershot(y))
      && |Holders(after)| == |Holders(workers)| + One(HoldsTicket(x)) - One(HoldsTicket(y))
      && |Those(after, IsFailing)| == |Those(workers, IsFailing)| + One(IsFailing(x)) - One(IsFailing(y))
      && |Untallied(after, true)| == |Untallied(workers, true)| + One(IsPending(x, true)) - One(IsPending(y, true))
      && |Untallied(after, false)| == |Untallied(workers, false)| + One(IsPending(x, false)) - One(IsPending(y, false))
  {
    hide Those, HoldsTicket;
    SizeAfter(workers, HasOvershot, w, x);
    SizeAfter(workers, HoldsTicket, w, x);
    SizeAfter(workers, IsFailing, w, x);
    SizeAfter(workers, ReadPending, w, x);
    SizeAfter(workers, WritePending, w, x);
  }

  function One(b: bool): int { if b then 1 else 0 }

  lemma Exchange(s: set<nat>, w: nat)
    ensures |s + {w}| == |s| + One(w !in s) && |s - {w}| == |s| - One(w in s)
  {
    if w in s { assert s + {w} == s; assert s == (s - {w}) + {w}; } else { assert s - {w} == s; }
  }

  lemma KeepsCounter(c: Config, s: State, a: Action)
    requires Runnable(c) && CounterOk(c, s) && Enabled(c, s, a)
    ensures CounterOk(c, Apply(c, s, a))
  {
    hide Overshooters, Holders, Untallied, Those, Target;
    if IsWorkerStep(a) {
      SizesAfter(s.workers, a.w, Apply(c, s, a).workers[a.w]);
    }
  }

  lemma KeepsTallies(c: Config, s: State, a: Action)
    requires Runnable(c) && TalliesOk(s) && Enabled(c, s, a)
    ensures TalliesOk(Apply(c, s, a))
  {
    hide Overshooters, Holders, Untallied, Those, CountOf, Failures, Target, HoldsTicket;
    var t := Apply(c, s, a);
    if IsWorkerStep(a) {
      SizesAfter(s.workers, a.w, t.workers[a.w]);
    }
    if a.Perform? {
      var io := t.performed[|s.performed|];
      assert t.performed == s.performed + [io];
      CountAppend(s.performed, io);
    }
  }

  lemma OffsetFits(c: Config, random: nat)
    requires Runnable(c)
    ensures Target(c) > 0 && (random % Target(c)) * c.blk + c.blk <= c.fileSize
  {
    TargetPositive(c);
    var t, b := Target(c), random % Target(c);
    hide Target;
    RowsBelow(c.blk, b, t);
  }

  lemma KeepsOffsets(c: Config, s: State, a: Action)
    requires Runnable(c) && OffsetsOk(c, s) && Enabled(c, s, a)
    ensures OffsetsOk(c, Apply(c, s, a))
  {
    hide Target;
    if a.Perform? {
      OffsetFits(c, a.random);
      var t := Apply(c, s, a);
      assert t.performed == s.performed + [t.performed[|s.performed|]];
      assert t.performed[|s.performed|].offset == (a.random % Target(c)) * c.blk;
    }
  }

  lemma KeepsStops(c: Config, s: State, a: Action)
    requires Runnable(c) && StopsOk(s) && Enabled(c, s, a)
    ensures StopsOk(Apply(c, s, a))
  {
    hide Target;
  }

  lemma InitialInv(c: Config)
    requires Runnable(c)
    ensures Inv(c, Initial(c))
  {
    TargetPositive(c);
    var s := Initial(c);
    assert Overshooters(s.workers) == {} && Holders(s.workers) == {} && Those(s.workers, IsFailing) == {};
    assert Untallied(s.workers, true) == {} && Untallied(s.workers, false) == {};
  }

  /** The invariant holds in every state of every interleaving. */
  lemma {:induction false} AlwaysInv(c: Config, actions: seq<Action>)
    requires Runnable(c) && Legal(c, actions)
    ensures Inv(c, After(c, actions))
    decreases |actions|
  {
    if actions == [] {
      InitialInv(c);
    } else {
      hide TicketsOk, CounterOk, TalliesOk, OffsetsOk, StopsOk, Enabled, Apply;
      var t, a := After(c, actions[..|actions| - 1]), actions[|actions| - 1];
      AlwaysInv(c, actions[..|actions| - 1]);
      KeepsTickets(c, t, a);
      KeepsCounter(c, t, a);
      KeepsTallies(c, t, a);
      KeepsOffsets(c, t, a);
      KeepsStops(c, t, a);
      SameDepth(c, t, a);
    }
  }

  lemma SameDepth(c: Config, s: State, a: Action)
    requires Runnable(c) && Enabled(c, s, a)
    ensures |Apply(c, s, a).workers| == |s.workers|
  {
  }

  // ---- what follows for every run ------------------------------------------

  predicate AllDone(s: State) {
    forall w: nat :: w < |s.workers| ==> s.workers[w].Done?
  }

  /** The shared counter passes the target by at most one per worker, and every I/O call lies inside the file. */
  lemma CounterAndOffsetsBounded(c: Config, actions: seq<Action>)
    requires Runnable(c) && Legal(c, actions)
    ensures var s := After(c, actions);
      s.sharedOps <= Target(c) + c.depth
      && forall k :: 0 <= k < |s.performed| ==> s.performed[k].offset + c.blk <= c.fileSize
  {
    hide After, Legal;
    AlwaysInv(c, actions);
    IdsBelow(Overshooters(After(c, actions).workers), c.depth);
  }

  lemma {:induction false} IdsBelow(ids: set<nat>, n: nat)
    requires forall w :: w in ids ==> w < n
    ensures |ids| <= n
    decreases n
  {
    if n == 0 {
    } else {
      IdsBelow(ids - {n - 1}, n - 1);
      Exchange(ids, n - 1);
    }
  }

  /** No ticket is performed twice, and none at or above the target. */
  lemma TicketsPerformedOnce(c: Config, actions: seq<Action>)
    requires Runnable(c) && Legal(c, actions)
    ensures var ios := After(c, actions).performed;
      (forall k :: 0 <= k < |ios| ==> ios[k].ticket < Target(c))
      && (forall j, k :: 0 <= j < k < |ios| ==> ios[j].ticket != ios[k].ticket)
      && |ios| <= Target(c)
  {
    hide After, Legal, Target;
    AlwaysInv(c, actions);
    var s := After(c, actions);
    Pigeonhole(Tickets(s.performed), Claimed(c, s));
    forall k | 0 <= k < |s.performed| ensures s.performed[k].ticket < Target(c) {
      assert Tickets(s.performed)[k] == s.performed[k].ticket;
    }
    forall j, k | 0 <= j < k < |s.performed| ensures s.performed[j].ticket != s.performed[k].ticket {
      assert Tickets(s.performed)[j] != Tickets(s.performed)[k];
    }
  }

  /** In every state of every run, stopped or not, the shared counter is the number of operations performed, plus the
      tickets that workers hold or gave up on a timeout, plus the workers that overshot. */
  lemma CounterLaw(c: Config, actions: seq<Action>)
    requires Runnable(c) && Legal(c, actions)
    ensures var s := After(c, actions);
      s.sharedOps == |s.performed| + |Holders(s.workers)| + |Overshooters(s.workers)|
      && (s.sharedOps == |s.performed| <==> Holders(s.workers) == {} && Overshooters(s.workers) == {})
  {
    hide After, Legal, Holders, Overshooters;
    AlwaysInv(c, actions);
  }

  predicate GaveUp(x: Worker) {
    x.Done? && x.why.TimedOut?
  }

  /** When all workers are done the counter, from which the program computes its final rate, is too large by the
      workers that gave up on a timeout and those that overshot; it is the number of operations performed if and only
      if every worker had no buffer or saw the stop flag at the head of its loop. */
  lemma FinalCounter(c: Config, actions: seq<Action>)
    requires Runnable(c) && Legal(c, actions) && AllDone(After(c, actions))
    ensures var s := After(c, actions);
      s.sharedOps == |s.performed| + |Those(s.workers, GaveUp)| + |Overshooters(s.workers)|
      && (s.sharedOps == |s.performed| <==>
            forall w: nat :: w < |s.workers| ==> s.workers[w].why.NoBuffer? || s.workers[w].why.SawStop?)
  {
    hide After, Legal;
    CounterLaw(c, actions);
    var workers := After(c, actions).workers;
    assert Holders(workers) == Those(workers, GaveUp);
    if Holders(workers) == {} && Overshooters(workers) == {} {
      forall w: nat | w < |workers| ensures workers[w].why.NoBuffer? || workers[w].why.SawStop? {
        assert w !in Holders(workers) && w !in Overshooters(workers);
      }
    }
  }

  lemma LegalStep(c: Config, actions: seq<Action>, a: Action)
    requires Runnable(c) && Legal(c, actions) && Enabled(c, After(c, actions), a)
    ensures Legal(c, actions + [a]) && After(c, actions + [a]) == Apply(c, After(c, actions), a)
  {
    hide Apply, Enabled;
    assert (actions + [a])[..|actions|] == actions;
  }

  lemma FirstStep(c: Config, a: Action)
    requires Runnable(c) && Enabled(c, Initial(c), a)
    ensures Legal(c, [a]) && After(c, [a]) == Apply(c, Initial(c), a)
  {
    LegalStep(c, [], a);
    assert [] + [a] == [a];
  }

  /** For example: one worker and one block. The worker performs its operation, draws a second ticket and is done; the
      counter stands at 2. */
  lemma OvershotOnce()
    ensures var c := Config(1, 1, 1, false, false);
      var run := [Start(0, true), Poll(0), Claim(0), CheckTime(0, false), Perform(0, 0, true, true), Tally(0),
                  Poll(0), Claim(0)];
      Runnable(c) && Legal(c, run)
      && AllDone(After(c, run)) && After(c, run).sharedOps == 2 && |After(c, run).performed| == 1
  {
    hide Legal, After;
    var c := Config(1, 1, 1, false, false);
    TargetOfOne(c);
    var r1 := [Start(0, true)];
    FirstStep(c, r1[0]);
    LegalStep(c, r1, Poll(0));
    var r3 := r1 + [Poll(0)] + [Claim(0)];
    LegalStep(c, r1 + [Poll(0)], Claim(0));
    var r4 := r3 + [CheckTime(0, false)];
    LegalStep(c, r3, CheckTime(0, false));
    var r5 := r4 + [Perform(0, 0, true, true)];
    LegalStep(c, r4, Perform(0, 0, true, true));
    var r6 := r5 + [Tally(0)];
    LegalStep(c, r5, Tally(0));
    var r7 := r6 + [Poll(0)];
    LegalStep(c, r6, Poll(0));
    LegalStep(c, r7, Claim(0));
    assert r7 + [Claim(0)] == [Start(0, true), Poll(0), Claim(0), CheckTime(0, false), Perform(0, 0, true, true),
      Tally(0), Poll(0), Claim(0)];
  }

  /** With a duration limit that runs out at once, the same worker gives its ticket up: the counter stands at 1 and
      nothing was performed. */
  lemma TimedOutAtOnce()
    ensures var c := Config(1, 1, 1, true, false);
      var run := [Start(0, true), Poll(0), Claim(0), CheckTime(0, true), Expire(0)];
      Runnable(c) && Legal(c, run)
      && AllDone(After(c, run)) && After(c, run).sharedOps == 1 && |After(c, run).performed| == 0
  {
    hide Legal, After;
    var c := Config(1, 1, 1, true, false);
    TargetOfOne(c);
    var r1 := [Start(0, true)];
    FirstStep(c, r1[0]);
    LegalStep(c, r1, Poll(0));
    var r3 := r1 + [Poll(0)] + [Claim(0)];
    LegalStep(c, r1 + [Poll(0)], Claim(0));
    LegalStep(c, r3, CheckTime(0, true));
    LegalStep(c, r3 + [CheckTime(0, true)], Expire(0));
    assert r3 + [CheckTime(0, true)] + [Expire(0)] ==
      [Start(0, true), Poll(0), Claim(0), CheckTime(0, true), Expire(0)];
  }

  lemma TargetOfOne(c: Config)
    requires c.blk == 1 && c.fileSize == 1
    ensures Target(c) == 1
  {
  }

  /** A finished run in which nobody raised the stop flag, and in which some worker got its buffer, has performed
      exactly target operations, and in the mixed test the two tallies add up to them. The shared counter, from which
      the program computes its final rate, is larger by the number of workers that overshot. */
  lemma UnstoppedRunIsComplete(c: Config, actions: seq<Action>, v: nat)
    requires Runnable(c) && Legal(c, actions)
    requires var s := After(c, actions);
      AllDone(s) && !s.stop && v < |s.workers| && s.workers[v] != Done(NoBuffer)
    ensures var s := After(c, actions);
      |s.performed| == Target(c) && s.readCount + s.writeCount == Target(c)
      && (forall t: nat :: t < Target(c) ==> t in Tickets(s.performed))
      && s.sharedOps == |s.performed| + |Overshooters(s.workers)| > |s.performed|
  {
    AlwaysInv(c, actions);
    hide After, Legal, Target, Tickets;
    var s := After(c, actions);
    // v left its loop, and not because of the flag: it overshot
    assert s.workers[v] == Done(Overshot);
    assert v in Overshooters(s.workers);
    assert |Overshooters(s.workers)| > 0;
    assert Claimed(c, s) == Target(c);
    NothingHeld(s.workers);
    CompleteLength(Tickets(s.performed), Target(c));
    TalliesComplete(s.workers);
    CountsAddUp(s.performed);
  }

  lemma NothingHeld(workers: seq<Worker>)
    requires forall w: nat :: w < |workers| ==> workers[w].Done? && !workers[w].why.TimedOut?
    ensures forall t: nat :: !HeldBySome(workers, t)
  {
  }

  lemma TalliesComplete(workers: seq<Worker>)
    requires forall w: nat :: w < |workers| ==> workers[w].Done?
    ensures Untallied(workers, true) == {} && Untallied(workers, false) == {}
  {
  }

  lemma {:induction false} CountsAddUp(ios: seq<Io>)
    ensures CountOf(ios, true) + CountOf(ios, false) == |ios|
  {
    if ios == [] {
    } else {
      CountsAddUp(ios[..|ios| - 1]);
    }
  }

  /** Whatever the interleaving and the moment of a stop: each claimed ticket was performed, or is held by exactly one
      worker that has not performed it or gave it up on a timeout. */
  lemma NoTicketLost(c: Config, actions: seq<Action>, t: nat)
    requires Runnable(c) && Legal(c, actions) && t < After(c, actions).sharedOps && t < Target(c)
    ensures var s := After(c, actions);
      (t in Tickets(s.performed)) != HeldBySome(s.workers, t)
      && forall v: nat, w: nat :: HeldBy(s.workers, t, v) && HeldBy(s.workers, t, w) ==> v == w
  {
    AlwaysInv(c, actions);
    hide After, Legal, Target, Tickets;
    var s := After(c, actions);
    assert t < Claimed(c, s);
    if HeldBySome(s.workers, t) {
      var w: nat :| HeldBy(s.workers, t, w);
      assert Held(s.workers[w]).value !in Tickets(s.performed);
    }
  }

  /** Unless all workers are done, one of them can take a step. */
  lemma NoDeadlock(c: Config, s: State)
    requires !AllDone(s)
    ensures exists a :: Enabled(c, s, a) && IsWorkerStep(a)
  {
    var w: nat :| w < |s.workers| && !s.workers[w].Done?;
    var a := match s.workers[w]
      case Fresh => Start(w, true)
      case AtLoop => Poll(w)
      case Claiming => Claim(w)
      case Holding(_) => CheckTime(w, false)
      case Expiring(_) => Expire(w)
      case Ready(_) => Perform(w, 0, true, true)
      case Failing(_) => CountError(w)
      case Halting(_) => RaiseStop(w)
      case Tallying(_) => Tally(w)
      case Done(_) => StopOutside;
    assert Enabled(c, s, a);
  }

  // ---- every run ends ------------------------------------------------------

  function WorkerSteps(actions: seq<Action>): nat {
    if actions == [] then 0
    else WorkerSteps(actions[..|actions| - 1]) + if IsWorkerStep(actions[|actions| - 1]) then 1 else 0
  }

  /** The steps a worker still takes at most without claiming another ticket below the target. */
  function Left(x: Worker): nat {
    match x
    case Fresh => 3
    case AtLoop => 2
    case Claiming => 1
    case Holding(_) => 7
    case Expiring(_) => 1
    case Ready(_) => 6
    case Failing(_) => 5
    case Halting(_) => 4
    case Tallying(_) => 3
    case Done(_) => 0
  }

  function AllLeft(workers: seq<Worker>): nat {
    if workers == [] then 0 else AllLeft(workers[..|workers| - 1]) + Left(workers[|workers| - 1])
  }

  lemma {:induction false} AllLeftAfter(workers: seq<Worker>, w: nat, x: Worker)
    requires w < |workers|
    ensures AllLeft(workers[w := x]) == AllLeft(workers) - Left(workers[w]) + Left(x)
  {
    hide Left;
    var n := |workers| - 1;
    if w < n {
      AllLeftAfter(workers[..n], w, x);
      assert workers[w := x][..n] == workers[..n][w := x];
    } else {
      assert workers[w := x][..n] == workers[..n];
    }
  }

  lemma {:induction false} AllLeftFresh(n: nat)
    ensures AllLeft(seq(n, _ => Fresh)) == 3 * n
  {
    if n == 0 {
    } else {
      AllLeftFresh(n - 1);
      assert seq(n, _ => Fresh)[..n - 1] == seq(n - 1, _ => Fresh);
    }
  }

  /** An upper bound for the steps to come: seven for every ticket not yet claimed. */
  function Remaining(c: Config, s: State): int
    requires Runnable(c)
  {
    7 * (Target(c) - Claimed(c, s)) + AllLeft(s.workers)
  }

  /** Every worker step brings the end closer; the other actions do not change the distance. */
  lemma StepsCount(c: Config, s: State, a: Action)
    requires Runnable(c) && Enabled(c, s, a)
    ensures Remaining(c, Apply(c, s, a)) <= Remaining(c, s) - if IsWorkerStep(a) then 1 else 0
  {
    hide AllLeft, Target;
    if IsWorkerStep(a) {
      AllLeftAfter(s.workers, a.w, Apply(c, s, a).workers[a.w]);
    }
  }

  /** No interleaving has more than seven steps for each ticket and three for each worker. */
  lemma {:induction false} RunsAreBounded(c: Config, actions: seq<Action>)
    requires Runnable(c) && Legal(c, actions)
    ensures WorkerSteps(actions) + Remaining(c, After(c, actions)) <= 7 * Target(c) + 3 * c.depth
    ensures WorkerSteps(actions) <= 7 * Target(c) + 3 * c.depth
    decreases |actions|
  {
    hide Target, Enabled, Apply, AllLeft;
    if actions == [] {
      AllLeftFresh(c.depth);
    } else {
      RunsAreBounded(c, actions[..|actions| - 1]);
      StepsCount(c, After(c, actions[..|actions| - 1]), actions[|actions| - 1]);
    }
  }

  /** A run that no worker can continue has ended, and without a stop it is complete. */
  lemma MaximalRunIsComplete(c: Config, actions: seq<Action>, v: nat)
    requires Runnable(c) && Legal(c, actions)
    requires forall a :: IsWorkerStep(a) ==> !Enabled(c, After(c, actions), a)
    ensures AllDone(After(c, actions))
    ensures var s := After(c, actions);
      !s.stop && v < |s.workers| && s.workers[v] != Done(NoBuffer) ==>
        |s.performed| == Target(c) && s.readCount + s.writeCount == Target(c)
  {
    hide Enabled, Target, After, Legal;
    var s := After(c, actions);
    if !AllDone(s) {
      NoDeadlock(c, s);
    }
    if !s.stop && v < |s.workers| && s.workers[v] != Done(NoBuffer) {
      UnstoppedRunIsComplete(c, actions, v);
    }
  }
}
