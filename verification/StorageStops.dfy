/** What the stop flag does to the random I/O workers: who raises it, and how little happens once it is up. */
module StorageStops {
  import opened Arithmetic
  import opened Sequences
  import opened StorageTickets

  // ---- who raises the flag -------------------------------------------------

  /** The stores to the stop flag: a worker or the monitor finds the time over, a worker reports an error under
    * stop-on-error, or the user stops the test. */
  predicate Raises(a: Action) {
    a.Expire? || a.RaiseStop? || a.MonitorTimeout? || a.StopOutside?
  }

  ghost predicate SomeRaise(actions: seq<Action>) {
    exists k: nat :: k < |actions| && Raises(actions[k])
  }

  lemma StopStep(c: Config, s: State, a: Action)
    requires Runnable(c) && Enabled(c, s, a)
    ensures Apply(c, s, a).stop <==> s.stop || Raises(a)
  {
    hide Target;
  }

  /** The flag is up exactly when one of these stores has been made, however the steps interleave. */
  lemma {:induction false} StopExactly(c: Config, actions: seq<Action>)
    requires Runnable(c) && Legal(c, actions)
    ensures After(c, actions).stop <==> SomeRaise(actions)
    decreases |actions|
  {
    hide Apply, Enabled, Raises;
    if actions == [] {
    } else {
      var n := |actions| - 1;
      StopExactly(c, actions[..n]);
      StopStep(c, After(c, actions[..n]), actions[n]);
      if k: nat :| k < n && Raises(actions[..n][k]) {
        assert Raises(actions[k]);
      }
      if k: nat :| k < |actions| && Raises(actions[k]) {
        assert k == n || Raises(actions[..n][k]);
      }
    }
  }

  lemma {:induction false} PrefixIsLegal(c: Config, pre: seq<Action>, more: seq<Action>)
    requires Runnable(c) && Legal(c, pre + more)
    ensures Legal(c, pre)
    decreases |more|
  {
    hide Apply, Enabled;
    if more == [] {
      assert pre + more == pre;
    } else {
      FrontOfJoined(pre, more);
      PrefixIsLegal(c, pre, more[..|more| - 1]);
    }
  }

  lemma FrontOfJoined<T>(pre: seq<T>, more: seq<T>)
    requires more != []
    ensures var all := pre + more;
      all[..|all| - 1] == pre + more[..|more| - 1] && all[|all| - 1] == more[|more| - 1]
  {
  }

  lemma JoinedStep(c: Config, pre: seq<Action>, more: seq<Action>)
    requires Runnable(c) && Legal(c, pre + more) && more != []
    ensures Legal(c, pre + more[..|more| - 1])
    ensures var s, a := After(c, pre + more[..|more| - 1]), more[|more| - 1];
      Enabled(c, s, a) && After(c, pre + more) == Apply(c, s, a)
  {
    hide Apply, Enabled;
    FrontOfJoined(pre, more);
  }

  /** Once up the flag stays up. */
  lemma StopStays(c: Config, pre: seq<Action>, more: seq<Action>)
    requires Runnable(c) && Legal(c, pre + more)
    ensures Legal(c, pre) && (After(c, pre).stop ==> After(c, pre + more).stop)
  {
    hide After, Raises;
    PrefixIsLegal(c, pre, more);
    StopExactly(c, pre);
    StopExactly(c, pre + more);
    if k: nat :| k < |pre| && Raises(pre[k]) {
      assert Raises((pre + more)[k]);
    }
  }

  // ---- what a worker still does --------------------------------------------

  function ClaimsOf(actions: seq<Action>, w: nat): nat {
    if actions == [] then 0
    else ClaimsOf(actions[..|actions| - 1], w) + if actions[|actions| - 1] == Claim(w) then 1 else 0
  }

  function PerformsOf(actions: seq<Action>, w: nat): nat {
    if actions == [] then 0
    else
      var a := actions[|actions| - 1];
      PerformsOf(actions[..|actions| - 1], w) + if a.Perform? && a.w == w then 1 else 0
  }

  /** Past the test of the flag and before the I/O call. */
  predicate PastTest(x: Worker) {
    x.Claiming? || x.Holding? || x.Ready?
  }

  lemma ActsAfterStop(c: Config, s: State, a: Action, w: nat)
    requires Runnable(c) && Enabled(c, s, a) && s.stop && w < |s.workers|
    ensures var x, y := s.workers[w], Apply(c, s, a).workers[w];
      One(a == Claim(w)) + One(y.Claiming?) <= One(x.Claiming?)
      && One(a.Perform? && a.w == w) + One(PastTest(y)) <= One(PastTest(x))
  {
    hide Target;
  }

  /** From the moment the flag is up each worker draws at most one more ticket and performs at most one more operation,
    * and only if it had already passed the test at the head of its loop. */
  lemma {:induction false} OneMoreEach(c: Config, pre: seq<Action>, more: seq<Action>, w: nat)
    requires Runnable(c) && Legal(c, pre + more) && Legal(c, pre) && After(c, pre).stop
    requires w < |After(c, pre).workers|
    ensures w < |After(c, pre + more).workers|
    ensures var x, y := After(c, pre).workers[w], After(c, pre + more).workers[w];
      ClaimsOf(more, w) + One(y.Claiming?) <= One(x.Claiming?)
      && PerformsOf(more, w) + One(PastTest(y)) <= One(PastTest(x))
    decreases |more|
  {
    hide Apply, Enabled, PastTest, After, Legal;
    if more == [] {
      assert pre + more == pre;
    } else {
      JoinedStep(c, pre, more);
      var init, a := more[..|more| - 1], more[|more| - 1];
      OneMoreEach(c, pre, init, w);
      StopStays(c, pre, init);
      SameDepth(c, After(c, pre + init), a);
      ActsAfterStop(c, After(c, pre + init), a, w);
    }
  }

  /** A worker at the head of its loop, or not yet there, when the flag goes up performs nothing any more. */
  lemma StoppedAtLoop(c: Config, pre: seq<Action>, more: seq<Action>, w: nat)
    requires Runnable(c) && Legal(c, pre + more) && Legal(c, pre) && After(c, pre).stop
    requires w < |After(c, pre).workers| && (After(c, pre).workers[w].AtLoop? || After(c, pre).workers[w].Fresh?)
    ensures ClaimsOf(more, w) == 0 && PerformsOf(more, w) == 0
  {
    hide After, Legal;
    OneMoreEach(c, pre, more, w);
  }

  lemma PerformedStep(c: Config, s: State, a: Action)
    requires Runnable(c) && Enabled(c, s, a) && s.stop
    ensures var t := Apply(c, s, a);
      |t.performed| + |Those(t.workers, PastTest)| <= |s.performed| + |Those(s.workers, PastTest)|
  {
    hide Target, Those;
    if IsWorkerStep(a) {
      SizeAfter(s.workers, PastTest, a.w, Apply(c, s, a).workers[a.w]);
    }
  }

  /** Once the flag is up the operations grow by at most one for each worker past the test, so by at most the queue
    * depth. */
  lemma {:induction false} FewMoreOperations(c: Config, pre: seq<Action>, more: seq<Action>)
    requires Runnable(c) && Legal(c, pre + more) && Legal(c, pre) && After(c, pre).stop
    ensures var s, t := After(c, pre), After(c, pre + more);
      |t.performed| + |Those(t.workers, PastTest)| <= |s.performed| + |Those(s.workers, PastTest)|
      && |t.performed| <= |s.performed| + c.depth
    decreases |more|
  {
    hide Apply, Enabled, PastTest, Those, After, Legal;
    var s := After(c, pre);
    AlwaysInv(c, pre);
    AtMostAll(s.workers);
    if more == [] {
      assert pre + more == pre;
    } else {
      JoinedStep(c, pre, more);
      var init := more[..|more| - 1];
      FewMoreOperations(c, pre, init);
      StopStays(c, pre, init);
      PerformedStep(c, After(c, pre + init), more[|more| - 1]);
    }
  }

  lemma AtMostAll(workers: seq<Worker>)
    ensures |Those(workers, PastTest)| <= |workers|
  {
    IdsBelow(Those(workers, PastTest), |workers|);
  }

  // ---- errors under stop-on-error ------------------------------------------

  ghost predicate SomeHalting(workers: seq<Worker>) {
    exists w: nat :: w < |workers| && workers[w].Halting?
  }

  /** Under stop-on-error a counted error has raised the flag or is about to; otherwise no worker ever raises it for
    * an error, and without a duration limit nobody runs out of time. */
  ghost predicate ErrorsOk(c: Config, s: State) {
    (c.stopOnError && s.errors > 0 ==> s.stop || SomeHalting(s.workers))
    && (SomeHalting(s.workers) ==> c.stopOnError && s.errors > 0)
    && (forall w: nat :: w < |s.workers| && s.workers[w].Expiring? ==> c.timed)
  }

  lemma KeepsErrors(c: Config, s: State, a: Action)
    requires Runnable(c) && Enabled(c, s, a) && ErrorsOk(c, s)
    ensures ErrorsOk(c, Apply(c, s, a))
  {
    hide Target;
    var t := Apply(c, s, a);
    if SomeHalting(s.workers) {
      var w: nat :| w < |s.workers| && s.workers[w].Halting?;
      assert t.stop || (w < |t.workers| && t.workers[w].Halting?);
    }
    if a.CountError? && c.stopOnError {
      assert a.w < |t.workers| && t.workers[a.w].Halting?;
    }
    if SomeHalting(t.workers) {
      var w: nat :| w < |t.workers| && t.workers[w].Halting?;
      assert s.workers[w].Halting? || a == CountError(w);
    }
  }

  lemma {:induction false} AlwaysErrorsOk(c: Config, actions: seq<Action>)
    requires Runnable(c) && Legal(c, actions)
    ensures ErrorsOk(c, After(c, actions))
    decreases |actions|
  {
    hide Apply, Enabled, ErrorsOk;
    if actions == [] {
      InitialErrorsOk(c);
    } else {
      AlwaysErrorsOk(c, actions[..|actions| - 1]);
      KeepsErrors(c, After(c, actions[..|actions| - 1]), actions[|actions| - 1]);
    }
  }

  lemma InitialErrorsOk(c: Config)
    ensures ErrorsOk(c, Initial(c))
  {
  }

  /** A finished run under stop-on-error in which an operation failed has the flag up. */
  lemma FailureStops(c: Config, actions: seq<Action>)
    requires Runnable(c) && Legal(c, actions) && AllDone(After(c, actions))
    requires c.stopOnError && Failures(After(c, actions).performed) > 0
    ensures After(c, actions).stop
  {
    hide After, Legal;
    AlwaysInv(c, actions);
    AlwaysErrorsOk(c, actions);
    NoneFailing(After(c, actions).workers);
  }

  lemma NoneFailing(workers: seq<Worker>)
    requires forall w: nat :: w < |workers| ==> workers[w].Done?
    ensures Those(workers, IsFailing) == {} && !SomeHalting(workers)
  {
  }

  /** Without a duration limit, and with stop-on-error off or no failed operation, only the user raises the flag. */
  lemma {:induction false} StopHasCause(c: Config, actions: seq<Action>)
    requires Runnable(c) && Legal(c, actions)
    requires !c.timed && (!c.stopOnError || Failures(After(c, actions).performed) == 0)
    ensures After(c, actions).stop <==> StopOutside in actions
    decreases |actions|
  {
    hide Apply, Enabled;
    if actions == [] {
    } else {
      var n := |actions| - 1;
      var s, a := After(c, actions[..n]), actions[n];
      FailuresGrow(c, s, a);
      StopHasCause(c, actions[..n]);
      StopStep(c, s, a);
      AlwaysInv(c, actions[..n]);
      AlwaysErrorsOk(c, actions[..n]);
      OnlyOutside(c, s, a);
      FrontAndLast(actions);
    }
  }

  lemma FailuresGrow(c: Config, s: State, a: Action)
    requires Runnable(c) && Enabled(c, s, a)
    ensures Failures(s.performed) <= Failures(Apply(c, s, a).performed)
  {
    hide Target, Failures;
    var t := Apply(c, s, a);
    if a.Perform? {
      assert t.performed == s.performed + [t.performed[|s.performed|]];
      CountAppend(s.performed, t.performed[|s.performed|]);
    }
  }

  lemma OnlyOutside(c: Config, s: State, a: Action)
    requires Runnable(c) && Enabled(c, s, a) && ErrorsOk(c, s) && TalliesOk(s)
    requires !c.timed && (!c.stopOnError || Failures(s.performed) == 0)
    ensures Raises(a) <==> a == StopOutside
  {
    hide Target, Those, Untallied, CountOf, Failures;
  }

  const FAILING: seq<Action> := [Start(0, true), Poll(0), Claim(0), CheckTime(0, false), Perform(0, 0, false, false)]

  lemma FailingOnce()
    ensures var c := Config(2, 1, 1, false, true);
      Runnable(c) && Legal(c, FAILING)
      && After(c, FAILING) == State(1, false, 0, 0, 0, [Failing(false)], [Io(0, 0, false, false)])
  {
    hide Legal, After;
    var c := Config(2, 1, 1, false, true);
    TargetOfTwo(c);
    FirstStep(c, Start(0, true));
    LegalStep(c, [Start(0, true)], Poll(0));
    var r3 := [Start(0, true)] + [Poll(0)] + [Claim(0)];
    LegalStep(c, [Start(0, true)] + [Poll(0)], Claim(0));
    LegalStep(c, r3, CheckTime(0, false));
    LegalStep(c, r3 + [CheckTime(0, false)], Perform(0, 0, false, false));
    assert r3 + [CheckTime(0, false)] + [Perform(0, 0, false, false)] == FAILING;
  }

  /** For example: under stop-on-error the only operation fails; the worker counts the error, raises the flag, and sees
    * it at the head of its loop. */
  lemma FailedOnce()
    ensures var c := Config(2, 1, 1, false, true);
      var run := FAILING + [CountError(0)] + [RaiseStop(0)] + [Tally(0)] + [Poll(0)];
      Runnable(c) && Legal(c, run) && AllDone(After(c, run)) && After(c, run).stop
      && After(c, run).errors == 1 && |After(c, run).performed| == 1 && After(c, run).writeCount == 1
  {
    hide Legal, After;
    var c := Config(2, 1, 1, false, true);
    FailingOnce();
    LegalStep(c, FAILING, CountError(0));
    LegalStep(c, FAILING + [CountError(0)], RaiseStop(0));
    LegalStep(c, FAILING + [CountError(0)] + [RaiseStop(0)], Tally(0));
    LegalStep(c, FAILING + [CountError(0)] + [RaiseStop(0)] + [Tally(0)], Poll(0));
  }

  lemma TargetOfTwo(c: Config)
    requires c.blk == 1 && c.fileSize == 2
    ensures Target(c) == 2
  {
  }

  /** For example: a worker that starts after the stop performs nothing. */
  lemma StoppedBeforeStart()
    ensures var c := Config(2, 1, 1, false, false);
      var run := [StopOutside, Start(0, true), Poll(0)];
      Runnable(c) && Legal(c, run) && AllDone(After(c, run)) && After(c, run).performed == []
      && After(c, run).sharedOps == 0
  {
    hide Legal, After;
    var c := Config(2, 1, 1, false, false);
    FirstStep(c, StopOutside);
    LegalStep(c, [StopOutside], Start(0, true));
    LegalStep(c, [StopOutside] + [Start(0, true)], Poll(0));
    assert [StopOutside] + [Start(0, true)] + [Poll(0)] == [StopOutside, Start(0, true), Poll(0)];
  }

  // ---- workers that leave --------------------------------------------------

  /** On the way out: nothing more is drawn or performed. */
  predicate Leaving(x: Worker) {
    x.Done? || x.Expiring?
  }

  /** The ways to leave the loop: no buffer, the flag, a ticket past the target, or the time. */
  predicate Leaves(c: Config, s: State, a: Action, w: nat)
    requires Runnable(c)
  {
    a == Start(w, false) || (a == Poll(w) && s.stop) || (a == Claim(w) && s.sharedOps >= Target(c))
    || a == CheckTime(w, true)
  }

  /** A worker leaves in these four ways and in no other, and leaving is final. */
  lemma LeavesExactly(c: Config, s: State, a: Action, w: nat)
    requires Runnable(c) && Enabled(c, s, a) && w < |s.workers|
    ensures Leaving(Apply(c, s, a).workers[w]) <==> Leaving(s.workers[w]) || Leaves(c, s, a, w)
    ensures Leaving(s.workers[w]) ==> a != Claim(w) && !(a.Perform? && a.w == w)
  {
    hide Target;
  }

  lemma {:induction false} LeftForGood(c: Config, pre: seq<Action>, more: seq<Action>, w: nat)
    requires Runnable(c) && Legal(c, pre + more) && Legal(c, pre)
    requires w < |After(c, pre).workers| && Leaving(After(c, pre).workers[w])
    ensures w < |After(c, pre + more).workers| && Leaving(After(c, pre + more).workers[w])
    ensures ClaimsOf(more, w) == 0 && PerformsOf(more, w) == 0
    decreases |more|
  {
    hide Apply, Enabled, Leaving, Leaves, After, Legal;
    if more == [] {
      assert pre + more == pre;
    } else {
      JoinedStep(c, pre, more);
      var init, a := more[..|more| - 1], more[|more| - 1];
      LeftForGood(c, pre, init, w);
      SameDepth(c, After(c, pre + init), a);
      LeavesExactly(c, After(c, pre + init), a, w);
    }
  }

  // ---- which block an operation touches ------------------------------------

  /** The block that a draw selects: each block below the target is selected by its own number, and draws that differ by
    * the number of blocks select the same one. */
  lemma BlockOfDraw(c: Config, s: State, w: nat, random: nat, read: bool, ok: bool)
    requires Runnable(c) && Enabled(c, s, Perform(w, random, read, ok))
    ensures var t := Apply(c, s, Perform(w, random, read, ok));
      var u := Apply(c, s, Perform(w, random + Target(c), read, ok));
      |t.performed| == |s.performed| + 1 && t.performed == u.performed
      && (random < Target(c) ==> t.performed[|s.performed|] == Io(s.workers[w].ticket, random * c.blk, read, ok))
  {
    TargetPositive(c);
    var t := Target(c);
    hide Target;
    SameRemainder(random, t);
  }

  lemma SameRemainder(n: nat, m: nat)
    requires m > 0
    ensures (n + m) % m == n % m && (n < m ==> n % m == n)
  {
    var q, r := n / m, (n + m) / m;
    assert n == q * m + n % m;
    assert n + m == r * m + (n + m) % m;
    assert (q + 1) * m == q * m + m;
    PlaceUnique(m, r, (n + m) % m, q + 1, n % m);
    if n < m { PlaceUnique(m, q, n % m, 0, n); }
  }

  /** The number of blocks is as large as the file allows. */
  lemma TargetExactly(c: Config)
    requires Runnable(c)
    ensures Target(c) * c.blk <= c.fileSize < (Target(c) + 1) * c.blk
  {
    TargetPositive(c);
    var t := c.fileSize / c.blk;
    assert c.fileSize == t * c.blk + c.fileSize % c.blk;
    assert (t + 1) * c.blk == t * c.blk + c.blk;
  }
}
