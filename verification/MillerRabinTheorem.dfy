/** The Miller-Rabin condition, and why a prime always meets it. */
module MillerRabinTheorem {
  import opened Arithmetic
  import opened NumberTheory
  import RootThree

  /** m = 2^TwoPart(m) * OddPart(m) with OddPart(m) odd. */
  function OddPart(m: nat): (d: nat)
    requires m > 0
    ensures d % 2 == 1 && d <= m
  {
    if m % 2 == 1 then m else OddPart(m / 2)
  }

  function TwoPart(m: nat): nat
    requires m > 0
  {
    if m % 2 == 1 then 0 else 1 + TwoPart(m / 2)
  }

  lemma {:induction false} Decompose(m: nat)
    requires m > 0
    ensures m == Pow2(TwoPart(m)) * OddPart(m)
  {
    if m % 2 == 0 {
      Decompose(m / 2);
      MulAssociates(2, Pow2(TwoPart(m / 2)), OddPart(m / 2));
    } else {
      assert Pow2(0) == 1;
    }
  }

  /** a^(d 2^j), the value after j squarings. */
  function Squared(a: int, d: nat, j: nat): int {
    if j == 0 then Pow(a, d) else Squared(a, d, j - 1) * Squared(a, d, j - 1)
  }

  lemma {:induction false} SquaredIsPower(a: int, d: nat, j: nat)
    ensures 0 <= Pow2(j) * d
    ensures Squared(a, d, j) == Pow(a, Pow2(j) * d)
  {
    if j == 0 {
      assert Pow2(0) * d == d;
    } else {
      SquaredIsPower(a, d, j - 1);
      var e := Pow2(j - 1) * d;
      MulAssociates(2, Pow2(j - 1), d);
      assert Pow2(j) * d == e + e;
      PowAdd(a, e, e);
    }
  }

  /** n is a strong probable prime to base a, with n - 1 = 2^r d and d odd:
      a^d is 1, or a^(d 2^j) is -1 for some j < r. */
  ghost predicate StrongProbablePrime(n: nat, a: int)
    requires n >= 2
  {
    var d, r := OddPart(n - 1), TwoPart(n - 1);
    Cong(n, Pow(a, d), 1) || exists j :: 0 <= j < r && Cong(n, Squared(a, d, j), -1)
  }

  /** A square root of 1 among the squarings is 1 or -1. */
  ghost predicate PlainRoot(n: nat, a: int, d: nat, j: nat) {
    Cong(n, Squared(a, d, j + 1), 1) ==> Cong(n, Squared(a, d, j), 1) || Cong(n, Squared(a, d, j), -1)
  }

  /** Walking down the squarings from a value of 1 through plain roots, the first other value met is -1. */
  lemma {:induction false} DescendPlainly(n: nat, a: int, d: nat, k: nat)
    requires Cong(n, Squared(a, d, k), 1) && forall j: nat :: j < k ==> PlainRoot(n, a, d, j)
    ensures Cong(n, Pow(a, d), 1) || exists j :: 0 <= j < k && Cong(n, Squared(a, d, j), -1)
  {
    hide Cong;
    if k == 0 {
    } else {
      assert PlainRoot(n, a, d, k - 1);
      if Cong(n, Squared(a, d, k - 1), 1) {
        DescendPlainly(n, a, d, k - 1);
      } else {
        assert Cong(n, Squared(a, d, k - 1), -1);
      }
    }
  }

  /** Modulo a prime all roots are plain. */
  lemma Descend(n: nat, a: int, d: nat, k: nat)
    requires IsPrime(n) && Cong(n, Squared(a, d, k), 1)
    ensures Cong(n, Pow(a, d), 1) || exists j :: 0 <= j < k && Cong(n, Squared(a, d, j), -1)
  {
    hide Cong, IsPrime;
    forall j: nat | j < k ensures PlainRoot(n, a, d, j) {
      if Cong(n, Squared(a, d, j + 1), 1) {
        SquareRootsOfOne(n, Squared(a, d, j));
      }
    }
    DescendPlainly(n, a, d, k);
  }

  /** A prime is a strong probable prime to every base it does not divide. */
  lemma PrimesPass(n: nat, a: nat)
    requires IsPrime(n) && !Divides(n, a)
    ensures StrongProbablePrime(n, a)
  {
    var d, r := OddPart(n - 1), TwoPart(n - 1);
    RootThree.Fermat(n, a);
    Decompose(n - 1);
    SquaredIsPower(a, d, r);
    Descend(n, a, d, r);
  }

  // ---- what the condition says without the decomposition of n - 1 ----------

  /** If e is n - 1 halved k > 0 times and a^e squares to 1, then a^e is 1 or -1. */
  ghost predicate TrivialRoot(n: nat, a: int, e: nat, k: nat) {
    k > 0 && e * Pow2(k) == n - 1 && Cong(n, Pow(a, e) * Pow(a, e), 1) ==>
      Cong(n, Pow(a, e), 1) || Cong(n, Pow(a, e), -1)
  }

  ghost predicate OnlyTrivialRoots(n: nat, a: int) {
    forall e: nat, k: nat :: TrivialRoot(n, a, e, k)
  }

  lemma {:induction false} HalvedTimes(m: nat, e: nat, k: nat)
    requires m > 0 && e * Pow2(k) == m
    ensures k <= TwoPart(m) && e == Pow2(TwoPart(m) - k) * OddPart(m)
    decreases k
  {
    if k == 0 {
      Decompose(m);
    } else {
      MulAssociates(e, 2, Pow2(k - 1));
      MulCommutes(e, 2);
      MulAssociates(2, e, Pow2(k - 1));
      assert m == 2 * (e * Pow2(k - 1));
      HalvedTimes(m / 2, e, k - 1);
    }
  }

  lemma RootIsSquaring(m: nat, a: int, e: nat, k: nat)
    requires m > 0 && k > 0 && e * Pow2(k) == m
    ensures k <= TwoPart(m) && Pow(a, e) == Squared(a, OddPart(m), TwoPart(m) - k)
  {
    HalvedTimes(m, e, k);
    SquaredIsPower(a, OddPart(m), TwoPart(m) - k);
  }

  lemma SquaringIsRoot(m: nat, a: int, j: nat) returns (e: nat, k: nat)
    requires m > 0 && j < TwoPart(m)
    ensures k > 0 && e * Pow2(k) == m && Pow(a, e) == Squared(a, OddPart(m), j)
  {
    var d, r := OddPart(m), TwoPart(m);
    SquaredIsPower(a, d, j);
    e, k := Pow2(j) * d, r - j;
    Decompose(m);
    Pow2Add(j, k);
    MulAssociates(Pow2(j), Pow2(k), d);
    MulCommutes(Pow2(k), d);
    MulAssociates(Pow2(j), d, Pow2(k));
  }

  lemma SquareOfUnit(n: int, x: int)
    requires Cong(n, x, 1) || Cong(n, x, -1)
    ensures Cong(n, x * x, 1)
  {
    CongMul(n, x, if Cong(n, x, 1) then 1 else -1, x, if Cong(n, x, 1) then 1 else -1);
  }

  /** From a value of 1 or -1 on all further squarings are 1. */
  lemma {:induction false} OnesFollow(n: int, a: int, d: nat, i: nat, j: nat)
    requires i <= j && (Cong(n, Squared(a, d, i), 1) || (i < j && Cong(n, Squared(a, d, i), -1)))
    ensures Cong(n, Squared(a, d, j), 1)
    decreases j - i
  {
    hide Cong;
    if i < j {
      SquareOfUnit(n, Squared(a, d, i));
      OnesFollow(n, a, d, i + 1, j);
    }
  }

  lemma NotBoth(n: int, x: int)
    requires n > 2 && Cong(n, x, 1)
    ensures !Cong(n, x, -1)
  {
    if Cong(n, x, -1) {
      DividesAdd(n, x + 1, x - 1);
      SmallMultiple(n, 2);
    }
  }

  lemma StrongHasPlainRoots(n: nat, a: int, i: nat)
    requires n > 2 && StrongProbablePrime(n, a) && i < TwoPart(n - 1)
    ensures PlainRoot(n, a, OddPart(n - 1), i)
  {
    hide Cong;
    var d, r := OddPart(n - 1), TwoPart(n - 1);
    if Cong(n, Pow(a, d), 1) {
      OnesFollow(n, a, d, 0, i);
    } else if Cong(n, Squared(a, d, i + 1), 1) {
      var j :| 0 <= j < r && Cong(n, Squared(a, d, j), -1);
      if j < i {
        OnesFollow(n, a, d, j, i);
      } else if j > i {
        OnesFollow(n, a, d, i + 1, j);
        NotBoth(n, Squared(a, d, j));
      }
    }
  }

  lemma StrongIsFermat(n: nat, a: int)
    requires n > 2 && StrongProbablePrime(n, a)
    ensures Cong(n, Pow(a, n - 1), 1)
  {
    var d, r := OddPart(n - 1), TwoPart(n - 1);
    Decompose(n - 1);
    SquaredIsPower(a, d, r);
    hide Cong;
    if Cong(n, Pow(a, d), 1) {
      OnesFollow(n, a, d, 0, r);
    } else {
      var j :| 0 <= j < r && Cong(n, Squared(a, d, j), -1);
      OnesFollow(n, a, d, j, r);
    }
  }

  lemma StrongHasTrivialRoots(n: nat, a: int)
    requires n > 2 && StrongProbablePrime(n, a)
    ensures OnlyTrivialRoots(n, a)
  {
    hide Cong, StrongProbablePrime, PlainRoot;
    forall e: nat, k: nat ensures TrivialRoot(n, a, e, k) {
      if k > 0 && e * Pow2(k) == n - 1 {
        RootIsSquaring(n - 1, a, e, k);
        StrongHasPlainRoots(n, a, TwoPart(n - 1) - k);
        PlainRootMeans(n, a, OddPart(n - 1), TwoPart(n - 1) - k);
      }
    }
  }

  lemma PlainRootMeans(n: nat, a: int, d: nat, j: nat)
    ensures var x := Squared(a, d, j);
      PlainRoot(n, a, d, j) <==> (Cong(n, x * x, 1) ==> Cong(n, x, 1) || Cong(n, x, -1))
  {
    hide Cong;
  }

  /** n is a strong probable prime to base a exactly when a^(n - 1) is 1, as for a prime, and no power of a that
      halving n - 1 leads to is a square root of 1 other than 1 and -1. */
  lemma StrongExactly(n: nat, a: int)
    requires n > 2
    ensures StrongProbablePrime(n, a) <==> Cong(n, Pow(a, n - 1), 1) && OnlyTrivialRoots(n, a)
  {
    hide Cong, PlainRoot, OnlyTrivialRoots, StrongProbablePrime;
    if StrongProbablePrime(n, a) {
      StrongIsFermat(n, a);
      StrongHasTrivialRoots(n, a);
    }
    if Cong(n, Pow(a, n - 1), 1) && OnlyTrivialRoots(n, a) {
      TrivialRootsAreStrong(n, a);
    }
  }

  lemma TrivialRootsAreStrong(n: nat, a: int)
    requires n > 2 && Cong(n, Pow(a, n - 1), 1) && OnlyTrivialRoots(n, a)
    ensures StrongProbablePrime(n, a)
  {
    hide Cong, PlainRoot;
    var d, r := OddPart(n - 1), TwoPart(n - 1);
    Decompose(n - 1);
    SquaredIsPower(a, d, r);
    forall j: nat | j < r ensures PlainRoot(n, a, d, j) {
      var e, k := SquaringIsRoot(n - 1, a, j);
      assert TrivialRoot(n, a, e, k);
      PlainRootMeans(n, a, d, j);
    }
    DescendPlainly(n, a, d, r);
  }
}
