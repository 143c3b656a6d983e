/** The Lucas-Lehmer theorem: for p >= 3, 2^p - 1 is prime exactly when it divides S(p - 2). */
module LucasLehmerTheorem {
  import opened Arithmetic
  import opened NumberTheory
  import opened RootThree
  import opened Counting

  const OMEGA := Elem(2, 1)
  const CONJUGATE := Elem(2, -1)

  /** The Lucas-Lehmer sequence over the integers, never reduced. */
  function S(k: nat): int {
    if k == 0 then 4 else S(k - 1) * S(k - 1) - 2
  }

  // ---- S in closed form ----------------------------------------------------

  lemma UnitPowers(e: nat)
    ensures Mul(Power(OMEGA, e), Power(CONJUGATE, e)) == ONE
  {
    PowerMul(OMEGA, CONJUGATE, e);
    PowerInt(1, e);
    PowOne(e);
  }

  lemma PowerDouble(x: Elem, k: nat)
    ensures Power(x, Pow2(k + 1)) == Mul(Power(x, Pow2(k)), Power(x, Pow2(k)))
  {
    PowerAdd(x, Pow2(k), Pow2(k));
  }

  lemma PowerOne(x: Elem)
    ensures Power(x, 1) == x
  {
    hide Mul;
    assert Power(x, 1) == Mul(x, Power(x, 0));
    MulOne(x);
  }

  lemma SquaresOfUnits(u: Elem, v: Elem, s: int)
    requires Add(u, v) == Int(s) && Mul(u, v) == ONE
    ensures Add(Mul(u, u), Mul(v, v)) == Int(s * s - 2)
  {
    var both := Int(s);
    MulAdd(both, u, v);
    MulAdd(u, u, v);
    MulAdd(v, u, v);
    MulComm(u, v);
    assert Mul(both, both) == Int(s * s);
    assert Mul(both, both) == Add(Mul(u, both), Mul(v, both)) by {
      MulAdd(both, u, v);
    }
  }

  /** S(k) = omega^(2^k) + conjugate^(2^k). */
  lemma {:induction false} ClosedForm(k: nat)
    ensures Add(Power(OMEGA, Pow2(k)), Power(CONJUGATE, Pow2(k))) == Int(S(k))
  {
    hide Mul;
    if k == 0 {
      PowerOne(OMEGA);
      PowerOne(CONJUGATE);
    } else {
      ClosedForm(k - 1);
      UnitPowers(Pow2(k - 1));
      PowerDouble(OMEGA, k - 1);
      PowerDouble(CONJUGATE, k - 1);
      SquaresOfUnits(Power(OMEGA, Pow2(k - 1)), Power(CONJUGATE, Pow2(k - 1)), S(k - 1));
    }
  }

  /** m divides S(k) exactly when omega^(2^(k+1)) is -1 modulo m. */
  lemma ZeroIsMinusOne(m: int, k: nat)
    ensures Divides(m, S(k)) <==> Same(m, Power(OMEGA, Pow2(k + 1)), Int(-1))
  {
    hide Mul;
    var u, v, s := Power(OMEGA, Pow2(k)), Power(CONJUGATE, Pow2(k)), Int(S(k));
    ClosedForm(k);
    UnitPowers(Pow2(k));
    PowerDouble(OMEGA, k);
    MulAdd(u, u, v);
    assert Mul(u, s) == Add(Mul(u, u), ONE);
    if Divides(m, S(k)) {
      DividesZero(m);
      assert Same(m, s, Int(0));
      SameRefl(m, u);
      SameMul(m, u, u, s, Int(0));
      MulZero(u);
      SameRefl(m, Int(-1));
      SameAdd(m, Mul(u, s), Int(0), Int(-1), Int(-1));
    }
    if Same(m, Mul(u, u), Int(-1)) {
      SameRefl(m, ONE);
      SameAdd(m, Mul(u, u), Int(-1), ONE, ONE);
      SameRefl(m, v);
      SameMul(m, v, v, Mul(u, s), Int(0));
      MulZero(v);
      MulAssoc(v, u, s);
      MulComm(v, u);
      MulOne(s);
      assert Same(m, s, Int(0));
    }
  }

  // ---- true implies prime --------------------------------------------------

  lemma OneIsNotMinusOne(q: int)
    requires q >= 3
    ensures !Cong(q, 1, -1)
  {
    if Cong(q, 1, -1) { SmallMultiple(q, 2); }
  }

  lemma PowerMinusOne(q: int, x: Elem, d: nat)
    requires Same(q, x, Int(-1))
    ensures Same(q, Power(x, d), Int(if d % 2 == 0 then 1 else -1))
  {
    SamePower(q, x, Int(-1), d);
    PowerInt(-1, d);
    PowMinusOne(d);
  }

  /** When x^h is -1, no odd power of x is 1. */
  lemma OddPowers(q: int, x: Elem, h: nat, d: nat)
    requires q >= 3 && Same(q, Power(x, h), Int(-1)) && d % 2 == 1
    ensures !Same(q, Power(x, d), ONE)
  {
    hide Mul, Power;
    if Same(q, Power(x, d), ONE) {
      PowerMinusOne(q, Power(x, h), d);
      PowerPower(x, h, d);
      SamePower(q, Power(x, d), ONE, h);
      PowerPower(x, d, h);
      assert d * h == h * d;
      PowerInt(1, h);
      PowOne(h);
      SameSym(q, Power(x, d * h), ONE);
      SameTrans(q, ONE, Power(x, d * h), Int(-1));
      OneIsNotMinusOne(q);
    }
  }

  /** When x^(2^n) is -1, no exponent below 2^(n+1) takes x to 1. */
  lemma {:induction false} OrderIsExact(q: int, x: Elem, n: nat, d: nat)
    requires q >= 3 && Same(q, Power(x, Pow2(n)), Int(-1)) && 0 < d < Pow2(n + 1)
    ensures !Same(q, Power(x, d), ONE)
    decreases n
  {
    hide Mul, Power, Same;
    if d % 2 == 1 {
      OddPowers(q, x, Pow2(n), d);
    } else {
      PowerPower(x, 2, Pow2(n - 1));
      PowerPower(x, 2, d / 2);
      OrderIsExact(q, Power(x, 2), n - 1, d / 2);
    }
  }

  /** The first 2^(n+1) powers of omega are pairwise different modulo q. */
  lemma PowersDiffer(q: int, n: nat, i: nat, j: nat)
    requires q >= 3 && Same(q, Power(OMEGA, Pow2(n)), Int(-1)) && i < j < Pow2(n + 1)
    ensures !Same(q, Power(OMEGA, i), Power(OMEGA, j))
  {
    hide Mul, Same;
    if Same(q, Power(OMEGA, i), Power(OMEGA, j)) {
      var w, u, d := Power(CONJUGATE, i), Power(OMEGA, i), Power(OMEGA, j - i);
      PowerAdd(OMEGA, i, j - i);
      UnitPowers(i);
      MulComm(u, w);
      MulAssoc(w, u, d);
      MulOne(d);
      SameRefl(q, w);
      SameMul(q, w, w, u, Power(OMEGA, j));
      SameSym(q, ONE, d);
      OrderIsExact(q, OMEGA, n, j - i);
    }
  }

  /** The two residues of x modulo q, packed into one number below q * q. */
  function Packed(q: int, x: Elem): (r: int)
    requires q > 0
    ensures 0 <= r < q * q
  {
    var a, b := x.a % q, x.b % q;
    assert 0 <= q * a <= q * (q - 1) by { MulMono(q, a, q - 1); MulMono(q, 0, a); }
    q * a + b
  }

  lemma PackedInjective(q: int, x: Elem, y: Elem)
    requires q > 0 && Packed(q, x) == Packed(q, y)
    ensures Same(q, x, y)
  {
    var d, e := x.a % q - y.a % q, x.b % q - y.b % q;
    assert q * (x.a % q) - q * (y.a % q) == q * d;
    DividesBy(q, -e, d);
    SmallMultiple(q, -e);
    if d >= 1 { MulMono(q, 1, d); assert false; }
    if d <= -1 { MulMono(q, d, -1); assert false; }
    CongIsEqualMod(q, x.a, y.a);
    CongIsEqualMod(q, x.b, y.b);
  }

  /** A factor of S(n) that is at least 3 has a square of at least 2^(n+2). */
  lemma FactorsAreLarge(q: int, n: nat)
    requires q >= 3 && Divides(q, S(n))
    ensures Pow2(n + 2) <= q * q
  {
    hide Mul, Same, Packed, Power;
    ZeroIsMinusOne(q, n);
    var size := Pow2(n + 2);
    var s := seq(size, i requires 0 <= i < size => Packed(q, Power(OMEGA, i)));
    forall i, j | 0 <= i < j < |s| ensures s[i] != s[j] {
      PowersDiffer(q, n + 1, i, j);
      if s[i] == s[j] { PackedInjective(q, Power(OMEGA, i), Power(OMEGA, j)); }
    }
    Pigeonhole(s, q * q);
  }

  lemma ZeroImpliesPrime(p: nat)
    requires p >= 3 && Divides(Pow2(p) - 1, S(p - 2))
    ensures IsPrime(Pow2(p) - 1)
  {
    var m := Pow2(p) - 1;
    assert Pow2(p) == 2 * Pow2(p - 1) == 4 * Pow2(p - 2);
    if !IsPrime(m) {
      var q := SmallFactor(m);
      if q == 2 { DividesMod(2, m); assert false; }
      DividesTrans(q, m, S(p - 2));
      FactorsAreLarge(q, p - 2);
    }
  }

  // ---- prime implies true --------------------------------------------------

  /** Product of 3k for lo < k <= hi. */
  function Triples(lo: nat, hi: nat): int {
    if hi <= lo then 1 else Triples(lo, hi - 1) * (3 * hi)
  }

  function Factorial(n: nat): int {
    if n == 0 then 1 else Factorial(n - 1) * n
  }

  /** Product of 3j - c for 1 <= j <= n. */
  function Progression(n: nat, c: int): int {
    if n == 0 then 1 else Progression(n - 1, c) * (3 * n - c)
  }

  lemma {:induction false} TriplesSplit(lo: nat, mid: nat, hi: nat)
    requires lo <= mid <= hi
    ensures Triples(lo, hi) == Triples(lo, mid) * Triples(mid, hi)
  {
    if mid < hi {
      TriplesSplit(lo, mid, hi - 1);
      MulAssociates(Triples(lo, mid), Triples(mid, hi - 1), 3 * hi);
    }
  }

  lemma {:induction false} TriplesAreScaled(n: nat)
    ensures Triples(0, n) == Pow(3, n) * Factorial(n)
  {
    if n == 0 {
    } else {
      TriplesAreScaled(n - 1);
      Regroup(Pow(3, n - 1), Factorial(n - 1), 3, n);
    }
  }

  lemma {:induction false} FactorialInThrees(m: nat)
    ensures Factorial(3 * m) == Progression(m, 0) * Progression(m, 2) * Progression(m, 1)
  {
    if m == 0 {
    } else {
      FactorialInThrees(m - 1);
      var n := 3 * m;
      var f := Factorial(n - 3);
      assert Factorial(n) == Factorial(n - 1) * n;
      assert Factorial(n - 1) == Factorial(n - 2) * (n - 1);
      assert Factorial(n - 2) == f * (n - 2);
      var a, b, c := Progression(m - 1, 0), Progression(m - 1, 2), Progression(m - 1, 1);
      Regroup(a, b, n, n - 2);
      Regroup(a * b, c, n * (n - 2), n - 1);
      assert f * ((n * (n - 2)) * (n - 1)) == ((f * (n - 2)) * (n - 1)) * n by {
        SortFactors(f, n - 2, n - 1, n);
      }
    }
  }

  lemma SortFactors(f: int, x: int, y: int, z: int)
    ensures f * ((z * x) * y) == ((f * x) * y) * z
  {
    var t := x * y;
    assert (z * x) * y == z * t;
    assert (f * x) * y == f * t;
    assert f * (z * t) == (f * t) * z;
  }

  lemma {:induction false} LowerThird(m: nat)
    ensures Triples(0, m) == Progression(m, 0)
  {
    if m == 0 {
    } else {
      LowerThird(m - 1);
    }
  }

  lemma SignedStep(t: int, s: int, b: int)
    ensures (-1 * t) * (s * b) == (-1 * s) * (b * t)
  {
    Regroup(-1, t, s, b);
    assert t * b == b * t;
  }

  lemma {:induction false} MiddleThird(q: int, m: nat, j: nat)
    requires q == 6 * m + 1 && j <= m
    ensures Cong(q, Triples(2 * m - j, 2 * m), Pow(-1, j) * Progression(j, 2))
  {
    if j == 0 {
      CongRefl(q, 1);
    } else {
      MiddleThird(q, m, j - 1);
      var lo := 2 * m - j;
      TriplesSplit(lo, lo + 1, 2 * m);
      assert Triples(lo, lo + 1) == 3 * (lo + 1);
      var t := 3 * j - 2;
      DividesBy(q, 3 * (lo + 1) - (-1 * t), 1);
      CongMul(q, 3 * (lo + 1), -1 * t, Triples(lo + 1, 2 * m), Pow(-1, j - 1) * Progression(j - 1, 2));
      SignedStep(t, Pow(-1, j - 1), Progression(j - 1, 2));
    }
  }

  lemma {:induction false} UpperThird(q: int, m: nat, j: nat)
    requires q == 6 * m + 1
    ensures Cong(q, Triples(2 * m, 2 * m + j), Progression(j, 1))
  {
    if j == 0 {
      CongRefl(q, 1);
    } else {
      UpperThird(q, m, j - 1);
      var k := 2 * m + j;
      DividesBy(q, 3 * k - (3 * j - 1), 1);
      CongMul(q, Triples(2 * m, k - 1), Progression(j - 1, 1), 3 * k, 3 * j - 1);
    }
  }

  lemma {:induction false} FactorialNotDivisible(q: int, n: nat)
    requires IsPrime(q) && n < q
    ensures !Divides(q, Factorial(n))
  {
    if n == 0 {
      if Divides(q, 1) { SmallMultiple(q, 1); }
    } else {
      FactorialNotDivisible(q, n - 1);
      if Divides(q, Factorial(n)) {
        Euclid(q, Factorial(n - 1), n);
        SmallMultiple(q, n);
      }
    }
  }

  lemma PullSign(a: int, b: int, c: int)
    ensures (a * (-1 * b)) * c == -1 * ((a * b) * c)
  {
    assert a * (-1 * b) == -1 * (a * b);
    MulAssociates(-1, a * b, c);
  }

  /** The numbers 3, 6, ..., 9m are up to sign the numbers 1, 2, ..., 3m modulo 6m + 1; m of the signs are minus. */
  lemma TriplesAreSigned(q: int, m: nat)
    requires q == 6 * m + 1 && m % 2 == 1
    ensures Cong(q, Triples(0, 3 * m), -1 * Factorial(3 * m))
  {
    hide Triples, Factorial, Progression, Pow, Cong;
    var a, b, c := Progression(m, 0), Progression(m, 2), Progression(m, 1);
    FactorialInThrees(m);
    TriplesSplit(0, m, 2 * m);
    TriplesSplit(0, 2 * m, 3 * m);
    LowerThird(m);
    MiddleThird(q, m, m);
    UpperThird(q, m, m);
    PowMinusOne(m);
    CongRefl(q, a);
    CongMul(q, a, a, Triples(m, 2 * m), -1 * b);
    CongMul(q, a * Triples(m, 2 * m), a * (-1 * b), Triples(2 * m, 3 * m), c);
    PullSign(a, b, c);
  }

  /** 3 is not a square modulo a prime q = 6m + 1 with m odd: 3^((q-1)/2) is -1. */
  lemma ThreeIsNonResidue(q: int, m: nat)
    requires IsPrime(q) && q == 6 * m + 1 && m % 2 == 1
    ensures Cong(q, Pow(3, 3 * m), -1)
  {
    hide Triples, Factorial, Pow, Cong, Divides, IsPrime;
    var f := Factorial(3 * m);
    TriplesAreScaled(3 * m);
    TriplesAreSigned(q, m);
    FactorialNotDivisible(q, 3 * m);
    MulCommutes(Pow(3, 3 * m), f);
    MulCommutes(-1, f);
    CancelFactor(q, f, Pow(3, 3 * m), -1);
  }

  /** For odd p >= 3, 2^p - 1 has the form 12t + 7. */
  lemma {:induction false} MersenneForm(p: nat) returns (t: nat)
    requires p >= 3 && p % 2 == 1
    ensures Pow2(p) == 12 * t + 8
  {
    if p == 3 {
      assert Pow2(3) == 2 * Pow2(2) == 4 * Pow2(1) == 8 * Pow2(0);
      t := 0;
    } else {
      var u := MersenneForm(p - 2);
      assert Pow2(p) == 2 * Pow2(p - 1) == 4 * Pow2(p - 2);
      t := 4 * u + 2;
    }
  }

  /** A number whose square is 2 more than twice q is a square root of 2 modulo q, and no multiple of it. */
  lemma RootOfTwo(q: int, c: int, s: int)
    requires q >= 3 && s == c * c && s == 2 * (q + 1)
    ensures Cong(q, 2, s) && !Divides(q, c)
  {
    DividesBy(q, s - 2, 2);
    CongSym(q, s, 2);
    if Divides(q, c) {
      DividesScale(q, c, c);
      DividesAdd(q, s, s - 2);
      SmallMultiple(q, 2);
    }
  }

  /** 2 is congruent to the square of c = 2^((p+1)/2) modulo 2^p - 1. */
  lemma TwoIsSquare(p: nat) returns (c: nat)
    requires p >= 3 && p % 2 == 1
    ensures Cong(Pow2(p) - 1, 2, c * c) && !Divides(Pow2(p) - 1, c)
  {
    hide Pow2, Divides, Cong;
    var e := (p + 1) / 2;
    c := Pow2(e);
    Pow2Add(e, e);
    Pow2Next(p);
    var t := MersenneForm(p);
    RootOfTwo(Pow2(p) - 1, c, c * c);
  }

  /** 2 is a square modulo a Mersenne prime with odd exponent: 2^((q+1)/2) is 2. */
  lemma TwoIsResidue(p: nat)
    requires p >= 3 && p % 2 == 1 && IsPrime(Pow2(p) - 1)
    ensures Cong(Pow2(p) - 1, Pow(2, Pow2(p - 1)), 2)
  {
    var q, n := Pow2(p) - 1, Pow2(p - 1) - 1;
    var c := TwoIsSquare(p);
    Fermat(q, c);
    PowSquare(c, n);
    CongPow(q, 2, c * c, n);
    CongTrans(q, Pow(2, n), Pow(c, q - 1), 1);
    CongRefl(q, 2);
    CongMul(q, 2, 2, Pow(2, n), 1);
  }

  lemma PowerTwo(x: Elem)
    ensures Power(x, 2) == Mul(x, x)
  {
    hide Mul;
    PowerOne(x);
  }

  lemma RootTimes(y: Elem)
    ensures Mul(Elem(0, 1), y) == Elem(3 * y.b, y.a)
  {
  }

  lemma PowerRootThree(n: nat)
    ensures Power(Elem(0, 1), 2 * n + 1) == Elem(0, Pow(3, n))
  {
    hide Mul;
    var r := Elem(0, 1);
    PowerTwo(r);
    RootTimes(r);
    PowerPower(r, 2, n);
    PowerInt(3, n);
    RootTimes(Int(Pow(3, n)));
  }

  /** (1 + sqrt 3)^q is 1 - sqrt 3 modulo a Mersenne prime q with odd exponent. */
  lemma ConjugateByFrobenius(q: int, m: nat)
    requires IsPrime(q) && q == 6 * m + 1 && m % 2 == 1
    ensures Same(q, Power(Elem(1, 1), q), Elem(1, -1))
  {
    hide Mul, Power;
    Frobenius(q, Elem(0, 1));
    assert Add(ONE, Elem(0, 1)) == Elem(1, 1);
    PowerRootThree(3 * m);
    ThreeIsNonResidue(q, m);
    CongRefl(q, 1);
    assert Same(q, Add(ONE, Power(Elem(0, 1), q)), Elem(1, -1));
    SameTrans(q, Power(Elem(1, 1), q), Add(ONE, Power(Elem(0, 1), q)), Elem(1, -1));
  }

  /** (1 + sqrt 3)^(2h) = 2^h * omega^h. */
  lemma TauSquared(h: nat)
    ensures Power(Elem(1, 1), 2 * h) == Scale(Pow(2, h), Power(OMEGA, h))
  {
    hide Scale;
    var tau := Elem(1, 1);
    TauTwice();
    hide Mul, Power;
    PowerPower(tau, 2, h);
    PowerMul(Int(2), OMEGA, h);
    PowerInt(2, h);
    MulScale(Pow(2, h), Power(OMEGA, h), ONE);
  }

  lemma TauTwice()
    ensures Power(Elem(1, 1), 2) == Mul(Int(2), OMEGA)
  {
    hide Mul;
    PowerTwo(Elem(1, 1));
    TauProduct();
  }

  lemma TauProduct()
    ensures Mul(Elem(1, 1), Elem(1, 1)) == Mul(Int(2), OMEGA)
  {
    assert Mul(Int(2), OMEGA) == Elem(4, 2);
  }

  lemma ScaleCong(q: int, c: int, d: int, x: Elem)
    requires Cong(q, c, d)
    ensures Same(q, Scale(c, x), Scale(d, x))
  {
    CongRefl(q, x.a);
    CongRefl(q, x.b);
    CongMul(q, c, d, x.a, x.a);
    CongMul(q, c, d, x.b, x.b);
  }

  /** (1 + sqrt 3)^(q+1) is the norm -2 of 1 + sqrt 3. */
  lemma NormByFrobenius(q: nat, m: nat)
    requires IsPrime(q) && q == 6 * m + 1 && m % 2 == 1
    ensures Same(q, Power(Elem(1, 1), q + 1), Int(-2))
  {
    hide Same, IsPrime;
    var tau := Elem(1, 1);
    NormOfTau();
    hide Mul;
    ConjugateByFrobenius(q, m);
    SameRefl(q, tau);
    SameMul(q, tau, tau, Power(tau, q), Elem(1, -1));
  }

  lemma NormOfTau()
    ensures Mul(Elem(1, 1), Elem(1, -1)) == Int(-2)
  {
  }

  lemma PrimeImpliesZero(p: nat)
    requires p >= 3 && p % 2 == 1 && IsPrime(Pow2(p) - 1)
    ensures Divides(Pow2(p) - 1, S(p - 2))
  {
    hide Same, Mul, Power, Scale, Pow, Pow2, S, IsPrime, Divides, Cong;
    var q, h := Pow2(p) - 1, Pow2(p - 1);
    Pow2Next(p - 1);
    var t := MersenneForm(p);
    NormByFrobenius(q, 2 * t + 1);
    TauSquared(h);
    TwoIsResidue(p);
    ScaleCong(q, Pow(2, h), 2, Power(OMEGA, h));
    SameSym(q, Scale(Pow(2, h), Power(OMEGA, h)), Scale(2, Power(OMEGA, h)));
    SameTrans(q, Scale(2, Power(OMEGA, h)), Power(Elem(1, 1), q + 1), Int(-2));
    HalveMinusTwo(q, Power(OMEGA, h));
    ZeroIsMinusOne(q, p - 2);
  }

  lemma HalveMinusTwo(q: int, x: Elem)
    requires IsPrime(q) && q >= 3 && Same(q, Scale(2, x), Int(-2))
    ensures Same(q, x, Int(-1))
  {
    if Divides(q, 2) { SmallMultiple(q, 2); }
    CancelFactor(q, 2, x.a, -1);
    CancelFactor(q, 2, x.b, 0);
  }

  /** 3 divides 2^p - 1 for even p. */
  lemma {:induction false} EvenExponent(p: nat)
    requires p % 2 == 0
    ensures Divides(3, Pow2(p) - 1)
  {
    if p == 0 {
      DividesZero(3);
    } else {
      EvenExponent(p - 2);
      var k :| 3 * k == Pow2(p - 2) - 1;
      assert Pow2(p) == 2 * Pow2(p - 1) == 4 * Pow2(p - 2);
      DividesBy(3, Pow2(p) - 1, 4 * k + 1);
    }
  }

  /** The Lucas-Lehmer theorem. */
  lemma LucasLehmer(p: nat)
    requires p >= 3
    ensures IsPrime(Pow2(p) - 1) <==> Divides(Pow2(p) - 1, S(p - 2))
  {
    if Divides(Pow2(p) - 1, S(p - 2)) {
      ZeroImpliesPrime(p);
    }
    if IsPrime(Pow2(p) - 1) {
      if p % 2 == 1 {
        PrimeImpliesZero(p);
      } else {
        assert Pow2(p) == 2 * Pow2(p - 1) == 4 * Pow2(p - 2);
        assert 3 < Pow2(p) - 1;
        EvenExponent(p);
        assert false;
      }
    }
  }
}
