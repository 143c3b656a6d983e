/** The ring Z[sqrt 3], its powers and congruences modulo an integer. */
module RootThree {
  import opened NumberTheory

  /** a + b * sqrt 3. */
  datatype Elem = Elem(a: int, b: int)

  const ONE := Elem(1, 0)

  function Int(n: int): Elem { Elem(n, 0) }

  function Add(x: Elem, y: Elem): Elem { Elem(x.a + y.a, x.b + y.b) }

  function Scale(c: int, x: Elem): Elem { Elem(c * x.a, c * x.b) }

  function Mul(x: Elem, y: Elem): Elem {
    Elem(x.a * y.a + 3 * (x.b * y.b), x.a * y.b + x.b * y.a)
  }

  function Power(x: Elem, e: nat): Elem {
    if e == 0 then ONE else Mul(x, Power(x, e - 1))
  }

  /** Congruence modulo m, coordinate by coordinate. */
  ghost predicate Same(m: int, x: Elem, y: Elem) {
    Cong(m, x.a, y.a) && Cong(m, x.b, y.b)
  }

  // ---- ring laws -----------------------------------------------------------

  lemma MulOne(x: Elem)
    ensures Mul(ONE, x) == x && Mul(x, ONE) == x
  {
  }

  lemma MulComm(x: Elem, y: Elem)
    ensures Mul(x, y) == Mul(y, x)
  {
  }

  lemma Distribute(x: int, y: int, z: int)
    ensures x * (y + z) == x * y + x * z && (y + z) * x == y * x + z * x
  {
  }

  lemma MulAssoc(x: Elem, y: Elem, z: Elem)
    ensures Mul(Mul(x, y), z) == Mul(x, Mul(y, z))
  {
    Triple(x.a * y.a, x.b * y.b, z.a);
    Triple(x.a * y.a, x.b * y.b, z.b);
    Distribute(z.b, x.a * y.b, x.b * y.a);
    Distribute(z.a, x.a * y.b, x.b * y.a);
    Triple(y.a * z.a, y.b * z.b, x.a);
    Triple(y.a * z.a, y.b * z.b, x.b);
    Distribute(x.b, y.a * z.b, y.b * z.a);
    Distribute(x.a, y.a * z.b, y.b * z.a);
    Reassociate(x.a, x.b, y.a, y.b, z.a);
    Reassociate(x.a, x.b, y.a, y.b, z.b);
  }

  lemma Triple(u: int, v: int, c: int)
    ensures (u + 3 * v) * c == u * c + 3 * (v * c) == c * (u + 3 * v)
  {
  }

  lemma Reassociate(xa: int, xb: int, ya: int, yb: int, c: int)
    ensures (xa * ya) * c == xa * (ya * c) && (xa * yb) * c == xa * (yb * c)
    ensures (xb * ya) * c == xb * (ya * c) && (xb * yb) * c == xb * (yb * c)
  {
  }

  lemma MulAdd(x: Elem, y: Elem, z: Elem)
    ensures Mul(x, Add(y, z)) == Add(Mul(x, y), Mul(x, z))
    ensures Mul(Add(y, z), x) == Add(Mul(y, x), Mul(z, x))
  {
    Distribute(x.a, y.a, z.a);
    Distribute(x.b, y.b, z.b);
    Distribute(x.a, y.b, z.b);
    Distribute(x.b, y.a, z.a);
  }

  lemma MulScale(c: int, x: Elem, y: Elem)
    ensures Mul(Scale(c, x), y) == Scale(c, Mul(x, y))
    ensures Mul(x, Scale(c, y)) == Scale(c, Mul(x, y))
    ensures Mul(Int(c), x) == Scale(c, x)
  {
    PullOut(c, x.a, y.a);
    PullOut(c, x.b, y.b);
    PullOut(c, x.a, y.b);
    PullOut(c, x.b, y.a);
    Triple(x.a * y.a, x.b * y.b, c);
    Distribute(c, x.a * y.b, x.b * y.a);
  }

  lemma PullOut(c: int, u: int, v: int)
    ensures (c * u) * v == c * (u * v) == u * (c * v)
  {
  }

  lemma MulZero(x: Elem)
    ensures Mul(x, Int(0)) == Int(0)
  {
  }

  lemma ScaleSum(c: int, d: int, x: Elem)
    ensures Scale(c + d, x) == Add(Scale(c, x), Scale(d, x))
  {
    Distribute(x.a, c, d);
    Distribute(x.b, c, d);
  }

  lemma ScaleOne(x: Elem)
    ensures Scale(1, x) == x
  {
  }

  lemma AddShuffle(e: Elem, f: Elem, s: Elem, t: Elem)
    ensures Add(Add(e, f), Add(s, t)) == Add(Add(e, t), Add(f, s))
  {
  }

  /** (w x)(y z) == (w y)(x z). */
  lemma MulSwap(w: Elem, x: Elem, y: Elem, z: Elem)
    ensures Mul(Mul(w, x), Mul(y, z)) == Mul(Mul(w, y), Mul(x, z))
  {
    MulAssoc(w, x, Mul(y, z));
    MulAssoc(x, y, z);
    MulComm(x, y);
    MulAssoc(y, x, z);
    MulAssoc(w, y, Mul(x, z));
  }

  // ---- powers --------------------------------------------------------------

  lemma {:induction false} PowerAdd(x: Elem, i: nat, j: nat)
    ensures Power(x, i + j) == Mul(Power(x, i), Power(x, j))
  {
    hide Mul;
    if i == 0 {
      MulOne(Power(x, j));
    } else {
      PowerAdd(x, i - 1, j);
      MulAssoc(x, Power(x, i - 1), Power(x, j));
    }
  }

  lemma {:induction false} PowerMul(x: Elem, y: Elem, e: nat)
    ensures Power(Mul(x, y), e) == Mul(Power(x, e), Power(y, e))
  {
    hide Mul;
    if e == 0 {
      MulOne(ONE);
    } else {
      PowerMul(x, y, e - 1);
      MulSwap(x, y, Power(x, e - 1), Power(y, e - 1));
    }
  }

  lemma {:induction false} PowerPower(x: Elem, i: nat, j: nat)
    ensures 0 <= i * j
    ensures Power(Power(x, i), j) == Power(x, i * j)
  {
    if j == 0 {
    } else {
      PowerPower(x, i, j - 1);
      assert i * j == i + i * (j - 1);
      PowerAdd(x, i, i * (j - 1));
    }
  }

  lemma {:induction false} PowerInt(n: int, e: nat)
    ensures Power(Int(n), e) == Int(Pow(n, e))
  {
    if e == 0 {
    } else {
      PowerInt(n, e - 1);
    }
  }

  // ---- congruence ----------------------------------------------------------

  lemma SameRefl(m: int, x: Elem)
    ensures Same(m, x, x)
  {
    CongRefl(m, x.a);
    CongRefl(m, x.b);
  }

  lemma SameSym(m: int, x: Elem, y: Elem)
    requires Same(m, x, y)
    ensures Same(m, y, x)
  {
    CongSym(m, x.a, y.a);
    CongSym(m, x.b, y.b);
  }

  lemma SameTrans(m: int, x: Elem, y: Elem, z: Elem)
    requires Same(m, x, y) && Same(m, y, z)
    ensures Same(m, x, z)
  {
    CongTrans(m, x.a, y.a, z.a);
    CongTrans(m, x.b, y.b, z.b);
  }

  lemma SameAdd(m: int, x: Elem, y: Elem, z: Elem, w: Elem)
    requires Same(m, x, y) && Same(m, z, w)
    ensures Same(m, Add(x, z), Add(y, w))
  {
    CongAdd(m, x.a, y.a, z.a, w.a);
    CongAdd(m, x.b, y.b, z.b, w.b);
  }

  lemma SameMul(m: int, x: Elem, y: Elem, z: Elem, w: Elem)
    requires Same(m, x, y) && Same(m, z, w)
    ensures Same(m, Mul(x, z), Mul(y, w))
  {
    CongMul(m, x.a, y.a, z.a, w.a);
    CongMul(m, x.b, y.b, z.b, w.b);
    CongMul(m, x.a, y.a, z.b, w.b);
    CongMul(m, x.b, y.b, z.a, w.a);
    CongRefl(m, 3);
    CongMul(m, 3, 3, x.b * z.b, y.b * w.b);
    CongAdd(m, x.a * z.a, y.a * w.a, 3 * (x.b * z.b), 3 * (y.b * w.b));
    CongAdd(m, x.a * z.b, y.a * w.b, x.b * z.a, y.b * w.a);
  }

  lemma {:induction false} SamePower(m: int, x: Elem, y: Elem, e: nat)
    requires Same(m, x, y)
    ensures Same(m, Power(x, e), Power(y, e))
  {
    if e == 0 {
      SameRefl(m, ONE);
    } else {
      SamePower(m, x, y, e - 1);
      SameMul(m, x, y, Power(x, e - 1), Power(y, e - 1));
    }
  }

  // ---- the binomial theorem and Frobenius ----------------------------------

  function Choose(n: nat, k: nat): nat {
    if k == 0 then 1
    else if n == 0 then 0
    else Choose(n - 1, k - 1) + Choose(n - 1, k)
  }

  lemma {:induction false} ChooseBeyond(n: nat, k: nat)
    requires k > n
    ensures Choose(n, k) == 0
  {
    if n == 0 {
    } else {
      ChooseBeyond(n - 1, k - 1);
      ChooseBeyond(n - 1, k);
    }
  }

  lemma {:induction false} ChooseAll(n: nat)
    ensures Choose(n, n) == 1
  {
    if n == 0 {
    } else {
      ChooseAll(n - 1);
      ChooseBeyond(n - 1, n);
    }
  }

  /** The arithmetic of one step below; u, v, y, z stand for four neighbouring coefficients. */
  lemma AbsorbStep(n: int, k: int, u: int, v: int, y: int, z: int)
    requires u == y + z
    requires k * v == (n - 1) * z && (k - 1) * u == (n - 1) * y
    ensures k * (u + v) == n * u
  {
    assert k * (u + v) == (k - 1) * u + u + k * v;
    assert (n - 1) * (y + z) == (n - 1) * y + (n - 1) * z;
    assert n * u == (n - 1) * u + u;
  }

  lemma {:induction false} ChooseAbsorb(n: nat, k: nat)
    requires 0 < n && 0 < k
    ensures k * Choose(n, k) == n * Choose(n - 1, k - 1)
  {
    if n == 1 {
      if k > 1 {
        ChooseBeyond(1, k);
        ChooseBeyond(0, k - 1);
      }
    } else if k == 1 {
      ChooseAbsorb(n - 1, 1);
    } else {
      ChooseAbsorb(n - 1, k);
      ChooseAbsorb(n - 1, k - 1);
      AbsorbStep(n, k, Choose(n - 1, k - 1), Choose(n - 1, k), Choose(n - 2, k - 2), Choose(n - 2, k - 1));
    }
  }

  lemma ChoosePrime(q: int, k: nat)
    requires IsPrime(q) && 0 < k < q
    ensures Divides(q, Choose(q, k))
  {
    ChooseAbsorb(q, k);
    DividesBy(q, k * Choose(q, k), Choose(q - 1, k - 1));
    EuclidBelow(q, k, Choose(q, k));
  }

  /** The first k terms of the expansion of (1 + x)^n. */
  function Expansion(n: nat, x: Elem, k: nat): Elem {
    if k == 0 then Int(0)
    else Add(Expansion(n, x, k - 1), Scale(Choose(n, k - 1), Power(x, k - 1)))
  }

  lemma ExpansionFirst(n: nat, x: Elem)
    ensures Expansion(n, x, 1) == ONE
  {
    hide Mul, Scale;
    assert Choose(n, 0) == 1 && Power(x, 0) == ONE;
    assert Expansion(n, x, 0) == Int(0);
    ScaleOne(ONE);
  }

  lemma {:induction false} ExpansionPascal(n: nat, x: Elem, k: nat)
    requires n > 0
    ensures Expansion(n, x, k + 1) == Add(Expansion(n - 1, x, k + 1), Mul(x, Expansion(n - 1, x, k)))
  {
    hide Mul, Scale;
    if k == 0 {
      assert Expansion(n, x, 1) == Add(Int(0), Scale(1, ONE));
      assert Expansion(n - 1, x, 1) == Add(Int(0), Scale(1, ONE));
      MulScale(0, x, ONE);
      MulZero(x);
    } else {
      ExpansionPascal(n, x, k - 1);
      var u, v, below := Choose(n - 1, k - 1), Choose(n - 1, k), Power(x, k - 1);
      ScaleSum(u, v, Power(x, k));
      MulScale(u, x, below);
      MulAdd(x, Expansion(n - 1, x, k - 1), Scale(u, below));
      var e := Expansion(n - 1, x, k);
      var f := Mul(x, Expansion(n - 1, x, k - 1));
      AddShuffle(e, f, Scale(u, Power(x, k)), Scale(v, Power(x, k)));
    }
  }

  lemma {:induction false} ExpansionPast(n: nat, x: Elem)
    ensures Expansion(n, x, n + 2) == Expansion(n, x, n + 1)
  {
    ChooseBeyond(n, n + 1);
  }

  lemma {:induction false} Binomial(n: nat, x: Elem)
    ensures Power(Add(ONE, x), n) == Expansion(n, x, n + 1)
  {
    hide Mul, Scale;
    if n == 0 {
      ExpansionFirst(0, x);
    } else {
      Binomial(n - 1, x);
      ExpansionPascal(n, x, n);
      ExpansionPast(n - 1, x);
      MulAdd(Power(Add(ONE, x), n - 1), ONE, x);
      MulOne(Power(Add(ONE, x), n - 1));
    }
  }

  lemma ScaleVanishes(q: int, c: int, x: Elem)
    requires Divides(q, c)
    ensures Same(q, Scale(c, x), Int(0))
  {
    DividesScale(q, c, x.a);
    DividesScale(q, c, x.b);
  }

  lemma {:induction false} MiddleTermsVanish(q: int, x: Elem, k: nat)
    requires IsPrime(q) && 1 <= k <= q
    ensures Same(q, Expansion(q, x, k), ONE)
  {
    hide Mul, Scale, Same, IsPrime, Divides, Choose, Power, Add;
    if k == 1 {
      ExpansionFirst(q, x);
      SameRefl(q, ONE);
    } else {
      MiddleTermsVanish(q, x, k - 1);
      ChoosePrime(q, k - 1);
      var t := Scale(Choose(q, k - 1), Power(x, k - 1));
      ScaleVanishes(q, Choose(q, k - 1), Power(x, k - 1));
      SameAdd(q, Expansion(q, x, k - 1), ONE, t, Int(0));
      AddNothing();
    }
  }

  lemma AddNothing()
    ensures Add(ONE, Int(0)) == ONE
  {
  }

  /** (1 + x)^q is 1 + x^q modulo a prime q. */
  lemma Frobenius(q: int, x: Elem)
    requires IsPrime(q)
    ensures Same(q, Power(Add(ONE, x), q), Add(ONE, Power(x, q)))
  {
    Binomial(q, x);
    MiddleTermsVanish(q, x, q);
    ChooseAll(q);
    hide Mul, Scale, Same;
    var t := Power(x, q);
    ScaleOne(t);
    SameRefl(q, t);
    SameAdd(q, Expansion(q, x, q), ONE, t, t);
  }

  // ---- Fermat's little theorem ---------------------------------------------

  lemma {:induction false} FermatNat(q: int, a: nat)
    requires IsPrime(q)
    ensures Cong(q, Pow(a, q), a)
  {
    if a == 0 {
      assert Pow(0, q) == 0 * Pow(0, q - 1);
      CongRefl(q, 0);
    } else {
      FermatNat(q, a - 1);
      Frobenius(q, Int(a - 1));
      PowerInt(a - 1, q);
      PowerInt(a, q);
      assert Add(ONE, Int(a - 1)) == Int(a);
      CongRefl(q, 1);
      CongAdd(q, 1, 1, Pow(a - 1, q), a - 1);
      CongTrans(q, Pow(a, q), 1 + Pow(a - 1, q), a);
    }
  }

  lemma Fermat(q: int, a: nat)
    requires IsPrime(q) && !Divides(q, a)
    ensures Cong(q, Pow(a, q - 1), 1)
  {
    FermatNat(q, a);
    assert Pow(a, q) == a * Pow(a, q - 1);
    CancelFactor(q, a, Pow(a, q - 1), 1);
  }
}
