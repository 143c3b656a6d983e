/** Divisibility, primes, congruences and powers over the integers. */
module NumberTheory {
  import opened Arithmetic

  ghost predicate Divides(d: int, x: int) {
    exists k: int :: d * k == x
  }

  ghost predicate IsPrime(n: int) {
    2 <= n && forall d :: 2 <= d < n ==> !Divides(d, n)
  }

  /** a and b leave the same residue modulo m. */
  ghost predicate Cong(m: int, a: int, b: int) {
    Divides(m, a - b)
  }

  function Pow(b: int, e: nat): int {
    if e == 0 then 1 else b * Pow(b, e - 1)
  }

  // ---- divisibility --------------------------------------------------------

  lemma DividesBy(d: int, x: int, k: int)
    requires d * k == x
    ensures Divides(d, x)
  {
  }

  lemma DividesZero(d: int)
    ensures Divides(d, 0)
  {
    DividesBy(d, 0, 0);
  }

  lemma DividesAdd(d: int, x: int, y: int)
    requires Divides(d, x) && Divides(d, y)
    ensures Divides(d, x + y) && Divides(d, x - y)
  {
    var i :| d * i == x;
    var j :| d * j == y;
    assert d * (i + j) == x + y && d * (i - j) == x - y;
  }

  lemma DividesScale(d: int, x: int, c: int)
    requires Divides(d, x)
    ensures Divides(d, c * x)
  {
    var i :| d * i == x;
    assert d * (c * i) == c * (d * i);
  }

  lemma DividesTrans(a: int, b: int, c: int)
    requires Divides(a, b) && Divides(b, c)
    ensures Divides(a, c)
  {
    var i :| a * i == b;
    var j :| b * j == c;
    assert a * (i * j) == (a * i) * j;
  }

  lemma MultipleGrows(d: int, k: int)
    requires d > 0
    ensures k >= 1 ==> d * k >= d
    ensures k <= -1 ==> d * k <= -d
  {
    if k >= 1 { assert d * (k - 1) >= 0; }
    if k <= -1 { assert d * (k + 1) <= 0; }
  }

  /** A multiple of d strictly between -d and d is zero. */
  lemma SmallMultiple(d: int, x: int)
    requires d > 0 && Divides(d, x) && -d < x < d
    ensures x == 0
  {
    var k :| d * k == x;
    assert k * d == x;
    assert k < 1 && -1 < k by {
      MultipleGrows(d, k);
    }
  }

  lemma DividesMod(d: int, x: int)
    requires d > 0
    ensures Divides(d, x) <==> x % d == 0
    ensures Divides(d, x - x % d)
  {
    assert d * (x / d) == x - x % d;
    if Divides(d, x) {
      DividesAdd(d, x, x - x % d);
      SmallMultiple(d, x % d);
    }
  }

  // ---- congruence ----------------------------------------------------------

  lemma CongRefl(m: int, a: int)
    ensures Cong(m, a, a)
  {
    DividesZero(m);
  }

  lemma CongSym(m: int, a: int, b: int)
    requires Cong(m, a, b)
    ensures Cong(m, b, a)
  {
    DividesScale(m, a - b, -1);
    assert -1 * (a - b) == b - a;
  }

  lemma CongTrans(m: int, a: int, b: int, c: int)
    requires Cong(m, a, b) && Cong(m, b, c)
    ensures Cong(m, a, c)
  {
    DividesAdd(m, a - b, b - c);
    assert (a - b) + (b - c) == a - c;
  }

  lemma CongAdd(m: int, a: int, b: int, c: int, d: int)
    requires Cong(m, a, b) && Cong(m, c, d)
    ensures Cong(m, a + c, b + d)
  {
    DividesAdd(m, a - b, c - d);
    assert (a - b) + (c - d) == (a + c) - (b + d);
  }

  lemma CongMul(m: int, a: int, b: int, c: int, d: int)
    requires Cong(m, a, b) && Cong(m, c, d)
    ensures Cong(m, a * c, b * d)
  {
    DividesScale(m, a - b, c);
    DividesScale(m, c - d, b);
    DividesAdd(m, c * (a - b), b * (c - d));
    assert c * (a - b) + b * (c - d) == a * c - b * d;
  }

  lemma {:induction false} CongPow(m: int, a: int, b: int, e: nat)
    requires Cong(m, a, b)
    ensures Cong(m, Pow(a, e), Pow(b, e))
  {
    if e == 0 {
      CongRefl(m, 1);
    } else {
      CongPow(m, a, b, e - 1);
      CongMul(m, a, b, Pow(a, e - 1), Pow(b, e - 1));
    }
  }

  /** Congruence modulo m is equality of the remainders the program computes. */
  lemma CongIsEqualMod(m: int, a: int, b: int)
    requires m > 0
    ensures Cong(m, a, b) <==> a % m == b % m
  {
    DividesMod(m, a);
    DividesMod(m, b);
    DividesAdd(m, a - a % m, b - b % m);
    var r := a % m - b % m;
    assert (a - a % m) - (b - b % m) == (a - b) - r;
    if Cong(m, a, b) {
      DividesAdd(m, a - b, (a - b) - r);
      SmallMultiple(m, r);
    }
  }

  lemma ModCong(m: int, a: int)
    requires m > 0
    ensures Cong(m, a % m, a) && Cong(m, a, a % m)
  {
    DividesMod(m, a);
    CongSym(m, a, a % m);
  }

  // ---- powers --------------------------------------------------------------

  lemma {:induction false} PowAdd(b: int, i: nat, j: nat)
    ensures Pow(b, i + j) == Pow(b, i) * Pow(b, j)
  {
    if i == 0 {
    } else {
      PowAdd(b, i - 1, j);
      assert b * (Pow(b, i - 1) * Pow(b, j)) == (b * Pow(b, i - 1)) * Pow(b, j);
    }
  }

  lemma {:induction false} PowPow(b: int, i: nat, j: nat)
    ensures 0 <= i * j
    ensures Pow(Pow(b, i), j) == Pow(b, i * j)
  {
    if j == 0 {
    } else {
      PowPow(b, i, j - 1);
      assert i * j == i + i * (j - 1);
      PowAdd(b, i, i * (j - 1));
    }
  }

  lemma PowSquare(b: int, e: nat)
    ensures Pow(b * b, e) == Pow(b, 2 * e)
  {
    assert Pow(b, 2) == b * Pow(b, 1) == b * b;
    PowPow(b, 2, e);
  }

  lemma {:induction false} PowOne(e: nat)
    ensures Pow(1, e) == 1
  {
    if e == 0 {
    } else {
      PowOne(e - 1);
    }
  }

  lemma {:induction false} PowMinusOne(e: nat)
    ensures Pow(-1, e) == if e % 2 == 0 then 1 else -1
  {
    if e == 0 {
    } else {
      PowMinusOne(e - 1);
    }
  }

  // ---- powers of two -------------------------------------------------------

  function Pow2(k: nat): (r: nat)
    ensures r > 0
    ensures k > 0 ==> r % 2 == 0
  {
    if k == 0 then 1 else 2 * Pow2(k - 1)
  }

  lemma Pow2Next(k: nat)
    ensures Pow2(k + 1) == 2 * Pow2(k)
  {
  }

  lemma {:induction false} Pow2Add(i: nat, j: nat)
    ensures Pow2(i + j) == Pow2(i) * Pow2(j)
  {
    if i == 0 {
    } else {
      Pow2Add(i - 1, j);
      MulAssociates(2, Pow2(i - 1), Pow2(j));
    }
  }

  // ---- primes --------------------------------------------------------------

  /** Euclid's lemma for a positive factor below the prime, by descent on that factor. */
  lemma {:induction false} EuclidBelow(p: int, a: int, b: int)
    requires IsPrime(p) && 0 < a < p && Divides(p, a * b)
    ensures Divides(p, b)
    decreases a
  {
    if a == 1 {
    } else {
      var q, r := p / a, p % a;
      assert p == a * q + r;
      if r == 0 { DividesBy(a, p, q); assert false; }
      DividesScale(p, a * b, q);
      DividesBy(p, p * b, b);
      DividesAdd(p, p * b, q * (a * b));
      assert p * b - q * (a * b) == r * b by {
        assert q * (a * b) == (a * q) * b;
        assert p * b == (a * q + r) * b == (a * q) * b + r * b;
      }
      EuclidBelow(p, r, b);
    }
  }

  lemma DividesRemainderTimes(p: int, a: int, b: int)
    requires p > 0 && Divides(p, a * b)
    ensures Divides(p, (a % p) * b)
  {
    ModCong(p, a);
    CongRefl(p, b);
    CongMul(p, a, a % p, b, b);
    DividesAdd(p, a * b, a * b - (a % p) * b);
    assert a * b - (a * b - (a % p) * b) == (a % p) * b;
  }

  lemma Euclid(p: int, a: int, b: int)
    requires IsPrime(p) && Divides(p, a * b)
    ensures Divides(p, a) || Divides(p, b)
  {
    DividesMod(p, a);
    if a % p != 0 {
      DividesRemainderTimes(p, a, b);
      EuclidBelow(p, a % p, b);
    }
  }

  /** A prime lets a factor it does not divide be cancelled from a congruence. */
  lemma CancelFactor(p: int, c: int, a: int, b: int)
    requires IsPrime(p) && !Divides(p, c) && Cong(p, c * a, c * b)
    ensures Cong(p, a, b)
  {
    assert c * a - c * b == c * (a - b);
    Euclid(p, c, a - b);
  }

  /** Only 1 and -1 square to 1 modulo a prime. */
  lemma SquareRootsOfOne(p: int, x: int)
    requires IsPrime(p) && Cong(p, x * x, 1)
    ensures Cong(p, x, 1) || Cong(p, x, -1)
  {
    assert x * x - 1 == (x - 1) * (x + 1);
    Euclid(p, x - 1, x + 1);
    assert x + 1 == x - (-1);
  }

  /** A composite number has a factor of at least 2 whose square does not exceed it. */
  lemma SmallFactor(m: int) returns (q: int)
    requires m >= 2 && !IsPrime(m)
    ensures 2 <= q && q * q <= m && Divides(q, m)
  {
    var d :| 2 <= d < m && Divides(d, m);
    var k :| d * k == m;
    assert k >= 2 by {
      if k <= 0 { MulMono(d, k, 0); }
      assert k != 1;
    }
    if d <= k {
      q := d;
      MulMono(d, d, k);
    } else {
      q := k;
      assert k * d == m;
      DividesBy(k, m, d);
      MulMono(k, k, d);
    }
  }
}
