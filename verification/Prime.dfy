/** The primality kernels of src/engines/cpu/prime.cpp, on 64- and 128-bit words. */
module Prime {
  import opened Arithmetic
  import opened NumberTheory
  import opened LucasLehmerTheorem
  import opened LucasLehmerCertificates
  import opened MillerRabinTheorem
  import opened PrimeCertificates

  const TWO_64: int := 0x1_0000_0000_0000_0000
  const TWO_128: int := 0x1_0000_0000_0000_0000_0000_0000_0000_0000

  newtype u64 = x: int | 0 <= x < TWO_64
  newtype u128 = x: int | 0 <= x < TWO_128

  // ---- modular exponentiation ----------------------------------------------

  lemma ProductFits(a: int, b: int)
    requires 0 <= a < TWO_64 && 0 <= b < TWO_64
    ensures 0 <= a * b < TWO_128
  {
    MulMono(TWO_64, b, TWO_64 - 1);
    if b == 0 { assert a * b == 0; } else { MulMono(b, a, TWO_64 - 1); MulMono(b, 0, a); }
    assert TWO_64 * (TWO_64 - 1) < TWO_128;
  }

  /** a * b modulo m, through a 128-bit product. */
  method MulMod(a: u64, b: u64, m: u64) returns (r: u64)
    requires m > 0
    ensures r < m
    ensures r as int == (a as int * b as int) % (m as int)
  {
    ProductFits(a as int, b as int);
    r := (((a as u128) * (b as u128)) % (m as u128)) as u64;
  }

  /** Keeps `result * base^exp` while the loop halves the exponent. */
  lemma HalveExponent(m: int, b: int, e: nat, c: int)
    requires m > 0 && e > 0 && c == (b * b) % m
    ensures Cong(m, (if e % 2 == 1 then b else 1) * Pow(c, e / 2), Pow(b, e))
  {
    var h := e / 2;
    ModCong(m, b * b);
    CongPow(m, c, b * b, h);
    PowSquare(b, h);
    CongRefl(m, if e % 2 == 1 then b else 1);
    CongMul(m, if e % 2 == 1 then b else 1, if e % 2 == 1 then b else 1, Pow(c, h), Pow(b, 2 * h));
  }

  lemma ModPowStep(m: int, result: int, b: int, e: nat, total: int, c: int, next: int)
    requires m > 0 && e > 0 && c == (b * b) % m
    requires next == if e % 2 == 1 then (result * b) % m else result
    requires Cong(m, result * Pow(b, e), total)
    ensures Cong(m, next * Pow(c, e / 2), total)
  {
    var odd, h := if e % 2 == 1 then b else 1, Pow(c, e / 2);
    HalveExponent(m, b, e, c);
    CongRefl(m, result);
    CongMul(m, result, result, odd * h, Pow(b, e));
    CongTrans(m, result * (odd * h), result * Pow(b, e), total);
    MulAssociates(result, odd, h);
    if e % 2 == 1 {
      ModCong(m, result * b);
      CongRefl(m, h);
      CongMul(m, next, result * b, h, h);
      CongTrans(m, next * h, (result * b) * h, total);
    }
  }

  method ModPow(base0: u64, exp0: u64, mod: u64) returns (result: u64)
    requires mod > 0
    ensures exp0 > 0 || mod > 1 ==> result as int == Pow(base0 as int, exp0 as nat) % (mod as int)
    ensures exp0 == 0 ==> result == 1
  {
    var m := mod as int;
    result := 1;
    var base, exp := base0 % mod, exp0;
    ghost var total := Pow(base0 as int, exp0 as nat);
    assert Cong(m, 1 * Pow(base as int, exp as nat), total) by {
      ModCong(m, base0 as int);
      CongPow(m, base as int, base0 as int, exp as nat);
    }
    while exp > 0
      invariant base < mod
      invariant result < mod || (result == 1 && (exp > 0 || exp0 == 0))
      invariant exp0 == 0 ==> result == 1 && exp == 0
      invariant Cong(m, result as int * Pow(base as int, exp as nat), total)
    {
      ghost var r0, b0, e0 := result as int, base as int, exp as nat;
      if exp % 2 == 1 {
        result := MulMod(result, base, mod);
      }
      base := MulMod(base, base, mod);
      exp := exp / 2;
      ModPowStep(m, r0, b0, e0, total, base as int, result as int);
    }
    CongIsEqualMod(m, result as int, total);
    if result < mod { SmallRemainder(result as int, m); }
  }

  // ---- Miller-Rabin --------------------------------------------------------

  const WITNESSES: seq<u64> := [2, 3, 5, 7, 11, 13, 17, 19, 23, 29, 31, 37]

  function WitnessCount(rounds: int): int {
    if rounds < 12 then rounds else 12
  }

  /** What the program accepts: 2, 3, and odd n > 3 that are strong probable primes to each of the first
      `rounds` witnesses (at most twelve) below n. */
  ghost predicate Accepted(n: nat, rounds: int) {
    n == 2 || n == 3
    || (n > 3 && n % 2 == 1
        && forall i :: 0 <= i < WitnessCount(rounds) && WITNESSES[i] as int < n
             ==> StrongProbablePrime(n, WITNESSES[i] as int))
  }

  lemma PrimesAreAccepted(n: nat, rounds: int)
    requires IsPrime(n)
    ensures Accepted(n, rounds)
  {
    if n > 3 {
      if n % 2 == 0 { DividesMod(2, n); assert false; }
      forall i | 0 <= i < WitnessCount(rounds) && WITNESSES[i] as int < n
        ensures StrongProbablePrime(n, WITNESSES[i] as int)
      {
        var a := WITNESSES[i] as int;
        assert a > 0;
        if Divides(n, a) { SmallMultiple(n, a); }
        PrimesPass(n, a);
      }
    }
  }

  lemma SmallOddPrimes()
    ensures IsPrime(2) && IsPrime(3)
  {
    forall d | 2 <= d < 3 ensures !Divides(d, 3) { DividesMod(d, 3); }
  }

  /** The remainder 1 or n - 1 stands for the congruence with 1 or -1. */
  lemma UnitRemainders(n: int, x: int, y: int)
    requires n > 2 && x == y % n
    ensures x == 1 <==> Cong(n, y, 1)
    ensures x == n - 1 <==> Cong(n, y, -1)
  {
    CongIsEqualMod(n, y, 1);
    SmallRemainder(1, n);
    CongIsEqualMod(n, y, n - 1);
    SmallRemainder(n - 1, n);
    DividesBy(n, (n - 1) - (-1), 1);
    CongSym(n, n - 1, -1);
    if Cong(n, y, -1) { CongTrans(n, y, -1, n - 1); }
    if Cong(n, y, n - 1) { CongTrans(n, y, n - 1, -1); }
  }

  lemma SquareRemainder(n: int, x: int, y: int)
    requires n > 0 && x == y % n
    ensures (x * x) % n == (y * y) % n
  {
    ModCong(n, y);
    CongMul(n, x, y, x, y);
    CongIsEqualMod(n, x * x, y * y);
  }

  /** One squaring takes the remainder of a^(d 2^j) to that of a^(d 2^(j+1)). */
  lemma SquaringStep(n: int, a: int, d: nat, j: nat, x: int)
    requires n > 0 && x == Squared(a, d, j) % n
    ensures (x * x) % n == Squared(a, d, j + 1) % n
  {
    SquareRemainder(n, x, Squared(a, d, j));
  }

  lemma EvenHasTwo(m: nat)
    requires m > 0 && m % 2 == 0
    ensures TwoPart(m) >= 1
  {
  }

  lemma NoSquaring(a: int, d: nat)
    ensures Squared(a, d, 0) == Pow(a, d)
  {
  }

  /** The inner loop for one witness: true when the witness proves n composite. */
  method WitnessRejects(n: u64, a: u64, d: u64, r: nat) returns (composite: bool)
    requires n > 3 && n % 2 == 1
    requires d as int == OddPart(n as nat - 1) && r == TwoPart(n as nat - 1)
    ensures composite <==> !StrongProbablePrime(n as nat, a as int)
  {
    hide Cong, Pow, Squared, OddPart, TwoPart;
    ghost var nn, aa, dd := n as nat, a as int, d as nat;
    var x := ModPow(a, d, n);
    NoSquaring(aa, dd);
    EvenHasTwo(nn - 1);
    UnitRemainders(nn, x as int, Squared(aa, dd, 0));
    if x == 1 || x == n - 1 {
      assert x == n - 1 ==> Cong(nn, Squared(aa, dd, 0), -1);
      return false;
    }
    var j := 0;
    while j < r - 1
      invariant 0 <= j && (j <= r - 1 || j == 0)
      invariant x as int == Squared(aa, dd, j) % nn
      invariant !Cong(nn, Pow(aa, dd), 1)
      invariant forall k :: 0 <= k <= j ==> !Cong(nn, Squared(aa, dd, k), -1)
    {
      SquaringStep(nn, aa, dd, j, x as int);
      x := MulMod(x, x, n);
      UnitRemainders(nn, x as int, Squared(aa, dd, j + 1));
      if x == n - 1 {
        return false;
      }
      j := j + 1;
    }
    return true;
  }

  /** Beyond 3 the program accepts an odd n exactly when, for each witness a below n that it uses, a^(n - 1) is 1 and no
      power of a that halving n - 1 leads to is a square root of 1 other than 1 and -1. */
  lemma AcceptedExactly(n: nat, rounds: int)
    requires n > 3
    ensures Accepted(n, rounds) <==> (n % 2 == 1
      && forall i :: 0 <= i < 12 && i < rounds && WITNESSES[i] as int < n ==>
           Cong(n, Pow(WITNESSES[i] as int, n - 1), 1) && OnlyTrivialRoots(n, WITNESSES[i] as int))
  {
    hide StrongProbablePrime, OnlyTrivialRoots, Cong, Pow;
    forall i | 0 <= i < WitnessCount(rounds) && WITNESSES[i] as int < n
      ensures StrongProbablePrime(n, WITNESSES[i] as int) <==>
        Cong(n, Pow(WITNESSES[i] as int, n - 1), 1) && OnlyTrivialRoots(n, WITNESSES[i] as int)
    {
      StrongExactly(n, WITNESSES[i] as int);
    }
  }

  /** The witnesses are the primes below 41. */
  lemma WitnessesAreThePrimes(p: nat)
    requires p < 41
    ensures IsPrime(p) <==> exists i :: 0 <= i < 12 && WITNESSES[i] as int == p
  {
    hide IsPrime, Divides;
    if IsPrime(p) {
      PrimesBelow41(p);
      var i := if p == 2 then 0 else if p == 3 then 1 else if p == 5 then 2 else if p == 7 then 3
        else if p == 11 then 4 else if p == 13 then 5 else if p == 17 then 6 else if p == 19 then 7
        else if p == 23 then 8 else if p == 29 then 9 else if p == 31 then 10 else 11;
      assert WITNESSES[i] as int == p;
    }
    if i :| 0 <= i < 12 && WITNESSES[i] as int == p {
      KnownSmallPrime(p);
    }
  }

  method MillerRabin(n: u64, rounds: int) returns (isPrime: bool)
    ensures isPrime <==> Accepted(n as nat, rounds)
    ensures IsPrime(n as int) ==> isPrime
    ensures n > 3 ==> (isPrime <==> (n % 2 == 1
      && forall i :: 0 <= i < 12 && i < rounds && WITNESSES[i] < n ==>
           Cong(n as int, Pow(WITNESSES[i] as int, n as nat - 1), 1)
           && OnlyTrivialRoots(n as nat, WITNESSES[i] as int)))
  {
    hide OnlyTrivialRoots, Cong, Pow;
    if n > 3 { AcceptedExactly(n as nat, rounds); }
    if IsPrime(n as int) { PrimesAreAccepted(n as nat, rounds); }
    if n < 2 { return false; }
    if n == 2 || n == 3 { return true; }
    if n % 2 == 0 { return false; }

    var d, r := n - 1, 0;
    while d % 2 == 0
      invariant 0 < d && 0 <= r
      invariant OddPart(d as nat) == OddPart(n as nat - 1)
      invariant r + TwoPart(d as nat) == TwoPart(n as nat - 1)
      decreases d
    {
      d := d / 2;
      r := r + 1;
    }

    var witnesses := if rounds < 12 then rounds else 12;
    var i := 0;
    while i < witnesses
      invariant 0 <= i && (i <= witnesses || i == 0)
      invariant forall k :: 0 <= k < i && WITNESSES[k] < n ==> StrongProbablePrime(n as nat, WITNESSES[k] as int)
    {
      var a := WITNESSES[i];
      if a < n {
        var composite := WitnessRejects(n, a, d, r);
        if composite { return false; }
      }
      i := i + 1;
    }
    return true;
  }

  // ---- Lucas-Lehmer --------------------------------------------------------

  /** 128-bit unsigned multiplication and subtraction of 2, with wrap-around. */
  function SquareWrapped(s: u128): u128 {
    ((s as int * s as int) % TWO_128) as u128
  }

  function MinusTwoWrapped(x: u128): u128 {
    if x >= 2 then x - 2 else (x as int - 2 + TWO_128) as u128
  }

  lemma {:induction false} Pow2Monotone(i: nat, j: nat)
    requires i <= j
    ensures Pow2(i) <= Pow2(j)
  {
    if i < j { Pow2Monotone(i, j - 1); }
  }

  lemma Pow2Bounds(p: nat)
    ensures p <= 60 ==> Pow2(p) <= 0x1000_0000_0000_0000
    ensures p <= 64 ==> Pow2(p) <= TWO_64
    ensures p < 128 ==> Pow2(p) < TWO_128
  {
    Pow2ToSixtyOne();
    var top := Pow2(61);
    assert Pow2(61) == 2 * Pow2(60);
    assert Pow2(62) == 2 * Pow2(61);
    assert Pow2(63) == 2 * Pow2(62);
    assert Pow2(64) == 2 * Pow2(63);
    Pow2Add(64, 61);
    assert Pow2(126) == 2 * Pow2(125);
    assert Pow2(127) == 2 * Pow2(126);
    if p <= 60 { Pow2Monotone(p, 60); }
    if p <= 64 { Pow2Monotone(p, 64); }
    if p < 128 { Pow2Monotone(p, 127); }
  }

  /** For p <= 64 the machine step from a residue of at least 2 is the exact one. */
  lemma ExactStep(p: nat, i: nat, s: int)
    requires 3 <= p <= 64 && i < p - 2 && s == S(i) % (Pow2(p) - 1)
    ensures 2 <= s < TWO_64 && 2 <= s * s < TWO_128
    ensures (s * s - 2) % (Pow2(p) - 1) == S(i + 1) % (Pow2(p) - 1)
  {
    var m := Pow2(p) - 1;
    Pow2Bounds(p);
    NoEarlyWrap(p);
    ProductFits(s, s);
    MulMono(s, 1, s);
    ModCong(m, S(i));
    SquareStep(m, s, S(i));
    CongIsEqualMod(m, s * s - 2, S(i + 1));
  }

  /** The loop on a 64-bit residue. */
  method NarrowLoop(p: int) returns (zero: bool)
    requires 3 <= p <= 60
    ensures zero <==> S(p - 2) % (Pow2(p) - 1) == 0
  {
    hide S, Pow2;
    Pow2Bounds(p);
    Pow2AtLeastEight(p);
    ghost var m := Pow2(p) - 1;
    var mp := (Pow2(p) - 1) as u64;
    var s: u64 := 4;
    var i := 0;
    FirstResidue(m);
    while i < p - 2
      invariant 0 <= i <= p - 2
      invariant s as int == S(i) % m
    {
      ExactStep(p, i, s as int);
      var ss := (s as u128) * (s as u128);
      ss := MinusTwoWrapped(ss);
      s := (ss % (mp as u128)) as u64;
      i := i + 1;
    }
    return s == 0;
  }

  /** The loop for p > 60, on a 128-bit residue whose square wraps around. */
  method WideLoop(p: int) returns (zero: bool)
    requires 60 < p < 128
    ensures p <= 64 ==> (zero <==> S(p - 2) % (Pow2(p) - 1) == 0)
  {
    hide S, Pow2;
    Pow2Bounds(p);
    Pow2AtLeastEight(p);
    ghost var m := Pow2(p) - 1;
    var mp := (Pow2(p) - 1) as u128;
    var s: u128 := 4;
    var i := 0;
    FirstResidue(m);
    while i < p - 2
      invariant 0 <= i <= p - 2
      invariant p <= 64 ==> s as int == S(i) % m
    {
      if p <= 64 {
        ExactStep(p, i, s as int);
        SmallRemainder(s as int * s as int, TWO_128);
      }
      s := MinusTwoWrapped(SquareWrapped(s)) % mp;
      i := i + 1;
    }
    return s == 0;
  }

  lemma Pow2AtLeastEight(p: nat)
    requires p >= 3
    ensures Pow2(p) >= 8
  {
    assert Pow2(p) == 2 * Pow2(p - 1) == 4 * Pow2(p - 2) == 8 * Pow2(p - 3);
  }

  lemma FirstResidue(m: int)
    requires m > 4
    ensures S(0) % m == 4
  {
    SmallRemainder(4, m);
  }

  /** The answer, for every exponent a 128-bit shift can take. Up to 64 it is exact. */
  method LucasLehmerTest(p: int) returns (isPrime: bool)
    requires p < 128
    ensures p < 2 ==> !isPrime
    ensures 2 <= p <= 64 ==> (isPrime <==> IsPrime(Pow2(p) - 1))
  {
    hide S, Pow2, IsPrime, Divides;
    if p == 2 {
      Pow2OfTwo();
      SmallOddPrimes();
      return true;
    }
    if p < 2 { return false; }

    Pow2AtLeastEight(p);
    if p <= 64 {
      LucasLehmer(p);
      DividesMod(Pow2(p) - 1, S(p - 2));
    }
    if p > 60 {
      isPrime := WideLoop(p);
    } else {
      isPrime := NarrowLoop(p);
    }
  }

  // ---- the Lucas-Lehmer self-test ------------------------------------------

  datatype PrimeVerifyResult = PrimeVerifyResult(
    passed: bool,
    testsRun: int,
    errorsFound: int,
    firstErrorNumber: int,
    expectedPrime: bool,
    gotPrime: bool)

  const KNOWN_MERSENNE: seq<int> := [2, 3, 5, 7, 13, 17, 19, 31]
  const KNOWN_NON_MERSENNE: seq<int> := [11, 23, 29, 37, 41, 43, 47, 53, 59]

  /** The zero at the end of the orbit makes the Mersenne number prime. */
  lemma OrbitEndsInZero(p: nat, m: int)
    requires 3 <= p && m == Pow2(p) - 1 && m > 0 && S(p - 2) % m == 0
    ensures IsPrime(m)
  {
    DividesMod(m, S(p - 2));
    LucasLehmer(p);
  }

  lemma KnownAreMersenne(p: int)
    requires p in KNOWN_MERSENNE
    ensures IsPrime(Pow2(p) - 1)
  {
    hide S, Pow2, IsPrime;
    Pow2ToThirtyOne();
    if p == 2 {
      Pow2OfTwo();
      SmallOddPrimes();
    } else if p == 3 {
      Start(7);
      One(7, 0, 4, 0);
      OrbitEndsInZero(3, 7);
    } else if p == 5 {
      OrbitM5();
      OrbitEndsInZero(5, 31);
    } else if p == 7 {
      OrbitM7();
      OrbitEndsInZero(7, 127);
    } else if p == 13 {
      OrbitM13();
      OrbitEndsInZero(13, 8191);
    } else if p == 17 {
      OrbitM17();
      OrbitEndsInZero(17, 131071);
    } else if p == 19 {
      OrbitM19();
      OrbitEndsInZero(19, 524287);
    } else {
      OrbitM31B();
      OrbitEndsInZero(31, 2147483647);
    }
  }

  lemma Pow2OfTwo()
    ensures Pow2(2) == 4
  {
    assert Pow2(1) == 2 * Pow2(0);
  }

  lemma KnownAreNotMersenne(p: int)
    requires p in KNOWN_NON_MERSENNE
    ensures !IsPrime(Pow2(p) - 1)
  {
    hide S, Pow2, Clean, Divides;
    Pow2ToThirtyOne();
    Pow2ToSixtyOne();
    if p == 11 { Mersenne11(); assert Divides(23, Pow2(p) - 1); }
    if p == 23 { Mersenne23(); assert Divides(47, Pow2(p) - 1); }
    if p == 29 { Mersenne29(); assert Divides(233, Pow2(p) - 1); }
    if p == 37 { Mersenne37(); assert Divides(223, Pow2(p) - 1); }
    if p == 41 { Mersenne41(); assert Divides(13367, Pow2(p) - 1); }
    if p == 43 { Mersenne43(); assert Divides(431, Pow2(p) - 1); }
    if p == 47 { Mersenne47(); assert Divides(2351, Pow2(p) - 1); }
    if p == 53 { Mersenne53(); assert Divides(6361, Pow2(p) - 1); }
    if p == 59 { Mersenne59(); assert Divides(179951, Pow2(p) - 1); }
  }

  /** Every entry of the two tables is answered as expected: the self-test can fail only on faulty hardware. */
  method VerifyLucasLehmer() returns (result: PrimeVerifyResult)
    ensures result == PrimeVerifyResult(true, 17, 0, 0, false, false)
  {
    result := PrimeVerifyResult(true, 0, 0, 0, false, false);
    var i := 0;
    while i < |KNOWN_MERSENNE|
      invariant 0 <= i <= |KNOWN_MERSENNE|
      invariant result == PrimeVerifyResult(true, i, 0, 0, false, false)
    {
      var p := KNOWN_MERSENNE[i];
      var got := LucasLehmerTest(p);
      KnownAreMersenne(p);
      result := result.(testsRun := result.testsRun + 1);
      if !got {
        result := result.(errorsFound := result.errorsFound + 1);
        if result.passed {
          result := result.(passed := false, firstErrorNumber := p, expectedPrime := true, gotPrime := false);
        }
      }
      i := i + 1;
    }
    i := 0;
    while i < |KNOWN_NON_MERSENNE|
      invariant 0 <= i <= |KNOWN_NON_MERSENNE|
      invariant result == PrimeVerifyResult(true, 8 + i, 0, 0, false, false)
    {
      var p := KNOWN_NON_MERSENNE[i];
      var got := LucasLehmerTest(p);
      KnownAreNotMersenne(p);
      result := result.(testsRun := result.testsRun + 1);
      if got {
        result := result.(errorsFound := result.errorsFound + 1);
        if result.passed {
          result := result.(passed := false, firstErrorNumber := p, expectedPrime := false, gotPrime := true);
        }
      }
      i := i + 1;
    }
  }

  // ---- the Miller-Rabin self-test ------------------------------------------

  const KNOWN_PRIMES: seq<u64> := [
    2, 3, 5, 7, 11, 13, 17, 19, 23, 29, 31, 37, 41, 43, 47, 53, 59, 61, 67, 71, 104729, 1299709, 15485863,
    179424673, 1000000007, 1000000009, 2147483647, 4294967291, 4294967311, 1099511627791, 6700417, 7919]
  const KNOWN_COMPOSITES: seq<u64> := [
    4, 6, 8, 9, 10, 15, 25, 49, 561, 1105, 1729, 2465, 2821, 6601, 8911, 10585, 15841, 29341, 41041, 46657,
    52633, 62745, 63973, 75361]

  lemma KnownSmallPrime(n: int)
    requires n == 2 || n == 3 || n == 5 || n == 7 || n == 11 || n == 13 || n == 17 || n == 19 || n == 23 || n == 29 ||
      n == 31 || n == 37 || n == 41 || n == 43 || n == 47 || n == 53 || n == 59 || n == 61 || n == 67 || n == 71
    ensures IsPrime(n)
  {
    hide IsPrime;
    if n == 2 { SmallPrime(2); }
    if n == 3 { SmallPrime(3); }
    if n == 5 { SmallPrime(5); }
    if n == 7 { SmallPrime(7); }
    if n == 11 { SmallPrime(11); }
    if n == 13 { SmallPrime(13); }
    if n == 17 { SmallPrime(17); }
    if n == 19 { SmallPrime(19); }
    if n == 23 { SmallPrime(23); }
    if n == 29 { SmallPrime(29); }
    if n == 31 { SmallPrime(31); }
    if n == 37 { SmallPrime(37); }
    if n == 41 { SmallPrime(41); }
    if n == 43 { SmallPrime(43); }
    if n == 47 { SmallPrime(47); }
    if n == 53 { SmallPrime(53); }
    if n == 59 { SmallPrime(59); }
    if n == 61 { SmallPrime(61); }
    if n == 67 { SmallPrime(67); }
    if n == 71 { SmallPrime(71); }
  }

  lemma KnownLargePrime(n: int)
    requires n == 104729 || n == 1299709 || n == 15485863 || n == 179424673 || n == 1000000007 ||
      n == 1000000009 || n == 2147483647 || n == 4294967291 || n == 4294967311 || n == 1099511627791 ||
      n == 6700417 || n == 7919
    ensures IsPrime(n)
  {
    hide IsPrime;
    if n == 2147483647 {
      KnownAreMersenne(31);
      Pow2ToThirtyOne();
    }
    if n == 104729 { Prime104729(); }
    if n == 1299709 { Prime1299709(); }
    if n == 15485863 { Prime15485863(); }
    if n == 179424673 { Prime179424673(); }
    if n == 1000000007 { Prime1000000007(); }
    if n == 1000000009 { Prime1000000009(); }
    if n == 4294967291 { Prime4294967291(); }
    if n == 4294967311 { Prime4294967311(); }
    if n == 1099511627791 { Prime1099511627791(); }
    if n == 6700417 { Prime6700417(); }
    if n == 7919 { Prime7919(); }
  }

  lemma KnownArePrime(n: u64)
    requires n in KNOWN_PRIMES
    ensures IsPrime(n as int)
  {
    hide IsPrime;
    if n <= 71 {
      KnownSmallPrime(n as int);
    } else {
      KnownLargePrime(n as int);
    }
  }

  /** A witness that divides an odd n unmasks it, whatever n is: no power of it is 1 or -1 modulo n. */
  lemma DivisorUnmasks(n: nat, a: int)
    requires n > 3 && n % 2 == 1 && a >= 2 && Divides(a, n)
    ensures !StrongProbablePrime(n, a)
  {
    hide Cong, Squared, OddPart, TwoPart;
    var d, r := OddPart(n - 1), TwoPart(n - 1);
    NoUnit(n, a, Pow(a, d), 1) by {
      PowerDivisible(a, d);
    }
    forall j | 0 <= j < r ensures !Cong(n, Squared(a, d, j), -1) {
      SquaredDivisible(a, d, j);
      NoUnit(n, a, Squared(a, d, j), -1);
    }
  }

  lemma PowerDivisible(a: int, d: nat)
    requires d > 0
    ensures Divides(a, Pow(a, d))
  {
    DividesBy(a, Pow(a, d), Pow(a, d - 1));
  }

  lemma {:induction false} SquaredDivisible(a: int, d: nat, j: nat)
    requires d > 0
    ensures Divides(a, Squared(a, d, j))
  {
    if j == 0 {
      PowerDivisible(a, d);
    } else {
      SquaredDivisible(a, d, j - 1);
      DividesScale(a, Squared(a, d, j - 1), Squared(a, d, j - 1));
    }
  }

  /** A multiple of a divisor a >= 2 of n is neither 1 nor -1 modulo n. */
  lemma NoUnit(n: int, a: int, x: int, unit: int)
    requires a >= 2 && Divides(a, n) && Divides(a, x) && -1 <= unit <= 1 && unit != 0
    ensures !Cong(n, x, unit)
  {
    if Cong(n, x, unit) {
      DividesTrans(a, n, x - unit);
      DividesAdd(a, x, x - unit);
      SmallMultiple(a, unit);
    }
  }

  lemma SmallFactorRejected(n: nat, i: nat)
    requires n > 3 && i < 6 && WITNESSES[i] as int < n && n % (WITNESSES[i] as int) == 0
    ensures !Accepted(n, 20)
  {
    hide StrongProbablePrime;
    if n % 2 == 1 {
      DividesMod(WITNESSES[i] as int, n);
      DivisorUnmasks(n, WITNESSES[i] as int);
    }
  }

  lemma KnownComposite(n: int)
    requires n == 4 || n == 6 || n == 8 || n == 9 || n == 10 || n == 15 || n == 25 || n == 49 ||
      n == 561 || n == 1105 || n == 1729 || n == 2465 || n == 2821 || n == 6601 || n == 8911 || n == 10585 ||
      n == 15841 || n == 29341 || n == 41041 || n == 46657 || n == 52633 || n == 62745 || n == 63973 || n == 75361
    ensures !Accepted(n, 20)
  {
    hide Accepted;
    if n == 4 { SmallFactorRejected(4, 0); }
    if n == 6 { SmallFactorRejected(6, 0); }
    if n == 8 { SmallFactorRejected(8, 0); }
    if n == 9 { SmallFactorRejected(9, 1); }
    if n == 10 { SmallFactorRejected(10, 0); }
    if n == 15 { SmallFactorRejected(15, 1); }
    if n == 25 { SmallFactorRejected(25, 2); }
    if n == 49 { SmallFactorRejected(49, 3); }
    if n == 561 { SmallFactorRejected(561, 1); }
    if n == 1105 { SmallFactorRejected(1105, 2); }
    if n == 1729 { SmallFactorRejected(1729, 3); }
    if n == 2465 { SmallFactorRejected(2465, 2); }
    if n == 2821 { SmallFactorRejected(2821, 3); }
    if n == 6601 { SmallFactorRejected(6601, 3); }
    if n == 8911 { SmallFactorRejected(8911, 3); }
    if n == 10585 { SmallFactorRejected(10585, 2); }
    if n == 15841 { SmallFactorRejected(15841, 3); }
    if n == 29341 { SmallFactorRejected(29341, 5); }
    if n == 41041 { SmallFactorRejected(41041, 3); }
    if n == 46657 { SmallFactorRejected(46657, 5); }
    if n == 52633 { SmallFactorRejected(52633, 3); }
    if n == 62745 { SmallFactorRejected(62745, 1); }
    if n == 63973 { SmallFactorRejected(63973, 3); }
    if n == 75361 { SmallFactorRejected(75361, 4); }
  }

  lemma KnownAreRejected(n: u64)
    requires n in KNOWN_COMPOSITES
    ensures !Accepted(n as nat, 20)
  {
    hide Accepted;
    KnownComposite(n as int);
  }

  /** Every entry of the prime table is accepted and every entry of the composite table is rejected. */
  method VerifyMillerRabin() returns (result: PrimeVerifyResult)
    ensures result == PrimeVerifyResult(true, 56, 0, 0, false, false)
  {
    hide IsPrime, Accepted;
    result := PrimeVerifyResult(true, 0, 0, 0, false, false);
    var i := 0;
    while i < |KNOWN_PRIMES|
      invariant 0 <= i <= |KNOWN_PRIMES|
      invariant result == PrimeVerifyResult(true, i, 0, 0, false, false)
    {
      var n := KNOWN_PRIMES[i];
      var got := MillerRabin(n, 20);
      KnownArePrime(n);
      result := result.(testsRun := result.testsRun + 1);
      if !got {
        result := result.(errorsFound := result.errorsFound + 1);
        if result.passed {
          result := result.(passed := false, firstErrorNumber := n as int, expectedPrime := true, gotPrime := false);
        }
      }
      i := i + 1;
    }
    i := 0;
    while i < |KNOWN_COMPOSITES|
      invariant 0 <= i <= |KNOWN_COMPOSITES|
      invariant result == PrimeVerifyResult(true, 32 + i, 0, 0, false, false)
    {
      var n := KNOWN_COMPOSITES[i];
      var got := MillerRabin(n, 20);
      KnownAreRejected(n);
      result := result.(testsRun := result.testsRun + 1);
      if got {
        result := result.(errorsFound := result.errorsFound + 1);
        if result.passed {
          result := result.(passed := false, firstErrorNumber := n as int, expectedPrime := false, gotPrime := true);
        }
      }
      i := i + 1;
    }
  }
}
