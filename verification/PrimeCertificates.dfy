/** Certificates for the primes of the self-test of src/engines/cpu/prime.cpp. A number b with b^q = 1 and b - 1
  * invertible modulo n, q prime, shows that every prime factor of n is 1 modulo q; when q is large enough this leaves
  * no room for a factor below the square root. */
module PrimeCertificates {
  import opened Arithmetic
  import opened NumberTheory
  import RootThree

  // ---- prime factors -------------------------------------------------------

  lemma {:induction false} PrimeFactor(m: int) returns (p: int)
    requires m >= 2
    ensures IsPrime(p) && Divides(p, m) && p <= m
    decreases m
  {
    if IsPrime(m) {
      DividesBy(m, m, 1);
      p := m;
    } else {
      var d :| 2 <= d < m && Divides(d, m);
      p := PrimeFactor(d);
      DividesTrans(p, d, m);
    }
  }

  /** A composite number has a prime factor whose square does not exceed it. */
  lemma SmallPrimeFactor(m: int) returns (p: int)
    requires m >= 2 && !IsPrime(m)
    ensures IsPrime(p) && Divides(p, m) && p * p <= m
  {
    var q := SmallFactor(m);
    hide IsPrime, Divides;
    p := PrimeFactor(q);
    DividesTrans(p, q, m);
    PrimeAtLeastTwo(p);
    MulMono(p, p, q);
    MulMono(q, p, q);
    MulCommutes(p, q);
  }

  lemma PrimeAtLeastTwo(p: int)
    requires IsPrime(p)
    ensures p >= 2
  {
  }

  // ---- exponents -----------------------------------------------------------

  lemma PowerLess(p: int, b: int, m: nat, n: nat)
    requires m >= n && Cong(p, Pow(b, m), 1) && Cong(p, Pow(b, n), 1)
    ensures Cong(p, Pow(b, m - n), 1)
  {
    hide Cong, Pow;
    var x := Pow(b, m - n);
    PowAdd(b, m - n, n);
    CongRefl(p, x);
    CongMul(p, x, x, Pow(b, n), 1);
    CongSym(p, x * Pow(b, n), x);
    CongTrans(p, x, Pow(b, m), 1);
  }

  /** Two exponents that take b to 1 have a common divisor that does. */
  lemma {:induction false} CommonExponent(p: int, b: int, m: nat, n: nat) returns (g: nat)
    requires m > 0 && Cong(p, Pow(b, m), 1) && Cong(p, Pow(b, n), 1)
    ensures g > 0 && Divides(g, m) && Divides(g, n) && Cong(p, Pow(b, g), 1)
    decreases m + n
  {
    hide Cong, Pow;
    if n == 0 {
      g := m;
      DividesBy(m, m, 1);
      DividesZero(m);
    } else if m > n {
      PowerLess(p, b, m, n);
      g := CommonExponent(p, b, m - n, n);
      DividesAdd(g, m - n, n);
    } else {
      PowerLess(p, b, n, m);
      g := CommonExponent(p, b, m, n - m);
      DividesAdd(g, m, n - m);
    }
  }

  lemma FactorOfPrime(g: nat, q: int)
    requires g > 0 && IsPrime(q) && Divides(g, q)
    ensures g == 1 || g == q
  {
    if g > q { SmallMultiple(g, q); }
  }

  lemma NotDivisor(p: int, b: int, q: nat)
    requires p >= 2 && q > 0 && Cong(p, Pow(b, q), 1)
    ensures !Divides(p, b)
  {
    if Divides(p, b) {
      MulCommutes(b, Pow(b, q - 1));
      DividesScale(p, b, Pow(b, q - 1));
      DividesAdd(p, Pow(b, q), Pow(b, q) - 1);
      SmallMultiple(p, 1);
    }
  }

  /** An element of prime order q modulo a prime p makes q divide p - 1. */
  lemma OrderDivides(p: int, b: nat, q: nat)
    requires IsPrime(p) && IsPrime(q) && Cong(p, Pow(b, q), 1) && !Cong(p, b, 1)
    ensures Divides(q, p - 1)
  {
    hide Cong, Pow, IsPrime, Divides;
    PrimeAtLeastTwo(p);
    PrimeAtLeastTwo(q);
    NotDivisor(p, b, q);
    RootThree.Fermat(p, b);
    var g := CommonExponent(p, b, q, p - 1);
    FactorOfPrime(g, q);
    PowOfOne(b);
  }

  lemma PowOfOne(b: int)
    ensures Pow(b, 1) == b
  {
  }

  // ---- powers modulo n -----------------------------------------------------

  ghost predicate Residue(n: int, b: int, e: nat, x: int)
    requires n > 0
  {
    Pow(b, e) % n == x
  }

  predicate Product(n: int, x: int, y: int, z: int)
    requires n > 0
  {
    (x * y) % n == z
  }

  /** s becomes y when the binary digit is taken into account. */
  predicate Digit(n: int, b: int, bit: int, s: int, y: int)
    requires n > 0
  {
    if bit == 0 then y == s else Product(n, s, b, y)
  }

  // ---- certificates --------------------------------------------------------

  /** Every prime factor of n is 1 modulo q. */
  ghost predicate FactorsAreOne(n: int, q: int) {
    forall p :: IsPrime(p) && Divides(p, n) ==> Divides(q, p - 1)
  }

  lemma CongDivisor(p: int, n: int, x: int, y: int)
    requires Divides(p, n) && Cong(n, x, y)
    ensures Cong(p, x, y)
  {
    DividesTrans(p, n, x - y);
  }

  lemma Certify(n: int, q: int, b: nat, u: int)
    requires n >= 2 && IsPrime(q) && q >= 2 && Residue(n, b, q, 1) && Product(n, b - 1, u, 1)
    ensures FactorsAreOne(n, q)
  {
    hide Pow, IsPrime, Divides;
    SmallRemainderOne(n);
    CongIsEqualMod(n, Pow(b, q), 1);
    CongIsEqualMod(n, (b - 1) * u, 1);
    forall p | IsPrime(p) && Divides(p, n) ensures Divides(q, p - 1) {
      CongDivisor(p, n, Pow(b, q), 1);
      CongDivisor(p, n, (b - 1) * u, 1);
      PrimeAtLeastTwo(p);
      NotOne(p, b, u);
      OrderDivides(p, b, q);
    }
  }

  lemma SmallRemainderOne(n: int)
    requires n >= 2
    ensures 1 % n == 1
  {
  }

  /** What has an inverse is not 0. */
  lemma NotOne(p: int, b: int, u: int)
    requires p >= 2 && Cong(p, (b - 1) * u, 1)
    ensures !Cong(p, b, 1)
  {
    if Cong(p, b, 1) {
      MulCommutes(b - 1, u);
      DividesScale(p, b - 1, u);
      DividesAdd(p, (b - 1) * u, (b - 1) * u - 1);
      SmallMultiple(p, 1);
    }
  }

  lemma OddFactor(p: int, n: int)
    requires n % 2 == 1 && IsPrime(p) && Divides(p, n)
    ensures p % 2 == 1
  {
    if p % 2 == 0 {
      DividesBy(2, p, p / 2);
      DividesTrans(2, p, n);
      DividesMod(2, n);
    }
  }

  /** A nonzero multiple of d below p makes p larger than d. */
  lemma MultipleBelow(p: int, d: int)
    requires p >= 2 && d > 0 && Divides(d, p - 1)
    ensures p > d
  {
    if p - 1 < d { SmallMultiple(d, p - 1); }
  }

  lemma OddFactors(n: int)
    requires n % 2 == 1
    ensures FactorsAreOne(n, 2)
  {
    hide IsPrime, Divides;
    forall p | IsPrime(p) && Divides(p, n) ensures Divides(2, p - 1) {
      OddFactor(p, n);
      DividesMod(2, p - 1);
    }
  }

  lemma CoprimeProduct(d: int, q: int, x: int)
    requires IsPrime(q) && !Divides(q, d) && Divides(d, x) && Divides(q, x)
    ensures Divides(d * q, x)
  {
    var k :| d * k == x;
    Euclid(q, d, k);
    var j :| q * j == k;
    MulAssociates(d, q, j);
    DividesBy(d * q, x, j);
  }

  /** Certificates for different primes add up. */
  lemma Combine(n: int, d: int, q: int)
    requires FactorsAreOne(n, d) && FactorsAreOne(n, q) && IsPrime(q) && q >= 2 && d % q != 0
    ensures FactorsAreOne(n, d * q)
  {
    hide IsPrime, Divides;
    DividesMod(q, d);
    forall p | IsPrime(p) && Divides(p, n) ensures Divides(d * q, p - 1) {
      CoprimeProduct(d, q, p - 1);
    }
  }

  /** When the prime factors of n are 1 modulo d and the square of d + 1 exceeds n, n is prime. */
  lemma NoRoom(n: int, d: int)
    requires n >= 2 && d > 0 && n < (d + 1) * (d + 1) && FactorsAreOne(n, d)
    ensures IsPrime(n)
  {
    hide IsPrime, Divides;
    if !IsPrime(n) {
      var p := SmallPrimeFactor(n);
      PrimeAtLeastTwo(p);
      MultipleBelow(p, d);
      MulMono(p, d + 1, p);
      MulMono(d + 1, d + 1, p);
      MulCommutes(p, d + 1);
    }
  }

  // ---- small primes --------------------------------------------------------

  predicate NoFactorBelow31(n: int) {
    (n == 2 || n % 2 != 0) && (n == 3 || n % 3 != 0) && (n == 5 || n % 5 != 0) && (n == 7 || n % 7 != 0) &&
    (n == 11 || n % 11 != 0) && (n == 13 || n % 13 != 0) && (n == 17 || n % 17 != 0) && (n == 19 || n % 19 != 0) &&
    (n == 23 || n % 23 != 0) && (n == 29 || n % 29 != 0)
  }

  lemma PrimesBelow31(p: int)
    requires IsPrime(p) && p < 31
    ensures p == 2 || p == 3 || p == 5 || p == 7 || p == 11 || p == 13 || p == 17 || p == 19 || p == 23 || p == 29
  {
    if p % 2 == 0 { DividesBy(2, p, p / 2); }
    if p % 3 == 0 { DividesBy(3, p, p / 3); }
    if p % 5 == 0 { DividesBy(5, p, p / 5); }
  }

  lemma PrimesBelow41(p: int)
    requires IsPrime(p) && p < 41
    ensures p == 2 || p == 3 || p == 5 || p == 7 || p == 11 || p == 13 || p == 17 || p == 19 || p == 23 || p == 29
      || p == 31 || p == 37
  {
    if p < 31 {
      PrimesBelow31(p);
    } else {
      if p % 2 == 0 { DividesBy(2, p, p / 2); }
      if p % 3 == 0 { DividesBy(3, p, p / 3); }
      if p == 35 { DividesBy(5, p, 7); }
    }
  }

  lemma SmallPrime(n: int)
    requires 2 <= n < 961 && NoFactorBelow31(n)
    ensures IsPrime(n)
  {
    hide IsPrime, Divides;
    if !IsPrime(n) {
      var p := SmallPrimeFactor(n);
      PrimeAtLeastTwo(p);
      if p >= 31 {
        MulMono(31, 31, p);
        MulMono(p, 31, p);
      }
      PrimesBelow31(p);
      DividesMod(p, n);
      MulMono(p, 2, p);
    }
  }

  // ---- powers by repeated squaring -----------------------------------------

  lemma NoPower(n: int, b: int)
    requires n >= 2
    ensures Residue(n, b, 0, 1)
  {
    SmallRemainderOne(n);
  }

  lemma RemainderOfProduct(n: int, x: int, y: int)
    requires n > 0
    ensures ((x % n) * (y % n)) % n == (x * y) % n && ((x % n) * y) % n == (x * y) % n
  {
    hide Cong;
    ModCong(n, x);
    ModCong(n, y);
    CongRefl(n, y);
    CongMul(n, x % n, x, y % n, y);
    CongMul(n, x % n, x, y, y);
    CongIsEqualMod(n, (x % n) * (y % n), x * y);
    CongIsEqualMod(n, (x % n) * y, x * y);
  }

  /** Squaring takes b^e to b^(2e); a digit of one takes in another b. */
  lemma OneBit(n: int, b: int, e: nat, bit: int, x: int, s: int, y: int)
    requires n > 0 && 0 <= bit <= 1 && Residue(n, b, e, x) && Product(n, x, x, s) && Digit(n, b, bit, s, y)
    ensures Residue(n, b, 2 * e + bit, y)
  {
    hide Pow;
    PowAdd(b, e, e);
    RemainderOfProduct(n, Pow(b, e), Pow(b, e));
    if bit == 1 {
      PowAdd(b, 2 * e, 1);
      PowOfOne(b);
      RemainderOfProduct(n, Pow(b, 2 * e), b);
    }
  }

  /** Four steps from b^e to the power whose exponent has four more binary digits. */
  lemma FourBits(n: int, b: int, e: nat, e4: nat, b3: int, b2: int, b1: int, b0: int,
      x: int, s3: int, y3: int, s2: int, y2: int, s1: int, y1: int, s0: int, y0: int)
    requires n > 0 && 0 <= b3 <= 1 && 0 <= b2 <= 1 && 0 <= b1 <= 1 && 0 <= b0 <= 1
    requires Residue(n, b, e, x) && e4 == 16 * e + 8 * b3 + 4 * b2 + 2 * b1 + b0
    requires Product(n, x, x, s3) && Digit(n, b, b3, s3, y3)
    requires Product(n, y3, y3, s2) && Digit(n, b, b2, s2, y2)
    requires Product(n, y2, y2, s1) && Digit(n, b, b1, s1, y1)
    requires Product(n, y1, y1, s0) && Digit(n, b, b0, s0, y0)
    ensures Residue(n, b, e4, y0)
  {
    hide Residue, Product, Digit;
    OneBit(n, b, e, b3, x, s3, y3);
    OneBit(n, b, 2 * e + b3, b2, y3, s2, y2);
    OneBit(n, b, 4 * e + 2 * b3 + b2, b1, y2, s1, y1);
    OneBit(n, b, 8 * e + 4 * b3 + 2 * b2 + b1, b0, y1, s0, y0);
  }

  // ---- the certificates ----------------------------------------------------

  lemma Prime7919()
    ensures IsPrime(7919)
  {
    hide Residue, IsPrime, FactorsAreOne;
    SmallPrime(107);
    NoPower(7919, 6451);
    FourBits(7919, 6451, 0, 6, 0, 1, 1, 0, 1, 1, 1, 1, 6451, 1056, 1916, 4559, 4559);
    FourBits(7919, 6451, 6, 107, 1, 0, 1, 1, 4559, 5025, 3808, 1175, 1175, 2719, 7603, 4828, 1);
    Certify(7919, 107, 6451, 2911);
    OddFactors(7919);
    Combine(7919, 2, 107);
    NoRoom(7919, 214);
  }

  lemma Prime104729()
    ensures IsPrime(104729)
  {
    hide Residue, IsPrime, FactorsAreOne;
    SmallPrime(53);
    NoPower(104729, 78661);
    FourBits(104729, 78661, 0, 3, 0, 0, 1, 1, 1, 1, 1, 1, 1, 1, 78661, 58872, 23470);
    FourBits(104729, 78661, 3, 53, 0, 1, 0, 1, 23470, 71089, 71089, 52755, 83888, 36118, 36118, 5500, 1);
    Certify(104729, 53, 78661, 73056);
    SmallPrime(19);
    NoPower(104729, 48162);
    FourBits(104729, 48162, 0, 1, 0, 0, 0, 1, 1, 1, 1, 1, 1, 1, 1, 1, 48162);
    FourBits(104729, 48162, 1, 19, 0, 0, 1, 1, 48162, 40352, 40352, 62141, 62141, 40922, 95042, 785, 1);
    Certify(104729, 19, 48162, 78145);
    OddFactors(104729);
    Combine(104729, 2, 53);
    Combine(104729, 106, 19);
    NoRoom(104729, 2014);
  }

  lemma Prime1299709()
    ensures IsPrime(1299709)
  {
    hide Residue, IsPrime, FactorsAreOne;
    SmallPrime(457);
    NoPower(1299709, 1098312);
    FourBits(1299709, 1098312, 0, 1, 0, 0, 0, 1, 1, 1, 1, 1, 1, 1, 1, 1, 1098312);
    FourBits(1299709, 1098312, 1, 28, 1, 1, 0, 0, 1098312,
      732846, 668469, 452089, 445953, 405283, 405283, 985796, 985796);
    FourBits(1299709, 1098312, 28, 457, 1, 0, 0, 1, 985796,
      34607, 593388, 1254227, 1254227, 775305, 775305, 626451, 1);
    Certify(1299709, 457, 1098312, 265333);
    SmallPrime(79);
    NoPower(1299709, 547572);
    FourBits(1299709, 547572, 0, 4, 0, 1, 0, 0, 1, 1, 1, 1, 547572, 27138, 27138, 835750, 835750);
    FourBits(1299709, 547572, 4, 79, 1, 1, 1, 1, 835750, 149101, 1012228, 729178, 352471, 521658, 469192, 321571, 1);
    Certify(1299709, 79, 547572, 975676);
    OddFactors(1299709);
    Combine(1299709, 2, 457);
    Combine(1299709, 914, 79);
    NoRoom(1299709, 72206);
  }

  lemma Prime52673()
    ensures IsPrime(52673)
  {
    hide Residue, IsPrime, FactorsAreOne;
    SmallPrime(823);
    NoPower(52673, 36491);
    FourBits(52673, 36491, 0, 3, 0, 0, 1, 1, 1, 1, 1, 1, 1, 1, 36491, 19641, 50893);
    FourBits(52673, 36491, 3, 51, 0, 0, 1, 1, 50893, 8020, 8020, 6667, 6667, 45550, 15862, 36796, 35393);
    FourBits(52673, 36491, 51, 823, 0, 1, 1, 1, 35393, 47836, 47836, 9757, 25880, 37205, 1080, 7594, 1);
    Certify(52673, 823, 36491, 40220);
    OddFactors(52673);
    Combine(52673, 2, 823);
    NoRoom(52673, 1646);
  }

  lemma Prime15485863()
    ensures IsPrime(15485863)
  {
    hide Residue, IsPrime, FactorsAreOne;
    Prime52673();
    NoPower(15485863, 10709313);
    FourBits(15485863, 10709313, 0, 12, 1, 1, 0, 0, 1,
      1, 10709313, 15029422, 5064369, 7694794, 7694794, 13696785, 13696785);
    FourBits(15485863, 10709313, 12, 205, 1, 1, 0, 1, 13696785,
      11580751, 8452155, 5528315, 3772268, 15381398, 15381398, 10888673, 1934308);
    FourBits(15485863, 10709313, 205, 3292, 1, 1, 0, 0, 1934308,
      8079434, 3161984, 5087566, 6790957, 11131493, 11131493, 3614549, 3614549);
    FourBits(15485863, 10709313, 3292, 52673, 0, 0, 0, 1, 3614549,
      6436191, 6436191, 10436248, 10436248, 7750726, 7750726, 2682244, 1);
    Certify(15485863, 52673, 10709313, 8474144);
    OddFactors(15485863);
    Combine(15485863, 2, 52673);
    NoRoom(15485863, 105346);
  }

  lemma Prime5449()
    ensures IsPrime(5449)
  {
    hide Residue, IsPrime, FactorsAreOne;
    SmallPrime(227);
    NoPower(5449, 5194);
    FourBits(5449, 5194, 0, 14, 1, 1, 1, 0, 1, 1, 5194, 5086, 5381, 4624, 3313, 1683, 1683);
    FourBits(5449, 5194, 14, 227, 0, 0, 1, 1, 1683, 4458, 4458, 1261, 1261, 4462, 1031, 406, 1);
    Certify(5449, 227, 5194, 5300);
    OddFactors(5449);
    Combine(5449, 2, 227);
    NoRoom(5449, 454);
  }

  lemma Prime179424673()
    ensures IsPrime(179424673)
  {
    hide Residue, IsPrime, FactorsAreOne;
    Prime5449();
    NoPower(179424673, 89884769);
    FourBits(179424673, 89884769, 0, 1, 0, 0, 0, 1, 1, 1, 1, 1, 1, 1, 1, 1, 89884769);
    FourBits(179424673, 89884769, 1, 21, 0, 1, 0, 1, 89884769,
      83039843, 83039843, 45142500, 53542491, 79651483, 79651483, 93266074, 89439342);
    FourBits(179424673, 89884769, 21, 340, 0, 1, 0, 0, 89439342,
      19901567, 19901567, 118668928, 72519748, 130475272, 130475272, 136303900, 136303900);
    FourBits(179424673, 89884769, 340, 5449, 1, 0, 0, 1, 136303900,
      32035712, 50501789, 113239405, 113239405, 123663273, 123663273, 139070055, 1);
    Certify(179424673, 5449, 89884769, 104826676);
    SmallPrime(7);
    NoPower(179424673, 116513733);
    FourBits(179424673, 116513733, 0, 7, 0, 1, 1, 1, 1, 1, 1, 1, 116513733, 152591635, 86018786, 74277673, 1);
    Certify(179424673, 7, 116513733, 97033123);
    OddFactors(179424673);
    Combine(179424673, 2, 5449);
    Combine(179424673, 10898, 7);
    NoRoom(179424673, 76286);
  }

  lemma Prime148721()
    ensures IsPrime(148721)
  {
    hide Residue, IsPrime, FactorsAreOne;
    SmallPrime(13);
    NoPower(148721, 18050);
    FourBits(148721, 18050, 0, 13, 1, 1, 0, 1, 1, 1, 18050, 103510, 122298, 78555, 78555, 7572, 1);
    Certify(148721, 13, 18050, 17246);
    SmallPrime(11);
    NoPower(148721, 40);
    FourBits(148721, 40, 0, 11, 1, 0, 1, 1, 1, 1, 40, 1600, 1600, 31743, 79952, 145003, 1);
    Certify(148721, 11, 40, 95334);
    SmallPrime(5);
    NoPower(148721, 75923);
    FourBits(148721, 75923, 0, 5, 0, 1, 0, 1, 1, 1, 1, 1, 75923, 24690, 24690, 137442, 1);
    Certify(148721, 5, 75923, 51669);
    OddFactors(148721);
    Combine(148721, 2, 13);
    Combine(148721, 26, 11);
    Combine(148721, 286, 5);
    NoRoom(148721, 1430);
  }

  lemma Prime500000003()
    ensures IsPrime(500000003)
  {
    hide Residue, IsPrime, FactorsAreOne;
    Prime148721();
    NoPower(500000003, 233858057);
    FourBits(500000003, 233858057, 0, 2, 0, 0, 1, 0, 1, 1, 1, 1, 1, 1, 233858057, 495677709, 495677709);
    FourBits(500000003, 233858057, 2, 36, 0, 1, 0, 0, 495677709,
      225310344, 225310344, 308809833, 94568479, 166714259, 166714259, 487157220, 487157220);
    FourBits(500000003, 233858057, 36, 580, 0, 1, 0, 0, 487157220,
      74195467, 74195467, 290318287, 102028739, 19470940, 19470940, 2208895, 2208895);
    FourBits(500000003, 233858057, 580, 9295, 1, 1, 1, 1, 2208895,
      217091751, 274975880, 128103996, 418746866, 232728337, 373108833, 427360689, 268070836);
    FourBits(500000003, 233858057, 9295, 148721, 0, 0, 0, 1, 268070836,
      182567061, 182567061, 62193332, 62193332, 22054161, 22054161, 14495605, 1);
    Certify(500000003, 148721, 233858057, 83853663);
    OddFactors(500000003);
    Combine(500000003, 2, 148721);
    NoRoom(500000003, 297442);
  }

  lemma Prime1000000007()
    ensures IsPrime(1000000007)
  {
    hide Residue, IsPrime, FactorsAreOne;
    Prime500000003();
    NoPower(1000000007, 4);
    FourBits(1000000007, 4, 0, 1, 0, 0, 0, 1, 1, 1, 1, 1, 1, 1, 1, 1, 4);
    FourBits(1000000007, 4, 1, 29, 1, 1, 0, 1, 4, 16, 64, 4096, 16384, 268435456, 268435456, 533524785, 134099126);
    FourBits(1000000007, 4, 29, 476, 1, 1, 0, 0, 134099126,
      468085851, 872343397, 962618637, 850474527, 12725317, 12725317, 691616958, 691616958);
    FourBits(1000000007, 4, 476, 7629, 1, 1, 0, 1, 691616958,
      244835673, 979342692, 660022157, 640088614, 904446986, 904446986, 758313788, 33255131);
    FourBits(1000000007, 4, 7629, 122070, 0, 1, 1, 0, 33255131,
      730085840, 730085840, 37328290, 149313160, 593124667, 372498654, 260524994, 260524994);
    FourBits(1000000007, 4, 122070, 1953125, 0, 1, 0, 1, 260524994,
      23587132, 23587132, 792090960, 168363819, 349840136, 349840136, 899781663, 599126631);
    FourBits(1000000007, 4, 1953125, 31250000, 0, 0, 0, 0, 599126631,
      460741142, 460741142, 445487378, 445487378, 568101870, 568101870, 438318776, 438318776);
    FourBits(1000000007, 4, 31250000, 500000003, 0, 0, 1, 1, 438318776,
      49274740, 49274740, 985071607, 985071607, 125000001, 500000004, 250000002, 1);
    Certify(1000000007, 500000003, 4, 333333336);
    OddFactors(1000000007);
    Combine(1000000007, 2, 500000003);
    NoRoom(1000000007, 1000000006);
  }

  lemma Prime1000000009()
    ensures IsPrime(1000000009)
  {
    hide Residue, IsPrime, FactorsAreOne;
    SmallPrime(167);
    NoPower(1000000009, 455178672);
    FourBits(1000000009, 455178672, 0, 10, 1, 0, 1, 0, 1,
      1, 455178672, 578994995, 578994995, 217933216, 950782202, 504087721, 504087721);
    FourBits(1000000009, 455178672, 10, 167, 0, 1, 1, 1, 504087721,
      176033989, 176033989, 4360436, 449957999, 41924210, 60702066, 783505696, 1);
    Certify(1000000009, 167, 455178672, 518992484);
    SmallPrime(109);
    NoPower(1000000009, 885035685);
    FourBits(1000000009, 885035685, 0, 6, 0, 1, 1, 0, 1,
      1, 1, 1, 885035685, 673825821, 692183366, 855029693, 855029693);
    FourBits(1000000009, 885035685, 6, 109, 1, 1, 0, 1, 855029693,
      331992328, 781799194, 238159870, 787941121, 575075805, 575075805, 519988423, 1);
    Certify(1000000009, 109, 885035685, 778527946);
    OddFactors(1000000009);
    Combine(1000000009, 2, 167);
    Combine(1000000009, 334, 109);
    NoRoom(1000000009, 36406);
  }

  lemma Prime22605091()
    ensures IsPrime(22605091)
  {
    hide Residue, IsPrime, FactorsAreOne;
    SmallPrime(181);
    NoPower(22605091, 13954217);
    FourBits(22605091, 13954217, 0, 11, 1, 0, 1, 1, 1,
      1, 13954217, 8629453, 8629453, 5109911, 8652108, 21303337, 18624071);
    FourBits(22605091, 13954217, 11, 181, 0, 1, 0, 1, 18624071,
      519936, 519936, 21765918, 122734, 8644150, 8644150, 20081272, 1);
    Certify(22605091, 181, 13954217, 19569746);
    SmallPrime(23);
    NoPower(22605091, 22417619);
    FourBits(22605091, 22417619, 0, 1, 0, 0, 0, 1, 1, 1, 1, 1, 1, 1, 1, 1, 22417619);
    FourBits(22605091, 22417619, 1, 23, 0, 1, 1, 1, 22417619,
      17439370, 17439370, 19071980, 7614001, 17454492, 16633663, 3663054, 1);
    Certify(22605091, 23, 22417619, 7421446);
    OddFactors(22605091);
    Combine(22605091, 2, 181);
    Combine(22605091, 362, 23);
    NoRoom(22605091, 8326);
  }

  lemma Prime4294967291()
    ensures IsPrime(4294967291)
  {
    hide Residue, IsPrime, FactorsAreOne;
    Prime22605091();
    NoPower(4294967291, 1073745729);
    FourBits(4294967291, 1073745729, 0, 1, 0, 0, 0, 1, 1, 1, 1, 1, 1, 1, 1, 1, 1073745729);
    FourBits(4294967291, 1073745729, 1, 21, 0, 1, 0, 1, 1073745729,
      3504919713, 3504919713, 148041656, 2762101756, 1474251975, 1474251975, 2995285887, 4065820878);
    FourBits(4294967291, 1073745729, 21, 344, 1, 0, 0, 0, 4065820878,
      3219286270, 1820247785, 3855700258, 3855700258, 1858816020, 1858816020, 2210652769, 2210652769);
    FourBits(4294967291, 1073745729, 344, 5518, 1, 1, 1, 0, 2210652769,
      1091548832, 3255072328, 3894166791, 2036108090, 1360206462, 2579436866, 1810740027, 1810740027);
    FourBits(4294967291, 1073745729, 5518, 88301, 1, 1, 0, 1, 1810740027,
      2386321990, 3638735613, 177569812, 2142344274, 164317185, 164317185, 1505111656, 3827152162);
    FourBits(4294967291, 1073745729, 88301, 1412818, 0, 0, 1, 0, 3827152162,
      305512203, 305512203, 999910711, 999910711, 1505118024, 3852027162, 894754220, 894754220);
    FourBits(4294967291, 1073745729, 1412818, 22605091, 0, 0, 1, 1, 894754220,
      2824842023, 2824842023, 3541280234, 3541280234, 779252477, 4191888076, 688844034, 1);
    Certify(4294967291, 22605091, 1073745729, 1771216906);
    OddFactors(4294967291);
    Combine(4294967291, 2, 22605091);
    NoRoom(4294967291, 45210182);
  }

  lemma Prime1423()
    ensures IsPrime(1423)
  {
    hide Residue, IsPrime, FactorsAreOne;
    SmallPrime(79);
    NoPower(1423, 312);
    FourBits(1423, 312, 0, 4, 0, 1, 0, 0, 1, 1, 1, 1, 312, 580, 580, 572, 572);
    FourBits(1423, 312, 4, 79, 1, 1, 1, 1, 572, 1317, 1080, 963, 203, 1365, 403, 187, 1);
    Certify(1423, 79, 312, 787);
    OddFactors(1423);
    Combine(1423, 2, 79);
    NoRoom(1423, 158);
  }

  lemma Prime364289()
    ensures IsPrime(364289)
  {
    hide Residue, IsPrime, FactorsAreOne;
    Prime1423();
    NoPower(364289, 54317);
    FourBits(364289, 54317, 0, 5, 0, 1, 0, 1, 1, 1, 1, 1, 54317, 324167, 324167, 346082, 95016);
    FourBits(364289, 54317, 5, 88, 1, 0, 0, 0, 95016, 230258, 153838, 95359, 95359, 321152, 321152, 12557, 12557);
    FourBits(364289, 54317, 88, 1423, 1, 1, 1, 1, 12557, 305401, 202213, 114275, 319193, 188018, 95880, 141485, 1);
    Certify(364289, 1423, 54317, 92199);
    OddFactors(364289);
    Combine(364289, 2, 1423);
    NoRoom(364289, 2846);
  }

  lemma Prime4294967311()
    ensures IsPrime(4294967311)
  {
    hide Residue, IsPrime, FactorsAreOne;
    Prime364289();
    NoPower(4294967311, 2449819769);
    FourBits(4294967311, 2449819769, 0, 5, 0, 1, 0, 1, 1,
      1, 1, 1, 2449819769, 199746530, 199746530, 1885886726, 3787083427);
    FourBits(4294967311, 2449819769, 5, 88, 1, 0, 0, 0, 3787083427,
      964453694, 2460177613, 20484723, 20484723, 1275134718, 1275134718, 2206986602, 2206986602);
    FourBits(4294967311, 2449819769, 88, 1423, 1, 1, 1, 1, 2206986602,
      2463427730, 1136651682, 861863018, 2842600434, 1055199492, 2852330317, 1293775134, 2022124182);
    FourBits(4294967311, 2449819769, 1423, 22768, 0, 0, 0, 0, 2022124182,
      1041799867, 1041799867, 312909048, 312909048, 3179111074, 3179111074, 1951448904, 1951448904);
    FourBits(4294967311, 2449819769, 22768, 364289, 0, 0, 0, 1, 1951448904,
      1127308846, 1127308846, 1001825300, 1001825300, 481047710, 481047710, 519355213, 1);
    Certify(4294967311, 364289, 2449819769, 1765941567);
    OddFactors(4294967311);
    Combine(4294967311, 2, 364289);
    NoRoom(4294967311, 728578);
  }

  lemma Prime36650387593()
    ensures IsPrime(36650387593)
  {
    hide Residue, IsPrime, FactorsAreOne;
    SmallPrime(109);
    NoPower(36650387593, 34578164856);
    FourBits(36650387593, 34578164856, 0, 6, 0, 1, 1, 0, 1,
      1, 1, 1, 34578164856, 33582666565, 3228297619, 18132023406, 18132023406);
    FourBits(36650387593, 34578164856, 6, 109, 1, 1, 0, 1, 18132023406,
      4784039688, 32740378935, 30691697539, 22453656122, 23087164885, 23087164885, 35124926925, 1);
    Certify(36650387593, 109, 34578164856, 1441357847);
    SmallPrime(73);
    NoPower(36650387593, 15322930055);
    FourBits(36650387593, 15322930055, 0, 4, 0, 1, 0, 0, 1,
      1, 1, 1, 15322930055, 348291652, 348291652, 9380523612, 9380523612);
    FourBits(36650387593, 15322930055, 4, 73, 1, 0, 0, 1, 9380523612,
      19902370902, 25453500798, 4171078397, 4171078397, 20638488802, 20638488802, 15591928569, 1);
    Certify(36650387593, 73, 15322930055, 8771354857);
    SmallPrime(37);
    NoPower(36650387593, 19869267823);
    FourBits(36650387593, 19869267823, 0, 2, 0, 0, 1, 0, 1, 1, 1, 1, 1, 1, 19869267823, 32473519061, 32473519061);
    FourBits(36650387593, 19869267823, 2, 37, 0, 1, 0, 1, 32473519061,
      19709795248, 19709795248, 15084558776, 12488195591, 33167728541, 33167728541, 22397387948, 1);
    Certify(36650387593, 37, 19869267823, 1241040764);
    OddFactors(36650387593);
    Combine(36650387593, 2, 109);
    Combine(36650387593, 218, 73);
    Combine(36650387593, 15914, 37);
    NoRoom(36650387593, 588818);
  }

  lemma Prime1099511627791()
    ensures IsPrime(1099511627791)
  {
    hide Residue, IsPrime, FactorsAreOne;
    Prime36650387593();
    NoPower(1099511627791, 1073741824);
    FourBits(1099511627791, 1073741824, 0, 8, 1, 0, 0, 0, 1,
      1, 1073741824, 1099495899151, 1099495899151, 1099511624416, 1099511624416, 11390625, 11390625);
    FourBits(1099511627791, 1073741824, 8, 136, 1, 0, 0, 0, 11390625,
      3965811287, 643113259646, 693427701566, 693427701566, 647604240389, 647604240389, 171488766238, 171488766238);
    FourBits(1099511627791, 1073741824, 136, 2184, 1, 0, 0, 0, 171488766238,
      554087693325, 5842124767, 868353028622, 868353028622, 882646507616, 882646507616, 251419980507, 251419980507);
    FourBits(1099511627791, 1073741824, 2184, 34952, 1, 0, 0, 0, 251419980507,
      725272596441, 1047011586355, 814028692248, 814028692248, 46315462409, 46315462409, 577992618795, 577992618795);
    FourBits(1099511627791, 1073741824, 34952, 559240, 1, 0, 0, 0, 577992618795,
      710103986364, 191461549052, 856023146281, 856023146281, 426064349124, 426064349124, 386185645274, 386185645274);
    FourBits(1099511627791, 1073741824, 559240, 8947848, 1, 0, 0, 0, 386185645274,
      1065779843719, 679098950708, 995803704209, 995803704209, 460589590519, 460589590519, 338010393666, 338010393666);
    FourBits(1099511627791, 1073741824, 8947848, 143165576, 1, 0, 0, 0, 338010393666,
      518378407363, 476664128929, 1088174701969, 1088174701969, 385529176801, 385529176801, 58835818906, 58835818906);
    FourBits(1099511627791, 1073741824, 143165576, 2290649224, 1, 0, 0, 0, 58835818906,
      116763068400, 1080621362097, 952971698533, 952971698533, 381907847215, 381907847215, 435711378129, 435711378129);
    FourBits(1099511627791, 1073741824, 2290649224, 36650387593, 1, 0, 0, 1, 435711378129,
      702228620247, 1045201660952, 481587296752, 481587296752, 146599313410, 146599313410, 293203100676, 1);
    Certify(1099511627791, 36650387593, 1073741824, 734418738870);
    OddFactors(1099511627791);
    Combine(1099511627791, 2, 36650387593);
    NoRoom(1099511627791, 73300775186);
  }

  lemma Prime17449()
    ensures IsPrime(17449)
  {
    hide Residue, IsPrime, FactorsAreOne;
    SmallPrime(727);
    NoPower(17449, 8727);
    FourBits(17449, 8727, 0, 2, 0, 0, 1, 0, 1, 1, 1, 1, 1, 1, 8727, 13093, 13093);
    FourBits(17449, 8727, 2, 45, 1, 1, 0, 1, 13093, 7673, 10458, 16881, 16029, 9765, 9765, 13889, 8549);
    FourBits(17449, 8727, 45, 727, 0, 1, 1, 1, 8549, 8989, 8989, 13251, 6954, 6937, 8618, 6980, 1);
    Certify(17449, 727, 8727, 5817);
    OddFactors(17449);
    Combine(17449, 2, 727);
    NoRoom(17449, 1454);
  }

  lemma Prime6700417()
    ensures IsPrime(6700417)
  {
    hide Residue, IsPrime, FactorsAreOne;
    Prime17449();
    NoPower(6700417, 5846540);
    FourBits(6700417, 5846540, 0, 4, 0, 1, 0, 0, 1, 1, 1, 1, 5846540, 55274, 55274, 6525341, 6525341);
    FourBits(6700417, 5846540, 4, 68, 0, 1, 0, 0, 6525341,
      3898418, 3898418, 4877502, 4820270, 344085, 344085, 4819252, 4819252);
    FourBits(6700417, 5846540, 68, 1090, 0, 0, 1, 0, 4819252,
      3421594, 3421594, 1897586, 1897586, 1729928, 1399296, 6638208, 6638208);
    FourBits(6700417, 5846540, 1090, 17449, 1, 0, 0, 1, 6638208,
      3819072, 1507169, 3124472, 3124472, 5321460, 5321460, 4367002, 1);
    Certify(6700417, 17449, 5846540, 4499094);
    OddFactors(6700417);
    Combine(6700417, 2, 17449);
    NoRoom(6700417, 34898);
  }
}
