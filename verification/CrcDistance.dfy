/** Two wrong bits under CRC32C: the order of the register step, and the distances at which they go unnoticed. */
module CrcDistance {
  import opened Crc32c
  import opened NumberTheory
  import opened Sequences
  import LucasLehmerCertificates
  import Prime

  // A register stands for a polynomial of degree at most 31 over the field of two elements, with the constant term in
  // the top bit; a step multiplies it by x modulo the generator polynomial.

  const ONE: bv32 := 0x8000_0000

  function TwoSteps(y: bv32): bv32 {
    BitStep(BitStep(y))
  }

  // ---- squaring ------------------------------------------------------------

  /** x^(2k). */
  function EvenPower(k: nat): bv32 {
    if k == 0 then ONE else TwoSteps(EvenPower(k - 1))
  }

  function Term(bit: bool, t: bv32): bv32 {
    if bit then t else 0
  }

  /** The even powers x^(2n - 2), ..., 1 that the n low bits of y select, added up. */
  function Select(y: bv32, n: nat): bv32
    decreases n
  {
    if n == 0 then 0 else Xor(Term(Odd(y), EvenPower(n - 1)), Select(Half(y), n - 1))
  }

  /** The square of a register: every power of x is replaced by its square. */
  function Square(y: bv32): bv32 {
    Select(y, 32)
  }

  lemma Regroup(a: bv32, b: bv32, c: bv32, d: bv32)
    ensures Xor(Xor(a, b), Xor(c, d)) == Xor(Xor(a, c), Xor(b, d))
  {
    hide Xor;
    XorAssoc(a, b, Xor(c, d));
    XorAssoc(b, c, d);
    XorLaws(b, c);
    XorAssoc(c, b, d);
    XorAssoc(a, c, Xor(b, d));
  }

  lemma TermXor(p: bool, q: bool, t: bv32)
    ensures Term(p != q, t) == Xor(Term(p, t), Term(q, t))
  {
    hide Xor;
    XorLaws(t, 0);
    XorLaws(t, t);
    XorLaws(0, 0);
  }

  lemma {:induction false} SelectXor(x: bv32, y: bv32, n: nat)
    ensures Select(Xor(x, y), n) == Xor(Select(x, n), Select(y, n))
    decreases n
  {
    hide Xor, Half, Odd, Term, EvenPower;
    if n == 0 {
      XorLaws(0, 0);
    } else {
      var t := EvenPower(n - 1);
      HalfXor(x, y);
      OddXor(x, y);
      SelectXor(Half(x), Half(y), n - 1);
      TermXor(Odd(x), Odd(y), t);
      Regroup(Term(Odd(x), t), Term(Odd(y), t), Select(Half(x), n - 1), Select(Half(y), n - 1));
    }
  }

  lemma TwoStepsXor(x: bv32, y: bv32)
    ensures TwoSteps(Xor(x, y)) == Xor(TwoSteps(x), TwoSteps(y))
  {
    hide BitStep, Xor;
    BitStepXor(x, y);
    BitStepXor(BitStep(x), BitStep(y));
  }

  lemma TwoStepsZero()
    ensures TwoSteps(0) == 0
  {
  }

  lemma TwoStepsTerm(bit: bool, k: nat)
    ensures TwoSteps(Term(bit, EvenPower(k))) == Term(bit, EvenPower(k + 1))
  {
    hide TwoSteps;
    TwoStepsZero();
  }

  /** Without a bit at position n or above, selecting one power more multiplies the sum by x^2. */
  lemma {:induction false} SelectShift(y: bv32, n: nat)
    requires Small(y, n)
    ensures Select(y, n + 1) == TwoSteps(Select(y, n))
    decreases n
  {
    hide Xor, Half, Odd, Term, EvenPower, TwoSteps;
    if n == 0 {
      SelectNothing();
    } else {
      var t, rest := Term(Odd(y), EvenPower(n - 1)), Select(Half(y), n - 1);
      SelectShift(Half(y), n - 1);
      TwoStepsTerm(Odd(y), n - 1);
      TwoStepsXor(t, rest);
    }
  }

  lemma SelectNothing()
    ensures Select(0, 1) == 0 && TwoSteps(Select(0, 0)) == 0
  {
    hide TwoSteps, EvenPower;
    TwoStepsZero();
    assert Select(Half(0), 0) == 0;
  }

  lemma {:induction false} SmallIsShiftedOut(y: bv32, n: nat)
    ensures Small(y, n) <==> Shifted(y, n) == 0
    decreases n
  {
    hide Half;
    if n > 0 {
      SmallIsShiftedOut(Half(y), n - 1);
    }
  }

  lemma HalfIsSmall(y: bv32)
    ensures Small(Half(y), 31)
  {
    hide Half, Shifted, Small;
    AllShiftedOut(y);
    ShiftedOnce(y);
    SmallIsShiftedOut(Half(y), 31);
  }

  lemma SquareOfStep(y: bv32)
    ensures Square(BitStep(y)) == Xor(Term(Odd(y), EvenPower(32)), Square(Half(y)))
  {
    hide Xor, Half, Odd, EvenPower, Square;
    SquareXor(Half(y), POLY);
    SquareOfPoly();
    XorLaws(EvenPower(32), Square(Half(y)));
    XorLaws(Square(Half(y)), 0);
  }

  lemma SquareXor(x: bv32, y: bv32)
    ensures Square(Xor(x, y)) == Xor(Square(x), Square(y))
  {
    hide Xor, Select;
    SelectXor(x, y, 32);
  }

  lemma StepsOfSquare(y: bv32)
    ensures TwoSteps(Square(y)) == Xor(Term(Odd(y), EvenPower(32)), Square(Half(y)))
  {
    hide Xor, Half, Odd, EvenPower, TwoSteps, Small, Term;
    var t, rest := Term(Odd(y), EvenPower(31)), Select(Half(y), 31);
    HalfIsSmall(y);
    SelectShift(Half(y), 31);
    TwoStepsTerm(Odd(y), 31);
    TwoStepsXor(t, rest);
  }

  /** (x y)^2 = x^2 y^2. */
  lemma SquareStep(y: bv32)
    ensures Square(BitStep(y)) == TwoSteps(Square(y))
  {
    hide Square, BitStep, TwoSteps;
    SquareOfStep(y);
    StepsOfSquare(y);
  }

  // ---- squares of given registers ------------------------------------------

  function Test(y: bv32, m: bv32): bool { y & m != 0 }

  function XorOfFour(p: bv32, q: bv32, r: bv32, s: bv32): bv32 { (p ^ q) ^ (r ^ s) }

  /** The sum of the words that the four low bits of y select. */
  function FourTerms(y: bv32, a: bv32, b: bv32, c: bv32, d: bv32): bv32 {
    XorOfFour(if y & 1 != 0 then a else 0, if y & 2 != 0 then b else 0,
      if y & 4 != 0 then c else 0, if y & 8 != 0 then d else 0)
  }

  /** The square, four bits at a time; the words are the powers x^62, x^60, ..., 1. */
  function SquareByFours(y: bv32): bv32 {
    Xor(FourTerms(y, 0xBF67_2381, 0xF644_63E6, 0xD725_148B, 0x52A0_C93F),
    Xor(FourTerms(y >> 4, 0x4F6F_520D, 0x3851_3EC5, 0xE144_FB14, 0x8B27_7743),
    Xor(FourTerms(y >> 8, 0x2745_30EE, 0x9D14_C3B8, 0x7F8B_E302, 0xFBC3_FAF9),
    Xor(FourTerms(y >> 12, 0xE13B_70F7, 0x8AD9_58CF, 0x20BD_8EDE, 0x82F6_3B78),
    Xor(FourTerms(y >> 16, 0x0000_0002, 0x0000_0008, 0x0000_0020, 0x0000_0080),
    Xor(FourTerms(y >> 20, 0x0000_0200, 0x0000_0800, 0x0000_2000, 0x0000_8000),
    Xor(FourTerms(y >> 24, 0x0002_0000, 0x0008_0000, 0x0020_0000, 0x0080_0000),
    FourTerms(y >> 28, 0x0200_0000, 0x0800_0000, 0x2000_0000, 0x8000_0000))))))))
  }

  lemma LaterHalves(y: bv32)
    ensures Half(y >> 8) == y >> 9 && Half(y >> 9) == y >> 10 && Half(y >> 10) == y >> 11 && Half(y >> 11) == y >> 12
    ensures Half(y >> 12) == y >> 13 && Half(y >> 13) == y >> 14 && Half(y >> 14) == y >> 15 && Half(y >> 15) == y >> 16
  {
  }

  lemma LastHalves(y: bv32)
    ensures Half(y >> 16) == y >> 17 && Half(y >> 17) == y >> 18 && Half(y >> 18) == y >> 19 && Half(y >> 19) == y >> 20
    ensures Half(y >> 20) == y >> 21 && Half(y >> 21) == y >> 22 && Half(y >> 22) == y >> 23 && Half(y >> 23) == y >> 24
    ensures Half(y >> 24) == y >> 25 && Half(y >> 25) == y >> 26 && Half(y >> 26) == y >> 27 && Half(y >> 27) == y >> 28
  {
  }

  lemma LowBits(y: bv32)
    ensures Odd(y) == Test(y, 1) && Odd(Half(y)) == Test(y, 2)
    ensures Odd(Half(Half(y))) == Test(y, 4) && Odd(Half(Half(Half(y)))) == Test(y, 8)
  {
  }

  lemma FourXors(p: bv32, q: bv32, r: bv32, s: bv32)
    ensures XorOfFour(p, q, r, s) == Xor(Xor(p, q), Xor(r, s))
  {
    hide Xor;
    XorIs(p, q);
    XorIs(r, s);
    XorIs(p ^ q, r ^ s);
  }

  lemma TermIs(y: bv32, m: bv32, t: bv32)
    ensures Term(Test(y, m), t) == if y & m != 0 then t else 0
  {
  }

  lemma FourTermsAre(y: bv32, a: bv32, b: bv32, c: bv32, d: bv32)
    ensures FourTerms(y, a, b, c, d) == Xor(Xor(Term(Odd(y), a), Term(Odd(Half(y)), b)),
      Xor(Term(Odd(Half(Half(y))), c), Term(Odd(Half(Half(Half(y)))), d)))
  {
    hide Odd, Half, Xor, Term, Test, XorOfFour;
    LowBits(y);
    TermIs(y, 1, a);
    TermIs(y, 2, b);
    TermIs(y, 4, c);
    TermIs(y, 8, d);
    FourXors(Term(Test(y, 1), a), Term(Test(y, 2), b), Term(Test(y, 4), c), Term(Test(y, 8), d));
  }

  lemma QuartersCompose(y: bv32)
    ensures Quarter(y) == y >> 4 && Quarter(y >> 4) == y >> 8 && Quarter(y >> 8) == y >> 12
    ensures Quarter(y >> 12) == y >> 16 && Quarter(y >> 16) == y >> 20 && Quarter(y >> 20) == y >> 24
    ensures Quarter(y >> 24) == y >> 28
  {
    hide Half;
    HalvesCompose(y);
    LaterHalves(y);
    LastHalves(y);
  }

  lemma FourMore(y: bv32, n: nat)
    ensures Select(y, n + 4) == Xor(
      FourTerms(y, EvenPower(n + 3), EvenPower(n + 2), EvenPower(n + 1), EvenPower(n)), Select(Quarter(y), n))
  {
    hide Xor, Half, Odd, Term, EvenPower, FourTerms;
    var a, b := Term(Odd(y), EvenPower(n + 3)), Term(Odd(Half(y)), EvenPower(n + 2));
    var c, d := Term(Odd(Half(Half(y))), EvenPower(n + 1)), Term(Odd(Half(Half(Half(y)))), EvenPower(n));
    var rest := Select(Quarter(y), n);
    assert Select(Half(Half(Half(y))), n + 1) == Xor(d, rest);
    assert Select(Half(Half(y)), n + 2) == Xor(c, Xor(d, rest));
    assert Select(Half(y), n + 3) == Xor(b, Xor(c, Xor(d, rest)));
    FourTermsAre(y, EvenPower(n + 3), EvenPower(n + 2), EvenPower(n + 1), EvenPower(n));
    XorAssoc(c, d, rest);
    XorAssoc(a, b, Xor(Xor(c, d), rest));
    XorAssoc(Xor(a, b), Xor(c, d), rest);
  }

  lemma EvenPowers0()
    ensures EvenPower(0) == 0x8000_0000 && EvenPower(1) == 0x2000_0000
    ensures EvenPower(2) == 0x0800_0000 && EvenPower(3) == 0x0200_0000
    ensures EvenPower(4) == 0x0080_0000 && EvenPower(5) == 0x0020_0000
    ensures EvenPower(6) == 0x0008_0000 && EvenPower(7) == 0x0002_0000
  {
  }

  lemma EvenPowers1()
    ensures EvenPower(8) == 0x0000_8000 && EvenPower(9) == 0x0000_2000
    ensures EvenPower(10) == 0x0000_0800 && EvenPower(11) == 0x0000_0200
    ensures EvenPower(12) == 0x0000_0080 && EvenPower(13) == 0x0000_0020
    ensures EvenPower(14) == 0x0000_0008 && EvenPower(15) == 0x0000_0002
  {
    EvenPowers0();
  }

  lemma EvenPowers2()
    ensures EvenPower(16) == 0x82F6_3B78 && EvenPower(17) == 0x20BD_8EDE
    ensures EvenPower(18) == 0x8AD9_58CF && EvenPower(19) == 0xE13B_70F7
    ensures EvenPower(20) == 0xFBC3_FAF9 && EvenPower(21) == 0x7F8B_E302
    ensures EvenPower(22) == 0x9D14_C3B8 && EvenPower(23) == 0x2745_30EE
  {
    EvenPowers1();
  }

  lemma EvenPowers3()
    ensures EvenPower(24) == 0x8B27_7743 && EvenPower(25) == 0xE144_FB14
    ensures EvenPower(26) == 0x3851_3EC5 && EvenPower(27) == 0x4F6F_520D
    ensures EvenPower(28) == 0x52A0_C93F && EvenPower(29) == 0xD725_148B
    ensures EvenPower(30) == 0xF644_63E6 && EvenPower(31) == 0xBF67_2381
  {
    EvenPowers2();
  }

  lemma ByFours(y: bv32)
    ensures Square(y) == SquareByFours(y)
  {
    hide Xor, Quarter, FourTerms, EvenPower, Select;
    EvenPowers0();
    EvenPowers1();
    EvenPowers2();
    EvenPowers3();
    QuartersCompose(y);
    FourMore(y, 28);
    FourMore(y >> 4, 24);
    FourMore(y >> 8, 20);
    FourMore(y >> 12, 16);
    FourMore(y >> 16, 12);
    FourMore(y >> 20, 8);
    FourMore(y >> 24, 4);
    FourMore(y >> 28, 0);
    SelectNone(Quarter(y >> 28));
    var last := FourTerms(y >> 28, EvenPower(3), EvenPower(2), EvenPower(1), EvenPower(0));
    XorLaws(last, 0);
  }

  lemma SelectNone(y: bv32)
    ensures Select(y, 0) == 0
  {
  }

  lemma SquaresOfConstants()
    ensures SquareByFours(POLY) == 0x6EA2_D55C && SquareByFours(ONE) == ONE
  {
  }

  /** The square of the generator without its leading term is x^64. */
  lemma SquareOfPoly()
    ensures Square(POLY) == EvenPower(32)
  {
    hide SquareByFours;
    ByFours(POLY);
    SquaresOfConstants();
    EvenPowers3();
    assert EvenPower(32) == TwoSteps(EvenPower(31));
  }

  // ---- the order of a step -------------------------------------------------

  lemma {:induction false} RepeatAdd(c: bv32, m: nat, n: nat)
    ensures Repeat(c, m + n) == Repeat(Repeat(c, m), n)
    decreases m
  {
    hide BitStep;
    if m > 0 {
      RepeatAdd(BitStep(c), m - 1, n);
    }
  }

  lemma RepeatOnce(c: bv32)
    ensures Repeat(c, 1) == BitStep(c)
  {
    hide BitStep;
    assert Repeat(BitStep(c), 0) == BitStep(c);
  }

  /** The square of x^m. */
  lemma {:induction false} SquareOfPower(m: nat)
    ensures Square(Repeat(ONE, m)) == Repeat(ONE, 2 * m)
  {
    hide BitStep, Square;
    if m == 0 {
      hide SquareByFours;
      ByFours(ONE);
      SquaresOfConstants();
    } else {
      hide Repeat;
      SquareOfPower(m - 1);
      RepeatAdd(ONE, m - 1, 1);
      RepeatOnce(Repeat(ONE, m - 1));
      SquareStep(Repeat(ONE, m - 1));
      RepeatAdd(ONE, 2 * m - 2, 1);
      RepeatOnce(Repeat(ONE, 2 * m - 2));
      RepeatAdd(ONE, 2 * m - 1, 1);
      RepeatOnce(Repeat(ONE, 2 * m - 1));
    }
  }

  /** The square of x^(2^k). */
  lemma SquareAgain(k: nat, x: bv32, y: bv32)
    requires Repeat(ONE, Pow2(k)) == x && SquareByFours(x) == y
    ensures Repeat(ONE, Pow2(k + 1)) == y
  {
    hide Repeat, Square, SquareByFours;
    SquareOfPower(Pow2(k));
    ByFours(x);
  }

  lemma RepeatedSquares0()
    ensures Repeat(ONE, Pow2(8)) == 0x510A_C59A
  {
    hide Repeat;
    RepeatOnce(ONE);
    SquareAgain(0, 0x4000_0000, 0x2000_0000);
    SquareAgain(1, 0x2000_0000, 0x0800_0000);
    SquareAgain(2, 0x0800_0000, 0x0080_0000);
    SquareAgain(3, 0x0080_0000, 0x0000_8000);
    SquareAgain(4, 0x0000_8000, 0x82F6_3B78);
    SquareAgain(5, 0x82F6_3B78, 0x6EA2_D55C);
    SquareAgain(6, 0x6EA2_D55C, 0x18B8_EA18);
    SquareAgain(7, 0x18B8_EA18, 0x510A_C59A);
  }

  lemma RepeatedSquares1()
    ensures Repeat(ONE, Pow2(16)) == 0x2846_1564
  {
    hide Repeat, Pow2;
    RepeatedSquares0();
    SquareAgain(8, 0x510A_C59A, 0xB82B_E955);
    SquareAgain(9, 0xB82B_E955, 0xB8FD_B1E7);
    SquareAgain(10, 0xB8FD_B1E7, 0x88E5_6F72);
    SquareAgain(11, 0x88E5_6F72, 0x74C3_60A4);
    SquareAgain(12, 0x74C3_60A4, 0xE417_2B16);
    SquareAgain(13, 0xE417_2B16, 0x0D65_762A);
    SquareAgain(14, 0x0D65_762A, 0x35D7_3A62);
    SquareAgain(15, 0x35D7_3A62, 0x2846_1564);
  }

  lemma RepeatedSquares2()
    ensures Repeat(ONE, Pow2(24)) == 0x734D_5309
  {
    hide Repeat, Pow2;
    RepeatedSquares1();
    SquareAgain(16, 0x2846_1564, 0xBF45_5269);
    SquareAgain(17, 0xBF45_5269, 0xE2EA_32DC);
    SquareAgain(18, 0xE2EA_32DC, 0xFE77_40E6);
    SquareAgain(19, 0xFE77_40E6, 0xF946_610B);
    SquareAgain(20, 0xF946_610B, 0x3C20_4F8F);
    SquareAgain(21, 0x3C20_4F8F, 0x5385_86E3);
    SquareAgain(22, 0x5385_86E3, 0x5972_6915);
    SquareAgain(23, 0x5972_6915, 0x734D_5309);
  }

  lemma RepeatedSquares3()
    ensures Repeat(ONE, Pow2(31)) == 0x4000_0000
  {
    hide Repeat, Pow2;
    RepeatedSquares2();
    SquareAgain(24, 0x734D_5309, 0xBC1A_C763);
    SquareAgain(25, 0xBC1A_C763, 0x7D07_22CC);
    SquareAgain(26, 0x7D07_22CC, 0xD289_CABE);
    SquareAgain(27, 0xD289_CABE, 0xE94C_A9BC);
    SquareAgain(28, 0xE94C_A9BC, 0x05B7_4F3F);
    SquareAgain(29, 0x05B7_4F3F, 0xA51E_1F42);
    SquareAgain(30, 0xA51E_1F42, 0x4000_0000);
  }

  const PERIOD := 0x7FFF_FFFF

  /** That many steps take the register c back to c. */
  predicate Returns(c: bv32, d: nat) {
    Repeat(c, d) == c
  }

  lemma PeriodReturnsOne()
    ensures Returns(ONE, PERIOD)
  {
    hide Repeat, Pow2;
    RepeatedSquares3();
    LucasLehmerCertificates.Pow2ToThirtyOne();
    RepeatAdd(ONE, PERIOD, 1);
    RepeatOnce(Repeat(ONE, PERIOD));
    assert BitStep(ONE) == 0x4000_0000;
    BitStepInjective(Repeat(ONE, PERIOD), ONE);
  }

  lemma WeightDown(k: nat)
    requires 0 < k <= 31
    ensures BitStep(Weight(k)) == Weight(k - 1)
  {
    hide Weight, Xor;
    WeightTable();
    WeightStep(k);
    HalfOfTwice(Weight(k - 1));
  }

  lemma HalfOfTwice(t: bv32)
    requires t < 0x8000_0000
    ensures !Odd(Twice(t)) && Half(Twice(t)) == t
  {
  }

  lemma {:induction false} WeightReaches(k: nat)
    requires k <= 31
    ensures Repeat(Weight(k), k) == 1
  {
    hide BitStep;
    if k == 0 {
    } else {
      WeightDown(k);
      WeightReaches(k - 1);
    }
  }

  lemma {:induction false} RepeatInjective(a: bv32, b: bv32, n: nat)
    requires Repeat(a, n) == Repeat(b, n)
    ensures a == b
    decreases n
  {
    hide BitStep;
    if n > 0 {
      RepeatInjective(BitStep(a), BitStep(b), n - 1);
      BitStepInjective(a, b);
    }
  }

  lemma FixedXor(a: bv32, b: bv32)
    requires Returns(a, PERIOD) && Returns(b, PERIOD)
    ensures Returns(Xor(a, b), PERIOD)
  {
    hide Repeat, Xor;
    RepeatXor(a, b, PERIOD);
  }

  lemma FixedBack(c: bv32)
    requires Returns(BitStep(c), PERIOD)
    ensures Returns(c, PERIOD)
  {
    hide Repeat, BitStep;
    StepsCommute(c, PERIOD);
    BitStepInjective(Repeat(c, PERIOD), c);
  }

  lemma StepsCommute(c: bv32, n: nat)
    ensures Repeat(BitStep(c), n) == BitStep(Repeat(c, n))
  {
    hide Repeat, BitStep;
    RepeatAdd(c, 1, n);
    RepeatAdd(c, n, 1);
    RepeatOnce(c);
    RepeatOnce(Repeat(c, n));
  }

  lemma FixedConstants()
    ensures Returns(POLY, PERIOD) && Returns(0, PERIOD)
  {
    hide Repeat, Weight;
    PeriodReturnsOne();
    WeightReaches(31);
    WeightTable();
    RepeatAdd(ONE, 31, PERIOD);
    RepeatAdd(ONE, PERIOD, 31);
    // x^31, the lowest bit, becomes the reduced x^32
    RepeatOnce(1);
    StepOfOne();
    StepsCommute(1, PERIOD);
    StaysZero(PERIOD);
  }

  lemma StepOfOne()
    ensures BitStep(1) == POLY
  {
  }

  lemma {:induction false} StaysZero(n: nat)
    ensures Repeat(0, n) == 0
  {
    if n > 0 {
      BitStepZero();
      StaysZero(n - 1);
    }
  }

  /** After 2^31 - 1 steps every register is back. */
  lemma {:induction false} EveryRegisterReturns(c: bv32, n: nat)
    requires Small(c, n)
    ensures Returns(c, PERIOD)
    decreases n
  {
    hide Returns, Half, Odd, Xor;
    FixedConstants();
    if n > 0 {
      EveryRegisterReturns(Half(c), n - 1);
      FixedXor(Half(c), POLY);
      FixedBack(c);
    }
  }

  lemma PeriodReturns(c: bv32)
    ensures Returns(c, PERIOD)
  {
    hide Half, Shifted, Returns;
    AllShiftedOut(c);
    SmallIsShiftedOut(c, 32);
    EveryRegisterReturns(c, 32);
  }

  lemma ReturnsAfter(c: bv32, a: nat, b: nat)
    requires Returns(c, a)
    ensures Returns(c, a + b) <==> Returns(c, b)
  {
    hide Repeat;
    RepeatAdd(c, a, b);
  }

  lemma {:induction false} ReturnsMultiple(c: bv32, a: nat, k: nat)
    requires Returns(c, a)
    ensures Returns(c, k * a)
  {
    if k == 0 {
    } else {
      hide Returns;
      ReturnsMultiple(c, a, k - 1);
      assert k * a == a + (k - 1) * a;
      ReturnsAfter(c, a, (k - 1) * a);
    }
  }

  /** The period is prime, so no smaller number of steps returns. */
  lemma {:induction false} NoShortReturn(c: bv32, r: nat)
    requires 0 < r < PERIOD && IsPrime(PERIOD) && !Returns(c, 1)
    ensures !Returns(c, r)
    decreases r
  {
    hide Returns;
    if r > 1 && Returns(c, r) {
      var q, s := PERIOD / r, PERIOD % r;
      assert q * r + s == PERIOD;
      if s == 0 {
        DividesBy(r, PERIOD, q);
        assert false;
      }
      ReturnsMultiple(c, r, q);
      ReturnsAfter(c, q * r, s);
      PeriodReturns(c);
      NoShortReturn(c, s);
    }
  }

  /** The order of a step: d steps take a register back exactly when d is a multiple of 2^31 - 1 or the register is one
      that no step changes. */
  lemma ReturnsExactly(c: bv32, d: nat)
    ensures Returns(c, d) <==> d % PERIOD == 0 || BitStep(c) == c
  {
    hide Returns, IsPrime, Pow2, BitStep;
    ReturnsInOne(c);
    if Returns(c, 1) {
      ReturnsMultiple(c, 1, d);
    } else {
      Prime.KnownAreMersenne(31);
      LucasLehmerCertificates.Pow2ToThirtyOne();
      PeriodReturns(c);
      var q, r := d / PERIOD, d % PERIOD;
      ReturnsMultiple(c, PERIOD, q);
      ReturnsAfter(c, q * PERIOD, r);
      if r == 0 {
        ReturnsInNone(c);
      } else {
        NoShortReturn(c, r);
      }
    }
  }

  lemma ReturnsInOne(c: bv32)
    ensures Returns(c, 1) <==> BitStep(c) == c
  {
    hide BitStep;
    RepeatOnce(c);
  }

  lemma ReturnsInNone(c: bv32)
    ensures Returns(c, 0)
  {
  }

  // ---- two wrong bits ------------------------------------------------------

  /** The strings differ at i and j and nowhere else. */
  ghost predicate DifferAt(u: seq<bool>, v: seq<bool>, i: nat, j: nat) {
    |u| == |v| && i < j < |u| && forall k :: 0 <= k < |u| ==> (u[k] != v[k] <==> k == i || k == j)
  }

  lemma BitWords(bit: bool)
    ensures Xor(if bit then 1 else 0, if !bit then 1 else 0) == 1
  {
    XorLaws(1, 0);
  }

  /** The difference of two registers after one bit each. */
  lemma DifferenceOfBits(a: bv32, b: bv32, x: bool, y: bool)
    ensures Xor(BitIn(a, x), BitIn(b, y)) == BitStep(if x == y then Xor(a, b) else Xor(Xor(a, b), 1))
  {
    hide BitStep, Xor;
    var m: bv32, n: bv32 := if x then 1 else 0, if y then 1 else 0;
    BitStepXor(Xor(a, m), Xor(b, n));
    Regroup(a, m, b, n);
    BitWords(x);
    XorLaws(m, m);
    XorLaws(Xor(a, b), 0);
  }

  /** Common bits multiply the difference. */
  lemma {:induction false} CommonBits(a: bv32, b: bv32, bits: seq<bool>)
    ensures Xor(Serial(a, bits), Serial(b, bits)) == Repeat(Xor(a, b), |bits|)
    decreases |bits|
  {
    hide BitStep, Xor, BitIn;
    if bits == [] {
    } else {
      DifferenceOfBits(a, b, bits[0], bits[0]);
      CommonBits(BitIn(a, bits[0]), BitIn(b, bits[0]), bits[1..]);
    }
  }

  lemma SerialOne(c: bv32, bit: bool)
    ensures Serial(c, [bit]) == BitIn(c, bit)
  {
    hide BitIn;
    assert [bit][1..] == [];
  }

  /** The register after two more bits with common ones in between. */
  lemma SerialTwo(c: bv32, p: bool, mid: seq<bool>, q: bool)
    ensures Serial(c, [p] + mid + [q]) == BitIn(Serial(BitIn(c, p), mid), q)
  {
    hide BitIn, Serial;
    SerialAppend(c, [p] + mid, [q]);
    SerialAppend(c, [p], mid);
    SerialOne(c, p);
    SerialOne(Serial(BitIn(c, p), mid), q);
  }

  lemma EqualWhenXorZero(a: bv32, b: bv32)
    ensures a == b <==> Xor(a, b) == 0
  {
    XorLaws(a, b);
    XorLaws(b, b);
  }

  lemma StepIsZero(d: bv32)
    ensures BitStep(d) == 0 <==> d == 0
  {
    hide BitStep;
    BitStepZero();
    if BitStep(d) == 0 {
      BitStepInjective(d, 0);
    }
  }

  lemma BitStepZero()
    ensures BitStep(0) == 0
  {
  }

  lemma NotPoly()
    ensures POLY != 1
  {
  }

  /** The difference that one wrong bit and the common bits after it leave. */
  lemma DifferenceCarried(c: bv32, p: bool, mid: seq<bool>)
    ensures Xor(Serial(BitIn(c, p), mid), Serial(BitIn(c, !p), mid)) == Repeat(1, |mid| + 1)
  {
    hide BitIn, Serial, BitStep, Repeat, Xor;
    DifferenceOfBits(c, c, p, !p);
    XorLaws(c, c);
    XorLaws(1, 0);
    CommonBits(BitIn(c, p), BitIn(c, !p), mid);
    RepeatAdd(1, 1, |mid|);
    RepeatOnce(1);
  }

  lemma OneComesRound(d: nat)
    ensures Repeat(1, d) == 1 <==> d % PERIOD == 0
  {
    hide Repeat, BitStep;
    StepOfOne();
    ReturnsExactly(1, d);
    NotPoly();
  }

  /** The second wrong bit cancels the first exactly when the first has come round. */
  lemma SecondCancels(c: bv32, p: bool, mid: seq<bool>, q: bool)
    ensures Serial(c, [p] + mid + [q]) == Serial(c, [!p] + mid + [!q]) <==> (|mid| + 1) % PERIOD == 0
  {
    hide BitIn, Serial, BitStep, Repeat, Xor;
    var a, b := Serial(BitIn(c, p), mid), Serial(BitIn(c, !p), mid);
    SerialTwo(c, p, mid, q);
    SerialTwo(c, !p, mid, !q);
    DifferenceCarried(c, p, mid);
    var d := Repeat(1, |mid| + 1);
    DifferenceOfBits(a, b, q, !q);
    EqualWhenXorZero(BitIn(a, q), BitIn(b, !q));
    StepIsZero(Xor(d, 1));
    EqualWhenXorZero(d, 1);
    OneComesRound(|mid| + 1);
  }

  lemma SameRest(a: bv32, b: bv32, rest: seq<bool>)
    ensures Serial(a, rest) == Serial(b, rest) <==> a == b
  {
    hide Serial;
    if Serial(a, rest) == Serial(b, rest) {
      SerialInjective(a, b, rest);
    }
  }

  lemma InPieces(v: seq<bool>, i: nat, j: nat)
    requires i < j < |v|
    ensures v == v[..i] + ([v[i]] + v[i + 1..j] + [v[j]]) + v[j + 1..]
  {
  }

  lemma PartsOfDifference(u: seq<bool>, v: seq<bool>, i: nat, j: nat)
    requires DifferAt(u, v, i, j)
    ensures var mid := u[i + 1..j];
      u == u[..i] + ([u[i]] + mid + [u[j]]) + u[j + 1..] && v == u[..i] + ([!u[i]] + mid + [!u[j]]) + u[j + 1..]
  {
    InPieces(u, i, j);
    InPieces(v, i, j);
    assert v[..i] == u[..i] && v[i + 1..j] == u[i + 1..j] && v[j + 1..] == u[j + 1..];
    assert v[i] == !u[i] && v[j] == !u[j];
  }

  lemma TwoBitsCollide(c: bv32, u: seq<bool>, v: seq<bool>, i: nat, j: nat)
    requires DifferAt(u, v, i, j)
    ensures Serial(c, u) == Serial(c, v) <==> (j - i) % PERIOD == 0
  {
    hide Serial, DifferAt;
    assert i < j < |u| by { AreOrdered(u, v, i, j); }
    PartsOfDifference(u, v, i, j);
    var pre, mid, rest := u[..i], u[i + 1..j], u[j + 1..];
    var p, q := [u[i]] + mid + [u[j]], [!u[i]] + mid + [!u[j]];
    SerialAppend(c, pre + p, rest);
    SerialAppend(c, pre + q, rest);
    SerialAppend(c, pre, p);
    SerialAppend(c, pre, q);
    SameRest(Serial(c, pre + p), Serial(c, pre + q), rest);
    SecondCancels(Serial(c, pre), u[i], mid, u[j]);
  }

  lemma AreOrdered(u: seq<bool>, v: seq<bool>, i: nat, j: nat)
    requires DifferAt(u, v, i, j)
    ensures i < j < |u| == |v|
  {
  }

  /** Two wrong bits go unnoticed if and only if their distance is a multiple of 2^31 - 1, for every message and every
      initial value. */
  lemma TwoBitErrors(x: seq<bv8>, y: seq<bv8>, initial: bv32, i: nat, j: nat)
    requires |x| == |y| && DifferAt(DataBits(x), DataBits(y), i, j)
    ensures Crc(x, initial) == Crc(y, initial) <==> (j - i) % PERIOD == 0
  {
    hide Serial, Not, DataBits, DifferAt;
    TwoBitsCollide(Not(initial), DataBits(x), DataBits(y), i, j);
    if Crc(x, initial) == Crc(y, initial) {
      NotInjective(Serial(Not(initial), DataBits(x)), Serial(Not(initial), DataBits(y)));
    }
  }

  // ---- up to three wrong bits ----------------------------------------------

  lemma {:induction false} NoPlace(u: seq<bool>, v: seq<bool>)
    requires |u| == |v| && Differences(u, v) == 0
    ensures u == v
    decreases |u|
  {
    if u == [] {
    } else {
      NoPlace(u[1..], v[1..]);
      FirstAndRest(u);
      FirstAndRest(v);
    }
  }

  ghost predicate DiffersOnlyAt(u: seq<bool>, v: seq<bool>, i: nat) {
    |u| == |v| && i < |u| && forall k :: 0 <= k < |u| ==> (u[k] != v[k] <==> k == i)
  }

  lemma {:induction false} OnePlace(u: seq<bool>, v: seq<bool>) returns (i: nat)
    requires |u| == |v| && Differences(u, v) == 1
    ensures DiffersOnlyAt(u, v, i)
    decreases |u|
  {
    if u[0] != v[0] {
      NoPlace(u[1..], v[1..]);
      i := 0;
      forall k | 1 <= k < |u| ensures u[k] == v[k] { assert u[k] == u[1..][k - 1] && v[k] == v[1..][k - 1]; }
    } else {
      i := OnePlace(u[1..], v[1..]);
      i := i + 1;
      forall k | 1 <= k < |u| ensures u[k] != v[k] <==> k == i {
        assert u[k] == u[1..][k - 1] && v[k] == v[1..][k - 1];
      }
    }
  }

  lemma {:induction false} TwoPlaces(u: seq<bool>, v: seq<bool>) returns (i: nat, j: nat)
    requires |u| == |v| && Differences(u, v) == 2
    ensures DifferAt(u, v, i, j)
    decreases |u|
  {
    if u[0] != v[0] {
      var k := OnePlace(u[1..], v[1..]);
      i, j := 0, k + 1;
    } else {
      i, j := TwoPlaces(u[1..], v[1..]);
      i, j := i + 1, j + 1;
    }
    forall k | 1 <= k < |u| ensures u[k] != v[k] <==> k == i || k == j {
      assert u[k] == u[1..][k - 1] && v[k] == v[1..][k - 1];
    }
  }

  /** In messages of fewer than 2^31 bits up to three wrong bits are always noticed, wherever they are. */
  lemma DetectsThreeBits(x: seq<bv8>, y: seq<bv8>, initial: bv32)
    requires |x| == |y| && 8 * |x| <= PERIOD && 0 < Differences(DataBits(x), DataBits(y)) <= 3
    ensures Crc(x, initial) != Crc(y, initial)
  {
    hide Crc, DataBits, Differences, DifferAt;
    if Differences(DataBits(x), DataBits(y)) == 2 {
      var i, j := TwoPlaces(DataBits(x), DataBits(y));
      AreOrdered(DataBits(x), DataBits(y), i, j);
      TwoBitErrors(x, y, initial, i, j);
    } else {
      DetectsOddErrors(x, y, initial);
    }
  }
}
