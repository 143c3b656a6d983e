/** SplitMix64 seeding and the xoshiro256** generator, on 64-bit words with wrap-around. */
module Prng {

  datatype State = State(s0: bv64, s1: bv64, s2: bv64, s3: bv64)

  const ZERO := State(0, 0, 0, 0)

  function Rotl7(x: bv64): bv64 { (x << 7) | (x >> 57) }

  function Rotl45(x: bv64): bv64 { (x << 45) | (x >> 19) }

  // ---- SplitMix64 ----------------------------------------------------------

  const GAMMA: bv64 := 0x9e3779b97f4a7c15

  function Fold30(x: bv64): bv64 { x ^ (x >> 30) }

  function Fold27(x: bv64): bv64 { x ^ (x >> 27) }

  function Fold31(x: bv64): bv64 { x ^ (x >> 31) }

  function Times1(x: bv64): bv64 { x * 0xbf58476d1ce4e5b9 }

  function Times2(x: bv64): bv64 { x * 0x94d049bb133111eb }

  /** The SplitMix64 finaliser. */
  function Mix(seed: bv64): bv64 {
    Fold31(Times2(Fold27(Times1(Fold30(seed)))))
  }

  function Plus(seed: bv64): bv64 { seed + GAMMA }

  /** The counter after k increments. */
  function Advance(seed: bv64, k: nat): bv64 {
    if k == 0 then seed else Plus(Advance(seed, k - 1))
  }

  /** The state the seeding loop leaves: four consecutive finaliser outputs. */
  function Seeded(seed: bv64): State {
    State(Mix(Advance(seed, 1)), Mix(Advance(seed, 2)), Mix(Advance(seed, 3)), Mix(Advance(seed, 4)))
  }

  // Each stage of the finaliser has an inverse.

  function Unfold30(y: bv64): bv64 { y ^ (y >> 30) ^ (y >> 60) }

  function Unfold27(y: bv64): bv64 { y ^ (y >> 27) ^ (y >> 54) }

  function Unfold31(y: bv64): bv64 { y ^ (y >> 31) ^ (y >> 62) }

  function Divide1(y: bv64): bv64 { y * 0x96de1b173f119089 }

  function Divide2(y: bv64): bv64 { y * 0x319642b2d24d8ec3 }

  function Unmix(z: bv64): bv64 {
    Unfold30(Divide1(Unfold27(Divide2(Unfold31(z)))))
  }

  // The laws come in two steps: first with one function unfolded, then by substitution.

  lemma Unfold30Of(x: bv64) ensures Unfold30(x ^ (x >> 30)) == x {}

  lemma Unfold27Of(x: bv64) ensures Unfold27(x ^ (x >> 27)) == x {}

  lemma Unfold31Of(x: bv64) ensures Unfold31(x ^ (x >> 31)) == x {}

  lemma Divide1Of(x: bv64) ensures Divide1(x * 0xbf58476d1ce4e5b9) == x {}

  lemma Divide2Of(x: bv64) ensures Divide2(x * 0x94d049bb133111eb) == x {}

  lemma FoldsInvert(x: bv64)
    ensures Unfold30(Fold30(x)) == x && Unfold27(Fold27(x)) == x && Unfold31(Fold31(x)) == x
  {
    hide Unfold30, Unfold27, Unfold31;
    Unfold30Of(x);
    Unfold27Of(x);
    Unfold31Of(x);
  }

  lemma ProductsInvert(x: bv64)
    ensures Divide1(Times1(x)) == x && Divide2(Times2(x)) == x
  {
    hide Divide1, Divide2;
    Divide1Of(x);
    Divide2Of(x);
  }

  /** The finaliser loses nothing: Unmix recovers its argument. */
  lemma UnmixMix(x: bv64)
    ensures Unmix(Mix(x)) == x
  {
    hide Fold30, Fold27, Fold31, Times1, Times2, Unfold30, Unfold27, Unfold31, Divide1, Divide2;
    var a := Times1(Fold30(x));
    var b := Times2(Fold27(a));
    FoldsInvert(b);
    ProductsInvert(Fold27(a));
    FoldsInvert(a);
    ProductsInvert(Fold30(x));
    FoldsInvert(x);
  }

  lemma MixInjective(x: bv64, y: bv64)
    requires Mix(x) == Mix(y)
    ensures x == y
  {
    hide Mix, Unmix;
    UnmixMix(x);
    UnmixMix(y);
  }

  lemma CountersDiffer(v: bv64)
    ensures v != Plus(v) && v != Plus(Plus(v)) && v != Plus(Plus(Plus(v)))
  {
  }

  lemma AdvanceDiffers(seed: bv64, i: nat, j: nat)
    requires i < j <= i + 3
    ensures Advance(seed, i) != Advance(seed, j)
  {
    hide Plus;
    CountersDiffer(Advance(seed, i));
    assert Advance(seed, i + 1) == Plus(Advance(seed, i));
    assert Advance(seed, i + 2) == Plus(Advance(seed, i + 1));
    assert Advance(seed, i + 3) == Plus(Advance(seed, i + 2));
  }

  lemma SeededWordsApart(seed: bv64, i: nat, j: nat)
    requires i < j <= i + 3
    ensures Mix(Advance(seed, i)) != Mix(Advance(seed, j))
  {
    hide Mix, Advance;
    AdvanceDiffers(seed, i, j);
    if Mix(Advance(seed, i)) == Mix(Advance(seed, j)) {
      MixInjective(Advance(seed, i), Advance(seed, j));
    }
  }

  /** The four words of a seeded state are pairwise different, whatever the seed. */
  lemma SeededWordsDiffer(seed: bv64)
    ensures var s := Seeded(seed);
      s.s0 != s.s1 && s.s0 != s.s2 && s.s0 != s.s3 && s.s1 != s.s2 && s.s1 != s.s3 && s.s2 != s.s3
  {
    hide Mix, Advance;
    SeededWordsApart(seed, 1, 2);
    SeededWordsApart(seed, 1, 3);
    SeededWordsApart(seed, 1, 4);
    SeededWordsApart(seed, 2, 3);
    SeededWordsApart(seed, 2, 4);
    SeededWordsApart(seed, 3, 4);
  }

  // ---- xoshiro256** --------------------------------------------------------

  function Xor(a: bv64, b: bv64): bv64 { a ^ b }

  function Shl17(x: bv64): bv64 { x << 17 }

  function Times5(x: bv64): bv64 { x * 5 }

  function Times9(x: bv64): bv64 { x * 9 }

  function Scramble(x: bv64): bv64 { Times9(Rotl7(Times5(x))) }

  function Output(s: State): bv64 {
    Scramble(s.s1)
  }

  function Next(s: State): State {
    var c, d := Xor(s.s2, s.s0), Xor(s.s3, s.s1);
    State(Xor(s.s0, d), Xor(s.s1, c), Xor(c, Shl17(s.s1)), Rotl45(d))
  }

  function Rotl19(x: bv64): bv64 { (x << 19) | (x >> 45) }

  /** Recovers x from x ^ (x << 17). */
  function Unshift17(y: bv64): bv64 { y ^ (y << 17) ^ (y << 34) ^ (y << 51) }

  /** The state one draw earlier. */
  function Prev(n: State): State {
    var d := Rotl19(n.s3);
    var s0, s1 := Xor(n.s0, d), Unshift17(Xor(n.s1, n.s2));
    State(s0, s1, Xor(Xor(n.s1, s1), s0), Xor(d, s1))
  }

  lemma XorLaws(a: bv64, b: bv64)
    ensures Xor(a, b) == Xor(b, a) && Xor(Xor(a, b), b) == a
  {
  }

  lemma XorChain(a: bv64, c: bv64, t: bv64)
    ensures Xor(a ^ c, c ^ t) == a ^ t
  {
  }

  /** (a ^ c) ^ (c ^ t) is a ^ t. */
  lemma XorTelescopes(a: bv64, c: bv64, t: bv64)
    ensures Xor(Xor(a, c), Xor(c, t)) == Xor(a, t)
  {
    assert Xor(a, c) == a ^ c && Xor(c, t) == c ^ t && Xor(a, t) == a ^ t;
    hide Xor;
    XorChain(a, c, t);
  }

  lemma Unshift17Of(x: bv64) ensures Unshift17(x ^ (x << 17)) == x {}

  lemma Rotl19Of(x: bv64) ensures Rotl19((x << 45) | (x >> 19)) == x {}

  lemma ShiftXor(x: bv64) ensures Xor(x, x << 17) == x ^ (x << 17) {}

  lemma Unshift17OfXor(x: bv64)
    ensures Unshift17(Xor(x, x << 17)) == x
  {
    hide Xor, Unshift17;
    ShiftXor(x);
    Unshift17Of(x);
  }

  lemma Unshift17Inverts(x: bv64)
    ensures Unshift17(Xor(x, Shl17(x))) == x
  {
    hide Xor, Unshift17;
    Unshift17OfXor(x);
  }

  lemma Rotl19Inverts(x: bv64)
    ensures Rotl19(Rotl45(x)) == x
  {
    hide Rotl19;
    Rotl19Of(x);
  }

  lemma PrevNext(s: State)
    ensures Prev(Next(s)) == s
  {
    hide Xor, Shl17, Rotl19, Rotl45, Unshift17;
    var c, d, t := Xor(s.s2, s.s0), Xor(s.s3, s.s1), Shl17(s.s1);
    Rotl19Inverts(d);
    XorLaws(s.s0, d);
    // n1 ^ n2 = (s1 ^ c) ^ (c ^ t) = s1 ^ t
    XorTelescopes(s.s1, c, t);
    Unshift17Inverts(s.s1);
    XorLaws(c, s.s1);
    XorLaws(s.s2, s.s0);
    XorLaws(s.s3, s.s1);
  }

  /** The state after n draws. */
  function Draws(s: State, n: nat): State {
    if n == 0 then s else Next(Draws(s, n - 1))
  }

  lemma NoDraws(s: State)
    ensures Draws(s, 0) == s
  {
  }

  function Back(s: State, n: nat): State
    decreases n
  {
    if n == 0 then s else Back(Prev(s), n - 1)
  }

  lemma {:induction false} DrawsReversible(s: State, n: nat)
    ensures Back(Draws(s, n), n) == s
  {
    hide Next, Prev;
    if n == 0 {
    } else {
      PrevNext(Draws(s, n - 1));
      DrawsReversible(s, n - 1);
    }
  }

  lemma {:induction false} DrawsOfZero(n: nat)
    ensures Draws(ZERO, n) == ZERO
  {
    if n == 0 {
    } else {
      DrawsOfZero(n - 1);
      NextOfZero();
      hide Next;
    }
  }

  lemma NextOfZero()
    ensures Next(ZERO) == ZERO
  {
  }

  /** Two different states never merge, however many draws are made. */
  lemma DrawsInjective(s: State, t: State, n: nat)
    requires Draws(s, n) == Draws(t, n)
    ensures s == t
  {
    DrawsReversible(s, n);
    DrawsReversible(t, n);
  }

  /** A generator seeded with any value never reaches the all-zero state, the one it could not leave. */
  lemma {:induction false} NeverDies(seed: bv64, n: nat)
    ensures Draws(Seeded(seed), n) != ZERO
  {
    hide Seeded, Draws;
    if Draws(Seeded(seed), n) == ZERO {
      DrawsOfZero(n);
      DrawsInjective(Seeded(seed), ZERO, n);
      SeededWordsDiffer(seed);
    }
  }

  // ---- the output ----------------------------------------------------------

  function Rotr7(x: bv64): bv64 { (x >> 7) | (x << 57) }

  function Divide5(x: bv64): bv64 { x * 0xcccccccccccccccd }

  function Divide9(x: bv64): bv64 { x * 0x8e38e38e38e38e39 }

  /** Recovers the word from its scrambled form. */
  function Unscramble(y: bv64): bv64 {
    Divide5(Rotr7(Divide9(y)))
  }

  lemma Divide5Of(x: bv64) ensures Divide5(x * 5) == x && Times5(x * 0xcccccccccccccccd) == x {}

  lemma Divide9Of(x: bv64) ensures Divide9(x * 9) == x && Times9(x * 0x8e38e38e38e38e39) == x {}

  lemma Rotr7Of(x: bv64) ensures Rotr7((x << 7) | (x >> 57)) == x && Rotl7((x >> 7) | (x << 57)) == x {}

  lemma StagesInvert(x: bv64)
    ensures Divide5(Times5(x)) == x && Divide9(Times9(x)) == x && Rotr7(Rotl7(x)) == x
    ensures Times5(Divide5(x)) == x && Times9(Divide9(x)) == x && Rotl7(Rotr7(x)) == x
  {
    Divide5Of(x);
    Divide9Of(x);
    Rotr7Of(x);
  }

  /** The output is a bijection of the second word: each 64-bit value is the output for exactly one such word. */
  lemma OutputIsBijective(s: State, y: bv64)
    ensures Output(s) == y <==> s.s1 == Unscramble(y)
  {
    hide Times5, Times9, Divide5, Divide9, Rotl7, Rotr7;
    StagesInvert(s.s1);
    StagesInvert(Times5(s.s1));
    StagesInvert(Rotl7(Times5(s.s1)));
    StagesInvert(y);
    StagesInvert(Divide9(y));
    StagesInvert(Rotr7(Divide9(y)));
  }

  /** The first outputs of the published algorithm from the state 1, 2, 3, 4. */
  lemma ReferenceOutputs()
    ensures var s := State(1, 2, 3, 4);
      Output(s) == 11520 && Output(Draws(s, 1)) == 0 && Output(Draws(s, 2)) == 1509978240
      && Output(Draws(s, 3)) == 1215971899390074240
  {
    hide Next, Output;
    var s := State(1, 2, 3, 4);
    NoDraws(s);
    ReferenceSteps();
    assert Draws(s, 1) == Next(Draws(s, 0));
    assert Draws(s, 2) == Next(Draws(s, 1));
    assert Draws(s, 3) == Next(Draws(s, 2));
    ReferenceWords();
  }

  lemma ReferenceSteps()
    ensures Next(State(1, 2, 3, 4)) == State(7, 0, 0x0000_0000_0004_0002, 0x0000_C000_0000_0000)
    ensures Next(State(7, 0, 0x0000_0000_0004_0002, 0x0000_C000_0000_0000)) ==
      State(0x0000_C000_0000_0007, 0x0000_0000_0004_0005, 0x0000_0000_0004_0005, 0x0000_0000_1800_0000)
    ensures Next(State(0x0000_C000_0000_0007, 0x0000_0000_0004_0005, 0x0000_0000_0004_0005, 0x0000_0000_1800_0000)) ==
      State(0x0000_C000_1804_0002, 0x0000_C000_0000_0007, 0x0000_C008_000E_0002, 0x8000_A000_0000_0300)
  {
  }

  lemma ReferenceWords()
    ensures Output(State(1, 2, 3, 4)) == 11520 && Output(State(7, 0, 0x0000_0000_0004_0002, 0x0000_C000_0000_0000)) ==
      0
    ensures Output(State(0x0000_C000_0000_0007, 0x0000_0000_0004_0005, 0x0000_0000_0004_0005, 0x0000_0000_1800_0000)) ==
      1509978240
    ensures Output(State(0x0000_C000_1804_0002, 0x0000_C000_0000_0007, 0x0000_C008_000E_0002, 0x8000_A000_0000_0300)) ==
      1215971899390074240
  {
  }

  /** The state that the published seeding makes of 0. */
  lemma ReferenceSeed()
    ensures Seeded(0) == State(0xE220_A839_7B1D_CDAF, 0x6E78_9E6A_A1B9_65F4,
      0x06C4_5D18_8009_454F, 0xF88B_B8A8_724C_81EC)
  {
    hide Mix, Plus;
    ReferenceCounters();
    assert Advance(0, 0) == 0;
    assert Advance(0, 1) == Plus(Advance(0, 0));
    assert Advance(0, 2) == Plus(Advance(0, 1));
    assert Advance(0, 3) == Plus(Advance(0, 2));
    assert Advance(0, 4) == Plus(Advance(0, 3));
    ReferenceMixes();
  }

  lemma ReferenceCounters()
    ensures Plus(0) == 0x9E37_79B9_7F4A_7C15 && Plus(0x9E37_79B9_7F4A_7C15) == 0x3C6E_F372_FE94_F82A
    ensures Plus(0x3C6E_F372_FE94_F82A) == 0xDAA6_6D2C_7DDF_743F
    ensures Plus(0xDAA6_6D2C_7DDF_743F) == 0x78DD_E6E5_FD29_F054
  {
  }

  lemma ReferenceMixes()
    ensures Mix(0x9E37_79B9_7F4A_7C15) == 0xE220_A839_7B1D_CDAF
    ensures Mix(0x3C6E_F372_FE94_F82A) == 0x6E78_9E6A_A1B9_65F4
    ensures Mix(0xDAA6_6D2C_7DDF_743F) == 0x06C4_5D18_8009_454F
    ensures Mix(0x78DD_E6E5_FD29_F054) == 0xF88B_B8A8_724C_81EC
  {
  }

  /** The generator object: four words, changed in place. */
  class Xoshiro256 {
    const s: array<bv64>

    ghost predicate Valid()
    {
      s.Length == 4
    }

    ghost function Abs(): State
      requires Valid()
      reads s
    {
      State(s[0], s[1], s[2], s[3])
    }

    constructor ()
      ensures Valid() && fresh(s)
    {
      s := new bv64[4];
    }

    method Seed(seed0: bv64)
      requires Valid()
      modifies s
      ensures Abs() == Seeded(seed0)
    {
      hide Mix, Plus;
      var v := seed0;
      var i := 0;
      while i < 4
        invariant 0 <= i <= 4
        invariant v == Advance(seed0, i)
        invariant forall k :: 0 <= k < i ==> s[k] == Mix(Advance(seed0, k + 1))
      {
        v := Plus(v);
        s[i] := Finalise(v);
        i := i + 1;
      }
    }

    static method Finalise(v: bv64) returns (z: bv64)
      ensures z == Mix(v)
    {
      hide Fold30, Fold27, Fold31, Times1, Times2;
      z := v;
      z := Times1(Fold30(z));
      z := Times2(Fold27(z));
      z := Fold31(z);
    }

    method Draw() returns (result: bv64)
      requires Valid()
      modifies s
      ensures result == Output(old(Abs())) && Abs() == Next(old(Abs()))
    {
      hide Xor, Shl17, Rotl45, Scramble;
      result := Scramble(s[1]);
      var t := Shl17(s[1]);
      s[2] := Xor(s[2], s[0]);
      s[3] := Xor(s[3], s[1]);
      s[1] := Xor(s[1], s[2]);
      s[0] := Xor(s[0], s[3]);
      s[2] := Xor(s[2], t);
      s[3] := Rotl45(s[3]);
    }
  }
}
