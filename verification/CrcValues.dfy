/** What the two complements of CRC32C are for: the check value, the residue, and messages of zeros. */
module CrcValues {
  import opened Crc32c
  import opened CrcDistance
  import opened Sequences

  // ---- the check value -----------------------------------------------------

  /** One more byte takes the register through eight steps. */
  lemma ByteFed(c: bv32, b: bv8)
    ensures Serial(c, Bits(Wide(b), 8)) == Repeat(Xor(c, Wide(b)), 8)
  {
    hide Xor, Wide, Repeat, Serial, Bits, Shifted;
    RepeatIsSerial(c, Wide(b), 8);
    ByteShiftedOut(b);
    XorLaws(Serial(c, Bits(Wide(b), 8)), 0);
  }

  lemma Fed(start: bv32, data: seq<bv8>, b: bv8, before: bv32, after: bv32)
    requires Serial(start, DataBits(data)) == before && Repeat(Xor(before, Wide(b)), 8) == after
    ensures Serial(start, DataBits(data + [b])) == after
  {
    hide Xor, Wide, Repeat, Serial, DataBits, Bits;
    SerialData(start, data, [b]);
    OneByte(b);
    ByteFed(before, b);
  }

  lemma ThreeDigits()
    ensures Serial(0xFFFF_FFFF, DataBits([0x31, 0x32, 0x33])) == 0xEF84_D04D
  {
    hide Serial, DataBits;
    NoData(0xFFFF_FFFF);
    Fed(0xFFFF_FFFF, [], 0x31, 0xFFFF_FFFF, 0x6F0A_661C);
    assert [] + [0x31 as bv8] == [0x31];
    Fed(0xFFFF_FFFF, [0x31], 0x32, 0x6F0A_661C, 0x8CAA_3B9F);
    assert [0x31 as bv8] + [0x32] == [0x31, 0x32];
    Fed(0xFFFF_FFFF, [0x31, 0x32], 0x33, 0x8CAA_3B9F, 0xEF84_D04D);
    assert [0x31 as bv8, 0x32] + [0x33] == [0x31, 0x32, 0x33];
  }

  lemma SixDigits()
    ensures Serial(0xFFFF_FFFF, DataBits([0x31, 0x32, 0x33, 0x34, 0x35, 0x36])) == 0xBECA_8E79
  {
    hide Serial, DataBits;
    ThreeDigits();
    Fed(0xFFFF_FFFF, [0x31, 0x32, 0x33], 0x34, 0xEF84_D04D, 0x09C5_0B11);
    assert [0x31 as bv8, 0x32, 0x33] + [0x34] == [0x31, 0x32, 0x33, 0x34];
    Fed(0xFFFF_FFFF, [0x31, 0x32, 0x33, 0x34], 0x35, 0x09C5_0B11, 0xE72E_DCCA);
    assert [0x31 as bv8, 0x32, 0x33, 0x34] + [0x35] == [0x31, 0x32, 0x33, 0x34, 0x35];
    Fed(0xFFFF_FFFF, [0x31, 0x32, 0x33, 0x34, 0x35], 0x36, 0xE72E_DCCA, 0xBECA_8E79);
    assert [0x31 as bv8, 0x32, 0x33, 0x34, 0x35] + [0x36] == [0x31, 0x32, 0x33, 0x34, 0x35, 0x36];
  }

  lemma NineDigits()
    ensures Serial(0xFFFF_FFFF, DataBits([0x31, 0x32, 0x33, 0x34, 0x35, 0x36, 0x37, 0x38, 0x39])) == 0x1CF9_6D7C
  {
    hide Serial, DataBits;
    SixDigits();
    var d: seq<bv8> := [0x31, 0x32, 0x33, 0x34, 0x35, 0x36];
    Fed(0xFFFF_FFFF, d, 0x37, 0xBECA_8E79, 0xEDBD_6815);
    Fed(0xFFFF_FFFF, d + [0x37], 0x38, 0xEDBD_6815, 0x9F78_7F65);
    Fed(0xFFFF_FFFF, d + [0x37] + [0x38], 0x39, 0x9F78_7F65, 0x1CF9_6D7C);
    assert d + [0x37] + [0x38] + [0x39] == [0x31, 0x32, 0x33, 0x34, 0x35, 0x36, 0x37, 0x38, 0x39];
  }

  /** The check value of CRC32C: the checksum of the digits 1 to 9. */
  lemma CheckValue()
    ensures Crc([0x31, 0x32, 0x33, 0x34, 0x35, 0x36, 0x37, 0x38, 0x39], 0) == 0xE306_9283
  {
    hide Serial, DataBits;
    NineDigits();
  }

  // ---- the residue ---------------------------------------------------------

  /** The four bytes of a word, lowest first. */
  function LittleEndianBytes(w: bv32): seq<bv8> {
    [ToByte(w), ToByte(Shr8(w)), ToByte(Shr8(Shr8(w))), ToByte(Shr8(Shr8(Shr8(w))))]
  }

  lemma ShiftedByte(w: bv32)
    ensures Shifted(w, 8) == Shr8(w)
  {
    hide Shifted;
    EightHalves(w);
  }

  /** Words that agree below position n have the same n low bits. */
  lemma {:induction false} SameLowBits(a: bv32, b: bv32, n: nat)
    requires LowZero(Xor(a, b), n)
    ensures Bits(a, n) == Bits(b, n)
    decreases n
  {
    hide Xor, Half, Odd;
    if n > 0 {
      OddXor(a, b);
      HalfXor(a, b);
      SameLowBits(Half(a), Half(b), n - 1);
    }
  }

  lemma LowByteBits(w: bv32)
    ensures Bits(Wide(ToByte(w)), 8) == Bits(w, 8)
  {
    hide Xor, Bits, LowZero, Low8, High24, Wide, ToByte;
    ByteOfLow(w);
    Split(w);
    XorLaws(High24(w), Low8(w));
    HighLowZero(w);
    SameLowBits(w, Low8(w), 8);
  }

  lemma {:induction false} BitsInTwo(w: bv32, m: nat, n: nat)
    ensures Bits(w, m + n) == Bits(w, m) + Bits(Shifted(w, m), n)
    decreases m
  {
    hide Half, Odd;
    if m == 0 {
      assert Bits(w, 0) == [];
    } else {
      BitsInTwo(Half(w), m - 1, n);
    }
  }

  /** The bytes of a word have the bits of the word. */
  lemma WordBits(w: bv32)
    ensures DataBits(LittleEndianBytes(w)) == Bits(w, 32)
  {
    hide Bits, DataBits, ToByte, Shr8, Wide, Shifted;
    var w1 := Shr8(w);
    var w2 := Shr8(w1);
    var w3 := Shr8(w2);
    ShiftedByte(w);
    ShiftedByte(w1);
    ShiftedByte(w2);
    BitsInTwo(w, 8, 24);
    BitsInTwo(w1, 8, 16);
    BitsInTwo(w2, 8, 8);
    LowByteBits(w);
    LowByteBits(w1);
    LowByteBits(w2);
    LowByteBits(w3);
    FourBytes(ToByte(w), ToByte(w1), ToByte(w2), ToByte(w3));
  }

  lemma FourBytes(a: bv8, b: bv8, c: bv8, d: bv8)
    ensures DataBits([a, b, c, d]) ==
      Bits(Wide(a), 8) + (Bits(Wide(b), 8) + (Bits(Wide(c), 8) + Bits(Wide(d), 8)))
  {
    hide Bits, Wide, DataBits;
    OneByte(a);
    OneByte(b);
    OneByte(c);
    OneByte(d);
    DataBitsAppend([c], [d]);
    assert [c] + [d] == [c, d];
    DataBitsAppend([b], [c, d]);
    assert [b] + [c, d] == [b, c, d];
    DataBitsAppend([a], [b, c, d]);
    assert [a] + [b, c, d] == [a, b, c, d];
  }

  lemma OnesRepeated()
    ensures Repeat(0xFFFF_FFFF, 32) == 0xB798_B438
  {
    assert Repeat(0xFFFF_FFFF, 8) == 0xAD82_ACAE;
    assert Repeat(0xAD82_ACAE, 8) == 0x0E9E_882D;
    assert Repeat(0x0E9E_882D, 8) == 0x9F9B_5C85;
    assert Repeat(0x9F9B_5C85, 8) == 0xB798_B438;
    hide Repeat;
    RepeatAdd(0xFFFF_FFFF, 8, 8);
    RepeatAdd(0xFFFF_FFFF, 16, 8);
    RepeatAdd(0xFFFF_FFFF, 24, 8);
  }

  /** Taking in its own complement leaves any register in the same state. */
  lemma OwnComplement(c: bv32)
    ensures Serial(c, Bits(Not(c), 32)) == Repeat(0xFFFF_FFFF, 32)
  {
    hide Xor, Not, Repeat, Serial, Bits, Shifted;
    RepeatIsSerial(c, Not(c), 32);
    AllShiftedOut(Not(c));
    XorLaws(Serial(c, Bits(Not(c), 32)), 0);
    XorNot(c);
  }

  lemma XorNot(c: bv32)
    ensures Xor(c, Not(c)) == 0xFFFF_FFFF
  {
  }

  /** A message followed by its checksum always has the same checksum, the residue: whoever stores both can check them
      in one go. */
  lemma Residue(x: seq<bv8>, initial: bv32)
    ensures Crc(x + LittleEndianBytes(Crc(x, initial)), initial) == 0x4867_4BC7
  {
    hide Serial, DataBits, Not, LittleEndianBytes, Repeat, Bits;
    var c := Serial(Not(initial), DataBits(x));
    SerialData(Not(initial), x, LittleEndianBytes(Not(c)));
    WordBits(Not(c));
    OwnComplement(c);
    OnesRepeated();
    ResidueIs();
  }

  lemma ResidueIs()
    ensures Not(0xB798_B438) == 0x4867_4BC7
  {
  }

  // ---- messages of zeros ---------------------------------------------------

  function Zeros(n: nat): seq<bv8> {
    seq(n, _ => 0)
  }

  lemma {:induction false} ZerosFed(c: bv32, n: nat)
    ensures Serial(c, DataBits(Zeros(n))) == Repeat(c, 8 * n)
  {
    hide Serial, DataBits, Repeat, Xor, Wide, Bits;
    if n == 0 {
      NoData(c);
      NoSteps(c);
    } else {
      ZerosFed(c, n - 1);
      assert Zeros(n) == Zeros(n - 1) + [0];
      SerialData(c, Zeros(n - 1), [0]);
      OneByte(0);
      ByteFed(Repeat(c, 8 * n - 8), 0);
      ZeroByte(Repeat(c, 8 * n - 8));
      RepeatAdd(c, 8 * n - 8, 8);
    }
  }

  lemma NoSteps(c: bv32)
    ensures Repeat(c, 0) == c
  {
  }

  lemma ZeroByte(c: bv32)
    ensures Xor(c, Wide(0)) == c
  {
  }

  lemma OnesMove()
    ensures BitStep(0xFFFF_FFFF) != 0xFFFF_FFFF
  {
  }

  /** Only a number of zero bytes that 2^31 - 1 divides has the checksum 0; so a block that was wiped, its checksum
      field included, does not check. */
  lemma ZerosChecksum(n: nat)
    ensures Crc(Zeros(n), 0) == 0 <==> n % PERIOD == 0
  {
    hide Serial, DataBits, Repeat, BitStep;
    ZerosFed(0xFFFF_FFFF, n);
    ReturnsExactly(0xFFFF_FFFF, 8 * n);
    OnesMove();
    EightTimes(n);
  }

  lemma EightTimes(n: nat)
    ensures (8 * n) % PERIOD == 0 <==> n % PERIOD == 0
  {
  }
}
