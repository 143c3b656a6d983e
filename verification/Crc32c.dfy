/** CRC32C (Castagnoli): the table form and the 8-byte hardware form against the bit-serial definition. */
module Crc32c {
  import opened Sequences

  // ---- 32-bit words --------------------------------------------------------

  const POLY: bv32 := 0x82F6_3B78

  function Xor(a: bv32, b: bv32): bv32 { a ^ b }

  function Not(a: bv32): bv32 { !a }

  function Half(a: bv32): bv32 { a >> 1 }

  function Odd(a: bv32): bool { a & 1 == 1 }

  function Low8(a: bv32): bv32 { a & 0xFF }

  function High24(a: bv32): bv32 { a & 0xFFFF_FF00 }

  function Wide(b: bv8): bv32 { b as bv32 }

  lemma XorLaws(a: bv32, b: bv32)
    ensures Xor(a, b) == Xor(b, a) && Xor(Xor(a, b), b) == a && Xor(a, a) == 0 && Xor(a, 0) == a && Xor(0, a) == a
  {
  }

  lemma XorIs(a: bv32, b: bv32) ensures Xor(a, b) == a ^ b {}

  lemma XorAssocOf(a: bv32, b: bv32, c: bv32) ensures Xor(a ^ b, c) == Xor(a, b ^ c) {}

  lemma XorAssoc(a: bv32, b: bv32, c: bv32)
    ensures Xor(Xor(a, b), c) == Xor(a, Xor(b, c))
  {
    hide Xor;
    XorIs(a, b);
    XorIs(b, c);
    XorAssocOf(a, b, c);
  }

  lemma NotNot(a: bv32) ensures Not(Not(a)) == a {}

  lemma HalfIs(a: bv32) ensures Half(a) == a >> 1 {}

  lemma HalfXorOf(a: bv32, b: bv32) ensures Half(a ^ b) == Xor(a >> 1, b >> 1) {}

  lemma HalfXor(a: bv32, b: bv32)
    ensures Half(Xor(a, b)) == Xor(Half(a), Half(b))
  {
    hide Half, Xor;
    HalfIs(a);
    HalfIs(b);
    XorIs(a, b);
    HalfXorOf(a, b);
  }

  lemma OddXorOf(a: bv32, b: bv32) ensures Odd(a ^ b) == (Odd(a) != Odd(b)) {}

  lemma OddXor(a: bv32, b: bv32)
    ensures Odd(Xor(a, b)) == (Odd(a) != Odd(b))
  {
    hide Odd, Xor;
    XorIs(a, b);
    OddXorOf(a, b);
  }

  /** The top bit is clear. */
  predicate TopClear(a: bv32) { a < 0x8000_0000 }

  lemma TopOfHalf(a: bv32) ensures TopClear(Half(a)) {}

  lemma TopOfReduced(a: bv32)
    requires TopClear(a)
    ensures !TopClear(Xor(a, POLY))
  {
  }

  lemma ZeroOrOne(a: bv32)
    ensures Half(a) == 0 && !Odd(a) ==> a == 0
    ensures Half(0) == 0 && !Odd(0) && Half(1) == 0 && Odd(1)
  {
  }

  lemma SameParts(a: bv32, b: bv32)
    requires Half(a) == Half(b) && Odd(a) == Odd(b)
    ensures a == b
  {
  }

  lemma Split(a: bv32) ensures Xor(Low8(a), High24(a)) == a {}

  // ---- the bit-serial definition -------------------------------------------

  /** One shift of the register, reduced by the reflected polynomial. */
  function BitStep(c: bv32): bv32 {
    if Odd(c) then Xor(Half(c), POLY) else Half(c)
  }

  function Repeat(c: bv32, n: nat): bv32
    decreases n
  {
    if n == 0 then c else Repeat(BitStep(c), n - 1)
  }

  /** The register takes in one message bit. */
  function BitIn(c: bv32, bit: bool): bv32 {
    BitStep(Xor(c, if bit then 1 else 0))
  }

  function Serial(c: bv32, bits: seq<bool>): bv32
    decreases |bits|
  {
    if bits == [] then c else Serial(BitIn(c, bits[0]), bits[1..])
  }

  /** The n low bits of w, least significant first. */
  function Bits(w: bv32, n: nat): (b: seq<bool>)
    ensures |b| == n
    decreases n
  {
    if n == 0 then [] else [Odd(w)] + Bits(Half(w), n - 1)
  }

  function DataBits(data: seq<bv8>): (b: seq<bool>)
    ensures |b| == 8 * |data|
  {
    if data == [] then [] else Bits(Wide(data[0]), 8) + DataBits(data[1..])
  }

  /** CRC32C: the bits of the bytes, least significant first, into a complemented register. */
  function Crc(data: seq<bv8>, initial: bv32): bv32 {
    Not(Serial(Not(initial), DataBits(data)))
  }

  // ---- linearity -----------------------------------------------------------

  lemma BitStepXor(a: bv32, b: bv32)
    ensures BitStep(Xor(a, b)) == Xor(BitStep(a), BitStep(b))
  {
    hide Xor, Half, Odd;
    HalfXor(a, b);
    OddXor(a, b);
    var x, y := Half(a), Half(b);
    XorAssoc(x, y, POLY);
    XorAssoc(x, POLY, y);
    XorLaws(POLY, y);
    XorLaws(y, POLY);
    XorAssoc(x, POLY, Xor(y, POLY));
    XorAssoc(POLY, POLY, y);
    XorLaws(POLY, POLY);
    XorLaws(Xor(y, POLY), POLY);
    XorLaws(POLY, Xor(y, POLY));
  }

  lemma {:induction false} RepeatXor(a: bv32, b: bv32, n: nat)
    ensures Repeat(Xor(a, b), n) == Xor(Repeat(a, n), Repeat(b, n))
    decreases n
  {
    hide Xor, BitStep;
    if n == 0 {
    } else {
      BitStepXor(a, b);
      RepeatXor(BitStep(a), BitStep(b), n - 1);
    }
  }

  lemma BitStepInjective(a: bv32, b: bv32)
    requires BitStep(a) == BitStep(b)
    ensures a == b
  {
    TopOfHalf(a);
    TopOfHalf(b);
    TopOfReduced(Half(a));
    TopOfReduced(Half(b));
    XorLaws(Half(a), POLY);
    XorLaws(Half(b), POLY);
    hide Half, Odd, Xor;
    SameParts(a, b);
  }

  // ---- the table form ------------------------------------------------------

  /** Shifting an even-only part is all a step does to it. */
  lemma EvenStep(w: bv32)
    ensures BitStep(Xor(w, Bit0(w))) == Half(w)
  {
    hide Xor, Half, Odd;
    OddXor(w, Bit0(w));
    HalfXor(w, Bit0(w));
    Bit0Parts(w);
    XorLaws(Half(w), 0);
  }

  function Bit0(w: bv32): bv32 { if Odd(w) then 1 else 0 }

  lemma Bit0Parts(w: bv32)
    ensures Half(Bit0(w)) == 0 && Odd(Bit0(w)) == Odd(w)
  {
    ZeroOrOne(w);
  }

  /** A step with the whole word mixed in is the step with its lowest bit, and the other bits moved down. */
  lemma StepMixed(c: bv32, w: bv32)
    ensures BitStep(Xor(c, w)) == Xor(BitIn(c, Odd(w)), Half(w))
  {
    var b := Bit0(w);
    hide Xor, Half, Odd, BitStep;
    EvenStep(w);
    // c ^ w = (c ^ b) ^ (w ^ b)
    XorLaws(w, b);
    XorAssoc(c, b, Xor(w, b));
    XorLaws(b, Xor(w, b));
    BitStepXor(Xor(c, b), Xor(w, b));
  }

  function Shifted(w: bv32, n: nat): bv32
    decreases n
  {
    if n == 0 then w else Shifted(Half(w), n - 1)
  }

  /** n steps with a word mixed in at the start: its n low bits go in serially, the rest is moved down. */
  lemma {:induction false} RepeatIsSerial(c: bv32, w: bv32, n: nat)
    ensures Repeat(Xor(c, w), n) == Xor(Serial(c, Bits(w, n)), Shifted(w, n))
    decreases n
  {
    hide Xor, Half, Odd, BitStep, BitIn;
    if n == 0 {
    } else {
      StepMixed(c, w);
      RepeatIsSerial(BitIn(c, Odd(w)), Half(w), n - 1);
      assert Bits(w, n)[1..] == Bits(Half(w), n - 1);
    }
  }

  lemma ShiftedEight(w: bv32)
    ensures Shifted(w, 8) == Half(Half(Half(Half(Half(Half(Half(Half(w))))))))
  {
    hide Half;
    assert Shifted(w, 4 + 4) == Shifted(Half(Half(Half(Half(w)))), 4);
  }

  lemma HalvesCompose(x: bv32)
    ensures Half(x) == x >> 1 && Half(x >> 1) == x >> 2 && Half(x >> 2) == x >> 3 && Half(x >> 3) == x >> 4
    ensures Half(x >> 4) == x >> 5 && Half(x >> 5) == x >> 6 && Half(x >> 6) == x >> 7 && Half(x >> 7) == x >> 8
  {
  }

  lemma EightHalves(x: bv32)
    ensures Shifted(x, 8) == x >> 8
  {
    hide Half;
    ShiftedEight(x);
    HalvesCompose(x);
  }

  function Shr8(a: bv32): bv32 { a >> 8 }

  lemma ByteShiftedOut(b: bv8)
    ensures Shifted(Wide(b), 8) == 0
  {
    EightHalves(Wide(b));
  }

  lemma HighShifted(a: bv32, b: bv8)
    ensures Shifted(High24(a), 8) == Shr8(a)
    ensures High24(Xor(a, Wide(b))) == High24(a)
  {
    EightHalves(High24(a));
  }

  predicate LowZero(w: bv32, n: nat)
    decreases n
  {
    n == 0 || (!Odd(w) && LowZero(Half(w), n - 1))
  }

  lemma {:induction false} RepeatShifts(w: bv32, n: nat)
    requires LowZero(w, n)
    ensures Repeat(w, n) == Shifted(w, n)
    decreases n
  {
    hide Xor, Half, Odd;
    if n == 0 {
    } else {
      RepeatShifts(Half(w), n - 1);
    }
  }

  /** The n low bits of m are all set. */
  predicate Ones(m: bv32, n: nat)
    decreases n
  {
    n == 0 || (Odd(m) && Ones(Half(m), n - 1))
  }

  predicate Apart(w: bv32, m: bv32) { w & m == 0 }

  lemma ApartStep(w: bv32, m: bv32)
    requires Apart(w, m) && Odd(m)
    ensures !Odd(w) && Apart(Half(w), Half(m))
  {
  }

  lemma {:induction false} MaskedLowZero(w: bv32, m: bv32, n: nat)
    requires Apart(w, m) && Ones(m, n)
    ensures LowZero(w, n)
    decreases n
  {
    hide Apart, Odd, Half;
    if n == 0 {
    } else {
      ApartStep(w, m);
      MaskedLowZero(Half(w), Half(m), n - 1);
    }
  }

  lemma EightOnes()
    ensures Ones(0xFF, 8)
  {
    assert Half(0xFF) == 0x7F && Half(0x7F) == 0x3F && Half(0x3F) == 0x1F && Half(0x1F) == 0xF;
    assert Ones(0xF, 4) by { assert Half(0xF) == 7 && Half(7) == 3 && Half(3) == 1; }
    assert Odd(0xFF) && Odd(0x7F) && Odd(0x3F) && Odd(0x1F);
    hide Half, Odd;
    assert Ones(0x3F, 6);
  }

  lemma HighApart(a: bv32) ensures Apart(High24(a), 0xFF) {}

  lemma HighLowZero(a: bv32)
    ensures LowZero(High24(a), 8)
  {
    hide Apart, Ones, High24, LowZero;
    HighApart(a);
    EightOnes();
    MaskedLowZero(High24(a), 0xFF, 8);
  }

  /** The table entry for an index, and the byte step that uses it. */
  function Entry(index: bv8): bv32 {
    Repeat(Wide(index), 8)
  }

  function ToByte(a: bv32): bv8 { (a & 0xFF) as bv8 }

  function TableIndex(crc: bv32, b: bv8): bv8 {
    ToByte(Xor(crc, Wide(b)))
  }

  lemma ByteOfLow(a: bv32) ensures Wide(ToByte(a)) == Low8(a) {}

  /** One table look-up takes in the eight bits of a byte. */
  lemma TableStep(crc: bv32, b: bv8)
    ensures Xor(Entry(TableIndex(crc, b)), Shr8(crc)) == Serial(crc, Bits(Wide(b), 8))
  {
    hide Xor, High24, Low8, Wide, ToByte, Shr8, Repeat, Serial, Bits, Shifted, LowZero;
    var x := Xor(crc, Wide(b));
    RepeatIsSerial(crc, Wide(b), 8);
    ByteShiftedOut(b);
    XorLaws(Serial(crc, Bits(Wide(b), 8)), 0);
    Split(x);
    RepeatXor(Low8(x), High24(x), 8);
    HighLowZero(x);
    RepeatShifts(High24(x), 8);
    HighShifted(crc, b);
    ByteOfLow(x);
  }

  lemma {:induction false} SerialAppend(c: bv32, a: seq<bool>, b: seq<bool>)
    ensures Serial(c, a + b) == Serial(Serial(c, a), b)
    decreases |a|
  {
    hide BitIn;
    if a == [] {
      assert a + b == b;
    } else {
      assert (a + b)[1..] == a[1..] + b;
      SerialAppend(BitIn(c, a[0]), a[1..], b);
    }
  }

  lemma {:induction false} DataBitsAppend(a: seq<bv8>, b: seq<bv8>)
    ensures DataBits(a + b) == DataBits(a) + DataBits(b)
    decreases |a|
  {
    hide Bits, Wide;
    if a == [] {
      assert a + b == b;
      assert DataBits(a) + DataBits(b) == DataBits(b);
    } else {
      assert (a + b)[1..] == a[1..] + b;
      DataBitsAppend(a[1..], b);
      var h := Bits(Wide(a[0]), 8);
      assert (h + DataBits(a[1..])) + DataBits(b) == h + (DataBits(a[1..]) + DataBits(b));
    }
  }

  lemma SerialData(c: bv32, a: seq<bv8>, b: seq<bv8>)
    ensures Serial(c, DataBits(a + b)) == Serial(Serial(c, DataBits(a)), DataBits(b))
  {
    hide Serial, DataBits;
    DataBitsAppend(a, b);
    SerialAppend(c, DataBits(a), DataBits(b));
  }

  lemma OneByte(b: bv8)
    ensures DataBits([b]) == Bits(Wide(b), 8)
  {
    hide Bits, Wide;
    assert DataBits([b]) == Bits(Wide(b), 8) + DataBits([]);
  }

  ghost predicate Filled(t: seq<bv32>) {
    |t| == 256 && forall b: bv8 :: t[b as int] == Entry(b)
  }

  class SoftwareCrc {
    const table: array<bv32>
    var initialized: bool

    ghost predicate Valid()
      reads this, table
    {
      table.Length == 256 && (initialized ==> Filled(table[..]))
    }

    constructor ()
      ensures Valid() && fresh(table)
    {
      table := new bv32[256];
      initialized := false;
    }

    /** init_sw_table. */
    method InitTable()
      requires Valid()
      modifies this, table
      ensures Valid() && initialized && Filled(table[..])
    {
      hide Entry, Wide;
      if initialized { return; }
      var i := 0;
      while i < 256
        invariant 0 <= i <= 256
        invariant forall b: bv8 :: b as int < i ==> table[b as int] == Entry(b)
      {
        var crc := EntryLoop(i as bv8);
        ghost var before := table[..];
        table[i] := crc;
        forall b: bv8 | b as int < i + 1 ensures table[b as int] == Entry(b) {
          if b as int == i { assert i as bv8 == b; } else { assert table[b as int] == before[b as int]; }
        }
        i := i + 1;
      }
      initialized := true;
    }

    static method EntryLoop(i: bv8) returns (crc: bv32)
      ensures crc == Entry(i)
    {
      hide Odd, Half, Xor, Wide;
      crc := Wide(i);
      var j := 0;
      while j < 8
        invariant 0 <= j <= 8
        invariant Repeat(crc, 8 - j) == Entry(i)
      {
        if Odd(crc) {
          crc := Xor(Half(crc), POLY);
        } else {
          crc := Half(crc);
        }
        j := j + 1;
      }
    }

    /** crc32c_software: the table form equals the bit-serial definition. */
    method Compute(data: seq<bv8>, initial: bv32) returns (crc: bv32)
      requires Valid()
      modifies this, table
      ensures Valid()
      ensures crc == Crc(data, initial)
    {
      hide Xor, Shr8, Entry, TableIndex, Serial, DataBits, Not;
      InitTable();
      crc := Not(initial);
      var i := 0;
      NoData(crc);
      assert data[..0] == [];
      while i < |data|
        invariant 0 <= i <= |data| && Filled(table[..])
        invariant crc == Serial(Not(initial), DataBits(data[..i]))
      {
        var index := TableIndex(crc, data[i]);
        assert table[index as int] == table[..][index as int];
        NextByte(Not(initial), data, i, crc);
        crc := Xor(table[index as int], Shr8(crc));
        i := i + 1;
      }
      assert data[..i] == data;
      crc := Not(crc);
    }
  }

  lemma NoData(c: bv32)
    ensures Serial(c, DataBits([])) == c
  {
  }

  lemma NextByte(c: bv32, data: seq<bv8>, i: nat, crc: bv32)
    requires i < |data| && crc == Serial(c, DataBits(data[..i]))
    ensures Serial(crc, Bits(Wide(data[i]), 8)) == Serial(c, DataBits(data[..i + 1]))
    ensures Xor(Entry(TableIndex(crc, data[i])), Shr8(crc)) == Serial(c, DataBits(data[..i + 1]))
  {
    hide Xor, Shr8, Entry, TableIndex, Serial, DataBits, Bits, Wide;
    assert data[..i + 1] == data[..i] + [data[i]];
    SerialData(c, data[..i], [data[i]]);
    OneByte(data[i]);
    TableStep(crc, data[i]);
  }

  // ---- the hardware form ---------------------------------------------------

  function Low32(x: bv64): bv32 { (x & 0xFFFF_FFFF) as bv32 }

  function Widen(x: bv32): bv64 { x as bv64 }

  /** ~static_cast<uint64_t>(x): the upper half becomes all ones. */
  function NotWide(x: bv32): bv64 { !(x as bv64) }

  lemma WidenLow(x: bv32)
    ensures Low32(Widen(x)) == x && Low32(NotWide(x)) == Not(x)
  {
  }

  /** _mm_crc32_u64: eight bytes go into the low half of the register, the upper half of the result is zero. */
  function Crc32U64(crc: bv64, val: seq<bv8>): bv64
    requires |val| == 8
  {
    Widen(Serial(Low32(crc), DataBits(val)))
  }

  /** _mm_crc32_u8. */
  function Crc32U8(crc: bv32, val: bv8): bv32 {
    Serial(crc, Bits(Wide(val), 8))
  }

  /** crc32c_hardware: eight bytes at a time, then the rest one by one. */
  method HardwareCrc(data: seq<bv8>, initial: bv32) returns (result: bv32)
    ensures result == Crc(data, initial)
  {
    hide Low32, Widen, NotWide, Serial, DataBits, Bits, Wide, Not;
    ghost var start := Not(initial);
    var crc := NotWide(initial);
    WidenLow(initial);
    var p, length := 0, |data|;
    assert data[..0] == [];
    NoData(start);
    while length >= 8
      invariant 0 <= p && 0 <= length && p + length == |data|
      invariant Low32(crc) == Serial(start, DataBits(data[..p]))
      decreases length
    {
      var val := data[p..p + 8];
      assert data[..p + 8] == data[..p] + val;
      SerialData(start, data[..p], val);
      crc := Crc32U64(crc, val);
      WidenLow(Serial(start, DataBits(data[..p + 8])));
      p := p + 8;
      length := length - 8;
    }
    while length > 0
      invariant 0 <= p && 0 <= length && p + length == |data|
      invariant Low32(crc) == Serial(start, DataBits(data[..p]))
      decreases length
    {
      NextByte(start, data, p, Low32(crc));
      crc := Widen(Crc32U8(Low32(crc), data[p]));
      WidenLow(Serial(start, DataBits(data[..p + 1])));
      p := p + 1;
      length := length - 1;
    }
    assert data[..p] == data;
    result := Not(Low32(crc));
  }

  // ---- incremental use -----------------------------------------------------

  /** Feeding a second piece with the checksum of the first is the checksum of both. */
  lemma Incremental(a: seq<bv8>, b: seq<bv8>, initial: bv32)
    ensures Crc(a + b, initial) == Crc(b, Crc(a, initial))
  {
    hide Serial, DataBits, Not;
    SerialData(Not(initial), a, b);
    NotNot(Serial(Not(initial), DataBits(a)));
  }

  // ---- error detection -----------------------------------------------------

  lemma BitInInjective(a: bv32, b: bv32, bit: bool)
    requires BitIn(a, bit) == BitIn(b, bit)
    ensures a == b
  {
    hide BitStep, Xor;
    var m: bv32 := if bit then 1 else 0;
    BitStepInjective(Xor(a, m), Xor(b, m));
    XorLaws(a, m);
    XorLaws(b, m);
  }

  /** Different registers stay different whatever common bits follow. */
  lemma {:induction false} SerialInjective(a: bv32, b: bv32, bits: seq<bool>)
    requires Serial(a, bits) == Serial(b, bits)
    ensures a == b
    decreases |bits|
  {
    hide BitIn;
    if bits == [] {
    } else {
      SerialInjective(BitIn(a, bits[0]), BitIn(b, bits[0]), bits[1..]);
      BitInInjective(a, b, bits[0]);
    }
  }

  /** d has no bit at position k or above. */
  predicate Small(d: bv32, k: nat)
    decreases k
  {
    if k == 0 then d == 0 else Small(Half(d), k - 1)
  }

  /** 2^k as a word. */
  function Weight(k: nat): bv32 {
    if k == 0 then 1 else Twice(Weight(k - 1))
  }

  function Twice(a: bv32): bv32 { a + a }

  lemma HalfReaches(d: bv32, t: bv32)
    requires t < 0x8000_0000 && d >= Twice(t)
    ensures Half(d) >= t
  {
  }

  lemma {:induction false} WeightGrows(k: nat)
    requires k <= 31
    ensures 0 < Weight(k) && (k < 31 ==> Weight(k) < 0x8000_0000)
  {
    WeightTable();
  }

  lemma WeightTable()
    ensures Weight(31) == 0x8000_0000
    ensures forall k :: 0 <= k < 31 ==> 0 < Weight(k) < 0x8000_0000
  {
    assert Weight(8) == 0x100;
    assert Weight(16) == 0x1_0000;
    assert Weight(24) == 0x100_0000;
  }

  lemma WeightStep(k: nat)
    requires k > 0
    ensures Weight(k) == Twice(Weight(k - 1))
  {
  }

  lemma {:induction false} BigIsNotSmall(d: bv32, k: nat, j: nat)
    requires k <= j <= 31 && d >= Weight(j)
    ensures !Small(d, k)
    decreases k
  {
    hide Half, Twice, Weight;
    WeightGrows(j);
    if k == 0 {
    } else {
      WeightGrows(j - 1);
      WeightStep(j);
      HalfReaches(d, Weight(j - 1));
      BigIsNotSmall(Half(d), k - 1, j - 1);
    }
  }

  lemma SmallTopClear(d: bv32, k: nat)
    requires Small(d, k) && k <= 31
    ensures TopClear(d)
  {
    WeightTable();
    if d >= 0x8000_0000 { BigIsNotSmall(d, k, 31); }
  }

  lemma BitWord(bit: bool)
    ensures Half(if bit then 1 else 0) == 0 && Odd(if bit then 1 else 0) == bit
  {
    ZeroOrOne(0);
  }

  /** A step whose result has a clear top bit was a plain shift. */
  lemma PlainShift(x: bv32)
    requires TopClear(BitStep(x))
    ensures !Odd(x) && BitStep(x) == Half(x)
  {
    TopOfHalf(x);
    TopOfReduced(Half(x));
  }

  /** The difference of two registers after one bit each. */
  lemma DifferenceStep(a: bv32, b: bv32, x: bool, y: bool)
    ensures var d := Xor(BitIn(a, x), BitIn(b, y)); TopClear(d) ==> Half(Xor(a, b)) == d && (a == b ==> x == y)
  {
    var m: bv32, n: bv32 := if x then 1 else 0, if y then 1 else 0;
    var u := Xor(Xor(a, m), Xor(b, n));
    hide BitStep, Xor, Half, Odd, TopClear;
    BitStepXor(Xor(a, m), Xor(b, n));
    if TopClear(BitStep(u)) {
      PlainShift(u);
      HalfXor(Xor(a, m), Xor(b, n));
      HalfXor(a, m);
      HalfXor(b, n);
      HalfXor(a, b);
      BitWord(x);
      BitWord(y);
      XorLaws(Half(a), 0);
      XorLaws(Half(b), 0);
      OddXor(Xor(a, m), Xor(b, n));
      OddXor(a, m);
      OddXor(b, n);
    }
  }

  /** If at most 32 bits bring two registers together, the registers were close, and equal only for equal bits. */
  lemma {:induction false} WindowSeparates(a: bv32, b: bv32, u: seq<bool>, v: seq<bool>)
    requires |u| == |v| <= 32 && Serial(a, u) == Serial(b, v)
    ensures Small(Xor(a, b), |u|) && (a == b ==> u == v)
    decreases |u|
  {
    hide Xor, BitIn, Half, TopClear;
    if u == [] {
      XorLaws(a, b);
    } else {
      var c, d := BitIn(a, u[0]), BitIn(b, v[0]);
      WindowSeparates(c, d, u[1..], v[1..]);
      SmallTopClear(Xor(c, d), |u| - 1);
      DifferenceStep(a, b, u[0], v[0]);
      if a == b {
        assert u == [u[0]] + u[1..] && v == [v[0]] + v[1..];
      }
    }
  }

  /** Two bit strings that differ, but only within a window of at most 32 bits, leave different registers. */
  lemma BurstSeparates(c: bv32, pre: seq<bool>, u: seq<bool>, v: seq<bool>, post: seq<bool>)
    requires |u| == |v| <= 32 && u != v
    ensures Serial(c, pre + u + post) != Serial(c, pre + v + post)
  {
    hide Serial, Small;
    SerialAppend(c, pre + u, post);
    SerialAppend(c, pre + v, post);
    SerialAppend(c, pre, u);
    SerialAppend(c, pre, v);
    var r := Serial(c, pre);
    if Serial(c, pre + u + post) == Serial(c, pre + v + post) {
      SerialInjective(Serial(r, u), Serial(r, v), post);
      WindowSeparates(r, r, u, v);
    }
  }

  /** Sequences that agree outside a window consist of common ends and different middles. */
  lemma WindowOfDifference<T>(b: seq<T>, c: seq<T>, lo: nat, hi: nat)
    requires |b| == |c| && b != c && lo <= hi <= |b|
    requires forall i :: 0 <= i < |b| && (i < lo || i >= hi) ==> b[i] == c[i]
    ensures b == b[..lo] + b[lo..hi] + b[hi..] && c == b[..lo] + c[lo..hi] + b[hi..]
    ensures b[lo..hi] != c[lo..hi]
  {
    assert b[..lo] == c[..lo] && b[hi..] == c[hi..];
    assert c == c[..lo] + c[lo..hi] + c[hi..];
  }

  lemma NotInjective(a: bv32, b: bv32)
    requires Not(a) == Not(b)
    ensures a == b
  {
    NotNot(a);
    NotNot(b);
    hide Not;
  }

  /** Messages of equal length whose bit strings differ, but only within 32 consecutive bits, always get different
      checksums: every burst error of up to 32 bits is detected, at any bit offset and for any initial value. */
  lemma DetectsBitBursts(x: seq<bv8>, y: seq<bv8>, initial: bv32, k: nat)
    requires |x| == |y| && DataBits(x) != DataBits(y)
    requires forall i :: 0 <= i < 8 * |x| && (i < k || i >= k + 32) ==> DataBits(x)[i] == DataBits(y)[i]
    ensures Crc(x, initial) != Crc(y, initial)
  {
    hide Serial, Not, DataBits;
    var b, c, n := DataBits(x), DataBits(y), 8 * |x|;
    var lo, hi := if k < n then k else n, if k + 32 < n then k + 32 else n;
    WindowOfDifference(b, c, lo, hi);
    BurstSeparates(Not(initial), b[..lo], b[lo..hi], c[lo..hi], b[hi..]);
    if Crc(x, initial) == Crc(y, initial) {
      NotInjective(Serial(Not(initial), b), Serial(Not(initial), c));
    }
  }

  lemma {:induction false} BitsInjective(w: bv32, v: bv32, n: nat)
    requires Bits(w, n) == Bits(v, n) && Shifted(w, n) == Shifted(v, n)
    ensures w == v
    decreases n
  {
    hide Odd, Half;
    if n == 0 {
    } else {
      assert Bits(w, n)[0] == Bits(v, n)[0];
      assert Bits(w, n)[1..] == Bits(v, n)[1..];
      BitsInjective(Half(w), Half(v), n - 1);
      SameParts(w, v);
    }
  }

  lemma WideInjective(a: bv8, b: bv8)
    requires Wide(a) == Wide(b)
    ensures a == b
  {
  }

  lemma ByteBitsInjective(a: bv8, b: bv8)
    requires Bits(Wide(a), 8) == Bits(Wide(b), 8)
    ensures a == b
  {
    hide Bits, Wide, Shifted;
    ByteShiftedOut(a);
    ByteShiftedOut(b);
    BitsInjective(Wide(a), Wide(b), 8);
    WideInjective(a, b);
  }

  lemma FirstByteBits(x: seq<bv8>)
    requires x != []
    ensures DataBits(x) == Bits(Wide(x[0]), 8) + DataBits(x[1..])
  {
    hide Bits, Wide;
  }

  /** Different bytes have different bits. */
  lemma {:induction false} DataBitsInjective(x: seq<bv8>, y: seq<bv8>)
    requires |x| == |y| && DataBits(x) == DataBits(y)
    ensures x == y
    decreases |x|
  {
    hide Bits, Wide, Shifted, DataBits;
    if x == [] {
    } else {
      FirstByteBits(x);
      FirstByteBits(y);
      SamePieces(Bits(Wide(x[0]), 8), DataBits(x[1..]), Bits(Wide(y[0]), 8), DataBits(y[1..]));
      ByteBitsInjective(x[0], y[0]);
      DataBitsInjective(x[1..], y[1..]);
      FirstAndRest(x);
      FirstAndRest(y);
    }
  }

  lemma DataBitsOfThree(a: seq<bv8>, b: seq<bv8>, c: seq<bv8>)
    ensures DataBits(a + b + c) == DataBits(a) + DataBits(b) + DataBits(c)
  {
    hide DataBits;
    DataBitsAppend(a + b, c);
    DataBitsAppend(a, b);
  }

  /** Messages of equal length that differ, but only within four consecutive bytes, always get different checksums. */
  lemma DetectsByteBursts(x: seq<bv8>, y: seq<bv8>, initial: bv32, k: nat)
    requires |x| == |y| && x != y
    requires forall i :: 0 <= i < |x| && (i < k || i >= k + 4) ==> x[i] == y[i]
    ensures Crc(x, initial) != Crc(y, initial)
  {
    hide Serial, Not, DataBits;
    var n := |x|;
    var lo, hi := if k < n then k else n, if k + 4 < n then k + 4 else n;
    var u, v := x[lo..hi], y[lo..hi];
    assert x == x[..lo] + u + x[hi..];
    assert y == x[..lo] + v + x[hi..] by {
      assert x[..lo] == y[..lo] && x[hi..] == y[hi..];
    }
    DataBitsOfThree(x[..lo], u, x[hi..]);
    DataBitsOfThree(x[..lo], v, x[hi..]);
    if DataBits(u) == DataBits(v) { DataBitsInjective(u, v); }
    BurstSeparates(Not(initial), DataBits(x[..lo]), DataBits(u), DataBits(v), DataBits(x[hi..]));
    if Crc(x, initial) == Crc(y, initial) {
      NotInjective(Serial(Not(initial), DataBits(x)), Serial(Not(initial), DataBits(y)));
    }
  }

  // ---- an odd number of wrong bits -----------------------------------------

  /** Whether the number of ones among the n low bits is odd. */
  function LowParity(w: bv32, n: nat): bool
    decreases n
  {
    if n == 0 then false else Odd(w) != LowParity(Half(w), n - 1)
  }

  function Parity(w: bv32): bool {
    LowParity(w, 32)
  }

  lemma {:induction false} LowParityXor(a: bv32, b: bv32, n: nat)
    ensures LowParity(Xor(a, b), n) == (LowParity(a, n) != LowParity(b, n))
    decreases n
  {
    hide Xor, Half, Odd;
    if n == 0 {
    } else {
      HalfXor(a, b);
      OddXor(a, b);
      LowParityXor(Half(a), Half(b), n - 1);
    }
  }

  /** The parity of one more bit. */
  lemma {:induction false} LowParityNext(w: bv32, n: nat)
    ensures LowParity(w, n + 1) == (LowParity(w, n) != Odd(Shifted(w, n)))
    decreases n
  {
    hide Half, Odd;
    if n == 0 {
      assert LowParity(Half(w), 0) == false;
    } else {
      LowParityNext(Half(w), n - 1);
    }
  }

  lemma {:induction false} ShiftedTwice(w: bv32, m: nat, n: nat)
    ensures Shifted(w, m + n) == Shifted(Shifted(w, m), n)
    decreases m
  {
    hide Half;
    if m == 0 {
    } else {
      ShiftedTwice(Half(w), m - 1, n);
    }
  }

  lemma AllShiftedOut(w: bv32)
    ensures Shifted(w, 32) == 0
  {
    hide Shifted;
    ShiftedTwice(w, 8, 24);
    ShiftedTwice(Shifted(w, 8), 8, 16);
    ShiftedTwice(Shifted(Shifted(w, 8), 8), 8, 8);
    EightHalves(w);
    EightHalves(w >> 8);
    EightHalves(w >> 8 >> 8);
    EightHalves(w >> 8 >> 8 >> 8);
    FourBytesOut(w);
  }

  lemma FourBytesOut(w: bv32)
    ensures w >> 8 >> 8 >> 8 >> 8 == 0
  {
  }

  lemma EvenZero()
    ensures !Odd(0)
  {
  }

  /** A shift moves the lowest bit out of the parity. */
  lemma ParityOfHalf(w: bv32)
    ensures Parity(w) == (Odd(w) != Parity(Half(w)))
  {
    hide Half, Odd, Shifted;
    ShiftedOnce(w);
    AllShiftedOut(w);
    LowParityNext(Half(w), 31);
    EvenZero();
  }

  lemma ShiftedOnce(w: bv32)
    ensures Shifted(Half(w), 31) == Shifted(w, 32)
  {
    hide Half;
  }

  lemma ParityOfConstants()
    ensures Parity(POLY) && Parity(1) && !Parity(0)
  {
    ParityZero(32);
    ParityOne();
    ParityPoly();
  }

  lemma {:induction false} ParityZero(n: nat)
    ensures !LowParity(0, n)
  {
    if n == 0 {
    } else {
      ParityZero(n - 1);
    }
  }

  lemma ParityOne()
    ensures Parity(1)
  {
    ParityZero(31);
    assert Half(1) == 0 && Odd(1);
  }

  lemma TwoBits(w: bv32, n: nat)
    ensures LowParity(w, n + 2) == ((Odd(w) != Odd(Half(w))) != LowParity(Half(Half(w)), n))
  {
    hide Half, Odd;
    assert LowParity(w, n + 2) == (Odd(w) != LowParity(Half(w), n + 1));
  }

  lemma FourBits(w: bv32, n: nat)
    ensures LowParity(w, n + 4) == (NibbleParity(w) != LowParity(Quarter(w), n))
  {
    hide Half, Odd, LowParity;
    TwoBits(w, n + 2);
    TwoBits(Half(Half(w)), n);
  }

  function NibbleParity(w: bv32): bool {
    (Odd(w) != Odd(Half(w))) != (Odd(Half(Half(w))) != Odd(Half(Half(Half(w)))))
  }

  function Quarter(w: bv32): bv32 {
    Half(Half(Half(Half(w))))
  }

  lemma PolyNibbles()
    ensures NibbleParity(0x82F6_3B78) && Quarter(0x82F6_3B78) == 0x082F_63B7
    ensures NibbleParity(0x082F_63B7) && Quarter(0x082F_63B7) == 0x0082_F63B
    ensures NibbleParity(0x0082_F63B) && Quarter(0x0082_F63B) == 0x0008_2F63
    ensures !NibbleParity(0x0008_2F63) && Quarter(0x0008_2F63) == 0x0000_82F6
    ensures !NibbleParity(0x0000_82F6) && Quarter(0x0000_82F6) == 0x0000_082F
    ensures !NibbleParity(0x0000_082F) && Quarter(0x0000_082F) == 0x0000_0082
    ensures NibbleParity(0x0000_0082) && Quarter(0x0000_0082) == 0x0000_0008
    ensures NibbleParity(0x0000_0008) && Quarter(0x0000_0008) == 0
  {
  }

  /** The generator polynomial has an odd number of coefficients below the leading one. */
  lemma ParityPoly()
    ensures Parity(POLY)
  {
    hide LowParity, NibbleParity, Quarter;
    PolyNibbles();
    FourBits(0x82F6_3B78, 28);
    FourBits(0x082F_63B7, 24);
    FourBits(0x0082_F63B, 20);
    FourBits(0x0008_2F63, 16);
    FourBits(0x0000_82F6, 12);
    FourBits(0x0000_082F, 8);
    FourBits(0x0000_0082, 4);
    FourBits(0x0000_0008, 0);
    NoBits();
  }

  lemma NoBits()
    ensures !LowParity(0, 0)
  {
  }

  /** A register step keeps the parity. */
  lemma StepKeepsParity(c: bv32)
    ensures Parity(BitStep(c)) == Parity(c)
  {
    hide Half, Odd, Xor, Parity;
    ParityOfHalf(c);
    if Odd(c) {
      ParityXor(Half(c), POLY);
      ParityOfConstants();
    }
  }

  lemma ParityXor(a: bv32, b: bv32)
    ensures Parity(Xor(a, b)) == (Parity(a) != Parity(b))
  {
    LowParityXor(a, b, 32);
  }

  lemma BitInParity(c: bv32, bit: bool)
    ensures Parity(BitIn(c, bit)) == (Parity(c) != bit)
  {
    hide Parity, BitStep, Xor;
    StepKeepsParity(Xor(c, if bit then 1 else 0));
    ParityXor(c, if bit then 1 else 0);
    ParityOfConstants();
  }

  /** At how many places two bit strings differ. */
  function Differences(u: seq<bool>, v: seq<bool>): nat
    requires |u| == |v|
  {
    if u == [] then 0 else (if u[0] != v[0] then 1 else 0) + Differences(u[1..], v[1..])
  }

  /** The parities of two registers come to differ exactly as often as the bits they take in. */
  lemma {:induction false} SerialParity(a: bv32, b: bv32, u: seq<bool>, v: seq<bool>)
    requires |u| == |v|
    ensures (Parity(Serial(a, u)) != Parity(Serial(b, v))) ==
      ((Parity(a) != Parity(b)) != (Differences(u, v) % 2 == 1))
    decreases |u|
  {
    hide Parity, BitIn;
    if u == [] {
    } else {
      SerialParity(BitIn(a, u[0]), BitIn(b, v[0]), u[1..], v[1..]);
      BitInParity(a, u[0]);
      BitInParity(b, v[0]);
    }
  }

  /** Messages of equal length that differ in an odd number of bits, wherever these are, always get different
      checksums. */
  lemma DetectsOddErrors(x: seq<bv8>, y: seq<bv8>, initial: bv32)
    requires |x| == |y| && Differences(DataBits(x), DataBits(y)) % 2 == 1
    ensures Crc(x, initial) != Crc(y, initial)
  {
    hide Serial, Not, DataBits, Parity, Differences;
    SerialParity(Not(initial), Not(initial), DataBits(x), DataBits(y));
    if Crc(x, initial) == Crc(y, initial) {
      NotInjective(Serial(Not(initial), DataBits(x)), Serial(Not(initial), DataBits(y)));
    }
  }
}
