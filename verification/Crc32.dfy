/**
The CRC-32 of the drawn chart PNG: a 256-entry table, one lookup per byte.

The reference is the CRC of section 3.4 of RFC 2083: a 32-bit register that starts at all ones, takes the bits of
every byte from least to most significant, and is inverted at the end.

The bit operations have names, so that a proof can `hide` them and reason about words alone.
*/
module Crc32 {
  const POLYNOMIAL: bv32 := 0xedb8_8320
  const ONES: bv32 := 0xffff_ffff

  function Xor(a: bv32, b: bv32): bv32 { a ^ b }

  function Low(c: bv32): bv32 { c & 0xff }

  function Down(c: bv32): bv32 { c >> 8 }

  function Up(c: bv32): bv32 { c << 8 }

  function Half(c: bv32): bv32 { c >> 1 }

  predicate Odd(c: bv32) { c & 1 == 1 }

  function Wide(b: bv8): bv32 { b as bv32 }

  // ---- the reference: one message bit at a time ----

  /** The exponents of the generator in section 3.4, below x^32. */
  const EXPONENTS: seq<nat> := [26, 23, 22, 16, 12, 11, 10, 8, 7, 5, 4, 2, 1, 0]

  /** x^k: the lowest power stands in the highest bit. */
  function Power(k: nat): bv32 {
    if k == 0 then 0x8000_0000 else Half(Power(k - 1))
  }

  function Generator(exponents: seq<nat>): bv32 {
    if exponents == [] then 0 else Xor(Power(exponents[0]), Generator(exponents[1..]))
  }

  function TakeBit(c: bv32, bit: bool): bv32 {
    if Odd(c) != bit then Xor(Generator(EXPONENTS), Half(c)) else Half(c)
  }

  /** The k low bits of w enter the register, least significant first. */
  function TakeBits(c: bv32, w: bv32, k: nat): bv32
    decreases k
  {
    if k == 0 then c else TakeBits(TakeBit(c, Odd(w)), Half(w), k - 1)
  }

  function RfcRegister(c: bv32, bytes: seq<bv8>): bv32
    decreases |bytes|
  {
    if bytes == [] then c else RfcRegister(TakeBits(c, Wide(bytes[0]), 8), bytes[1..])
  }

  function RfcCrc(bytes: seq<bv8>): bv32 { Xor(RfcRegister(ONES, bytes), ONES) }

  // ---- the table-driven form ----

  function Shift(c: bv32): bv32 { if Odd(c) then Xor(POLYNOMIAL, Half(c)) else Half(c) }

  function Shifts(c: bv32, k: nat): bv32
    decreases k
  {
    if k == 0 then c else Shifts(Shift(c), k - 1)
  }

  /** One lookup: the table entry of the low byte, and the register moved down a byte. */
  function Lookup(c: bv32, b: bv8): bv32 {
    Xor(Shifts(Low(Xor(c, Wide(b))), 8), Down(c))
  }

  function Register(c: bv32, bytes: seq<bv8>): bv32
    decreases |bytes|
  {
    if bytes == [] then c else Register(Lookup(c, bytes[0]), bytes[1..])
  }

  // ---- the generator ----

  lemma Powers()
    ensures Power(0) == 0x8000_0000 && Power(1) == 0x4000_0000 && Power(2) == 0x2000_0000 && Power(4) == 0x0800_0000
    ensures Power(5) == 0x0400_0000 && Power(7) == 0x0100_0000 && Power(8) == 0x0080_0000 && Power(10) == 0x0020_0000
    ensures Power(11) == 0x0010_0000 && Power(12) == 0x0008_0000 && Power(16) == 0x8000 && Power(22) == 0x0200
    ensures Power(23) == 0x0100 && Power(26) == 0x0020
  {}

  /** The table's constant is the generator of section 3.4. */
  lemma PolynomialIsGenerator()
    ensures Generator(EXPONENTS) == POLYNOMIAL
  {
    Powers();
    hide Power;
    var none: seq<nat> := [];
    assert EXPONENTS[14..] == none && Generator(EXPONENTS[14..]) == 0;
    assert Generator(EXPONENTS[13..]) == 0x8000_0000;
  }

  /** One bit taken, with the generator as one constant. */
  function Taken(c: bv32, bit: bool): bv32 { if Odd(c) != bit then Xor(POLYNOMIAL, Half(c)) else Half(c) }

  lemma TakenIs(c: bv32, bit: bool)
    ensures TakeBit(c, bit) == Taken(c, bit)
  {
    PolynomialIsGenerator();
    hide Generator;
    hide Xor;
    hide Half;
    hide Odd;
  }

  lemma TakeTwo(c: bv32, w: bv32, k: nat, d: bv32, rest: bv32)
    requires k >= 2 && d == Taken(Taken(c, Odd(w)), Odd(Half(w))) && rest == Half(Half(w))
    ensures TakeBits(c, w, k) == TakeBits(d, rest, k - 2)
  {
    TakenIs(c, Odd(w));
    TakenIs(TakeBit(c, Odd(w)), Odd(Half(w)));
    hide TakeBit;
    hide Taken;
    hide Half;
    hide Odd;
  }

  lemma NoBits(c: bv32, w: bv32)
    ensures TakeBits(c, w, 0) == c
  {}

  lemma ByteI()
    ensures TakeBits(0xffff_ffff, 0x49, 8) == 0x22fd_e946
  {
    hide TakeBits;
    hide TakeBit;
    TakeTwo(0xffff_ffff, 0x49, 8, 0xd247_7cdf, 0x12);
    TakeTwo(0xd247_7cdf, 0x12, 6, 0x424d_9ea7, 0x4);
    TakeTwo(0x424d_9ea7, 0x4, 4, 0x8bf7_a519, 0x1);
    TakeTwo(0x8bf7_a519, 0x1, 2, 0x22fd_e946, 0x0);
    NoBits(0x22fd_e946, 0x0);
  }

  lemma ByteE()
    ensures TakeBits(0x22fd_e946, 0x45, 8) == 0x992b_ac53
  {
    hide TakeBits;
    hide TakeBit;
    TakeTwo(0x22fd_e946, 0x45, 8, 0x93db_b8e1, 0x11);
    TakeTwo(0x93db_b8e1, 0x11, 6, 0x24f6_ee38, 0x4);
    TakeTwo(0x24f6_ee38, 0x4, 4, 0x093d_bb8e, 0x1);
    TakeTwo(0x093d_bb8e, 0x1, 2, 0x992b_ac53, 0x0);
    NoBits(0x992b_ac53, 0x0);
  }

  lemma ByteN()
    ensures TakeBits(0x992b_ac53, 0x4e, 8) == 0x639f_4775
  {
    hide TakeBits;
    hide TakeBit;
    TakeTwo(0x992b_ac53, 0x4e, 8, 0x5096_aa84, 0x13);
    TakeTwo(0x5096_aa84, 0x13, 6, 0x8f41_6811, 0x4);
    TakeTwo(0x8f41_6811, 0x4, 4, 0x550c_1b94, 0x1);
    TakeTwo(0x550c_1b94, 0x1, 2, 0x639f_4775, 0x0);
    NoBits(0x639f_4775, 0x0);
  }

  lemma ByteD()
    ensures TakeBits(0x639f_4775, 0x44, 8) == 0x51bd_9f7d
  {
    hide TakeBits;
    hide TakeBit;
    TakeTwo(0x639f_4775, 0x44, 8, 0x6e3b_904d, 0x11);
    TakeTwo(0x6e3b_904d, 0x11, 6, 0x1b8e_e413, 0x4);
    TakeTwo(0x1b8e_e413, 0x4, 4, 0x9d87_7bb4, 0x1);
    TakeTwo(0x9d87_7bb4, 0x1, 2, 0x51bd_9f7d, 0x0);
    NoBits(0x51bd_9f7d, 0x0);
  }

  /** The bytes of "IEND", the last chunk's type, have the published CRC. */
  lemma EndChunk()
    ensures RfcCrc([0x49, 0x45, 0x4e, 0x44]) == 0xae42_6082
  {
    ByteI();
    ByteE();
    ByteN();
    ByteD();
    hide TakeBits;
    var bytes: seq<bv8> := [0x49, 0x45, 0x4e, 0x44];
    assert bytes[1..] == [0x45, 0x4e, 0x44] && bytes[1..][1..] == [0x4e, 0x44] && bytes[1..][1..][1..] == [0x44];
  }

  // ---- bit-vector facts ----

  lemma XorParts(a: bv32, b: bv32)
    ensures Half(Xor(a, b)) == Xor(Half(a), Half(b))
    ensures Odd(Xor(a, b)) == (Odd(a) != Odd(b))
  {
    assert (a ^ b) & 1 == (a & 1) ^ (b & 1);
    assert (a & 1 == 0 || a & 1 == 1) && (b & 1 == 0 || b & 1 == 1);
  }

  lemma XorAssociates(a: bv32, b: bv32, c: bv32)
    ensures Xor(Xor(a, b), c) == Xor(a, Xor(b, c))
  {}

  lemma XorCommutes(a: bv32, b: bv32)
    ensures Xor(a, b) == Xor(b, a)
  {}

  lemma XorNothing(a: bv32)
    ensures Xor(a, a) == 0 && Xor(0, a) == a && Xor(a, 0) == a
  {}

  lemma Regroup(a: bv32, b: bv32, c: bv32)
    ensures Xor(Xor(a, b), c) == Xor(a, Xor(b, c))
    ensures Xor(Xor(a, b), Xor(a, c)) == Xor(b, c)
    ensures Xor(a, b) == Xor(b, a)
    ensures Xor(a, 0) == a
  {
    hide Xor;
    XorAssociates(a, b, c);
    XorCommutes(a, b);
    XorNothing(a);
    XorNothing(c);
    XorAssociates(b, a, Xor(a, c));
    XorAssociates(a, a, c);
  }

  lemma XorCancel(a: bv32, b: bv32, c: bv32)
    requires Xor(a, c) == Xor(b, c)
    ensures a == b
  {}

  lemma ShiftLinear(a: bv32, b: bv32)
    ensures Shift(Xor(a, b)) == Xor(Shift(a), Shift(b))
  {
    XorParts(a, b);
    Regroup(POLYNOMIAL, Half(a), Half(b));
    Regroup(Half(a), POLYNOMIAL, Half(b));
    Regroup(POLYNOMIAL, Half(b), Half(a));
    hide Xor;
    hide Half;
    hide Odd;
  }

  lemma {:induction false} ShiftsLinear(a: bv32, b: bv32, k: nat)
    ensures Shifts(Xor(a, b), k) == Xor(Shifts(a, k), Shifts(b, k))
    decreases k
  {
    hide Shift;
    hide Xor;
    if k > 0 {
      ShiftLinear(a, b);
      ShiftsLinear(Shift(a), Shift(b), k - 1);
    }
  }

  lemma {:induction false} ShiftsAdd(c: bv32, j: nat, k: nat)
    ensures Shifts(Shifts(c, j), k) == Shifts(c, j + k)
    decreases j
  {
    hide Shift;
    if j > 0 {
      ShiftsAdd(Shift(c), j - 1, k);
    }
  }

  lemma ShiftInjective(a: bv32, b: bv32)
    requires Shift(a) == Shift(b)
    ensures a == b
  {}

  lemma {:induction false} ShiftsInjective(a: bv32, b: bv32, k: nat)
    requires Shifts(a, k) == Shifts(b, k)
    ensures a == b
    decreases k
  {
    hide Shift;
    if k > 0 {
      ShiftsInjective(Shift(a), Shift(b), k - 1);
      ShiftInjective(a, b);
    }
  }

  function Halves(w: bv32, k: nat): bv32
    decreases k
  {
    if k == 0 then w else Halves(Half(w), k - 1)
  }

  function Quarter(w: bv32): bv32 { w >> 2 }

  lemma HalfHalf(w: bv32)
    ensures Half(Half(w)) == Quarter(w)
  {
    assert (w >> 1) >> 1 == w >> 2;
  }

  function Nibble(w: bv32): bv32 { w >> 4 }

  lemma QuarterQuarter(w: bv32)
    ensures Quarter(Quarter(w)) == Nibble(w)
  {
    assert (w >> 2) >> 2 == w >> 4;
  }

  lemma NibbleNibble(w: bv32)
    ensures Nibble(Nibble(w)) == Down(w)
  {
    assert (w >> 4) >> 4 == w >> 8;
  }

  lemma TwoHalves(w: bv32)
    ensures Halves(w, 2) == Quarter(w)
  {
    hide Half;
    hide Quarter;
    HalfHalf(w);
    assert Halves(w, 2) == Halves(Half(w), 1) == Half(Half(w));
  }

  lemma {:induction false} HalvesAdd(w: bv32, j: nat, k: nat)
    ensures Halves(Halves(w, j), k) == Halves(w, j + k)
    decreases j
  {
    hide Half;
    if j > 0 {
      HalvesAdd(Half(w), j - 1, k);
    }
  }

  lemma EightHalves(w: bv32)
    ensures Halves(w, 8) == Down(w)
  {
    hide Halves;
    hide Half;
    hide Quarter;
    hide Nibble;
    hide Down;
    var a := Quarter(w);
    var b := Quarter(a);
    var c := Quarter(b);
    TwoHalves(w);
    TwoHalves(a);
    TwoHalves(b);
    TwoHalves(c);
    HalvesAdd(w, 2, 6);
    HalvesAdd(a, 2, 4);
    HalvesAdd(b, 2, 2);
    QuarterQuarter(w);
    QuarterQuarter(b);
    NibbleNibble(w);
  }

  function Longer(m: bv32): bv32 { (m << 1) | 1 }

  /** The k low bits. */
  function Mask(k: nat): bv32 {
    if k == 0 then 0 else Longer(Mask(k - 1))
  }

  predicate Clear(w: bv32, m: bv32) { w & m == 0 }

  lemma MaskBits(w: bv32, m: bv32)
    requires w & ((m << 1) | 1) == 0
    ensures w & 1 == 0 && (w >> 1) & m == 0
  {}

  lemma ClearStep(w: bv32, m: bv32)
    requires Clear(w, Longer(m))
    ensures !Odd(w) && Clear(Half(w), m)
  {
    MaskBits(w, m);
  }

  lemma {:induction false} ClearShifts(w: bv32, k: nat)
    requires Clear(w, Mask(k))
    ensures Shifts(w, k) == Halves(w, k)
    decreases k
  {
    hide Clear;
    hide Longer;
    hide Odd;
    hide Half;
    hide Xor;
    if k > 0 {
      ClearStep(w, Mask(k - 1));
      assert Shift(w) == Half(w);
      ClearShifts(Half(w), k - 1);
    }
  }

  /** A register with an empty low byte just moves down a byte. */
  lemma ShiftsHighBytes(w: bv32)
    requires Low(w) == 0
    ensures Shifts(w, 8) == Down(w)
  {
    assert Clear(w, Mask(8)) by {
      assert Mask(8) == 0xff;
    }
    hide Mask;
    hide Clear;
    ClearShifts(w, 8);
    EightHalves(w);
  }

  function High(c: bv32): bv32 { c & 0xffff_ff00 }

  lemma SplitBits(x: bv32)
    ensures (x & 0xff) ^ (x & 0xffff_ff00) == x
    ensures (x & 0xffff_ff00) >> 8 == x >> 8
    ensures (x & 0xffff_ff00) & 0xff == 0
  {}

  lemma SplitWord(x: bv32)
    ensures Xor(Low(x), High(x)) == x && Down(High(x)) == Down(x) && Low(High(x)) == 0
  {
    SplitBits(x);
  }

  lemma WideBits(b: bv8)
    ensures (b as bv32) & 0xffff_ff00 == 0
  {}

  lemma DownBits(c: bv32, w: bv32)
    requires w & 0xffff_ff00 == 0
    ensures (c ^ w) >> 8 == c >> 8 && w >> 8 == 0
  {}

  lemma DownByte(c: bv32, b: bv8)
    ensures Down(Xor(c, Wide(b))) == Down(c) && Down(Wide(b)) == 0
  {
    WideBits(b);
    DownBits(c, b as bv32);
  }

  /** The lookup does the work of eight shifts of the register with the byte added in. */
  lemma LookupIsShifts(c: bv32, b: bv8)
    ensures Lookup(c, b) == Shifts(Xor(c, Wide(b)), 8)
  {
    hide Xor;
    hide Low;
    hide High;
    hide Down;
    hide Wide;
    hide Shifts;
    var x := Xor(c, Wide(b));
    SplitWord(x);
    DownByte(c, b);
    ShiftsLinear(Low(x), High(x), 8);
    ShiftsHighBytes(High(x));
  }

  lemma TakeBitIsShift(c: bv32, w: bv32)
    ensures Shift(Xor(c, w)) == Xor(TakeBit(c, Odd(w)), Half(w))
  {
    PolynomialIsGenerator();
    hide Generator;
    XorParts(c, w);
    Regroup(POLYNOMIAL, Half(c), Half(w));
    hide Xor;
    hide Half;
    hide Odd;
  }

  /** Bits that enter one by one do what the same bits do added in at once, but for those still outside. */
  lemma {:induction false} TakeBitsIsShifts(c: bv32, w: bv32, k: nat)
    ensures Shifts(Xor(c, w), k) == Xor(TakeBits(c, w, k), Halves(w, k))
    decreases k
  {
    hide Shift;
    hide TakeBit;
    hide Xor;
    hide Half;
    hide Odd;
    if k > 0 {
      TakeBitIsShift(c, w);
      TakeBitsIsShifts(TakeBit(c, Odd(w)), Half(w), k - 1);
    }
  }

  lemma LookupIsRfc(c: bv32, b: bv8)
    ensures Lookup(c, b) == TakeBits(c, Wide(b), 8)
  {
    hide Lookup;
    hide Shifts;
    hide TakeBits;
    hide Halves;
    hide Xor;
    hide Wide;
    hide Down;
    LookupIsShifts(c, b);
    TakeBitsIsShifts(c, Wide(b), 8);
    EightHalves(Wide(b));
    DownByte(c, b);
    Regroup(TakeBits(c, Wide(b), 8), 0, 0);
  }

  lemma {:induction false} RegisterIsRfc(c: bv32, bytes: seq<bv8>)
    ensures Register(c, bytes) == RfcRegister(c, bytes)
    decreases |bytes|
  {
    hide Lookup;
    hide TakeBits;
    hide Wide;
    if bytes != [] {
      LookupIsRfc(c, bytes[0]);
      RegisterIsRfc(Lookup(c, bytes[0]), bytes[1..]);
    }
  }

  // ---- what the CRC tells apart ----

  lemma {:induction false} RegisterAppend(c: bv32, a: seq<bv8>, b: seq<bv8>)
    ensures Register(c, a + b) == Register(Register(c, a), b)
    decreases |a|
  {
    hide Lookup;
    if a == [] {
      assert a + b == b;
    } else {
      assert (a + b)[1..] == a[1..] + b;
      RegisterAppend(Lookup(c, a[0]), a[1..], b);
    }
  }

  lemma LookupInjective(c: bv32, d: bv32, b: bv8)
    requires Lookup(c, b) == Lookup(d, b)
    ensures c == d
  {
    hide Lookup;
    hide Xor;
    hide Wide;
    hide Shifts;
    LookupIsShifts(c, b);
    LookupIsShifts(d, b);
    ShiftsInjective(Xor(c, Wide(b)), Xor(d, Wide(b)), 8);
    XorCancel(c, d, Wide(b));
  }

  lemma {:induction false} RegisterInjective(c: bv32, d: bv32, bytes: seq<bv8>)
    requires Register(c, bytes) == Register(d, bytes)
    ensures c == d
    decreases |bytes|
  {
    hide Lookup;
    if bytes != [] {
      RegisterInjective(Lookup(c, bytes[0]), Lookup(d, bytes[0]), bytes[1..]);
      LookupInjective(c, d, bytes[0]);
    }
  }

  /** Up to four bytes as one word, first byte lowest. */
  function Word(x: seq<bv8>): bv32
    decreases |x|
  {
    if x == [] then 0 else Xor(Wide(x[0]), Up(Word(x[1..])))
  }

  /** Every bit above the n lowest bytes. */
  function TopMask(n: nat): bv32 {
    if n == 0 then ONES else Up(TopMask(n - 1))
  }

  lemma UpBits(b: bv32, w: bv32, m: bv32)
    requires b & 0xffff_ff00 == 0 && w & m == 0
    ensures (b ^ (w << 8)) & (m << 8) == 0
  {}

  lemma ClearUp(b: bv8, w: bv32, m: bv32)
    requires Clear(w, m)
    ensures Clear(Xor(Wide(b), Up(w)), Up(m))
  {
    WideBits(b);
    UpBits(b as bv32, w, m);
  }

  /** A word of n bytes has nothing above them. */
  lemma {:induction false} WordClear(x: seq<bv8>)
    requires |x| <= 4
    ensures Clear(Word(x), TopMask(|x|))
    decreases |x|
  {
    if x == [] {
      assert 0 & ONES == 0;
    } else {
      hide Clear;
      hide Xor;
      hide Wide;
      hide Up;
      WordClear(x[1..]);
      ClearUp(x[0], Word(x[1..]), TopMask(|x| - 1));
    }
  }

  /** Room for one more byte. */
  predicate Short(w: bv32) { Clear(w, 0xff00_0000) }

  lemma MaskNarrow(w: bv32, m: bv32)
    requires w & m == 0 && m & 0xff00_0000 == 0xff00_0000
    ensures w & 0xff00_0000 == 0
  {}

  lemma ThreeShort(w: bv32, n: nat)
    requires n <= 3 && Clear(w, TopMask(n))
    ensures Short(w)
  {
    assert TopMask(0) == 0xffff_ffff && TopMask(1) == 0xffff_ff00 && TopMask(2) == 0xffff_0000
           && TopMask(3) == 0xff00_0000;
    hide TopMask;
    var m := TopMask(n);
    assert m == 0xffff_ffff || m == 0xffff_ff00 || m == 0xffff_0000 || m == 0xff00_0000;
    MaskNarrow(w, m);
  }

  lemma RestShort(x: seq<bv8>)
    requires 0 < |x| <= 4
    ensures Short(Word(x[1..]))
  {
    hide Word;
    hide Clear;
    hide TopMask;
    WordClear(x[1..]);
    ThreeShort(Word(x[1..]), |x| - 1);
  }

  lemma UpDownBits(w: bv32)
    ensures (w << 8) & 0xff == 0
    ensures w & 0xff00_0000 == 0 ==> (w << 8) >> 8 == w
  {}

  lemma UpDown(w: bv32)
    requires Short(w)
    ensures Low(Up(w)) == 0 && Down(Up(w)) == w
  {
    UpDownBits(w);
  }

  /** The next byte and a word behind it enter like the two added together. */
  lemma WordStep(c: bv32, b: bv8, rest: bv32)
    requires Short(rest)
    ensures Xor(Shifts(Xor(c, Wide(b)), 8), rest) == Shifts(Xor(c, Xor(Wide(b), Up(rest))), 8)
  {
    hide Xor;
    hide Wide;
    hide Up;
    hide Down;
    hide Low;
    hide Shifts;
    hide Short;
    UpDown(rest);
    ShiftsHighBytes(Up(rest));
    ShiftsLinear(Xor(c, Wide(b)), Up(rest), 8);
    Regroup(c, Wide(b), Up(rest));
  }

  /** Up to four bytes enter the register like one word added to it. */
  lemma {:induction false} RegisterWord(c: bv32, x: seq<bv8>)
    requires |x| <= 4
    ensures Register(c, x) == Shifts(Xor(c, Word(x)), 8 * |x|)
    decreases |x|
  {
    hide Lookup;
    hide Xor;
    hide Wide;
    hide Up;
    hide Short;
    if x == [] {
      Regroup(c, 0, 0);
    } else {
      hide Shifts;
      var next := Shifts(Xor(c, Wide(x[0])), 8);
      LookupIsShifts(c, x[0]);
      RegisterWord(next, x[1..]);
      RestShort(x);
      WordStep(c, x[0], Word(x[1..]));
      ShiftsAdd(Xor(c, Word(x)), 8, 8 * |x[1..]|);
    }
  }

  lemma StepInjective(a: bv8, b: bv8, v: bv32, w: bv32)
    requires Xor(Wide(a), Up(v)) == Xor(Wide(b), Up(w)) && Short(v) && Short(w)
    ensures a == b && v == w
  {}

  lemma {:induction false} WordInjective(x: seq<bv8>, y: seq<bv8>)
    requires |x| == |y| <= 4 && Word(x) == Word(y)
    ensures x == y
    decreases |x|
  {
    hide Xor;
    hide Wide;
    hide Up;
    hide Short;
    if x != [] {
      RestShort(x);
      RestShort(y);
      StepInjective(x[0], y[0], Word(x[1..]), Word(y[1..]));
      WordInjective(x[1..], y[1..]);
      assert x == [x[0]] + x[1..] && y == [y[0]] + y[1..];
    }
  }

  lemma RegisterTells(c: bv32, x: seq<bv8>, y: seq<bv8>)
    requires |x| == |y| <= 4 && Register(c, x) == Register(c, y)
    ensures x == y
  {
    hide Register;
    hide Shifts;
    hide Word;
    hide Xor;
    RegisterWord(c, x);
    RegisterWord(c, y);
    ShiftsInjective(Xor(c, Word(x)), Xor(c, Word(y)), 8 * |x|);
    Regroup(c, Word(x), 0);
    Regroup(c, Word(y), 0);
    XorCancel(Word(x), Word(y), c);
    WordInjective(x, y);
  }

  /**
  Two messages of equal length that differ only inside four neighbouring bytes always have different CRCs: every
  error burst inside four bytes is seen, a single wrong byte included.
  */
  lemma BurstDetected(before: seq<bv8>, x: seq<bv8>, y: seq<bv8>, after: seq<bv8>)
    requires |x| == |y| <= 4 && x != y
    ensures RfcCrc(before + x + after) != RfcCrc(before + y + after)
  {
    hide Register;
    hide RfcRegister;
    hide Xor;
    if RfcCrc(before + x + after) == RfcCrc(before + y + after) {
      RegisterIsRfc(ONES, before + x + after);
      RegisterIsRfc(ONES, before + y + after);
      XorCancel(Register(ONES, before + x + after), Register(ONES, before + y + after), ONES);
      RegisterAppend(ONES, before + x, after);
      RegisterAppend(ONES, before + y, after);
      RegisterAppend(ONES, before, x);
      RegisterAppend(ONES, before, y);
      var c := Register(ONES, before);
      RegisterInjective(Register(c, x), Register(c, y), after);
      RegisterTells(c, x, y);
    }
  }

  // ---- the program ----

  predicate IsTable(table: seq<bv32>) {
    |table| == 256 && forall n | 0 <= n < 256 :: table[n] == Shifts(n as bv32, 8)
  }

  method MakeTable() returns (table: array<bv32>)
    ensures fresh(table) && IsTable(table[..])
  {
    hide Shift;
    table := new bv32[256];
    for n := 0 to 256
      invariant forall m | 0 <= m < n :: table[m] == Shifts(m as bv32, 8)
    {
      var c := n as bv32;
      for k := 0 to 8
        invariant Shifts(c, 8 - k) == Shifts(n as bv32, 8)
        invariant forall m | 0 <= m < n :: table[m] == Shifts(m as bv32, 8)
      {
        c := Halve(c);
      }
      table[n] := c;
    }
  }

  method Halve(c: bv32) returns (d: bv32)
    ensures d == Shift(c)
  {
    d := if c & 1 == 1 then POLYNOMIAL ^ (c >> 1) else c >> 1;
  }

  lemma IndexRoundTrip(c: bv32)
    ensures Low(c) as int < 256
    ensures (Low(c) as int) as bv32 == Low(c)
  {}

  /** The table-driven loop computes the CRC of RFC 2083. */
  method Compute(table: array<bv32>, bytes: seq<bv8>) returns (crc: bv32)
    requires IsTable(table[..])
    ensures crc == RfcCrc(bytes)
  {
    hide Shifts;
    hide Low;
    hide Xor;
    hide Down;
    hide Wide;
    var c := ONES;
    for i := 0 to |bytes|
      invariant Register(c, bytes[i..]) == Register(ONES, bytes)
    {
      ghost var rest := bytes[i..];
      assert rest[0] == bytes[i] && rest[1..] == bytes[i + 1..];
      var low := Low(Xor(c, Wide(bytes[i])));
      IndexRoundTrip(Xor(c, Wide(bytes[i])));
      assert table[..][low as int] == table[low as int];
      c := Xor(table[low as int], Down(c));
    }
    assert bytes[|bytes|..] == [];
    RegisterIsRfc(ONES, bytes);
    crc := Xor(c, ONES);
  }
}
