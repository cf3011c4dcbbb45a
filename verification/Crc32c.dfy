/** CRC32C, bit at a time and as the 8/4/2/1-byte instruction path of core/crc32c.cc. */
module Crc32c {
  import opened Basics
  import opened Bytes

  /** The bit-reflected CRC32C polynomial of section 12.1 of RFC 3720. */
  const POLYNOMIAL: bv32 := 0x82F6_3B78

  /** One step of the reflected shift register. */
  function FeedBit(crc: bv32, bit: bool): bv32 {
    if Low(crc) != bit then Xor(Half(crc), POLYNOMIAL) else Half(crc)
  }

  function Xor(x: bv32, y: bv32): bv32 { x ^ y }

  function Half(w: bv32): bv32 { w >> 1 }

  predicate Low(w: bv32) { w & 1 == 1 }

  function FeedBits(crc: bv32, bits: seq<bool>): bv32
    decreases |bits|
  {
    if bits == [] then crc else FeedBits(FeedBit(crc, bits[0]), bits[1..])
  }

  /** The low n bits of v, lowest first. */
  function Bits(v: nat, n: nat): (r: seq<bool>)
    ensures |r| == n
  {
    if n == 0 then [] else [v % 2 == 1] + Bits(v / 2, n - 1)
  }

  /** The CRC instruction for an n-bit operand: its bits enter the register lowest first. */
  function Instruction(crc: bv32, v: nat, n: nat): bv32 {
    FeedBits(crc, Bits(v, n))
  }

  function FeedByte(crc: bv32, b: byte): bv32 {
    Instruction(crc, b, 8)
  }

  /** The bit-at-a-time definition over a whole string of bytes. */
  function Feed(crc: bv32, bytes: seq<byte>): bv32
    decreases |bytes|
  {
    if bytes == [] then crc else Feed(FeedByte(crc, bytes[0]), bytes[1..])
  }

  /** CRC32C of bytes, extending v. */
  function Crc(bytes: seq<byte>, v: bv32): bv32 {
    Complement(Feed(Complement(v), bytes))
  }

  function Complement(x: bv32): bv32 {
    !x
  }

  lemma {:induction false} FeedConcat(crc: bv32, a: seq<byte>, b: seq<byte>)
    ensures Feed(crc, a + b) == Feed(Feed(crc, a), b)
    decreases |a|
  {
    if a == [] {
      assert a + b == b;
    } else {
      assert (a + b)[1..] == a[1..] + b;
      FeedConcat(FeedByte(crc, a[0]), a[1..], b);
    }
  }

  lemma DoubleComplement(x: bv32)
    ensures Complement(Complement(x)) == x
  {
  }

  /** Extending a CRC is concatenation, wherever the split falls. */
  lemma CrcExtends(a: seq<byte>, b: seq<byte>, v: bv32)
    ensures Crc(b, Crc(a, v)) == Crc(a + b, v)
  {
    hide Complement, Feed;
    FeedConcat(Complement(v), a, b);
    DoubleComplement(Feed(Complement(v), a));
  }

  lemma {:induction false} FeedBitsConcat(crc: bv32, a: seq<bool>, b: seq<bool>)
    ensures FeedBits(crc, a + b) == FeedBits(FeedBits(crc, a), b)
    decreases |a|
  {
    if a == [] {
      assert a + b == b;
    } else {
      assert (a + b)[1..] == a[1..] + b;
      FeedBitsConcat(FeedBit(crc, a[0]), a[1..], b);
    }
  }

  /** The lowest bit of b comes first; what lies above b shifts down with the rest of it. */
  lemma Peel(b: nat, above: nat, n: nat)
    ensures Bits(b + 2 * above, n + 1) == [b % 2 == 1] + Bits(b / 2 + above, n)
  {
    assert (b + 2 * above) / 2 == b / 2 + above;
  }

  lemma BitsSplit(b: byte, rest: nat, n: nat)
    ensures Bits(b + 0x100 * rest, 8 + n) == Bits(b, 8) + Bits(rest, n)
  {
    hide Bits;
    var high := b / 0x10;
    BitsSplit4(b, 0x10 * rest, n + 4);
    BitsSplit4(high, rest, n);
    BitsSplit4(b, 0, 4);
    BitsSplit4(high, 0, 0);
    assert Bits(0, 0) == [] by { NoBits(0); }
  }

  lemma NoBits(v: nat)
    ensures Bits(v, 0) == []
  {
  }

  lemma BitsSplit4(b: nat, above: nat, n: nat)
    ensures Bits(b + 0x10 * above, 4 + n)
         == [b % 2 == 1, b / 2 % 2 == 1, b / 4 % 2 == 1, b / 8 % 2 == 1] + Bits(b / 0x10 + above, n)
  {
    hide Bits;
    var b1, b2, b3, b4 := b / 2, b / 4, b / 8, b / 0x10;
    assert b1 / 2 == b2 && b2 / 2 == b3 && b3 / 2 == b4;
    Peel(b, 8 * above, n + 3);
    Peel(b1, 4 * above, n + 2);
    Peel(b2, 2 * above, n + 1);
    Peel(b3, above, n);
  }

  /** A wide little-endian operand is its low byte followed by the rest. */
  lemma ByteThenRest(crc: bv32, b: byte, rest: nat, n: nat)
    ensures Instruction(crc, b + 0x100 * rest, 8 + n) == Instruction(FeedByte(crc, b), rest, n)
  {
    BitsSplit(b, rest, n);
    FeedBitsConcat(crc, Bits(b, 8), Bits(rest, n));
  }

  /** The little-endian value of a whole block of bytes. */
  function Little(b: seq<byte>): nat {
    if b == [] then 0 else b[0] + 0x100 * Little(b[1..])
  }

  /** One wide instruction feeds exactly the bytes of its operand, in memory order. */
  lemma {:induction false} WideIsBytewise(crc: bv32, b: seq<byte>)
    ensures Instruction(crc, Little(b), 8 * |b|) == Feed(crc, b)
    decreases |b|
  {
    if b != [] {
      ByteThenRest(crc, b[0], Little(b[1..]), 8 * |b| - 8);
      WideIsBytewise(FeedByte(crc, b[0]), b[1..]);
    }
  }

  /** ComputeCRC32C: blocks of eight, then at most one four-, two- and one-byte step. */
  method ComputeCRC32C(p: seq<byte>, v: bv32) returns (r: bv32)
    ensures r == Crc(p, v)
  {
    hide Complement, Feed;
    var crc := Complement(v);
    var ptr, l := 0, |p|;
    assert p[0..] == p;
    while l >= 8
      invariant 0 <= ptr && 0 <= l && ptr + l == |p|
      invariant Feed(Complement(v), p) == Feed(crc, p[ptr..])
    {
      crc := Step(crc, p, ptr, 8);
      ptr, l := ptr + 8, l - 8;
    }
    if l >= 4 {
      crc := Step(crc, p, ptr, 4);
      ptr, l := ptr + 4, l - 4;
    }
    if l >= 2 {
      crc := Step(crc, p, ptr, 2);
      ptr, l := ptr + 2, l - 2;
    }
    if l == 1 {
      crc := Step(crc, p, ptr, 1);
      ptr := ptr + 1;
    }
    assert p[ptr..] == [];
    FeedNothing(crc);
    r := Complement(crc);
  }

  lemma FeedNothing(crc: bv32)
    ensures Feed(crc, []) == crc
  {
  }

  /** One instruction on the n bytes at ptr; what is left to feed is the rest of p. */
  method Step(crc: bv32, p: seq<byte>, ptr: nat, n: nat) returns (r: bv32)
    requires ptr + n <= |p|
    ensures Feed(crc, p[ptr..]) == Feed(r, p[ptr + n..])
  {
    hide Feed;
    var block := p[ptr..ptr + n];
    r := Instruction(crc, Little(block), 8 * n);
    WideIsBytewise(crc, block);
    assert p[ptr..] == block + p[ptr + n..];
    FeedConcat(crc, block, p[ptr + n..]);
  }

  // ---- Error detection ----

  /** A step on a zero bit, n times. */
  function Zeros(x: bv32, n: nat): bv32
    decreases n
  {
    if n == 0 then x else Zeros(FeedBit(x, false), n - 1)
  }

  /** The polynomial's top bit is set, so the result of a step tells which branch was taken. */
  lemma ZeroInjective(x: bv32, y: bv32)
    requires FeedBit(x, false) == FeedBit(y, false)
    ensures x == y
  {
  }

  lemma {:induction false} ZerosInjective(x: bv32, y: bv32, n: nat)
    requires Zeros(x, n) == Zeros(y, n)
    ensures x == y
    decreases n
  {
    hide FeedBit;
    if n > 0 {
      ZerosInjective(FeedBit(x, false), FeedBit(y, false), n - 1);
      ZeroInjective(x, y);
    }
  }

  lemma HalfOfXor(s: bv32, w: bv32)
    ensures Half(Xor(s, w)) == Xor(Half(s), Half(w))
  {
  }

  lemma LowOfXor(s: bv32, w: bv32)
    ensures Low(Xor(s, w)) == (Low(s) != Low(w))
  {
  }

  lemma XorSwap(x: bv32, y: bv32, z: bv32)
    ensures Xor(Xor(x, y), z) == Xor(Xor(x, z), y)
  {
    XorMoves(x, y, z);
    XorMoves(x, z, y);
    assert z ^ y == y ^ z;
  }

  lemma XorMoves(x: bv32, y: bv32, z: bv32)
    ensures Xor(Xor(x, y), z) == x ^ (y ^ z)
  {
  }

  /** Mixing a word into the register beforehand is the same as feeding its low bit and keeping the rest mixed in. */
  lemma ZeroAbsorbs(s: bv32, w: bv32)
    ensures FeedBit(Xor(s, w), false) == Xor(FeedBit(s, Low(w)), Half(w))
  {
    hide Half, Low, Xor;
    HalfOfXor(s, w);
    LowOfXor(s, w);
    XorSwap(Half(s), Half(w), POLYNOMIAL);
  }

  function LowBits(w: bv32, n: nat): (r: seq<bool>)
    ensures |r| == n
    decreases n
  {
    if n == 0 then [] else [Low(w)] + LowBits(Half(w), n - 1)
  }

  function HalfTimes(w: bv32, n: nat): bv32
    decreases n
  {
    if n == 0 then w else HalfTimes(Half(w), n - 1)
  }

  lemma {:induction false} ZerosAbsorb(s: bv32, w: bv32, n: nat)
    ensures Zeros(Xor(s, w), n) == Xor(FeedBits(s, LowBits(w, n)), HalfTimes(w, n))
    decreases n
  {
    hide Half, Low, Xor, FeedBit;
    if n > 0 {
      ZeroAbsorbs(s, w);
      ZerosAbsorb(FeedBit(s, Low(w)), Half(w), n - 1);
    }
  }

  function Double(w: bv32): bv32 { w << 1 }

  /** The word whose low bits are the given ones, lowest first. */
  function Word(bits: seq<bool>): bv32
    decreases |bits|
  {
    if bits == [] then 0
    else if bits[0] then Xor(Double(Word(bits[1..])), 1) else Double(Word(bits[1..]))
  }

  predicate Clear(w: bv32, mask: bv32) { w & mask == 0 }

  predicate Top(mask: bv32) { mask & 0x8000_0000 != 0 }

  /** The all-ones mask shifted up n places. */
  function Mask(n: nat): bv32 {
    if n == 0 then 0xFFFF_FFFF else Double(Mask(n - 1))
  }

  lemma MaskTop(n: nat)
    requires n < 32
    ensures Top(Mask(n))
  {
    assert Mask(0) == 0xFFFF_FFFF && Mask(1) == 0xFFFF_FFFE && Mask(2) == 0xFFFF_FFFC && Mask(3) == 0xFFFF_FFF8;
    assert Mask(4) == 0xFFFF_FFF0 && Mask(5) == 0xFFFF_FFE0 && Mask(6) == 0xFFFF_FFC0 && Mask(7) == 0xFFFF_FF80;
    assert Mask(8) == 0xFFFF_FF00 && Mask(9) == 0xFFFF_FE00 && Mask(10) == 0xFFFF_FC00 && Mask(11) == 0xFFFF_F800;
    assert Mask(12) == 0xFFFF_F000 && Mask(13) == 0xFFFF_E000 && Mask(14) == 0xFFFF_C000 && Mask(15) == 0xFFFF_8000;
    assert Mask(16) == 0xFFFF_0000 && Mask(17) == 0xFFFE_0000 && Mask(18) == 0xFFFC_0000 && Mask(19) == 0xFFF8_0000;
    assert Mask(20) == 0xFFF0_0000 && Mask(21) == 0xFFE0_0000 && Mask(22) == 0xFFC0_0000 && Mask(23) == 0xFF80_0000;
    assert Mask(24) == 0xFF00_0000 && Mask(25) == 0xFE00_0000 && Mask(26) == 0xFC00_0000 && Mask(27) == 0xF800_0000;
    assert Mask(28) == 0xF000_0000 && Mask(29) == 0xE000_0000 && Mask(30) == 0xC000_0000 && Mask(31) == 0x8000_0000;
  }

  lemma PushLow(w: bv32)
    ensures Low(Xor(Double(w), 1)) && !Low(Double(w))
  {
  }

  lemma PushHalf(w: bv32)
    requires w & 0x8000_0000 == 0
    ensures Half(Double(w)) == w
    ensures Half(Xor(Double(w), 1)) == w
  {
  }

  lemma PushClear(w: bv32, mask: bv32)
    requires Clear(w, mask)
    ensures Clear(Double(w), Double(mask))
    ensures Clear(Xor(Double(w), 1), Double(mask))
  {
  }

  lemma ClearTop(w: bv32, mask: bv32)
    requires Clear(w, mask) && Top(mask)
    ensures w & 0x8000_0000 == 0
  {
  }

  lemma ZeroClear(mask: bv32)
    ensures Clear(0, mask)
  {
  }

  lemma {:induction false} WordBits(bits: seq<bool>)
    requires |bits| <= 32
    ensures LowBits(Word(bits), |bits|) == bits
    ensures HalfTimes(Word(bits), |bits|) == 0
    ensures Clear(Word(bits), Mask(|bits|))
    decreases |bits|
  {
    hide Half, Low, Xor, Double, Clear, Top;
    ZeroClear(Mask(0));
    if bits != [] {
      var w, mask := Word(bits[1..]), Mask(|bits| - 1);
      WordBits(bits[1..]);
      MaskTop(|bits| - 1);
      ClearTop(w, mask);
      PushLow(w);
      PushHalf(w);
      PushClear(w, mask);
    }
  }

  lemma XorZero(x: bv32)
    ensures Xor(x, 0) == x
  {
  }

  lemma XorInjective(s: bv32, x: bv32, y: bv32)
    requires Xor(s, x) == Xor(s, y)
    ensures x == y
  {
    assert x == Xor(s, Xor(s, x));
    assert y == Xor(s, Xor(s, y));
  }

  /** From one register value, different strings of at most 32 bits lead to different register values. */
  lemma BurstInjective(s: bv32, a: seq<bool>, b: seq<bool>)
    requires |a| == |b| <= 32
    requires FeedBits(s, a) == FeedBits(s, b)
    ensures a == b
  {
    hide Half, Low, Xor, Double, Clear, FeedBit, Zeros, Word;
    var x, y := Word(a), Word(b);
    WordBits(a);
    WordBits(b);
    ZerosAbsorb(s, x, |a|);
    ZerosAbsorb(s, y, |a|);
    ZerosInjective(Xor(s, x), Xor(s, y), |a|);
    XorInjective(s, x, y);
  }

  /** For fixed data, feeding is injective in the register. */
  lemma {:induction false} FeedBitsInjective(s: bv32, t: bv32, bits: seq<bool>)
    requires FeedBits(s, bits) == FeedBits(t, bits)
    ensures s == t
    decreases |bits|
  {
    hide FeedBit;
    if bits != [] {
      FeedBitsInjective(FeedBit(s, bits[0]), FeedBit(t, bits[0]), bits[1..]);
      FeedBitInjective(s, t, bits[0]);
    }
  }

  lemma FeedBitInjective(s: bv32, t: bv32, bit: bool)
    requires FeedBit(s, bit) == FeedBit(t, bit)
    ensures s == t
  {
  }

  lemma {:induction false} FeedInjective(s: bv32, t: bv32, bytes: seq<byte>)
    requires Feed(s, bytes) == Feed(t, bytes)
    ensures s == t
    decreases |bytes|
  {
    hide FeedBits;
    if bytes != [] {
      FeedInjective(FeedByte(s, bytes[0]), FeedByte(t, bytes[0]), bytes[1..]);
      FeedBitsInjective(s, t, Bits(bytes[0], 8));
    }
  }

  lemma {:induction false} BitsInjective(v: nat, w: nat, n: nat)
    requires v < Pow2(n) && w < Pow2(n) && Bits(v, n) == Bits(w, n)
    ensures v == w
    decreases n
  {
    if n > 0 {
      assert Bits(v, n)[0] == Bits(w, n)[0];
      assert Bits(v, n)[1..] == Bits(v / 2, n - 1) && Bits(w, n)[1..] == Bits(w / 2, n - 1);
      BitsInjective(v / 2, w / 2, n - 1);
    }
  }

  lemma {:induction false} LittleInjective(a: seq<byte>, b: seq<byte>)
    requires |a| == |b| && Little(a) == Little(b)
    ensures a == b
  {
    if a != [] {
      assert Little(a) % 0x100 == a[0] && Little(b) % 0x100 == b[0];
      LittleInjective(a[1..], b[1..]);
    }
  }

  lemma {:induction false} LittleBound(a: seq<byte>)
    ensures Little(a) < Pow2(8 * |a|)
  {
    if a != [] {
      LittleBound(a[1..]);
      var k := 8 * |a[1..]|;
      assert Pow2(k + 8) == 0x100 * Pow2(k) by {
        assert Pow2(k + 4) == 16 * Pow2(k) by { assert Pow2(k + 2) == 4 * Pow2(k); }
        assert Pow2(k + 8) == 16 * Pow2(k + 4) by { assert Pow2(k + 6) == 4 * Pow2(k + 4); }
      }
    }
  }

  /** Two byte strings that differ only within four consecutive bytes never leave the same register value. */
  lemma BurstDetected(s: bv32, x: seq<byte>, y: seq<byte>, at: nat)
    requires |x| == |y| && at + 4 <= |x|
    requires x[..at] == y[..at] && x[at + 4..] == y[at + 4..]
    requires Feed(s, x) == Feed(s, y)
    ensures x == y
  {
    hide Feed, FeedBits;
    var p, v, w, r := x[..at], x[at..at + 4], y[at..at + 4], x[at + 4..];
    assert x == p + (v + r) && y == p + (w + r);
    FeedConcat(s, p, v + r);
    FeedConcat(s, p, w + r);
    var t := Feed(s, p);
    FeedConcat(t, v, r);
    FeedConcat(t, w, r);
    FeedInjective(Feed(t, v), Feed(t, w), r);
    WideIsBytewise(t, v);
    WideIsBytewise(t, w);
    BurstInjective(t, Bits(Little(v), 32), Bits(Little(w), 32));
    LittleBound(v);
    LittleBound(w);
    BitsInjective(Little(v), Little(w), 32);
    LittleInjective(v, w);
  }

  // ---- The stored CRC ----

  function NatOf(bits: seq<bool>): nat {
    if bits == [] then 0 else (if bits[0] then 1 else 0) + 2 * NatOf(bits[1..])
  }

  lemma {:induction false} NatOfBits(bits: seq<bool>)
    ensures Bits(NatOf(bits), |bits|) == bits && NatOf(bits) < Pow2(|bits|)
  {
    if bits != [] {
      NatOfBits(bits[1..]);
      assert NatOf(bits) / 2 == NatOf(bits[1..]);
    }
  }

  /** CRC32C::value(): the register as an unsigned 32-bit integer. */
  function Value(v: bv32): u32 {
    NatOfBits(LowBits(v, 32));
    Pow2Of32();
    NatOf(LowBits(v, 32))
  }

  lemma Pow2Of32()
    ensures Pow2(32) == 0x1_0000_0000
  {
    assert Pow2(8) == 0x100;
    assert Pow2(16) == 0x1_0000;
    assert Pow2(24) == 0x100_0000;
  }

  lemma HalvedAway(w: bv32)
    ensures HalfTimes(w, 32) == 0
  {
    hide Half, DropByte;
    HalfTimes8(w, 24);
    HalfTimes8(DropByte(w), 16);
    HalfTimes8(DropByte(DropByte(w)), 8);
    HalfTimes8(DropByte(DropByte(DropByte(w))), 0);
    FourBytes(w);
  }

  function DropByte(w: bv32): bv32 { w >> 8 }

  lemma FourBytes(w: bv32)
    ensures DropByte(DropByte(DropByte(DropByte(w)))) == 0
  {
  }

  lemma HalfTimes8(w: bv32, n: nat)
    ensures HalfTimes(w, 8 + n) == HalfTimes(DropByte(w), n)
  {
    HalfEight(w);
    hide Half;
    var w2 := Half(Half(w));
    var w4 := Half(Half(w2));
    var w6 := Half(Half(w4));
    assert HalfTimes(w, 8 + n) == HalfTimes(w2, 6 + n);
    assert HalfTimes(w2, 6 + n) == HalfTimes(w4, 4 + n);
    assert HalfTimes(w4, 4 + n) == HalfTimes(w6, 2 + n);
    assert HalfTimes(w6, 2 + n) == HalfTimes(Half(Half(w6)), n);
  }

  lemma HalfEight(w: bv32)
    ensures Half(Half(Half(Half(Half(Half(Half(Half(w)))))))) == w >> 8
  {
  }

  // ---- The polynomial, and the check value ----

  /** The exponents of the Castagnoli polynomial (section 12.1 of RFC 3720), less the leading 32. */
  const EXPONENTS: set<nat> := {28, 27, 26, 25, 23, 22, 20, 19, 18, 14, 13, 11, 10, 9, 8, 6, 0}

  function BitAt(w: bv32, i: nat): bool
    requires i < 32
  {
    (w >> i) & 1 == 1
  }

  /** The reflected register keeps the coefficient of x^e at bit 31 - e. */
  lemma PolynomialIsCastagnoli(e: nat)
    requires e < 32
    ensures BitAt(POLYNOMIAL, 31 - e) <==> e in EXPONENTS
  {
  }

  lemma FirstBit(crc: bv32, v: nat, n: nat)
    ensures FeedBits(crc, Bits(v, n + 1)) == FeedBits(FeedBit(crc, v % 2 == 1), Bits(v / 2, n))
  {
    hide FeedBit;
    assert Bits(v, n + 1)[1..] == Bits(v / 2, n);
  }

  /** Eight steps, lowest bit first. */
  function FeedEight(crc: bv32, b0: bool, b1: bool, b2: bool, b3: bool, b4: bool, b5: bool, b6: bool, b7: bool): bv32 {
    FeedBit(FeedBit(FeedBit(FeedBit(FeedBit(FeedBit(FeedBit(FeedBit(crc, b0), b1), b2), b3), b4), b5), b6), b7)
  }

  lemma NextBit(crc: bv32, bit: bool, rest: nat, n: nat)
    ensures FeedBits(crc, Bits(Digit(bit) + 2 * rest, n + 1)) == FeedBits(FeedBit(crc, bit), Bits(rest, n))
  {
    hide FeedBit, FeedBits, Bits;
    FirstBit(crc, Digit(bit) + 2 * rest, n);
  }

  lemma TwoBits(crc: bv32, b0: bool, b1: bool, rest: nat, v: nat, n: nat)
    requires v == Digit(b0) + 2 * Digit(b1) + 4 * rest
    ensures FeedBits(crc, Bits(v, n + 2)) == FeedBits(FeedBit(FeedBit(crc, b0), b1), Bits(rest, n))
  {
    hide FeedBit, FeedBits, Bits, Digit;
    NextBit(crc, b0, Digit(b1) + 2 * rest, n + 1);
    NextBit(FeedBit(crc, b0), b1, rest, n);
  }

  lemma ByteByBits(crc: bv32, b: byte, b0: bool, b1: bool, b2: bool, b3: bool, b4: bool, b5: bool, b6: bool, b7: bool)
    requires b == Digit(b0) + 2 * Digit(b1) + 4 * Digit(b2) + 8 * Digit(b3)
      + 16 * Digit(b4) + 32 * Digit(b5) + 64 * Digit(b6) + 128 * Digit(b7)
    ensures FeedByte(crc, b) == FeedEight(crc, b0, b1, b2, b3, b4, b5, b6, b7)
  {
    hide FeedBit, FeedBits, Bits, Digit;
    var r6 := Digit(b6) + 2 * Digit(b7);
    var r4 := Digit(b4) + 2 * Digit(b5) + 4 * r6;
    var r2 := Digit(b2) + 2 * Digit(b3) + 4 * r4;
    var c2 := FeedBit(FeedBit(crc, b0), b1);
    var c4 := FeedBit(FeedBit(c2, b2), b3);
    var c6 := FeedBit(FeedBit(c4, b4), b5);
    TwoBits(crc, b0, b1, r2, b, 6);
    TwoBits(c2, b2, b3, r4, r2, 4);
    TwoBits(c4, b4, b5, r6, r4, 2);
    TwoBits(c6, b6, b7, 0, r6, 0);
    NoBits(0);
    FeedNoBits(FeedBit(FeedBit(c6, b6), b7));
  }

  function Digit(b: bool): nat {
    if b then 1 else 0
  }

  lemma FeedNoBits(crc: bv32)
    ensures FeedBits(crc, []) == crc
  {
  }

  lemma FeedDigit1()
    ensures FeedByte(0xFFFF_FFFF, 0x31) == 0x6F0A_661C
  {
    hide FeedByte;
    ByteByBits(0xFFFF_FFFF, 0x31, true, false, false, false, true, true, false, false);
  }

  lemma FeedDigit2()
    ensures FeedByte(0x6F0A_661C, 0x32) == 0x8CAA_3B9F
  {
    hide FeedByte;
    ByteByBits(0x6F0A_661C, 0x32, false, true, false, false, true, true, false, false);
  }

  lemma FeedDigit3()
    ensures FeedByte(0x8CAA_3B9F, 0x33) == 0xEF84_D04D
  {
    hide FeedByte;
    ByteByBits(0x8CAA_3B9F, 0x33, true, true, false, false, true, true, false, false);
  }

  lemma FeedDigit4()
    ensures FeedByte(0xEF84_D04D, 0x34) == 0x09C5_0B11
  {
    hide FeedByte;
    ByteByBits(0xEF84_D04D, 0x34, false, false, true, false, true, true, false, false);
  }

  lemma FeedDigit5()
    ensures FeedByte(0x09C5_0B11, 0x35) == 0xE72E_DCCA
  {
    hide FeedByte;
    ByteByBits(0x09C5_0B11, 0x35, true, false, true, false, true, true, false, false);
  }

  lemma FeedDigit6()
    ensures FeedByte(0xE72E_DCCA, 0x36) == 0xBECA_8E79
  {
    hide FeedByte;
    ByteByBits(0xE72E_DCCA, 0x36, false, true, true, false, true, true, false, false);
  }

  lemma FeedDigit7()
    ensures FeedByte(0xBECA_8E79, 0x37) == 0xEDBD_6815
  {
    hide FeedByte;
    ByteByBits(0xBECA_8E79, 0x37, true, true, true, false, true, true, false, false);
  }

  lemma FeedDigit8()
    ensures FeedByte(0xEDBD_6815, 0x38) == 0x9F78_7F65
  {
    hide FeedByte;
    ByteByBits(0xEDBD_6815, 0x38, false, false, false, true, true, true, false, false);
  }

  lemma FeedDigit9()
    ensures FeedByte(0x9F78_7F65, 0x39) == 0x1CF9_6D7C
  {
    hide FeedByte;
    ByteByBits(0x9F78_7F65, 0x39, true, false, false, true, true, true, false, false);
  }

  lemma FeedFrom(crc: bv32, bytes: seq<byte>, i: nat)
    requires i < |bytes|
    ensures Feed(crc, bytes[i..]) == Feed(FeedByte(crc, bytes[i]), bytes[i + 1..])
  {
    hide FeedByte;
    assert bytes[i..][1..] == bytes[i + 1..];
  }

  /** The check value of CRC32C: that of the nine digits "123456789". */
  lemma CheckValue()
    ensures Value(Crc([0x31, 0x32, 0x33, 0x34, 0x35, 0x36, 0x37, 0x38, 0x39], 0)) == 0xE306_9283
  {
    hide Feed, FeedBit, FeedByte, Value;
    var digits: seq<byte> := [0x31, 0x32, 0x33, 0x34, 0x35, 0x36, 0x37, 0x38, 0x39];
    assert digits[0..] == digits;
    FeedDigit1();
    assert Feed(0xFFFF_FFFF, digits[0..]) == Feed(0x6F0A_661C, digits[1..]) by {
      FeedFrom(0xFFFF_FFFF, digits, 0);
    }
    FeedDigit2();
    assert Feed(0x6F0A_661C, digits[1..]) == Feed(0x8CAA_3B9F, digits[2..]) by {
      FeedFrom(0x6F0A_661C, digits, 1);
    }
    FeedDigit3();
    assert Feed(0x8CAA_3B9F, digits[2..]) == Feed(0xEF84_D04D, digits[3..]) by {
      FeedFrom(0x8CAA_3B9F, digits, 2);
    }
    FeedDigit4();
    assert Feed(0xEF84_D04D, digits[3..]) == Feed(0x09C5_0B11, digits[4..]) by {
      FeedFrom(0xEF84_D04D, digits, 3);
    }
    FeedDigit5();
    assert Feed(0x09C5_0B11, digits[4..]) == Feed(0xE72E_DCCA, digits[5..]) by {
      FeedFrom(0x09C5_0B11, digits, 4);
    }
    FeedDigit6();
    assert Feed(0xE72E_DCCA, digits[5..]) == Feed(0xBECA_8E79, digits[6..]) by {
      FeedFrom(0xE72E_DCCA, digits, 5);
    }
    FeedDigit7();
    assert Feed(0xBECA_8E79, digits[6..]) == Feed(0xEDBD_6815, digits[7..]) by {
      FeedFrom(0xBECA_8E79, digits, 6);
    }
    FeedDigit8();
    assert Feed(0xEDBD_6815, digits[7..]) == Feed(0x9F78_7F65, digits[8..]) by {
      FeedFrom(0xEDBD_6815, digits, 7);
    }
    FeedDigit9();
    assert Feed(0x9F78_7F65, digits[8..]) == Feed(0x1CF9_6D7C, digits[9..]) by {
      FeedFrom(0x9F78_7F65, digits, 8);
    }
    FeedNothing(0x1CF9_6D7C);
    assert digits[9..] == [];
    CheckRegister();
  }

  lemma ValueBit(w: bv32, n: nat)
    ensures NatOf(LowBits(w, n + 1)) == Digit(Low(w)) + 2 * NatOf(LowBits(Half(w), n))
  {
    assert LowBits(w, n + 1)[1..] == LowBits(Half(w), n);
  }

  lemma CheckByte0()
    ensures NatOf(LowBits(0xE306_9283, 32)) == 0x83 + 0x100 * NatOf(LowBits(0x00E3_0692, 24))
  {
    hide LowBits, NatOf;
    ValueBit(0xE306_9283, 31);
    ValueBit(0x7183_4941, 30);
    ValueBit(0x38C1_A4A0, 29);
    ValueBit(0x1C60_D250, 28);
    ValueBit(0x0E30_6928, 27);
    ValueBit(0x0718_3494, 26);
    ValueBit(0x038C_1A4A, 25);
    ValueBit(0x01C6_0D25, 24);
  }

  lemma CheckByte1()
    ensures NatOf(LowBits(0x00E3_0692, 24)) == 0x92 + 0x100 * NatOf(LowBits(0x0000_E306, 16))
  {
    hide LowBits, NatOf;
    ValueBit(0x00E3_0692, 23);
    ValueBit(0x0071_8349, 22);
    ValueBit(0x0038_C1A4, 21);
    ValueBit(0x001C_60D2, 20);
    ValueBit(0x000E_3069, 19);
    ValueBit(0x0007_1834, 18);
    ValueBit(0x0003_8C1A, 17);
    ValueBit(0x0001_C60D, 16);
  }

  lemma CheckByte2()
    ensures NatOf(LowBits(0x0000_E306, 16)) == 0x06 + 0x100 * NatOf(LowBits(0x0000_00E3, 8))
  {
    hide LowBits, NatOf;
    ValueBit(0x0000_E306, 15);
    ValueBit(0x0000_7183, 14);
    ValueBit(0x0000_38C1, 13);
    ValueBit(0x0000_1C60, 12);
    ValueBit(0x0000_0E30, 11);
    ValueBit(0x0000_0718, 10);
    ValueBit(0x0000_038C, 9);
    ValueBit(0x0000_01C6, 8);
  }

  lemma CheckByte3()
    ensures NatOf(LowBits(0x0000_00E3, 8)) == 0xE3 + 0x100 * NatOf(LowBits(0x0000_0000, 0))
  {
    hide LowBits, NatOf;
    ValueBit(0x0000_00E3, 7);
    ValueBit(0x0000_0071, 6);
    ValueBit(0x0000_0038, 5);
    ValueBit(0x0000_001C, 4);
    ValueBit(0x0000_000E, 3);
    ValueBit(0x0000_0007, 2);
    ValueBit(0x0000_0003, 1);
    ValueBit(0x0000_0001, 0);
  }

  lemma CheckRegister()
    ensures Value(0xE306_9283) == 0xE306_9283
  {
    hide LowBits, NatOf;
    CheckByte0();
    CheckByte1();
    CheckByte2();
    CheckByte3();
    NoValue();
  }

  lemma NoValue()
    ensures NatOf(LowBits(0, 0)) == 0
  {
  }
}
