/** Byte strings and the little-endian integers that encoding/binary reads and writes. */
module Bytes {
  type byte = bv8
  type bytes = seq<byte>

  datatype Option<+T> = None | Some(value: T)

  const TWO_TO_16: nat := 0x1_0000
  const TWO_TO_32: nat := 0x1_0000_0000
  const TWO_TO_63: nat := 0x8000_0000_0000_0000
  const TWO_TO_64: nat := 0x1_0000_0000_0000_0000

  function Pow256(k: nat): (p: nat)
    ensures p > 0
  {
    if k == 0 then 1 else 256 * Pow256(k - 1)
  }

  /** The byte with the given bits, highest first. */
  function Byte(b7: bool, b6: bool, b5: bool, b4: bool, b3: bool, b2: bool, b1: bool, b0: bool): byte {
    (if b7 then 128 else 0) | (if b6 then 64 else 0) | (if b5 then 32 else 0) | (if b4 then 16 else 0)
    | (if b3 then 8 else 0) | (if b2 then 4 else 0) | (if b1 then 2 else 0) | (if b0 then 1 else 0)
  }

  function Less(n: nat, weight: nat): nat {
    if n >= weight then n - weight else n
  }

  /** byte(n): the low eight bits of a number. */
  function ToByte(n: nat): byte {
    var r7 := n % 256;
    var r6 := Less(r7, 128);
    var r5 := Less(r6, 64);
    var r4 := Less(r5, 32);
    var r3 := Less(r4, 16);
    var r2 := Less(r3, 8);
    var r1 := Less(r2, 4);
    var r0 := Less(r1, 2);
    Byte(r7 >= 128, r6 >= 64, r5 >= 32, r4 >= 16, r3 >= 8, r2 >= 4, r1 >= 2, r0 >= 1)
  }

  function Weight(b: byte, bit: byte, weight: nat): nat {
    if b & bit != 0 then weight else 0
  }

  /** The number a byte stands for. */
  function FromByte(b: byte): (n: nat)
    ensures n < 256
  {
    Weight(b, 128, 128) + Weight(b, 64, 64) + Weight(b, 32, 32) + Weight(b, 16, 16)
    + Weight(b, 8, 8) + Weight(b, 4, 4) + Weight(b, 2, 2) + Weight(b, 1, 1)
  }

  function If(bit: bool, weight: nat): nat {
    if bit then weight else 0
  }

  lemma WeightsOfByte(b7: bool, b6: bool, b5: bool, b4: bool, b3: bool, b2: bool, b1: bool, b0: bool)
    ensures FromByte(Byte(b7, b6, b5, b4, b3, b2, b1, b0)) ==
            If(b7, 128) + If(b6, 64) + If(b5, 32) + If(b4, 16) + If(b3, 8) + If(b2, 4) + If(b1, 2) + If(b0, 1)
  {
  }

  lemma TakeBit(n: nat, weight: nat)
    requires n < 2 * weight
    ensures If(n >= weight, weight) + Less(n, weight) == n && Less(n, weight) < weight
  {
  }

  lemma ByteRoundTrip(n: nat)
    ensures FromByte(ToByte(n)) == n % 256
  {
    hide FromByte, Byte, Less, If;
    var r7 := n % 256;
    TakeBit(r7, 128);
    var r6 := Less(r7, 128);
    TakeBit(r6, 64);
    var r5 := Less(r6, 64);
    TakeBit(r5, 32);
    var r4 := Less(r5, 32);
    TakeBit(r4, 16);
    var r3 := Less(r4, 16);
    TakeBit(r3, 8);
    var r2 := Less(r3, 8);
    TakeBit(r2, 4);
    var r1 := Less(r2, 4);
    TakeBit(r1, 2);
    var r0 := Less(r1, 2);
    TakeBit(r0, 1);
    WeightsOfByte(r7 >= 128, r6 >= 64, r5 >= 32, r4 >= 16, r3 >= 8, r2 >= 4, r1 >= 2, r0 >= 1);
  }

  /** The low `width` bytes of `n`, least significant first. */
  function LittleEndian(n: nat, width: nat): (b: bytes)
    ensures |b| == width
  {
    if width == 0 then [] else [ToByte(n)] + LittleEndian(n / 256, width - 1)
  }

  function Value(b: bytes): (n: nat)
    ensures n < Pow256(|b|)
  {
    if b == [] then 0 else FromByte(b[0]) + 256 * Value(b[1..])
  }

  function U16(n: nat): (b: bytes) ensures |b| == 2 { LittleEndian(n, 2) }
  function U32(n: nat): (b: bytes) ensures |b| == 4 { LittleEndian(n, 4) }
  function U64(n: nat): (b: bytes) ensures |b| == 8 { LittleEndian(n, 8) }

  /** Go's conversions uint64(int64) and int64(uint64). */
  function ToUint64(i: int): (n: nat)
    requires -(TWO_TO_63 as int) <= i < TWO_TO_63
    ensures n < TWO_TO_64 && ToInt64(n) == i
  {
    if i < 0 then i + TWO_TO_64 else i
  }

  function ToInt64(n: nat): (i: int)
    requires n < TWO_TO_64
    ensures -(TWO_TO_63 as int) <= i < TWO_TO_63
  {
    if n < TWO_TO_63 then n else n - TWO_TO_64
  }

  /** Reading back what was written gives the number, when it fits in the width. */
  lemma {:induction false} ValueOfLittleEndian(n: nat, width: nat)
    requires n < Pow256(width)
    ensures Value(LittleEndian(n, width)) == n
  {
    hide ToByte, FromByte;
    if width == 0 {
    } else {
      assert LittleEndian(n, width)[1..] == LittleEndian(n / 256, width - 1);
      ByteRoundTrip(n);
      ValueOfLittleEndian(n / 256, width - 1);
    }
  }

  /** A 16-bit field keeps its number modulo 2^16: this is where a node id length is cut. */
  lemma ValueOfU16(n: nat)
    ensures Value(U16(n)) == n % TWO_TO_16
  {
    hide ToByte, FromByte;
    var high := LittleEndian(n / 256, 1);
    assert U16(n) == [ToByte(n)] + high && high == [ToByte(n / 256)] + LittleEndian(n / 256 / 256, 0);
    assert U16(n)[1..] == high && high[1..] == [];
    assert Value(U16(n)) == FromByte(ToByte(n)) + 256 * Value(high);
    assert Value(high) == FromByte(ToByte(n / 256)) + 256 * Value([]);
    ByteRoundTrip(n);
    ByteRoundTrip(n / 256);
  }

  lemma Pow256Of4()
    ensures Pow256(4) == TWO_TO_32
  {
    assert Pow256(2) == 256 * Pow256(1) == 256 * 256 * Pow256(0);
    assert Pow256(4) == 256 * Pow256(3) == 256 * 256 * Pow256(2);
  }

  lemma Pow256Of8()
    ensures Pow256(8) == TWO_TO_64
  {
    Pow256Of4();
    assert Pow256(6) == 256 * Pow256(5) == 256 * 256 * Pow256(4);
    assert Pow256(8) == 256 * Pow256(7) == 256 * 256 * Pow256(6);
  }

  lemma ValueOfU32(n: nat)
    requires n < TWO_TO_32
    ensures Value(U32(n)) == n
  {
    ValueOfLittleEndian(n, 4);
    Pow256Of4();
  }

  lemma ValueOfU64(n: nat)
    requires n < TWO_TO_64
    ensures Value(U64(n)) == n
  {
    ValueOfLittleEndian(n, 8);
    Pow256Of8();
  }

  // ---- the other direction, and where the bytes stand ----

  lemma ByteOfBits(b: byte)
    ensures Byte(b & 128 != 0, b & 64 != 0, b & 32 != 0, b & 16 != 0, b & 8 != 0, b & 4 != 0, b & 2 != 0, b & 1 != 0)
         == b
  {
  }

  lemma PeelBit(b: byte, bit: byte, weight: nat, rest: nat)
    requires rest < weight
    ensures (Weight(b, bit, weight) + rest >= weight) == (b & bit != 0)
    ensures Less(Weight(b, bit, weight) + rest, weight) == rest
  {
  }

  lemma NumberRoundTrip(b: byte)
    ensures ToByte(FromByte(b)) == b
  {
    hide Byte, Less, Weight;
    var n0 := 0;
    PeelBit(b, 1, 1, 0);
    var n1 := Weight(b, 1, 1) + n0;
    WeightIs(b, 1, 1);
    WeightIs(b, 2, 2);
    WeightIs(b, 4, 4);
    WeightIs(b, 8, 8);
    WeightIs(b, 16, 16);
    WeightIs(b, 32, 32);
    WeightIs(b, 64, 64);
    PeelBit(b, 2, 2, n1);
    var n2 := Weight(b, 2, 2) + n1;
    PeelBit(b, 4, 4, n2);
    var n4 := Weight(b, 4, 4) + n2;
    PeelBit(b, 8, 8, n4);
    var n8 := Weight(b, 8, 8) + n4;
    PeelBit(b, 16, 16, n8);
    var n16 := Weight(b, 16, 16) + n8;
    PeelBit(b, 32, 32, n16);
    var n32 := Weight(b, 32, 32) + n16;
    PeelBit(b, 64, 64, n32);
    var n64 := Weight(b, 64, 64) + n32;
    PeelBit(b, 128, 128, n64);
    assert FromByte(b) % 256 == Weight(b, 128, 128) + n64;
    ByteOfBits(b);
  }

  lemma WeightIs(b: byte, bit: byte, weight: nat)
    ensures Weight(b, bit, weight) <= weight
  {
  }

  /** Only the low eight bits of a number reach its byte. */
  lemma ToByteOf(n: nat, m: nat)
    requires n % 256 == m % 256
    ensures ToByte(n) == ToByte(m)
  {
  }

  /** Writing what was read gives the bytes back. */
  lemma {:induction false} LittleEndianOfValue(b: bytes)
    ensures LittleEndian(Value(b), |b|) == b
  {
    hide ToByte, FromByte;
    if b == [] {
    } else {
      var low, high := FromByte(b[0]), Value(b[1..]);
      LittleEndianOfValue(b[1..]);
      NumberRoundTrip(b[0]);
      assert (low + 256 * high) % 256 == low && (low + 256 * high) / 256 == high;
      ToByteOf(Value(b), low);
    }
  }

  /** Byte `i` of the encoding is digit `i` of the number in base 256, counted from the least significant. */
  lemma {:induction false} LittleEndianAt(n: nat, width: nat, i: nat)
    requires i < width
    ensures FromByte(LittleEndian(n, width)[i]) == n / Pow256(i) % 256
    decreases i
  {
    hide ToByte, FromByte;
    if i == 0 {
      ByteRoundTrip(n);
    } else {
      LittleEndianAt(n / 256, width - 1, i - 1);
      DivDiv(n, Pow256(i - 1));
    }
  }

  lemma DivDiv(n: nat, m: nat)
    requires m > 0
    ensures n / 256 / m == n / (256 * m)
  {
    var q, r := n / 256, n % 256;
    var q', r' := q / m, q % m;
    assert n == 256 * (m * q' + r') + r == (256 * m) * q' + (256 * r' + r);
    assert 256 * r' + r < 256 * m;
    Quotient(n, 256 * m, q', 256 * r' + r);
  }

  lemma NextMultiple(d: nat, a: nat, b: nat)
    requires a < b
    ensures d * a + d <= d * b
  {
    var k := b - a - 1;
    assert d * b == d * (a + 1 + k) == d * a + d + d * k;
  }

  lemma Quotient(n: nat, d: nat, q: nat, r: nat)
    requires d > 0 && n == d * q + r && r < d
    ensures n / d == q
  {
    var q' := n / d;
    assert n == d * q' + n % d;
    if q' < q {
      NextMultiple(d, q', q);
    } else if q < q' {
      NextMultiple(d, q, q');
    }
  }
}
