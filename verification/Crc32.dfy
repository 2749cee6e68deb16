/**
 The CRC-32 of hash/crc32.NewIEEE, in the bit-by-bit form of section 8 of RFC 1952.
 A digest holds the checksum of the bytes written so far; writing more bytes updates it.
 */
module Crc32 {
  import opened Bytes

  function Xor(r: bv32, x: bv32): bv32 {
    r ^ x
  }

  function Low(r: bv32): bv32 {
    r & 1
  }

  function Half(r: bv32): bv32 {
    r >> 1
  }

  function Tap(low: bv32, half: bv32): bv32 {
    if low == 1 then half ^ 0xEDB88320 else half
  }

  /** One bit of polynomial division. */
  function Shift(r: bv32): bv32 {
    Tap(Low(r), Half(r))
  }

  function Shift8(r: bv32): bv32 {
    Shift(Shift(Shift(Shift(Shift(Shift(Shift(Shift(r))))))))
  }

  function Widen(b: byte): bv32 {
    b as bv32
  }

  function Flip(r: bv32): bv32 {
    r ^ 0xFFFF_FFFF
  }

  function FeedByte(r: bv32, b: byte): bv32 {
    Shift8(Xor(r, Widen(b)))
  }

  /** The shift register after `data`, started at `r`. */
  function Feed(r: bv32, data: bytes): bv32
    decreases data
  {
    if data == [] then r else Feed(FeedByte(r, data[0]), data[1..])
  }

  /** digest.Write: the checksum `c` of some bytes becomes the checksum of those bytes and `data`. */
  function Update(c: bv32, data: bytes): bv32 {
    Flip(Feed(Flip(c), data))
  }

  /** The checksum of `data` in one go. */
  function Checksum(data: bytes): bv32 {
    Update(0, data)
  }

  function ToBytes(c: bv32): (b: bytes)
    ensures |b| == 4
  {
    [(c & 0xFF) as byte, ((c >> 8) & 0xFF) as byte, ((c >> 16) & 0xFF) as byte, ((c >> 24) & 0xFF) as byte]
  }

  function Word(b0: byte, b1: byte, b2: byte, b3: byte): bv32 {
    (b0 as bv32) | ((b1 as bv32) << 8) | ((b2 as bv32) << 16) | ((b3 as bv32) << 24)
  }

  function FromBytes(b: bytes): bv32
    requires |b| == 4
  {
    Word(b[0], b[1], b[2], b[3])
  }

  lemma TrailerRoundTrip(c: bv32)
    ensures FromBytes(ToBytes(c)) == c
  {
  }

  lemma TrailerInjective(b: bytes, b': bytes)
    requires |b| == |b'| == 4 && FromBytes(b) == FromBytes(b')
    ensures b == b'
  {
    hide Word;
    WordInjective(b[0], b[1], b[2], b[3], b'[0], b'[1], b'[2], b'[3]);
    assert b == [b[0], b[1], b[2], b[3]] && b' == [b'[0], b'[1], b'[2], b'[3]];
  }

  lemma WordInjective(b0: byte, b1: byte, b2: byte, b3: byte, c0: byte, c1: byte, c2: byte, c3: byte)
    requires Word(b0, b1, b2, b3) == Word(c0, c1, c2, c3)
    ensures b0 == c0 && b1 == c1 && b2 == c2 && b3 == c3
  {
  }

  // ---- streaming ----

  lemma {:induction false} FeedConcat(r: bv32, a: bytes, b: bytes)
    ensures Feed(r, a + b) == Feed(Feed(r, a), b)
    decreases a
  {
    hide FeedByte, Shift8, Shift;
    if a == [] {
      assert a + b == b;
    } else {
      assert (a + b)[0] == a[0] && (a + b)[1..] == a[1..] + b;
      FeedConcat(FeedByte(r, a[0]), a[1..], b);
    }
  }

  /** Writing in pieces gives the checksum of the whole. */
  lemma UpdateConcat(c: bv32, a: bytes, b: bytes)
    ensures Update(Update(c, a), b) == Update(c, a + b)
  {
    hide Feed, Flip;
    FeedConcat(Flip(c), a, b);
    DoubleComplement(Feed(Flip(c), a));
  }

  lemma DoubleComplement(r: bv32)
    ensures Flip(Flip(r)) == r
  {
  }

  lemma UpdateNothing(c: bv32)
    ensures Update(c, []) == c
  {
    hide Flip;
    DoubleComplement(c);
  }

  // ---- error detection ----

  /** A shift loses nothing: the top bit of the result says which branch was taken. */
  lemma ShiftInjective(r: bv32, r': bv32)
    requires Shift(r) == Shift(r')
    ensures r == r'
  {
  }

  lemma Shift8Injective(r: bv32, r': bv32)
    requires Shift8(r) == Shift8(r')
    ensures r == r'
  {
    var a, a' := Shift(r), Shift(r');
    var b, b' := Shift(a), Shift(a');
    var c, c' := Shift(b), Shift(b');
    var d, d' := Shift(c), Shift(c');
    var e, e' := Shift(d), Shift(d');
    var f, f' := Shift(e), Shift(e');
    var g, g' := Shift(f), Shift(f');
    ShiftInjective(g, g');
    ShiftInjective(f, f');
    ShiftInjective(e, e');
    ShiftInjective(d, d');
    ShiftInjective(c, c');
    ShiftInjective(b, b');
    ShiftInjective(a, a');
    ShiftInjective(r, r');
  }

  lemma XorInjective(r: bv32, r': bv32, x: bv32)
    requires Xor(r, x) == Xor(r', x)
    ensures r == r'
  {
    assert (r ^ x) ^ x == r;
    assert (r' ^ x) ^ x == r';
  }

  lemma FlipInjective(r: bv32, r': bv32)
    requires Flip(r) == Flip(r')
    ensures r == r'
  {
    XorInjective(r, r', 0xFFFF_FFFF);
  }

  lemma FeedByteInjective(r: bv32, r': bv32, b: byte)
    requires FeedByte(r, b) == FeedByte(r', b)
    ensures r == r'
  {
    hide Shift8, Xor, Widen;
    Shift8Injective(Xor(r, Widen(b)), Xor(r', Widen(b)));
    XorInjective(r, r', Widen(b));
  }

  /** Two registers that differ still differ after any common suffix. */
  lemma {:induction false} FeedInjective(r: bv32, r': bv32, data: bytes)
    requires Feed(r, data) == Feed(r', data)
    ensures r == r'
    decreases data
  {
    hide FeedByte, Shift8, Shift;
    if data == [] {
    } else {
      FeedInjective(FeedByte(r, data[0]), FeedByte(r', data[0]), data[1..]);
      FeedByteInjective(r, r', data[0]);
    }
  }

  /** A byte with up to three bytes above it. */
  function Above(b: byte, high: bv32): bv32 {
    (b as bv32) | (high << 8)
  }

  /** Up to four bytes as one register-wide word. */
  function Pack(w: bytes): bv32
    requires |w| <= 4
  {
    if w == [] then 0 else Above(w[0], Pack(w[1..]))
  }

  predicate Fits(x: bv32, k: nat) {
    if k == 0 then x == 0 else if k == 1 then x < 0x100 else if k == 2 then x < 0x1_0000
    else if k == 3 then x < 0x100_0000 else true
  }

  lemma FitsAbove(b: byte, x: bv32, k: nat)
    requires k <= 3 && Fits(x, k)
    ensures Fits(Above(b, x), k + 1)
    ensures Fits(x, 3)
  {
  }

  lemma {:induction false} PackFits(w: bytes)
    requires |w| <= 4
    ensures Fits(Pack(w), |w|)
  {
    hide Above;
    if w == [] {
    } else {
      PackFits(w[1..]);
      FitsAbove(w[0], Pack(w[1..]), |w| - 1);
    }
  }

  lemma AboveSplits(b: byte, x: bv32)
    requires Fits(x, 3)
    ensures Above(b, x) & 0xFF == b as bv32 && Above(b, x) >> 8 == x
  {
  }

  lemma AboveInjective(b: byte, x: bv32, b': byte, x': bv32)
    requires Fits(x, 3) && Fits(x', 3) && Above(b, x) == Above(b', x')
    ensures b == b' && x == x'
  {
    hide Above;
    AboveSplits(b, x);
    AboveSplits(b', x');
  }

  lemma {:induction false} PackInjective(w: bytes, w': bytes)
    requires |w| == |w'| <= 4 && Pack(w) == Pack(w')
    ensures w == w'
  {
    hide Above, Fits;
    if w == [] {
    } else {
      PackFits(w[1..]);
      PackFits(w'[1..]);
      FitsAbove(w[0], Pack(w[1..]), |w| - 1);
      FitsAbove(w'[0], Pack(w'[1..]), |w| - 1);
      AboveInjective(w[0], Pack(w[1..]), w'[0], Pack(w'[1..]));
      PackInjective(w[1..], w'[1..]);
      assert w == [w[0]] + w[1..];
      assert w' == [w'[0]] + w'[1..];
    }
  }

  function Up(y: bv32): bv32 {
    y << 1
  }

  function Up8(y: bv32): bv32 {
    Up(Up(Up(Up(Up(Up(Up(Up(y))))))))
  }

  predicate TopClear(y: bv32) {
    y < 0x8000_0000
  }

  /** Bits that have not reached the low end pass through a shift unchanged. */
  lemma ShiftPassesHigh(r: bv32, y: bv32)
    requires TopClear(y)
    ensures Shift(Xor(r, Up(y))) == Xor(Shift(r), y)
  {
    hide Low, Half, Tap, Xor, Up;
    LowOfXorUp(r, y);
    HalfOfXorUp(r, y);
    TapOfXor(Low(r), Half(r), y);
  }

  lemma LowOfXorUp(r: bv32, y: bv32)
    ensures Low(Xor(r, Up(y))) == Low(r)
  {
  }

  lemma HalfOfXorUp(r: bv32, y: bv32)
    requires TopClear(y)
    ensures Half(Xor(r, Up(y))) == Xor(Half(r), y)
  {
  }

  lemma TapOfXor(low: bv32, half: bv32, y: bv32)
    ensures Tap(low, Xor(half, y)) == Xor(Tap(low, half), y)
  {
  }

  lemma Up8Of(y: bv32)
    requires Fits(y, 3)
    ensures Up8(y) == y << 8
    ensures TopClear(y) && TopClear(Up(y)) && TopClear(Up(Up(y))) && TopClear(Up(Up(Up(y))))
    ensures TopClear(Up(Up(Up(Up(y))))) && TopClear(Up(Up(Up(Up(Up(y))))))
    ensures TopClear(Up(Up(Up(Up(Up(Up(y))))))) && TopClear(Up(Up(Up(Up(Up(Up(Up(y))))))))
  {
  }

  lemma Shift8PassesHigh(r: bv32, y: bv32)
    requires Fits(y, 3)
    ensures Shift8(Xor(r, Up8(y))) == Xor(Shift8(r), y)
  {
    hide Shift, Xor, Up, Fits, TopClear;
    Up8Of(y);
    var a := Shift(r);
    var b := Shift(a);
    var c := Shift(b);
    var d := Shift(c);
    var e := Shift(d);
    var f := Shift(e);
    var g := Shift(f);
    ShiftPassesHigh(r, Up(Up(Up(Up(Up(Up(Up(y))))))));
    ShiftPassesHigh(a, Up(Up(Up(Up(Up(Up(y)))))));
    ShiftPassesHigh(b, Up(Up(Up(Up(Up(y))))));
    ShiftPassesHigh(c, Up(Up(Up(Up(y)))));
    ShiftPassesHigh(d, Up(Up(Up(y))));
    ShiftPassesHigh(e, Up(Up(y)));
    ShiftPassesHigh(f, Up(y));
    ShiftPassesHigh(g, y);
  }

  /** A byte and the bytes above it can be mixed in together. */
  lemma FeedAbove(r: bv32, b: byte, high: bv32)
    requires Fits(high, 3)
    ensures Shift8(Xor(r, Above(b, high))) == Xor(FeedByte(r, b), high)
  {
    hide Shift8, Xor, Above, Widen, Up8, Fits;
    Shift8PassesHigh(Xor(r, Widen(b)), high);
    MixAbove(r, b, high);
  }

  lemma MixAbove(r: bv32, b: byte, high: bv32)
    requires Fits(high, 3)
    ensures Xor(Xor(r, Widen(b)), Up8(high)) == Xor(r, Above(b, high))
  {
    hide Xor, Widen, Up8, Above;
    XorAssociative(r, Widen(b), Up8(high));
    AboveIsXor(b, high);
  }

  lemma XorAssociative(a: bv32, b: bv32, c: bv32)
    ensures Xor(Xor(a, b), c) == Xor(a, Xor(b, c))
  {
  }

  lemma AboveIsXor(b: byte, high: bv32)
    requires Fits(high, 3)
    ensures Xor(Widen(b), Up8(high)) == Above(b, high)
  {
    hide Up8, TopClear, Fits;
    Up8Of(high);
  }

  function ShiftBytes(r: bv32, k: nat): bv32
    decreases k
  {
    if k == 0 then r else ShiftBytes(Shift8(r), k - 1)
  }

  lemma {:induction false} ShiftBytesInjective(r: bv32, r': bv32, k: nat)
    requires ShiftBytes(r, k) == ShiftBytes(r', k)
    ensures r == r'
    decreases k
  {
    hide FeedByte, Shift8, Shift;
    if k == 0 {
    } else {
      ShiftBytesInjective(Shift8(r), Shift8(r'), k - 1);
      Shift8Injective(r, r');
    }
  }

  /** Feeding up to four bytes one at a time is the same as feeding their word at once. */
  lemma {:induction false} FeedWindow(r: bv32, w: bytes)
    requires |w| <= 4
    ensures Feed(r, w) == ShiftBytes(Xor(r, Pack(w)), |w|)
    decreases w
  {
    if w == [] {
      assert Xor(r, 0) == r;
    } else {
      hide FeedByte, Shift8, Above, Xor, Fits;
      var high := Pack(w[1..]);
      PackFits(w[1..]);
      FitsAbove(w[0], high, |w| - 1);
      FeedAbove(r, w[0], high);
      FeedWindow(FeedByte(r, w[0]), w[1..]);
    }
  }

  lemma XorWithInjective(r: bv32, x: bv32, x': bv32)
    requires Xor(r, x) == Xor(r, x')
    ensures x == x'
  {
    hide Xor;
    XorCommutes(r, x);
    XorCommutes(r, x');
    XorInjective(x, x', r);
  }

  lemma XorCommutes(a: bv32, b: bv32)
    ensures Xor(a, b) == Xor(b, a)
  {
  }

  /**
   Replacing a window of at most four bytes by different bytes changes the checksum,
   whatever precedes the window and however long the data after it is.
   */
  lemma BurstDetected(c: bv32, before: bytes, w: bytes, w': bytes, after: bytes)
    requires |w| == |w'| <= 4 && w != w'
    ensures Update(c, before + w + after) != Update(c, before + w' + after)
  {
    hide Feed, ShiftBytes, Pack, Xor, Flip;
    var r := Feed(Flip(c), before);
    FeedConcat(Flip(c), before + w, after);
    FeedConcat(Flip(c), before + w', after);
    FeedConcat(Flip(c), before, w);
    FeedConcat(Flip(c), before, w');
    FeedWindow(r, w);
    FeedWindow(r, w');
    if Update(c, before + w + after) == Update(c, before + w' + after) {
      FlipInjective(Feed(Feed(r, w), after), Feed(Feed(r, w'), after));
      FeedInjective(Feed(r, w), Feed(r, w'), after);
      ShiftBytesInjective(Xor(r, Pack(w)), Xor(r, Pack(w')), |w|);
      XorWithInjective(r, Pack(w), Pack(w'));
      PackInjective(w, w');
    }
  }

  // ---- a known checksum ----

  /** The CRC-32 of the letter a, as zlib gives it. */
  lemma KnownChecksum()
    ensures Checksum([0x61]) == 0xE8B7_BE43
  {
    assert FeedByte(0xFFFF_FFFF, 0x61) == 0x1748_41BC;
    hide FeedByte;
    assert [0x61 as byte][1..] == [];
    assert Feed(0x1748_41BC, []) == 0x1748_41BC;
  }
}
