/** The CRC of bus/driver/crc.c: the table-driven loop against bit-by-bit division, and what the
    division detects. */
module Crc {
  import opened CrcTable

  const INITIAL: bv16 := 0xFFFF

  // ---- bit-by-bit division ----

  function Xor(x: bv16, y: bv16): bv16 { x ^ y }

  function Top(b: bool): bv16 { if b then 0x8000 else 0 }

  /** Feed one message bit, most significant first. */
  function Feed(c: bv16, b: bool): bv16 { Shift(Xor(c, Top(b))) }

  function Divide(c: bv16, bits: seq<bool>): bv16
    decreases |bits|
  {
    if bits == [] then c else Divide(Feed(c, bits[0]), bits[1..])
  }

  /** The n highest bits of a word, top first. */
  function TopBits(w: bv16, n: nat): (bits: seq<bool>)
    ensures |bits| == n
    decreases n
  {
    if n == 0 then [] else [w & 0x8000 != 0] + TopBits(w << 1, n - 1)
  }

  /** A byte as the high half of a word. */
  function High(b: bv8): bv16 { (b as bv16) << 8 }

  function ByteBits(b: bv8): seq<bool> { TopBits(High(b), 8) }

  function Bits(message: seq<bv8>): (bits: seq<bool>) ensures |bits| == 8 * |message| {
    if message == [] then [] else ByteBits(message[0]) + Bits(message[1..])
  }

  /** The CRC of a message, with start value c. */
  function Crc16(c: bv16, message: seq<bv8>): bv16 {
    Divide(c, Bits(message))
  }

  // ---- one step of the register ----

  lemma ShiftXor(x: bv16, y: bv16)
    ensures Shift(x ^ y) == Shift(x) ^ Shift(y)
  {
    ShiftCases(x);
    ShiftCases(y);
    ShiftCases(x ^ y);
    XorParts(x, y);
    hide Shift;
    XorFirst(x << 1, y << 1, 0x1021);
    XorFirst(y << 1, x << 1, 0x1021);
    XorBoth(x << 1, y << 1, 0x1021);
  }

  lemma XorParts(x: bv16, y: bv16)
    ensures (x ^ y) << 1 == (x << 1) ^ (y << 1)
    ensures (x ^ y) & 0x8000 == 0 <==> (x & 0x8000 == 0 <==> y & 0x8000 == 0)
  {}

  lemma XorFirst(u: bv16, v: bv16, c: bv16)
    ensures (u ^ c) ^ v == (u ^ v) ^ c && v ^ (u ^ c) == (v ^ u) ^ c
  {}

  lemma XorBoth(u: bv16, v: bv16, c: bv16)
    ensures (u ^ c) ^ (v ^ c) == u ^ v
  {}

  lemma OddEven(x: bv16, y: bv16)
    ensures (x << 1) ^ 0x1021 != y << 1
  {}

  lemma Unshift(x: bv16, y: bv16)
    requires (x & 0x8000 == 0) == (y & 0x8000 == 0)
    ensures (x << 1) ^ 0x1021 == (y << 1) ^ 0x1021 || x << 1 == y << 1 ==> x == y
  {}

  /** The register never forgets: no two states have the same next state. */
  lemma ShiftInjective(x: bv16, y: bv16)
    requires Shift(x) == Shift(y)
    ensures x == y
  {
    ShiftCases(x);
    ShiftCases(y);
    hide Shift;
    OddEven(x, y);
    OddEven(y, x);
    Unshift(x, y);
  }

  lemma ShiftCases(x: bv16)
    ensures x & 0x8000 == 0 ==> Shift(x) == x << 1
    ensures x & 0x8000 != 0 ==> Shift(x) == (x << 1) ^ 0x1021
  {}

  function ShiftN(c: bv16, n: nat): bv16
    decreases n
  {
    if n == 0 then c else ShiftN(Shift(c), n - 1)
  }

  lemma {:induction false} ShiftNInjective(x: bv16, y: bv16, n: nat)
    requires ShiftN(x, n) == ShiftN(y, n)
    ensures x == y
    decreases n
  {
    hide Shift;
    if n > 0 {
      ShiftNInjective(Shift(x), Shift(y), n - 1);
      ShiftInjective(x, y);
    }
  }

  lemma {:induction false} ShiftNZero(n: nat)
    ensures ShiftN(0, n) == 0
  {
    if n > 0 {
      assert Shift(0) == 0;
      ShiftNZero(n - 1);
    }
  }

  lemma {:induction false} ShiftNSplit(c: bv16, m: nat, n: nat)
    ensures ShiftN(c, m + n) == ShiftN(ShiftN(c, m), n)
    decreases m
  {
    hide Shift;
    if m > 0 {
      ShiftNSplit(Shift(c), m - 1, n);
    }
  }

  lemma Shift8IsEight(c: bv16)
    ensures ShiftN(c, 8) == Shift8(c)
  {
    hide Shift;
    ShiftNSplit(c, 2, 6);
    ShiftNSplit(Shift(Shift(c)), 2, 4);
    ShiftNSplit(Shift(Shift(Shift(Shift(c)))), 2, 2);
  }

  // ---- feeding bits is shifting a word that starts with them ----

  function Half(x: bv16): bv16 { x >> 1 }

  /** Up to 16 bits, first bit on top. */
  function Packed(bits: seq<bool>): bv16 {
    if bits == [] then 0 else Xor(Top(bits[0]), Half(Packed(bits[1..])))
  }

  /** The k lowest bits. */
  function Ones(k: nat): bv16 { if k == 0 then 0 else (Ones(k - 1) << 1) | 1 }

  function And(x: bv16, y: bv16): bv16 { x & y }

  lemma {:induction false} OnesNest(k: nat, j: nat)
    requires k <= j
    ensures And(Ones(k), Ones(j)) == Ones(k)
  {
    hide And;
    if k == 0 {
      AndZero(Ones(j));
    } else {
      OnesNest(k - 1, j - 1);
      OnesStep(k - 1);
      OnesStep(j - 1);
      hide Ones;
      OnesNestRaw(Ones(k - 1), Ones(j - 1));
    }
  }

  lemma AndZero(x: bv16)
    ensures And(0, x) == 0
  {}

  lemma OnesStep(k: nat)
    ensures Ones(k + 1) == (Ones(k) << 1) | 1
  {}

  lemma OnesNestRaw(a: bv16, b: bv16)
    requires And(a, b) == a
    ensures And((a << 1) | 1, (b << 1) | 1) == (a << 1) | 1
  {}

  lemma OnesBelowTop(k: nat)
    requires k <= 15
    ensures Ones(k) & 0x8000 == 0
  {
    assert Ones(15) == 0x7FFF;
    OnesNest(k, 15);
    BelowRaw(Ones(k));
  }

  lemma BelowRaw(a: bv16)
    requires a & 0x7FFF == a
    ensures a & 0x8000 == 0
  {}

  lemma TopCases(b: bool)
    ensures Top(b) == 0 || Top(b) == 0x8000
  {}

  /** Packing n bits leaves the low 16 - n bits clear. */
  lemma {:induction false} PackedLow(bits: seq<bool>)
    requires |bits| <= 16
    ensures Packed(bits) & Ones(16 - |bits|) == 0
  {
    hide Top, Ones;
    if bits == [] {
      PackRaw(0, 0, 0);
    } else {
      PackedLow(bits[1..]);
      OnesBelowTop(16 - |bits|);
      TopCases(bits[0]);
      OnesStep(16 - |bits|);
      PackRaw(Packed(bits[1..]), Ones(16 - |bits|), Top(bits[0]));
    }
  }

  lemma PackRaw(p: bv16, m: bv16, t: bv16)
    requires m & 0x8000 == 0 && p & ((m << 1) | 1) == 0 && (t == 0 || t == 0x8000)
    ensures (t ^ (p >> 1)) & m == 0
  {}

  /** A packed word of at most 15 bits survives being halved and shifted. */
  lemma HalfShift(bits: seq<bool>)
    requires |bits| <= 15
    ensures Shift(Half(Packed(bits))) == Packed(bits)
  {
    hide Packed, Shift, Ones, Half;
    PackedLow(bits);
    OnesStep(15 - |bits|);
    HalfShiftRaw(Packed(bits), Ones(15 - |bits|));
  }

  lemma HalfShiftRaw(p: bv16, m: bv16)
    requires p & ((m << 1) | 1) == 0
    ensures Shift(Half(p)) == p
  {
    hide Shift;
    LowClear(p, m);
    ShiftCases(p >> 1);
  }

  lemma LowClear(p: bv16, m: bv16)
    requires p & ((m << 1) | 1) == 0
    ensures (p >> 1) << 1 == p && (p >> 1) & 0x8000 == 0
  {}

  lemma XorLaws(x: bv16, y: bv16, z: bv16)
    ensures Xor(x, Xor(y, z)) == Xor(Xor(x, y), z) && Xor(x, y) == Xor(y, x) && Xor(x, 0) == x && Xor(x, x) == 0
    ensures Shift(Xor(x, y)) == Xor(Shift(x), Shift(y))
  {
    hide Shift;
    ShiftXor(x, y);
  }

  /** Feeding up to 16 bits is adding them to the top of the register and shifting. */
  lemma {:induction false} DividePacked(c: bv16, bits: seq<bool>)
    requires |bits| <= 16
    ensures Divide(c, bits) == ShiftN(Xor(c, Packed(bits)), |bits|)
    decreases |bits|
  {
    hide Shift, Top, Xor, Half;
    if bits == [] {
      XorLaws(c, 0, 0);
    } else {
      var half, x := Half(Packed(bits[1..])), Xor(c, Top(bits[0]));
      DividePacked(Feed(c, bits[0]), bits[1..]);
      XorLaws(c, Top(bits[0]), half);
      XorLaws(x, half, 0);
      HalfShift(bits[1..]);
    }
  }

  // ---- linearity ----

  lemma {:induction false} DivideConcat(c: bv16, a: seq<bool>, b: seq<bool>)
    ensures Divide(c, a + b) == Divide(Divide(c, a), b)
    decreases |a|
  {
    hide Feed;
    if a == [] {
      assert a + b == b;
    } else {
      assert (a + b)[1..] == a[1..] + b;
      DivideConcat(Feed(c, a[0]), a[1..], b);
    }
  }

  lemma BitsConcat(a: seq<bv8>, b: seq<bv8>)
    ensures Bits(a + b) == Bits(a) + Bits(b)
  {
    hide ByteBits;
    if a == [] {
      assert a + b == b;
    } else {
      assert (a + b)[1..] == a[1..] + b;
      BitsConcat(a[1..], b);
      assert Bits(a + b) == ByteBits(a[0]) + (Bits(a[1..]) + Bits(b));
    }
  }

  /** The CRC can be computed piece by piece. */
  lemma Composes(c: bv16, a: seq<bv8>, b: seq<bv8>)
    ensures Crc16(c, a + b) == Crc16(Crc16(c, a), b)
  {
    BitsConcat(a, b);
    DivideConcat(c, Bits(a), Bits(b));
  }

  function Differences(a: seq<bool>, b: seq<bool>): (d: seq<bool>)
    requires |a| == |b|
    ensures |d| == |a|
  {
    seq(|a|, k requires 0 <= k < |a| => a[k] != b[k])
  }

  lemma FeedXor(c: bv16, d: bv16, a: bool, b: bool)
    ensures Xor(Feed(c, a), Feed(d, b)) == Feed(Xor(c, d), a != b)
  {
    hide Shift, Xor, Top;
    XorLaws(Xor(c, Top(a)), Xor(d, Top(b)), 0);
    XorPairs(c, Top(a), d, Top(b));
    TopXor(a, b);
  }

  lemma TopXor(a: bool, b: bool)
    ensures Xor(Top(a), Top(b)) == Top(a != b)
  {
    if a { if b {} else {} } else { if b {} else {} }
  }

  lemma XorPairs(a: bv16, b: bv16, c: bv16, d: bv16)
    ensures Xor(Xor(a, b), Xor(c, d)) == Xor(Xor(a, c), Xor(b, d))
  {
    hide Xor, Shift;
    XorLaws(a, b, Xor(c, d));
    XorLaws(b, c, d);
    XorLaws(c, b, d);
    XorLaws(a, c, Xor(b, d));
  }

  /** Dividing two messages and adding the remainders is dividing their difference. */
  lemma {:induction false} DivideDifference(c: bv16, d: bv16, a: seq<bool>, b: seq<bool>)
    requires |a| == |b|
    ensures Xor(Divide(c, a), Divide(d, b)) == Divide(Xor(c, d), Differences(a, b))
    decreases |a|
  {
    hide Feed, Xor;
    if a != [] {
      assert Differences(a, b)[1..] == Differences(a[1..], b[1..]);
      FeedXor(c, d, a[0], b[0]);
      DivideDifference(Feed(c, a[0]), Feed(d, b[0]), a[1..], b[1..]);
    }
  }

  // ---- the driver's loop ----

  /** The table-driven loop computes the bit-by-bit division. */
  method CrcUpdate(start: bv16, data: array<bv8>, len: nat) returns (crc: bv16)
    requires len <= data.Length && len < 0x10000
    ensures crc == Crc16(start, data[..len])
  {
    hide Crc16, Entry;
    crc := start;
    NoBytes(start, data[..0]);
    for i := 0 to len
      invariant crc == Crc16(start, data[..i])
    {
      TableStepAfter(start, data[..i], data[i], data[..i + 1]);
      var tmp := (crc >> 8) ^ (data[i] as bv16);
      crc := (crc << 8) ^ Entry(tmp);
    }
  }

  lemma NoBytes(c: bv16, m: seq<bv8>)
    requires m == []
    ensures Crc16(c, m) == c
  {}

  lemma TableStepAfter(start: bv16, m: seq<bv8>, b: bv8, more: seq<bv8>)
    requires more == m + [b]
    ensures var c := Crc16(start, m);
            ((c >> 8) ^ (b as bv16)) as int < 256 &&
            Crc16(start, more) == (c << 8) ^ Entry((c >> 8) ^ (b as bv16))
  {
    hide Crc16, Entry;
    Composes(start, m, [b]);
    TableStepRaw(Crc16(start, m), b);
  }

  lemma TopLost(w: bv16, n: nat)
    requires 0 < n <= 16 && And(w, Ones(16 - n)) == 0
    ensures And(w << 1, Ones(16 - (n - 1))) == 0
  {
    OnesStep(16 - n);
    TopRaw(w, Ones(16 - n));
  }

  lemma PackedFirst(w: bv16, n: nat)
    requires n > 0
    ensures Packed(TopBits(w, n)) == Xor(Top(w & 0x8000 != 0), Half(Packed(TopBits(w << 1, n - 1))))
  {
    hide Xor, Half, Top;
    TopStep(w, n);
    hide TopBits;
  }

  /** Packing the n highest bits of a word that has no others. */
  lemma {:induction false} PackedTop(w: bv16, n: nat)
    requires n <= 16 && And(w, Ones(16 - n)) == 0
    ensures Packed(TopBits(w, n)) == w
    decreases n
  {
    if n == 0 {
      AllOnes(w);
    } else {
      TopLost(w, n);
      hide Ones, Xor, Half, Top, And;
      PackedTop(w << 1, n - 1);
      PackedFirst(w, n);
      hide TopBits, Packed;
      TopHalf(w);
    }
  }

  lemma AllOnes(w: bv16)
    ensures And(w, Ones(16)) == w
  {
    assert Ones(16) == 0xFFFF;
  }

  lemma TopStep(w: bv16, n: nat)
    requires n > 0
    ensures TopBits(w, n)[0] == (w & 0x8000 != 0) && TopBits(w, n)[1..] == TopBits(w << 1, n - 1)
  {}

  lemma TopRaw(w: bv16, m: bv16)
    ensures And(w, m) == 0 ==> And(w << 1, (m << 1) | 1) == 0
  {}

  lemma TopHalf(w: bv16)
    ensures Xor(Top(w & 0x8000 != 0), Half(w << 1)) == w
  {
    HalfOfDouble(w);
    ApartFromTop(w);
    hide Half;
  }

  lemma HalfOfDouble(w: bv16)
    ensures Half(w << 1) == w & 0x7FFF
  {}

  lemma ApartFromTop(w: bv16)
    ensures w & 0x8000 == 0 || w & 0x8000 == 0x8000
    ensures Xor(w & 0x8000, w & 0x7FFF) == w
  {}

  lemma ByteWord(b: bv8)
    ensures Packed(ByteBits(b)) == High(b)
  {
    assert Ones(8) == 0xFF;
    hide Packed, TopBits;
    PackedTop(High(b), 8);
  }

  lemma {:induction false} ShiftNXor(x: bv16, y: bv16, n: nat)
    ensures ShiftN(Xor(x, y), n) == Xor(ShiftN(x, n), ShiftN(y, n))
    decreases n
  {
    hide Shift, Xor;
    if n > 0 {
      XorLaws(x, y, 0);
      ShiftNXor(Shift(x), Shift(y), n - 1);
    }
  }

  /** Feeding one byte. */
  lemma CrcByte(c: bv16, b: bv8)
    ensures Crc16(c, [b]) == ShiftN(Xor(c, High(b)), 8)
  {
    hide Shift, Xor, Packed, ByteBits, High;
    assert Bits([b]) == ByteBits(b);
    DividePacked(c, ByteBits(b));
    ByteWord(b);
  }

  function LowByte(x: bv16): bv16 { x & 0xFF }

  /** A word below 256 is only moved up by eight shifts. */
  lemma ShiftLow(x: bv16)
    requires LowByte(x) == x
    ensures ShiftN(x, 8) == Up8(x)
  {
    LowRaw(x);
    ShiftCases(x); ShiftCases(x << 1); ShiftCases(x << 2); ShiftCases(x << 3);
    ShiftCases(x << 4); ShiftCases(x << 5); ShiftCases(x << 6); ShiftCases(x << 7);
    hide Shift;
    ShiftNSplit(x, 2, 6);
    ShiftNSplit(x << 2, 2, 4);
    ShiftNSplit(x << 4, 2, 2);
  }

  lemma LowRaw(x: bv16)
    requires x & 0xFF == x
    ensures x & 0x8000 == 0 && (x << 1) & 0x8000 == 0 && (x << 2) & 0x8000 == 0 && (x << 3) & 0x8000 == 0
    ensures (x << 4) & 0x8000 == 0 && (x << 5) & 0x8000 == 0 && (x << 6) & 0x8000 == 0 && (x << 7) & 0x8000 == 0
    ensures (x << 1) << 1 == x << 2 && (x << 2) << 1 == x << 3 && (x << 3) << 1 == x << 4 && (x << 4) << 1 == x << 5
    ensures (x << 5) << 1 == x << 6 && (x << 6) << 1 == x << 7 && (x << 7) << 1 == x << 8
  {}

  /** The table index of a step. */
  function TableIndex(c: bv16, b: bv8): bv16 { (c >> 8) ^ (b as bv16) }

  lemma SplitWord(c: bv16, b: bv8)
    ensures Xor(c, High(b)) == Xor(Up8(TableIndex(c, b)), LowByte(c))
  {
    calc {
      Xor(c, High(b));
      c ^ ((b as bv16) << 8);
      { SplitWordRaw(c, b as bv16); }
      (((c >> 8) ^ (b as bv16)) << 8) ^ (c & 0xFF);
      Xor(Up8(TableIndex(c, b)), LowByte(c));
    }
  }

  lemma SplitWordRaw(c: bv16, b: bv16)
    ensures c ^ (b << 8) == (((c >> 8) ^ b) << 8) ^ (c & 0xFF)
  {}

  lemma LowByteLaws(c: bv16)
    ensures Up8(LowByte(c)) == Up8(c) && LowByte(LowByte(c)) == LowByte(c)
  {}

  lemma IndexSmall(c: bv16, b: bv8)
    ensures TableIndex(c, b) as int < 256
  {
    assert (c >> 8) ^ (b as bv16) < 256;
  }

  /** One table step is feeding the eight bits of a byte. */
  lemma TableStep(c: bv16, b: bv8)
    ensures TableIndex(c, b) as int < 256
    ensures Crc16(c, [b]) == Xor(Up8(c), Entry(TableIndex(c, b)))
  {
    hide Shift, Shift8, Entry, Crc16, Xor, High, TableIndex, LowByte, Up8, ShiftN;
    var t, low := TableIndex(c, b), LowByte(c);
    IndexSmall(c, b);
    SplitWord(c, b);
    LowByteLaws(c);
    CrcByte(c, b);
    ShiftNXor(Up8(t), low, 8);
    ShiftLow(low);
    Shift8IsEight(Up8(t));
    Lookup(t);
    XorLaws(Up8(c), Entry(t), 0);
  }

  lemma TableStepRaw(c: bv16, b: bv8)
    ensures ((c >> 8) ^ (b as bv16)) as int < 256
    ensures Crc16(c, [b]) == (c << 8) ^ Entry((c >> 8) ^ (b as bv16))
  {
    hide Crc16, Entry;
    TableStep(c, b);
  }

  // ---- what the check detects ----

  /** Two bytes as a word, high byte first. */
  function Join(hi: bv8, lo: bv8): bv16 { High(hi) | (lo as bv16) }

  /** A message followed by two more bytes has remainder 0 exactly when they are its CRC, high byte first. */
  lemma SelfCheck(c: bv16, message: seq<bv8>, hi: bv8, lo: bv8)
    ensures Crc16(c, message + [hi, lo]) == 0 <==> Join(hi, lo) == Crc16(c, message)
  {
    hide Crc16, Xor, ShiftN, High, Join, Shift, Up8, LowByte;
    var r := Crc16(c, message);
    assert message + [hi, lo] == (message + [hi]) + [lo];
    Composes(c, message + [hi], [lo]);
    Composes(c, message, [hi]);
    CrcByte(r, hi);
    var x, y := Xor(r, High(hi)), Crc16(r, [hi]);
    CrcByte(y, lo);
    ZeroStep(y, High(lo));
    LowWord(lo);
    ShiftLow(lo as bv16);
    JoinXor(r, hi, lo);
    if y == High(lo) {
      ShiftNInjective(x, lo as bv16, 8);
    }
  }

  lemma ZeroStep(y: bv16, h: bv16)
    ensures ShiftN(Xor(y, h), 8) == 0 <==> y == h
  {
    ShiftNZero(8);
    hide ShiftN, Xor, Shift;
    XorLaws(y, h, 0);
    XorZero(y, h);
    if ShiftN(Xor(y, h), 8) == 0 {
      ShiftNInjective(Xor(y, h), 0, 8);
    }
  }

  lemma XorZero(x: bv16, y: bv16)
    ensures Xor(x, y) == 0 ==> x == y
    ensures x == y ==> Xor(x, y) == 0
  {}

  lemma LowWord(lo: bv8)
    ensures LowByte(lo as bv16) == lo as bv16 && Up8(lo as bv16) == High(lo)
  {}

  lemma JoinXor(r: bv16, hi: bv8, lo: bv8)
    ensures Xor(r, High(hi)) == lo as bv16 ==> Join(hi, lo) == r
    ensures Join(hi, lo) == r ==> Xor(r, High(hi)) == lo as bv16
  {}

  lemma {:induction false} DivideZeros(n: nat)
    ensures Divide(0, seq(n, _ => false)) == 0
  {
    if n > 0 {
      var z := seq(n, _ => false);
      assert z[1..] == seq(n - 1, _ => false);
      assert Feed(0, false) == 0;
      DivideZeros(n - 1);
    }
  }

  lemma {:induction false} DivideZerosInjective(x: bv16, y: bv16, n: nat)
    requires Divide(x, seq(n, _ => false)) == Divide(y, seq(n, _ => false))
    ensures x == y
    decreases n
  {
    if n > 0 {
      var z := seq(n, _ => false);
      assert z[1..] == seq(n - 1, _ => false);
      DivideZerosInjective(Feed(x, false), Feed(y, false), n - 1);
      hide Shift;
      ShiftInjective(Xor(x, 0), Xor(y, 0));
    }
  }

  /** Sixteen bits or fewer are divided to 0 only if they are all 0. */
  lemma {:induction false} PackedZero(bits: seq<bool>)
    requires |bits| <= 16 && Packed(bits) == 0
    ensures forall k | 0 <= k < |bits| :: !bits[k]
  {
    if bits != [] {
      PackedLow(bits[1..]);
      OnesStep(16 - |bits|);
      PackedZeroRaw(Packed(bits[1..]), Ones(16 - |bits|), Top(bits[0]));
      PackedZero(bits[1..]);
    }
  }

  lemma PackedZeroRaw(p: bv16, m: bv16, t: bv16)
    requires p & ((m << 1) | 1) == 0 && Xor(t, Half(p)) == 0 && (t == 0 || t == 0x8000)
    ensures t == 0 && p == 0
  {}

  /** Two messages of equal length that differ only inside a window of 16 bits share a CRC only if they are equal. */
  lemma BurstDetected(c: bv16, a: seq<bool>, b: seq<bool>, from: nat, to: nat)
    requires |a| == |b| && from <= to <= |a| && to - from <= 16
    requires forall k | 0 <= k < |a| && !(from <= k < to) :: a[k] == b[k]
    ensures Divide(c, a) == Divide(c, b) ==> a == b
  {
    var d := Differences(a, b);
    var before, burst, after := seq(from, _ => false), d[from..to], seq(|a| - to, _ => false);
    assert d == before + (burst + after);
    DivideDifference(c, c, a, b);
    XorLaws(c, c, c);
    DivideConcat(0, before, burst + after);
    DivideZeros(from);
    DivideConcat(0, burst, after);
    if Divide(c, a) == Divide(c, b) {
      XorLaws(Divide(c, a), Divide(c, a), 0);
      DivideZeros(|a| - to);
      DivideZerosInjective(Divide(0, burst), 0, |a| - to);
      DividePacked(0, burst);
      ShiftNZero(|burst|);
      XorLaws(Packed(burst), 0, 0);
      ShiftNInjective(Xor(0, Packed(burst)), 0, |burst|);
      XorLaws(0, Packed(burst), 0);
      PackedZero(burst);
      forall k | 0 <= k < |a| ensures a[k] == b[k] {
        if from <= k < to {
          assert d[k] == burst[k - from];
        }
      }
    }
  }

  lemma ByteBitsInjective(a: bv8, b: bv8)
    requires ByteBits(a) == ByteBits(b)
    ensures a == b
  {
    hide ByteBits, Packed;
    ByteWord(a);
    ByteWord(b);
    HighInjective(a, b);
  }

  lemma HighInjective(a: bv8, b: bv8)
    ensures High(a) == High(b) ==> a == b
  {}

  lemma {:induction false} BitsInjective(a: seq<bv8>, b: seq<bv8>)
    requires |a| == |b| && Bits(a) == Bits(b)
    ensures a == b
  {
    hide ByteBits;
    if a != [] {
      assert ByteBits(a[0]) == Bits(a)[..8] && ByteBits(b[0]) == Bits(b)[..8];
      ByteBitsInjective(a[0], b[0]);
      assert Bits(a)[8..] == Bits(a[1..]) && Bits(b)[8..] == Bits(b[1..]);
      BitsInjective(a[1..], b[1..]);
      assert a == [a[0]] + a[1..] && b == [b[0]] + b[1..];
    }
  }

  /** Damage inside two adjacent bytes never keeps the CRC. */
  lemma AdjacentBytesDetected(c: bv16, before: seq<bv8>, a: seq<bv8>, b: seq<bv8>, after: seq<bv8>)
    requires |a| == |b| <= 2
    ensures Crc16(c, before + a + after) == Crc16(c, before + b + after) ==> a == b
  {
    hide Bits, Divide;
    BitsConcat(before + a, after);
    BitsConcat(before, a);
    BitsConcat(before + b, after);
    BitsConcat(before, b);
    var x, y := Bits(before) + Bits(a) + Bits(after), Bits(before) + Bits(b) + Bits(after);
    BurstDetected(c, x, y, 8 * |before|, 8 * |before| + 8 * |a|);
    if x == y {
      assert Bits(a) == x[8 * |before|..8 * |before| + 8 * |a|];
      assert Bits(b) == y[8 * |before|..8 * |before| + 8 * |a|];
      BitsInjective(a, b);
    }
  }
}
