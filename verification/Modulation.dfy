/** Bit-to-symbol mapping and software modulation, fpga/deprecated/package_data_functions.py: bytes are cut
    into m-bit words, marked by frame bytes, and expanded into symbols of log2(M) bits. */
module Modulation {
  import opened Basics

  // ---- bits and numbers ----

  function Bit(b: bool): nat { if b then 1 else 0 }

  /** The number that bits spell, most significant first. */
  function Value(bits: seq<bool>): (v: nat)
    ensures v < Pow2(|bits|)
  {
    if bits == [] then 0 else 2 * Value(bits[..|bits| - 1]) + Bit(bits[|bits| - 1])
  }

  /** The w lowest bits of a number, most significant first. */
  function BitsOf(x: nat, w: nat): (bits: seq<bool>)
    ensures |bits| == w
  {
    if w == 0 then [] else BitsOf(x / 2, w - 1) + [x % 2 == 1]
  }

  lemma {:induction false} BitsOfValue(bits: seq<bool>)
    ensures BitsOf(Value(bits), |bits|) == bits
  {
    if bits != [] {
      BitsOfValue(bits[..|bits| - 1]);
    }
  }

  lemma {:induction false} ValueOfBits(x: nat, w: nat)
    requires x < Pow2(w)
    ensures Value(BitsOf(x, w)) == x
  {
    if w > 0 {
      ValueOfBits(x / 2, w - 1);
      assert BitsOf(x, w)[..w - 1] == BitsOf(x / 2, w - 1);
    }
  }

  function Bits(frame: seq<byte>): (bits: seq<bool>)
    ensures |bits| == 8 * |frame|
  {
    if frame == [] then [] else BitsOf(frame[0], 8) + Bits(frame[1..])
  }

  // ---- words of m bits ----

  predicate Below(d: seq<nat>, n: nat) { forall i | 0 <= i < |d| :: d[i] < n }

  /** Cut into numbers of m bits; the last one takes what is left. */
  function Digits(bits: seq<bool>, m: nat): (d: seq<nat>)
    requires m > 0
    ensures Below(d, Pow2(m))
  {
    if bits == [] then []
    else if |bits| <= m then (Pow2Grows(|bits|, m); [Value(bits)])
    else [Value(bits[..m])] + Digits(bits[m..], m)
  }

  /** Numbers written with m bits each. */
  function Undigits(d: seq<nat>, m: nat): (bits: seq<bool>)
    ensures |bits| == Times(m, |d|)
  {
    if d == [] then (TimesNext(m, 0); []) else (TimesNext(m, |d| - 1); BitsOf(d[0], m) + Undigits(d[1..], m))
  }

  function Times(m: nat, k: nat): nat { m * k }

  lemma TimesNext(m: nat, k: nat)
    ensures Times(m, k + 1) == Times(m, k) + m && Times(m, 0) == 0
  {
    assert m * (k + 1) == m * k + m;
  }

  lemma {:induction false} Pow2Grows(a: nat, b: nat)
    requires a <= b
    ensures Pow2(a) <= Pow2(b)
    decreases b
  {
    if a < b {
      Pow2Grows(a, b - 1);
    }
  }

  /** Cutting into words loses nothing exactly when the bits come out even. */
  lemma {:induction false} DigitsLossless(bits: seq<bool>, m: nat)
    requires m > 0
    ensures Undigits(Digits(bits, m), m) == bits <==> |bits| % m == 0
    ensures |Undigits(Digits(bits, m), m)| >= |bits|
    decreases |bits|
  {
    hide Value, BitsOf, Times;
    if bits == [] {
      assert 0 % m == 0;
    } else if |bits| <= m {
      OneDigit(bits, m);
    } else {
      var head, rest := bits[..m], bits[m..];
      DigitsLossless(rest, m);
      BitsOfValue(head);
      assert bits == head + rest;
      assert |bits| % m == |rest| % m by { Shift(|rest|, m); }
      var back := Undigits(Digits(rest, m), m);
      assert Undigits(Digits(bits, m), m) == head + back by {
        assert Digits(bits, m)[0] == Value(head) && Digits(bits, m)[1..] == Digits(rest, m);
      }
      assert (head + back)[m..] == back;
    }
  }

  lemma Shift(a: nat, m: nat)
    requires m > 0
    ensures (a + m) % m == a % m
  {
    var q, r := a / m, a % m;
    assert m * (q + 1) == m * q + m;
    Quotient(a + m, m, q + 1, r);
  }

  lemma OneDigit(bits: seq<bool>, m: nat)
    requires 0 < |bits| <= m
    ensures Undigits(Digits(bits, m), m) == bits <==> |bits| % m == 0
    ensures |Undigits(Digits(bits, m), m)| >= |bits|
  {
    hide Value, BitsOf;
    assert Undigits([Value(bits)], m) == BitsOf(Value(bits), m) + Undigits([], m);
    BitsOfValue(bits);
  }

  /** x without its b lowest bits. */
  function Shr(x: nat, b: nat): nat { if b == 0 then x else Shr(x / 2, b - 1) }

  lemma {:induction false} BitsSplit(x: nat, a: nat, b: nat)
    ensures BitsOf(x, a + b) == BitsOf(Shr(x, b), a) + BitsOf(x, b)
    decreases b
  {
    if b > 0 {
      BitsSplit(x / 2, a, b - 1);
    }
  }

  // ---- orders ----

  predicate KnownOrder(order: nat) {
    order == 4 || order == 8 || order == 16 || order == 32 || order == 64 || order == 128
  }

  /** log2 of the order. */
  function SymbolBits(order: nat): nat requires KnownOrder(order) {
    if order == 4 then 2 else if order == 8 then 3 else if order == 16 then 4 else if order == 32 then 5
    else if order == 64 then 6 else 7
  }

  /** Bits in one byte of bit-mapped data. */
  function WordBits(order: nat): nat
    requires KnownOrder(order)
  {
    if order == 4 || order == 8 then 6 else SymbolBits(order)
  }

  function FrameByte(order: nat): byte requires KnownOrder(order) {
    if order == 4 then 0x83 else if order == 8 then 0x87 else if order == 16 then 0x8F else if order == 32 then 0x9F
    else if order == 64 then 0xBF else 0xFF
  }

  /** The order a byte announces, or 0 for a byte of data. */
  function OrderOf(b: byte): nat {
    if b == 0x83 then 4 else if b == 0x87 then 8 else if b == 0x8F then 16 else if b == 0x9F then 32
    else if b == 0xBF then 64 else if b == 0xFF then 128 else 0
  }

  function Acquisition(order: nat): seq<nat> {
    if order == 4 then [0, 0, 1, 3, 0, 0, 3, 1, 2, 1, 2, 0, 3, 0, 3, 2]
    else if order == 8 then [0, 1, 3, 7, 0, 1, 7, 2, 4, 2, 5, 1, 7, 1, 7, 5]
    else [0, 2, 7, 14, 1, 2, 15, 5, 8, 4, 10, 2, 14, 3, 14, 11]
  }

  lemma OrderPower(order: nat)
    requires KnownOrder(order)
    ensures Pow2(SymbolBits(order)) == order && Pow2(WordBits(order)) <= 0x80
    ensures OrderOf(FrameByte(order)) == order
    ensures Below(Acquisition(order), order)
  {
    assert Pow2(3) == 8;
    assert Pow2(5) == 32;
    assert Pow2(7) == 128;
  }

  // ---- bit mapping ----

  /** One frame of bit-mapped data: its frame byte and its words. */
  function MappedFrame(frame: seq<byte>, order: nat): seq<nat>
    requires KnownOrder(order)
  {
    [FrameByte(order)] + Digits(Bits(frame), WordBits(order))
  }

  function Mapped(frames: seq<seq<byte>>, order: nat): seq<nat>
    requires KnownOrder(order)
  {
    if frames == [] then [] else Mapped(frames[..|frames| - 1], order) + MappedFrame(frames[|frames| - 1], order)
  }

  /** The bits of a frame, byte by byte. */
  method FrameBits(frame: seq<byte>) returns (bits: seq<bool>)
    ensures bits == Bits(frame)
  {
    bits := [];
    for i := 0 to |frame|
      invariant bits + Bits(frame[i..]) == Bits(frame)
    {
      bits := bits + BitsOf(frame[i], 8);
      assert frame[i..][1..] == frame[i + 1..];
    }
  }

  lemma DigitsStep(bits: seq<bool>, m: nat)
    requires m > 0 && bits != []
    ensures var k := if m <= |bits| then m else |bits|; Digits(bits, m) == [Value(bits[..k])] + Digits(bits[k..], m)
  {
    hide Value;
    if |bits| <= m {
      assert bits[..|bits|] == bits && bits[|bits|..] == [];
    }
  }

  lemma DigitsOfNone(m: nat)
    requires m > 0
    ensures Digits([], m) == []
  {}

  /** Words of m bits, from position 0 on in steps of m. */
  method Words(bits: seq<bool>, m: nat) returns (words: seq<nat>)
    requires m > 0
    ensures words == Digits(bits, m)
  {
    words := [];
    var i := 0;
    hide Value, Digits;
    assert bits[0..] == bits;
    DigitsOfNone(m);
    while i < |bits|
      invariant words + Digits(bits[if i <= |bits| then i else |bits|..], m) == Digits(bits, m)
      decreases |bits| - i
    {
      var to := if i + m <= |bits| then i + m else |bits|;
      DigitsStep(bits[i..], m);
      assert bits[i..to] == bits[i..][..to - i] && bits[to..] == bits[i..][to - i..];
      words := words + [Value(bits[i..to])];
      i := i + m;
    }
    assert bits[|bits|..] == [];
  }

  /** Bit-map frames; None for an order that is not known, or no frame at all. */
  method Bitmask(frames: seq<seq<byte>>, order: nat) returns (out: Option<seq<nat>>)
    ensures out == if KnownOrder(order) && frames != [] then Some(Mapped(frames, order) + [FrameByte(order)]) else None
  {
    hide Digits, Bits;
    if !KnownOrder(order) || frames == [] {
      return None;
    }
    var m := WordBits(order);
    var bitmaskData: seq<nat> := [];
    assert frames[..0] == [];
    for i := 0 to |frames|
      invariant bitmaskData == Mapped(frames[..i], order)
    {
      var bits := FrameBits(frames[i]);
      var words := Words(bits, m);
      var framebyte := FrameByte(order);
      assert frames[..i + 1][..i] == frames[..i];
      bitmaskData := bitmaskData + ([framebyte] + words);
    }
    assert frames[..|frames|] == frames;
    bitmaskData := bitmaskData + [FrameByte(order)];
    return Some(bitmaskData);
  }

  // ---- modulation ----

  /** The symbols of a byte of data under the current order. */
  function Unpack(b: nat, order: nat): seq<nat> {
    if order == 4 then [b / 16 % 4, b / 4 % 4, b % 4]
    else if order == 8 then [b / 8 % 8, b % 8]
    else [b]
  }

  function Symbols(data: seq<byte>, order: nat): seq<nat> {
    if data == [] then []
    else
      var now := OrderOf(data[0]);
      if now != 0 then Acquisition(now) + Symbols(data[1..], now)
      else Unpack(data[0], order) + Symbols(data[1..], order)
  }

  function Orders(data: seq<byte>): seq<nat> {
    if data == [] then [] else (if OrderOf(data[0]) != 0 then [OrderOf(data[0])] else []) + Orders(data[1..])
  }

  method SoftwareModulator(data: seq<byte>) returns (ppmOrders: seq<nat>, symbols: seq<nat>)
    ensures ppmOrders == Orders(data) && symbols == Symbols(data, 0)
  {
    hide Acquisition, Unpack, OrderOf;
    var ppmOrder := 0;
    ppmOrders, symbols := [], [];
    for i := 0 to |data|
      invariant symbols + Symbols(data[i..], ppmOrder) == Symbols(data, 0)
      invariant ppmOrders + Orders(data[i..]) == Orders(data)
    {
      assert data[i..][1..] == data[i + 1..];
      var now := OrderOf(data[i]);
      if now != 0 {
        symbols := symbols + Acquisition(now);
        ppmOrder := now;
        ppmOrders := ppmOrders + [now];
      } else {
        symbols := symbols + Unpack(data[i], ppmOrder);
      }
    }
  }
}
