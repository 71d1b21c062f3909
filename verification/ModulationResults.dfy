/** Nothing is lost from interleaved frames to symbols: a receiver that knows the order and the frame length
    reads back every bit, exactly when a frame's bits fill its words, which the frame length sees to. */
module ModulationResults {
  import opened Basics
  import opened Modulation
  import Interleaver

  // ---- one frame ----

  /** The symbols of a list of words. */
  function Expand(words: seq<nat>, order: nat): seq<nat> {
    if words == [] then [] else Unpack(words[0], order) + Expand(words[1..], order)
  }

  /** The symbols that carry a frame. */
  function FrameSymbols(frame: seq<byte>, order: nat): seq<nat>
    requires KnownOrder(order)
  {
    Expand(Digits(Bits(frame), WordBits(order)), order)
  }

  lemma {:induction false} UndigitsConcat(a: seq<nat>, b: seq<nat>, m: nat)
    ensures Undigits(a + b, m) == Undigits(a, m) + Undigits(b, m)
    decreases |a|
  {
    hide BitsOf, Times;
    if a == [] {
      assert a + b == b;
    } else {
      assert (a + b)[1..] == a[1..] + b;
      UndigitsConcat(a[1..], b, m);
    }
  }

  /** The symbols of a word spell its bits. */
  lemma UnpackBits(x: nat, order: nat)
    requires KnownOrder(order)
    ensures Undigits(Unpack(x, order), SymbolBits(order)) == BitsOf(x, WordBits(order))
  {
    hide Times, BitsOf;
    if order == 4 {
      BitsSplit(x, 2, 4);
      BitsSplit(x, 2, 2);
      Shifts(x);
      LowTwo(x / 16);
      LowTwo(x / 4);
      LowTwo(x);
      assert BitsOf(x, 4) == BitsOf(x / 4, 2) + BitsOf(x, 2);
      ThreeWords(x / 16 % 4, x / 4 % 4, x % 4, 2);
    } else if order == 8 {
      BitsSplit(x, 3, 3);
      Shifts(x);
      LowThree(x / 8);
      LowThree(x);
      TwoWords(x / 8 % 8, x % 8, 3);
    } else {
      OneWord(x, SymbolBits(order));
    }
  }

  lemma Shifts(x: nat)
    ensures Shr(x, 2) == x / 4 && Shr(x, 3) == x / 8 && Shr(x, 4) == x / 16
  {
    assert Shr(x, 2) == Shr(x / 2, 1) && Shr(x / 2, 1) == Shr(x / 2 / 2, 0);
    assert Shr(x, 3) == Shr(x / 2, 2) && Shr(x / 2, 2) == Shr(x / 2 / 2, 1);
    assert Shr(x, 4) == Shr(x / 2, 3) && Shr(x / 2, 3) == Shr(x / 2 / 2, 2);
    assert Shr(x / 2 / 2, 2) == Shr(x / 2 / 2 / 2, 1);
  }

  lemma BitsStep(x: nat, w: nat)
    ensures BitsOf(x, w + 1) == BitsOf(x / 2, w) + [x % 2 == 1] && BitsOf(x, 0) == []
  {}

  lemma LowDigits(x: nat)
    ensures x % 4 % 2 == x % 2 && x % 4 / 2 % 2 == x / 2 % 2
    ensures x % 8 % 2 == x % 2 && x % 8 / 2 == x / 2 % 4
  {
    LowOfFour(x / 4, x % 4);
    LowOfEight(x / 8, x % 8);
    assert x == 4 * (x / 4) + x % 4 == 8 * (x / 8) + x % 8;
  }

  lemma LowOfFour(q: nat, r: nat)
    requires r < 4
    ensures var x := 4 * q + r; r % 2 == x % 2 && r / 2 % 2 == x / 2 % 2
  {
    HalfOfSum(2 * q, r);
    HalfOfSum(q, r / 2);
  }

  lemma LowOfEight(q: nat, r: nat)
    requires r < 8
    ensures var x := 8 * q + r; r % 2 == x % 2 && r / 2 == x / 2 % 4
  {
    HalfOfSum(4 * q, r);
    Quotient(4 * q + r / 2, 4, q, r / 2);
  }

  lemma HalfOfSum(h: nat, r: nat)
    ensures (2 * h + r) / 2 == h + r / 2 && (2 * h + r) % 2 == r % 2
  {}

  lemma LowTwo(x: nat)
    ensures BitsOf(x % 4, 2) == BitsOf(x, 2)
  {
    LowDigits(x);
    BitsStep(x, 1);
    BitsStep(x / 2, 0);
    BitsStep(x / 2 / 2, 0);
    BitsStep(x % 4, 1);
    BitsStep(x % 4 / 2, 0);
    BitsStep(x % 4 / 2 / 2, 0);
    hide *;
  }

  lemma LowThree(x: nat)
    ensures BitsOf(x % 8, 3) == BitsOf(x, 3)
  {
    LowDigits(x);
    LowTwo(x / 2);
    BitsStep(x, 2);
    BitsStep(x % 8, 2);
    hide *;
  }

  lemma OneWord(x: nat, m: nat)
    ensures Undigits([x], m) == BitsOf(x, m)
  {
    assert Undigits([x], m) == BitsOf(x, m) + Undigits([], m);
  }

  lemma TwoWords(x: nat, y: nat, m: nat)
    ensures Undigits([x, y], m) == BitsOf(x, m) + BitsOf(y, m)
  {
    assert [x, y][1..] == [y];
    OneWord(y, m);
  }

  lemma ThreeWords(x: nat, y: nat, z: nat, m: nat)
    ensures Undigits([x, y, z], m) == BitsOf(x, m) + BitsOf(y, m) + BitsOf(z, m)
  {
    assert [x, y, z][1..] == [y, z];
    TwoWords(y, z, m);
  }

  lemma {:induction false} ExpandBits(words: seq<nat>, order: nat)
    requires KnownOrder(order)
    ensures Undigits(Expand(words, order), SymbolBits(order)) == Undigits(words, WordBits(order))
  {
    hide BitsOf, Times, Unpack;
    if words != [] {
      ExpandBits(words[1..], order);
      UnpackBits(words[0], order);
      UndigitsConcat(Unpack(words[0], order), Expand(words[1..], order), SymbolBits(order));
    }
  }

  /** Reading a frame's symbols as log2(M)-bit numbers gives back its bits exactly when they fill its words. */
  lemma FrameLossless(frame: seq<byte>, order: nat)
    requires KnownOrder(order)
    ensures Undigits(FrameSymbols(frame, order), SymbolBits(order)) == Bits(frame) <==>
            8 * |frame| % WordBits(order) == 0
  {
    ExpandBits(Digits(Bits(frame), WordBits(order)), order);
    DigitsLossless(Bits(frame), WordBits(order));
  }

  /** Words of at most the word size give symbols below the order. */
  lemma {:induction false} SymbolsBelow(words: seq<nat>, order: nat)
    requires KnownOrder(order) && Below(words, Pow2(WordBits(order)))
    ensures Below(Expand(words, order), order)
  {
    OrderPower(order);
    if words != [] {
      SymbolsBelow(words[1..], order);
    }
  }

  // ---- the whole stream ----

  lemma {:induction false} SymbolsConcat(a: seq<byte>, b: seq<byte>, order: nat)
    ensures Symbols(a + b, order) == Symbols(a, order) + Symbols(b, LastOrder(a, order))
    decreases |a|
  {
    hide Acquisition, Unpack, OrderOf;
    if a == [] {
      assert a + b == b;
    } else {
      assert (a + b)[1..] == a[1..] + b;
      SymbolsConcat(a[1..], b, if OrderOf(a[0]) != 0 then OrderOf(a[0]) else order);
    }
  }

  function LastOrder(data: seq<byte>, order: nat): nat {
    if data == [] then order else LastOrder(data[1..], if OrderOf(data[0]) != 0 then OrderOf(data[0]) else order)
  }

  lemma {:induction false} OrdersConcat(a: seq<byte>, b: seq<byte>)
    ensures Orders(a + b) == Orders(a) + Orders(b)
    decreases |a|
  {
    hide OrderOf;
    if a == [] {
      assert a + b == b;
    } else {
      assert (a + b)[1..] == a[1..] + b;
      OrdersConcat(a[1..], b);
    }
  }

  /** Data bytes are never taken for frame bytes. */
  lemma {:induction false} DataStaysData(words: seq<byte>, order: nat)
    requires KnownOrder(order) && Below(words, 0x80)
    ensures Symbols(words, order) == Expand(words, order) && Orders(words) == [] && LastOrder(words, order) == order
  {
    if words != [] {
      DataStaysData(words[1..], order);
    }
  }

  function AsBytes(words: seq<nat>): (b: seq<byte>)
    requires Below(words, 0x100)
    ensures |b| == |words| && forall i | 0 <= i < |words| :: b[i] == words[i]
  {
    if words == [] then [] else [words[0]] + AsBytes(words[1..])
  }

  /** A frame on the air: its acquisition sequence, then its symbols. */
  function Sent(frame: seq<byte>, order: nat): seq<nat>
    requires KnownOrder(order)
  {
    Acquisition(order) + FrameSymbols(frame, order)
  }

  function AllSent(frames: seq<seq<byte>>, order: nat): seq<nat>
    requires KnownOrder(order)
  {
    if frames == [] then [] else AllSent(frames[..|frames| - 1], order) + Sent(frames[|frames| - 1], order)
  }

  lemma MappedFrameIsBytes(frame: seq<byte>, order: nat)
    requires KnownOrder(order)
    ensures Below(MappedFrame(frame, order), 0x100) && Below(Digits(Bits(frame), WordBits(order)), 0x80)
  {
    OrderPower(order);
  }

  lemma FrameModulated(frame: seq<byte>, order: nat, before: nat)
    requires KnownOrder(order)
    ensures Below(MappedFrame(frame, order), 0x100)
    ensures var data := AsBytes(MappedFrame(frame, order));
            Symbols(data, before) == Sent(frame, order) && Orders(data) == [order] && LastOrder(data, before) == order
  {
    MappedFrameIsBytes(frame, order);
    OrderPower(order);
    hide Acquisition, Unpack, OrderOf, FrameByte, Digits, Expand;
    var data, words := AsBytes(MappedFrame(frame, order)), AsBytes(Digits(Bits(frame), WordBits(order)));
    assert words == Digits(Bits(frame), WordBits(order));
    assert data[0] == FrameByte(order) && data[1..] == words;
    DataStaysData(words, order);
  }

  lemma AsBytesConcat(a: seq<nat>, b: seq<nat>)
    requires Below(a, 0x100) && Below(b, 0x100)
    ensures Below(a + b, 0x100) && AsBytes(a + b) == AsBytes(a) + AsBytes(b)
  {
    BelowConcat(a, b, 0x100);
  }

  /** More data that switches to an order and sends some symbols. */
  lemma MoreModulated(a: seq<nat>, b: seq<nat>, order: nat, sent: seq<nat>, more: seq<nat>, k: nat)
    requires Below(a, 0x100) && Below(b, 0x100)
    requires Symbols(AsBytes(a), 0) == sent && Orders(AsBytes(a)) == seq(k, i => order)
    requires Symbols(AsBytes(b), LastOrder(AsBytes(a), 0)) == more && Orders(AsBytes(b)) == [order]
    ensures Below(a + b, 0x100) && Symbols(AsBytes(a + b), 0) == sent + more
    ensures Orders(AsBytes(a + b)) == seq(k + 1, i => order)
  {
    AsBytesConcat(a, b);
    hide AsBytes, Symbols, Orders, LastOrder;
    SymbolsConcat(AsBytes(a), AsBytes(b), 0);
    OrdersConcat(AsBytes(a), AsBytes(b));
  }

  lemma {:induction false} FramesModulated(frames: seq<seq<byte>>, order: nat)
    requires KnownOrder(order)
    ensures Below(Mapped(frames, order), 0x100)
    ensures var data := AsBytes(Mapped(frames, order));
            && Symbols(data, 0) == AllSent(frames, order)
            && Orders(data) == seq(|frames|, i => order)
    decreases |frames|
  {
    hide MappedFrame, Sent, Symbols, Orders, LastOrder, Below, AsBytes, KnownOrder;
    if frames == [] {
      Nothing();
    } else {
      var n := |frames| - 1;
      FramesModulated(frames[..n], order);
      FrameModulated(frames[n], order, LastOrder(AsBytes(Mapped(frames[..n], order)), 0));
      MoreModulated(Mapped(frames[..n], order), MappedFrame(frames[n], order), order, AllSent(frames[..n], order),
                    Sent(frames[n], order), n);
    }
  }

  lemma Nothing()
    ensures Below([], 0x100) && AsBytes([]) == [] && Symbols([], 0) == [] && Orders([]) == []
  {}

  /** The modulated stream: every frame behind its acquisition sequence, and one more sequence at the end. */
  lemma StreamModulated(frames: seq<seq<byte>>, order: nat)
    requires KnownOrder(order)
    ensures Below(Mapped(frames, order) + [FrameByte(order)], 0x100)
    ensures var data := AsBytes(Mapped(frames, order) + [FrameByte(order)]);
            && Symbols(data, 0) == AllSent(frames, order) + Acquisition(order)
            && Orders(data) == seq(|frames| + 1, i => order)
  {
    FramesModulated(frames, order);
    var a := Mapped(frames, order);
    assert AsBytes([FrameByte(order)]) == [FrameByte(order)];
    hide Mapped, Symbols, Orders, LastOrder, AsBytes, KnownOrder, FrameByte, AllSent, Acquisition;
    Tracking(order, LastOrder(AsBytes(a), 0));
    MoreModulated(a, [FrameByte(order)], order, AllSent(frames, order), Acquisition(order), |frames|);
  }

  lemma Tracking(order: nat, before: nat)
    requires KnownOrder(order)
    ensures Symbols([FrameByte(order)], before) == Acquisition(order) && Orders([FrameByte(order)]) == [order]
  {
    OrderPower(order);
    hide OrderOf, FrameByte, Acquisition;
    assert Symbols([FrameByte(order)], before) == Acquisition(order) + Symbols([], order);
    assert Orders([FrameByte(order)]) == [order] + Orders([]);
  }

  /** Every symbol on the air is one that the order can send. */
  lemma {:induction false} AllSymbolsBelow(frames: seq<seq<byte>>, order: nat)
    requires KnownOrder(order)
    ensures Below(AllSent(frames, order) + Acquisition(order), order)
  {
    OrderPower(order);
    hide Acquisition, FrameSymbols;
    if frames != [] {
      var n := |frames| - 1;
      AllSymbolsBelow(frames[..n], order);
      OneFrameBelow(frames[n], order);
      BelowParts(AllSent(frames[..n], order), Acquisition(order), order);
      BelowConcat(Acquisition(order), FrameSymbols(frames[n], order), order);
      BelowConcat(AllSent(frames[..n], order), Sent(frames[n], order), order);
      BelowConcat(AllSent(frames, order), Acquisition(order), order);
    }
  }

  lemma BelowConcat(a: seq<nat>, b: seq<nat>, n: nat)
    requires Below(a, n) && Below(b, n)
    ensures Below(a + b, n)
  {}

  lemma BelowParts(a: seq<nat>, b: seq<nat>, n: nat)
    requires Below(a + b, n)
    ensures Below(a, n)
  {
    forall i | 0 <= i < |a| ensures a[i] < n {
      assert (a + b)[i] == a[i];
    }
  }

  lemma OneFrameBelow(frame: seq<byte>, order: nat)
    requires KnownOrder(order)
    ensures Below(FrameSymbols(frame, order), order)
  {
    SymbolsBelow(Digits(Bits(frame), WordBits(order)), order);
  }

  // ---- the receiver ----

  /** Cut off frames of a known length, drop the acquisition sequences, and read the symbols as bits. */
  function Receive(symbols: seq<nat>, order: nat, perFrame: nat): seq<seq<bool>>
    requires KnownOrder(order)
    decreases |symbols|
  {
    var a := |Acquisition(order)|;
    if |symbols| < a + perFrame || a == 0 then []
    else [Undigits(symbols[a..a + perFrame], SymbolBits(order))] + Receive(symbols[a + perFrame..], order, perFrame)
  }

  function AllBits(frames: seq<seq<byte>>): seq<seq<bool>> {
    if frames == [] then [] else [Bits(frames[0])] + AllBits(frames[1..])
  }

  lemma {:induction false} SentFront(frames: seq<seq<byte>>, order: nat)
    requires KnownOrder(order) && frames != []
    ensures AllSent(frames, order) == Sent(frames[0], order) + AllSent(frames[1..], order)
    decreases |frames|
  {
    hide Sent;
    var n, front, rest := |frames| - 1, frames[..|frames| - 1], frames[1..];
    if n == 0 {
      assert front == [] && rest == [];
    } else {
      SentFront(front, order);
      assert rest[..n - 1] == front[1..] && rest[n - 1] == frames[n];
      hide AllSent;
      SentSnoc(rest, order);
      SentSnoc(frames, order);
    }
  }

  lemma SentSnoc(frames: seq<seq<byte>>, order: nat)
    requires KnownOrder(order) && frames != []
    ensures AllSent(frames, order) == AllSent(frames[..|frames| - 1], order) + Sent(frames[|frames| - 1], order)
  {
    hide Sent;
  }

  /** Symbols that carry a frame of this many bytes. */
  function SymbolsPerFrame(size: nat, order: nat): nat
    requires KnownOrder(order)
  {
    8 * size / SymbolBits(order)
  }

  /** A frame that fills its words is sent as exactly its bits, symbol by symbol. */
  lemma SymbolCount(frame: seq<byte>, order: nat)
    requires KnownOrder(order) && 8 * |frame| % WordBits(order) == 0
    ensures |FrameSymbols(frame, order)| == SymbolsPerFrame(|frame|, order)
    ensures frame != [] ==> SymbolsPerFrame(|frame|, order) > 0
  {
    hide Digits, Expand, Undigits;
    FrameLossless(frame, order);
    var m, count := SymbolBits(order), |FrameSymbols(frame, order)|;
    assert 8 * |frame| == m * count;
    Quotient(8 * |frame|, m, count, 0);
    assert m * (8 * |frame| / m) == m * count;
  }

  /** The theorem: a receiver that knows the order and the frame length reads back the bits of every frame. */
  lemma {:induction false} AllFramesReceived(frames: seq<seq<byte>>, order: nat, size: nat)
    requires KnownOrder(order) && size > 0 && 8 * size % WordBits(order) == 0
    requires forall i | 0 <= i < |frames| :: |frames[i]| == size
    ensures Receive(AllSent(frames, order) + Acquisition(order), order, SymbolsPerFrame(size, order)) == AllBits(frames)
    decreases |frames|
  {
    hide FrameSymbols, Acquisition, Bits, AllSent, Undigits, SymbolsPerFrame, WordBits, Receive;
    if frames == [] {
      NothingSent(order);
      SymbolCount(seq(size, _ => 0), order);
      ReceivesNothing(order, SymbolsPerFrame(size, order));
    } else {
      SentFront(frames, order);
      FrameLossless(frames[0], order);
      SymbolCount(frames[0], order);
      AllFramesReceived(frames[1..], order, size);
      var rest := AllSent(frames[1..], order) + Acquisition(order);
      assert AllSent(frames, order) + Acquisition(order) == Sent(frames[0], order) + rest;
      ReceivesOne(frames[0], order, rest);
    }
  }

  lemma ReceivesNothing(order: nat, perFrame: nat)
    requires KnownOrder(order) && perFrame > 0
    ensures Receive([] + Acquisition(order), order, perFrame) == []
  {
    assert [] + Acquisition(order) == Acquisition(order);
  }

  lemma ReceivesOne(frame: seq<byte>, order: nat, rest: seq<nat>)
    requires KnownOrder(order)
    ensures var carried := FrameSymbols(frame, order);
            Receive(Sent(frame, order) + rest, order, |carried|) ==
            [Undigits(carried, SymbolBits(order))] + Receive(rest, order, |carried|)
  {
    AcquisitionLength(order);
    hide FrameSymbols, Acquisition, Undigits;
    var carried, all := FrameSymbols(frame, order), Sent(frame, order) + rest;
    assert all[16..16 + |carried|] == carried && all[16 + |carried|..] == rest;
  }

  lemma NothingSent(order: nat)
    requires KnownOrder(order)
    ensures AllSent([], order) == []
  {}

  // ---- the acquisition sequences ----

  /** All orders acquire by one sequence, in symbols of their own size. */
  lemma AcquisitionsAgree(order: nat, k: nat)
    requires KnownOrder(order) && k < 16
    ensures |Acquisition(order)| == 16
    ensures Acquisition(order)[k] ==
            if order == 4 then Acquisition(128)[k] / 4 else if order == 8 then Acquisition(128)[k] / 2
            else Acquisition(128)[k]
  {}

  /** Any three symbols in a row tell where in the sequence they stand. */
  lemma AcquisitionTells(order: nat, i: nat, j: nat)
    requires KnownOrder(order) && i < j < 14
    ensures |Acquisition(order)| == 16 && Apart(Acquisition(order), i, j)
  {
    if order == 4 {
      TellsIn4(i, j);
    } else if order == 8 {
      TellsIn8(i, j);
    } else {
      TellsIn16(i, j);
    }
    hide Acquisition;
  }

  predicate Apart(a: seq<nat>, i: nat, j: nat) requires i < j && j + 2 < |a| {
    !(a[i] == a[j] && a[i + 1] == a[j + 1] && a[i + 2] == a[j + 2])
  }

  lemma TellsIn4(i: nat, j: nat)
    requires i < j < 14
    ensures |Acquisition(4)| == 16 && Apart(Acquisition(4), i, j)
  {}

  lemma TellsIn8(i: nat, j: nat)
    requires i < j < 14
    ensures |Acquisition(8)| == 16 && Apart(Acquisition(8), i, j)
  {}

  lemma TellsIn16(i: nat, j: nat)
    requires i < j < 14
    ensures forall order | order >= 16 :: |Acquisition(order)| == 16 && Apart(Acquisition(order), i, j)
  {}

  lemma AcquisitionLength(order: nat)
    ensures |Acquisition(order)| == 16
  {}

  // ---- the frame length ----

  /** Bytes that fill whole words. */
  function BytesPerBitmask(order: nat): (b: nat)
    requires KnownOrder(order)
    ensures b > 0 && 8 * b % WordBits(order) == 0
  {
    if order == 4 || order == 8 || order == 64 then 3 else if order == 16 then 1 else if order == 32 then 5 else 7
  }

  /** How long so many bits are on air: a symbol takes five nanoseconds a slot, with a quarter more slots as guard. */
  function AirTime(bits: int, order: nat): real
    requires KnownOrder(order)
  {
    bits as real / SymbolBits(order) as real * (order as real * 1.25 * 0.000000005)
  }

  /** A frame of c codewords of n bytes lasts so long. */
  predicate Lasts(order: nat, n: nat, time: real, c: int)
    requires KnownOrder(order)
  {
    AirTime(8 * (c * n), order) >= time
  }

  /** It fills whole words. */
  predicate FillsWords(order: nat, n: nat, c: int)
    requires KnownOrder(order)
  {
    8 * (c * n) % WordBits(order) == 0
  }

  /** The codewords of a frame: the least count with which it lasts the time asked for and fills whole words, which
      takes at most the bytes of one word more than lasting that long. */
  ghost predicate FrameCodewords(order: nat, n: nat, time: real, numCw: int)
    requires KnownOrder(order) && n > 0
  {
    && Lasts(order, n, time, numCw) && FillsWords(order, n, numCw)
    && (forall c | c < numCw :: !(Lasts(order, n, time, c) && FillsWords(order, n, c)))
    && !Lasts(order, n, time, numCw - BytesPerBitmask(order))
  }

  /** The data that one frame can carry, in bytes, and the codewords it is made of. The first count of
      codewords comes from the symbol rate; it grows until the frame fills whole words. */
  method LengthDataPerFrame(order: nat, n: nat, k: nat, time: real) returns (length: Option<int>, numCw: int)
    requires n > 0
    ensures length.None? <==> !KnownOrder(order)
    ensures KnownOrder(order) ==> FrameCodewords(order, n, time, numCw) && length == Some(numCw * k - 4)
  {
    if !KnownOrder(order) {
      return None, 0;
    }
    hide FirstCodewords, FillsWords, Lasts;
    var b := BytesPerBitmask(order);
    numCw := FirstCodewords(order, n, time);
    ghost var first := numCw;
    ghost var end := NextMultiple(first, b);
    MultipleWorks(end, n, b);
    while (numCw * n) % b != 0
      invariant first <= numCw <= end
      invariant forall c | first <= c < numCw :: !FillsWords(order, n, c)
      decreases end - numCw
    {
      FillsIff(order, n, numCw);
      numCw := numCw + 1;
    }
    FillsIff(order, n, numCw);
    FirstLasts(order, n, time);
    var msgsymPacket := (numCw * n) as real * (k as real / n as real);
    RateExact(numCw, n, k);
    length := Some(Truncate(msgsymPacket - 4.0));
    WholeNumber(numCw * k - 4);
  }

  /** ceil(time * symbol rate / n), with the symbol rate of the order in bytes per second. */
  function FirstCodewords(order: nat, n: nat, time: real): int
    requires KnownOrder(order) && n > 0
  {
    var symTime := 0.000000005 * (order as real + order as real / 4.0);
    var symRate := SymbolBits(order) as real / symTime / 8.0;
    Ceiling(time * symRate / n as real)
  }

  /** It is the least count that lasts so long. */
  lemma FirstLasts(order: nat, n: nat, time: real)
    requires KnownOrder(order) && n > 0
    ensures forall c :: Lasts(order, n, time, c) <==> c >= FirstCodewords(order, n, time)
  {
    var symTime, bits := 0.000000005 * (order as real + order as real / 4.0), SymbolBits(order) as real;
    var wanted := time * (bits / symTime / 8.0) / n as real;
    assert FirstCodewords(order, n, time) == Ceiling(wanted);
    assert symTime > 0.0 && bits > 0.0 && symTime == order as real * 1.25 * 0.000000005;
    forall c ensures Lasts(order, n, time, c) <==> c >= FirstCodewords(order, n, time) {
      hide FirstCodewords, Ceiling, SymbolBits;
      CeilingIsLeast(wanted, c);
      RateAndTime(c as real, n as real, time, symTime, bits);
      CastProduct(c, n);
    }
  }

  lemma CastProduct(c: int, n: int)
    ensures (8 * (c * n)) as real == 8.0 * (c as real * n as real)
  {}

  lemma CeilingIsLeast(x: real, c: int)
    ensures c >= Ceiling(x) <==> c as real >= x
  {}

  lemma RateAndTime(c: real, n: real, time: real, symTime: real, bits: real)
    requires n > 0.0 && symTime > 0.0 && bits > 0.0
    ensures c >= time * (bits / symTime / 8.0) / n <==> 8.0 * (c * n) / bits * symTime >= time
  {
  }

  /** Whole words are filled by whole multiples of the bytes per bitmask. */
  lemma FillsIff(order: nat, n: nat, c: int)
    requires KnownOrder(order)
    ensures FillsWords(order, n, c) <==> (c * n) % BytesPerBitmask(order) == 0
  {
    var b, w, x := BytesPerBitmask(order), WordBits(order), c * n;
    OutOfWords(b, w, x);
  }

  lemma OutOfWords(b: nat, w: nat, x: int)
    requires (b == 3 && w == 6) || (b == 1 && w == 4) || (b == 5 && w == 5) || (b == 7 && w == 7)
    ensures 8 * x % w == 0 <==> x % b == 0
  {
    var y, z := 8 * x / w, x / b;
    if 8 * x % w == 0 && b > 1 {
      assert 8 * x == w * y;
      Quotient(x, b, if b == 5 then 2 * y - 3 * x else y - x, 0);
    }
    if x % b == 0 {
      assert x == b * z;
      Quotient(8 * x, w, if b == 3 then 4 * z else if b == 1 then 2 * x else 8 * z, 0);
    }
  }

  lemma FrameCodewordsFill(order: nat, n: nat, time: real, numCw: int)
    requires KnownOrder(order) && n > 0 && FrameCodewords(order, n, time, numCw)
    ensures (numCw * n) % BytesPerBitmask(order) == 0
  {
    FillsIff(order, n, numCw);
    hide FillsWords, Lasts;
  }

  function Ceiling(x: real): int { -((-x).Floor) }

  lemma WholeNumber(x: int)
    ensures Truncate(x as real) == x
  {}

  function NextMultiple(c: int, b: nat): (e: int)
    requires b > 0
    ensures c <= e < c + b && e % b == 0
  {
    if c % b == 0 then c else (NextIs(c, b); c + (b - c % b))
  }

  lemma NextIs(c: int, b: nat)
    requires b > 0
    ensures (c + (b - c % b)) % b == 0
  {
    var q := c / b;
    assert c == b * q + c % b;
    assert b * (q + 1) == b * q + b;
    Quotient(c + (b - c % b), b, q + 1, 0);
  }

  lemma MultipleWorks(c: int, n: nat, b: nat)
    requires b > 0 && c % b == 0
    ensures (c * n) % b == 0
  {
    var q := c / b;
    assert c == b * q;
    assert c * n == b * (q * n);
    Quotient(c * n, b, q * n, 0);
  }

  lemma RateExact(c: int, n: nat, k: nat)
    requires n > 0
    ensures (c * n) as real * (k as real / n as real) == (c * k) as real
  {
    var r := k as real / n as real;
    assert r * n as real == k as real;
    assert (c * n) as real == c as real * n as real;
    assert (c * k) as real == c as real * k as real;
    assert c as real * n as real * r == c as real * (r * n as real);
  }

  /** A frame of whole codewords, as long as the frame length says, fills its words. */
  lemma FrameLengthFills(order: nat, n: nat, numCw: nat)
    requires KnownOrder(order) && (numCw * n) % BytesPerBitmask(order) == 0
    ensures 8 * (numCw * n) % WordBits(order) == 0
  {
    var b, m, f := BytesPerBitmask(order), WordBits(order), numCw * n;
    var q := f / b;
    assert f == b * q;
    if order == 4 || order == 8 || order == 64 {
      assert 8 * f == 6 * (4 * q);
    } else if order == 16 {
      assert 8 * f == 4 * (2 * f);
    } else if order == 32 {
      assert 8 * f == 5 * (8 * q);
    } else {
      assert 8 * f == 7 * (8 * q);
    }
  }

  // ---- from data to symbols and back ----

  function BytesOf(bits: seq<bool>): seq<byte> { Fits(); AsBytes(Digits(bits, 8)) }

  lemma Fits()
    ensures Pow2(8) == 0x100
  {
    assert Pow2(5) == 32;
  }

  function AllBytesOf(frames: seq<seq<bool>>): seq<seq<byte>> {
    if frames == [] then [] else [BytesOf(frames[0])] + AllBytesOf(frames[1..])
  }

  lemma {:induction false} BytesOfBits(frame: seq<byte>)
    ensures BytesOf(Bits(frame)) == frame
  {
    hide Value, BitsOf, Times;
    DigitsOfNone(8);
    if frame != [] {
      var bits := Bits(frame);
      DigitsStep(bits, 8);
      assert bits[..8] == BitsOf(frame[0], 8) && bits[8..] == Bits(frame[1..]);
      Fits();
      ValueOfBits(frame[0], 8);
      BytesOfBits(frame[1..]);
      assert AsBytes(Digits(bits, 8)) == [frame[0]] + AsBytes(Digits(Bits(frame[1..]), 8));
    }
  }

  lemma {:induction false} AllBytesOfBits(frames: seq<seq<byte>>)
    ensures AllBytesOf(AllBits(frames)) == frames
  {
    hide BytesOf, Bits;
    if frames != [] {
      AllBytesOfBits(frames[1..]);
      BytesOfBits(frames[0]);
    }
  }

  /** What the modulator puts out for bit-mapped frames. */
  function Modulated(frames: seq<seq<byte>>, order: nat): seq<nat>
    requires KnownOrder(order)
  {
    StreamModulated(frames, order);
    Symbols(AsBytes(Mapped(frames, order) + [FrameByte(order)]), 0)
  }

  /** What a receiver makes of symbols that knows the order and the frame length. */
  function Recovered(symbols: seq<nat>, order: nat, size: nat, n: nat): seq<byte>
    requires KnownOrder(order) && n > 0
  {
    Interleaver.AllDeinterleaved(AllBytesOf(Receive(symbols, order, SymbolsPerFrame(size, order))), n)
  }

  /** The theorem: data in whole frames, interleaved, bit-mapped and modulated, is what the receiver recovers. */
  lemma ChainLosesNothing(data: seq<byte>, order: nat, n: nat, numCw: nat)
    requires KnownOrder(order) && n > 0 && numCw * n > 0 && (numCw * n) % BytesPerBitmask(order) == 0
    requires Interleaver.WellSized(|data|, numCw * n, n)
    ensures var frames := Interleaver.AllInterleaved(Interleaver.Rows(data, numCw * n), n);
            Recovered(Modulated(frames, order), order, numCw * n, n) == data
  {
    hide Interleaver.Rows, Interleaver.Flat, Interleaver.AllInterleaved, Interleaver.AllDeinterleaved;
    hide AllSent, Receive, FrameSymbols, Acquisition, Bits, BytesOf, AllBits, AllBytesOf, SymbolsPerFrame;
    var size := numCw * n;
    var frames := Interleaver.AllInterleaved(Interleaver.Rows(data, size), n);
    Interleaver.FlatOfRows(data, size);
    InterleavedSizes(data, size, n);
    FrameLengthFills(order, n, numCw);
    StreamModulated(frames, order);
    AllFramesReceived(frames, order, size);
    AllBytesOfBits(frames);
    Interleaver.RoundTrip(data, size, n);
    Interleaver.RowsOfFlat(frames, size);
  }

  /** The whole chain: the frame length, the interleaver, the bit mapping and the modulator. There are symbols exactly
      for data of at least one frame, all frames whole and of whole codewords, and then the data is recovered. */
  method Downlink(data: seq<byte>, order: nat, n: nat, k: nat, time: real)
    returns (symbols: Option<seq<nat>>, numCw: int)
    requires n > 0 && k > 0
    ensures KnownOrder(order) ==> FrameCodewords(order, n, time, numCw)
    ensures symbols.Some? <==>
              KnownOrder(order) && numCw > 0 && data != [] && Interleaver.WellSized(|data|, numCw * n, n)
    ensures symbols.Some? ==> Recovered(symbols.value, order, numCw * n, n) == data
  {
    hide Symbols, Mapped, FrameCodewords, Recovered, Interleaver.AllInterleaved, Interleaver.Rows;
    var length;
    length, numCw := LengthDataPerFrame(order, n, k, time);
    if length.None? || numCw <= 0 {
      return None, numCw;
    }
    var dataPerFrame := Truncate((length.value + 4) as real * (n as real / k as real));
    FrameSizeExact(numCw, n, k);
    assert dataPerFrame == numCw * n > 0;
    var frames := Interleaver.IntrlvData(data, dataPerFrame, n);
    if frames.None? {
      return None, numCw;
    }
    FramesFromData(data, dataPerFrame, n);
    var mapped := Bitmask(frames.value, order);
    if mapped.None? {
      return None, numCw;
    }
    StreamModulated(frames.value, order);
    var _, modulated := SoftwareModulator(AsBytes(mapped.value));
    FrameCodewordsFill(order, n, time, numCw);
    ChainLosesNothing(data, order, n, numCw);
    return Some(modulated), numCw;
  }

  lemma FrameSizeExact(c: nat, n: nat, k: nat)
    requires k > 0
    ensures Truncate((c * k) as real * (n as real / k as real)) == c * n
  {
    RateExact(c, k, n);
    WholeNumber(c * n);
  }

  lemma FramesFromData(data: seq<byte>, size: nat, n: nat)
    requires size > 0 && n > 0 && |data| % size == 0
    ensures Interleaver.AllInterleaved(Interleaver.Rows(data, size), n) != [] <==> data != []
  {
    hide Interleaver.Rows, Interleaver.AllInterleaved;
    Interleaver.FlatOfRows(data, size);
    Interleaver.SameCount(Interleaver.Rows(data, size), n);
    Interleaver.NotEmpty(|data|, size);
  }

  lemma InterleavedSizes(data: seq<byte>, size: nat, n: nat)
    requires n > 0 && Interleaver.WellSized(|data|, size, n)
    ensures Interleaver.Rectangular(Interleaver.AllInterleaved(Interleaver.Rows(data, size), n), size)
  {
    hide Interleaver.InterleaveFrame, Interleaver.Flat;
    if data == [] {
      Interleaver.NoFrames<byte>(size, n);
    } else {
      Interleaver.FramesRoundTrip(Interleaver.Rows(data, size), size, n);
    }
  }
}
