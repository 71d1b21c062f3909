/** What framing guarantees end to end: packets sent are read back, through any marker-free bytes, exactly when no
    segment length falls on the lost carry; their flags and counts rebuild the payloads; a burst of damage is
    rejected. */
module FramingResults {
  import opened Basics
  import opened SyncHunt
  import opened Framing
  import Crc

  // ---- acquiring one packet ----

  /** What a byte string must be to be read back as a packet. */
  predicate WellFormed(p: seq<byte>) {
    |p| >= 7 && DecodedLength(p[4], p[5]) == |p| - CCSDS_HEADER_LEN
  }

  lemma AcquireAfterGarbage(garbage: seq<byte>, p: seq<byte>, rest: seq<byte>)
    requires NoMarker(garbage) && |p| >= 7
    ensures WellFormed(p) ==> Acquire(garbage + SYNC + p + rest) == Got(p, rest)
    ensures !WellFormed(p) ==> forall r :: Acquire(garbage + SYNC + p + rest) != Got(p, r)
  {
    hide DecodedLength, MarkerEndsAt, Hunt;
    var s, e := garbage + SYNC + p + rest, |garbage| + 4;
    assert s == garbage + SYNC + (p + rest);
    MarkerAfterGarbage(garbage, p + rest);
    HuntIsFirst(s, e);
    assert s[e..] == p + rest;
    assert s[e + 4] == p[4] && s[e + 5] == p[5];
    if WellFormed(p) {
      assert s[e..e + |p|] == p && s[e + |p|..] == rest;
    }
  }

  lemma PacketWellFormed(apid: nat, flag: nat, count: nat, data: seq<byte>)
    requires flag < 4 && |data| <= BUS_DATA_LEN
    ensures WellFormed(Packet(apid, flag, count, data)) <==> |data| % 512 != 510
  {
    hide Packet, DecodedLength;
    var p := Packet(apid, flag, count, data);
    PacketLengthField(apid, flag, count, data);
    LengthExact(p[4], p[5]);
    LengthDigits(|data| + 1);
  }

  lemma PacketLengthField(apid: nat, flag: nat, count: nat, data: seq<byte>)
    requires flag < 4 && |data| <= BUS_DATA_LEN
    ensures var p, n := Packet(apid, flag, count, data), |data| + 1;
            p[4] == n / 0x100 && p[5] == n % 0x100
  {
    hide Checksum;
    assert Header(apid, flag, count, |data|)[4] == (|data| + 1) / 0x100;
  }

  lemma LengthDigits(n: nat)
    requires 0 < n < 0x10000
    ensures var hi, lo := n / 0x100, n % 0x100;
            (if lo == 255 && hi % 2 == 1 then hi * 0x100 else hi * 0x100 + lo + 1) == n + 1 <==> n % 512 != 511
  {}

  /** A sent packet is read back, behind any marker-free bytes, exactly when its length is not 510 mod 512. */
  lemma FrameReadBack(garbage: seq<byte>, apid: nat, flag: nat, count: nat, data: seq<byte>, rest: seq<byte>)
    requires NoMarker(garbage) && flag < 4 && |data| <= BUS_DATA_LEN
    ensures var p := Packet(apid, flag, count, data);
            Acquire(garbage + SYNC + p + rest) == Got(p, rest) <==> |data| % 512 != 510
  {
    PacketWellFormed(apid, flag, count, data);
    AcquireAfterGarbage(garbage, Packet(apid, flag, count, data), rest);
  }

  /** A packet of 510 bytes, with nothing before or behind it, is taken for one half as long. */
  lemma CarryLost(apid: nat, flag: nat, count: nat, data: seq<byte>)
    requires flag < 4 && |data| == 510
    ensures var p := Packet(apid, flag, count, data);
            && DecodedLength(p[PKT_LEN_INDEX], p[PKT_LEN_INDEX + 1]) == 256
            && forall rest :: Acquire([] + SYNC + p + []) != Got(p, rest)
  {
    hide Acquire, DecodedLength, Packet;
    var p := Packet(apid, flag, count, data);
    PacketLengthField(apid, flag, count, data);
    LengthExact(p[4], p[5]);
    var nothing: seq<byte> := [];
    NothingToMark(nothing);
    AcquireAfterGarbage(nothing, p, nothing);
  }

  lemma NothingToMark(nothing: seq<byte>)
    requires nothing == []
    ensures NoMarker(nothing)
  {}

  lemma PacketChecksumHolds(apid: nat, flag: nat, count: nat, data: seq<byte>)
    requires flag < 4
    ensures ChecksumHolds(Packet(apid, flag, count, data))
  {
    hide Checksum;
    var p, body := Packet(apid, flag, count, data), Header(apid, flag, count, |data|) + data;
    assert p[..|p| - 2] == body;
  }

  // ---- a whole stream ----

  /** Each packet behind some garbage and a marker. */
  function Stream(garbage: seq<seq<byte>>, packets: seq<seq<byte>>): seq<byte>
    requires |garbage| == |packets|
    decreases |packets|
  {
    if packets == [] then [] else garbage[0] + SYNC + packets[0] + Stream(garbage[1..], packets[1..])
  }

  lemma AcquireProgress(s: seq<byte>)
    ensures Acquire(s).Got? ==> |Acquire(s).rest| < |s|
  {}

  /** Everything the depacketizer accepts until the stream blocks. */
  function Accepted(s: seq<byte>): seq<seq<byte>>
    decreases |s|
  {
    match Acquire(s)
    case Blocked => []
    case Got(buf, rest) =>
      AcquireProgress(s);
      (if ChecksumHolds(buf) then [buf] else []) + Accepted(rest)
  }

  /** The acquisition loop of run, until the stream blocks. */
  method Drain(d: Depacketizer)
    modifies d
    ensures d.busPktsBuffer == old(d.busPktsBuffer) + Accepted(old(d.spi))
  {
    hide ChecksumHolds, Acquire;
    ghost var before := d.busPktsBuffer;
    ghost var all := Accepted(d.spi);
    var blocked := false;
    while !blocked
      invariant !blocked ==> d.busPktsBuffer + Accepted(d.spi) == before + all
      invariant blocked ==> d.busPktsBuffer == before + all
      decreases !blocked, |d.spi|
    {
      AcquireProgress(d.spi);
      blocked := d.AcquireBusPkt();
    }
  }

  lemma {:induction false} StreamReadBack(garbage: seq<seq<byte>>, packets: seq<seq<byte>>, tail: seq<byte>)
    requires |garbage| == |packets| && NoMarker(tail)
    requires forall g | g in garbage :: NoMarker(g)
    requires forall p | p in packets :: WellFormed(p) && ChecksumHolds(p)
    ensures Accepted(Stream(garbage, packets) + tail) == packets
    decreases |packets|
  {
    hide WellFormed, ChecksumHolds, Acquire;
    if packets == [] {
      assert Stream(garbage, packets) + tail == tail;
      TailBlocks(tail);
    } else {
      var g, p, rest := garbage[0], packets[0], Stream(garbage[1..], packets[1..]) + tail;
      assert Stream(garbage, packets) + tail == g + SYNC + p + rest;
      assert |p| >= 7 by { assert p in packets; WellFormedLength(p); }
      AcquireAfterGarbage(g, p, rest);
      StreamReadBack(garbage[1..], packets[1..], tail);
    }
  }

  lemma WellFormedLength(p: seq<byte>)
    requires WellFormed(p)
    ensures |p| >= 7
  {}

  lemma TailBlocks(tail: seq<byte>)
    requires NoMarker(tail)
    ensures Acquire(tail) == Blocked
  {}

  // ---- rebuilding the payloads ----

  function Flag(p: seq<byte>): nat requires |p| >= 8 { p[2] as int / 0x40 }
  function Count(p: seq<byte>): nat requires |p| >= 8 { (p[2] as int % 0x40) * 0x100 + p[3] as int }
  function Apid(p: seq<byte>): nat requires |p| >= 8 { (p[0] as int % 8) * 0x100 + p[1] as int }
  function Data(p: seq<byte>): seq<byte> requires |p| >= 8 { p[CCSDS_HEADER_LEN..|p| - 2] }

  function Prepend(m: IpcPacket, r: Option<seq<IpcPacket>>): Option<seq<IpcPacket>> {
    if r.None? then None else Some([m] + r.value)
  }

  /** A strict receiver by the standard: a standalone packet, or a first, continuations and a last
      with one APID and counts 0, 1, 2, ... modulo 2^14; anything else is refused. */
  function Reassemble(packets: seq<seq<byte>>, open: Option<IpcPacket>, expected: nat): Option<seq<IpcPacket>>
    decreases |packets|
  {
    if packets == [] then (if open.None? then Some([]) else None)
    else if |packets[0]| < 8 then None
    else
      var p := packets[0];
      if open.None? then
        if Count(p) != 0 then None
        else if Flag(p) == STANDALONE then Prepend(IpcPacket(Apid(p), Data(p)), Reassemble(packets[1..], None, 0))
        else if Flag(p) == FIRST then Reassemble(packets[1..], Some(IpcPacket(Apid(p), Data(p))), 1)
        else None
      else if Apid(p) != open.value.apid || Count(p) != expected % 0x4000 then None
      else
        var m := IpcPacket(open.value.apid, open.value.payload + Data(p));
        if Flag(p) == CONTINUATION then Reassemble(packets[1..], Some(m), expected + 1)
        else if Flag(p) == LAST then Prepend(m, Reassemble(packets[1..], None, 0))
        else None
  }

  lemma Fields(apid: nat, flag: nat, count: nat, data: seq<byte>)
    requires flag < 4
    ensures var p := Packet(apid, flag, count, data);
            Flag(p) == flag && Count(p) == count % 0x4000 && Apid(p) == apid % 0x800 && Data(p) == data
  {
    hide Checksum;
    var p := Packet(apid, flag, count, data);
    Digits(count);
    Digits(apid);
    assert p[0] as int == (apid / 0x100) % 8 && p[1] as int == apid % 0x100;
    assert p[2] as int == flag * 0x40 + (count / 0x100) % 0x40 && p[3] as int == count % 0x100;
  }

  lemma Digits(x: nat)
    ensures ((x / 0x100) % 0x40) * 0x100 + x % 0x100 == x % 0x4000
    ensures ((x / 0x100) % 8) * 0x100 + x % 0x100 == x % 0x800
  {
    DigitsOf(x, 0x40);
    DigitsOf(x, 8);
  }

  lemma DigitsOf(x: nat, n: nat)
    requires n == 8 || n == 0x40
    ensures ((x / 0x100) % n) * 0x100 + x % 0x100 == x % (0x100 * n)
  {
    var lo, q := x % 0x100, x / 0x100;
    var k, m := q / n, q % n;
    if n == 8 {
      assert x == 0x800 * k + (0x100 * m + lo);
    } else {
      assert x == 0x4000 * k + (0x100 * m + lo);
    }
  }

  /** The rest of a payload, after `count` segments that hold `sofar`. */
  lemma {:induction false} RestRebuilt(apid: nat, data: seq<byte>, count: nat, sofar: seq<byte>, rest: seq<seq<byte>>)
    requires count > 0
    ensures Reassemble(PacketsFrom(apid, data, count) + rest, Some(IpcPacket(apid % 0x800, sofar)), count)
         == Prepend(IpcPacket(apid % 0x800, sofar + data), Reassemble(rest, None, 0))
    decreases |data|
  {
    hide Packet, Flag, Count, Apid, Data;
    var more := PacketsFrom(apid, data, count) + rest;
    if |data| > BUS_DATA_LEN {
      var head, tail := data[..BUS_DATA_LEN], data[BUS_DATA_LEN..];
      Fields(apid, CONTINUATION, count, head);
      assert more[1..] == PacketsFrom(apid, tail, count + 1) + rest;
      RestRebuilt(apid, tail, count + 1, sofar + head, rest);
      assert sofar + head + tail == sofar + data;
    } else {
      Fields(apid, LAST, count, data);
      assert more[1..] == rest;
    }
  }

  lemma PayloadRebuilt(m: IpcPacket, rest: seq<seq<byte>>)
    ensures Reassemble(PacketsFrom(m.apid, m.payload, 0) + rest, None, 0)
         == Prepend(IpcPacket(m.apid % 0x800, m.payload), Reassemble(rest, None, 0))
  {
    hide Packet, Flag, Count, Apid, Data;
    var more := PacketsFrom(m.apid, m.payload, 0) + rest;
    if |m.payload| > BUS_DATA_LEN {
      var head, tail := m.payload[..BUS_DATA_LEN], m.payload[BUS_DATA_LEN..];
      Fields(m.apid, FIRST, 0, head);
      assert more[1..] == PacketsFrom(m.apid, tail, 1) + rest;
      RestRebuilt(m.apid, tail, 1, head, rest);
      assert head + tail == m.payload;
    } else {
      Fields(m.apid, STANDALONE, 0, m.payload);
      assert more[1..] == rest;
    }
  }

  function AllPackets(messages: seq<IpcPacket>): seq<seq<byte>> {
    if messages == [] then [] else PacketsFrom(messages[0].apid, messages[0].payload, 0) + AllPackets(messages[1..])
  }

  function Masked(messages: seq<IpcPacket>): seq<IpcPacket> {
    if messages == [] then [] else [IpcPacket(messages[0].apid % 0x800, messages[0].payload)] + Masked(messages[1..])
  }

  /** The packets of any messages rebuild them, with the APID cut to its 11 bits. */
  lemma {:induction false} MessagesRebuilt(messages: seq<IpcPacket>)
    ensures Reassemble(AllPackets(messages), None, 0) == Some(Masked(messages))
  {
    hide PacketsFrom;
    if messages != [] {
      PayloadRebuilt(messages[0], AllPackets(messages[1..]));
      MessagesRebuilt(messages[1..]);
    }
  }

  // ---- end to end ----

  /** The length of the last segment of a payload of n bytes. */
  function LastLength(n: nat): nat { if n > BUS_DATA_LEN then LastLength(n - BUS_DATA_LEN) else n }

  predicate Carries(p: seq<byte>) { WellFormed(p) && ChecksumHolds(p) }

  lemma {:induction false} SegmentsCarry(apid: nat, data: seq<byte>, count: nat)
    ensures (forall p | p in PacketsFrom(apid, data, count) :: Carries(p)) <==> LastLength(|data|) % 512 != 510
    decreases |data|
  {
    hide Packet, WellFormed, ChecksumHolds;
    if |data| > BUS_DATA_LEN {
      var flag := if count == 0 then FIRST else CONTINUATION;
      var p := Packet(apid, flag, count, data[..BUS_DATA_LEN]);
      var more := PacketsFrom(apid, data[BUS_DATA_LEN..], count + 1);
      PacketWellFormed(apid, flag, count, data[..BUS_DATA_LEN]);
      PacketChecksumHolds(apid, flag, count, data[..BUS_DATA_LEN]);
      SegmentsCarry(apid, data[BUS_DATA_LEN..], count + 1);
      assert forall q | q in more :: q in [p] + more;
    } else {
      var flag := if count == 0 then STANDALONE else LAST;
      PacketWellFormed(apid, flag, count, data);
      PacketChecksumHolds(apid, flag, count, data);
      assert Packet(apid, flag, count, data) in PacketsFrom(apid, data, count);
    }
  }

  lemma {:induction false} MessagesCarry(messages: seq<IpcPacket>)
    ensures (forall p | p in AllPackets(messages) :: Carries(p)) <==> NoLostCarry(messages)
  {
    hide PacketsFrom, LastLength, Carries;
    if messages != [] {
      var first, more := PacketsFrom(messages[0].apid, messages[0].payload, 0), AllPackets(messages[1..]);
      SegmentsCarry(messages[0].apid, messages[0].payload, 0);
      MessagesCarry(messages[1..]);
      assert forall p :: p in AllPackets(messages) <==> p in first || p in more;
      assert forall m :: m in messages <==> m == messages[0] || m in messages[1..];
    }
  }

  /** No message has a last segment of 510 bytes modulo 512. */
  predicate NoLostCarry(messages: seq<IpcPacket>) {
    forall m | m in messages :: LastLength(|m.payload|) % 512 != 510
  }

  lemma {:induction false} AcceptedCarry(s: seq<byte>)
    ensures forall p | p in Accepted(s) :: Carries(p)
    decreases |s|
  {
    hide ChecksumHolds, DecodedLength, Hunt;
    match Acquire(s)
    case Blocked =>
    case Got(buf, rest) =>
      AcquireProgress(s);
      AcceptedCarry(rest);
      assert WellFormed(buf) by {
        AcquiredLength(s);
      }
  }

  lemma AcquiredLength(s: seq<byte>)
    requires Acquire(s).Got?
    ensures var buf := Acquire(s).buf; |buf| >= 7 && |buf| == CCSDS_HEADER_LEN + DecodedLength(buf[4], buf[5])
  {
    hide DecodedLength, Hunt;
    var e := Hunt(s, 0);
    LengthPositive(s[e + PKT_LEN_INDEX], s[e + PKT_LEN_INDEX + 1]);
  }

  /** Whatever marker-free garbage lies before, between and after the packets, the depacketizer accepts
      exactly the packets sent, and they rebuild the messages, if and only if no carry is lost. */
  lemma EndToEnd(messages: seq<IpcPacket>, garbage: seq<seq<byte>>, tail: seq<byte>)
    requires |garbage| == |AllPackets(messages)| && NoMarker(tail) && forall g | g in garbage :: NoMarker(g)
    ensures var received := Accepted(Stream(garbage, AllPackets(messages)) + tail);
            (received == AllPackets(messages) <==> NoLostCarry(messages)) &&
            (NoLostCarry(messages) ==> Reassemble(received, None, 0) == Some(Masked(messages)))
  {
    MessagesCarry(messages);
    hide AllPackets, WellFormed, ChecksumHolds, NoLostCarry;
    AcceptedCarry(Stream(garbage, AllPackets(messages)) + tail);
    if NoLostCarry(messages) {
      StreamReadBack(garbage, AllPackets(messages), tail);
      MessagesRebuilt(messages);
    }
  }

  // ---- damage ----

  lemma JoinValue(hi: bv8, lo: bv8)
    ensures Crc.Join(hi, lo) as int == hi as int * 0x100 + lo as int
  {
    JoinRaw(hi, lo);
    JoinUnfolds(hi, lo);
    hide Crc.Join;
  }

  lemma JoinUnfolds(hi: bv8, lo: bv8)
    ensures Crc.Join(hi, lo) == ((hi as bv16) << 8) | (lo as bv16)
  {}

  lemma JoinRaw(hi: bv8, lo: bv8)
    ensures (((hi as bv16) << 8) | (lo as bv16)) as int == 0x100 * (hi as int) + (lo as int)
  {}

  lemma SameWord(x: bv16, y: bv16)
    ensures x as int == y as int ==> x == y
  {
    assert (x as int) as bv16 == x && (y as int) as bv16 == y;
  }

  lemma WordsConcat(a: seq<byte>, b: seq<byte>)
    ensures Words(a + b) == Words(a) + Words(b)
  {}

  lemma ChecksumWord(body: seq<byte>, hi: byte, lo: byte)
    ensures Crc.Crc16(Crc.INITIAL, Words(body)) == Crc.Join(Octet(hi), Octet(lo)) <==>
            hi as int * 0x100 + lo as int == Checksum(body)
  {
    hide Crc.Crc16, Crc.Join, Words;
    JoinValue(Octet(hi), Octet(lo));
    SameWord(Crc.Join(Octet(hi), Octet(lo)), Crc.Crc16(Crc.INITIAL, Words(body)));
  }

  /** A packet holds its checksum exactly when the CRC over all of it is 0. */
  lemma WholeCrcZero(p: seq<byte>)
    requires |p| >= 2
    ensures ChecksumHolds(p) <==> Crc.Crc16(Crc.INITIAL, Words(p)) == 0
  {
    hide Crc.Crc16, Crc.Join, Checksum;
    var body, hi, lo := p[..|p| - 2], p[|p| - 2], p[|p| - 1];
    assert p == body + [hi, lo];
    WordsConcat(body, [hi, lo]);
    assert Words([hi, lo]) == [Octet(hi), Octet(lo)];
    hide Words;
    Crc.SelfCheck(Crc.INITIAL, Words(body), Octet(hi), Octet(lo));
    ChecksumWord(body, hi, lo);
  }

  lemma WordsInjective(a: seq<byte>, b: seq<byte>)
    requires Words(a) == Words(b)
    ensures a == b
  {
    forall i | 0 <= i < |a| ensures a[i] == b[i] {
      assert Words(a)[i] == Words(b)[i];
    }
  }

  /** Two adjacent damaged bytes, anywhere but in the length field, make the depacketizer refuse the packet. */
  lemma DamageRejected(garbage: seq<byte>, head: seq<byte>, was: seq<byte>, now: seq<byte>, end: seq<byte>,
                       rest: seq<byte>)
    requires NoMarker(garbage) && |was| == |now| <= 2 && was != now
    requires WellFormed(head + was + end) && ChecksumHolds(head + was + end)
    requires |head| + |was| <= 4 || |head| >= 6
    ensures Acquire(garbage + SYNC + (head + now + end) + rest) == Got(head + now + end, rest)
    ensures !ChecksumHolds(head + now + end)
  {
    hide Acquire, ChecksumHolds;
    var p, q := head + was + end, head + now + end;
    assert WellFormed(q) by {
      assert p[4] == q[4] && p[5] == q[5];
    }
    hide WellFormed;
    AcquireAfterGarbage(garbage, q, rest) by { WellFormedLength(q); }
    WellFormedLength(p);
    CrcsDiffer(head, was, now, end);
    WholeCrcZero(p);
    WholeCrcZero(q) by { WellFormedLength(q); }
  }

  lemma CrcsDiffer(head: seq<byte>, was: seq<byte>, now: seq<byte>, end: seq<byte>)
    requires |was| == |now| <= 2 && was != now
    ensures Crc.Crc16(Crc.INITIAL, Words(head + was + end)) != Crc.Crc16(Crc.INITIAL, Words(head + now + end))
  {
    hide Crc.Crc16, Words;
    WordsConcat(head + was, end);
    WordsConcat(head, was);
    WordsConcat(head + now, end);
    WordsConcat(head, now);
    if Words(was) == Words(now) {
      WordsInjective(was, now);
    }
    Crc.AdjacentBytesDetected(Crc.INITIAL, Words(head), Words(was), Words(now), Words(end));
  }

  // ---- from segmentation to the device ----

  function AllFrames(messages: seq<IpcPacket>): seq<seq<byte>> { Framed(AllPackets(messages)) }

  lemma FrameCount(apid: nat, data: seq<byte>)
    ensures var n := |PacketsFrom(apid, data, 0)|; n >= 1 && (n == 1 <==> |data| <= BUS_DATA_LEN)
  {
    hide Packet;
  }

  /** There are more frames than messages, and so than turns to write them in, exactly when some message needs more than
      one. */
  lemma {:induction false} BacklogIff(messages: seq<IpcPacket>)
    ensures |AllFrames(messages)| >= |messages|
    ensures |AllFrames(messages)| == |messages| <==> forall m | m in messages :: |m.payload| <= BUS_DATA_LEN
  {
    hide PacketsFrom;
    if messages != [] {
      BacklogIff(messages[1..]);
      FrameCount(messages[0].apid, messages[0].payload);
      assert forall m :: m in messages <==> m == messages[0] || m in messages[1..];
    }
  }
}
