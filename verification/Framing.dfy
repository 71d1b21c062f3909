/** Bus framing: the segmentation of bus/packetizer.py and the acquisition of bus/depacketizer.py.
    Packets follow CCSDS 133.0-B-2, sections 4.1.3.4 and 4.1.3.5. */
module Framing {
  import opened Basics
  import opened SyncHunt
  import Crc
  import TxQueue

  const BUS_DATA_LEN := 4082
  const CCSDS_HEADER_LEN := 6
  const PKT_LEN_INDEX := 4

  // sequence flags
  const CONTINUATION := 0
  const FIRST := 1
  const LAST := 2
  const STANDALONE := 3

  // ---- the checksum, over bytes ----

  /** A byte as a bit vector. */
  function Octet(x: byte): (w: bv8) ensures w as int == x {
    if x == 0 then 0 else OctetAfter(x - 1, Octet(x - 1))
  }

  function OctetAfter(x: nat, w: bv8): (r: bv8)
    requires w as int == x < 0xFF
    ensures r as int == x + 1
  {
    w + 1
  }

  function Words(data: seq<byte>): (w: seq<bv8>) ensures |w| == |data| {
    seq(|data|, i requires 0 <= i < |data| => Octet(data[i]))
  }

  /** CRC-16/CCITT-FALSE of a byte string. */
  function Checksum(data: seq<byte>): (c: nat) ensures c < 0x10000 {
    Crc.Crc16(Crc.INITIAL, Words(data)) as int
  }

  // ---- one packet ----

  function Header(apid: nat, flag: nat, count: nat, dataLen: nat): (h: seq<byte>)
    requires flag < 4
    ensures |h| == CCSDS_HEADER_LEN
  {
    [(apid / 0x100) % 8, apid % 0x100, flag * 0x40 + (count / 0x100) % 0x40, count % 0x100,
     ((dataLen + 1) / 0x100) % 0x100, (dataLen + 1) % 0x100]
  }

  function WithChecksum(body: seq<byte>): (p: seq<byte>) ensures |p| == |body| + 2 {
    body + [Checksum(body) / 0x100, Checksum(body) % 0x100]
  }

  function Packet(apid: nat, flag: nat, count: nat, data: seq<byte>): (p: seq<byte>)
    requires flag < 4
    ensures |p| == CCSDS_HEADER_LEN + |data| + 2
  {
    WithChecksum(Header(apid, flag, count, |data|) + data)
  }

  // ---- segmentation ----

  /** The packets of a payload, from sequence count `count` on. */
  function PacketsFrom(apid: nat, data: seq<byte>, count: nat): seq<seq<byte>>
    decreases |data|
  {
    if |data| > BUS_DATA_LEN then
      [Packet(apid, if count == 0 then FIRST else CONTINUATION, count, data[..BUS_DATA_LEN])]
      + PacketsFrom(apid, data[BUS_DATA_LEN..], count + 1)
    else
      [Packet(apid, if count == 0 then STANDALONE else LAST, count, data)]
  }

  datatype IpcPacket = IpcPacket(apid: nat, payload: seq<byte>)

  function Framed(packets: seq<seq<byte>>): (f: seq<seq<byte>>) ensures |f| == |packets| {
    seq(|packets|, i requires 0 <= i < |packets| => SYNC + packets[i])
  }

  lemma NothingFramed()
    ensures Framed([]) == []
  {}

  lemma FramedSnoc(packets: seq<seq<byte>>, p: seq<byte>)
    ensures Framed(packets + [p]) == Framed(packets) + [SYNC + p]
  {}

  /** The framed packet, built field by field. */
  method BuildFrame(apid: nat, seqFlag: nat, seqCnt: nat, data: seq<byte>) returns (frame: seq<byte>)
    requires seqFlag < 4
    ensures frame == SYNC + Packet(apid, seqFlag, seqCnt, data)
  {
    var pkt: seq<byte> := [(apid / 0x100) % 8, apid % 0x100];
    pkt := pkt + [seqFlag * 0x40 + (seqCnt / 0x100) % 0x40, seqCnt % 0x100];
    pkt := pkt + [((|data| + 1) / 0x100) % 0x100, (|data| + 1) % 0x100];
    assert pkt == Header(apid, seqFlag, seqCnt, |data|);
    pkt := pkt + data;
    var crc := Checksum(pkt);
    pkt := pkt + [crc / 0x100, crc % 0x100];
    frame := SYNC + pkt;
  }

  /** One more packet in front of the rest of a payload. */
  lemma NextPacket(done: seq<seq<byte>>, apid: nat, data: seq<byte>, count: nat)
    requires |data| > BUS_DATA_LEN
    ensures var p := Packet(apid, if count == 0 then FIRST else CONTINUATION, count, data[..BUS_DATA_LEN]);
            done + PacketsFrom(apid, data, count) == (done + [p]) + PacketsFrom(apid, data[BUS_DATA_LEN..], count + 1)
  {}

  /** The segmentation loop: full packets are cut off the front of the data, the last one takes the rest. */
  method Segment(apid: nat, payload: seq<byte>) returns (frames: seq<seq<byte>>)
    ensures frames == Framed(PacketsFrom(apid, payload, 0))
  {
    hide Framed, Packet;
    var pktData, seqCnt: nat, seqFlag: nat := payload, 0, FIRST;
    ghost var done: seq<seq<byte>> := [];
    frames := [];
    NothingFramed();
    while |pktData| > BUS_DATA_LEN
      invariant seqFlag == if seqCnt == 0 then FIRST else CONTINUATION
      invariant done + PacketsFrom(apid, pktData, seqCnt) == PacketsFrom(apid, payload, 0)
      invariant frames == Framed(done)
      decreases |pktData|
    {
      var frame := BuildFrame(apid, seqFlag, seqCnt, pktData[..BUS_DATA_LEN]);
      NextPacket(done, apid, pktData, seqCnt);
      FramedSnoc(done, Packet(apid, seqFlag, seqCnt, pktData[..BUS_DATA_LEN]));
      done := done + [Packet(apid, seqFlag, seqCnt, pktData[..BUS_DATA_LEN])];
      frames := frames + [frame];
      pktData := pktData[BUS_DATA_LEN..];
      seqCnt := seqCnt + 1;
      seqFlag := CONTINUATION;
    }
    if seqFlag == FIRST {
      seqFlag := STANDALONE;
    } else {
      seqFlag := LAST;
    }
    var frame := BuildFrame(apid, seqFlag, seqCnt, pktData);
    FramedSnoc(done, Packet(apid, seqFlag, seqCnt, pktData));
    frames := frames + [frame];
  }

  class Packetizer {
    var ipcPktsBuffer: seq<IpcPacket>
    var busPktsBuffer: seq<seq<byte>>

    constructor ()
      ensures ipcPktsBuffer == [] && busPktsBuffer == []
    {
      ipcPktsBuffer, busPktsBuffer := [], [];
    }

    /** Segment the oldest IPC packet. */
    method HandleTxPkts()
      modifies this
      ensures old(ipcPktsBuffer) == [] ==> ipcPktsBuffer == [] && busPktsBuffer == old(busPktsBuffer)
      ensures old(ipcPktsBuffer) != [] ==>
                var pkt := old(ipcPktsBuffer)[0];
                ipcPktsBuffer == old(ipcPktsBuffer)[1..] &&
                busPktsBuffer == old(busPktsBuffer) + Framed(PacketsFrom(pkt.apid, pkt.payload, 0))
    {
      if ipcPktsBuffer == [] {
        return;
      }
      var ipcPkt := ipcPktsBuffer[0];
      ipcPktsBuffer := ipcPktsBuffer[1..];
      var frames := Segment(ipcPkt.apid, ipcPkt.payload);
      busPktsBuffer := busPktsBuffer + frames;
    }

    /** Write the oldest framed packet to the device. The frame is taken off the buffer whatever becomes of it: no
        memory is an exception that nothing catches; a raw device file that is to be tried again only answers None. */
    method SendBusPkts(device: TxQueue.Driver, hasMemory: bool, copied: bool) returns (ok: bool)
      requires busPktsBuffer != [] ==> |busPktsBuffer[0]| < 65528
      modifies this, device
      ensures ipcPktsBuffer == old(ipcPktsBuffer)
      ensures old(busPktsBuffer) == [] ==> ok && busPktsBuffer == [] && device.View() == old(device.View())
      ensures old(busPktsBuffer) != [] ==>
                var frame, was := old(busPktsBuffer)[0], old(device.View());
                && busPktsBuffer == old(busPktsBuffer)[1..]
                && device.View() == TxQueue.WriteStep(was, frame, hasMemory, copied)
                && (ok <==> TxQueue.AnswerTo(was, frame, hasMemory, copied) != TxQueue.NoMemory)
    {
      if busPktsBuffer == [] {
        return true;
      }
      var rawBusPkt := busPktsBuffer[0];
      busPktsBuffer := busPktsBuffer[1..];
      var answer := device.PacketWrite(rawBusPkt, hasMemory, copied);
      ok := answer != TxQueue.NoMemory;
    }
  }

  // ---- acquisition ----

  /** The bitwise or of two naturals. */
  function BitOr(a: nat, b: nat): nat
    decreases a + b
  {
    if a == 0 then b else if b == 0 then a
    else 2 * BitOr(a / 2, b / 2) + if a % 2 == 1 || b % 2 == 1 then 1 else 0
  }

  /** `hi << 8 | lo + 1`: the addition binds tighter, so its carry is or-ed, not added. */
  function DecodedLength(hi: byte, lo: byte): nat {
    BitOr(hi as int * 0x100, lo as int + 1)
  }

  datatype Acquired = Blocked | Got(buf: seq<byte>, rest: seq<byte>)

  /** What one acquisition takes from the stream. */
  function Acquire(s: seq<byte>): Acquired {
    var e := Hunt(s, 0);
    if e > |s| || |s| - e < CCSDS_HEADER_LEN then Blocked
    else
      var n := CCSDS_HEADER_LEN + DecodedLength(s[e + PKT_LEN_INDEX], s[e + PKT_LEN_INDEX + 1]);
      if |s| - e < n then Blocked else Got(s[e..e + n], s[e + n..])
  }

  /** The last two bytes are the checksum of those before. */
  predicate ChecksumHolds(buf: seq<byte>) {
    |buf| >= 2 && buf[|buf| - 2] as int * 0x100 + buf[|buf| - 1] as int == Checksum(buf[..|buf| - 2])
  }

  class Depacketizer {
    var spi: seq<byte>  // what the device has yet to deliver
    var busPktsBuffer: seq<seq<byte>>
    var errors: seq<seq<byte>>  // rejected packets, sent as error telemetry

    constructor (stream: seq<byte>)
      ensures spi == stream && busPktsBuffer == [] && errors == []
    {
      spi, busPktsBuffer, errors := stream, [], [];
    }

    /** Read n bytes; `ok` is false when the device would block for more. */
    method ReadData(n: nat) returns (ok: bool, buf: seq<byte>)
      modifies this`spi
      ensures ok <==> n <= |old(spi)|
      ensures ok ==> buf == old(spi)[..n] && spi == old(spi)[n..]
      ensures !ok ==> spi == old(spi)
    {
      if n > |spi| {
        return false, [];
      }
      ok, buf, spi := true, spi[..n], spi[n..];
    }

    /** Read up to the end of the next marker, one byte at a time. */
    method FindMarker() returns (ok: bool)
      modifies this`spi
      ensures ok <==> Hunt(old(spi), 0) <= |old(spi)|
      ensures ok ==> spi == old(spi)[Hunt(old(spi), 0)..]
    {
      ghost var s := spi;
      var syncIndex := 0;
      ghost var e := 0;
      while syncIndex < |SYNC|
        invariant e <= |s| && spi == s[e..] && syncIndex <= 4
        invariant forall d | 0 <= d < e :: !MarkerEndsAt(s, d)
        invariant if syncIndex == 4 then MarkerEndsAt(s, e) else !MarkerEndsAt(s, e) && syncIndex == Progress(s, e)
        decreases |spi|
      {
        var more, b := ReadData(1);
        if !more {
          return false;
        }
        e := e + 1;
        assert b[0] == s[e - 1];
        if b[0] == SYNC[syncIndex] {
          syncIndex := syncIndex + 1;
        } else if b[0] == SYNC[0] {
          syncIndex := 1;
        } else {
          syncIndex := 0;
        }
      }
      HuntIsFirst(s, e);
      return true;
    }

    /** Read one packet and file it by its checksum; `blocked` when the stream runs out first. */
    method AcquireBusPkt() returns (blocked: bool)
      modifies this
      ensures blocked <==> Acquire(old(spi)) == Blocked
      ensures blocked ==> busPktsBuffer == old(busPktsBuffer) && errors == old(errors)
      ensures !blocked ==>
                var got := Acquire(old(spi));
                spi == got.rest &&
                busPktsBuffer == old(busPktsBuffer) + (if ChecksumHolds(got.buf) then [got.buf] else []) &&
                errors == old(errors) + (if ChecksumHolds(got.buf) then [] else [got.buf])
    {
      hide Hunt, Checksum, BitOr, MarkerEndsAt;
      ghost var s, e := spi, Hunt(spi, 0);
      var ok := FindMarker();
      if !ok {
        return true;
      }
      var buf: seq<byte>, pkt: seq<byte>;
      ok, buf := ReadData(CCSDS_HEADER_LEN);
      if !ok {
        return true;
      }
      var pktLen := BitOr(buf[PKT_LEN_INDEX] as int * 0x100, buf[PKT_LEN_INDEX + 1] as int + 1);
      LengthPositive(buf[PKT_LEN_INDEX], buf[PKT_LEN_INDEX + 1]);
      ok, pkt := ReadData(pktLen);
      if !ok {
        return true;
      }
      assert buf + pkt == s[e..e + CCSDS_HEADER_LEN + pktLen];
      buf := buf + pkt;
      var crcIndex := CCSDS_HEADER_LEN + pktLen - 2;
      var crc := buf[crcIndex] as int * 0x100 + buf[crcIndex + 1] as int;
      if crc == Checksum(buf[..crcIndex]) {
        busPktsBuffer := busPktsBuffer + [buf];
      } else {
        errors := errors + [buf];
      }
      return false;
    }
  }

  lemma LengthPositive(hi: byte, lo: byte)
    ensures DecodedLength(hi, lo) >= 1
  {
    OrAtLeast(hi as int * 0x100, lo as int + 1);
  }

  lemma {:induction false} OrAtLeast(a: nat, b: nat)
    ensures BitOr(a, b) >= b
    decreases a + b
  {
    if a != 0 && b != 0 {
      OrAtLeast(a / 2, b / 2);
    }
  }

  // ---- when the decoded length is right ----

  lemma {:induction false} OrScaled(a: nat, b: nat, k: nat)
    ensures BitOr(a * Pow2(k), b * Pow2(k)) == BitOr(a, b) * Pow2(k)
  {
    if k > 0 {
      var p := Pow2(k - 1);
      OrScaled(a, b, k - 1);
      Twice(a, p);
      Twice(b, p);
      Twice(BitOr(a, b), p);
    }
  }

  lemma Twice(a: nat, p: nat)
    ensures a * (2 * p) == 2 * (a * p)
  {}

  lemma {:induction false} OrDisjoint(a: nat, b: nat, k: nat)
    requires b < Pow2(k)
    ensures BitOr(a * Pow2(k), b) == a * Pow2(k) + b
    decreases k
  {
    if k > 0 {
      Twice(a, Pow2(k - 1));
      OrDisjoint(a, b / 2, k - 1);
    }
  }

  /** The decoded length misses the carry exactly when the low byte is 255 and the high byte odd. */
  lemma LengthExact(hi: byte, lo: byte)
    ensures DecodedLength(hi, lo) ==
            if lo == 255 && hi as int % 2 == 1 then hi as int * 0x100 else hi as int * 0x100 + lo as int + 1
  {
    assert Pow2(8) == 256;
    if lo < 255 {
      OrDisjoint(hi, lo as int + 1, 8);
    } else {
      OrScaled(hi, 1, 8);
      OrOne(hi);
    }
  }

  lemma OrOne(a: nat)
    ensures BitOr(a, 1) == if a % 2 == 1 then a else a + 1
  {
    assert BitOr(a / 2, 0) == a / 2;
  }
}
