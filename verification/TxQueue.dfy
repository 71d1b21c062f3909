/** The kernel driver's transmit queue and transfer state machine: bus/driver/main.c and bus/driver/driver.c.
    Writes queue packets and account for their memory; an interrupt starts a transfer; each completion frees
    the sent packet, parses what came in, and asks for more or ends the exchange. */
module TxQueue {
  import opened Basics
  import opened SyncHunt

  const PACKET_TM_MAX_LEN := 4100
  const MAX_TX_QUEUE_LEN := 0x400_0000
  const PACKET_HEADER_LEN := 6
  const PACKET_SYNC_LEN := 4
  const PACKET_OVERHEAD := 10
  const PACKET_LATENCY := 4
  const DEFAULT_READ_LEN := 128
  const NOOP_APID := 0x2FF
  const SIZEOF_PACKET := 16  // of packet_t, on the 32-bit processor

  datatype Packet = Packet(len: nat, data: seq<byte>)

  /** A transfer that the SPI controller has been given. */
  datatype Transfer = Transfer(tx: Option<Packet>, len: nat)

  /** The receive side of the SPI data: the parser's state, where it reads and where the header stands, counted from
      the start of the receive buffer, and the buffer, which an exchange does not clear. */
  datatype Rx = Rx(sync: nat, readLen: nat, payloadLen: nat, apid: nat, readPtr: nat, header: nat, buffer: Buffer)

  /** All packets ever accepted, those that the controller took, the transfers of the current exchange, and the packets
      put into the receive fifo. */
  datatype Log = Log(accepted: seq<Packet>, clocked: seq<Packet>, transfers: nat, received: seq<seq<byte>>)

  datatype State = State(queue: seq<Packet>, queueLen: int, rx: Rx, busy: bool, tx: Option<Packet>,
                         outstanding: Option<Transfer>, log: Log)

  const NO_LOG := Log([], [], 0, [])

  // ---- the receive buffer ----

  /** The receive buffer, and 0 behind it. */
  type Buffer = seq<byte>

  function At(buffer: Buffer, k: nat): byte { if k < |buffer| then buffer[k] else 0 }

  function Slice(buffer: Buffer, from: nat, n: nat): (s: seq<byte>)
    ensures |s| == n && forall i | 0 <= i < n :: s[i] == At(buffer, from + i)
  {
    if n == 0 then [] else Slice(buffer, from, n - 1) + [At(buffer, from + n - 1)]
  }

  /** Bytes written over the buffer, which reaches as far as it has to. */
  function Put(buffer: Buffer, at: nat, bytes: seq<byte>): Buffer {
    var end := at + |bytes|;
    Slice(buffer, 0, at) + bytes + if end < |buffer| then buffer[end..] else []
  }

  lemma PutThere(buffer: Buffer, at: nat, bytes: seq<byte>)
    ensures forall k: nat ::
              At(Put(buffer, at, bytes), k) == if at <= k < at + |bytes| then bytes[k - at] else At(buffer, k)
  {
    hide Slice;
  }

  /** A parser that has seen nothing yet. */
  function Fresh(buffer: Buffer): Rx { Rx(0, 0, 0, 0, 0, 0, buffer) }

  // ---- memory ----

  function SizeOf(p: Packet): nat { p.len + SIZEOF_PACKET }

  function Memory(queue: seq<Packet>): nat {
    if queue == [] then 0 else Memory(queue[..|queue| - 1]) + SizeOf(queue[|queue| - 1])
  }

  function InFlight(tx: Option<Packet>): nat { if tx.Some? then SizeOf(tx.value) else 0 }

  lemma {:induction false} MemoryFront(queue: seq<Packet>)
    requires queue != []
    ensures Memory(queue) == SizeOf(queue[0]) + Memory(queue[1..])
  {
    if |queue| > 1 {
      var n := |queue| - 1;
      MemoryFront(queue[..n]);
      assert queue[..n][1..] == queue[1..][..n - 1];
    } else {
      assert queue[..0] == [] && queue[1..] == [];
    }
  }

  // ---- writing ----

  /** What a write from userspace is padded to. */
  function Padded(buf: seq<byte>): Packet {
    Packet(|buf| + 2 * PACKET_LATENCY, [0, 0, 0, 0] + buf + [0, 0, 0, 0])
  }

  /** The bytes, between four zeros before and four behind. */
  predicate HoldsBytes(p: Packet, buf: seq<byte>) {
    && p.len == |p.data| == |buf| + 8 && p.data[4..|buf| + 4] == buf
    && p.data[..4] == [0, 0, 0, 0] && p.data[|buf| + 4..] == [0, 0, 0, 0]
  }

  /** Room for a packet under both limits. */
  predicate Fits(s: State, p: Packet) { p.len <= PACKET_TM_MAX_LEN && s.queueLen + SizeOf(p) <= MAX_TX_QUEUE_LEN }

  /** What a write returns: its length, -ENOMEM or -EAGAIN. */
  datatype Answer = Queued | NoMemory | Again

  function AnswerTo(s: State, buf: seq<byte>, hasMemory: bool, copied: bool): Answer {
    if !Fits(s, Padded(buf)) || !hasMemory then NoMemory else if copied then Queued else Again
  }

  function WriteStep(s: State, buf: seq<byte>, hasMemory: bool, copied: bool): State {
    var p := Padded(buf);
    if !Fits(s, p) || !hasMemory || !copied then s
    else s.(queue := s.queue + [p], queueLen := s.queueLen + SizeOf(p), log := s.log.(accepted := s.log.accepted + [p]))
  }

  // ---- transfers ----

  /** Ask the controller for a transfer into the receive buffer at `at`; it may refuse. A packet in hand goes out with
      it. */
  function Ask(s: State, at: nat, len: nat, ok: bool): State {
    s.(rx := s.rx.(readLen := s.rx.readLen + len, readPtr := at),
       outstanding := if ok then Some(Transfer(s.tx, len)) else None,
       log := s.log.(transfers := s.log.transfers + 1,
                     clocked := if ok && s.tx.Some? then s.log.clocked + [s.tx.value] else s.log.clocked))
  }

  function InterruptStep(s: State, ok: bool): State {
    if s.busy then s
    else
      var begun := s.(rx := Fresh(s.rx.buffer), busy := true, log := s.log.(transfers := 0));
      if s.queue == [] then Ask(begun.(tx := None), 0, DEFAULT_READ_LEN, ok)
      else
        var p := s.queue[0];
        Ask(begun.(tx := Some(p), queue := s.queue[1..]), 0, p.len, ok)
  }

  /** What parsing decides: to ask for more bytes behind the read pointer, or that the exchange is over. */
  datatype Parsed = More(rx: Rx, len: nat) | Done(rx: Rx)

  function HeaderApid(header: seq<byte>): nat
    requires |header| >= PACKET_HEADER_LEN
  {
    header[0] as nat % 8 * 0x100 + header[1] as nat
  }

  /** The length field, plus one, in sixteen bits. */
  function HeaderPayload(header: seq<byte>): nat
    requires |header| >= PACKET_HEADER_LEN
  {
    (header[4] as nat * 0x100 + header[5] as nat + 1) % 0x10000
  }

  /** A packet that can be. */
  predicate PayloadOk(payloadLen: nat) { 0 < payloadLen <= PACKET_TM_MAX_LEN - PACKET_OVERHEAD }

  /** With the sync marker found, and the header there. The read pointer goes on by a header from where it is. */
  function ParseHeader(rx: Rx): Parsed
    requires rx.readLen >= PACKET_HEADER_LEN
  {
    var header := Slice(rx.buffer, rx.header, PACKET_HEADER_LEN);
    var payloadLen, apid := HeaderPayload(header), HeaderApid(header);
    var rest := rx.readLen - PACKET_HEADER_LEN;
    if !PayloadOk(payloadLen) then Done(rx.(apid := apid, payloadLen := 0))
    else
      var there := rx.(payloadLen := payloadLen, apid := apid, readPtr := rx.readPtr + PACKET_HEADER_LEN + rest);
      if rest < payloadLen then More(there.(readLen := rest), payloadLen - rest) else Done(there.(readLen := 0))
  }

  /** Hunting starts from nothing and takes all bytes of the transfer; later, the rest of the header has come. */
  predicate Parsable(rx: Rx, bytes: seq<byte>) {
    && (rx.sync == PACKET_SYNC_MARKER ==> rx.header >= PACKET_SYNC_LEN)
    && (rx.sync == PACKET_SYNC_MARKER && rx.payloadLen == 0 ==> rx.readLen == PACKET_HEADER_LEN)
    && (rx.sync != PACKET_SYNC_MARKER ==>
          rx.readLen == |bytes| && rx.payloadLen == 0 && rx.sync == 0 && rx.readPtr == 0)
  }

  /** Parse what one transfer has brought. */
  function Parse(rx: Rx, bytes: seq<byte>): (p: Parsed)
    requires Parsable(rx, bytes)
    ensures p.rx.payloadLen > 0 ==> p.rx.header >= PACKET_SYNC_LEN
  {
    var now := rx.(buffer := Put(rx.buffer, rx.readPtr, bytes));
    if rx.sync != PACKET_SYNC_MARKER then
      var e := Hunt(bytes, 0);
      if e > |bytes| then Done(now.(sync := Window(bytes, |bytes|), readLen := 0, readPtr := |bytes|))
      else
        var found := now.(sync := PACKET_SYNC_MARKER, readLen := |bytes| - e, readPtr := e, header := e);
        if |bytes| - e < PACKET_HEADER_LEN then
          More(found.(readPtr := |bytes|), PACKET_HEADER_LEN - (|bytes| - e))
        else ParseHeader(found)
    else if rx.payloadLen == 0 then ParseHeader(now)
    else Done(now.(readPtr := rx.readPtr + rx.readLen, readLen := 0))
  }

  /** The sent packet is freed. */
  function Freed(s: State): State { s.(queueLen := s.queueLen - InFlight(s.tx), tx := None, outstanding := None) }

  /** What goes into the receive fifo: the packet with its marker, from where the header stands. */
  function Handed(rx: Rx): seq<byte>
    requires rx.header >= PACKET_SYNC_LEN
  {
    Slice(rx.buffer, rx.header - PACKET_SYNC_LEN, PACKET_OVERHEAD + rx.payloadLen)
  }

  /** The packet is kept unless it is a no-op, or the fifo has no room. */
  function Finished(s: State, room: bool): State
    requires s.rx.payloadLen > 0 ==> s.rx.header >= PACKET_SYNC_LEN
  {
    if s.rx.payloadLen > 0 && s.rx.apid != NOOP_APID && room then
      s.(busy := false, log := s.log.(received := s.log.received + [Handed(s.rx)]))
    else s.(busy := false)
  }

  function CompleteStep(s: State, bytes: seq<byte>, room: bool, ok: bool): State
    requires Parsable(s.rx, bytes)
  {
    match Parse(s.rx, bytes)
    case More(rx, len) => Ask(Freed(s).(rx := rx), rx.readPtr, len, ok)
    case Done(rx) => Finished(Freed(s).(rx := rx), room)
  }

  // ---- the driver ----

  class Driver {
    var queue: seq<Packet>
    var txQueueLen: int
    var data: Rx
    var busy: bool
    var tx: Option<Packet>
    var outstanding: Option<Transfer>
    var log: Log

    function View(): State reads this { State(queue, txQueueLen, data, busy, tx, outstanding, log) }

    constructor (buffer: Buffer)
      ensures View() == State([], 0, Fresh(buffer), false, None, None, NO_LOG)
    {
      queue, txQueueLen, busy, tx, outstanding := [], 0, false, None, None;
      data, log := Fresh(buffer), NO_LOG;
    }

    /** A write: the packet is padded and queued, or refused. What is queued holds the bytes written, with four zeros on
        either side. */
    method PacketWrite(buf: seq<byte>, hasMemory: bool, copied: bool) returns (answer: Answer)
      requires |buf| < 65528
      modifies this
      ensures answer == Queued <==>
                |buf| + 8 <= 4100 && old(txQueueLen) + |buf| + 24 <= 0x400_0000 && hasMemory && copied
      ensures answer == Queued ==>
                && queue != [] && queue == old(queue) + [queue[|queue| - 1]]
                && log.accepted == old(log.accepted) + [queue[|queue| - 1]]
                && txQueueLen == old(txQueueLen) + |buf| + 24 && HoldsBytes(queue[|queue| - 1], buf)
      ensures answer != Queued ==> View() == old(View())
      ensures View() == WriteStep(old(View()), buf, hasMemory, copied)
      ensures answer == AnswerTo(old(View()), buf, hasMemory, copied)
    {
      var lenTot := (|buf| + 2 * PACKET_LATENCY) % 0x10000;
      if lenTot > PACKET_TM_MAX_LEN || MAX_TX_QUEUE_LEN - txQueueLen < lenTot + SIZEOF_PACKET || !hasMemory {
        return NoMemory;
      }
      if copied {
        var newPacket := Packet(lenTot, [0, 0, 0, 0] + buf + [0, 0, 0, 0]);
        txQueueLen := txQueueLen + (lenTot + SIZEOF_PACKET);
        queue := queue + [newPacket];
        log := log.(accepted := log.accepted + [newPacket]);
        return Queued;
      }
      return Again;
    }

    method PacketFree(packet: Packet)
      modifies this`txQueueLen
      ensures txQueueLen == old(txQueueLen) - SizeOf(packet)
    {
      txQueueLen := txQueueLen - packet.len;
      txQueueLen := txQueueLen - SIZEOF_PACKET;
    }

    /** Free every packet still queued. */
    method TxQueueClear()
      modifies this`queue, this`txQueueLen
      ensures queue == [] && txQueueLen == old(txQueueLen) - Memory(old(queue))
    {
      while queue != []
        invariant txQueueLen - Memory(queue) == old(txQueueLen) - Memory(old(queue))
        decreases |queue|
      {
        var packet := queue[0];
        MemoryFront(queue);
        queue := queue[1..];
        PacketFree(packet);
      }
    }

    method SpiXfer(at: nat, len: nat, ok: bool)
      modifies this`data, this`outstanding, this`log
      ensures View() == Ask(old(View()), at, len, ok)
    {
      data := data.(readLen := data.readLen + len);
      data := data.(readPtr := at);
      if ok {
        outstanding := Some(Transfer(tx, len));
        if tx.Some? {
          log := log.(clocked := log.clocked + [tx.value]);
        }
      } else {
        outstanding := None;
      }
      log := log.(transfers := log.transfers + 1);
    }

    method SpiDataInit()
      modifies this`data, this`busy, this`tx
      ensures data == Fresh(old(data.buffer)) && busy
      ensures tx == if queue == [] then None else Some(queue[0])
    {
      data := Fresh(data.buffer);
      busy := true;
      tx := if queue == [] then None else Some(queue[0]);
    }

    method InterruptHandler(ok: bool)
      modifies this
      ensures View() == InterruptStep(old(View()), ok)
    {
      if !busy {
        hide Ask;
        SpiDataInit();
        log := log.(transfers := 0);
        if tx.Some? {
          queue := queue[1..];
          SpiXfer(0, tx.value.len, ok);
        } else {
          SpiXfer(0, DEFAULT_READ_LEN, ok);
        }
      }
    }

    /** Shift bytes into the sync register until it holds the marker or the bytes run out. */
    method HuntMarker(ghost bytes: seq<byte>)
      requires data.sync == 0 && data.readLen == |bytes| && data.readPtr == 0
      requires forall i | 0 <= i < |bytes| :: At(data.buffer, i) == bytes[i]
      modifies this`data
      ensures var e := Hunt(bytes, 0);
              data == if e <= |bytes| then
                        old(data).(sync := PACKET_SYNC_MARKER, readLen := |bytes| - e, readPtr := e)
                      else old(data).(sync := Window(bytes, |bytes|), readLen := 0, readPtr := |bytes|)
      ensures data.sync == PACKET_SYNC_MARKER <==> Hunt(bytes, 0) <= |bytes|
    {
      assert Window(bytes, 0) == 0;
      hide Window, MarkerEndsAt;
      while data.readLen > 0 && data.sync != PACKET_SYNC_MARKER
        invariant data.readPtr + data.readLen == |bytes| && data.sync == Window(bytes, data.readPtr)
        invariant data == old(data).(sync := data.sync, readLen := data.readLen, readPtr := data.readPtr)
        invariant forall d | 0 <= d < data.readPtr :: !MarkerEndsAt(bytes, d)
        decreases data.readLen
      {
        WindowIsMarker(bytes, data.readPtr);
        WindowNext(bytes, data.readPtr);
        data := data.(readLen := data.readLen - 1);
        data := data.(sync := (data.sync * 0x100 + At(data.buffer, data.readPtr) as int) % 0x1_0000_0000);
        data := data.(readPtr := data.readPtr + 1);
      }
      WindowIsMarker(bytes, data.readPtr);
      HuntIsFirst(bytes, data.readPtr);
    }

    /** The header, once it is there; `asked` when the rest of the payload had to be asked for. */
    method ReadHeader(ok: bool) returns (asked: bool)
      requires data.readLen >= PACKET_HEADER_LEN && data.payloadLen == 0
      modifies this`data, this`outstanding, this`log
      ensures var was := old(View());
              View() == match ParseHeader(was.rx)
                        case More(rx, len) => Ask(was.(rx := rx), rx.readPtr, len, ok)
                        case Done(rx) => was.(rx := rx)
      ensures asked == ParseHeader(old(View()).rx).More?
    {
      hide Ask, Slice;
      var buffer, header := data.buffer, data.header;
      HeaderFields(buffer, header);
      data := data.(apid := At(buffer, header) as nat % 8 * 0x100 + At(buffer, header + 1) as nat);
      var len := (At(buffer, header + 4) as nat * 0x100 + At(buffer, header + 5) as nat + 1) % 0x10000;
      data := data.(payloadLen := len);
      hide HeaderApid, HeaderPayload;
      if data.payloadLen > 0 && data.payloadLen <= PACKET_TM_MAX_LEN - PACKET_OVERHEAD {
        data := data.(readPtr := data.readPtr + PACKET_HEADER_LEN);
        data := data.(readLen := data.readLen - PACKET_HEADER_LEN);
        data := data.(readPtr := data.readPtr + data.readLen);
        if data.readLen < data.payloadLen {
          SpiXfer(data.readPtr, data.payloadLen - data.readLen, ok);
          return true;
        }
        data := data.(readLen := 0);
        return false;
      } else {
        data := data.(payloadLen := 0);
        return false;
      }
    }

    /** Parse what came in; `asked` when more bytes had to be asked for. */
    method ParseBytes(bytes: seq<byte>, ok: bool) returns (asked: bool)
      requires Parsable(data, bytes)
      modifies this`data, this`outstanding, this`log
      ensures var was := old(View());
              View() == match Parse(was.rx, bytes)
                        case More(rx, len) => Ask(was.(rx := rx), rx.readPtr, len, ok)
                        case Done(rx) => was.(rx := rx)
      ensures asked == Parse(old(View()).rx, bytes).More?
    {
      hide Hunt, Window, ParseHeader, Ask, Put, At;
      PutThere(data.buffer, data.readPtr, bytes);
      data := data.(buffer := Put(data.buffer, data.readPtr, bytes));
      if data.sync != PACKET_SYNC_MARKER {
        HuntMarker(bytes);
        if data.sync == PACKET_SYNC_MARKER {
          data := data.(header := data.readPtr);
          if data.readLen < PACKET_HEADER_LEN {
            data := data.(readPtr := data.readPtr + data.readLen);
            SpiXfer(data.readPtr, PACKET_HEADER_LEN - data.readLen, ok);
            return true;
          }
        }
      }
      asked := false;
      if data.sync == PACKET_SYNC_MARKER {
        if data.payloadLen == 0 {
          asked := ReadHeader(ok);
        } else {
          data := data.(readPtr := data.readPtr + data.readLen);
          data := data.(readLen := 0);
        }
      }
    }

    /** A transfer is complete, with these bytes in the receive buffer; `room` when the receive fifo has room. */
    method SpiXferComplete(bytes: seq<byte>, room: bool, ok: bool)
      requires outstanding.Some? && Parsable(View().rx, bytes)
      modifies this
      ensures View() == CompleteStep(old(View()), bytes, room, ok)
    {
      hide Parse, Ask, Slice;
      outstanding := None;
      if tx.Some? {
        PacketFree(tx.value);
        tx := None;
      }
      var asked := ParseBytes(bytes, ok);
      if !asked {
        if data.payloadLen > 0 {
          if data.apid != NOOP_APID {
            if room {
              var packet :=
                Slice(data.buffer, data.header - PACKET_SYNC_LEN, PACKET_OVERHEAD + data.payloadLen);
              log := log.(received := log.received + [packet]);
            }
          }
        }
        busy := false;
      }
    }
  }

  lemma HeaderFields(buffer: Buffer, header: nat)
    ensures var h := Slice(buffer, header, PACKET_HEADER_LEN);
            && HeaderApid(h) == At(buffer, header) as nat % 8 * 0x100 + At(buffer, header + 1) as nat
            && HeaderPayload(h) == (At(buffer, header + 4) as nat * 0x100 + At(buffer, header + 5) as nat + 1) % 0x10000
  {}
}
