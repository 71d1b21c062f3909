/** From messages to the kernel driver's queue: the main loop of bus/packetizer.py over the device that it writes to. */
module BusDownlink {
  import opened Basics
  import opened SyncHunt
  import opened Framing
  import opened FramingResults
  import TxQueue
  import TxQueueRuns

  /** The longest payload whose frame, padded, the driver takes. */
  const LONGEST := 4080

  lemma FrameFits(apid: nat, flag: nat, count: nat, data: seq<byte>)
    requires flag < 4
    ensures TxQueue.Padded(SYNC + Packet(apid, flag, count, data)).len <= TxQueue.PACKET_TM_MAX_LEN <==>
            |data| <= LONGEST
  {
    hide Packet;
  }

  /** The kernel driver reads the length of the data and the checksum from a packet's header, also where the
      depacketizer loses the carry, and its APID. */
  lemma DriverReadsHeader(apid: nat, flag: nat, count: nat, data: seq<byte>)
    requires flag < 4 && |data| <= BUS_DATA_LEN
    ensures var p := Packet(apid, flag, count, data);
            TxQueue.HeaderPayload(p) == |data| + 2 == |p| - 6 && TxQueue.HeaderApid(p) == apid % 0x800
  {
    PacketLengthField(apid, flag, count, data);
    Fields(apid, flag, count, data);
    hide Packet;
  }

  // ---- turns ----

  /** A turn of the main loop: what the driver does before it, the message, and what the kernel answers to the write. */
  datatype Turn = Turn(events: seq<TxQueueRuns.Event>, message: IpcPacket, hasMemory: bool, copied: bool)

  /** The frames of a message, and a message that is one frame. */
  function Frames(m: IpcPacket): (f: seq<seq<byte>>)
    ensures f != []
  {
    Framed(PacketsFrom(m.apid, m.payload, 0))
  }

  function First(m: IpcPacket): seq<byte> { Frames(m)[0] }

  function Whole(m: IpcPacket): seq<byte> { SYNC + Packet(m.apid, STANDALONE, 0, m.payload) }

  lemma FirstFrame(m: IpcPacket)
    ensures |First(m)| <= 4094 && (|m.payload| <= LONGEST ==> First(m) == Whole(m))
    ensures |m.payload| <= BUS_DATA_LEN ==> Frames(m)[1..] == []
    ensures TxQueue.Padded(First(m)).len <= TxQueue.PACKET_TM_MAX_LEN <==> |m.payload| <= LONGEST
  {
    if |m.payload| > BUS_DATA_LEN {
      FrameFits(m.apid, FIRST, 0, m.payload[..BUS_DATA_LEN]);
    } else {
      FrameFits(m.apid, STANDALONE, 0, m.payload);
    }
    hide Packet;
  }

  /** The driver after a turn. */
  function After(s: TxQueue.State, t: Turn): TxQueue.State {
    TxQueue.WriteStep(TxQueueRuns.Run(s, t.events), First(t.message), t.hasMemory, t.copied)
  }

  function AfterAll(s: TxQueue.State, turns: seq<Turn>): TxQueue.State {
    if turns == [] then s else After(AfterAll(s, turns[..|turns| - 1]), turns[|turns| - 1])
  }

  /** The kernel has memory for the message, within the limit of its queue. */
  predicate HasRoom(s: TxQueue.State, t: Turn) {
    t.hasMemory &&
    TxQueueRuns.Run(s, t.events).queueLen + TxQueue.SizeOf(TxQueue.Padded(First(t.message))) <= TxQueue.MAX_TX_QUEUE_LEN
  }

  /** The write of a turn is answered without an error. */
  predicate Goes(s: TxQueue.State, t: Turn) { |t.message.payload| <= LONGEST && HasRoom(s, t) }

  /** What the driver has taken of messages that fit: all of each, unless copying it failed. */
  function AllWritten(turns: seq<Turn>): seq<TxQueue.Packet> {
    if turns == [] then []
    else
      var t := turns[|turns| - 1];
      AllWritten(turns[..|turns| - 1]) + if t.copied then [TxQueue.Padded(Whole(t.message))] else []
  }

  // ---- the loop ----

  /** The driver's own steps. */
  method RunDriver(d: TxQueue.Driver, events: seq<TxQueueRuns.Event>)
    requires forall e | e in events :: !e.Write?
    modifies d
    ensures d.View() == TxQueueRuns.Run(old(d.View()), events) && d.log.accepted == old(d.log.accepted)
  {
    hide TxQueueRuns.Step;
    assert events[..0] == [];
    for i := 0 to |events|
      invariant d.View() == TxQueueRuns.Run(old(d.View()), events[..i]) && d.log.accepted == old(d.log.accepted)
    {
      AcceptsNothing(d.View(), events[i]);
      TxQueueRuns.Apply(d, events[i]);
      assert events[..i + 1][..i] == events[..i];
    }
    assert events[..|events|] == events;
  }

  lemma AcceptsNothing(s: TxQueue.State, e: TxQueueRuns.Event)
    requires !e.Write?
    ensures TxQueueRuns.Step(s, e).log.accepted == s.log.accepted
  {
    hide TxQueue.Parse;
  }

  /** One turn: the message's first frame is written, or the process dies of the error and loses it. */
  method TakeTurn(p: Packetizer, d: TxQueue.Driver, t: Turn) returns (ok: bool)
    requires p.ipcPktsBuffer == [] && p.busPktsBuffer == [] && forall e | e in t.events :: !e.Write?
    modifies p, d
    ensures ok <==> Goes(old(d.View()), t)
    ensures d.View() == After(old(d.View()), t)
    ensures p.ipcPktsBuffer == []
    ensures p.busPktsBuffer == Frames(t.message)[1..]
    ensures d.log.accepted == old(d.log.accepted) + if ok then AllWritten([t]) else []
  {
    hide AllWritten, Goes, TxQueueRuns.Run, TxQueue.WriteStep, TxQueue.AnswerTo, Framed, PacketsFrom;
    FirstFrame(t.message);
    WriteGoes(d.View(), t);
    RunDriver(d, t.events);
    p.ipcPktsBuffer := p.ipcPktsBuffer + [t.message];
    assert p.ipcPktsBuffer == [t.message];
    p.HandleTxPkts();
    assert p.busPktsBuffer == Frames(t.message);
    ok := p.SendBusPkts(d, t.hasMemory, t.copied);
  }

  /** The write of a turn: its answer, and what the driver takes. */
  lemma WriteGoes(s: TxQueue.State, t: Turn)
    ensures var now := TxQueueRuns.Run(s, t.events);
            && (Goes(s, t) <==> TxQueue.AnswerTo(now, First(t.message), t.hasMemory, t.copied) != TxQueue.NoMemory)
            && After(s, t).log.accepted == now.log.accepted + if Goes(s, t) then AllWritten([t]) else []
  {
    FirstFrame(t.message);
    hide First, Whole, TxQueueRuns.Run;
    assert AllWritten([t]) == if t.copied then [TxQueue.Padded(Whole(t.message))] else [] by { assert [t][..0] == []; }
  }

  lemma OneTurnMore(s: TxQueue.State, turns: seq<Turn>, n: nat)
    requires n < |turns|
    ensures AllWritten(turns[..n + 1]) == AllWritten(turns[..n]) + AllWritten([turns[n]])
    ensures AfterAll(s, turns[..n + 1]) == After(AfterAll(s, turns[..n]), turns[n])
  {
    hide After, First, Whole;
    assert turns[..n + 1][..n] == turns[..n];
  }

  /** The main loop. It ends at the first turn whose message is longer than 4080 bytes or finds no room at the kernel,
      and goes on while there is none. Up to then every message is queued whole in its turn, unless copying it failed,
      and no frame ever waits; the turn at which it ends gets no byte of its message out. */
  method Run(p: Packetizer, d: TxQueue.Driver, turns: seq<Turn>) returns (died: bool, n: nat)
    requires p.ipcPktsBuffer == [] && p.busPktsBuffer == []
    requires forall t | t in turns :: forall e | e in t.events :: !e.Write?
    modifies p, d
    ensures died <==> exists i | 0 <= i < |turns| :: !Goes(AfterAll(old(d.View()), turns[..i]), turns[i])
    ensures n <= |turns| && (died <==> n < |turns|)
    ensures forall i | 0 <= i < n :: Goes(AfterAll(old(d.View()), turns[..i]), turns[i])
    ensures d.log.accepted == old(d.log.accepted) + AllWritten(turns[..n])
    ensures d.View() == AfterAll(old(d.View()), if died then turns[..n + 1] else turns)
    ensures !died ==> p.busPktsBuffer == []
    ensures died ==> p.busPktsBuffer == Frames(turns[n].message)[1..]
  {
    hide Frames, After, Goes, AllWritten, AfterAll;
    n := 0;
    StartOfTurns(d.View(), turns);
    while n < |turns|
      invariant n <= |turns| && p.ipcPktsBuffer == [] && p.busPktsBuffer == []
      invariant d.View() == AfterAll(old(d.View()), turns[..n])
      invariant forall i | 0 <= i < n :: Goes(AfterAll(old(d.View()), turns[..i]), turns[i])
      invariant d.log.accepted == old(d.log.accepted) + AllWritten(turns[..n])
    {
      var t := turns[n];
      assert t in turns;
      var ok := TakeTurn(p, d, t);
      OneTurnMore(old(d.View()), turns, n);
      if !ok {
        return true, n;
      }
      NothingWaits(AfterAll(old(d.View()), turns[..n]), t);
      n := n + 1;
    }
    assert turns[..n] == turns;
    died := false;
  }

  lemma StartOfTurns(s: TxQueue.State, turns: seq<Turn>)
    ensures AllWritten(turns[..0]) == [] && AfterAll(s, turns[..0]) == s
  {}

  lemma NothingWaits(s: TxQueue.State, t: Turn)
    requires Goes(s, t)
    ensures Frames(t.message)[1..] == []
  {
    FirstFrame(t.message);
    hide Frames, HasRoom;
  }

  // ---- what comes out of the driver ----

  const ZEROS: seq<byte> := [0, 0, 0, 0]

  /** The bytes of packets handed to the controller, one after the other. */
  function Wire(packets: seq<TxQueue.Packet>): seq<byte> {
    if packets == [] then [] else packets[0].data + Wire(packets[1..])
  }

  /** Messages that are one frame each, as the driver holds them. */
  function Packed(messages: seq<IpcPacket>): (packed: seq<TxQueue.Packet>)
    ensures |packed| == |messages|
  {
    if messages == [] then [] else [TxQueue.Padded(Whole(messages[0]))] + Packed(messages[1..])
  }

  predicate AllShort(messages: seq<IpcPacket>) { forall m | m in messages :: |m.payload| <= LONGEST }

  predicate Zeros(s: seq<byte>) { forall i | 0 <= i < |s| :: s[i] == 0 }

  /** What is on the wire around the packets of messages: zeros. */
  lemma {:induction false} WireIsStream(lead: seq<byte>, messages: seq<IpcPacket>)
    returns (garbage: seq<seq<byte>>, tail: seq<byte>)
    requires AllShort(messages) && Zeros(lead)
    ensures |garbage| == |AllPackets(messages)| && Zeros(tail) && forall g | g in garbage :: Zeros(g)
    ensures lead + Wire(Packed(messages)) == Stream(garbage, AllPackets(messages)) + tail
    decreases messages
  {
    if messages == [] {
      garbage, tail := [], lead;
    } else {
      hide Packet, AllPackets;
      var m, rest := messages[0], messages[1..];
      var packet := Packet(m.apid, STANDALONE, 0, m.payload);
      var more;
      more, tail := WireIsStream(ZEROS, rest);
      garbage := [lead + ZEROS] + more;
      OnePacket(messages);
      JoinWire(lead, packet, Wire(Packed(rest)), messages, rest);
      StreamFront(garbage, AllPackets(messages), lead + ZEROS, packet, more, AllPackets(rest));
      hide Wire, Packed, Stream;
      JoinStream(lead + ZEROS + SYNC + packet, ZEROS + Wire(Packed(rest)), Stream(more, AllPackets(rest)), tail);
    }
  }

  lemma OnePacket(messages: seq<IpcPacket>)
    requires messages != [] && AllShort(messages)
    ensures var m := messages[0];
            AllPackets(messages) == [Packet(m.apid, STANDALONE, 0, m.payload)] + AllPackets(messages[1..])
    ensures AllShort(messages[1..])
  {
    assert messages[0] in messages;
    hide Packet;
  }

  lemma JoinWire(lead: seq<byte>, packet: seq<byte>, after: seq<byte>, messages: seq<IpcPacket>, rest: seq<IpcPacket>)
    requires messages != [] && rest == messages[1..] && after == Wire(Packed(rest))
    requires packet == Packet(messages[0].apid, STANDALONE, 0, messages[0].payload)
    ensures lead + Wire(Packed(messages)) == lead + ZEROS + SYNC + packet + (ZEROS + after)
  {
    hide Packet;
    var padded := TxQueue.Padded(Whole(messages[0]));
    assert Wire(Packed(messages)) == padded.data + after by { WireFront(Packed(messages), padded, Packed(rest)); }
    assert padded.data == ZEROS + (SYNC + packet) + ZEROS;
  }

  lemma WireFront(packets: seq<TxQueue.Packet>, first: TxQueue.Packet, rest: seq<TxQueue.Packet>)
    requires packets == [first] + rest
    ensures Wire(packets) == first.data + Wire(rest)
  {
    assert packets[1..] == rest;
  }

  lemma StreamFront(garbage: seq<seq<byte>>, packets: seq<seq<byte>>, g: seq<byte>, p: seq<byte>, more: seq<seq<byte>>,
                    rest: seq<seq<byte>>)
    requires |more| == |rest| && garbage == [g] + more && packets == [p] + rest
    ensures Stream(garbage, packets) == g + SYNC + p + Stream(more, rest)
  {
    assert garbage[1..] == more && packets[1..] == rest;
  }

  lemma JoinStream(front: seq<byte>, after: seq<byte>, stream: seq<byte>, tail: seq<byte>)
    requires after == stream + tail
    ensures front + after == front + stream + tail
  {}

  /** The theorem of the wire: whatever messages the controller was given, a depacketizer on the other side accepts
      exactly their packets, and they rebuild the messages, if and only if no carry is lost. */
  lemma WireReadBack(messages: seq<IpcPacket>)
    requires AllShort(messages)
    ensures ReadBack(messages, Wire(Packed(messages)))
  {
    hide AllPackets, Reassemble, Masked, Accepted, NoLostCarry;
    var lead: seq<byte> := [];
    var garbage, tail := WireIsStream(lead, messages);
    assert lead + Wire(Packed(messages)) == Wire(Packed(messages));
    hide Wire, Packed, Stream, NoMarker;
    forall g | g in garbage ensures NoMarker(g) {
      NoMarkerInZeros(g);
    }
    NoMarkerInZeros(tail);
    EndToEnd(messages, garbage, tail);
  }

  /** A stream from which the messages can be read back, as far as the length field can carry them. */
  predicate ReadBack(messages: seq<IpcPacket>, stream: seq<byte>) {
    var received := Accepted(stream);
    && (received == AllPackets(messages) <==> NoLostCarry(messages))
    && (NoLostCarry(messages) ==> Reassemble(received, None, 0) == Some(Masked(messages)))
  }

  // ---- from the packetizer to the other side ----

  /** The messages of turns whose copy did not fail. */
  function Copied(turns: seq<Turn>): seq<IpcPacket> {
    if turns == [] then []
    else
      var t := turns[|turns| - 1];
      Copied(turns[..|turns| - 1]) + if t.copied then [t.message] else []
  }

  lemma {:induction false} WrittenIsPacked(turns: seq<Turn>)
    ensures AllWritten(turns) == Packed(Copied(turns))
  {
    hide Whole, TxQueue.Padded;
    if turns != [] {
      var n := |turns| - 1;
      WrittenIsPacked(turns[..n]);
      PackedConcat(Copied(turns[..n]), if turns[n].copied then [turns[n].message] else []);
    }
  }

  lemma {:induction false} PackedConcat(a: seq<IpcPacket>, b: seq<IpcPacket>)
    ensures Packed(a + b) == Packed(a) + Packed(b)
  {
    hide Whole, TxQueue.Padded;
    if a == [] {
      assert a + b == b;
    } else {
      assert (a + b)[1..] == a[1..] + b;
      PackedConcat(a[1..], b);
    }
  }

  lemma {:induction false} CopiedAreShort(s: TxQueue.State, turns: seq<Turn>)
    requires forall i | 0 <= i < |turns| :: Goes(AfterAll(s, turns[..i]), turns[i])
    ensures AllShort(Copied(turns))
  {
    hide AfterAll, HasRoom;
    if turns != [] {
      var before := turns[..|turns| - 1];
      assert forall i | 0 <= i < |before| :: before[..i] == turns[..i] && before[i] == turns[i];
      CopiedAreShort(s, before);
    }
  }

  lemma {:induction false} EventsKeep(s: TxQueue.State, events: seq<TxQueueRuns.Event>)
    requires TxQueueRuns.Invariant(s)
    ensures TxQueueRuns.Invariant(TxQueueRuns.Run(s, events))
  {
    hide TxQueueRuns.Step, TxQueueRuns.Invariant;
    if events != [] {
      EventsKeep(s, events[..|events| - 1]);
      TxQueueRuns.StepKeeps(TxQueueRuns.Run(s, events[..|events| - 1]), events[|events| - 1]);
    }
  }

  lemma {:induction false} TurnsKeep(s: TxQueue.State, turns: seq<Turn>)
    requires TxQueueRuns.Invariant(s)
    ensures TxQueueRuns.Invariant(AfterAll(s, turns))
  {
    hide TxQueueRuns.Invariant, TxQueue.WriteStep, TxQueueRuns.Run, First;
    if turns != [] {
      var t, before := turns[|turns| - 1], turns[..|turns| - 1];
      TurnsKeep(s, before);
      EventsKeep(AfterAll(s, before), t.events);
      TxQueueRuns.WriteKeeps(TxQueueRuns.Run(AfterAll(s, before), t.events), First(t.message), t.hasMemory, t.copied);
    }
  }

  /** The theorem of the downlink, from messages to the wire: over any run of the packetizer's loop and anything the
      driver does in between and afterwards, what the controller has been given is read back as the first of the
      messages that were queued; as all of them, once the queue is empty and no packet is in hand. */
  method Downlink(p: Packetizer, buffer: TxQueue.Buffer, turns: seq<Turn>, more: seq<TxQueueRuns.Event>)
    returns (d: TxQueue.Driver, n: nat, k: nat)
    requires p.ipcPktsBuffer == [] && p.busPktsBuffer == [] && forall e | e in more :: !e.Write?
    requires forall t | t in turns :: forall e | e in t.events :: !e.Write?
    modifies p
    ensures n <= |turns| && k <= |Copied(turns[..n])|
    ensures ReadBack(Copied(turns[..n])[..k], Wire(d.log.clocked))
    ensures d.queue == [] && TxQueueRuns.InHand(d.View()) == [] ==> k == |Copied(turns[..n])|
  {
    hide AfterAll, Goes, AllWritten, Copied, ReadBack, Wire, TxQueueRuns.Invariant, TxQueueRuns.InHand, TxQueueRuns.Run;
    d := new TxQueue.Driver(buffer);
    ghost var s := d.View();
    TxQueueRuns.IdleIsSound(s);
    var died;
    died, n := Run(p, d, turns);
    TurnsKeep(s, if died then turns[..n + 1] else turns);
    EventsKeep(d.View(), more);
    RunDriver(d, more);
    WrittenIsPacked(turns[..n]);
    assert forall i | 0 <= i < n :: turns[..n][..i] == turns[..i];
    CopiedAreShort(s, turns[..n]);
    ClockedReadBack(d.View(), Copied(turns[..n]));
    k := |d.log.clocked|;
  }

  lemma ClockedReadBack(s: TxQueue.State, messages: seq<IpcPacket>)
    requires TxQueueRuns.Invariant(s) && s.log.accepted == Packed(messages) && AllShort(messages)
    ensures var k := |s.log.clocked|;
            && k <= |messages| && ReadBack(messages[..k], Wire(s.log.clocked))
            && (s.queue == [] && TxQueueRuns.InHand(s) == [] ==> k == |messages|)
  {
    hide ReadBack, Wire, Packed;
    var k := |s.log.clocked|;
    assert s.log.accepted[..k] == s.log.clocked;
    assert messages == messages[..k] + messages[k..];
    PackedConcat(messages[..k], messages[k..]);
    WireReadBack(messages[..k]);
  }

  /** A message that fills its frame, to a driver with all the memory: the process dies, and no byte of the message gets
      out. */
  method LongMessageDies(p: Packetizer, d: TxQueue.Driver, payload: seq<byte>) returns (died: bool)
    requires p.ipcPktsBuffer == [] && p.busPktsBuffer == [] && |payload| == BUS_DATA_LEN
    modifies p, d
    ensures died && d.log.accepted == old(d.log.accepted)
  {
    hide AfterAll, HasRoom;
    var n;
    var turns := [Turn([], IpcPacket(0x300, payload), true, true)];
    assert turns[..0] == [];
    assert !Goes(AfterAll(d.View(), turns[..0]), turns[0]);
    died, n := Run(p, d, turns);
  }
}
