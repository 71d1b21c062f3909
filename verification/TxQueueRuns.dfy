/** What every interleaving of writes, interrupts and completions keeps in the kernel driver. */
module TxQueueRuns {
  import opened Basics
  import opened SyncHunt
  import opened TxQueue

  datatype Event =
    | Write(buf: seq<byte>, hasMemory: bool, copied: bool)
    | Interrupt(ok: bool)
    | Complete(bytes: seq<byte>, room: bool, done: bool)

  /** A completion needs a transfer, and brings as many bytes as were asked for. */
  predicate Possible(s: State, e: Event) {
    match e
    case Write(buf, _, _) => |buf| < 65528
    case Interrupt(_) => true
    case Complete(bytes, _, _) => s.outstanding.Some? && |bytes| == s.outstanding.value.len && Parsable(s.rx, bytes)
  }

  function Step(s: State, e: Event): State {
    if !Possible(s, e) then s
    else
      match e
      case Write(buf, hasMemory, copied) => WriteStep(s, buf, hasMemory, copied)
      case Interrupt(ok) => InterruptStep(s, ok)
      case Complete(bytes, room, done) => CompleteStep(s, bytes, room, done)
  }

  /** The driver's methods, as steps. */
  method Apply(d: Driver, e: Event)
    modifies d
    ensures d.View() == Step(old(d.View()), e)
  {
    hide WriteStep, InterruptStep, CompleteStep, Parsable;
    if Possible(d.View(), e) {
      match e {
        case Write(buf, hasMemory, copied) => var _ := d.PacketWrite(buf, hasMemory, copied);
        case Interrupt(ok) => d.InterruptHandler(ok);
        case Complete(bytes, room, done) => d.SpiXferComplete(bytes, room, done);
      }
    }
  }

  function Run(s: State, events: seq<Event>): State {
    if events == [] then s else Step(Run(s, events[..|events| - 1]), events[|events| - 1])
  }

  /** A driver that has done nothing yet. */
  predicate Idle(s: State) {
    && s.queue == [] && s.queueLen == 0 && s.rx.readLen == 0 && !s.busy
    && s.tx == None && s.outstanding == None && s.log == NO_LOG
  }

  // ---- the invariant ----

  predicate Sound(p: Packet) { p.len == |p.data| && 2 * PACKET_LATENCY <= p.len <= PACKET_TM_MAX_LEN }

  /** What the current transfer is for: the first look, the rest of a header, or the rest of a payload. */
  predicate Stage(rx: Rx, tx: Option<Packet>, len: nat, transfers: nat) {
    || (transfers == 1 && rx == Fresh(rx.buffer).(readLen := len) && len > 0)
    || (tx == None && rx.sync == PACKET_SYNC_MARKER && rx.header >= PACKET_SYNC_LEN &&
        ((transfers == 2 && rx.payloadLen == 0 && rx.readLen == PACKET_HEADER_LEN) ||
         ((transfers == 2 || transfers == 3) && rx.readLen == rx.payloadLen && PayloadOk(rx.payloadLen))))
  }

  predicate Accounted(s: State) {
    s.queueLen == Memory(s.queue) + InFlight(s.tx) && 0 <= s.queueLen <= MAX_TX_QUEUE_LEN
  }

  /** A packet taken from the queue whose transfer was refused. */
  function InHand(s: State): seq<Packet> { if s.tx.Some? && s.outstanding == None then [s.tx.value] else [] }

  predicate InOrder(s: State) {
    && s.log.accepted == s.log.clocked + InHand(s) + s.queue
    && (s.tx.Some? && s.outstanding.Some? ==>
          s.log.clocked != [] && s.log.clocked[|s.log.clocked| - 1] == s.tx.value)
    && forall i | 0 <= i < |s.log.accepted| :: Sound(s.log.accepted[i])
  }

  predicate OneExchange(s: State) {
    && (!s.busy ==> s.tx == None && s.outstanding == None)
    && (s.outstanding.Some? ==>
          s.busy && s.outstanding.value.tx == s.tx && Stage(s.rx, s.tx, s.outstanding.value.len, s.log.transfers))
    && s.log.transfers <= 3 && s.rx.readLen <= PACKET_TM_MAX_LEN
  }

  predicate Invariant(s: State) { Accounted(s) && InOrder(s) && OneExchange(s) }

  lemma MemorySnoc(queue: seq<Packet>, p: Packet)
    ensures Memory(queue + [p]) == Memory(queue) + SizeOf(p)
  {
    assert (queue + [p])[..|queue|] == queue;
  }

  lemma WriteKeeps(s: State, buf: seq<byte>, hasMemory: bool, copied: bool)
    requires Invariant(s)
    ensures Invariant(WriteStep(s, buf, hasMemory, copied))
  {
    hide Memory, Stage;
    var p := Padded(buf);
    MemorySnoc(s.queue, p);
    assert s.log.accepted + [p] == s.log.clocked + InHand(s) + (s.queue + [p]);
    assert |p.data| == p.len;
  }

  lemma InterruptKeeps(s: State, ok: bool)
    requires Invariant(s)
    ensures Invariant(InterruptStep(s, ok))
  {
    hide Memory;
    if !s.busy && s.queue != [] {
      var p := s.queue[0];
      MemoryFront(s.queue);
      assert s.log.clocked + [] + s.queue == s.log.clocked + [p] + s.queue[1..];
      assert s.log.clocked + [p] + s.queue[1..] == (s.log.clocked + [p]) + [] + s.queue[1..];
      assert s.log.accepted[|s.log.clocked|] == p;
    }
  }

  lemma HeaderStage(rx: Rx)
    requires rx.readLen >= PACKET_HEADER_LEN && rx.payloadLen == 0
    ensures var parsed := ParseHeader(rx);
            && parsed.rx.readLen <= rx.readLen && parsed.rx.sync == rx.sync && parsed.rx.header == rx.header
            && (parsed.More? ==>
                  parsed.rx.readLen + parsed.len == parsed.rx.payloadLen && PayloadOk(parsed.rx.payloadLen))
  {
    hide HeaderPayload, HeaderApid, Slice;
  }

  /** A completion ends the exchange or asks for the next stage. */
  lemma CompleteKeeps(s: State, bytes: seq<byte>, room: bool, ok: bool)
    requires Invariant(s) && s.outstanding.Some? && Parsable(s.rx, bytes)
    ensures var next := CompleteStep(s, bytes, room, ok);
            && Invariant(next)
            && (next.busy ==> next.log.transfers == s.log.transfers + 1 <= 3 && (ok ==> next.outstanding.Some?))
            && (next.busy && next.outstanding.Some? ==> next.log.transfers == 3 ==> next.rx.payloadLen > 0)
  {
    hide Memory, Hunt, Window, ParseHeader, Put, Slice;
    var now := s.rx.(buffer := Put(s.rx.buffer, s.rx.readPtr, bytes));
    if s.rx.sync != PACKET_SYNC_MARKER {
      var e := Hunt(bytes, 0);
      if e <= |bytes| && |bytes| - e >= PACKET_HEADER_LEN {
        HeaderStage(now.(sync := PACKET_SYNC_MARKER, readLen := |bytes| - e, readPtr := e, header := e));
      }
    } else if s.rx.payloadLen == 0 {
      HeaderStage(now);
    }
  }

  lemma StepKeeps(s: State, e: Event)
    requires Invariant(s)
    ensures Invariant(Step(s, e))
  {
    hide Invariant, WriteStep, InterruptStep, CompleteStep;
    if Possible(s, e) {
      match e
      case Write(buf, hasMemory, copied) => WriteKeeps(s, buf, hasMemory, copied);
      case Interrupt(ok) => InterruptKeeps(s, ok);
      case Complete(bytes, room, done) => CompleteKeeps(s, bytes, room, done);
    }
  }

  lemma IdleIsSound(s: State)
    requires Idle(s)
    ensures Invariant(s)
  {}

  /** The theorem: on every interleaving, the memory count is that of the queued and sent packets and stays in
      its limits; every accepted packet is either still queued or was handed over, in order and once; no more
      than one transfer is outstanding, and an exchange never has more than three. */
  lemma {:induction false} RunsKeep(s: State, events: seq<Event>)
    requires Idle(s)
    ensures Invariant(Run(s, events))
    decreases |events|
  {
    hide Step, Invariant;
    if events == [] {
      IdleIsSound(s);
    } else {
      RunsKeep(s, events[..|events| - 1]);
      StepKeeps(Run(s, events[..|events| - 1]), events[|events| - 1]);
    }
  }

  // ---- an exchange ends ----

  /** Up to three completions, none of them refused a transfer. */
  function CompleteAll(s: State, cs: seq<Event>): State
    requires forall c | c in cs :: c.Complete?
    decreases |cs|
  {
    if cs == [] then s else CompleteAll(Step(s, cs[0]), cs[1..])
  }

  /** The completions that happen: each brings what the transfer before it asked for. */
  predicate Happens(s: State, cs: seq<Event>)
    requires forall c | c in cs :: c.Complete?
    decreases |cs|
  {
    cs == [] || !s.busy || (cs[0] in cs && cs[0].done && Possible(s, cs[0]) && Happens(Step(s, cs[0]), cs[1..]))
  }

  /** As many completions as an exchange may still need end it, when no transfer is refused. */
  lemma {:induction false} ExchangeEnds(s: State, cs: seq<Event>)
    requires (forall c | c in cs :: c.Complete?) && Happens(s, cs) && Invariant(s)
    requires s.busy ==> s.outstanding.Some? && |cs| + s.log.transfers > 3
    ensures !CompleteAll(s, cs).busy
    decreases |cs|
  {
    hide CompleteStep;
    if s.busy {
      if cs != [] {
        StepKeeps(s, cs[0]);
        CompleteKeeps(s, cs[0].bytes, cs[0].room, cs[0].done);
        hide Invariant;
        ExchangeEnds(Step(s, cs[0]), cs[1..]);
      }
    } else {
      Idles(s, cs);
    }
  }

  lemma {:induction false} Idles(s: State, cs: seq<Event>)
    requires (forall c | c in cs :: c.Complete?) && Invariant(s) && !s.busy
    ensures CompleteAll(s, cs) == s
    decreases |cs|
  {
    if cs != [] {
      assert cs[0] in cs && cs[0].Complete?;
      Idles(s, cs[1..]);
    }
  }

  // ---- a refused transfer ----

  /** Busy with no transfer: what a refused transfer leaves behind. */
  predicate Stuck(s: State) { s.busy && s.outstanding == None }

  /** Nothing gets the driver out of it: no packet is ever handed over again. */
  lemma {:induction false} StuckForever(s: State, events: seq<Event>)
    requires Stuck(s)
    ensures Stuck(Run(s, events)) && Run(s, events).log.clocked == s.log.clocked
    ensures |Run(s, events).queue| >= |s.queue|
    decreases |events|
  {
    if events != [] {
      StuckForever(s, events[..|events| - 1]);
    }
  }

  /** The first transfer of all is refused. */
  lemma StuckAtOnce(s: State, events: seq<Event>)
    requires Idle(s)
    ensures Stuck(Step(s, Interrupt(false))) && Run(Step(s, Interrupt(false)), events).log.clocked == []
  {
    StuckForever(Step(s, Interrupt(false)), events);
  }

  /** A step gets stuck exactly when it needs a transfer that the controller refuses. */
  lemma StuckIff(s: State, e: Event)
    requires Invariant(s) && !Stuck(s) && Possible(s, e)
    ensures Stuck(Step(s, e)) <==>
              match e
              case Write(_, _, _) => false
              case Interrupt(ok) => !s.busy && !ok
              case Complete(bytes, room, done) => Parse(s.rx, bytes).More? && !done
  {
    hide Memory, Hunt, Window, ParseHeader, Stage;
  }
}
