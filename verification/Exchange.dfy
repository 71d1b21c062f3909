/** What an exchange of the kernel driver reads, and what it hands on: bus/driver/driver.c, over all ways that the bytes
    may be cut into transfers. */
module Exchange {
  import opened Basics
  import opened SyncHunt
  import opened TxQueue
  import opened TxQueueRuns

  // ---- what should be read ----

  /** A packet of a possible length starts in the bytes, its header there. */
  predicate HeaderIn(got: seq<byte>) {
    var e := Hunt(got, 0);
    e <= |got| && |got| - e >= PACKET_HEADER_LEN && PayloadOk(HeaderPayload(got[e..]))
  }

  /** The packet with its marker, as it stands in the bytes. */
  function PacketIn(got: seq<byte>): seq<byte>
    requires HeaderIn(got) && Hunt(got, 0) + PACKET_HEADER_LEN + HeaderPayload(got[Hunt(got, 0)..]) <= |got|
  {
    var e := Hunt(got, 0);
    got[e - PACKET_SYNC_LEN..e + PACKET_HEADER_LEN + HeaderPayload(got[e..])]
  }

  /** How far the payload is displaced: by the bytes that the first transfer brought behind the marker, when they were
      part of the header only. */
  function Displaced(e: nat, first: nat): nat { if e <= first < e + PACKET_HEADER_LEN then first - e else 0 }

  /** A payload behind old bytes, cut to its length. */
  function Shifted(front: seq<byte>, payload: seq<byte>): (s: seq<byte>)
    ensures |s| == |payload|
  {
    (front + payload)[..|payload|]
  }

  lemma NotShifted(payload: seq<byte>)
    ensures Shifted([], payload) == payload
  {
    assert [] + payload == payload;
  }

  /** The packet behind a marker that ends at e, with n bytes of payload that are displaced by d: the payload has old
      bytes in front, and is cut behind. */
  function PacketAt(got: seq<byte>, e: nat, n: nat, d: nat, before: Buffer): seq<byte>
    requires PACKET_SYNC_LEN <= e && e + PACKET_HEADER_LEN + n <= |got|
  {
    var body := e + PACKET_HEADER_LEN;
    got[e - PACKET_SYNC_LEN..body] + Shifted(Slice(before, body, d), got[body..body + n])
  }

  /** The packet as it stands in the receive buffer. */
  function PacketFound(got: seq<byte>, first: nat, before: Buffer): seq<byte>
    requires HeaderIn(got) && Hunt(got, 0) + PACKET_HEADER_LEN + HeaderPayload(got[Hunt(got, 0)..]) <= |got|
  {
    var e := Hunt(got, 0);
    PacketAt(got, e, HeaderPayload(got[e..]), Displaced(e, first), before)
  }

  // ---- a running exchange ----

  /** The buffer holds the bytes so far, and behind them what it held before. */
  ghost predicate Holds(buffer: Buffer, got: seq<byte>, before: Buffer) {
    && (forall k | 0 <= k < |got| :: At(buffer, k) == got[k])
    && forall k: nat | k >= |got| :: At(buffer, k) == At(before, k)
  }

  /** Where the parser is in a running exchange that has brought these bytes. */
  ghost predicate Reading(s: State, got: seq<byte>, first: nat, before: Buffer) {
    s.busy && s.outstanding.Some? && s.log.transfers > 0 &&
    var rx, e, len := s.rx, Hunt(got, 0), s.outstanding.value.len;
    if s.log.transfers == 1 then got == [] && len == first && rx == Fresh(before).(readLen := len)
    else
      && rx.sync == PACKET_SYNC_MARKER && e <= first <= |got| && rx.header == e && Holds(rx.buffer, got, before)
      && if rx.payloadLen == 0 then
           && |got| == first && rx.readPtr == first
           && first - e + len == PACKET_HEADER_LEN == rx.readLen && len > 0
         else
           && HeaderIn(got) && rx.payloadLen == HeaderPayload(got[e..]) && rx.apid == HeaderApid(got[e..])
           && |got| + len == e + PACKET_HEADER_LEN + rx.payloadLen
           && rx.readPtr == |got| + Displaced(e, first) && rx.readLen == rx.payloadLen
           && (Displaced(e, first) > 0 ==> |got| == e + PACKET_HEADER_LEN)
  }

  /** A packet was received exactly when the bytes hold a header of a possible length; it is the one behind the first
      marker, all of it has come, and the buffer holds it as it was found. */
  predicate Outcome(rx: Rx, got: seq<byte>, first: nat, before: Buffer) {
    var e := Hunt(got, 0);
    && (rx.payloadLen > 0 <==> HeaderIn(got))
    && (rx.payloadLen > 0 ==>
          && rx.payloadLen == HeaderPayload(got[e..]) && rx.apid == HeaderApid(got[e..])
          && rx.header == e && e + PACKET_HEADER_LEN + rx.payloadLen <= |got|
          && Handed(rx) == PacketFound(got, first, before))
  }

  lemma MarkerRoom(got: seq<byte>)
    ensures Hunt(got, 0) <= |got| ==> Hunt(got, 0) >= PACKET_SYNC_LEN
  {}

  lemma HoldsMore(buffer: Buffer, got: seq<byte>, before: Buffer, bytes: seq<byte>)
    requires Holds(buffer, got, before)
    ensures Holds(Put(buffer, |got|, bytes), got + bytes, before)
  {
    PutThere(buffer, |got|, bytes);
    hide At, Put;
  }

  lemma {:induction false} SliceIs(buffer: Buffer, from: nat, s: seq<byte>)
    requires forall i | 0 <= i < |s| :: At(buffer, from + i) == s[i]
    ensures Slice(buffer, from, |s|) == s
  {
    hide At;
  }

  lemma SliceSplits(buffer: Buffer, from: nat, m: nat, n: nat)
    ensures Slice(buffer, from, m + n) == Slice(buffer, from, m) + Slice(buffer, from + m, n)
  {
    hide At;
  }

  /** What the parser makes of a header that is in the buffer. */
  lemma ParsesHeader(rx: Rx, got: seq<byte>, before: Buffer)
    requires Holds(rx.buffer, got, before) && rx.header + PACKET_HEADER_LEN <= |got|
    requires rx.readLen >= PACKET_HEADER_LEN
    ensures var n, apid := HeaderPayload(got[rx.header..]), HeaderApid(got[rx.header..]);
            var rest := rx.readLen - PACKET_HEADER_LEN;
            var there := rx.(payloadLen := n, apid := apid, readPtr := rx.readPtr + rx.readLen);
            ParseHeader(rx) ==
              if !PayloadOk(n) then Done(rx.(apid := apid, payloadLen := 0))
              else if rest < n then More(there.(readLen := rest), n - rest)
              else Done(there.(readLen := 0))
  {
    var e := rx.header;
    assert Slice(rx.buffer, e, PACKET_HEADER_LEN) == got[e..e + PACKET_HEADER_LEN] by {
      SliceIs(rx.buffer, e, got[e..e + PACKET_HEADER_LEN]);
    }
    assert got[e..] == got[e..e + PACKET_HEADER_LEN] + got[e + PACKET_HEADER_LEN..];
    HeaderOnly(got[e..e + PACKET_HEADER_LEN], got[e + PACKET_HEADER_LEN..]);
    hide HeaderPayload, HeaderApid, Slice, Holds;
  }

  lemma HeaderOnly(a: seq<byte>, b: seq<byte>)
    requires |a| >= PACKET_HEADER_LEN
    ensures HeaderPayload(a + b) == HeaderPayload(a) && HeaderApid(a + b) == HeaderApid(a)
  {}

  lemma HeaderStays(got: seq<byte>, bytes: seq<byte>)
    requires HeaderIn(got)
    ensures var e := Hunt(got, 0);
            && Hunt(got + bytes, 0) == e && HeaderIn(got + bytes)
            && HeaderPayload((got + bytes)[e..]) == HeaderPayload(got[e..])
            && HeaderApid((got + bytes)[e..]) == HeaderApid(got[e..])
  {
    var e := Hunt(got, 0);
    HuntExtends(got, bytes);
    hide Hunt, HeaderPayload, HeaderApid;
    assert (got + bytes)[e..] == got[e..] + bytes;
    HeaderOnly(got[e..], bytes);
  }

  lemma SliceOfTwo(buffer: Buffer, from: nat, a: seq<byte>, b: seq<byte>)
    requires forall i | 0 <= i < |a| :: At(buffer, from + i) == a[i]
    requires forall i | 0 <= i < |b| :: At(buffer, from + |a| + i) == b[i]
    ensures Slice(buffer, from, |a| + |b|) == a + b
  {
    SliceIs(buffer, from, a);
    SliceIs(buffer, from + |a|, b);
    SliceSplits(buffer, from, |a|, |b|);
  }

  /** A packet that is all in the bytes of a buffer in order. */
  lemma PacketInOrder(buffer: Buffer, got: seq<byte>, before: Buffer, e: nat, n: nat)
    requires Holds(buffer, got, before) && PACKET_SYNC_LEN <= e && e + PACKET_HEADER_LEN + n <= |got|
    ensures Slice(buffer, e - PACKET_SYNC_LEN, PACKET_OVERHEAD + n) == PacketAt(got, e, n, 0, before)
  {
    var body := e + PACKET_HEADER_LEN;
    SliceOfTwo(buffer, e - PACKET_SYNC_LEN, got[e - PACKET_SYNC_LEN..body], got[body..body + n]);
    NotShifted(got[body..body + n]);
    assert Slice(before, body, 0) == [];
    hide At, Holds, Slice, Shifted;
  }

  /** A packet whose payload came last, and was written d further than it belongs. */
  lemma PacketDisplaced(buffer: Buffer, got: seq<byte>, before: Buffer, e: nat, d: nat, bytes: seq<byte>)
    requires Holds(buffer, got, before) && PACKET_SYNC_LEN <= e && e + PACKET_HEADER_LEN == |got|
    ensures var after := Put(buffer, |got| + d, bytes);
            Slice(after, e - PACKET_SYNC_LEN, PACKET_OVERHEAD + |bytes|) ==
            PacketAt(got + bytes, e, |bytes|, d, before)
  {
    var from, after := e - PACKET_SYNC_LEN, Put(buffer, |got| + d, bytes);
    DisplacedBuffer(buffer, got, before, bytes, d);
    hide Holds, Put, Slice, Shifted, At;
    SliceOfTwo(after, from, got[from..], Shifted(Slice(before, |got|, d), bytes));
    PartsOf(got, bytes, from);
  }

  lemma PartsOf(got: seq<byte>, bytes: seq<byte>, from: nat)
    requires from <= |got|
    ensures var all := got + bytes;
            all[from..|got|] == got[from..] && all[|got|..|got| + |bytes|] == bytes
  {}

  /** Bytes written d further than they belong. */
  lemma DisplacedBuffer(buffer: Buffer, got: seq<byte>, before: Buffer, bytes: seq<byte>, d: nat)
    requires Holds(buffer, got, before)
    ensures var after, found := Put(buffer, |got| + d, bytes), Shifted(Slice(before, |got|, d), bytes);
            && (forall k | 0 <= k < |got| :: At(after, k) == got[k])
            && forall i | 0 <= i < |bytes| :: At(after, |got| + i) == found[i]
  {
    PutThere(buffer, |got| + d, bytes);
    hide At, Put;
  }

  // ---- one completion ----

  /** What goes into the fifo. */
  function Kept(got: seq<byte>, first: nat, before: Buffer, room: bool): seq<seq<byte>> {
    var e := Hunt(got, 0);
    if HeaderIn(got) && e + PACKET_HEADER_LEN + HeaderPayload(got[e..]) <= |got| && HeaderApid(got[e..]) != NOOP_APID
       && room then [PacketFound(got, first, before)]
    else []
  }

  /** What a completion leaves: the exchange reads on, or it is over and the packet is kept if it can be. */
  ghost predicate Reads(s: State, next: State, all: seq<byte>, first: nat, before: Buffer, room: bool) {
    if next.busy then Reading(next, all, first, before) && next.log.received == s.log.received
    else
      && Outcome(next.rx, all, first, before)
      && next.log.received == s.log.received + Kept(all, first, before, room)
  }

  /** An exchange that ends with a packet. */
  lemma EndsWithPacket(s: State, rx: Rx, all: seq<byte>, first: nat, before: Buffer, room: bool)
    requires HeaderIn(all) && rx.header == Hunt(all, 0) >= PACKET_SYNC_LEN
    requires rx.payloadLen == HeaderPayload(all[rx.header..]) && rx.apid == HeaderApid(all[rx.header..])
    requires rx.header + PACKET_HEADER_LEN + rx.payloadLen <= |all|
    requires Slice(rx.buffer, rx.header - PACKET_SYNC_LEN, PACKET_OVERHEAD + rx.payloadLen) ==
             PacketAt(all, rx.header, rx.payloadLen, Displaced(rx.header, first), before)
    ensures Reads(s, Finished(Freed(s).(rx := rx), room), all, first, before, room)
  {
    hide Hunt, HeaderPayload, HeaderApid, Slice, PacketAt, Displaced;
  }

  /** An exchange that ends without one. */
  lemma EndsWithout(s: State, rx: Rx, all: seq<byte>, first: nat, before: Buffer, room: bool)
    requires !HeaderIn(all) && rx.payloadLen == 0
    ensures Reads(s, Finished(Freed(s).(rx := rx), room), all, first, before, room)
  {
    hide HeaderIn, PacketAt;
  }

  /** The first transfer. */
  lemma ReadsFirst(s: State, bytes: seq<byte>, room: bool, before: Buffer)
    requires Reading(s, [], |bytes|, before) && s.log.transfers == 1 && Parsable(s.rx, bytes)
    ensures Reads(s, CompleteStep(s, bytes, room, true), bytes, |bytes|, before, room)
  {
    var buffer, e := Put(before, 0, bytes), Hunt(bytes, 0);
    HoldsNothing(before);
    HoldsMore(before, [], before, bytes);
    assert [] + bytes == bytes;
    MarkerRoom(bytes);
    hide Window, Holds, At, Put, Slice, PacketAt;
    if e > |bytes| {
      EndsWithout(s, Parse(s.rx, bytes).rx, bytes, |bytes|, before, room);
    } else if |bytes| - e >= PACKET_HEADER_LEN {
      var found := Rx(PACKET_SYNC_MARKER, |bytes| - e, 0, 0, e, e, buffer);
      ReadsWholeHeader(s, found, bytes, before, room);
      hide Hunt, ParseHeader, Reads, Reading, Finished;
    } else {
      hide Hunt;
    }
  }

  /** The header has come with the first transfer. */
  lemma ReadsWholeHeader(s: State, found: Rx, bytes: seq<byte>, before: Buffer, room: bool)
    requires s.busy && s.log.transfers == 1 && Hunt(bytes, 0) + PACKET_HEADER_LEN <= |bytes|
    requires var e := Hunt(bytes, 0);
             found == Rx(PACKET_SYNC_MARKER, |bytes| - e, 0, 0, e, e, found.buffer)
    requires Holds(found.buffer, bytes, before)
    ensures match ParseHeader(found)
            case More(rx, len) =>
              Reads(s, Ask(Freed(s).(rx := rx), rx.readPtr, len, true), bytes, |bytes|, before, room)
            case Done(rx) =>
              && (rx.payloadLen > 0 ==> rx.header >= PACKET_SYNC_LEN)
              && Reads(s, Finished(Freed(s).(rx := rx), room), bytes, |bytes|, before, room)
  {
    hide Hunt, HeaderPayload, HeaderApid, Holds, ParseHeader, Slice, PacketAt, Reads, Finished, Ask;
    var e := Hunt(bytes, 0);
    MarkerRoom(bytes);
    ParsesHeader(found, bytes, before);
    var n, rx := HeaderPayload(bytes[e..]), ParseHeader(found).rx;
    if !PayloadOk(n) {
      EndsWithout(s, rx, bytes, |bytes|, before, room);
    } else if |bytes| - e - PACKET_HEADER_LEN >= n {
      PacketInOrder(found.buffer, bytes, before, e, n);
      EndsWithPacket(s, rx, bytes, |bytes|, before, room);
    } else {
      AsksForPayload(s, rx, n - (|bytes| - e - PACKET_HEADER_LEN), bytes, before, room);
    }
  }

  lemma AsksForPayload(s: State, rx: Rx, len: nat, bytes: seq<byte>, before: Buffer, room: bool)
    requires s.busy && s.log.transfers == 1 && HeaderIn(bytes) && Holds(rx.buffer, bytes, before)
    requires rx.sync == PACKET_SYNC_MARKER && rx.header == Hunt(bytes, 0) && rx.readPtr == |bytes|
    requires rx.payloadLen == HeaderPayload(bytes[rx.header..]) && rx.apid == HeaderApid(bytes[rx.header..])
    requires rx.header + PACKET_HEADER_LEN + rx.readLen == |bytes| && rx.readLen + len == rx.payloadLen
    ensures Reads(s, Ask(Freed(s).(rx := rx), rx.readPtr, len, true), bytes, |bytes|, before, room)
  {
    hide Hunt, HeaderPayload, HeaderApid, Holds;
  }

  lemma HoldsNothing(before: Buffer)
    ensures Holds(before, [], before)
  {}

  /** The rest of a header. */
  lemma ReadsHeader(s: State, bytes: seq<byte>, room: bool, got: seq<byte>, first: nat, before: Buffer)
    requires Reading(s, got, first, before) && s.log.transfers > 1 && s.rx.payloadLen == 0
    requires Parsable(s.rx, bytes) && |bytes| == s.outstanding.value.len
    ensures Reads(s, CompleteStep(s, bytes, room, true), got + bytes, first, before, room)
  {
    var all, e := got + bytes, Hunt(got, 0);
    HuntExtends(got, bytes);
    HoldsMore(s.rx.buffer, got, before, bytes);
    ParsesHeader(s.rx.(buffer := Put(s.rx.buffer, s.rx.readPtr, bytes)), all, before);
    hide Hunt, Window, HeaderPayload, HeaderApid, Holds, At, Put, Slice, PacketFound, Handed, ParseHeader;
  }

  /** The last transfer puts the payload where it belongs, or displaced behind the header. */
  lemma LastTransfer(buffer: Buffer, got: seq<byte>, before: Buffer, e: nat, d: nat, n: nat, bytes: seq<byte>)
    requires Holds(buffer, got, before) && PACKET_SYNC_LEN <= e && |got| + |bytes| == e + PACKET_HEADER_LEN + n
    requires d > 0 ==> |got| == e + PACKET_HEADER_LEN
    ensures Slice(Put(buffer, |got| + d, bytes), e - PACKET_SYNC_LEN, PACKET_OVERHEAD + n) ==
            PacketAt(got + bytes, e, n, d, before)
  {
    hide Holds, Put, Slice, PacketAt;
    if d > 0 {
      PacketDisplaced(buffer, got, before, e, d, bytes);
    } else {
      HoldsMore(buffer, got, before, bytes);
      PacketInOrder(Put(buffer, |got|, bytes), got + bytes, before, e, n);
    }
  }

  /** The rest of a payload. */
  lemma ReadsPayload(s: State, bytes: seq<byte>, room: bool, got: seq<byte>, first: nat, before: Buffer)
    requires Reading(s, got, first, before) && s.log.transfers > 1 && s.rx.payloadLen > 0
    requires Parsable(s.rx, bytes) && |bytes| == s.outstanding.value.len
    ensures Reads(s, CompleteStep(s, bytes, room, true), got + bytes, first, before, room)
  {
    hide Hunt, Window, HeaderPayload, HeaderApid, Holds, At, Put, Slice, PacketAt, PacketFound;
    var all, e, d := got + bytes, Hunt(got, 0), Displaced(Hunt(got, 0), first);
    HeaderStays(got, bytes);
    MarkerRoom(got);
    LastTransfer(s.rx.buffer, got, before, e, d, s.rx.payloadLen, bytes);
    var rx := s.rx.(buffer := Put(s.rx.buffer, s.rx.readPtr, bytes), readPtr := s.rx.readPtr + s.rx.readLen,
                    readLen := 0);
    assert Parse(s.rx, bytes) == Done(rx);
    hide Displaced, Parse, Finished, Reads, Reading;
    EndsWithPacket(s, rx, all, first, before, room);
  }

  lemma ReadsOn(s: State, bytes: seq<byte>, room: bool, got: seq<byte>, first: nat, before: Buffer)
    requires Reading(s, got, first, before) && Parsable(s.rx, bytes) && |bytes| == s.outstanding.value.len
    ensures Reads(s, CompleteStep(s, bytes, room, true), got + bytes, first, before, room)
  {
    hide CompleteStep, Reads;
    if s.log.transfers == 1 {
      assert got + bytes == bytes;
      ReadsFirst(s, bytes, room, before);
    } else if s.rx.payloadLen == 0 {
      ReadsHeader(s, bytes, room, got, first, before);
    } else {
      ReadsPayload(s, bytes, room, got, first, before);
    }
  }

  // ---- the whole exchange ----

  /** The bytes that the completions bring until the exchange ends. */
  function Received(s: State, cs: seq<Event>): seq<byte>
    requires forall c | c in cs :: c.Complete?
    decreases |cs|
  {
    if cs == [] || !s.busy then [] else cs[0].bytes + Received(Step(s, cs[0]), cs[1..])
  }

  lemma {:induction false} ReadsToTheEnd(s: State, cs: seq<Event>, got: seq<byte>, first: nat, before: Buffer)
    requires (forall c | c in cs :: c.Complete? && c.room) && Happens(s, cs) && Invariant(s)
    requires Reading(s, got, first, before)
    ensures var end, all := CompleteAll(s, cs), got + Received(s, cs);
            !end.busy ==>
              Outcome(end.rx, all, first, before) &&
              end.log.received == s.log.received + Kept(all, first, before, true)
    decreases |cs|
  {
    hide CompleteStep, Outcome, Parsable, Kept;
    if cs != [] {
      var c := cs[0];
      assert c in cs && c.done && Possible(s, c);
      StepKeeps(s, c);
      ReadsOn(s, c.bytes, true, got, first, before);
      hide Invariant;
      var next := Step(s, c);
      assert got + Received(s, cs) == (got + c.bytes) + Received(next, cs[1..]);
      if next.busy {
        ReadsToTheEnd(next, cs[1..], got + c.bytes, first, before);
      } else {
        Idles(next, cs[1..]);
        assert got + c.bytes + Received(next, cs[1..]) == got + c.bytes;
      }
    }
  }

  /** A transfer that an idle driver begins with is where reading starts. */
  lemma ExchangeBegins(s: State)
    requires Invariant(s) && !s.busy
    ensures var next := InterruptStep(s, true);
            next.outstanding.Some? && Reading(next, [], next.outstanding.value.len, s.rx.buffer)
  {
    hide Memory, Hunt;
  }

  /** An exchange, however its bytes are cut into transfers, ends with the packet behind the first marker, if its
      header is one of a packet that can be, and with none otherwise; given room, the packet that is handed on is the
      one found in the receive buffer. */
  lemma ExchangeReads(s: State, cs: seq<Event>)
    requires cs != [] && (forall c | c in cs :: c.Complete? && c.room)
    requires Invariant(s) && !s.busy && Happens(InterruptStep(s, true), cs)
    ensures var begun, end := InterruptStep(s, true), CompleteAll(InterruptStep(s, true), cs);
            var got, first := Received(begun, cs), |cs[0].bytes|;
            !end.busy ==>
              Outcome(end.rx, got, first, s.rx.buffer) &&
              end.log.received == s.log.received + Kept(got, first, s.rx.buffer, true)
  {
    var begun := InterruptStep(s, true);
    InterruptKeeps(s, true);
    ExchangeBegins(s);
    assert cs[0] in cs && Possible(begun, cs[0]);
    assert begun.log.received == s.log.received;
    hide Invariant, InterruptStep, Reading, Outcome, Kept;
    ReadsToTheEnd(begun, cs, [], |cs[0].bytes|, s.rx.buffer);
    assert [] + Received(begun, cs) == Received(begun, cs);
  }

  /** The packet found is the packet sent exactly when the first transfer does not end one to five bytes behind the
      marker, or the old bytes in the buffer and the cut payload happen to be the payload. */
  lemma FoundIntactIff(got: seq<byte>, first: nat, before: Buffer)
    requires HeaderIn(got) && Hunt(got, 0) + PACKET_HEADER_LEN + HeaderPayload(got[Hunt(got, 0)..]) <= |got|
    ensures var e := Hunt(got, 0);
            var body, n := e + PACKET_HEADER_LEN, HeaderPayload(got[e..]);
            var payload := got[body..body + n];
            PacketFound(got, first, before) == PacketIn(got) <==>
              || !(1 <= first - e <= 5)
              || Shifted(Slice(before, body, first - e), payload) == payload
  {
    MarkerRoom(got);
    hide Hunt, HeaderPayload, Slice, PacketAt, Shifted;
    var e := Hunt(got, 0);
    IntactAt(got, e, HeaderPayload(got[e..]), Displaced(e, first), before);
  }

  lemma IntactAt(got: seq<byte>, e: nat, n: nat, d: nat, before: Buffer)
    requires PACKET_SYNC_LEN <= e && e + PACKET_HEADER_LEN + n <= |got|
    ensures var body := e + PACKET_HEADER_LEN;
            var payload := got[body..body + n];
            PacketAt(got, e, n, d, before) == got[e - PACKET_SYNC_LEN..body + n] <==>
              d == 0 || Shifted(Slice(before, body, d), payload) == payload
  {
    var body := e + PACKET_HEADER_LEN;
    var head, payload := got[e - PACKET_SYNC_LEN..body], got[body..body + n];
    NotShifted(payload);
    assert Slice(before, body, 0) == [];
    hide Slice, Shifted;
    assert got[e - PACKET_SYNC_LEN..body + n] == head + payload;
    SameTail(head, Shifted(Slice(before, body, d), payload), payload);
  }

  lemma SameTail<T>(head: seq<T>, a: seq<T>, b: seq<T>)
    ensures head + a == head + b <==> a == b
  {
    assert (head + a)[|head|..] == a && (head + b)[|head|..] == b;
  }

  // ---- a payload that is displaced ----

  function Came(bytes: seq<byte>): Event { Complete(bytes, true, true) }

  lemma MarkerInStream(garbage: seq<byte>, rest: seq<byte>)
    requires NoMarker(garbage)
    ensures Hunt(garbage + SYNC + rest, 0) == |garbage| + PACKET_SYNC_LEN
    ensures (garbage + SYNC + rest)[|garbage| + PACKET_SYNC_LEN..] == rest
  {
    var e := |garbage| + PACKET_SYNC_LEN;
    MarkerAfterGarbage(garbage, rest);
    HuntIsFirst(garbage + SYNC + rest, e);
  }

  /** A first transfer that ends with the marker and r bytes of header. */
  lemma AfterFirst(s: State, bytes: seq<byte>, e: nat)
    requires Invariant(s) && Reading(s, [], |bytes|, s.rx.buffer) && s.log.transfers == 1
    requires Hunt(bytes, 0) == e <= |bytes| < e + PACKET_HEADER_LEN
    ensures Possible(s, Came(bytes))
    ensures var next := Step(s, Came(bytes));
            && Invariant(next) && Reading(next, bytes, |bytes|, s.rx.buffer) && next.log.transfers == 2
            && next.rx.payloadLen == 0 && next.log.received == s.log.received && next.outstanding.Some?
            && next.outstanding.value.len == PACKET_HEADER_LEN - (|bytes| - e)
  {
    StepKeeps(s, Came(bytes));
    ReadsOn(s, bytes, true, [], |bytes|, s.rx.buffer);
    assert [] + bytes == bytes;
    hide Hunt, Invariant, Put, Holds, Outcome, Kept;
  }

  /** The header is complete: the payload is asked for. */
  lemma AfterHeader(s: State, got: seq<byte>, bytes: seq<byte>, before: Buffer)
    requires Invariant(s) && Reading(s, got, |got|, before) && s.log.transfers == 2 && s.rx.payloadLen == 0
    requires |bytes| == s.outstanding.value.len && HeaderIn(got + bytes)
    ensures Possible(s, Came(bytes))
    ensures var next, all := Step(s, Came(bytes)), got + bytes;
            && Invariant(next) && Reading(next, all, |got|, before) && next.log.transfers == 3
            && next.outstanding.value.len == next.rx.payloadLen == HeaderPayload(all[Hunt(all, 0)..])
            && next.log.received == s.log.received
  {
    MarkerRoom(got);
    HuntExtends(got, bytes);
    StepKeeps(s, Came(bytes));
    hide Hunt, HeaderPayload, HeaderApid, Holds, Handed, PacketFound, Kept, Invariant;
    ReadsOn(s, bytes, true, got, |got|, before);
    CompleteKeeps(s, bytes, true, true);
    hide CompleteStep;
  }

  lemma AfterPayload(s: State, got: seq<byte>, first: nat, bytes: seq<byte>, before: Buffer)
    requires Invariant(s) && Reading(s, got, first, before) && s.log.transfers == 3
    requires |bytes| == s.outstanding.value.len
    ensures Possible(s, Came(bytes))
    ensures var next := Step(s, Came(bytes));
            !next.busy && next.log.received == s.log.received + Kept(got + bytes, first, before, true)
  {
    MarkerRoom(got);
    hide Hunt, HeaderPayload, HeaderApid, Holds, Outcome, Kept, Invariant;
    ReadsOn(s, bytes, true, got, first, before);
    CompleteKeeps(s, bytes, true, true);
    hide CompleteStep;
  }

  /** What of a packet the driver hands on when the first transfer ends r bytes behind its marker, with one to five: its
      payload stands behind r old bytes of the buffer, and is cut to its length. */
  lemma DisplacedDelivery(s: State, garbage: seq<byte>, header: seq<byte>, payload: seq<byte>, r: nat)
    requires Invariant(s) && !s.busy && NoMarker(garbage) && 1 <= r < PACKET_HEADER_LEN == |header|
    requires HeaderPayload(header) == |payload| && PayloadOk(|payload|) && HeaderApid(header) != NOOP_APID
    requires |garbage| + PACKET_SYNC_LEN + r == if s.queue == [] then DEFAULT_READ_LEN else s.queue[0].len
    ensures var one := Step(InterruptStep(s, true), Came(garbage + SYNC + header[..r]));
            var three := Step(Step(one, Came(header[r..])), Came(payload));
            var stale := Slice(s.rx.buffer, |garbage| + PACKET_OVERHEAD, r);
            !three.busy && three.log.received == s.log.received + [SYNC + header + Shifted(stale, payload)]
  {
    var begun, before, e := InterruptStep(s, true), s.rx.buffer, |garbage| + PACKET_SYNC_LEN;
    var first, all := garbage + SYNC + header[..r], garbage + SYNC + (header + payload);
    hide Hunt, HeaderPayload, HeaderApid, InterruptStep, Step, Reading, Invariant, Kept, Slice, Shifted, NoMarker;
    Begins(s);
    MarkerInStream(garbage, header[..r]);
    MarkerInStream(garbage, header);
    JoinParts(garbage, header, payload, r);
    AfterFirst(begun, first, e);
    AfterHeader(Step(begun, Came(first)), first, header[r..], before);
    AfterPayload(Step(Step(begun, Came(first)), Came(header[r..])), garbage + SYNC + header, |first|, payload, before);
    KeptDisplaced(all, garbage, header, payload, r, before);
  }

  lemma Begins(s: State)
    requires Invariant(s) && !s.busy
    ensures var begun, len := InterruptStep(s, true), if s.queue == [] then DEFAULT_READ_LEN else s.queue[0].len;
            && Invariant(begun) && Reading(begun, [], len, s.rx.buffer) && begun.log.transfers == 1
            && begun.rx.buffer == s.rx.buffer && begun.log.received == s.log.received
  {
    InterruptKeeps(s, true);
    ExchangeBegins(s);
    hide Memory, Invariant, Reading;
  }

  lemma JoinParts(garbage: seq<byte>, header: seq<byte>, payload: seq<byte>, r: nat)
    requires r <= |header|
    ensures garbage + SYNC + header[..r] + header[r..] == garbage + SYNC + header
    ensures garbage + SYNC + header + payload == garbage + SYNC + (header + payload)
  {
    assert header[..r] + header[r..] == header;
  }

  lemma KeptDisplaced(all: seq<byte>, garbage: seq<byte>, header: seq<byte>, payload: seq<byte>, r: nat, before: Buffer)
    requires NoMarker(garbage) && 1 <= r < PACKET_HEADER_LEN == |header|
    requires HeaderPayload(header) == |payload| && PayloadOk(|payload|) && HeaderApid(header) != NOOP_APID
    requires all == garbage + SYNC + (header + payload)
    ensures Kept(all, |garbage| + PACKET_SYNC_LEN + r, before, true) ==
            [SYNC + header + Shifted(Slice(before, |garbage| + PACKET_OVERHEAD, r), payload)]
  {
    var e, n := |garbage| + PACKET_SYNC_LEN, |payload|;
    MarkerInStream(garbage, header + payload);
    HeaderOnly(header, payload);
    hide Hunt, HeaderPayload, HeaderApid, Slice, Shifted;
    assert all[|garbage|..e + PACKET_HEADER_LEN] == SYNC + header;
    assert all[e + PACKET_HEADER_LEN..e + PACKET_HEADER_LEN + n] == payload;
  }

  /** So a new driver, with 120 bytes of 0 before the marker in a transfer of the default length, hands on two bytes of
      0 for a payload of 7 and 9. */
  method PayloadLost(garbage: seq<byte>, header: seq<byte>, payload: seq<byte>) returns (d: Driver)
    requires |garbage| == 120 && forall i | 0 <= i < |garbage| :: garbage[i] == 0
    requires header == [0x08, 0x01, 0xC0, 0x00, 0x00, 0x01] && payload == [7, 9]
    ensures !d.busy && d.log.received == [SYNC + header + [0, 0]]
  {
    hide Step, Run, InterruptStep, CompleteStep, Parsable, Possible, Slice, Shifted, HeaderPayload, HeaderApid;
    hide NoMarker, Invariant;
    d := new Driver([]);
    ghost var s := d.View();
    IdleIsSound(s);
    Asked(s);
    NoMarkerInZeros(garbage);
    HeaderOfTwo(header);
    FourInFront(s.rx.buffer, |garbage| + PACKET_OVERHEAD, payload);
    DisplacedDelivery(s, garbage, header, payload, 4);
    Apply(d, Interrupt(true));
    Apply(d, Came(garbage + SYNC + header[..4]));
    Apply(d, Came(header[4..]));
    Apply(d, Came(payload));
  }

  lemma Asked(s: State)
    ensures Step(s, Interrupt(true)) == InterruptStep(s, true)
  {
    hide InterruptStep;
  }

  lemma HeaderOfTwo(header: seq<byte>)
    requires header == [0x08, 0x01, 0xC0, 0x00, 0x00, 0x01]
    ensures HeaderPayload(header) == 2 && HeaderApid(header) == 1
  {}

  lemma FourInFront(nothing: Buffer, from: nat, payload: seq<byte>)
    requires nothing == [] && |payload| == 2
    ensures Shifted(Slice(nothing, from, 4), payload) == [0, 0]
  {
    NothingThere(from, 4);
    hide Slice;
  }

  lemma {:induction false} NothingThere(from: nat, n: nat)
    ensures forall i | 0 <= i < n :: Slice([], from, n)[i] == 0
  {
    if n > 0 {
      NothingThere(from, n - 1);
    }
  }
}
