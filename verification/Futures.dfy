/** Pipelined register access, lib/ipc_helper.py: requests go out at once, answers come back in order, and
    waiting for any future settles all that were issued before it. The server is assumed to answer every
    request once, in order and without error. */
module Futures {
  import opened Basics

  datatype Request = Request(token: nat, addr: nat, writes: bool, size: nat, data: seq<byte>)

  /** What the server answers to the k-th request; nothing else is known of it. */
  type Server = nat -> seq<byte>

  // ---- payloads ----

  /** What is written: registers, packed into four bytes each by their types, or a text. */
  datatype Value = Registers(words: seq<seq<byte>>) | Text(text: seq<byte>)

  predicate Packable(v: Value) {
    match v
    case Registers(words) => forall i | 0 <= i < |words| :: |words[i]| == 4
    case Text(text) => |text| < 0x1_0000_0000
  }

  /** An unsigned 32-bit number, low byte first. */
  function Number(n: nat): seq<byte>
    requires n < 0x1_0000_0000
  {
    [n % 0x100, n / 0x100 % 0x100, n / 0x1_0000 % 0x100, n / 0x100_0000]
  }

  function NumberOf(raw: seq<byte>): nat
    requires |raw| == 4
  {
    raw[0] as nat + 0x100 * raw[1] as nat + 0x1_0000 * raw[2] as nat + 0x100_0000 * raw[3] as nat
  }

  function Joined(words: seq<seq<byte>>): seq<byte> { if words == [] then [] else words[0] + Joined(words[1..]) }

  function Padding(n: nat): nat { (4 - n % 4) % 4 }

  function Filling(n: nat): (xs: seq<byte>) ensures |xs| == Padding(n) { seq(Padding(n), _ => 'X' as int) }

  lemma NumberRoundTrip(n: nat)
    requires n < 0x1_0000_0000
    ensures NumberOf(Number(n)) == n
  {
    var a, b, c := n / 0x100, n / 0x1_0000, n / 0x100_0000;
    Quotient(a, 0x100, b, a % 0x100);
    Quotient(b, 0x100, c, b % 0x100);
  }

  lemma WholeRegisters(n: nat)
    ensures (4 + n + Padding(n)) % 4 == 0
  {}

  /** Registers one after the other; a text behind its length, filled up to whole registers. */
  function Encoded(v: Value): seq<byte>
    requires Packable(v)
  {
    match v
    case Registers(words) => Joined(words)
    case Text(text) => Number(|text|) + text + Filling(|text|)
  }

  /** Slices of four bytes. */
  function DecodedRegisters(raw: seq<byte>): seq<seq<byte>> {
    if |raw| < 4 then [] else [raw[..4]] + DecodedRegisters(raw[4..])
  }

  function DecodedText(raw: seq<byte>): seq<byte>
    requires |raw| >= 4
  {
    var end := NumberOf(raw[..4]) + 4;
    raw[4..if end <= |raw| then end else |raw|]
  }

  lemma {:induction false} RegistersRoundTrip(words: seq<seq<byte>>)
    requires Packable(Registers(words))
    ensures DecodedRegisters(Joined(words)) == words && |Joined(words)| == 4 * |words|
  {
    if words != [] {
      RegistersRoundTrip(words[1..]);
      var raw := Joined(words);
      assert raw[..4] == words[0] && raw[4..] == Joined(words[1..]);
    }
  }

  /** Whatever is written is whole registers, and is read back from them. */
  lemma PayloadRoundTrip(v: Value)
    requires Packable(v)
    ensures |Encoded(v)| % 4 == 0
    ensures match v
            case Registers(words) => DecodedRegisters(Encoded(v)) == words
            case Text(text) => |Encoded(v)| >= 4 && DecodedText(Encoded(v)) == text
  {
    match v
    case Registers(words) => RegistersRoundTrip(words);
    case Text(text) =>
      NumberRoundTrip(|text|);
      WholeRegisters(|text|);
      hide Number, NumberOf, Padding, Filling;
      var raw := Encoded(v);
      assert raw[..4] == Number(|text|) && raw[4..|text| + 4] == text;
  }

  lemma JoinedFrom(words: seq<seq<byte>>, i: nat)
    requires i < |words|
    ensures Joined(words[i..]) == words[i] + Joined(words[i + 1..])
  {
    assert words[i..][1..] == words[i + 1..];
  }

  method EncodePayload(value: Value) returns (payload: seq<byte>, lenPck: nat)
    requires Packable(value)
    ensures payload == Encoded(value) && lenPck == |payload|
  {
    match value {
      case Registers(words) =>
        payload := [];
        for i := 0 to |words|
          invariant payload + Joined(words[i..]) == Joined(words)
        {
          JoinedFrom(words, i);
          payload := payload + words[i];
        }
        RegistersRoundTrip(words);
        lenPck := 4 * |words|;
      case Text(text) =>
        hide Number, Padding, Filling;
        var lstr := |text|;
        var filled := text + Filling(lstr);
        payload := Number(lstr) + filled;
        assert payload == Number(lstr) + text + Filling(lstr);
        lenPck := |payload|;
    }
  }

  // ---- requests and their futures ----

  class Future {
    const token: nat
    const addr: nat
    const writes: bool
    const size: nat
    var value: Option<seq<byte>>
    var valid: bool

    constructor (token: nat, addr: nat, writes: bool, size: nat)
      ensures this.token == token && this.addr == addr && this.writes == writes && this.size == size
      ensures !valid && value == None
    {
      this.token, this.addr, this.writes, this.size := token, addr, writes, size;
      valid, value := false, None;
    }
  }

  /** The future belongs to the request. */
  predicate Matches(f: Future, r: Request) {
    f.token == r.token && f.addr == r.addr && f.writes == r.writes && f.size == r.size
  }

  class Client {
    var token: nat
    var pending: seq<Future>
    const server: Server
    var requests: seq<Request>   // all that were sent
    var received: nat            // answers taken so far
    ghost var issued: seq<Future>  // the future of every request

    constructor (server: Server)
      ensures Valid() && issued == [] && requests == [] && this.server == server
    {
      this.server := server;
      token, pending, requests, received, issued := 0, [], [], 0, [];
    }

    ghost predicate Valid()
      reads this, issued
    {
      && Structure()
      && forall k | 0 <= k < |issued| ::
           && Matches(issued[k], requests[k])
           && issued[k].valid == (k < received)
           && issued[k].value == if k < received then Some(server(k)) else None
    }

    /** The unanswered futures are exactly the pending ones, in the order of their requests. */
    ghost predicate Structure()
      reads this
    {
      && |issued| == |requests| && received <= |issued| && pending == issued[received..]
      && (forall j, k | 0 <= j < k < |issued| :: issued[j] != issued[k])
      && token == |requests| % 255
      && forall k | 0 <= k < |requests| :: requests[k].token == (k + 1) % 255
    }

    method GetToken() returns (t: nat)
      modifies this`token
      ensures t == token == (old(token) + 1) % 255
    {
      token := (token + 1) % 255;
      return token;
    }

    method SendRequest(r: Request)
      modifies this`requests
      ensures requests == old(requests) + [r]
    {
      requests := requests + [r];
    }

    method Issue(addr: nat, writes: bool, size: nat, data: seq<byte>) returns (f: Future)
      requires Valid()
      modifies this
      ensures Valid() && fresh(f) && issued == old(issued) + [f] && received == old(received)
      ensures requests == old(requests) + [Request(f.token, addr, writes, size, data)]
    {
      TokenNext(|requests|);
      var requestId := GetToken();
      SendRequest(Request(requestId, addr, writes, size, data));
      f := new Future(requestId, addr, writes, size);
      pending := pending + [f];
      issued := issued + [f];
    }

    method ReadRegAsync(addr: nat, size: nat) returns (f: Future)
      requires Valid()
      modifies this
      ensures Valid() && fresh(f) && issued == old(issued) + [f] && received == old(received)
      ensures requests == old(requests) + [Request(f.token, addr, false, 4 * size, [])]
    {
      f := Issue(addr, false, 4 * size, []);
    }

    method WriteRegAsync(addr: nat, value: Value) returns (f: Future)
      requires Valid() && Packable(value)
      modifies this
      ensures Valid() && fresh(f) && issued == old(issued) + [f] && received == old(received)
      ensures requests == old(requests) + [Request(f.token, addr, true, |Encoded(value)|, Encoded(value))]
    {
      hide Encoded, Packable;
      var payload, lenPck := EncodePayload(value);
      f := Issue(addr, true, lenPck, payload);
    }

    /** The next answer: it carries the fields of the request it answers. */
    method GetPacket() returns (r: Request, data: seq<byte>)
      requires received < |requests|
      modifies this`received
      ensures received == old(received) + 1 && r == requests[old(received)] && data == server(old(received))
    {
      r, data := requests[received], server(received);
      received := received + 1;
    }

    /** Settle the oldest pending future. */
    method ReceiveOne() returns (current: Future)
      requires Valid() && pending != []
      modifies this`pending, this`received, pending[0]
      ensures Valid() && current == old(pending[0]) && received == old(received) + 1
    {
      current := pending[0];
      assert current == issued[received];
      pending := pending[1..];
      var packet, data := GetPacket();
      assert packet.addr == current.addr;
      assert packet.token == current.token;
      assert packet.writes == current.writes;
      current.value := Some(data);
      current.valid := true;
    }

    /** Take answers until the target's has come. */
    method Receive(target: Future, ghost k: nat)
      requires Valid() && received <= k < |issued| && issued[k] == target
      modifies this`pending, this`received, pending
      ensures Valid() && received == k + 1
    {
      ghost var start := received;
      var done := false;
      while !done
        invariant Valid() && start <= received <= k + 1 && (done <==> received == k + 1)
        invariant unchanged(this`issued) && unchanged(this`requests) && unchanged(this`token)
        decreases k + 1 - received
      {
        assert pending[0] == issued[received] && old(pending)[received - start] == issued[received];
        var current := ReceiveOne();
        done := current == target;
      }
    }

    /** The answer to the k-th request, waited for if it has not come. */
    method Wait(f: Future, ghost k: nat) returns (value: Option<seq<byte>>)
      requires Valid() && k < |issued| && issued[k] == f
      modifies this`pending, this`received, pending
      ensures Valid() && value == Some(server(k)) && f.valid
      ensures received == if old(received) <= k then k + 1 else old(received)
    {
      if !f.valid {
        Receive(f, k);
      }
      return f.value;
    }
  }

  lemma TokenNext(n: nat)
    ensures (n % 255 + 1) % 255 == (n + 1) % 255
  {}

  /** Two requests share a token exactly when their numbers differ by a multiple of 255. */
  lemma TokensClash(j: nat, k: nat)
    requires j <= k
    ensures (j + 1) % 255 == (k + 1) % 255 <==> (k - j) % 255 == 0
  {}

  // ---- sessions ----

  datatype Operation = Read(addr: nat, size: nat) | Write(addr: nat, value: Value) | WaitFor(k: nat)

  /** How many of the first operations issue a request. */
  function Issues(ops: seq<Operation>): nat {
    if ops == [] then 0 else Issues(ops[..|ops| - 1]) + if ops[|ops| - 1].WaitFor? then 0 else 1
  }

  /** Only futures that exist by then are waited for, and only values that fit are written. */
  predicate Sensible(ops: seq<Operation>) {
    forall i | 0 <= i < |ops| ::
      (ops[i].WaitFor? ==> ops[i].k < Issues(ops[..i])) && (ops[i].Write? ==> Packable(ops[i].value))
  }

  lemma PendingAreIssued(c: Client)
    requires c.Structure()
    ensures forall f | f in c.pending :: f in c.issued
  {}

  /** One operation; the futures issued so far are kept to wait for. */
  method Perform(c: Client, op: Operation, futures: seq<Future>) returns (more: seq<Future>, result: Option<seq<byte>>)
    requires c.Valid() && c.issued == futures && (op.WaitFor? ==> op.k < |futures|)
    requires op.Write? ==> Packable(op.value)
    modifies c, futures
    ensures c.Valid() && c.issued == more && |more| == |futures| + if op.WaitFor? then 0 else 1
    ensures forall j | 0 <= j < |more| :: more[j] in futures || fresh(more[j])
    ensures op.WaitFor? ==> result == Some(c.server(op.k))
  {
    match op {
      case Read(addr, size) =>
        var f := c.ReadRegAsync(addr, size);
        return futures + [f], None;
      case Write(addr, value) =>
        var f := c.WriteRegAsync(addr, value);
        return futures + [f], None;
      case WaitFor(k) =>
        PendingAreIssued(c);
        result := c.Wait(futures[k], k);
        more := futures;
    }
  }

  /** Any mix of reads, writes and waits, in any order: every wait gives the answer to its own request. */
  method Session(c: Client, ops: seq<Operation>) returns (results: seq<Option<seq<byte>>>)
    requires c.Valid() && c.issued == [] && Sensible(ops)
    modifies c
    ensures c.Valid() && |c.issued| == Issues(ops) && |results| == |ops|
    ensures forall i | 0 <= i < |ops| && ops[i].WaitFor? :: results[i] == Some(c.server(ops[i].k))
  {
    results := [];
    var futures: seq<Future> := [];
    assert ops[..0] == [];
    for i := 0 to |ops|
      invariant c.Valid() && c.issued == futures && |futures| == Issues(ops[..i]) && |results| == i
      invariant forall j | 0 <= j < |futures| :: fresh(futures[j])
      invariant forall j | 0 <= j < i && ops[j].WaitFor? :: results[j] == Some(c.server(ops[j].k))
    {
      assert ops[..i + 1][..i] == ops[..i];
      var result;
      futures, result := Perform(c, ops[i], futures);
      results := results + [result];
    }
    assert ops[..|ops|] == ops;
  }
}
