/** What file transfer guarantees: a file that is cut, sent and put together again is the file; assembly
    succeeds exactly when the first names are 1..n of n; chunks may arrive in any order and repeatedly. */
module FileTransferResults {
  import opened Basics
  import opened FileTransfer

  // ---- cutting and joining ----

  lemma {:induction false} JoinConcat(a: seq<seq<byte>>, b: seq<seq<byte>>)
    ensures Join(a + b) == Join(a) + Join(b)
    decreases |b|
  {
    if b == [] {
      assert a + b == a;
    } else {
      var n := |b| - 1;
      assert (a + b)[..|a + b| - 1] == a + b[..n];
      JoinConcat(a, b[..n]);
    }
  }

  /** The pieces of a file, in order, are the file. */
  lemma {:induction false} CutJoins(file: seq<byte>, size: nat)
    requires size > 0
    ensures Join(Cut(file, size)) == file
    decreases |file|
  {
    if |file| > size {
      CutJoins(file[size..], size);
      JoinConcat([file[..size]], Cut(file[size..], size));
      assert Join([file[..size]]) == Join([]) + file[..size];
      assert file[..size] + file[size..] == file;
    } else if file != [] {
      assert Join([file]) == Join([]) + file;
    }
  }

  /** Every piece but the last is full; none is empty or too long. */
  lemma {:induction false} CutSizes(file: seq<byte>, size: nat, i: nat)
    requires size > 0 && i < |Cut(file, size)|
    ensures 1 <= |Cut(file, size)[i]| <= size
    ensures i < |Cut(file, size)| - 1 ==> |Cut(file, size)[i]| == size
    decreases |file|
  {
    if |file| > size && i > 0 {
      CutSizes(file[size..], size, i - 1);
    }
  }

  // ---- when assembly succeeds ----

  /** The first names are 1..n of n, where n is the length in the first name. */
  predicate Complete(files: seq<Name>) requires files != [] {
    var n := files[0].len;
    n <= |files| && n < 100000 && forall i | 0 <= i < n :: files[i] == Name(i + 1, n)
  }

  lemma {:induction false} MisplacedNone(files: seq<Name>, k: nat)
    requires k <= |files|
    ensures Misplaced(files, k) == [] <==> forall i | 0 <= i < k :: files[i].num == i + 1
  {
    if k > 0 {
      MisplacedNone(files, k - 1);
    }
  }

  /** Success means exactly a complete directory. A first name 0_0, which an uplink may stage, is complete too:
      it makes assembly write an empty file, whatever else is there. */
  lemma SuccessIff(files: seq<Name>)
    requires files != []
    ensures Verdict(files) == Success <==> Complete(files)
  {
    var n := files[0].len;
    var k := SoundUpTo(files, n);
    if k == n {
      MisplacedNone(files, n);
      if n > 0 {
        assert NameOk(files[0]);
      }
    } else if Complete(files) {
      assert Sound(files, k + 1);
    }
  }

  /** The data of chunks 1..k. */
  function Contents(chunks: map<Name, seq<byte>>, n: nat, k: nat): seq<seq<byte>>
    requires forall i | 1 <= i <= k :: Name(i, n) in chunks
  {
    if k == 0 then [] else Contents(chunks, n, k - 1) + [chunks[Name(k, n)]]
  }

  lemma {:induction false} PlacedAreContents(chunks: map<Name, seq<byte>>, files: seq<Name>, n: nat, k: nat)
    requires k <= |files| && (forall f | f in files :: f in chunks)
    requires forall i | 0 <= i < k :: files[i] == Name(i + 1, n)
    ensures forall i | 1 <= i <= k :: Name(i, n) in chunks
    ensures Placed(chunks, files, k) == Contents(chunks, n, k)
  {
    forall i | 1 <= i <= k ensures Name(i, n) in chunks {
      assert files[i - 1] in files;
    }
    if k > 0 {
      PlacedAreContents(chunks, files, n, k - 1);
    }
  }

  lemma {:induction false} ContentsOfNumbered(pieces: seq<seq<byte>>, n: nat, k: nat)
    requires k <= |pieces|
    ensures Contents(Numbered(pieces, n), n, k) == pieces[..k]
  {
    if k > 0 {
      ContentsOfNumbered(pieces, n, k - 1);
    }
  }

  // ---- the directory of one transfer ----

  /** Only chunks of one file of n pieces. */
  ghost predicate OneTransfer(names: set<Name>, n: nat) {
    n < 100000 && forall f | f in names :: f.len == n && 1 <= f.num <= n
  }

  lemma {:induction false} Rising(files: seq<Name>, names: set<Name>, n: nat, i: nat, j: nat)
    requires Listing(files, names) && OneTransfer(names, n) && i <= j < |files|
    ensures files[j].num >= files[i].num + (j - i)
    decreases j
  {
    if i < j {
      Rising(files, names, n, i, j - 1);
      assert files[j - 1] in names && files[j] in names;
      assert files[j - 1] != files[j];
    }
  }

  /** Position i holds at least number i + 1, and at most n less the names that follow it. */
  lemma Squeezed(files: seq<Name>, names: set<Name>, n: nat, i: nat)
    requires Listing(files, names) && OneTransfer(names, n) && i < |files|
    ensures files[i].len == n && i + 1 <= files[i].num <= n - (|files| - 1 - i)
  {
    Rising(files, names, n, 0, i);
    Rising(files, names, n, i, |files| - 1);
    assert files[0] in names && files[|files| - 1] in names && files[i] in names;
  }

  lemma {:induction false} HighIndex(files: seq<Name>, names: set<Name>, n: nat, k: nat) returns (j: nat)
    requires Listing(files, names) && OneTransfer(names, n) && 1 <= k <= n
    requires forall i | 1 <= i <= k :: Name(i, n) in names
    ensures k - 1 <= j < |files| && files[j] == Name(k, n)
  {
    assert Name(k, n) in files;
    j :| 0 <= j < |files| && files[j] == Name(k, n);
    if k > 1 {
      var i := HighIndex(files, names, n, k - 1);
      if j <= i {
        Rising(files, names, n, j, i);
      }
    }
  }

  lemma FullIsAll(files: seq<Name>, names: set<Name>, n: nat)
    requires Listing(files, names) && OneTransfer(names, n) && |files| == n
    ensures forall k | 1 <= k <= n :: Name(k, n) in names
  {
    forall k | 1 <= k <= n ensures Name(k, n) in names {
      Squeezed(files, names, n, k - 1);
      assert files[k - 1] in names;
    }
  }

  /** With chunks of one file only, assembly succeeds exactly when all are there; one that is missing always
      ends in an exception, and never in the report of missing chunks. */
  lemma OneTransferVerdict(files: seq<Name>, names: set<Name>, n: nat)
    requires Listing(files, names) && OneTransfer(names, n) && files != []
    ensures Verdict(files) == if forall k | 1 <= k <= n :: Name(k, n) in names then Success else Exception
  {
    forall i | 0 <= i < |files| ensures files[i].len == n && i + 1 <= files[i].num <= n - (|files| - 1 - i) {
      Squeezed(files, names, n, i);
    }
    Squeezed(files, names, n, 0);
    assert |files| <= n;
    var k := SoundUpTo(files, n);
    if forall k | 1 <= k <= n :: Name(k, n) in names {
      var j := HighIndex(files, names, n, n);
      SuccessIff(files);
    } else {
      if |files| == n {
        FullIsAll(files, names, n);
      }
      if k < |files| {
        assert Sound(files, k + 1);
      }
    }
  }

  lemma {:induction false} SoundUpToAll(files: seq<Name>, n: nat)
    ensures SoundUpTo(files, n) == n <==> Sound(files, n)
  {
    if n > 0 {
      SoundUpToAll(files, n - 1);
    }
  }

  /** The first fault among the names that the first one asks for decides: there is no such name, its numbers have
      more than five digits, or its count is another one. The places reported are those before it that hold a wrong
      number. */
  lemma FaultDecides(files: seq<Name>, k: nat)
    requires files != [] && k < files[0].len && k <= |files|
    requires forall i | 0 <= i < k :: files[i].num < 100000 && files[i].len < 100000 && files[i].len == files[0].len
    ensures k == |files| ==> Verdict(files) == Exception
    ensures k < |files| && (files[k].num >= 100000 || files[k].len >= 100000) ==>
              Verdict(files) == FileError(0x02, Misplaced(files, k))
    ensures k < |files| && files[k].num < 100000 && files[k].len < 100000 && files[k].len != files[0].len ==>
              Verdict(files) == FileError(0x03, Misplaced(files, k))
  {
    if k == |files| || !Sound(files, k + 1) {
      SoundUpToFault(files, k, files[0].len);
    }
  }

  lemma {:induction false} SoundUpToFault(files: seq<Name>, k: nat, n: nat)
    requires k < n && Sound(files, k) && (k == |files| || !Sound(files, k + 1))
    ensures SoundUpTo(files, n) == k
  {
    if k < |files| {
      FaultAt(files, k);
    } else {
      SoundUpToAll(files, k);
      if n > k + 1 {
        SoundUpToFault(files, k, n - 1);
      }
    }
  }

  /** The places reported, in order. */
  lemma {:induction false} MisplacedAre(files: seq<Name>, k: nat)
    requires k <= |files|
    ensures forall x: nat :: x in Misplaced(files, k) <==> x < k && files[x].num != x + 1
    ensures forall i, j | 0 <= i < j < |Misplaced(files, k)| :: Misplaced(files, k)[i] < Misplaced(files, k)[j]
  {
    if k > 0 {
      MisplacedAre(files, k - 1);
      var before := Misplaced(files, k - 1);
      forall i | 0 <= i < |before| ensures before[i] < k - 1 {
        assert before[i] in before;
      }
    }
  }

  /** Missing chunks are reported exactly when the first names are sound, as many as the first one says, and one of
      them is not in its place. */
  lemma MissingIff(files: seq<Name>)
    requires files != []
    ensures var n, verdict := files[0].len, Verdict(files);
            verdict.FileError? && verdict.flag == FL_ERR_MISSING_CHUNK <==>
            Sound(files, n) && exists i | 0 <= i < n :: files[i].num != i + 1
  {
    var n := files[0].len;
    SoundUpToAll(files, n);
    if Sound(files, n) {
      MisplacedNone(files, n);
    }
  }

  /** A transfer of three chunks without its second: an exception, and no report. */
  lemma MissingUnreported()
    ensures var files := [Name(1, 3), Name(3, 3)];
            Listing(files, {Name(1, 3), Name(3, 3)}) && Verdict(files) == Exception
  {
    var files, names := [Name(1, 3), Name(3, 3)], {Name(1, 3), Name(3, 3)};
    assert Listing(files, names);
    OneTransferVerdict(files, names, 3);
    assert Name(2, 3) !in names;
  }

  /** A transfer of two chunks without its second, and a stray third: reported. */
  lemma MissingReported()
    ensures var files := [Name(1, 2), Name(3, 2)];
            Listing(files, {Name(1, 2), Name(3, 2)}) &&
            Verdict(files).FileError? && Verdict(files).flag == FL_ERR_MISSING_CHUNK
  {
    var files := [Name(1, 2), Name(3, 2)];
    assert Listing(files, {Name(1, 2), Name(3, 2)});
    assert Sound(files, 2) && files[1].num != 2;
    MissingIff(files);
  }

  /** Missing chunks are only ever reported when the directory also holds a name that is not of the transfer. */
  lemma MissingNeedsStray(files: seq<Name>, names: set<Name>)
    requires Listing(files, names) && files != []
    requires Verdict(files).FileError? && Verdict(files).flag == FL_ERR_MISSING_CHUNK
    ensures exists f :: f in names && (f.len != files[0].len || f.num == 0 || f.num > f.len)
  {
    var n := files[0].len;
    if forall f | f in names :: f.len == n && 1 <= f.num <= n {
      assert files[0] in names;
      assert SoundUpTo(files, n) == n && NameOk(files[0]);
      OneTransferVerdict(files, names, n);
    }
  }

  // ---- uplinking, in any order ----

  function StageAll(chunks: map<Name, seq<byte>>, us: seq<Uplink>): map<Name, seq<byte>> {
    if us == [] then chunks else Staged(StageAll(chunks, us[..|us| - 1]), us[|us| - 1])
  }

  /** The packet carries a piece of the file. */
  predicate Carries(u: Uplink, pieces: seq<seq<byte>>) {
    u.len == |pieces| && 1 <= u.num <= |pieces| && DataOf(u) == pieces[u.num - 1]
  }

  predicate Covers(us: seq<Uplink>, k: nat) { exists i | 0 <= i < |us| :: us[i].num == k }

  lemma {:induction false} StagedExactly(us: seq<Uplink>, pieces: seq<seq<byte>>)
    requires forall u | u in us :: Carries(u, pieces)
    ensures var m := StageAll(map[], us);
            && (forall f :: f in m <==> f.len == |pieces| && Covers(us, f.num))
            && (forall f | f in m :: 1 <= f.num <= |pieces| && m[f] == pieces[f.num - 1])
  {
    if us != [] {
      var n := |us| - 1;
      StagedExactly(us[..n], pieces);
      assert us[n] in us;
      assert forall k :: Covers(us, k) <==> Covers(us[..n], k) || us[n].num == k;
    }
  }

  /** Uplinking pieces of a file into an empty directory, in any order and with any repeats, and assembling
      them, gives the file if every piece came, and an exception otherwise. */
  lemma AnyOrder(us: seq<Uplink>, pieces: seq<seq<byte>>, files: seq<Name>)
    requires us != [] && |pieces| < 100000 && forall u | u in us :: Carries(u, pieces)
    requires Listing(files, StageAll(map[], us).Keys)
    ensures files != [] && (forall f | f in files :: f in StageAll(map[], us))
    ensures Verdict(files) == if forall k | 1 <= k <= |pieces| :: Covers(us, k) then Success else Exception
    ensures Verdict(files) == Success ==>
              files[0].len <= |files| && Join(Placed(StageAll(map[], us), files, files[0].len)) == Join(pieces)
  {
    var m, n := StageAll(map[], us), |pieces|;
    StagedExactly(us, pieces);
    assert us[0] in us && Covers(us, us[0].num);
    assert Name(us[0].num, n) in files;
    OneTransferVerdict(files, m.Keys, n);
    assert (forall k | 1 <= k <= n :: Name(k, n) in m.Keys) <==> forall k | 1 <= k <= n :: Covers(us, k) by {
      assert forall k | 1 <= k <= n :: Name(k, n) in m.Keys <==> Covers(us, k);
    }
    if Verdict(files) == Success {
      assert files[0] in m;
      SuccessIff(files);
      PlacedAreContents(m, files, n, n);
      SameContents(m, pieces, n);
    }
  }

  lemma {:induction false} SameContents(m: map<Name, seq<byte>>, pieces: seq<seq<byte>>, k: nat)
    requires k <= |pieces| && forall i | 1 <= i <= k :: Name(i, |pieces|) in m
    requires forall f | f in m :: f.len == |pieces| && 1 <= f.num <= |pieces| && m[f] == pieces[f.num - 1]
    ensures Contents(m, |pieces|, k) == pieces[..k] && (k == |pieces| ==> pieces[..k] == pieces)
  {
    if k > 0 {
      SameContents(m, pieces, k - 1);
    }
  }

  // ---- downlinking ----

  function Payloads(sent: seq<ChunkPacket>): seq<seq<byte>> {
    if sent == [] then [] else Payloads(sent[..|sent| - 1]) + [sent[|sent| - 1].data]
  }

  lemma {:induction false} PayloadsAt(sent: seq<ChunkPacket>, pieces: seq<seq<byte>>)
    requires |sent| == |pieces| && forall i | 0 <= i < |sent| :: sent[i].data == pieces[i]
    ensures Payloads(sent) == pieces
    decreases |sent|
  {
    if sent != [] {
      PayloadsAt(sent[..|sent| - 1], pieces[..|pieces| - 1]);
    }
  }

  /** The listing of the directory after a disassembly into an empty one. */
  lemma ListingOfNumbered(files: seq<Name>, pieces: seq<seq<byte>>)
    requires Listing(files, Numbered(pieces, |pieces|).Keys)
    ensures files == [] <==> pieces == []
    ensures files != [] ==> files[0].len == |pieces| && files[0].num <= |pieces|
  {
    var n := |pieces|;
    if files != [] {
      assert files[0] in Numbered(pieces, n).Keys;
    }
    if pieces != [] {
      assert Name(n, n) in Numbered(pieces, n).Keys;
    }
  }

  /** Disassemble a file and request all of it. The listing may be any that the directory allows. */
  method AutoDownlinkFile(s: Staging, file: seq<byte>, chunkSize: nat, digest: seq<byte> -> seq<byte>,
                          list: set<Name> -> seq<Name>)
    returns (sent: seq<ChunkPacket>, failed: bool)
    requires s.chunks == map[] && chunkSize < HALF_WORD
    requires forall names: set<Name> :: Listing(list(names), names)
    modifies s
    ensures !failed <==>
              && chunkSize > 0 && file != [] && Ceil(|file|, chunkSize) < HALF_WORD
              && (chunkSize <= LONGEST_CHUNK || |file| <= LONGEST_CHUNK)
    ensures !failed ==>
              && |sent| == Ceil(|file|, chunkSize) && Join(Payloads(sent)) == file
              && forall i | 0 <= i < |sent| ::
                   && sent[i].num == i + 1 && sent[i].len == |sent| && sent[i].hash == digest(file)
                   && 1 <= |sent[i].data| <= chunkSize
  {
    hide Join, Payloads, Cut, Ceil, Sends, Numbered, Deliverable;
    var _ := s.DisassembleFile(file, chunkSize, digest);
    ghost var pieces := if chunkSize == 0 then [] else Cut(file, chunkSize);
    assert s.chunks == Numbered(pieces, |pieces|) by {
      NoneNumbered(0);
    }
    var files := list(s.chunks.Keys);
    ListingOfNumbered(files, pieces);
    sent, failed := s.RequestFile(files, true, 0, 0);
    if chunkSize > 0 && file != [] {
      CutCount(file, chunkSize);
      LongSequence(s.chunks, s.hash, 1 + |sent|, |pieces|);
      AllOrNothingSent(s.chunks, s.hash, file, chunkSize, sent);
    }
  }

  lemma LongSequence(chunks: map<Name, seq<byte>>, hash: Option<seq<byte>>, k: nat, n: nat)
    ensures n >= HALF_WORD ==> !Deliverable(chunks, hash, k, n)
  {}

  /** The packets of the pieces of a file: none, or all of them when all fit and no chunk that could be sent was left
      out. */
  lemma AllOrNothingSent(chunks: map<Name, seq<byte>>, hash: Option<seq<byte>>, file: seq<byte>, size: nat,
                         sent: seq<ChunkPacket>)
    requires size > 0 && file != [] && chunks == Numbered(Cut(file, size), |Cut(file, size)|) && hash.Some?
    requires var n := |Cut(file, size)|;
             && Sends(chunks, hash, sent, 1, n) && |sent| <= n
             && (|sent| < n ==> !Deliverable(chunks, hash, 1 + |sent|, n))
    ensures var n := |Cut(file, size)|;
            |sent| == n <==> n < HALF_WORD && (size <= LONGEST_CHUNK || |file| <= LONGEST_CHUNK)
    ensures |sent| == |Cut(file, size)| ==>
              && Join(Payloads(sent)) == file
              && forall i | 0 <= i < |sent| ::
                   && sent[i].num == i + 1 && sent[i].len == |sent| && sent[i].hash == hash.value
                   && 1 <= |sent[i].data| <= size
  {
    var pieces := Cut(file, size);
    forall i | 0 <= i < |pieces|
      ensures 1 <= |pieces[i]| <= size
    {
      CutSizes(file, size, i);
    }
    FirstPiece(file, size);
    CutJoins(file, size);
    WhatIsSent(chunks, hash, pieces, sent);
    hide Join, Payloads, Cut, Sends, Numbered, Deliverable;
    if |sent| == |pieces| {
      PayloadsAt(sent, pieces);
    }
  }

  /** The first piece is the longest. */
  lemma FirstPiece(file: seq<byte>, size: nat)
    requires size > 0 && file != []
    ensures var pieces := Cut(file, size);
            pieces != [] && |pieces[0]| == (if |file| <= size then |file| else size)
    ensures |file| <= size ==> |Cut(file, size)| == 1
  {}

  /** A file that meets every other condition, in one chunk that does not fit the telemetry packet. */
  method LongChunkFails(s: Staging, file: seq<byte>, digest: seq<byte> -> seq<byte>, list: set<Name> -> seq<Name>)
    returns (sent: seq<ChunkPacket>, failed: bool)
    requires s.chunks == map[] && |file| == 65520 && forall names: set<Name> :: Listing(list(names), names)
    modifies s
    ensures failed && Ceil(|file|, 65520) == 1
  {
    FirstPiece(file, 65520);
    CutCount(file, 65520);
    sent, failed := AutoDownlinkFile(s, file, 65520, digest, list);
  }

  lemma WhatIsSent(chunks: map<Name, seq<byte>>, hash: Option<seq<byte>>, pieces: seq<seq<byte>>,
                   sent: seq<ChunkPacket>)
    requires chunks == Numbered(pieces, |pieces|) && hash.Some?
    requires Sends(chunks, hash, sent, 1, |pieces|) && |sent| <= |pieces|
    ensures forall i | 0 <= i < |sent| :: sent[i] == ChunkPacket(hash.value, i + 1, |pieces|, pieces[i])
    ensures |pieces| < HALF_WORD && (forall i | 0 <= i < |pieces| :: |pieces[i]| <= LONGEST_CHUNK) ==>
              forall k | 1 <= k <= |pieces| :: Deliverable(chunks, hash, k, |pieces|)
    ensures sent != [] ==> |pieces| < HALF_WORD && |pieces[0]| <= LONGEST_CHUNK
  {
    hide Numbered;
    forall i | 0 <= i < |sent|
      ensures sent[i] == ChunkPacket(hash.value, i + 1, |pieces|, pieces[i]) && |pieces| < HALF_WORD
    {
      assert IsChunk(chunks, hash, sent[i], 1 + i, |pieces|);
    }
    if sent != [] {
      assert IsChunk(chunks, hash, sent[0], 1, |pieces|);
    }
  }

  // ---- down and up again ----

  /** An uplink of a chunk packet as it was received. */
  function Returned(p: ChunkPacket): Uplink { Uplink(p.num, p.len, |p.data|, p.data) }

  function ReturnedInOrder(sent: seq<ChunkPacket>, order: seq<nat>): (us: seq<Uplink>)
    requires forall j | 0 <= j < |order| :: order[j] < |sent|
    ensures |us| == |order| && forall j | 0 <= j < |order| :: us[j] == Returned(sent[order[j]])
  {
    seq(|order|, j requires 0 <= j < |order| => Returned(sent[order[j]]))
  }

  /** All packets of a downlinked file, returned in any order and with any repeats, assemble to the file. */
  lemma RoundTrip(file: seq<byte>, chunkSize: nat, sent: seq<ChunkPacket>, order: seq<nat>, files: seq<Name>)
    requires chunkSize > 0 && file != [] && |sent| == |Cut(file, chunkSize)| < HALF_WORD
    requires forall i | 0 <= i < |sent| ::
               sent[i].num == i + 1 && sent[i].len == |sent| && sent[i].data == Cut(file, chunkSize)[i]
    requires (forall j | 0 <= j < |order| :: order[j] < |sent|) && forall i | 0 <= i < |sent| :: i in order
    requires Listing(files, StageAll(map[], ReturnedInOrder(sent, order)).Keys)
    ensures var m := StageAll(map[], ReturnedInOrder(sent, order));
            && files != [] && (forall f | f in files :: f in m)
            && Verdict(files) == Success && files[0].len <= |files| && Join(Placed(m, files, files[0].len)) == file
  {
    hide Join, Placed, Verdict, StageAll, Cut, Listing, Numbered;
    var us, pieces := ReturnedInOrder(sent, order), Cut(file, chunkSize);
    forall u | u in us ensures Carries(u, pieces) {
      var j :| 0 <= j < |us| && u == us[j];
    }
    forall k | 1 <= k <= |pieces| ensures Covers(us, k) {
      assert k - 1 in order;
      var j :| 0 <= j < |order| && order[j] == k - 1;
      assert us[j].num == k;
    }
    assert us != [] by { assert 0 in order; }
    AnyOrder(us, pieces, files);
    CutJoins(file, chunkSize);
  }
}
