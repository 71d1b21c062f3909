/** File transfer through a staging directory: commandhandler/filehandling.py. The directory is a map from
    chunk names to bytes; a name is the pair of numbers in "<seq_num>_<seq_len>.chunk". */
module FileTransfer {
  import opened Basics

  datatype Name = Name(num: nat, len: nat)

  /** What assembly reports: success, a file error with its flag, or an unforeseen exception. */
  datatype Outcome = Success | FileError(flag: int, missing: seq<nat>) | Exception

  const FL_ERR_EMPTY_DIR := 0x01
  const FL_ERR_FILE_NAME := 0x02
  const FL_ERR_SEQ_LEN := 0x03
  const FL_ERR_MISSING_CHUNK := 0x04

  const HALF_WORD := 0x10000
  const CHUNK_OVERHEAD := 24  // transfer, hash, number, sequence length and size
  const LONGEST_CHUNK := HALF_WORD - 1 - CHUNK_OVERHEAD

  datatype ChunkPacket = ChunkPacket(hash: seq<byte>, num: nat, len: nat, data: seq<byte>)

  // ---- names ----

  /** The name pattern: one to five digits each. */
  predicate NameOk(n: Name) { n.num < 100000 && n.len < 100000 }

  /** The directory listing, sorted by the first number; names that share it come in any order. */
  ghost predicate Listing(files: seq<Name>, names: set<Name>) {
    && (forall f :: f in files <==> f in names)
    && (forall i, j | 0 <= i < j < |files| :: files[i] != files[j] && files[i].num <= files[j].num)
  }

  // ---- cutting a file ----

  /** The pieces of a file: full ones, and the rest. */
  function Cut(file: seq<byte>, size: nat): (pieces: seq<seq<byte>>)
    requires size > 0
    ensures file == [] <==> pieces == []
  {
    if file == [] then [] else if |file| <= size then [file] else [file[..size]] + Cut(file[size..], size)
  }

  function Ceil(a: nat, b: nat): nat requires b > 0 { if a % b == 0 then a / b else a / b + 1 }

  /** Pieces under the names 1_n, 2_n, ... */
  function Numbered(pieces: seq<seq<byte>>, n: nat): (m: map<Name, seq<byte>>)
    ensures forall k :: k in m <==> k.len == n && 1 <= k.num <= |pieces|
    ensures forall k | k in m :: m[k] == pieces[k.num - 1]
  {
    if pieces == [] then map[]
    else Numbered(pieces[..|pieces| - 1], n)[Name(|pieces|, n) := pieces[|pieces| - 1]]
  }

  function Join(pieces: seq<seq<byte>>): seq<byte> {
    if pieces == [] then [] else Join(pieces[..|pieces| - 1]) + pieces[|pieces| - 1]
  }

  lemma CutCount(file: seq<byte>, size: nat)
    requires size > 0
    ensures |Cut(file, size)| == Ceil(|file|, size)
    decreases |file|
  {
    if |file| > size {
      CutCount(file[size..], size);
      CeilStep(|file|, size);
    } else if |file| == size {
      assert size / size == 1;
    }
  }

  lemma CeilStep(a: nat, b: nat)
    requires a > b > 0
    ensures Ceil(a, b) == Ceil(a - b, b) + 1
  {
    var q, r := (a - b) / b, (a - b) % b;
    assert a - b == b * q + r;
    Quotient(a, b, q + 1, r) by {
      assert b * (q + 1) == b * q + b;
    }
  }

  lemma CutStep(done: seq<seq<byte>>, rest: seq<byte>, size: nat)
    requires size > 0 && |rest| > size
    ensures done + Cut(rest, size) == (done + [rest[..size]]) + Cut(rest[size..], size)
  {}

  // ---- the staging directory ----

  class Staging {
    var chunks: map<Name, seq<byte>>
    var hash: Option<seq<byte>>

    constructor ()
      ensures chunks == map[] && hash == None
    {
      chunks, hash := map[], None;
    }

    /** Cut a file into chunk files. The count of the telemetry, or None for an exception: of a chunk size of 0, or of
        a count that does not fit into the telemetry, with all chunk files written. */
    method DisassembleFile(file: seq<byte>, chunkSize: nat, digest: seq<byte> -> seq<byte>)
      returns (reported: Option<nat>)
      modifies this
      ensures hash == Some(digest(file))
      ensures chunkSize == 0 ==> reported == None && chunks == old(chunks)
      ensures chunkSize > 0 ==>
                var pieces := Cut(file, chunkSize);
                && chunks == old(chunks) + Numbered(pieces, |pieces|)
                && reported == if file == [] then Some(1) else if |pieces| < HALF_WORD then Some(|pieces|) else None
    {
      hash := Some(digest(file));
      if chunkSize == 0 {
        return None;
      }
      hide Cut, Ceil, Numbered;
      var fileLen, rest := |file|, file;
      var seqLen := Ceil(fileLen, chunkSize);
      var seqNum: nat := 1;
      ghost var done: seq<seq<byte>> := [];
      CutCount(file, chunkSize);
      NoneNumbered(seqLen);
      assert old(chunks) + map[] == chunks;
      while seqNum * chunkSize < fileLen
        invariant seqNum >= 1 && |done| == seqNum - 1 && done + Cut(rest, chunkSize) == Cut(file, chunkSize)
        invariant |rest| == fileLen - (seqNum - 1) * chunkSize
        invariant chunks == old(chunks) + Numbered(done, seqLen)
        invariant hash == Some(digest(file))
        invariant file != [] ==> rest != []
        decreases |rest|
      {
        Next(seqNum, chunkSize);
        var chunkData := rest[..chunkSize];
        CutStep(done, rest, chunkSize);
        done := done + [chunkData];
        rest := rest[chunkSize..];
        chunks := chunks[Name(seqNum, seqLen) := chunkData];
        NumberedSnoc(old(chunks), done[..|done| - 1], seqLen, chunkData);
        seqNum := seqNum + 1;
      }
      Next(seqNum, chunkSize);
      LastPiece(rest, chunkSize);
      if (seqNum - 1) * chunkSize < fileLen {
        var chunkDataLen := fileLen - (seqNum - 1) * chunkSize;
        var chunkData := rest[..chunkDataLen];
        assert chunkData == rest;
        chunks := chunks[Name(seqNum, seqLen) := chunkData];
        NumberedSnoc(old(chunks), done, seqLen, chunkData);
      }
      return if seqNum < HALF_WORD then Some(seqNum) else None;
    }

    /** Send the requested chunks; `failed` when an exception ends it early. */
    method RequestFile(files: seq<Name>, allFlag: bool, start: nat, count: nat)
      returns (sent: seq<ChunkPacket>, failed: bool)
      requires Listing(files, chunks.Keys)
      ensures var n := if files == [] then 0 else files[0].len;
              var from, many := if allFlag then 1 else start, if allFlag then n else count;
              && Sends(chunks, hash, sent, from, n) && |sent| <= many
              && (!failed <==> files != [] && NameOk(files[0]) && from + many - 1 <= n && hash.Some? && |sent| == many)
              && (files == [] || !NameOk(files[0]) || from + many - 1 > n || hash.None? ==> sent == [])
              && (failed && files != [] && NameOk(files[0]) && from + many - 1 <= n && hash.Some? ==>
                    |sent| < many && !Deliverable(chunks, hash, from + |sent|, n))
    {
      sent := [];
      if files == [] {
        return sent, true;
      }
      if !NameOk(files[0]) {
        return sent, true;
      }
      var seqLen := files[0].len;
      var chunkStart, numChunks := start, count;
      if allFlag {
        chunkStart := 1;
        numChunks := seqLen;
      }
      if chunkStart + numChunks > seqLen + 1 {
        return sent, true;
      }
      if hash.None? {
        return sent, true;
      }
      for i := chunkStart to chunkStart + numChunks
        invariant |sent| == i - chunkStart && Sends(chunks, hash, sent, chunkStart, seqLen)
      {
        var name := Name(i, seqLen);
        if name !in chunks {
          return sent, true;
        }
        var packet := ChunkPacket(hash.value, i, seqLen, chunks[name]);
        if !Packable(packet) {
          return sent, true;
        }
        SendsSnoc(chunks, hash, sent, chunkStart, seqLen, packet);
        sent := sent + [packet];
      }
      return sent, false;
    }

    /** Stage one chunk; false for a sequence number beyond the sequence length. */
    method UplinkFile(seqNum: nat, seqLen: nat, chunkLen: nat, payload: seq<byte>) returns (ok: bool)
      modifies this`chunks
      ensures ok <==> seqNum <= seqLen
      ensures ok ==>
                && Name(seqNum, seqLen) in chunks && chunks[Name(seqNum, seqLen)] <= payload
                && |chunks[Name(seqNum, seqLen)]| == if chunkLen < |payload| then chunkLen else |payload|
      ensures forall name | name != Name(seqNum, seqLen) || !ok ::
                (name in chunks <==> name in old(chunks)) && (name in chunks ==> chunks[name] == old(chunks)[name])
      ensures chunks == Staged(old(chunks), Uplink(seqNum, seqLen, chunkLen, payload))
    {
      var chunkData := payload;
      if chunkLen < |payload| {
        chunkData := payload[..chunkLen];
      }
      if seqNum > seqLen {
        return false;
      }
      chunks := chunks[Name(seqNum, seqLen) := chunkData];
      return true;
    }

    /** Put the chunks together, in the order of the listing. */
    method AssembleFile(files: seq<Name>) returns (outcome: Outcome, outFile: seq<byte>)
      requires Listing(files, chunks.Keys)
      ensures files == [] ==> outcome == FileError(FL_ERR_EMPTY_DIR, [])
      ensures files != [] ==> outcome == Verdict(files)
      ensures outcome == Success ==> outFile == Join(Placed(chunks, files, files[0].len))
    {
      hide Placed, Join, Misplaced;
      var missingChunks: seq<nat> := [];
      outFile := [];
      if files == [] {
        return FileError(FL_ERR_EMPTY_DIR, []), outFile;
      }
      var seqLenAll := files[0].len;
      NothingPlaced(chunks, files);
      for i := 0 to seqLenAll
        invariant i <= |files| && Sound(files, i)
        invariant missingChunks == Misplaced(files, i)
        invariant outFile == Join(Placed(chunks, files, i))
      {
        if i >= |files| {
          return Exception, outFile;
        }
        PlacedSnoc(chunks, files, i);
        if !NameOk(files[i]) {
          FaultAt(files, i);
          return FileError(FL_ERR_FILE_NAME, missingChunks), outFile;
        }
        var seqNum, seqLen := files[i].num, files[i].len;
        if seqLen != seqLenAll {
          FaultAt(files, i);
          return FileError(FL_ERR_SEQ_LEN, missingChunks), outFile;
        }
        if seqNum != i + 1 {
          missingChunks := missingChunks + [i];
        } else {
          outFile := outFile + chunks[files[i]];
        }
      }
      if missingChunks != [] {
        return FileError(FL_ERR_MISSING_CHUNK, missingChunks), outFile;
      }
      return Success, outFile;
    }
  }

  lemma Next(k: nat, size: nat)
    requires k >= 1
    ensures k * size == (k - 1) * size + size
  {}

  lemma NoneNumbered(n: nat)
    ensures Numbered([], n) == map[]
  {}

  lemma LastPiece(rest: seq<byte>, size: nat)
    requires size > 0 && |rest| <= size
    ensures Cut(rest, size) == if rest == [] then [] else [rest]
  {}

  lemma NumberedSnoc(before: map<Name, seq<byte>>, pieces: seq<seq<byte>>, n: nat, piece: seq<byte>)
    ensures (before + Numbered(pieces, n))[Name(|pieces| + 1, n) := piece] == before + Numbered(pieces + [piece], n)
  {
    assert (pieces + [piece])[..|pieces|] == pieces;
  }

  /** What fits the two-byte fields of a chunk packet, and the two-byte size of the telemetry packet around it. */
  predicate Packable(p: ChunkPacket) { p.num < HALF_WORD && p.len < HALF_WORD && |p.data| <= LONGEST_CHUNK }

  /** Chunk k of n can be sent: it is staged, and it fits the packet. */
  predicate Deliverable(chunks: map<Name, seq<byte>>, hash: Option<seq<byte>>, k: nat, n: nat) {
    hash.Some? && Name(k, n) in chunks && Packable(ChunkPacket(hash.value, k, n, chunks[Name(k, n)]))
  }

  predicate IsChunk(chunks: map<Name, seq<byte>>, hash: Option<seq<byte>>, p: ChunkPacket, k: nat, n: nat) {
    Deliverable(chunks, hash, k, n) && p == ChunkPacket(hash.value, k, n, chunks[Name(k, n)])
  }

  /** The packets are the chunks from `from` on, in order. */
  predicate Sends(chunks: map<Name, seq<byte>>, hash: Option<seq<byte>>, sent: seq<ChunkPacket>, from: nat, n: nat) {
    forall i | 0 <= i < |sent| :: IsChunk(chunks, hash, sent[i], from + i, n)
  }

  lemma SendsSnoc(chunks: map<Name, seq<byte>>, hash: Option<seq<byte>>, sent: seq<ChunkPacket>, from: nat, n: nat,
                  p: ChunkPacket)
    requires Sends(chunks, hash, sent, from, n) && IsChunk(chunks, hash, p, from + |sent|, n)
    ensures Sends(chunks, hash, sent + [p], from, n)
  {
    hide IsChunk;
  }

  datatype Uplink = Uplink(num: nat, len: nat, chunkLen: nat, payload: seq<byte>)

  /** The data of an uplink packet: as much of its payload as it says. */
  function DataOf(u: Uplink): seq<byte> { if u.chunkLen < |u.payload| then u.payload[..u.chunkLen] else u.payload }

  function Staged(chunks: map<Name, seq<byte>>, u: Uplink): map<Name, seq<byte>> {
    if u.num > u.len then chunks else chunks[Name(u.num, u.len) := DataOf(u)]
  }

  // ---- what assembly finds ----

  /** The first k names are well formed and share the length of the first. */
  predicate Sound(files: seq<Name>, k: nat) {
    k <= |files| && forall i | 0 <= i < k :: NameOk(files[i]) && files[i].len == files[0].len
  }

  /** The places among the first k, counted from 0, where another number is found. */
  function Misplaced(files: seq<Name>, k: nat): seq<nat> requires k <= |files| {
    if k == 0 then [] else Misplaced(files, k - 1) + if files[k - 1].num != k then [k - 1] else []
  }

  /** The data of the names among the first k that are in their place. */
  function Placed(chunks: map<Name, seq<byte>>, files: seq<Name>, k: nat): seq<seq<byte>>
    requires k <= |files| && forall f | f in files :: f in chunks
  {
    if k == 0 then [] else Placed(chunks, files, k - 1) + if files[k - 1].num == k then [chunks[files[k - 1]]] else []
  }

  lemma NothingPlaced(chunks: map<Name, seq<byte>>, files: seq<Name>)
    requires forall f | f in files :: f in chunks
    ensures Misplaced(files, 0) == [] && Placed(chunks, files, 0) == [] && Join([]) == []
  {}

  lemma PlacedSnoc(chunks: map<Name, seq<byte>>, files: seq<Name>, i: nat)
    requires i < |files| && forall f | f in files :: f in chunks
    ensures Misplaced(files, i + 1) == if files[i].num != i + 1 then Misplaced(files, i) + [i] else Misplaced(files, i)
    ensures Join(Placed(chunks, files, i + 1)) ==
            if files[i].num == i + 1 then Join(Placed(chunks, files, i)) + chunks[files[i]]
            else Join(Placed(chunks, files, i))
  {
    var p := Placed(chunks, files, i);
    assert p + [] == p;
    assert (p + [chunks[files[i]]])[..|p|] == p;
  }

  /** How many of the first n names come before the first fault. */
  function SoundUpTo(files: seq<Name>, n: nat): (k: nat)
    ensures k <= n && Sound(files, k)
    ensures k < n ==> k == |files| || !Sound(files, k + 1)
    decreases n
  {
    if n == 0 then 0
    else
      var k := SoundUpTo(files, n - 1);
      if k == n - 1 && k < |files| && NameOk(files[k]) && files[k].len == files[0].len then n else k
  }

  /** The outcome for a directory that is not empty. */
  function Verdict(files: seq<Name>): Outcome requires files != [] {
    var n := files[0].len;
    var k := SoundUpTo(files, n);
    if k < n then
      if k == |files| then Exception
      else FileError(if NameOk(files[k]) then FL_ERR_SEQ_LEN else FL_ERR_FILE_NAME, Misplaced(files, k))
    else if Misplaced(files, n) != [] then FileError(FL_ERR_MISSING_CHUNK, Misplaced(files, n))
    else Success
  }

  lemma FaultAt(files: seq<Name>, i: nat)
    requires i < |files| && Sound(files, i) && !Sound(files, i + 1)
    ensures forall n | n > i :: SoundUpTo(files, n) == i
  {
    forall n: nat | n > i ensures SoundUpTo(files, n) == i {
      var k := SoundUpTo(files, n);
      if k > i {
        assert forall j | 0 <= j < i + 1 :: NameOk(files[j]) && files[j].len == files[0].len;
        assert false;
      }
    }
  }
}
