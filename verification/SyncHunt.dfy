/** Finding the sync marker in a byte stream: the byte automaton of bus/depacketizer.py and the
    32-bit shift register of bus/driver/driver.c, both against the first occurrence of the marker. */
module SyncHunt {
  import opened Basics

  const SYNC: seq<byte> := [0x35, 0x2E, 0xF8, 0x53]

  /** The marker ends just before position e. */
  predicate MarkerEndsAt(s: seq<byte>, e: nat) {
    4 <= e <= |s| && s[e - 4] == 0x35 && s[e - 3] == 0x2E && s[e - 2] == 0xF8 && s[e - 1] == 0x53
  }

  ghost predicate NoMarker(s: seq<byte>) {
    forall e | 0 <= e <= |s| :: !MarkerEndsAt(s, e)
  }

  lemma NoMarkerInZeros(garbage: seq<byte>)
    requires forall i | 0 <= i < |garbage| :: garbage[i] == 0
    ensures NoMarker(garbage)
  {}

  /** e is the end of the first occurrence of the marker. */
  ghost predicate FirstMarkerEnd(s: seq<byte>, e: nat) {
    MarkerEndsAt(s, e) && forall d | 0 <= d < e :: !MarkerEndsAt(s, d)
  }

  /** The first marker of the stream, from position k on. */
  function Hunt(s: seq<byte>, k: nat): (e: nat)
    requires k <= |s|
    ensures k <= e <= |s| + 1
    ensures e <= |s| ==> MarkerEndsAt(s, e)
    ensures forall d | k <= d < e && d <= |s| :: !MarkerEndsAt(s, d)
    decreases |s| - k
  {
    if MarkerEndsAt(s, k) then k else if k == |s| then |s| + 1 else Hunt(s, k + 1)
  }

  lemma HuntIsFirst(s: seq<byte>, e: nat)
    ensures FirstMarkerEnd(s, e) <==> e == Hunt(s, 0) && e <= |s|
  {}

  /** Bytes behind the first marker do not move it. */
  lemma HuntExtends(s: seq<byte>, more: seq<byte>)
    requires Hunt(s, 0) <= |s|
    ensures Hunt(s + more, 0) == Hunt(s, 0)
  {
    var e := Hunt(s, 0);
    HuntIsFirst(s, e);
    hide Hunt;
    assert forall d | 0 <= d <= |s| :: MarkerEndsAt(s, d) == MarkerEndsAt(s + more, d);
    HuntIsFirst(s + more, e);
  }

  /** How much of the marker the stream up to k ends with, short of all of it. */
  function Progress(s: seq<byte>, k: nat): nat requires k <= |s| {
    if k >= 3 && s[k - 3] == 0x35 && s[k - 2] == 0x2E && s[k - 1] == 0xF8 then 3
    else if k >= 2 && s[k - 2] == 0x35 && s[k - 1] == 0x2E then 2
    else if k >= 1 && s[k - 1] == 0x35 then 1
    else 0
  }

  /** The hunt loop of acquire_bus_pkt: one byte at a time, with an index into the marker. */
  method HuntAutomaton(s: seq<byte>) returns (found: bool, e: nat)
    ensures found <==> exists d :: MarkerEndsAt(s, d)
    ensures found ==> FirstMarkerEnd(s, e)
  {
    var syncIndex := 0;
    e := 0;
    while syncIndex < |SYNC|
      invariant e <= |s| && syncIndex <= 4
      invariant forall d | 0 <= d < e :: !MarkerEndsAt(s, d)
      invariant if syncIndex == 4 then MarkerEndsAt(s, e) else !MarkerEndsAt(s, e) && syncIndex == Progress(s, e)
      decreases |s| - e
    {
      if e == |s| {
        return false, e;
      }
      var b := s[e];
      e := e + 1;
      if b == SYNC[syncIndex] {
        syncIndex := syncIndex + 1;
      } else if b == SYNC[0] {
        syncIndex := 1;
      } else {
        syncIndex := 0;
      }
    }
    found := true;
  }

  const PACKET_SYNC_MARKER := 0x352EF853

  /** The last four bytes up to k, as a big-endian number; missing bytes count as 0. */
  function Window(s: seq<byte>, k: nat): nat requires k <= |s| {
    (if k >= 4 then 0x1000000 * s[k - 4] as int else 0) + (if k >= 3 then 0x10000 * s[k - 3] as int else 0) +
    (if k >= 2 then 0x100 * s[k - 2] as int else 0) + (if k >= 1 then s[k - 1] as int else 0)
  }

  lemma WindowIsMarker(s: seq<byte>, k: nat)
    requires k <= |s|
    ensures Window(s, k) == PACKET_SYNC_MARKER <==> MarkerEndsAt(s, k)
  {}

  /** One more byte is shifted into the window. */
  lemma WindowNext(s: seq<byte>, k: nat)
    requires k < |s|
    ensures Window(s, k + 1) == (Window(s, k) * 0x100 + s[k] as int) % 0x1_0000_0000 && Window(s, 0) == 0
  {}

  /** The hunt of spi_xfer_complete: a 32-bit register that is shifted by every byte. */
  method HuntRegister(s: seq<byte>) returns (found: bool, e: nat)
    ensures found <==> exists d :: MarkerEndsAt(s, d)
    ensures found ==> FirstMarkerEnd(s, e)
  {
    var sync: int := 0;
    e := 0;
    while sync != PACKET_SYNC_MARKER
      invariant e <= |s| && sync == Window(s, e)
      invariant forall d | 0 <= d < e :: !MarkerEndsAt(s, d)
      decreases |s| - e
    {
      WindowIsMarker(s, e);
      if e == |s| {
        return false, e;
      }
      sync := (sync * 0x100 + s[e] as int) % 0x1_0000_0000;
      e := e + 1;
    }
    WindowIsMarker(s, e);
    found := true;
  }

  /** The marker overlaps no shift of itself, so it is found at the end of any marker-free prefix. */
  lemma MarkerAfterGarbage(garbage: seq<byte>, rest: seq<byte>)
    requires NoMarker(garbage)
    ensures FirstMarkerEnd(garbage + SYNC + rest, |garbage| + 4)
  {
    var s := garbage + SYNC + rest;
    var n := |garbage|;
    assert s[n] == 0x35 && s[n + 1] == 0x2E && s[n + 2] == 0xF8 && s[n + 3] == 0x53;
    forall d | 0 <= d < n + 4 ensures !MarkerEndsAt(s, d) {
      if d <= n {
        assert !MarkerEndsAt(garbage, d);
      }
    }
  }
}
