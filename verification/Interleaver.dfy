/** The block interleaver of fpga/deprecated/interleaver.py: codewords are written as rows and sent by
    columns; deinterleaving undoes it, and spreads a burst of errors over the codewords. */
module Interleaver {
  import opened Basics

  // ---- positions ----

  function Mul(a: nat, b: nat): nat { a * b }

  lemma MulNext(i: nat, w: nat)
    ensures Mul(i + 1, w) == Mul(i, w) + w && Mul(0, w) == 0
  {
    assert (i + 1) * w == i * w + w;
  }

  lemma MulCommutes(a: nat, b: nat)
    ensures Mul(a, b) == Mul(b, a)
  {}

  // ---- frames as matrices ----

  /** Cut into rows of a width; what is left over is dropped. */
  function Rows<T>(s: seq<T>, width: nat): (m: seq<seq<T>>)
    requires width > 0
    ensures Rectangular(m, width)
  {
    if |s| < width then [] else [s[..width]] + Rows(s[width..], width)
  }

  function Flat<T>(m: seq<seq<T>>): seq<T> { if m == [] then [] else m[0] + Flat(m[1..]) }

  predicate Rectangular<T>(m: seq<seq<T>>, width: nat) { forall j | 0 <= j < |m| :: |m[j]| == width }

  function Column<T>(m: seq<seq<T>>, i: nat): (c: seq<T>)
    requires forall j | 0 <= j < |m| :: i < |m[j]|
    ensures |c| == |m| && forall j | 0 <= j < |m| :: c[j] == m[j][i]
  {
    if m == [] then [] else [m[0][i]] + Column(m[1..], i)
  }

  /** The columns of a matrix, as rows. */
  function Transpose<T>(m: seq<seq<T>>, width: nat): (t: seq<seq<T>>)
    requires Rectangular(m, width)
    ensures |t| == width && Rectangular(t, |m|)
    ensures forall i | 0 <= i < width :: t[i] == Column(m, i)
  {
    seq(width, i requires 0 <= i < width => Column(m, i))
  }

  lemma {:induction false} RowsOfFlat<T>(m: seq<seq<T>>, width: nat)
    requires width > 0 && Rectangular(m, width)
    ensures Rows(Flat(m), width) == m
  {
    if m != [] {
      assert Rectangular(m[1..], width);
      RowsOfFlat(m[1..], width);
      assert Flat(m)[..width] == m[0] && Flat(m)[width..] == Flat(m[1..]);
    }
  }

  lemma {:induction false} FlatOfRows<T>(s: seq<T>, width: nat)
    requires width > 0 && |s| % width == 0
    ensures Flat(Rows(s, width)) == s
    ensures |Rows(s, width)| == |s| / width
    decreases |s|
  {
    if |s| == 0 {
      assert 0 / width == 0;
    } else {
      Less(|s|, width);
      FlatOfRows(s[width..], width);
      assert s[..width] + s[width..] == s;
    }
  }

  lemma Less(a: nat, w: nat)
    requires w > 0 && a > 0 && a % w == 0
    ensures a >= w && (a - w) % w == 0 && (a - w) / w == a / w - 1
  {
    var q := a / w;
    assert a == w * q;
    assert q > 0;
    Multiple(w, q);
    Multiple(w, q - 1);
    assert w * (q - 1) == w * q - w;
  }

  lemma Multiple(w: nat, q: nat)
    requires w > 0
    ensures (w * q) % w == 0 && (w * q) / w == q
  {
    var x := w * q;
    assert x == w * (x / w) + x % w;
    Gap(w, q, x / w);
    Gap(w, x / w, q);
  }

  lemma TransposeTwice<T>(m: seq<seq<T>>, width: nat)
    requires Rectangular(m, width)
    ensures Transpose(Transpose(m, width), |m|) == m
  {
    var t := Transpose(m, width);
    var u := Transpose(t, |m|);
    forall j | 0 <= j < |m| ensures u[j] == m[j] {
      assert |u[j]| == |m[j]|;
      forall i | 0 <= i < width ensures u[j][i] == m[j][i] {
        assert t[i] == Column(m, i);
      }
    }
  }

  // ---- one frame ----

  /** Codewords of col symbols, sent by columns. */
  function InterleaveFrame<T>(frame: seq<T>, col: nat): seq<T>
    requires col > 0
  {
    Flat(Transpose(Rows(frame, col), col))
  }

  /** The inverse: the rows of what arrives are the columns of the codewords. */
  function DeinterleaveFrame<T>(frame: seq<T>, col: nat): seq<T>
    requires col > 0
  {
    if |frame| / col == 0 then [] else Flat(Transpose(Rows(frame, |frame| / col), |frame| / col))
  }

  lemma {:induction false} FlatLength<T>(m: seq<seq<T>>, width: nat)
    requires Rectangular(m, width)
    ensures |Flat(m)| == Mul(|m|, width)
  {
    hide Mul;
    if m == [] {
      MulNext(0, width);
    } else {
      assert Rectangular(m[1..], width);
      hide Rectangular;
      FlatLength(m[1..], width);
      MulNext(|m| - 1, width);
    }
  }

  lemma LengthIsProduct(a: nat, w: nat)
    requires w > 0 && a % w == 0
    ensures a == Mul(a / w, w)
  {}

  /** Deinterleaving an interleaved frame gives the frame. */
  lemma FrameRoundTrip<T>(frame: seq<T>, col: nat)
    requires col > 0 && |frame| % col == 0
    ensures |InterleaveFrame(frame, col)| == |frame|
    ensures DeinterleaveFrame(InterleaveFrame(frame, col), col) == frame
  {
    hide Flat, Rows, Transpose, Mul;
    var m := Rows(frame, col);
    var t := Transpose(m, col);
    FlatOfRows(frame, col);
    FlatLength(m, col);
    FlatLength(t, |m|);
    MulCommutes(|m|, col);
    LengthIsProduct(|frame|, col);
    var rows := |frame| / col;
    if rows == 0 {
      assert frame == [];
    } else {
      RowsOfFlat(t, rows);
      TransposeTwice(m, col);
    }
  }

  // ---- the loops ----

  /** Row i of the list of codewords. */
  lemma {:induction false} RowAt<T>(s: seq<T>, width: nat, i: nat)
    requires width > 0 && i < |Rows(s, width)|
    ensures Mul(i, width) + width <= |s| && Rows(s, width)[i] == s[Mul(i, width)..Mul(i, width) + width]
    decreases i
  {
    hide Mul;
    if i == 0 {
      MulNext(0, width);
    } else {
      RowAt(s[width..], width, i - 1);
      MulNext(i - 1, width);
      var p := Mul(i - 1, width);
      assert s[width..][p..p + width] == s[p + width..p + width + width];
    }
  }

  lemma FlatSnoc<T>(m: seq<seq<T>>, r: seq<T>)
    ensures Flat(m + [r]) == Flat(m) + r
  {
    if m == [] {
      assert m + [r] == [r] && Flat([r]) == r + Flat([]);
    } else {
      assert (m + [r])[1..] == m[1..] + [r];
      FlatSnoc(m[1..], r);
    }
  }

  /** Cut a frame into codewords, one slice at a time. */
  method Codewords<T>(frame: seq<T>, width: nat, count: nat) returns (codeword: seq<seq<T>>)
    requires width > 0 && count == |Rows(frame, width)|
    ensures codeword == Rows(frame, width)
  {
    codeword := [];
    hide Rows, Mul;
    for i := 0 to count
      invariant codeword == Rows(frame, width)[..i]
    {
      RowAt(frame, width, i);
      MulNext(i, width);
      codeword := codeword + [frame[Mul(i, width)..Mul(i + 1, width)]];
    }
  }

  /** Read one column. */
  method ReadColumn<T>(codeword: seq<seq<T>>, width: nat, i: nat, before: seq<T>) returns (out: seq<T>)
    requires Rectangular(codeword, width) && i < width
    ensures out == before + Column(codeword, i)
  {
    hide Column;
    out := before;
    for j := 0 to |codeword|
      invariant out == before + Column(codeword, i)[..j]
    {
      out := out + [codeword[j][i]];
    }
    assert Column(codeword, i)[..|codeword|] == Column(codeword, i);
  }

  /** Read a matrix by columns. */
  method ByColumns<T>(codeword: seq<seq<T>>, width: nat) returns (out: seq<T>)
    requires Rectangular(codeword, width)
    ensures out == Flat(Transpose(codeword, width))
  {
    hide Flat, Transpose, Column;
    out := [];
    ghost var t := Transpose(codeword, width);
    FlatOfNone<T>();
    assert t[..0] == [];
    for i := 0 to width
      invariant out == Flat(t[..i])
    {
      ghost var before := out;
      out := ReadColumn(codeword, width, i, out);
      FlatSnoc(t[..i], t[i]);
      assert t[..i + 1] == t[..i] + [t[i]];
    }
    assert t[..width] == t;
  }

  lemma FlatOfNone<T>()
    ensures Flat<T>([]) == []
  {}

  function AllInterleaved<T>(frames: seq<seq<T>>, col: nat): seq<seq<T>>
    requires col > 0
  {
    if frames == [] then []
    else AllInterleaved(frames[..|frames| - 1], col) + [InterleaveFrame(frames[|frames| - 1], col)]
  }

  function AllDeinterleaved<T>(frames: seq<seq<T>>, col: nat): seq<T>
    requires col > 0
  {
    if frames == [] then []
    else AllDeinterleaved(frames[..|frames| - 1], col) + DeinterleaveFrame(frames[|frames| - 1], col)
  }

  /** What both directions demand: whole frames, of whole codewords. */
  predicate WellSized(length: nat, dataPerFrame: nat, col: nat) requires col > 0 {
    dataPerFrame > 0 && length % dataPerFrame == 0 && (length > 0 ==> dataPerFrame % col == 0)
  }

  /** Interleave frame by frame; None for a length that is not of whole frames, or frames not of whole codewords. */
  method IntrlvData<T>(data: seq<T>, dataPerFrame: nat, n: nat) returns (frames: Option<seq<seq<T>>>)
    requires n > 0
    ensures frames == if WellSized(|data|, dataPerFrame, n) then Some(AllInterleaved(Rows(data, dataPerFrame), n))
                      else None
  {
    hide Rows, InterleaveFrame, Mul;
    if dataPerFrame == 0 || |data| % dataPerFrame != 0 {
      return None;
    }
    var numFrames := |data| / dataPerFrame;
    var intrlvdata: seq<seq<T>> := [];
    FlatOfRows(data, dataPerFrame);
    ghost var all := Rows(data, dataPerFrame);
    assert all[..0] == [];
    for count := 0 to numFrames
      invariant intrlvdata == AllInterleaved(all[..count], n)
      invariant count > 0 ==> dataPerFrame % n == 0
    {
      RowAt(data, dataPerFrame, count);
      MulNext(count, dataPerFrame);
      var frame := data[Mul(count, dataPerFrame)..Mul(count + 1, dataPerFrame)];
      if |frame| % n != 0 {
        NotEmpty(|data|, dataPerFrame);
        return None;
      }
      var out := IntrlvFrame(frame, n);
      assert all[..count + 1][..count] == all[..count];
      intrlvdata := intrlvdata + [out];
    }
    assert all[..numFrames] == all;
    if |data| > 0 { NotEmpty(|data|, dataPerFrame); }
    return Some(intrlvdata);
  }

  lemma NotEmpty(a: nat, w: nat)
    requires w > 0 && a % w == 0
    ensures a > 0 <==> a / w > 0
  {
    if a > 0 {
      Less(a, w);
    } else {
      assert 0 / w == 0;
    }
  }

  method IntrlvFrame<T>(frame: seq<T>, col: nat) returns (out: seq<T>)
    requires col > 0 && |frame| % col == 0
    ensures out == InterleaveFrame(frame, col)
  {
    FlatOfRows(frame, col);
    var rows := |frame| / col;
    var codeword := Codewords(frame, col, rows);
    out := ByColumns(codeword, col);
  }

  method DeintrlvFrame<T>(frame: seq<T>, col: nat) returns (out: seq<T>)
    requires col > 0 && |frame| % col == 0
    ensures out == DeinterleaveFrame(frame, col)
  {
    var rows := |frame| / col;
    if rows == 0 {
      return [];
    }
    Swap(|frame|, col);
    FlatOfRows(frame, rows);
    var codeword := Codewords(frame, rows, col);
    out := ByColumns(codeword, rows);
  }

  lemma Swap(a: nat, col: nat)
    requires col > 0 && a % col == 0 && a / col > 0
    ensures a % (a / col) == 0 && a / (a / col) == col
  {
    var rows := a / col;
    assert a == rows * col;
    Multiple(rows, col);
  }

  method DeintrlvData<T>(data: seq<T>, dataPerFrame: nat, n: nat) returns (out: Option<seq<T>>)
    requires n > 0
    ensures out == if WellSized(|data|, dataPerFrame, n) then Some(AllDeinterleaved(Rows(data, dataPerFrame), n))
                   else None
  {
    hide Rows, DeinterleaveFrame, Mul;
    if dataPerFrame == 0 || |data| % dataPerFrame != 0 {
      return None;
    }
    var numFrames := |data| / dataPerFrame;
    var deintrlvdata: seq<T> := [];
    FlatOfRows(data, dataPerFrame);
    ghost var all := Rows(data, dataPerFrame);
    assert all[..0] == [];
    for count := 0 to numFrames
      invariant deintrlvdata == AllDeinterleaved(all[..count], n)
      invariant count > 0 ==> dataPerFrame % n == 0
    {
      RowAt(data, dataPerFrame, count);
      MulNext(count, dataPerFrame);
      var frame := data[Mul(count, dataPerFrame)..Mul(count + 1, dataPerFrame)];
      if |frame| % n != 0 {
        NotEmpty(|data|, dataPerFrame);
        return None;
      }
      var one := DeintrlvFrame(frame, n);
      assert all[..count + 1][..count] == all[..count];
      deintrlvdata := deintrlvdata + one;
    }
    assert all[..numFrames] == all;
    if |data| > 0 { NotEmpty(|data|, dataPerFrame); }
    return Some(deintrlvdata);
  }

  // ---- many frames ----

  lemma {:induction false} FramesRoundTrip<T>(frames: seq<seq<T>>, size: nat, col: nat)
    requires col > 0 && size > 0 && size % col == 0 && Rectangular(frames, size)
    ensures Rectangular(AllInterleaved(frames, col), size)
    ensures AllDeinterleaved(AllInterleaved(frames, col), col) == Flat(frames)
    decreases |frames|
  {
    hide InterleaveFrame, DeinterleaveFrame;
    if frames != [] {
      var n := |frames| - 1;
      FramesRoundTrip(frames[..n], size, col);
      FrameRoundTrip(frames[n], col);
      FlatSnoc(frames[..n], frames[n]);
      assert frames == frames[..n] + [frames[n]];
    }
  }

  /** The theorem: whole frames of whole codewords come back from interleaving, joining and deinterleaving. */
  lemma RoundTrip<T>(data: seq<T>, dataPerFrame: nat, n: nat)
    requires n > 0 && WellSized(|data|, dataPerFrame, n)
    ensures var sent := Flat(AllInterleaved(Rows(data, dataPerFrame), n));
            && |sent| == |data| && WellSized(|sent|, dataPerFrame, n)
            && AllDeinterleaved(Rows(sent, dataPerFrame), n) == data
  {
    hide Flat, Rows, AllInterleaved, AllDeinterleaved;
    var frames := Rows(data, dataPerFrame);
    FlatOfRows(data, dataPerFrame);
    if data == [] {
      assert 0 / dataPerFrame == 0;
      NoFrames<T>(dataPerFrame, n);
    } else {
      FramesRoundTrip(frames, dataPerFrame, n);
      RowsOfFlat(AllInterleaved(frames, n), dataPerFrame);
      SameCount(frames, n);
      FlatLength(AllInterleaved(frames, n), dataPerFrame);
      FlatLength(frames, dataPerFrame);
    }
  }

  lemma {:induction false} SameCount<T>(frames: seq<seq<T>>, col: nat)
    requires col > 0
    ensures |AllInterleaved(frames, col)| == |frames|
  {
    hide InterleaveFrame;
    if frames != [] {
      SameCount(frames[..|frames| - 1], col);
    }
  }

  lemma NoFrames<T>(size: nat, n: nat)
    requires size > 0 && n > 0
    ensures Rows<T>([], size) == [] && AllInterleaved<T>([], n) == [] && Flat<T>([]) == []
    ensures AllDeinterleaved<T>([], n) == []
  {}

  // ---- bursts ----

  /** How many places two equally long words differ in. */
  function Differences<T(==)>(u: seq<T>, v: seq<T>): nat requires |u| == |v| {
    if u == [] then 0 else Differences(u[..|u| - 1], v[..|v| - 1]) + if u[|u| - 1] != v[|v| - 1] then 1 else 0
  }

  lemma {:induction false} NoDifferences<T>(u: seq<T>, v: seq<T>)
    requires |u| == |v| && forall i | 0 <= i < |u| :: u[i] == v[i]
    ensures Differences(u, v) == 0
  {
    if u != [] {
      NoDifferences(u[..|u| - 1], v[..|v| - 1]);
    }
  }

  /** Differences that are less than b apart are at most b. */
  lemma {:induction false} CloseDifferences<T>(u: seq<T>, v: seq<T>, b: nat)
    requires |u| == |v|
    requires forall i, j | 0 <= i <= j < |u| && u[i] != v[i] && u[j] != v[j] :: j - i < b
    ensures Differences(u, v) <= b
    decreases |u|, b
  {
    if u != [] {
      var n := |u| - 1;
      if u[n] == v[n] {
        CloseDifferences(u[..n], v[..n], b);
      } else {
        FarEqual(u, v, b);
      }
    }
  }

  /** When the last place differs, only the last b places can. */
  lemma {:induction false} FarEqual<T>(u: seq<T>, v: seq<T>, b: nat)
    requires |u| == |v| > 0 && u[|u| - 1] != v[|v| - 1]
    requires forall i | 0 <= i < |u| && u[i] != v[i] :: |u| - 1 - i < b
    ensures Differences(u, v) <= b
  {
    TailDifferences(u, v, |u|, b);
  }

  lemma {:induction false} TailDifferences<T>(u: seq<T>, v: seq<T>, k: nat, b: nat)
    requires |u| == |v| && k <= |u|
    requires forall i | 0 <= i < |u| && u[i] != v[i] :: |u| - 1 - i < b
    ensures Differences(u[..k], v[..k]) <= if |u| - k < b then b - (|u| - k) else 0
    ensures k == |u| ==> u[..k] == u && v[..k] == v
  {
    if k > 0 {
      TailDifferences(u, v, k - 1, b);
      assert u[..k][..k - 1] == u[..k - 1] && v[..k][..k - 1] == v[..k - 1];
    }
  }

  /** Codeword r of a received frame. */
  function Received<T>(frame: seq<T>, rows: nat, r: nat): (c: seq<T>)
    requires r < rows
  {
    Column(Rows(frame, rows), r)
  }

  lemma ReceivedAt<T>(frame: seq<T>, rows: nat, r: nat, i: nat)
    requires r < rows && i < |Rows(frame, rows)|
    ensures |Received(frame, rows, r)| == |Rows(frame, rows)| && Mul(i, rows) + r < |frame|
    ensures Received(frame, rows, r)[i] == frame[Mul(i, rows) + r]
  {
    hide Rows, Mul;
    RowAt(frame, rows, i);
    var p := Mul(i, rows);
    assert frame[p..p + rows][r] == frame[p + r];
  }

  /** A burst of rows * b consecutive symbols, anywhere in a frame, damages at most b symbols of any codeword. */
  lemma BurstDispersed<T>(sent: seq<T>, got: seq<T>, rows: nat, b: nat, from: nat, r: nat)
    requires r < rows && |sent| == |got|
    requires forall p | 0 <= p < |sent| && sent[p] != got[p] :: from <= p < from + Mul(rows, b)
    ensures |Received(sent, rows, r)| == |Received(got, rows, r)|
    ensures Differences(Received(sent, rows, r), Received(got, rows, r)) <= b
  {
    hide Rows, Mul, Column, Differences;
    RowCount(sent, got, rows);
    var u, v := Received(sent, rows, r), Received(got, rows, r);
    forall i, j | 0 <= i <= j < |u| && u[i] != v[i] && u[j] != v[j] ensures j - i < b {
      DamageAt(sent, got, rows, b, from, r, i);
      DamageAt(sent, got, rows, b, from, r, j);
      Near(rows, i, j, r, from, b);
    }
    hide Received;
    CloseDifferences(u, v, b);
  }

  lemma DamageAt<T>(sent: seq<T>, got: seq<T>, rows: nat, b: nat, from: nat, r: nat, i: nat)
    requires r < rows && |sent| == |got| && i < |Rows(sent, rows)| == |Rows(got, rows)|
    requires forall p | 0 <= p < |sent| && sent[p] != got[p] :: from <= p < from + Mul(rows, b)
    requires Received(sent, rows, r)[i] != Received(got, rows, r)[i]
    ensures from <= Mul(i, rows) + r < from + Mul(rows, b)
  {
    ReceivedAt(sent, rows, r, i);
    ReceivedAt(got, rows, r, i);
    hide *;
  }

  lemma Near(rows: nat, i: nat, j: nat, r: nat, from: nat, b: nat)
    requires i <= j && from <= Mul(i, rows) + r && Mul(j, rows) + r < from + Mul(rows, b)
    ensures j - i < b
  {
    MulCommutes(rows, b);
    assert (j - i) * rows == j * rows - i * rows;
    if j - i >= b {
      Monotone(b, j - i, rows);
      assert false;
    }
  }

  lemma {:induction false} Monotone(a: nat, b: nat, w: nat)
    requires a <= b
    ensures a * w <= b * w
    decreases b
  {
    if a < b {
      Monotone(a, b - 1, w);
      assert b * w == (b - 1) * w + w;
    }
  }

  lemma {:induction false} RowCount<T>(s: seq<T>, t: seq<T>, width: nat)
    requires width > 0 && |s| == |t|
    ensures |Rows(s, width)| == |Rows(t, width)|
    decreases |s|
  {
    if |s| >= width {
      RowCount(s[width..], t[width..], width);
    }
  }

  /** The received codewords are the codewords that deinterleaving puts out. */
  lemma ReceivedAreRows<T>(frame: seq<T>, col: nat, r: nat)
    requires col > 0 && |frame| % col == 0 && r < |frame| / col
    ensures var out := Rows(DeinterleaveFrame(frame, col), col);
            r < |out| && out[r] == Received(frame, |frame| / col, r)
  {
    hide Rows, Flat;
    var rows := |frame| / col;
    Swap(|frame|, col);
    FlatOfRows(frame, rows);
    RowsOfFlat(Transpose(Rows(frame, rows), rows), col);
  }
}
