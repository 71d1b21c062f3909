/** The running-sum box blur of pat/processing.cpp, against the plain definition: every pixel becomes
    the rounded mean of the 2r+1 pixels around it, with positions past an end read at that end. */
module FastBlur {
  import opened Basics

  // ---- the plain definition ----

  function ClampIndex(t: int, n: nat): (c: nat) requires n > 0 ensures c < n {
    if t < 0 then 0 else if t >= n then n - 1 else t
  }

  /** The sum of the `count` clamped values that start at position `from`. */
  function WindowSum(v: seq<nat>, from: int, count: nat): nat
    requires |v| > 0
    decreases count
  {
    if count == 0 then 0 else v[ClampIndex(from, |v|)] + WindowSum(v, from + 1, count - 1)
  }

  /** The mean of a sum over d values, rounded to the nearest integer, halves upward. */
  function RoundedMean(sum: nat, d: nat): nat requires d > 0 {
    (2 * sum + d) / (2 * d)
  }

  function BlurredAt(v: seq<nat>, r: nat, j: int): nat requires |v| > 0 {
    RoundedMean(WindowSum(v, j - r, 2 * r + 1), 2 * r + 1)
  }

  // ---- sliding ----

  lemma {:induction false} WindowSnoc(v: seq<nat>, from: int, count: nat)
    requires |v| > 0
    ensures WindowSum(v, from, count + 1) == WindowSum(v, from, count) + v[ClampIndex(from + count, |v|)]
    decreases count
  {
    if count > 0 {
      WindowSnoc(v, from + 1, count - 1);
    }
  }

  /** Moving the window one step adds the value that enters and drops the one that leaves. */
  lemma Slide(v: seq<nat>, from: int, count: nat)
    requires |v| > 0
    ensures WindowSum(v, from + 1, count) + v[ClampIndex(from, |v|)]
         == WindowSum(v, from, count) + v[ClampIndex(from + count, |v|)]
  {
    WindowSnoc(v, from, count);
  }

  lemma {:induction false} WindowSplit(v: seq<nat>, from: int, a: nat, b: nat)
    requires |v| > 0
    ensures WindowSum(v, from, a + b) == WindowSum(v, from, a) + WindowSum(v, from + a, b)
    decreases a
  {
    if a > 0 {
      WindowSplit(v, from + 1, a - 1, b);
    }
  }

  /** Before the first value there are only copies of it. */
  lemma {:induction false} BeforeFirst(v: seq<nat>, from: int, count: nat)
    requires |v| > 0 && from + count <= 1
    ensures WindowSum(v, from, count) == count * v[0]
    decreases count
  {
    if count > 0 {
      BeforeFirst(v, from + 1, count - 1);
      assert count * v[0] == (count - 1) * v[0] + v[0];
    }
  }

  // ---- bounds ----

  lemma {:induction false} WindowBetween(v: seq<nat>, from: int, count: nat, lo: nat, hi: nat)
    requires |v| > 0 && forall k | 0 <= k < |v| :: lo <= v[k] <= hi
    ensures count * lo <= WindowSum(v, from, count) <= count * hi
    decreases count
  {
    if count > 0 {
      WindowBetween(v, from + 1, count - 1, lo, hi);
      assert count * lo == (count - 1) * lo + lo && count * hi == (count - 1) * hi + hi;
    }
  }

  lemma DivBounds(x: nat, d: nat)
    requires d > 0
    ensures d * (x / d) <= x < d * (x / d) + d
  {}

  lemma MeanBetween(sum: nat, d: nat, lo: nat, hi: nat)
    requires d > 0 && d * lo <= sum <= d * hi
    ensures lo <= RoundedMean(sum, d) <= hi
  {
    var m := RoundedMean(sum, d);
    DivBounds(2 * sum + d, 2 * d);
    if m < lo {
      MulMono(m + 1, lo, 2 * d);
      assert false;
    }
    if m > hi {
      MulMono(hi + 1, m, 2 * d);
      assert false;
    }
  }

  /** It is what truncating mean + 0.5 gives. */
  lemma MeanIsTruncation(sum: nat, d: nat)
    requires d > 0
    ensures RoundedMean(sum, d) == (sum as real / d as real + 0.5).Floor
  {
    var q, r, x, e := sum as real, d as real, 2 * sum + d, 2 * d;
    HalfAdded(q, r);
    assert x as real == 2.0 * q + r && e as real == 2.0 * r;
    QuotientFloor(q / r + 0.5, x, e);
  }

  lemma QuotientFloor(y: real, x: nat, e: nat)
    requires e > 0 && y * e as real == x as real
    ensures y.Floor == x / e
  {
    var m := x / e;
    DivBounds(x, e);
    IntProduct(e, m);
    ScaledFloor(y, m, x, e, e * m);
  }

  lemma ScaledFloor(y: real, m: nat, x: nat, e: nat, p: nat)
    requires e > 0 && y * e as real == x as real && e as real * m as real == p as real && p <= x < p + e
    ensures y.Floor == m
  {
    Scaled(y, m, e as real, x as real, p as real);
  }

  lemma HalfAdded(q: real, r: real)
    requires r > 0.0
    ensures (q / r + 0.5) * (2.0 * r) == 2.0 * q + r
  {
    var p := q / r;
    assert p * r == q;
    assert (p + 0.5) * (2.0 * r) == 2.0 * (p * r) + r;
  }

  lemma IntProduct(a: nat, b: nat)
    ensures a as real * b as real == (a * b) as real
  {}

  lemma Scaled(y: real, m: nat, e: real, x: real, p: real)
    requires e > 0.0 && y * e == x && e * m as real == p && p <= x < p + e
    ensures y.Floor == m
  {
    var k := m as real;
    if y < k {
      StrictScale(y, k, e);
      assert false;
    }
    if y >= k + 1.0 {
      Scale(k + 1.0, y, e);
      assert false;
    }
  }

  lemma StrictScale(a: real, b: real, c: real)
    requires c > 0.0 && a < b
    ensures a * c < b * c
  {}

  lemma Scale(a: real, b: real, c: real)
    requires c > 0.0 && a <= b
    ensures a * c <= b * c
  {}

  // ---- one line ----

  /** The positions of a line of pixels: start, start + stride, and so on, inside the image. */
  ghost predicate IsLine(pos: seq<nat>, size: nat, start: nat, stride: nat) {
    && pos != [] && pos[0] == start
    && (forall t | 0 < t < |pos| :: pos[t] == pos[t - 1] + stride)
    && (forall a, b | 0 <= a < b < |pos| :: pos[a] < pos[b])
    && (forall t | 0 <= t < |pos| :: pos[t] < size)
  }

  ghost predicate InImage(positions: seq<nat>, size: nat) {
    forall t | 0 <= t < |positions| :: positions[t] < size
  }

  ghost function Values(pix: seq<nat>, pos: seq<nat>): (v: seq<nat>)
    ensures |v| == |pos|
    requires forall t | 0 <= t < |pos| :: pos[t] < |pix|
  {
    seq(|pos|, t requires 0 <= t < |pos| => pix[pos[t]])
  }

  lemma {:induction false} Stride(pos: seq<nat>, size: nat, start: nat, stride: nat, t: nat)
    requires IsLine(pos, size, start, stride) && t < |pos|
    ensures pos[t] == start + t * stride
  {
    if t > 0 {
      Stride(pos, size, start, stride, t - 1);
      assert t * stride == (t - 1) * stride + stride;
    }
  }

  /** x is the position of pixel j of the line, while there is one. */
  ghost predicate At(pos: seq<nat>, j: int, x: int) {
    0 <= j < |pos| ==> x == pos[j]
  }

  lemma Advance(pos: seq<nat>, size: nat, start: nat, stride: nat, j: nat, x: int)
    requires IsLine(pos, size, start, stride) && j < |pos| && At(pos, j, x)
    ensures 0 <= x < size && At(pos, j + 1, x + stride)
  {}

  lemma LineStarts(pos: seq<nat>, size: nat, start: nat, stride: nat, r: nat)
    requires IsLine(pos, size, start, stride) && r < |pos|
    ensures At(pos, 0, start) && At(pos, r, start + r * stride)
    ensures forall t | 0 <= t < |pos| :: pos[t] < size
  {
    Stride(pos, size, start, stride, r);
  }

  /** The line's blurred values are in temp up to position j. */
  ghost predicate BlurredUpTo(temp: seq<nat>, pos: seq<nat>, v: seq<nat>, r: nat, j: nat)
    requires |v| == |pos| > 0 && j <= |pos| && forall t | 0 <= t < |pos| :: pos[t] < |temp|
  {
    forall t | 0 <= t < j :: temp[pos[t]] == BlurredAt(v, r, t)
  }

  /** Only positions of the line have changed. */
  ghost predicate Untouched(before: seq<nat>, after: seq<nat>, pos: seq<nat>) {
    |before| == |after| && forall k | 0 <= k < |before| && k !in pos :: after[k] == before[k]
  }

  lemma NoneBlurred(temp: seq<nat>, pos: seq<nat>, v: seq<nat>, r: nat)
    requires |v| == |pos| > 0 && forall t | 0 <= t < |pos| :: pos[t] < |temp|
    ensures BlurredUpTo(temp, pos, v, r, 0) && Untouched(temp, temp, pos)
  {}

  lemma OneMoreBlurred(was: seq<nat>, before: seq<nat>, after: seq<nat>, pos: seq<nat>, size: nat, start: nat,
                       stride: nat,                       v: seq<nat>, r: nat, j: nat)
    requires IsLine(pos, size, start, stride) && |v| == |pos| && |before| == size && j < |pos|
    requires BlurredUpTo(before, pos, v, r, j) && Untouched(was, before, pos)
    requires after == before[pos[j] := BlurredAt(v, r, j)]
    ensures BlurredUpTo(after, pos, v, r, j + 1) && Untouched(was, after, pos)
  {}

  /** The window of pixel j from that of pixel j - 1, by the three cases of the source. */
  lemma SlideAt(pix: seq<nat>, pos: seq<nat>, r: nat, j: nat)
    requires (forall t | 0 <= t < |pos| :: pos[t] < |pix|) && j < |pos| && 2 * r < |pos|
    ensures WindowSum(Values(pix, pos), j - r, 2 * r + 1)
         == WindowSum(Values(pix, pos), j - r - 1, 2 * r + 1)
            + pix[pos[if j + r < |pos| then j + r else |pos| - 1]] - pix[pos[if j <= r then 0 else j - r - 1]]
  {
    Slide(Values(pix, pos), j - r - 1, 2 * r + 1);
  }

  /** The window one position before the line, as the source sums it up. */
  method FirstSum(data: array<nat>, start: nat, stride: nat, r: nat, ghost pos: seq<nat>) returns (val: int)
    requires IsLine(pos, data.Length, start, stride) && 2 * r < |pos|
    ensures val == WindowSum(Values(data[..], pos), -1 - r as int, 2 * r + 1)
  {
    ghost var v, first: int := Values(data[..], pos), -1 - r as int;
    var fv := data[start];
    val := (r + 1) * fv;
    BeforeFirst(v, first, r + 1);
    for j := 0 to r
      invariant val == WindowSum(v, first, r + 1) + WindowSum(v, 0, j)
    {
      Stride(pos, data.Length, start, stride, j);
      WindowSnoc(v, 0, j);
      val := val + data[start + j * stride];
    }
    WindowSplit(v, first, r + 1, r);
  }

  /** The state of the running sum before position j: everything earlier in the line is done. */
  ghost predicate Running(was: seq<nat>, temp: seq<nat>, pix: seq<nat>, pos: seq<nat>, r: nat, j: nat, val: int)
  {
    && pos != [] && |temp| == |pix| && j <= |pos| && (forall t | 0 <= t < |pos| :: pos[t] < |pix|)
    && val == WindowSum(Values(pix, pos), j - r - 1, 2 * r + 1)
    && BlurredUpTo(temp, pos, Values(pix, pos), r, j) && Untouched(was, temp, pos)
  }

  /** Writing the mean of the slid sum at position j, which is index x. */
  lemma RunsOn(was: seq<nat>, temp: seq<nat>, pix: seq<nat>, pos: seq<nat>, start: nat, stride: nat,
               r: nat, j: nat, x: int, val: int, val': int)
    requires IsLine(pos, |pix|, start, stride) && j < |pos| && 2 * r < |pos| && At(pos, j, x) && |temp| == |pix|
    requires Running(was, temp, pix, pos, r, j, val)
    requires val' == val + pix[pos[if j + r < |pos| then j + r else |pos| - 1]]
                     - pix[pos[if j <= r then 0 else j - r - 1]]
    ensures val' >= 0 && 0 <= x < |temp|
    ensures Running(was, temp[x := RoundedMean(val', 2 * r + 1)], pix, pos, r, j + 1, val')
  {
    var v := Values(pix, pos);
    SlideAt(pix, pos, r, j);
    assert x == pos[j] && val' == WindowSum(v, j - r, 2 * r + 1);
    hide WindowSum, RoundedMean;
    var after := temp[x := RoundedMean(val', 2 * r + 1)];
    OneMoreBlurred(was, temp, after, pos, |pix|, start, stride, v, r, j);
    hide IsLine, Untouched, BlurredUpTo, Values;
  }

  /** The first run: the leaving value is the line's first. */
  method FrontRun(data: array<nat>, temp: array<nat>, start: nat, stride: nat, n: nat, r: nat, fv: nat,
                  val0: int, ti0: int, ri0: int, ghost pos: seq<nat>, ghost pix: seq<nat>, ghost was: seq<nat>)
    returns (val: int, ti: int, ri: int)
    requires data != temp && data.Length == temp.Length
    requires |pos| == n && IsLine(pos, data.Length, start, stride) && n >= 2 * r + 1
    requires InImage(pos, |pix|) && pix == data[..] && fv == pix[pos[0]]
    requires At(pos, 0, ti0) && At(pos, r, ri0) && Running(was, temp[..], pix, pos, r, 0, val0)
    modifies temp
    ensures At(pos, r + 1, ti) && At(pos, 2 * r + 1, ri) && Running(was, temp[..], pix, pos, r, r + 1, val)
  {
    hide WindowSum, RoundedMean, Running, IsLine;
    val, ti, ri := val0, ti0, ri0;
    for j := 0 to r + 1
      invariant At(pos, j, ti) && At(pos, j + r, ri)
      invariant Running(was, temp[..], pix, pos, r, j, val)
    {
      ghost var before, val1 := temp[..], val;
      Advance(pos, data.Length, start, stride, j, ti);
      Advance(pos, data.Length, start, stride, j + r, ri);
      val := val + data[ri] - fv;
      RunsOn(was, before, pix, pos, start, stride, r, j, ti, val1, val);
      temp[ti] := RoundedMean(val, 2 * r + 1);
      assert temp[..] == before[ti := temp[ti]];
      ri, ti := ri + stride, ti + stride;
    }
  }

  /** The middle run: both ends of the window move inside the line. */
  method MiddleRun(data: array<nat>, temp: array<nat>, start: nat, stride: nat, n: nat, r: nat,
                   val0: int, ti0: int, li0: int, ri0: int, ghost pos: seq<nat>, ghost was: seq<nat>)
    returns (val: int, ti: int, li: int)
    requires data != temp && data.Length == temp.Length
    requires |pos| == n && IsLine(pos, data.Length, start, stride) && n >= 2 * r + 1
    requires At(pos, r + 1, ti0) && At(pos, 2 * r + 1, ri0) && At(pos, 0, li0)
    requires Running(was, temp[..], data[..], pos, r, r + 1, val0)
    modifies temp
    ensures At(pos, n - r, ti) && At(pos, n - 2 * r - 1, li) && Running(was, temp[..], data[..], pos, r, n - r, val)
  {
    hide WindowSum, RoundedMean, Running, IsLine;
    ghost var pix := data[..];
    var ri: int;
    val, ti, li, ri := val0, ti0, li0, ri0;
    for j := r + 1 to n - r
      invariant At(pos, j, ti) && At(pos, j + r, ri) && At(pos, j - r - 1, li)
      invariant Running(was, temp[..], pix, pos, r, j, val)
    {
      ghost var before, val1 := temp[..], val;
      Advance(pos, data.Length, start, stride, j, ti);
      Advance(pos, data.Length, start, stride, j + r, ri);
      Advance(pos, data.Length, start, stride, j - r - 1, li);
      val := val + data[ri] - data[li];
      RunsOn(was, before, pix, pos, start, stride, r, j, ti, val1, val);
      temp[ti] := RoundedMean(val, 2 * r + 1);
      assert temp[..] == before[ti := temp[ti]];
      li, ri, ti := li + stride, ri + stride, ti + stride;
    }
  }

  /** The last run: the entering value is the line's last. */
  method BackRun(data: array<nat>, temp: array<nat>, start: nat, stride: nat, n: nat, r: nat, lv: nat,
                 val0: int, ti0: int, li0: int, ghost pos: seq<nat>, ghost pix: seq<nat>, ghost was: seq<nat>)
    returns (val: int)
    requires data != temp && data.Length == temp.Length
    requires |pos| == n && IsLine(pos, data.Length, start, stride) && n >= 2 * r + 1
    requires InImage(pos, |pix|) && pix == data[..] && lv == pix[pos[n - 1]]
    requires At(pos, n - r, ti0) && At(pos, n - 2 * r - 1, li0) && Running(was, temp[..], pix, pos, r, n - r, val0)
    modifies temp
    ensures Running(was, temp[..], pix, pos, r, n, val)
  {
    hide WindowSum, RoundedMean, Running, IsLine;
    var ti, li := ti0, li0;
    val := val0;
    for j := n - r to n
      invariant At(pos, j, ti) && At(pos, j - r - 1, li)
      invariant Running(was, temp[..], pix, pos, r, j, val)
    {
      ghost var before, val1 := temp[..], val;
      Advance(pos, data.Length, start, stride, j, ti);
      Advance(pos, data.Length, start, stride, j - r - 1, li);
      val := val + lv - data[li];
      RunsOn(was, before, pix, pos, start, stride, r, j, ti, val1, val);
      temp[ti] := RoundedMean(val, 2 * r + 1);
      assert temp[..] == before[ti := temp[ti]];
      li, ti := li + stride, ti + stride;
    }
  }

  /** One line of one pass, in the source's three runs: up to the radius, the middle, and the last
      r positions. Only the line's own positions of temp are written. */
  method BlurLine(data: array<nat>, temp: array<nat>, start: nat, stride: nat, n: nat, r: nat, ghost pos: seq<nat>)
    requires data != temp && data.Length == temp.Length
    requires |pos| == n && IsLine(pos, data.Length, start, stride) && n >= 2 * r + 1
    modifies temp
    ensures BlurredUpTo(temp[..], pos, Values(data[..], pos), r, n)
    ensures Untouched(old(temp[..]), temp[..], pos)
  {
    hide WindowSum, RoundedMean, BlurredUpTo, Untouched;
    ghost var pix, was := data[..], temp[..];
    LineStarts(pos, data.Length, start, stride, r);
    Stride(pos, data.Length, start, stride, n - 1);
    var ti: int, li: int, ri: int := start, start, start + r * stride;
    var fv, lv := data[ti], data[ti + (n - 1) * stride];
    var val := FirstSum(data, start, stride, r, pos);
    NoneBlurred(temp[..], pos, Values(pix, pos), r);
    val, ti, ri := FrontRun(data, temp, start, stride, n, r, fv, val, ti, ri, pos, pix, was);
    val, ti, li := MiddleRun(data, temp, start, stride, n, r, val, ti, li, ri, pos, was);
    val := BackRun(data, temp, start, stride, n, r, lv, val, ti, li, pos, pix, was);
    RunEnds(was, temp[..], pix, pos, r, val);
  }

  lemma RunEnds(was: seq<nat>, temp: seq<nat>, pix: seq<nat>, pos: seq<nat>, r: nat, val: int)
    requires Running(was, temp, pix, pos, r, |pos|, val)
    ensures BlurredUpTo(temp, pos, Values(pix, pos), r, |pos|) && Untouched(was, temp, pos)
  {}

  // ---- the image: a pass over all rows, then over all columns ----

  function Index(w: nat, i: nat, j: nat): nat { i * w + j }

  ghost function RowPositions(w: nat, i: nat): seq<nat> {
    seq(w, j requires 0 <= j => Index(w, i, j))
  }

  ghost function ColumnPositions(w: nat, h: nat, j: nat): seq<nat> {
    seq(h, i requires 0 <= i => Index(w, i, j))
  }

  lemma IndexBelow(w: nat, h: nat, i: nat, j: nat)
    requires i < h && j < w
    ensures Index(w, i, j) < w * h
  {
    MulMono(i + 1, h, w);
    assert (i + 1) * w == i * w + w && h * w == w * h;
  }

  lemma IndexInjective(w: nat, i: nat, j: nat, i': nat, j': nat)
    requires j < w && j' < w && Index(w, i, j) == Index(w, i', j')
    ensures i == i' && j == j'
  {
    RowBelow(w, i, i');
    RowBelow(w, i', i);
  }

  lemma RowBelow(w: nat, i: nat, k: nat)
    ensures i < k ==> i * w + w <= k * w
  {
    if i < k {
      MulMono(i + 1, k, w);
    }
  }

  lemma RowIsLine(w: nat, h: nat, i: nat)
    requires w > 0 && i < h
    ensures IsLine(RowPositions(w, i), w * h, i * w, 1)
  {
    IndexBelow(w, h, i, w - 1);
  }

  lemma ColumnIsLine(w: nat, h: nat, j: nat)
    requires h > 0 && j < w
    ensures IsLine(ColumnPositions(w, h, j), w * h, j, w)
  {
    var pos := ColumnPositions(w, h, j);
    forall t | 0 < t < h ensures pos[t] == pos[t - 1] + w {
      assert t * w == (t - 1) * w + w;
    }
    forall a, b | 0 <= a < b < h ensures pos[a] < pos[b] {
      MulMono(a + 1, b, w);
      assert (a + 1) * w == a * w + w;
    }
    forall t | 0 <= t < h ensures pos[t] < w * h {
      IndexBelow(w, h, t, j);
    }
  }

  /** Row i of the image after the horizontal half of a pass. */
  ghost predicate RowBlurred(before: seq<nat>, after: seq<nat>, w: nat, h: nat, r: nat, i: nat) {
    && w > 0 && |before| == |after| == w * h && InImage(RowPositions(w, i), w * h)
    && BlurredUpTo(after, RowPositions(w, i), Values(before, RowPositions(w, i)), r, w)
  }

  ghost predicate ColumnBlurred(before: seq<nat>, after: seq<nat>, w: nat, h: nat, r: nat, j: nat) {
    && h > 0 && |before| == |after| == w * h && InImage(ColumnPositions(w, h, j), w * h)
    && BlurredUpTo(after, ColumnPositions(w, h, j), Values(before, ColumnPositions(w, h, j)), r, h)
  }

  /** Writing row i keeps the rows above it. */
  lemma RowKept(before: seq<nat>, was: seq<nat>, now: seq<nat>, w: nat, h: nat, r: nat, i: nat, k: nat)
    requires RowBlurred(before, was, w, h, r, k) && Untouched(was, now, RowPositions(w, i)) && k != i
    ensures RowBlurred(before, now, w, h, r, k)
  {
    forall t | 0 <= t < w ensures now[RowPositions(w, k)[t]] == was[RowPositions(w, k)[t]] {
      if u :| 0 <= u < w && RowPositions(w, i)[u] == RowPositions(w, k)[t] {
        IndexInjective(w, i, u, k, t);
      }
    }
  }

  lemma ColumnKept(before: seq<nat>, was: seq<nat>, now: seq<nat>, w: nat, h: nat, r: nat, j: nat, k: nat)
    requires ColumnBlurred(before, was, w, h, r, k) && Untouched(was, now, ColumnPositions(w, h, j))
    requires k != j && k < w && j < w
    ensures ColumnBlurred(before, now, w, h, r, k)
  {
    forall t | 0 <= t < h ensures now[ColumnPositions(w, h, k)[t]] == was[ColumnPositions(w, h, k)[t]] {
      if u :| 0 <= u < h && ColumnPositions(w, h, j)[u] == ColumnPositions(w, h, k)[t] {
        IndexInjective(w, u, j, t, k);
      }
    }
  }

  method HorizontalPass(data: array<nat>, temp: array<nat>, w: nat, h: nat, r: nat)
    requires data != temp && data.Length == temp.Length == w * h && w >= 2 * r + 1
    modifies temp
    ensures forall i | 0 <= i < h :: RowBlurred(data[..], temp[..], w, h, r, i)
  {
    hide RowBlurred;
    ghost var pix := data[..];
    for i := 0 to h
      invariant forall k | 0 <= k < i :: RowBlurred(pix, temp[..], w, h, r, k)
    {
      ghost var was := temp[..];
      RowIsLine(w, h, i);
      BlurLine(data, temp, i * w, 1, w, r, RowPositions(w, i));
      RowDone(pix, temp[..], w, h, r, i);
      forall k | 0 <= k < i ensures RowBlurred(pix, temp[..], w, h, r, k) {
        RowKept(pix, was, temp[..], w, h, r, i, k);
      }
    }
  }

  lemma RowDone(before: seq<nat>, after: seq<nat>, w: nat, h: nat, r: nat, i: nat)
    requires |before| == |after| == w * h && IsLine(RowPositions(w, i), w * h, i * w, 1) && w > 0
    requires BlurredUpTo(after, RowPositions(w, i), Values(before, RowPositions(w, i)), r, w)
    ensures RowBlurred(before, after, w, h, r, i)
  {}

  method VerticalPass(data: array<nat>, temp: array<nat>, w: nat, h: nat, r: nat)
    requires data != temp && data.Length == temp.Length == w * h && h >= 2 * r + 1
    modifies temp
    ensures forall j | 0 <= j < w :: ColumnBlurred(data[..], temp[..], w, h, r, j)
  {
    hide ColumnBlurred;
    ghost var pix := data[..];
    for j := 0 to w
      invariant forall k | 0 <= k < j :: ColumnBlurred(pix, temp[..], w, h, r, k)
    {
      ghost var was := temp[..];
      ColumnIsLine(w, h, j);
      BlurLine(data, temp, j, w, h, r, ColumnPositions(w, h, j));
      ColumnDone(pix, temp[..], w, h, r, j);
      forall k | 0 <= k < j ensures ColumnBlurred(pix, temp[..], w, h, r, k) {
        ColumnKept(pix, was, temp[..], w, h, r, j, k);
      }
    }
  }

  lemma ColumnDone(before: seq<nat>, after: seq<nat>, w: nat, h: nat, r: nat, j: nat)
    requires |before| == |after| == w * h && h > 0 && IsLine(ColumnPositions(w, h, j), w * h, j, w)
    requires BlurredUpTo(after, ColumnPositions(w, h, j), Values(before, ColumnPositions(w, h, j)), r, h)
    ensures ColumnBlurred(before, after, w, h, r, j)
  {}

  method Copy(from: array<nat>, to: array<nat>)
    requires from != to && from.Length == to.Length
    modifies to
    ensures to[..] == from[..]
  {
    for k := 0 to to.Length
      invariant to[..k] == from[..k]
    {
      to[k] := from[k];
    }
  }

  /** One pass takes the image `before` to the image `after`. */
  ghost predicate Pass(before: seq<nat>, after: seq<nat>, w: nat, h: nat, r: nat) {
    exists mid :: HalfPass(before, mid, after, w, h, r)
  }

  ghost predicate HalfPass(before: seq<nat>, mid: seq<nat>, after: seq<nat>, w: nat, h: nat, r: nat) {
    && |before| == |mid| == |after| == w * h
    && (forall i | 0 <= i < h :: RowBlurred(before, mid, w, h, r, i))
    && (forall j | 0 <= j < w :: ColumnBlurred(mid, after, w, h, r, j))
  }

  method OnePass(data: array<nat>, temp: array<nat>, w: nat, h: nat, r: nat)
    requires data != temp && data.Length == temp.Length == w * h && w >= 2 * r + 1 && h >= 2 * r + 1
    modifies data, temp
    ensures Pass(old(data[..]), data[..], w, h, r)
  {
    hide RowBlurred, ColumnBlurred;
    ghost var before := data[..];
    HorizontalPass(data, temp, w, h, r);
    ghost var mid := temp[..];
    assert data[..] == before;
    assert forall i | 0 <= i < h :: RowBlurred(before, mid, w, h, r, i);
    Copy(temp, data);
    VerticalPass(data, temp, w, h, r);
    ghost var after := temp[..];
    assert data[..] == mid;
    assert forall j | 0 <= j < w :: ColumnBlurred(mid, after, w, h, r, j);
    Copy(temp, data);
    assert HalfPass(before, mid, after, w, h, r);
  }

  /** The images between the passes. */
  ghost predicate Chain(images: seq<seq<nat>>, w: nat, h: nat, radii: seq<nat>) {
    |images| == |radii| + 1 && forall n | 0 <= n < |radii| :: Pass(images[n], images[n + 1], w, h, radii[n])
  }

  ghost predicate Passes(first: seq<nat>, last: seq<nat>, w: nat, h: nat, radii: seq<nat>) {
    exists images :: Chain(images, w, h, radii) && images[0] == first && images[|radii|] == last
  }

  /** The smaller of the two odd box widths; `root` is the square root of the ideal box area. */
  function BoxWidth(root: real): int {
    var wl := Truncate(root);
    if wl % 2 == 0 then wl - 1 else wl
  }

  /** The number of passes that use the smaller box. */
  function SmallPasses(radius: real, passes: nat, wl: int): int requires wl >= 0 {
    Truncate(IdealSmall(12.0 * radius * radius, passes as real, wl as real) + 0.5)
  }

  function IdealSmall(d: real, p: real, b: real): real requires b >= 0.0 {
    (d - p * b * b - 4.0 * p * b - 3.0 * p) / (-4.0 * b - 4.0)
  }

  /** The width of the box of pass n. */
  function Box(n: nat, m: int, wl: nat): nat { if n < m then wl else wl + 2 }

  function BoxRadius(n: nat, m: int, wl: nat): nat requires wl % 2 == 1 { (Box(n, m, wl) - 1) / 2 }

  /** Every box that is used fits into an image of this size. */
  predicate BoxesFit(size: nat, radius: real, passes: nat, root: real) {
    var wl := BoxWidth(root);
    wl >= 1 && forall n | 0 <= n < passes :: Box(n, SmallPasses(radius, passes, wl), wl) <= size
  }

  ghost function Radii(passes: nat, m: int, wl: nat): seq<nat> requires wl % 2 == 1 {
    seq(passes, n requires 0 <= n => BoxRadius(n, m, wl))
  }

  lemma SquareBelowOne(x: real)
    requires 0.0 <= x < 1.0
    ensures x * x < 1.0
  {
    assert x * x <= x * 1.0;
  }

  lemma RootAtLeastOne(radius: real, passes: nat, root: real)
    requires passes > 0 && root >= 0.0 && root * root == 12.0 * radius * radius / passes as real + 1.0
    ensures BoxWidth(root) >= 1 && BoxWidth(root) % 2 == 1
  {
    assert radius * radius >= 0.0;
    var q := 12.0 * radius * radius / passes as real;
    assert q * passes as real == 12.0 * radius * radius;
    if q < 0.0 {
      Scale(q, 0.0, passes as real);
      assert false;
    }
    if root < 1.0 {
      SquareBelowOne(root);
      assert false;
    }
  }

  lemma BoxFits(size: nat, radius: real, passes: nat, root: real, n: nat)
    requires BoxesFit(size, radius, passes, root) && n < passes && BoxWidth(root) % 2 == 1
    ensures var wl := BoxWidth(root);
            wl >= 1 && 2 * BoxRadius(n, SmallPasses(radius, passes, wl), wl) + 1 <= size
  {
    hide SmallPasses, BoxWidth;
  }

  /** The blur with its box widths, for an image that every box used fits into; the passes are counted in eight bits. */
  method ApplyFastBlur(data: array<nat>, w: nat, h: nat, radius: real, passes: nat, root: real)
    requires data.Length == w * h
    requires radius >= 1.0 ==>
               && 0 < passes < 0x80 && root >= 0.0 && root * root == 12.0 * radius * radius / passes as real + 1.0
               && BoxesFit(w, radius, passes, root) && BoxesFit(h, radius, passes, root)
    modifies data
    ensures radius < 1.0 ==> data[..] == old(data[..])
    ensures radius >= 1.0 ==>
              exists radii, wl ::
                Spread(radii, radius, passes, root, wl) && Passes(old(data[..]), data[..], w, h, radii)
  {
    if radius < 1.0 {
      return;
    }
    RootAtLeastOne(radius, passes, root);
    var temp := new nat[data.Length];
    Copy(data, temp);
    var wl := BoxWidth(root);
    var m := SmallPasses(radius, passes, wl);
    ghost var radii := Radii(passes, m, wl);
    NoPasses(data[..], w, h);
    RadiiSpread(radius, passes, root);
    hide Pass, Passes, HalfPass, RowBlurred, ColumnBlurred, SmallPasses, BoxWidth, BoxesFit, BoxRadius, Spread;
    assert radii[..0] == [];
    for n := 0 to passes
      invariant Passes(old(data[..]), data[..], w, h, radii[..n])
    {
      var r := BoxRadius(n, m, wl);
      BoxFits(w, radius, passes, root, n);
      BoxFits(h, radius, passes, root, n);
      ghost var before := data[..];
      OnePass(data, temp, w, h, r);
      PassesSnoc(old(data[..]), before, data[..], w, h, radii[..n], r);
      assert radii[..n + 1] == radii[..n] + [r];
    }
    assert radii[..passes] == radii;
  }

  // ---- what the radii are for ----

  /** Twelve times the variance of a run of boxes. */
  function Variance(radii: seq<nat>): int {
    if radii == [] then 0
    else
      var box := 2 * radii[|radii| - 1] + 1;
      Variance(radii[..|radii| - 1]) + box * box - 1
  }

  /** Boxes of the two odd widths around `root`, the smaller ones first, that spread a point as the Gaussian of this
      radius does, up to half of what changing one box would make. */
  ghost predicate Spread(radii: seq<nat>, radius: real, passes: nat, root: real, wl: nat) {
    && wl % 2 == 1 && wl as real <= root < wl as real + 2.0 && |radii| == passes
    && (forall i | 0 <= i < passes :: 2 * radii[i] + 1 == wl || 2 * radii[i] + 1 == wl + 2)
    && (forall i, j | 0 <= i < j < passes :: radii[i] <= radii[j])
    && var error := Variance(radii) as real - 12.0 * radius * radius;
       -(2 * wl + 2) as real <= error <= (2 * wl + 2) as real
  }

  /** The variance of m smaller and then larger boxes. */
  lemma {:induction false} VarianceOf(n: nat, m: nat, wl: nat)
    requires wl % 2 == 1
    ensures Variance(Radii(n, m, wl)) == n * (wl * wl + 4 * wl + 3) - (if n <= m then n else m) * (4 * wl + 4)
  {
    var small, large := wl * wl - 1, wl * wl + 4 * wl + 3;
    assert (wl + 2) * (wl + 2) - 1 == large;
    if n > 0 {
      var radii := Radii(n, m, wl);
      assert radii[..n - 1] == Radii(n - 1, m, wl);
      var box := 2 * radii[n - 1] + 1;
      assert box * box - 1 == if n - 1 < m then small else large;
      hide Radii;
      VarianceOf(n - 1, m, wl);
      OneMore(n, large);
      OneMore(n, 4 * wl + 4);
    }
  }

  lemma OneMore(n: int, x: int)
    ensures n * x == (n - 1) * x + x
  {}

  /** How far m smaller boxes of p are from the spread that is asked for. */
  function SpreadError(m: real, p: real, b: real, d: real): real {
    p * (b * b + 4.0 * b + 3.0) - m * (4.0 * b + 4.0) - d
  }

  /** The count of smaller boxes is the one that the spread asks for, rounded. */
  lemma CountOfSmall(radius: real, passes: nat, wl: nat, root: real)
    requires passes > 0 && root * root == 12.0 * radius * radius / passes as real + 1.0
    requires wl >= 1 && wl as real <= root < wl as real + 2.0
    ensures var m, b := SmallPasses(radius, passes, wl), wl as real;
            && 0 <= m <= passes
            && -2.0 * b - 2.0 <= SpreadError(m as real, passes as real, b, 12.0 * radius * radius) <= 2.0 * b + 2.0
  {
    var p, b, d := passes as real, wl as real, 12.0 * radius * radius;
    hide Truncate, SpreadError, IdealSmall;
    CountFor(IdealSmall(d, p, b), p, b, d, root);
  }

  lemma CountFor(x: real, p: real, b: real, d: real, root: real)
    requires p > 0.0 && p == p.Floor as real && root * root == d / p + 1.0 && 1.0 <= b <= root < b + 2.0
    requires x == IdealSmall(d, p, b)
    ensures var m := Truncate(x + 0.5);
            0 <= m <= p.Floor && -2.0 * b - 2.0 <= SpreadError(m as real, p, b, d) <= 2.0 * b + 2.0
  {
    hide Truncate;
    var top, step, ideal := d - p * b * b - 4.0 * p * b - 3.0 * p, 4.0 * b + 4.0, p * (b * b + 4.0 * b + 3.0) - d;
    QuotientBack(top, -4.0 * b - 4.0);
    Rearranged(x, p, b, d, top);
    IdealBetween(d, p, b, root);
    CountBounds(x, p, step, ideal);
  }

  lemma QuotientBack(x: real, y: real)
    requires y != 0.0
    ensures x / y * y == x
  {}

  lemma CountBounds(x: real, p: real, step: real, ideal: real)
    requires step > 0.0 && x * step == ideal && 0.0 <= ideal <= p * step && p == p.Floor as real
    ensures var m := Truncate(x + 0.5);
            0 <= m <= p.Floor && -step / 2.0 <= ideal - m as real * step <= step / 2.0
  {
    Ratio(x, step, p);
    hide Truncate;
    Rounded(x, p, step, ideal);
  }

  lemma Rearranged(x: real, p: real, b: real, d: real, top: real)
    requires x * (-4.0 * b - 4.0) == top == d - p * b * b - 4.0 * p * b - 3.0 * p
    ensures x * (4.0 * b + 4.0) == p * (b * b + 4.0 * b + 3.0) - d
  {}

  lemma IdealBetween(d: real, p: real, b: real, root: real)
    requires p > 0.0 && root * root == d / p + 1.0 && 1.0 <= b <= root < b + 2.0
    ensures 0.0 <= p * (b * b + 4.0 * b + 3.0) - d <= p * (4.0 * b + 4.0)
  {
    var s := root * root;
    Squares(b, root);
    Squares(root, b + 2.0);
    assert (b + 2.0) * (b + 2.0) == b * b + 4.0 * b + 4.0;
    assert d == p * (s - 1.0);
    Scale(b * b - 1.0, s - 1.0, p);
    Scale(s - 1.0, b * b + 4.0 * b + 3.0, p);
  }

  lemma Squares(a: real, b: real)
    requires 0.0 < a <= b
    ensures a * a <= b * b
  {
    Scale(a, b, a);
    Scale(a, b, b);
  }

  lemma Ratio(x: real, step: real, p: real)
    requires step > 0.0 && 0.0 <= x * step <= p * step
    ensures 0.0 <= x <= p
  {
    if x < 0.0 {
      StrictScale(x, 0.0, step);
    }
    if x > p {
      StrictScale(p, x, step);
    }
  }

  lemma Rounded(x: real, p: real, step: real, ideal: real)
    requires 0.0 <= x <= p && step > 0.0 && p == p.Floor as real && ideal == x * step
    ensures var m := Truncate(x + 0.5);
            0 <= m <= p.Floor && -step / 2.0 <= ideal - m as real * step <= step / 2.0
  {
    var m := (x + 0.5).Floor;
    assert m as real <= x + 0.5 < m as real + 1.0;
    OffBy(x, m as real, step, ideal);
  }

  lemma OffBy(x: real, m: real, step: real, ideal: real)
    requires m <= x + 0.5 < m + 1.0 && step > 0.0 && ideal == x * step
    ensures -step / 2.0 <= ideal - m * step <= step / 2.0
  {
    StaysBetween(m - 0.5, x, m + 0.5, step, ideal);
    AddedTo(m, -0.5, step);
    AddedTo(m, 0.5, step);
  }

  lemma StaysBetween(low: real, x: real, high: real, step: real, ideal: real)
    requires low <= x <= high && step > 0.0 && ideal == x * step
    ensures low * step <= ideal <= high * step
  {
    Scale(low, x, step);
    Scale(x, high, step);
  }

  lemma AddedTo(m: real, h: real, step: real)
    ensures (m + h) * step == m * step + h * step
  {}

  lemma RadiiSpread(radius: real, passes: nat, root: real)
    requires passes > 0 && root >= 0.0 && root * root == 12.0 * radius * radius / passes as real + 1.0
    requires BoxWidth(root) >= 1 && BoxWidth(root) % 2 == 1
    ensures var wl := BoxWidth(root);
            Spread(Radii(passes, SmallPasses(radius, passes, wl), wl), radius, passes, root, wl)
  {
    var wl := BoxWidth(root);
    var m := SmallPasses(radius, passes, wl);
    assert wl as real <= root < wl as real + 2.0;
    hide SmallPasses, BoxWidth, SpreadError, Variance, Radii;
    CountOfSmall(radius, passes, wl, root);
    VarianceReal(passes, m, wl, 12.0 * radius * radius);
    RadiiShape(passes, m, wl);
  }

  lemma RadiiShape(n: nat, m: nat, wl: nat)
    requires wl % 2 == 1
    ensures var radii := Radii(n, m, wl);
            && |radii| == n && (forall i, j | 0 <= i < j < n :: radii[i] <= radii[j])
            && forall i | 0 <= i < n :: 2 * radii[i] + 1 == wl || 2 * radii[i] + 1 == wl + 2
  {}

  lemma VarianceReal(n: nat, m: nat, wl: nat, d: real)
    requires wl % 2 == 1 && m <= n
    ensures Variance(Radii(n, m, wl)) as real - d == SpreadError(m as real, n as real, wl as real, d)
  {
    hide Variance, Radii;
    VarianceOf(n, m, wl);
    Casts(n, m, wl);
  }

  lemma Casts(n: nat, m: nat, wl: nat)
    ensures (n * (wl * wl + 4 * wl + 3) - m * (4 * wl + 4)) as real ==
            n as real * (wl as real * wl as real + 4.0 * wl as real + 3.0) - m as real * (4.0 * wl as real + 4.0)
  {
    IntProduct(wl, wl);
    IntProduct(n, wl * wl + 4 * wl + 3);
    IntProduct(m, 4 * wl + 4);
  }

  lemma PassesSnoc(first: seq<nat>, mid: seq<nat>, last: seq<nat>, w: nat, h: nat, radii: seq<nat>, r: nat)
    requires Passes(first, mid, w, h, radii) && Pass(mid, last, w, h, r)
    ensures Passes(first, last, w, h, radii + [r])
  {
    hide Pass;
    var images :| Chain(images, w, h, radii) && images[0] == first && images[|radii|] == mid;
    assert Chain(images + [last], w, h, radii + [r]);
  }

  lemma NoPasses(pix: seq<nat>, w: nat, h: nat)
    ensures Passes(pix, pix, w, h, [])
  {
    assert Chain([pix], w, h, []);
  }

  // ---- what the passes mean ----

  ghost predicate Between(pix: seq<nat>, lo: nat, hi: nat) {
    forall k | 0 <= k < |pix| :: lo <= pix[k] <= hi
  }

  /** Every index is one pixel of one row and one column. */
  lemma IndexSplit(w: nat, h: nat, k: nat)
    requires k < w * h
    ensures w > 0 && k / w < h && k % w < w && k == Index(w, k / w, k % w)
  {
    assert h * w == w * h;
    if w > 0 && k / w >= h {
      MulMono(h, k / w, w);
      assert false;
    }
  }

  lemma BlurredBetween(v: seq<nat>, r: nat, j: int, lo: nat, hi: nat)
    requires |v| > 0 && Between(v, lo, hi)
    ensures lo <= BlurredAt(v, r, j) <= hi
  {
    WindowBetween(v, j - r, 2 * r + 1, lo, hi);
    MeanBetween(WindowSum(v, j - r, 2 * r + 1), 2 * r + 1, lo, hi);
  }

  lemma RowsBetween(before: seq<nat>, mid: seq<nat>, w: nat, h: nat, r: nat, lo: nat, hi: nat)
    requires |before| == |mid| == w * h && Between(before, lo, hi)
    requires forall i | 0 <= i < h :: RowBlurred(before, mid, w, h, r, i)
    ensures Between(mid, lo, hi)
  {
    hide BlurredAt;
    forall k | 0 <= k < w * h
      ensures lo <= mid[k] <= hi
    {
      IndexSplit(w, h, k);
      var pos := RowPositions(w, k / w);
      assert RowBlurred(before, mid, w, h, r, k / w) && pos[k % w] == k;
      BlurredBetween(Values(before, pos), r, k % w, lo, hi);
    }
  }

  lemma ColumnsBetween(mid: seq<nat>, after: seq<nat>, w: nat, h: nat, r: nat, lo: nat, hi: nat)
    requires |mid| == |after| == w * h && Between(mid, lo, hi)
    requires forall j | 0 <= j < w :: ColumnBlurred(mid, after, w, h, r, j)
    ensures Between(after, lo, hi)
  {
    hide BlurredAt;
    forall k | 0 <= k < w * h
      ensures lo <= after[k] <= hi
    {
      IndexSplit(w, h, k);
      var pos := ColumnPositions(w, h, k % w);
      assert ColumnBlurred(mid, after, w, h, r, k % w) && pos[k / w] == k;
      BlurredBetween(Values(mid, pos), r, k / w, lo, hi);
    }
  }

  lemma HalfPassBetween(before: seq<nat>, mid: seq<nat>, after: seq<nat>, w: nat, h: nat, r: nat, lo: nat, hi: nat)
    requires HalfPass(before, mid, after, w, h, r) && Between(before, lo, hi)
    ensures Between(after, lo, hi)
  {
    hide RowBlurred, ColumnBlurred, Between;
    RowsBetween(before, mid, w, h, r, lo, hi);
    ColumnsBetween(mid, after, w, h, r, lo, hi);
  }

  lemma {:induction false} ChainBetween(images: seq<seq<nat>>, w: nat, h: nat, radii: seq<nat>, n: nat,
                                        lo: nat, hi: nat)
    requires Chain(images, w, h, radii) && Between(images[0], lo, hi) && n <= |radii|
    ensures Between(images[n], lo, hi)
  {
    hide HalfPass, Between;
    if n > 0 {
      ChainBetween(images, w, h, radii, n - 1, lo, hi);
      assert Pass(images[n - 1], images[n], w, h, radii[n - 1]);
      var mid :| HalfPass(images[n - 1], mid, images[n], w, h, radii[n - 1]);
      HalfPassBetween(images[n - 1], mid, images[n], w, h, radii[n - 1], lo, hi);
    }
  }

  /** No number of passes takes a pixel outside the range of the input pixels. */
  lemma PassesBetween(first: seq<nat>, last: seq<nat>, w: nat, h: nat, radii: seq<nat>, lo: nat, hi: nat)
    requires Passes(first, last, w, h, radii) && Between(first, lo, hi)
    ensures Between(last, lo, hi)
  {
    var images :| Chain(images, w, h, radii) && images[0] == first && images[|radii|] == last;
    ChainBetween(images, w, h, radii, |radii|, lo, hi);
  }

  lemma RowsUnique(before: seq<nat>, a: seq<nat>, b: seq<nat>, w: nat, h: nat, r: nat)
    requires |a| == |b| == w * h
    requires forall i | 0 <= i < h :: RowBlurred(before, a, w, h, r, i)
    requires forall i | 0 <= i < h :: RowBlurred(before, b, w, h, r, i)
    ensures a == b
  {
    hide BlurredAt;
    forall k | 0 <= k < w * h ensures a[k] == b[k] {
      IndexSplit(w, h, k);
      assert RowPositions(w, k / w)[k % w] == k;
      assert RowBlurred(before, a, w, h, r, k / w) && RowBlurred(before, b, w, h, r, k / w);
    }
  }

  lemma ColumnsUnique(before: seq<nat>, a: seq<nat>, b: seq<nat>, w: nat, h: nat, r: nat)
    requires |a| == |b| == w * h
    requires forall j | 0 <= j < w :: ColumnBlurred(before, a, w, h, r, j)
    requires forall j | 0 <= j < w :: ColumnBlurred(before, b, w, h, r, j)
    ensures a == b
  {
    hide BlurredAt;
    forall k | 0 <= k < w * h ensures a[k] == b[k] {
      IndexSplit(w, h, k);
      assert ColumnPositions(w, h, k % w)[k / w] == k;
      assert ColumnBlurred(before, a, w, h, r, k % w) && ColumnBlurred(before, b, w, h, r, k % w);
    }
  }

  lemma {:induction false} ChainUnique(a: seq<seq<nat>>, b: seq<seq<nat>>, w: nat, h: nat, radii: seq<nat>, n: nat)
    requires Chain(a, w, h, radii) && Chain(b, w, h, radii) && a[0] == b[0] && n <= |radii|
    ensures a[n] == b[n]
  {
    hide RowBlurred, ColumnBlurred;
    if n > 0 {
      var r := radii[n - 1];
      ChainUnique(a, b, w, h, radii, n - 1);
      assert Pass(a[n - 1], a[n], w, h, r) && Pass(b[n - 1], b[n], w, h, r);
      var mid :| HalfPass(a[n - 1], mid, a[n], w, h, r);
      var mid' :| HalfPass(b[n - 1], mid', b[n], w, h, r);
      RowsUnique(a[n - 1], mid, mid', w, h, r);
      ColumnsUnique(mid, a[n], b[n], w, h, r);
    }
  }

  /** The definition leaves nothing open: the input image and the radii determine the output. */
  lemma PassesUnique(first: seq<nat>, a: seq<nat>, b: seq<nat>, w: nat, h: nat, radii: seq<nat>)
    requires Passes(first, a, w, h, radii) && Passes(first, b, w, h, radii)
    ensures a == b
  {
    var c :| Chain(c, w, h, radii) && c[0] == first && c[|radii|] == a;
    var d :| Chain(d, w, h, radii) && d[0] == first && d[|radii|] == b;
    ChainUnique(c, d, w, h, radii, |radii|);
  }
}
