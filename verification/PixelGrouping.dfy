/** Pixel grouping of pat/processing.cpp: the threshold scan, the recursive
    8-connected flood fill with its two fail-safes, and group centroids.

    Doubles are reals and the 32-bit counters are unbounded naturals. */
module PixelGrouping {
  import opened Basics

  const MAX_GROUPS := 50
  const MAX_ACTIVE_PIXELS := 100000
  const MIN_PIXELS_PER_GROUP := 2
  const THRESHOLD_SAFETY_OFFSET := 50

  datatype Group = Group(x: real, y: real, valueMax: nat, valueSum: nat, pixelCount: nat)

  const EMPTY_GROUP := Group(0.0, 0.0, 0, 0, 0)

  /** A camera frame with the threshold in force. Pixel (i, j) is index i*w + j. */
  datatype Frame = Frame(w: nat, h: nat, pix: seq<nat>, threshold: nat) {
    ghost predicate Valid() {
      w > 0 && h > 0 && |pix| == w * h
    }

    predicate Active(k: int) {
      0 <= k < |pix| && pix[k] > threshold
    }

    /** The coordinates of an index, counted off one row at a time. */
    function Row(k: int): (r: int) requires w > 0 ensures k >= 0 ==> r >= 0 { if k < w then 0 else 1 + Row(k - w) }
    function Col(k: int): (c: int) requires w > 0 ensures k >= 0 ==> 0 <= c < w { if k < w then k else Col(k - w) }

    predicate Adjacent(a: int, b: int) requires w > 0 {
      -1 <= Row(a) - Row(b) <= 1 && -1 <= Col(a) - Col(b) <= 1
    }

    /** Pixel k has coordinates (i, j). */
    ghost predicate At(k: int, i: int, j: int) requires w > 0 {
      0 <= k < |pix| && Row(k) == i && Col(k) == j
    }

    ghost function ActiveSet(): set<int> {
      set k | 0 <= k < |pix| && Active(k)
    }

    ghost function RowWeights(): seq<nat> requires Valid() {
      seq(|pix|, k requires 0 <= k < |pix| => Product(Row(k), pix[k]))
    }

    ghost function ColWeights(): seq<nat> requires Valid() {
      seq(|pix|, k requires 0 <= k < |pix| => Product(Col(k), pix[k]))
    }
  }

  function Product(a: nat, b: nat): nat { a * b }

  // ---- connected components, by paths ----

  ghost predicate Path(f: Frame, path: seq<int>) requires f.Valid() {
    && path != []
    && (forall i | 0 <= i < |path| :: f.Active(path[i]))
    && (forall i | 0 < i < |path| :: f.Adjacent(path[i - 1], path[i]))
  }

  ghost predicate Connected(f: Frame, p: int, q: int) requires f.Valid() {
    exists path :: Path(f, path) && path[0] == p && path[|path| - 1] == q
  }

  /** The 8-connected component of p among the pixels above threshold; empty when p is not one. */
  ghost function Component(f: Frame, p: int): set<int> requires f.Valid() {
    set q | 0 <= q < |f.pix| && Connected(f, p, q)
  }

  ghost predicate Closed(f: Frame, s: set<int>) requires f.Valid() {
    forall q, r | q in s && f.Active(r) && f.Adjacent(q, r) :: r in s
  }

  lemma ConnectedSelf(f: Frame, p: int)
    requires f.Valid() && f.Active(p)
    ensures Connected(f, p, p)
  {
    assert Path(f, [p]);
  }

  lemma ConnectedStep(f: Frame, p: int, q: int, r: int)
    requires f.Valid() && Connected(f, p, q) && f.Active(r) && f.Adjacent(q, r)
    ensures Connected(f, p, r)
  {
    var path :| Path(f, path) && path[0] == p && path[|path| - 1] == q;
    assert Path(f, path + [r]);
  }

  /** A closed set contains all of a path or none of it. */
  lemma {:induction false} ClosedAlongPath(f: Frame, s: set<int>, path: seq<int>, i: nat)
    requires f.Valid() && Closed(f, s) && Path(f, path) && i < |path|
    ensures path[i] in s <==> path[0] in s
  {
    if i > 0 {
      ClosedAlongPath(f, s, path, i - 1);
      assert f.Adjacent(path[i - 1], path[i]) && f.Adjacent(path[i], path[i - 1]);
    }
  }

  lemma ClosedSplitsComponents(f: Frame, s: set<int>, p: int)
    requires f.Valid() && Closed(f, s)
    ensures p in s ==> Component(f, p) <= s
    ensures p !in s ==> Component(f, p) !! s
  {
    forall q | q in Component(f, p) ensures q in s <==> p in s {
      var path :| Path(f, path) && path[0] == p && path[|path| - 1] == q;
      ClosedAlongPath(f, s, path, |path| - 1);
    }
  }

  lemma ComponentClosed(f: Frame, p: int)
    requires f.Valid()
    ensures Closed(f, Component(f, p))
  {
    forall q, r | q in Component(f, p) && f.Active(r) && f.Adjacent(q, r) ensures r in Component(f, p) {
      ConnectedStep(f, p, q, r);
    }
  }

  // ---- sums over pixel sets ----

  /** The sum of the weights at the indices in s. */
  ghost function WeightOf(s: set<int>, weights: seq<nat>): nat {
    if weights == [] then 0
    else
      var n := |weights| - 1;
      WeightOf(s, weights[..n]) + (if n in s then weights[n] else 0)
  }

  ghost function MaxOf(s: set<int>, values: seq<nat>): nat {
    if values == [] then 0
    else
      var n := |values| - 1;
      var m := MaxOf(s, values[..n]);
      if n in s && values[n] > m then values[n] else m
  }

  lemma {:induction false} WeightInsert(s: set<int>, p: nat, weights: seq<nat>)
    requires p !in s
    ensures WeightOf(s + {p}, weights) == WeightOf(s, weights) + if p < |weights| then weights[p] else 0
  {
    if weights != [] {
      WeightInsert(s, p, weights[..|weights| - 1]);
    }
  }

  lemma {:induction false} MaxInsert(s: set<int>, p: nat, values: seq<nat>)
    ensures MaxOf(s + {p}, values) ==
            if p < |values| && values[p] > MaxOf(s, values) then values[p] else MaxOf(s, values)
  {
    if values != [] {
      MaxInsert(s, p, values[..|values| - 1]);
    }
  }

  /** MaxOf bounds every value in the set and, unless it is 0, is one of them. */
  lemma {:induction false} MaxOfIsMaximum(s: set<int>, values: seq<nat>)
    ensures forall k | k in s && 0 <= k < |values| :: values[k] <= MaxOf(s, values)
    ensures MaxOf(s, values) == 0 || exists k | k in s && 0 <= k < |values| :: values[k] == MaxOf(s, values)
  {
    if values != [] {
      var n := |values| - 1;
      MaxOfIsMaximum(s, values[..n]);
      if MaxOf(s, values) != 0 && MaxOf(s, values) == MaxOf(s, values[..n]) {
        var k :| k in s && 0 <= k < n && values[..n][k] == MaxOf(s, values);
        assert values[k] == MaxOf(s, values);
      }
    }
  }

  /** The accumulators of a group that holds exactly the pixels in s. */
  ghost function RawGroup(f: Frame, s: set<int>): Group requires f.Valid() {
    Group(WeightOf(s, f.ColWeights()) as real, WeightOf(s, f.RowWeights()) as real,
          MaxOf(s, f.pix), WeightOf(s, f.pix), |s|)
  }

  /** The brightness-weighted centroid replaces the coordinate sums. */
  function Finished(g: Group): Group {
    if g.valueSum == 0 then g else g.(x := g.x / g.valueSum as real, y := g.y / g.valueSum as real)
  }

  /** The finished group of a component. */
  ghost function GroupOf(f: Frame, s: set<int>): Group requires f.Valid() {
    Finished(RawGroup(f, s))
  }

  ghost function Accumulate(f: Frame, g: Group, p: int): Group requires f.Valid() && 0 <= p < |f.pix| {
    Group(g.x + (f.Col(p) * f.pix[p]) as real, g.y + (f.Row(p) * f.pix[p]) as real,
          if f.pix[p] > g.valueMax then f.pix[p] else g.valueMax,
          g.valueSum + f.pix[p], g.pixelCount + 1)
  }

  lemma RawGroupInsert(f: Frame, s: set<int>, p: int)
    requires f.Valid() && 0 <= p < |f.pix| && p !in s
    ensures RawGroup(f, s + {p}) == Accumulate(f, RawGroup(f, s), p)
  {
    WeightInsert(s, p, f.ColWeights());
    WeightInsert(s, p, f.RowWeights());
    WeightInsert(s, p, f.pix);
    MaxInsert(s, p, f.pix);
  }

  lemma RawGroupEmpty(f: Frame)
    requires f.Valid()
    ensures RawGroup(f, {}) == EMPTY_GROUP
  {
    EmptyWeight(f.ColWeights());
    EmptyWeight(f.RowWeights());
    EmptyWeight(f.pix);
    EmptyMax(f.pix);
  }

  lemma EmptyWeight(weights: seq<nat>)
    ensures WeightOf({}, weights) == 0
  {}

  lemma EmptyMax(values: seq<nat>)
    ensures MaxOf({}, values) == 0
  {}

  // ---- index arithmetic ----

  lemma {:induction false} CoordinatesOf(f: Frame, i: nat, j: nat)
    requires f.w > 0 && j < f.w
    ensures f.Row(i * f.w + j) == i && f.Col(i * f.w + j) == j
  {
    if i > 0 {
      CoordinatesOf(f, i - 1, j);
      assert i * f.w + j - f.w == (i - 1) * f.w + j;
      MulMono(1, i, f.w);
    }
  }

  lemma IndexCoordinates(f: Frame, i: int, j: int)
    requires f.Valid() && 0 <= i < f.h && 0 <= j < f.w
    ensures 0 <= i * f.w + j < |f.pix|
    ensures f.Row(i * f.w + j) == i && f.Col(i * f.w + j) == j
  {
    CoordinatesOf(f, i, j);
    MulMono(i + 1, f.h, f.w);
    assert (i + 1) * f.w == i * f.w + f.w && f.h * f.w == f.w * f.h;
  }

  lemma {:induction false} IndexOf(f: Frame, k: nat)
    requires f.w > 0
    ensures k == f.Row(k) * f.w + f.Col(k)
  {
    if k >= f.w {
      IndexOf(f, k - f.w);
      assert f.Row(k) * f.w == f.Row(k - f.w) * f.w + f.w;
    }
  }

  lemma CoordinatesIndex(f: Frame, k: int)
    requires f.Valid() && 0 <= k < |f.pix|
    ensures 0 <= f.Row(k) < f.h && 0 <= f.Col(k) < f.w
    ensures k == f.Row(k) * f.w + f.Col(k)
  {
    IndexOf(f, k);
    assert f.h * f.w == f.w * f.h;
    if f.Row(k) >= f.h {
      MulMono(f.h, f.Row(k), f.w);
      assert false;
    }
  }

  // ---- the scan, in raster order ----

  /** Every pixel of a component that has a pixel before index k. */
  ghost function Prefix(f: Frame, k: nat): set<int> requires f.Valid() {
    if k == 0 then {} else Prefix(f, k - 1) + Component(f, k - 1)
  }

  /** p is the first pixel of its component in raster order. */
  ghost predicate IsStart(f: Frame, p: nat) requires f.Valid() {
    f.Active(p) && p !in Prefix(f, p)
  }

  /** The first pixels, in raster order, of the components that are large enough to be kept. */
  ghost function BigStarts(f: Frame, k: nat): seq<nat> requires f.Valid() {
    if k == 0 then []
    else if IsStart(f, k - 1) && |Component(f, k - 1)| >= MIN_PIXELS_PER_GROUP then BigStarts(f, k - 1) + [k - 1]
    else BigStarts(f, k - 1)
  }

  ghost function GroupsOf(f: Frame, starts: seq<nat>): seq<Group> requires f.Valid() {
    seq(|starts|, n requires 0 <= n < |starts| => GroupOf(f, Component(f, starts[n])))
  }

  lemma {:induction false} PrefixClosed(f: Frame, k: nat)
    requires f.Valid()
    ensures Closed(f, Prefix(f, k)) && Prefix(f, k) <= f.ActiveSet()
  {
    if k > 0 {
      PrefixClosed(f, k - 1);
      ComponentClosed(f, k - 1);
      forall q | q in Component(f, k - 1) ensures f.Active(q) {
        var path :| Path(f, path) && path[0] == k - 1 && path[|path| - 1] == q;
      }
    }
  }

  /** What scanning one more pixel adds: nothing, unless it starts a component. */
  lemma PrefixStep(f: Frame, k: nat)
    requires f.Valid() && k < |f.pix|
    ensures !IsStart(f, k) ==> Prefix(f, k + 1) == Prefix(f, k)
    ensures IsStart(f, k) ==> k in Component(f, k) && Component(f, k) !! Prefix(f, k)
  {
    PrefixClosed(f, k);
    ClosedSplitsComponents(f, Prefix(f, k), k);
    if f.Active(k) {
      ConnectedSelf(f, k);
    } else {
      assert forall path | Path(f, path) :: f.Active(path[0]);
    }
  }

  ghost predicate Descending(gs: seq<Group>) {
    forall m, n | 0 <= m < n < |gs| :: gs[m].valueMax >= gs[n].valueMax
  }

  /** std::sort with the source's operator<, brightest first. */
  method SortGroups(gs: seq<Group>) returns (sorted: seq<Group>)
    ensures multiset(sorted) == multiset(gs) && |sorted| == |gs|
    ensures Descending(sorted)
  {
    sorted := [];
    for n := 0 to |gs|
      invariant multiset(sorted) == multiset(gs[..n]) && |sorted| == n
      invariant Descending(sorted)
    {
      assert gs[..n + 1] == gs[..n] + [gs[n]];
      sorted := InsertGroup(sorted, gs[n]);
    }
    assert gs[..|gs|] == gs;
  }

  method InsertGroup(gs: seq<Group>, g: Group) returns (r: seq<Group>)
    requires Descending(gs)
    ensures multiset(r) == multiset(gs) + multiset{g} && |r| == |gs| + 1
    ensures Descending(r)
  {
    var m := 0;
    while m < |gs| && gs[m].valueMax >= g.valueMax
      invariant m <= |gs|
      invariant m > 0 ==> gs[m - 1].valueMax >= g.valueMax
    {
      m := m + 1;
    }
    r := gs[..m] + [g] + gs[m..];
    InsertedAt(gs, g, m);
    InsertedContents(gs, g, m);
  }

  lemma InsertedAt(gs: seq<Group>, g: Group, m: nat)
    requires Descending(gs) && m <= |gs|
    requires m > 0 ==> gs[m - 1].valueMax >= g.valueMax
    requires m < |gs| ==> gs[m].valueMax <= g.valueMax
    ensures Descending(gs[..m] + [g] + gs[m..])
  {
    var r := gs[..m] + [g] + gs[m..];
    forall a, b | 0 <= a < b < |r| ensures r[a].valueMax >= r[b].valueMax {
      assert a != m ==> r[a] == gs[if a < m then a else a - 1];
      assert b != m ==> r[b] == gs[if b < m then b else b - 1];
    }
  }

  lemma InsertedContents<T>(s: seq<T>, t: T, m: nat)
    requires m <= |s|
    ensures multiset(s[..m] + [t] + s[m..]) == multiset(s) + multiset{t}
  {
    assert s == s[..m] + s[m..];
    assert multiset(s) == multiset(s[..m]) + multiset(s[m..]);
  }

  /** From `before` to `now`, only active pixels connected to the seed were added. */
  ghost predicate Filled(f: Frame, seed: int, before: set<int>, now: set<int>) requires f.Valid() {
    before <= now <= f.ActiveSet() && forall q | q in now - before :: Connected(f, seed, q)
  }

  /** Every active neighbour of a pixel in `some` is in `all`. */
  ghost predicate ClosedOn(f: Frame, some: set<int>, all: set<int>) requires f.Valid() {
    forall q, r | q in some && f.Active(r) && f.Adjacent(q, r) :: r in all
  }

  /** The state of the fill at p between neighbours; p itself is not yet closed. */
  ghost predicate Progress(f: Frame, base: set<int>, seed: int, p: int, before: set<int>, now: set<int>)
    requires f.Valid()
  {
    && Filled(f, seed, before, now) && p in now && base <= now && Connected(f, seed, p)
    && (|now| <= MAX_ACTIVE_PIXELS ==> ClosedOn(f, now - before - {p}, now))
  }

  /** A recursive call extends the fill of its caller. */
  lemma StillInProgress(f: Frame, base: set<int>, seed: int, p: int, before: set<int>, mid: set<int>, now: set<int>)
    requires f.Valid() && Progress(f, base, seed, p, before, mid) && Filled(f, seed, mid, now)
    requires |now| <= MAX_ACTIVE_PIXELS ==> ClosedOn(f, now - mid, now)
    ensures Progress(f, base, seed, p, before, now)
  {
    SubsetCardinality(mid, now);
  }

  lemma AllVisited(f: Frame, p: int, row: int, before: set<int>, now: set<int>)
    requires f.Valid() && Visited(f, p, row, f.Col(p) - 1, now) && row == f.Row(p) + 2
    requires p !in before
    ensures ClosedOn(f, now - before - {p}, now) ==> ClosedOn(f, now - before, now)
  {}

  lemma UpdateTwice<T>(s: seq<T>, n: nat, a: T, b: T)
    requires n < |s|
    ensures s[n := a][n := b] == s[n := b]
  {}

  lemma SubsetCardinality<T>(a: set<T>, b: set<T>)
    requires a <= b
    ensures |a| <= |b|
    ensures |a| == |b| ==> a == b
  {
    assert b == a + (b - a);
  }

  /** The active neighbours of p that come before (row, col) in the neighbour loops are in `now`. */
  ghost predicate Visited(f: Frame, p: int, row: int, col: int, now: set<int>) requires f.Valid() {
    forall r | f.Active(r) && f.Adjacent(p, r) && (f.Row(r) < row || (f.Row(r) == row && f.Col(r) < col)) :: r in now
  }

  lemma UniqueIndex(f: Frame, k: int, i: int, j: int)
    requires f.Valid() && f.At(k, i, j)
    ensures OnlyAt(f, k, i, j)
  {
    forall r | f.At(r, i, j) ensures r == k {
      CoordinatesIndex(f, r);
      CoordinatesIndex(f, k);
    }
  }

  lemma VisitOne(f: Frame, p: int, row: int, col: int, before: set<int>, now: set<int>)
    requires f.Valid() && Visited(f, p, row, col, before) && before <= now
    requires 0 <= row < f.h && 0 <= col < f.w ==> exists k :: OnlyAt(f, k, row, col) && (f.Active(k) ==> k in now)
    ensures Visited(f, p, row, col + 1, now)
  {
    forall r | f.Active(r) && f.Row(r) == row && f.Col(r) == col ensures r in now {
      CoordinatesIndex(f, r);
      assert f.At(r, row, col);
    }
  }

  /** k is the pixel at (i, j) and no other index is. */
  ghost predicate OnlyAt(f: Frame, k: int, i: int, j: int) requires f.Valid() {
    f.At(k, i, j) && forall r | f.At(r, i, j) :: r == k
  }

  /** The frame and the result of one grouping run. */
  class Image {
    const w: nat
    const h: nat
    var data: array<nat>
    var histMean: nat
    var groups: seq<Group>
    // the two locals that the recursive closure captures by reference
    var currentGroup: nat
    var groupedPixels: set<int>

    ghost predicate Valid() reads this`data {
      w > 0 && h > 0 && data.Length == w * h
    }

    ghost function FrameAt(threshold: nat): (f: Frame)
      requires Valid()
      reads this`data, data
      ensures f.Valid()
    {
      Frame(w, h, data[..], threshold)
    }

    /** The index i*w + j, the only one with these coordinates. */
    method IndexAt(i: int, j: int, ghost f: Frame) returns (index: int)
      requires Valid() && f.Valid() && f.w == w && f.h == h && 0 <= i < h && 0 <= j < w
      ensures OnlyAt(f, index, i, j)
    {
      IndexCoordinates(f, i, j);
      index := i * w + j;
      UniqueIndex(f, index, i, j);
    }

    /** Add pixel p, at (i, j), to the current group. */
    method Acknowledge(i: int, j: int, ghost f: Frame, ghost base: set<int>, ghost p: int)
      requires Valid() && f.Valid() && f.w == w && f.h == h && f.pix == data[..]
      requires 0 <= i < h && 0 <= j < w && f.At(p, i, j)
      requires base <= groupedPixels && p !in groupedPixels
      requires currentGroup < |groups| && groups[currentGroup] == RawGroup(f, groupedPixels - base)
      modifies `groups, `groupedPixels
      ensures groupedPixels == old(groupedPixels) + {p}
      ensures groups == old(groups)[currentGroup := RawGroup(f, groupedPixels - base)]
    {
      var index := IndexAt(i, j, f);
      var g := groups[currentGroup];
      RawGroupInsert(f, groupedPixels - base, p);
      groups := groups[currentGroup := Group(g.x + (j * data[index]) as real, g.y + (i * data[index]) as real,
                                             if data[index] > g.valueMax then data[index] else g.valueMax,
                                             g.valueSum + data[index], g.pixelCount + 1)];
      groupedPixels := groupedPixels + {index};
      assert groupedPixels - base == (old(groupedPixels) - base) + {p};
    }

    /** Flood fill from (i, j), which is pixel p. `base` is what had been grouped before this group
        began. Below the pixel limit everything newly grouped is closed under active neighbours; at
        the limit the call takes its own pixel and stops. */
    method PropagateGroup(threshold: nat, i: int, j: int, ghost f: Frame, ghost base: set<int>, ghost seed: int,
                          ghost p: int)
      requires Valid() && f == FrameAt(threshold) && 0 <= i < h && 0 <= j < w && f.At(p, i, j)
      requires currentGroup < |groups|
      requires groupedPixels <= f.ActiveSet() && base <= groupedPixels
      requires p !in groupedPixels && f.Active(p) && Connected(f, seed, p)
      requires groups[currentGroup] == RawGroup(f, groupedPixels - base)
      modifies `groups, `groupedPixels
      ensures Filled(f, seed, old(groupedPixels), groupedPixels) && p in groupedPixels
      ensures groups == old(groups)[currentGroup := RawGroup(f, groupedPixels - base)]
      ensures |groupedPixels| <= MAX_ACTIVE_PIXELS ==> ClosedOn(f, groupedPixels - old(groupedPixels), groupedPixels)
      ensures |old(groupedPixels)| >= MAX_ACTIVE_PIXELS ==> groupedPixels == old(groupedPixels) + {p}
      decreases f.ActiveSet() - groupedPixels, 0
    {
      hide RawGroup, Connected;
      ghost var before, gs := groupedPixels, groups;
      Acknowledge(i, j, f, base, p);

      if |groupedPixels| > MAX_ACTIVE_PIXELS {
        return;
      }

      for x := -1 to 2
        invariant Progress(f, base, seed, p, before, groupedPixels)
        invariant groups == gs[currentGroup := RawGroup(f, groupedPixels - base)]
        invariant Visited(f, p, i + x, j - 1, groupedPixels)
      {
        for y := -1 to 2
          invariant Progress(f, base, seed, p, before, groupedPixels)
          invariant groups == gs[currentGroup := RawGroup(f, groupedPixels - base)]
          invariant Visited(f, p, i + x, j + y, groupedPixels)
        {
          ghost var g := groups[currentGroup];
          VisitNeighbor(threshold, i + x, j + y, f, base, seed, p, before);
          UpdateTwice(gs, currentGroup, g, groups[currentGroup]);
        }
      }
      AllVisited(f, p, i + 2, before, groupedPixels);
    }

    /** The inner loop body of the flood fill at p, for the neighbour at (i, j). */
    method VisitNeighbor(threshold: nat, i: int, j: int, ghost f: Frame, ghost base: set<int>, ghost seed: int,
                         ghost p: int, ghost before: set<int>)
      requires Valid() && f == FrameAt(threshold) && -1 <= i - f.Row(p) <= 1 && -1 <= j - f.Col(p) <= 1
      requires Progress(f, base, seed, p, before, groupedPixels)
      requires currentGroup < |groups| && groups[currentGroup] == RawGroup(f, groupedPixels - base)
      requires Visited(f, p, i, j, groupedPixels)
      modifies `groups, `groupedPixels
      ensures Progress(f, base, seed, p, before, groupedPixels)
      ensures groups == old(groups)[currentGroup := RawGroup(f, groupedPixels - base)]
      ensures Visited(f, p, i, j + 1, groupedPixels)
      decreases f.ActiveSet() - groupedPixels, 1
    {
      if i >= 0 && i < h && j >= 0 && j < w {
        var index := IndexAt(i, j, f);
        if index !in groupedPixels && data[index] > threshold {
          ConnectedStep(f, seed, p, index);
          PropagateGroup(threshold, i, j, f, base, seed, index);
          StillInProgress(f, base, seed, p, before, old(groupedPixels), groupedPixels);
        }
      }
      VisitOne(f, p, i, j, old(groupedPixels), groupedPixels);
    }

    /** The body of the scan loops, at pixel k = (i, j). Stops when a fail-safe rejects the frame. */
    method ScanPixel(threshold: nat, i: int, j: int, ghost f: Frame, ghost k: nat) returns (stop: bool)
      requires Valid() && f == FrameAt(threshold) && 0 <= i < h && 0 <= j < w && OnlyAt(f, k, i, j)
      requires ScanState(f, k, groupedPixels, groups) && currentGroup == |groups|
      modifies `groups, `groupedPixels, `currentGroup
      ensures stop ==> Rejected(f, k, groups)
      ensures !stop ==> ScanState(f, k + 1, groupedPixels, groups) && currentGroup == |groups|
    {
      hide ScanState, Rejected, RawGroup, Connected;
      var index := IndexAt(i, j, f);
      if !(data[index] > threshold && index !in groupedPixels) {
        NothingNew(f, k, groupedPixels, groups);
        return false;
      }
      ghost var base, gs := groupedPixels, groups;
      groups := groups + [EMPTY_GROUP];
      RawGroupEmpty(f);
      ConnectedSelf(f, k);
      GroupedIsActive(f, k, groupedPixels, gs);
      assert groupedPixels - base == {};
      PropagateGroup(threshold, i, j, f, base, k, k);
      var g := groups[currentGroup];
      AfterFill(f, k, gs, base, groupedPixels, g);

      if g.pixelCount < MIN_PIXELS_PER_GROUP {
        groups := groups[..currentGroup];
        return false;
      }
      if |groupedPixels| > MAX_ACTIVE_PIXELS {
        groups := [];
        return true;
      }
      groups := groups[..currentGroup] + [g.(x := g.x / g.valueSum as real, y := g.y / g.valueSum as real)];
      currentGroup := currentGroup + 1;
      if currentGroup > MAX_GROUPS {
        groups := SortGroups(groups);
        return true;
      }
      return false;
    }

    /** Group the pixels above the threshold; a given threshold of 0 asks for 50 above the mean of the histogram. */
    method PerformPixelGrouping(given: nat) returns (count: int)
      requires Valid()
      modifies `groups, `groupedPixels, `currentGroup
      ensures Verdict(FrameAt(if given == 0 then histMean + 50 else given), groups, count)
    {
      hide ScanState, Rejected, Verdict;
      currentGroup := 0;
      groupedPixels := {};
      groups := [];
      var threshold := if given == 0 then histMean + THRESHOLD_SAFETY_OFFSET else given;
      ghost var f := FrameAt(threshold);
      ScanStarts(f);

      ghost var k: nat := 0;
      for i := 0 to h
        invariant ScanState(f, k, groupedPixels, groups) && currentGroup == |groups| && k == i * w
      {
        ghost var first := k;
        for j := 0 to w
          invariant ScanState(f, k, groupedPixels, groups) && currentGroup == |groups| && k == first + j
        {
          IndexCoordinates(f, i, j);
          UniqueIndex(f, k, i, j);
          var stop := ScanPixel(threshold, i, j, f, k);
          if stop {
            RejectedVerdict(f, k, groups);
            return -1;
          }
          k := k + 1;
        }
        NextRow(i, w);
      }
      assert h * w == w * h;
      ghost var unsorted := groups;
      if |groups| > 0 {
        groups := SortGroups(groups);
      }
      AcceptedVerdict(f, groupedPixels, unsorted, groups);
      return |groups|;
    }
  }

  lemma NextRow(i: nat, w: nat)
    ensures (i + 1) * w == i * w + w
  {}

  // ---- the state of the scan ----

  /** Component starts at p when exactly MAX_ACTIVE_PIXELS pixels are already grouped: from here on
      every call of the flood fill stops at its own pixel and is dropped as an isolated pixel. */
  ghost predicate SilentOverflow(f: Frame, p: nat) requires f.Valid() {
    IsStart(f, p) && |Prefix(f, p)| == MAX_ACTIVE_PIXELS
  }

  ghost predicate Exact(f: Frame, k: nat, grouped: set<int>, groups: seq<Group>) requires f.Valid() {
    && grouped == Prefix(f, k) && grouped <= f.ActiveSet() && |grouped| <= MAX_ACTIVE_PIXELS
    && groups == GroupsOf(f, BigStarts(f, k)) && |groups| <= MAX_GROUPS
  }

  ghost predicate OverflowedAt(f: Frame, c: nat, grouped: set<int>, groups: seq<Group>) requires f.Valid() {
    && SilentOverflow(f, c) && grouped <= f.ActiveSet() && |grouped| > MAX_ACTIVE_PIXELS
    && groups == GroupsOf(f, BigStarts(f, c)) && |groups| <= MAX_GROUPS
  }

  ghost predicate ScanState(f: Frame, k: nat, grouped: set<int>, groups: seq<Group>) requires f.Valid() {
    Exact(f, k, grouped, groups) || exists c | 0 <= c < k :: OverflowedAt(f, c, grouped, groups)
  }

  /** The scan stopped at pixel k. */
  ghost predicate Rejected(f: Frame, k: nat, groups: seq<Group>) requires f.Valid() {
    && IsStart(f, k) && |BigStarts(f, k)| <= MAX_GROUPS
    && if |Prefix(f, k + 1)| > MAX_ACTIVE_PIXELS then |Prefix(f, k)| < MAX_ACTIVE_PIXELS && groups == []
       else |BigStarts(f, k + 1)| == MAX_GROUPS + 1 && Listing(f, BigStarts(f, k + 1), groups)
  }

  /** The groups are those of the given components, brightest first. */
  ghost predicate Listing(f: Frame, starts: seq<nat>, groups: seq<Group>) requires f.Valid() {
    multiset(groups) == multiset(GroupsOf(f, starts)) && Descending(groups)
  }

  /** What a top-level flood fill from pixel k has collected. */
  lemma FilledGroup(f: Frame, k: nat, base: set<int>, now: set<int>)
    requires f.Valid() && f.Active(k) && k !in base && k in now && Filled(f, k, base, now)
    ensures |now - base| == |now| - |base| && now - base <= Component(f, k)
    ensures WeightOf(now - base, f.pix) > 0
    ensures Closed(f, base) && ClosedOn(f, now - base, now) ==> now - base == Component(f, k)
  {
    assert now == base + (now - base);
    ActiveWeight(f, now - base, k, f.pix);
    if Closed(f, base) && ClosedOn(f, now - base, now) {
      ClosedSplitsComponents(f, base, k);
      ClosedSplitsComponents(f, now, k);
    }
  }

  lemma {:induction false} ActiveWeight(f: Frame, s: set<int>, k: nat, weights: seq<nat>)
    requires k in s && k < |weights| && weights[k] > 0
    ensures WeightOf(s, weights) > 0
  {
    var n := |weights| - 1;
    if k < n {
      ActiveWeight(f, s, k, weights[..n]);
    }
  }

  lemma ScanStarts(f: Frame)
    requires f.Valid()
    ensures ScanState(f, 0, {}, [])
  {
    assert Exact(f, 0, {}, []);
  }

  lemma GroupedIsActive(f: Frame, k: nat, grouped: set<int>, groups: seq<Group>)
    requires f.Valid() && ScanState(f, k, grouped, groups)
    ensures grouped <= f.ActiveSet()
  {}

  lemma NothingNew(f: Frame, k: nat, grouped: set<int>, groups: seq<Group>)
    requires f.Valid() && k < |f.pix| && ScanState(f, k, grouped, groups)
    requires f.Active(k) ==> k in grouped
    ensures ScanState(f, k + 1, grouped, groups)
  {
    PrefixStep(f, k);
  }

  /** What a top-level flood fill from pixel k means for the scan. */
  ghost predicate FillOutcome(f: Frame, k: nat, gs: seq<Group>, now: set<int>, g: Group) requires f.Valid() {
    if g.pixelCount < MIN_PIXELS_PER_GROUP then ScanState(f, k + 1, now, gs)
    else if |now| > MAX_ACTIVE_PIXELS then Rejected(f, k, [])
    else if |gs| < MAX_GROUPS then ScanState(f, k + 1, now, gs + [Finished(g)])
    else forall sorted | multiset(sorted) == multiset(gs + [Finished(g)]) && Descending(sorted) ::
      Rejected(f, k, sorted)
  }

  lemma AfterFill(f: Frame, k: nat, gs: seq<Group>, base: set<int>, now: set<int>, g: Group)
    requires f.Valid() && ScanState(f, k, base, gs) && f.Active(k) && k !in base
    requires Filled(f, k, base, now) && k in now && g == RawGroup(f, now - base)
    requires |now| <= MAX_ACTIVE_PIXELS ==> ClosedOn(f, now - base, now)
    requires |base| >= MAX_ACTIVE_PIXELS ==> now == base + {k}
    ensures g.valueSum > 0 && FillOutcome(f, k, gs, now, g)
  {
    FilledGroup(f, k, base, now);
    if Exact(f, k, base, gs) {
      FillWhileExact(f, k, gs, base, now, g);
    } else {
      hide Component, BigStarts, RawGroup, ClosedOn;
      var c :| 0 <= c < k && OverflowedAt(f, c, base, gs);
      assert OverflowedAt(f, c, now, gs);
      OneMorePixel(f, base, k);
    }
  }

  lemma OneMorePixel(f: Frame, base: set<int>, k: nat)
    requires f.Valid() && k !in base
    ensures RawGroup(f, (base + {k}) - base).pixelCount == 1
  {
    assert (base + {k}) - base == {k};
  }

  lemma FillWhileExact(f: Frame, k: nat, gs: seq<Group>, base: set<int>, now: set<int>, g: Group)
    requires f.Valid() && Exact(f, k, base, gs) && f.Active(k) && k !in base
    requires Filled(f, k, base, now) && k in now && g == RawGroup(f, now - base)
    requires |now| <= MAX_ACTIVE_PIXELS ==> ClosedOn(f, now - base, now)
    requires |base| >= MAX_ACTIVE_PIXELS ==> now == base + {k}
    ensures FillOutcome(f, k, gs, now, g)
  {
    hide Component, BigStarts;
    FilledGroup(f, k, base, now);
    PrefixStep(f, k);
    PrefixClosed(f, k);
    if |now| <= MAX_ACTIVE_PIXELS {
      assert now == base + (now - base);
      AfterExactFill(f, k, gs, base, now, g);
    } else {
      SubsetCardinality(now, Prefix(f, k + 1));
      if |base| == MAX_ACTIVE_PIXELS {
        assert OverflowedAt(f, k, now, gs);
      }
    }
  }

  lemma AfterExactFill(f: Frame, k: nat, gs: seq<Group>, base: set<int>, now: set<int>, g: Group)
    requires f.Valid() && Exact(f, k, base, gs) && f.Active(k) && k !in base
    requires now <= f.ActiveSet() && now == base + Component(f, k) && |now| <= MAX_ACTIVE_PIXELS
    requires g == RawGroup(f, Component(f, k))
    ensures FillOutcome(f, k, gs, now, g)
  {
    assert g.pixelCount == |Component(f, k)|;
    assert now == Prefix(f, k + 1);
    StartAfterFill(f, k, base);
    hide Component, Connected, WeightOf, MaxOf, Rejected, BigStarts, Prefix;
    if g.pixelCount < MIN_PIXELS_PER_GROUP {
      assert Exact(f, k + 1, now, gs);
    } else {
      KeptAfterFill(f, k, gs, now, g);
    }
  }

  lemma KeptAfterFill(f: Frame, k: nat, gs: seq<Group>, now: set<int>, g: Group)
    requires f.Valid() && now == Prefix(f, k + 1) && now <= f.ActiveSet() && |now| <= MAX_ACTIVE_PIXELS
    requires gs == GroupsOf(f, BigStarts(f, k)) && |gs| <= MAX_GROUPS && IsStart(f, k)
    requires BigStarts(f, k + 1) == BigStarts(f, k) + [k]
    requires g.pixelCount >= MIN_PIXELS_PER_GROUP && Finished(g) == GroupOf(f, Component(f, k))
    ensures FillOutcome(f, k, gs, now, g)
  {
    hide Component, BigStarts, Prefix, IsStart, Finished, GroupOf, Rejected, Frame.ActiveSet;
    GroupsOfSnoc(f, BigStarts(f, k), k);
    if |gs| < MAX_GROUPS {
      assert Exact(f, k + 1, now, gs + [Finished(g)]);
    } else {
      LimitReached(f, k, gs + [Finished(g)]);
    }
  }

  lemma StartAfterFill(f: Frame, k: nat, base: set<int>)
    requires f.Valid() && f.Active(k) && base == Prefix(f, k) && k !in base
    ensures BigStarts(f, k + 1) ==
            BigStarts(f, k) + if |Component(f, k)| < MIN_PIXELS_PER_GROUP then [] else [k]
    ensures IsStart(f, k)
  {
    hide Component;
  }

  lemma LimitReached(f: Frame, k: nat, groups: seq<Group>)
    requires f.Valid() && IsStart(f, k) && |BigStarts(f, k)| == MAX_GROUPS && |Prefix(f, k + 1)| <= MAX_ACTIVE_PIXELS
    requires groups == GroupsOf(f, BigStarts(f, k + 1)) && |groups| == MAX_GROUPS + 1
    ensures forall sorted | multiset(sorted) == multiset(groups) && Descending(sorted) :: Rejected(f, k, sorted)
  {
    hide Component, BigStarts, Prefix, IsStart;
  }

  lemma GroupsOfSnoc(f: Frame, starts: seq<nat>, k: nat)
    requires f.Valid()
    ensures GroupsOf(f, starts + [k]) == GroupsOf(f, starts) + [GroupOf(f, Component(f, k))]
  {}

  // ---- what a run returns ----

  /** The components that the scan of the whole frame keeps, by first pixel. */
  ghost function Kept(f: Frame): seq<nat> requires f.Valid() {
    BigStarts(f, |f.pix|)
  }

  /** Some component starts exactly at the pixel limit, before the group limit is passed. */
  ghost predicate MissesOverflow(f: Frame) requires f.Valid() {
    exists c | 0 <= c < |f.pix| :: SilentOverflow(f, c) && |BigStarts(f, c)| <= MAX_GROUPS
  }

  /** The result for a frame, in every case. */
  ghost predicate Verdict(f: Frame, groups: seq<Group>, count: int) requires f.Valid() {
    var active := |f.ActiveSet()|;
    && (active <= MAX_ACTIVE_PIXELS && |Kept(f)| <= MAX_GROUPS ==>
          count == |Kept(f)| && Listing(f, Kept(f), groups))
    && (active <= MAX_ACTIVE_PIXELS && |Kept(f)| > MAX_GROUPS ==>
          count == -1 && Listing(f, Kept(f)[..MAX_GROUPS + 1], groups))
    && (active > MAX_ACTIVE_PIXELS && !MissesOverflow(f) ==>
          count == -1 && (groups == [] || (|Kept(f)| > MAX_GROUPS && Listing(f, Kept(f)[..MAX_GROUPS + 1], groups))))
    && (active > MAX_ACTIVE_PIXELS && MissesOverflow(f) ==>
          exists c | 0 <= c < |f.pix| && SilentOverflow(f, c) ::
            count == |BigStarts(f, c)| && Listing(f, BigStarts(f, c), groups))
  }

  lemma UnionGrows<T>(a: set<T>, b: set<T>, c: set<T>)
    requires a <= b
    ensures a <= b + c && |a| <= |b + c|
  {
    SubsetCardinality(a, b + c);
  }

  lemma {:induction false} PrefixMono(f: Frame, k: nat, n: nat)
    requires f.Valid() && k <= n
    ensures Prefix(f, k) <= Prefix(f, n) && |Prefix(f, k)| <= |Prefix(f, n)|
    decreases n
  {
    hide Component;
    if k < n {
      PrefixMono(f, k, n - 1);
      UnionGrows(Prefix(f, k), Prefix(f, n - 1), Component(f, n - 1));
    }
  }

  lemma {:induction false} BigStartsExtend(f: Frame, k: nat, n: nat)
    requires f.Valid() && k <= n
    ensures BigStarts(f, k) <= BigStarts(f, n)
    decreases n
  {
    if k < n {
      BigStartsExtend(f, k, n - 1);
      assert BigStarts(f, n - 1) <= BigStarts(f, n);
    }
  }

  lemma {:induction false} PrefixHas(f: Frame, k: nat, q: int)
    requires f.Valid()
    ensures q in Prefix(f, k) <==> exists r :: 0 <= r < k && q in Component(f, r)
  {
    if k > 0 {
      PrefixHas(f, k - 1, q);
    }
  }

  lemma PrefixAll(f: Frame)
    requires f.Valid()
    ensures Prefix(f, |f.pix|) == f.ActiveSet()
  {
    PrefixClosed(f, |f.pix|);
    forall q | q in f.ActiveSet() ensures q in Prefix(f, |f.pix|) {
      ConnectedSelf(f, q);
      assert q in Component(f, q);
      PrefixHas(f, |f.pix|, q);
    }
  }

  /** Scanning a start pixel passes the number grouped before it. */
  lemma StartGrows(f: Frame, c: nat, n: nat)
    requires f.Valid() && IsStart(f, c) && c < n
    ensures |Prefix(f, c)| < |Prefix(f, n)|
  {
    PrefixStep(f, c);
    PrefixMono(f, c, c + 1);
    SubsetCardinality(Prefix(f, c), Prefix(f, c + 1));
    PrefixMono(f, c + 1, n);
  }

  lemma RejectedVerdict(f: Frame, k: nat, groups: seq<Group>)
    requires f.Valid() && k < |f.pix| && Rejected(f, k, groups)
    ensures Verdict(f, groups, -1)
  {
    PrefixAll(f);
    PrefixMono(f, k + 1, |f.pix|);
    BigStartsExtend(f, k + 1, |f.pix|);
    NoOverflowMissed(f, k, groups);
    if |Prefix(f, k + 1)| <= MAX_ACTIVE_PIXELS {
      assert Kept(f)[..MAX_GROUPS + 1] == BigStarts(f, k + 1);
    }
  }

  lemma NoOverflowMissed(f: Frame, k: nat, groups: seq<Group>)
    requires f.Valid() && k < |f.pix| && Rejected(f, k, groups)
    ensures !MissesOverflow(f)
  {
    forall c | 0 <= c < |f.pix| && SilentOverflow(f, c) ensures |BigStarts(f, c)| > MAX_GROUPS {
      NotSilentThere(f, k, c, groups);
    }
  }

  lemma NotSilentThere(f: Frame, k: nat, c: nat, groups: seq<Group>)
    requires f.Valid() && k < |f.pix| && Rejected(f, k, groups) && SilentOverflow(f, c)
    ensures |BigStarts(f, c)| > MAX_GROUPS
  {
    hide Prefix, BigStarts, Listing;
    if c <= k {
      StartGrows(f, c, k + 1);
      if c < k {
        StartGrows(f, c, k);
      }
    } else {
      PrefixMono(f, k + 1, c);
      BigStartsExtend(f, k + 1, c);
    }
  }

  lemma AcceptedVerdict(f: Frame, grouped: set<int>, unsorted: seq<Group>, groups: seq<Group>)
    requires f.Valid() && ScanState(f, |f.pix|, grouped, unsorted)
    requires multiset(groups) == multiset(unsorted) && |groups| == |unsorted| && Descending(groups)
    ensures Verdict(f, groups, |groups|)
  {
    PrefixAll(f);
    if !Exact(f, |f.pix|, grouped, unsorted) {
      var c :| 0 <= c < |f.pix| && OverflowedAt(f, c, grouped, unsorted);
      StartGrows(f, c, |f.pix|);
      assert Listing(f, BigStarts(f, c), groups);
    }
  }
}
