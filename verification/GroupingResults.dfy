/** What a grouping run returns, over every frame: the listing is exact, pixels are conserved,
    centroids stay inside their groups, and the one way a frame over the pixel limit gets through. */
module GroupingResults {
  import opened Basics
  import opened PixelGrouping

  // ---- what the kept components are ----

  lemma SameComponent(f: Frame, p: int, q: int)
    requires f.Valid() && q in Component(f, p)
    ensures Component(f, q) == Component(f, p) && p in Component(f, q)
  {
    var path :| Path(f, path) && path[0] == p && path[|path| - 1] == q;
    ConnectedSelf(f, q);
    ComponentClosed(f, q);
    ComponentClosed(f, p);
    ClosedAlongPath(f, Component(f, q), path, |path| - 1);
    ClosedSplitsComponents(f, Component(f, q), p);
    ClosedSplitsComponents(f, Component(f, p), q);
  }

  lemma {:induction false} BigStartsAre(f: Frame, k: nat, s: nat)
    requires f.Valid()
    ensures s in BigStarts(f, k) <==> s < k && IsStart(f, s) && |Component(f, s)| >= MIN_PIXELS_PER_GROUP
  {
    hide Component, Prefix;
    if k > 0 {
      BigStartsAre(f, k - 1, s);
    }
  }

  ghost predicate Ascending(starts: seq<nat>, k: nat) {
    (forall m, n | 0 <= m < n < |starts| :: starts[m] < starts[n]) && forall n | 0 <= n < |starts| :: starts[n] < k
  }

  lemma AscendingSnoc(starts: seq<nat>, k: nat)
    requires Ascending(starts, k)
    ensures Ascending(starts, k + 1) && Ascending(starts + [k], k + 1)
  {}

  lemma {:induction false} BigStartsAscend(f: Frame, k: nat)
    requires f.Valid()
    ensures Ascending(BigStarts(f, k), k)
  {
    assert Ascending([], 0);
    hide Component, Prefix, Ascending;
    if k > 0 {
      BigStartsAscend(f, k - 1);
      AscendingSnoc(BigStarts(f, k - 1), k - 1);
    }
  }

  /** Every component of two or more pixels is kept; KeptApart says no two kept ones overlap. */
  lemma KeptAll(f: Frame, p: nat)
    requires f.Valid() && f.Active(p) && |Component(f, p)| >= MIN_PIXELS_PER_GROUP
    ensures exists n | 0 <= n < |Kept(f)| :: Component(f, Kept(f)[n]) == Component(f, p)
  {
    ConnectedSelf(f, p);
    var s := FirstOf(f, p, p);
    SameComponent(f, p, s);
    BigStartsAre(f, |f.pix|, s);
    var starts := Kept(f);
    var n :| 0 <= n < |starts| && starts[n] == s;
  }

  lemma KeptApart(f: Frame, m: nat, n: nat)
    requires f.Valid() && m < n < |Kept(f)|
    ensures Component(f, Kept(f)[m]) !! Component(f, Kept(f)[n])
  {
    BigStartsAscend(f, |f.pix|);
    StartsApart(f, Kept(f)[m], Kept(f)[n]);
  }

  lemma StartsApart(f: Frame, s: nat, t: nat)
    requires f.Valid() && s < t && t in Kept(f)
    ensures Component(f, s) !! Component(f, t)
  {
    BigStartsAre(f, |f.pix|, t);
    PrefixStep(f, t);
    PrefixMono(f, s + 1, t);
  }

  /** The first pixel, in raster order, of the component of p. */
  lemma {:induction false} FirstOf(f: Frame, p: nat, q: nat) returns (s: nat)
    requires f.Valid() && q in Component(f, p)
    ensures s in Component(f, p) && IsStart(f, s)
    decreases q
  {
    SameComponent(f, p, q);
    var path :| Path(f, path) && path[0] == p && path[|path| - 1] == q;
    PrefixHas(f, q, q);
    if q in Prefix(f, q) {
      var r :| 0 <= r < q && q in Component(f, r);
      SameComponent(f, r, q);
      s := FirstOf(f, p, r);
    } else {
      s := q;
    }
  }

  // ---- conservation of pixels ----

  ghost function Isolated(f: Frame, k: nat): set<int> requires f.Valid() {
    set p | 0 <= p < k && f.Active(p) && |Component(f, p)| == 1
  }

  ghost function PixelTotal(groups: seq<Group>): nat {
    if groups == [] then 0 else PixelTotal(groups[..|groups| - 1]) + groups[|groups| - 1].pixelCount
  }

  lemma PixelTotalSnoc(groups: seq<Group>, g: Group)
    ensures PixelTotal(groups + [g]) == PixelTotal(groups) + g.pixelCount
  {
    assert (groups + [g])[..|groups|] == groups;
  }

  lemma {:induction false} PrefixConserved(f: Frame, k: nat)
    requires f.Valid() && k <= |f.pix|
    ensures PixelTotal(GroupsOf(f, BigStarts(f, k))) + |Isolated(f, k)| == |Prefix(f, k)|
  {
    hide Component, GroupOf;
    if k > 0 {
      var p := k - 1;
      PrefixConserved(f, p);
      PrefixStep(f, p);
      if f.Active(p) {
        PixelConserved(f, p);
      } else {
        assert Isolated(f, k) == Isolated(f, p);
      }
    }
  }

  lemma PixelConserved(f: Frame, p: nat)
    requires f.Valid() && p < |f.pix| && f.Active(p)
    requires PixelTotal(GroupsOf(f, BigStarts(f, p))) + |Isolated(f, p)| == |Prefix(f, p)|
    ensures PixelTotal(GroupsOf(f, BigStarts(f, p + 1))) + |Isolated(f, p + 1)| == |Prefix(f, p + 1)|
  {
    hide Component, GroupOf, GroupsOf, PixelTotal, Isolated;
    PrefixStep(f, p);
    IsolatedStep(f, p);
    if |Component(f, p)| == 1 {
      AloneIsStart(f, p);
    } else {
      GroupsOfSnoc(f, BigStarts(f, p), p);
      PixelTotalSnoc(GroupsOf(f, BigStarts(f, p)), GroupOf(f, Component(f, p)));
      assert GroupOf(f, Component(f, p)).pixelCount == |Component(f, p)| by { GroupCount(f, p); }
    }
  }

  lemma GroupCount(f: Frame, p: nat)
    requires f.Valid()
    ensures GroupOf(f, Component(f, p)).pixelCount == |Component(f, p)|
  {}

  lemma IsolatedStep(f: Frame, p: nat)
    requires f.Valid() && f.Active(p)
    ensures |Component(f, p)| >= 1
    ensures |Isolated(f, p + 1)| == |Isolated(f, p)| + if |Component(f, p)| == 1 then 1 else 0
  {
    hide Component;
    SelfInComponent(f, p);
    SubsetCardinality({p}, Component(f, p));
    assert Isolated(f, p + 1) == if |Component(f, p)| == 1 then Isolated(f, p) + {p} else Isolated(f, p);
  }

  lemma SelfInComponent(f: Frame, p: nat)
    requires f.Valid() && f.Active(p)
    ensures p in Component(f, p)
  {
    ConnectedSelf(f, p);
  }

  lemma AloneIsStart(f: Frame, p: nat)
    requires f.Valid() && p < |f.pix| && f.Active(p) && |Component(f, p)| == 1
    ensures IsStart(f, p)
  {
    if p in Prefix(f, p) {
      PrefixHas(f, p, p);
      var r :| 0 <= r < p && p in Component(f, r);
      SameComponent(f, r, p);
      ConnectedSelf(f, p);
      SubsetCardinality({p as int, r}, Component(f, p));
      assert false;
    }
  }

  lemma {:induction false} PixelTotalPermutes(a: seq<Group>, b: seq<Group>)
    requires multiset(a) == multiset(b)
    ensures PixelTotal(a) == PixelTotal(b)
  {
    if a == [] {
      assert |b| == |multiset(b)| == 0;
    } else {
      var g, c := a[|a| - 1], a[..|a| - 1];
      assert a == c + [g];
      assert g in multiset(b);
      var n :| 0 <= n < |b| && b[n] == g;
      assert b == b[..n] + [g] + b[n + 1..];
      assert multiset(b) == multiset(b[..n]) + multiset{g} + multiset(b[n + 1..]);
      assert multiset(c) == multiset(a) - multiset{g};
      assert multiset(b[..n] + b[n + 1..]) == multiset(b) - multiset{g};
      PixelTotalPermutes(c, b[..n] + b[n + 1..]);
      PixelTotalMiddle(b[..n], g, b[n + 1..]);
    }
  }

  lemma {:induction false} PixelTotalMiddle(a: seq<Group>, g: Group, b: seq<Group>)
    ensures PixelTotal(a + [g] + b) == PixelTotal(a + b) + g.pixelCount
    decreases |b|
  {
    if b == [] {
      assert a + [g] + b == a + [g] && a + b == a;
      PixelTotalSnoc(a, g);
    } else {
      var c, h := b[..|b| - 1], b[|b| - 1];
      PixelTotalMiddle(a, g, c);
      assert a + [g] + b == (a + [g] + c) + [h] && a + b == (a + c) + [h];
      PixelTotalSnoc(a + [g] + c, h);
      PixelTotalSnoc(a + c, h);
    }
  }

  /** Every pixel above the threshold is counted by exactly one group, or is isolated. */
  lemma PixelsConserved(f: Frame, groups: seq<Group>, count: int)
    requires f.Valid() && Verdict(f, groups, count) && |f.ActiveSet()| <= MAX_ACTIVE_PIXELS && count >= 0
    ensures PixelTotal(groups) + |Isolated(f, |f.pix|)| == |f.ActiveSet()|
  {
    PrefixAll(f);
    PrefixConserved(f, |f.pix|);
    PixelTotalPermutes(groups, GroupsOf(f, Kept(f)));
  }

  // ---- centroids ----

  lemma {:induction false} WeightBetween(s: set<int>, a: seq<nat>, b: seq<nat>, lo: nat, hi: nat)
    requires |a| == |b|
    requires forall k | k in s && 0 <= k < |a| :: lo * a[k] <= b[k] <= hi * a[k]
    ensures lo * WeightOf(s, a) <= WeightOf(s, b) <= hi * WeightOf(s, a)
  {
    if a != [] {
      var n := |a| - 1;
      WeightBetween(s, a[..n], b[..n], lo, hi);
      Distribute(lo, WeightOf(s, a[..n]), a[n]);
      Distribute(hi, WeightOf(s, a[..n]), a[n]);
    }
  }

  lemma Distribute(c: nat, a: nat, b: nat)
    ensures c * (a + b) == c * a + c * b
  {}

  lemma QuotientBetween(a: nat, b: nat, lo: nat, hi: nat)
    requires a > 0 && lo * a <= b <= hi * a
    ensures lo as real <= b as real / a as real <= hi as real
  {
    assert lo as real * a as real <= b as real <= hi as real * a as real;
  }

  /** The centroid of a group lies in every row and column range that holds its pixels. */
  lemma CentroidInBox(f: Frame, p: nat, r0: nat, r1: nat, c0: nat, c1: nat)
    requires f.Valid() && f.Active(p)
    requires forall q | q in Component(f, p) :: r0 <= f.Row(q) <= r1 && c0 <= f.Col(q) <= c1
    ensures var g := GroupOf(f, Component(f, p));
            r0 as real <= g.y <= r1 as real && c0 as real <= g.x <= c1 as real
  {
    var s := Component(f, p);
    ConnectedSelf(f, p);
    ActiveWeight(f, s, p, f.pix);
    hide WeightOf, MaxOf, Component, Connected;
    forall k | k in s && 0 <= k < |f.pix|
      ensures c0 * f.pix[k] <= f.ColWeights()[k] <= c1 * f.pix[k] && r0 * f.pix[k] <= f.RowWeights()[k] <= r1 * f.pix[k]
    {
      MulMono(c0, f.Col(k), f.pix[k]);
      MulMono(f.Col(k), c1, f.pix[k]);
      MulMono(r0, f.Row(k), f.pix[k]);
      MulMono(f.Row(k), r1, f.pix[k]);
    }
    WeightBetween(s, f.pix, f.ColWeights(), c0, c1);
    WeightBetween(s, f.pix, f.RowWeights(), r0, r1);
    QuotientBetween(WeightOf(s, f.pix), WeightOf(s, f.ColWeights()), c0, c1);
    QuotientBetween(WeightOf(s, f.pix), WeightOf(s, f.RowWeights()), r0, r1);
  }

  // ---- frames with too many active pixels that are not rejected ----

  /** No active pixel touches another. */
  ghost predicate AllIsolated(f: Frame) requires f.Valid() {
    forall p, q | f.Active(p) && f.Active(q) && f.Adjacent(p, q) :: p == q
  }

  lemma IsolatedComponent(f: Frame, p: nat)
    requires f.Valid() && p < |f.pix| && AllIsolated(f)
    ensures Component(f, p) == if f.Active(p) then {p as int} else {}
  {
    if f.Active(p) {
      ConnectedSelf(f, p);
      assert Closed(f, {p});
      ClosedSplitsComponents(f, {p}, p);
    } else {
      assert forall path | Path(f, path) :: f.Active(path[0]);
    }
  }

  /** The scan of isolated pixels: it meets them one by one and keeps none. */
  lemma {:induction false} IsolatedPrefix(f: Frame, k: nat)
    requires f.Valid() && k <= |f.pix| && AllIsolated(f)
    ensures BigStarts(f, k) == [] && forall q | q in Prefix(f, k) :: q < k
    ensures k > 0 ==> |Prefix(f, k)| == |Prefix(f, k - 1)| + if f.Active(k - 1) then 1 else 0
  {
    hide Component, AllIsolated;
    if k > 0 {
      IsolatedPrefix(f, k - 1);
      IsolatedComponent(f, k - 1);
    }
  }

  /** The pixel at which the scan of isolated pixels is at the limit. */
  lemma {:induction false} AtTheLimit(f: Frame, k: nat) returns (c: nat)
    requires f.Valid() && k <= |f.pix| && AllIsolated(f) && |Prefix(f, k)| > MAX_ACTIVE_PIXELS
    ensures c < k && SilentOverflow(f, c)
  {
    hide Component, AllIsolated, BigStarts;
    IsolatedPrefix(f, k);
    if |Prefix(f, k - 1)| > MAX_ACTIVE_PIXELS {
      c := AtTheLimit(f, k - 1);
    } else {
      IsolatedPrefix(f, k - 1);
      c := k - 1;
    }
  }

  /** Isolated pixels pass the limit without the frame ever being rejected: the answer is 0 groups. */
  lemma IsolatedNeverRejected(f: Frame)
    requires f.Valid() && AllIsolated(f) && |f.ActiveSet()| > MAX_ACTIVE_PIXELS
    ensures MissesOverflow(f) && forall groups, count :: Verdict(f, groups, count) ==> count == 0
  {
    hide AllIsolated;
    PrefixAll(f);
    var c := AtTheLimit(f, |f.pix|);
    IsolatedPrefix(f, c);
    assert MissesOverflow(f);
    forall groups, count | Verdict(f, groups, count)
      ensures count == 0
    {
      var d :| 0 <= d < |f.pix| && SilentOverflow(f, d) && count == |BigStarts(f, d)|;
      IsolatedPrefix(f, d);
    }
  }

  // ---- the default threshold ----

  function Sum(pix: seq<nat>): nat { if pix == [] then 0 else Sum(pix[..|pix| - 1]) + pix[|pix| - 1] }

  /** With a histogram mean that is the truncated mean of the pixels, the default threshold makes those pixels active
      that are brighter than the exact mean by more than 50. */
  lemma DefaultActive(f: Frame, p: int)
    requires f.Valid() && |f.pix| > 0 && f.threshold == Sum(f.pix) / |f.pix| + 50 && 0 <= p < |f.pix|
    ensures f.Active(p) <==> f.pix[p] as real > Sum(f.pix) as real / |f.pix| as real + 50.0
  {
    hide Sum;
    MeanBelow(Sum(f.pix), |f.pix|, f.pix[p] as int - 50);
  }

  lemma MeanBelow(sum: nat, n: nat, v: int)
    requires n > 0
    ensures v > sum / n <==> v as real > sum as real / n as real
  {
    var q, m := sum / n, sum as real / n as real;
    assert n * q <= sum < n * q + n;
    assert m * n as real == sum as real;
    assert (n * q) as real == n as real * q as real;
    hide *;
    FloorBetween(m, n as real, q as real, sum as real);
  }

  lemma FloorBetween(m: real, n: real, q: real, sum: real)
    requires n > 0.0 && m * n == sum && n * q <= sum < n * q + n
    ensures q <= m < q + 1.0
  {
    if m >= q + 1.0 {
      Times(q + 1.0, m, n);
    }
  }

  lemma Times(a: real, b: real, n: real)
    requires a <= b && n > 0.0
    ensures a * n <= b * n
  {}

  // ---- such a frame from the camera ----

  /** A full camera frame that is bright in every other column of every other row. */
  ghost function DottedFrame(): (f: Frame)
    ensures f.Valid()
  {
    Frame(CAMERA_WIDTH, CAMERA_HEIGHT, seq(CAMERA_WIDTH * CAMERA_HEIGHT, k => Dot(k)), 50)
  }

  function Dot(k: int): nat { if k / CAMERA_WIDTH % 2 == 0 && k % 2 == 0 then 100 else 0 }

  lemma DotAt(p: int)
    requires 0 <= p < |DottedFrame().pix|
    ensures var f := DottedFrame();
            && (f.Active(p) <==> f.Row(p) % 2 == 0 && f.Col(p) % 2 == 0)
            && p == CAMERA_WIDTH * f.Row(p) + f.Col(p)
  {
    var f := DottedFrame();
    assert f.pix[p] == Dot(p);
    CoordinatesIndex(f, p);
    DotParity(p, f.Row(p), f.Col(p));
  }

  lemma DotParity(p: int, r: int, c: nat)
    requires c < CAMERA_WIDTH && p == CAMERA_WIDTH * r + c
    ensures Dot(p) > 50 <==> r % 2 == 0 && c % 2 == 0
  {
    Quotient(p, CAMERA_WIDTH, r, c);
    Quotient(p, 2, CAMERA_WIDTH / 2 * r + c / 2, c % 2);
  }

  lemma DotsIsolated()
    ensures AllIsolated(DottedFrame())
  {
    var f := DottedFrame();
    forall p, q | f.Active(p) && f.Active(q) && f.Adjacent(p, q)
      ensures p == q
    {
      DotAt(p);
      DotAt(q);
    }
  }

  /** The scan meets half a row of dots every two rows. */
  lemma {:induction false} DotsMet(i: nat, j: nat)
    requires 2 * i < CAMERA_HEIGHT && 2 * j <= CAMERA_WIDTH
    ensures |Prefix(DottedFrame(), 2 * CAMERA_WIDTH * i + 2 * j)| >= CAMERA_WIDTH / 2 * i + j
    decreases i, j
  {
    hide DottedFrame, Component, Prefix, AllIsolated;
    var f := DottedFrame();
    if j > 0 {
      var k := 2 * CAMERA_WIDTH * i + 2 * (j - 1);
      DotsMet(i, j - 1);
      FrameSize();
      DotsIsolated();
      DotInRow(i, j - 1);
      IsolatedPrefix(f, k + 1);
      PrefixMono(f, k + 1, k + 2);
    } else if i > 0 {
      DotsMet(i - 1, CAMERA_WIDTH / 2);
      PrefixMono(f, 2 * CAMERA_WIDTH * (i - 1) + CAMERA_WIDTH, 2 * CAMERA_WIDTH * i);
    }
  }

  lemma FrameSize()
    ensures |DottedFrame().pix| == CAMERA_WIDTH * CAMERA_HEIGHT
  {}

  lemma DotInRow(i: nat, j: nat)
    requires 2 * i < CAMERA_HEIGHT && 2 * j < CAMERA_WIDTH
    ensures DottedFrame().Active(2 * CAMERA_WIDTH * i + 2 * j)
  {
    var k := CAMERA_WIDTH * (2 * i) + 2 * j;
    FrameSize();
    DotParity(k, 2 * i, 2 * j);
    hide Dot;
    assert DottedFrame().pix[k] == Dot(k);
  }

  /** So the camera can deliver a frame with more than a million bright pixels that is answered with 0 groups. */
  lemma OverflowCanBeMissed()
    ensures var f := DottedFrame();
            |f.ActiveSet()| > 10 * MAX_ACTIVE_PIXELS && MissesOverflow(f) &&
            forall groups, count :: Verdict(f, groups, count) ==> count == 0
  {
    hide DottedFrame, Component, Prefix;
    var f := DottedFrame();
    DotsMet(CAMERA_HEIGHT / 2 - 1, CAMERA_WIDTH / 2);
    FrameSize();
    PrefixAll(f);
    PrefixMono(f, 2 * CAMERA_WIDTH * (CAMERA_HEIGHT / 2 - 1) + CAMERA_WIDTH, |f.pix|);
    DotsIsolated();
    IsolatedNeverRejected(f);
  }
}
