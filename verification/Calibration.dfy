/** The mirror calibration of pat/calibration.cpp: the affine fit and the sensitivity fit, computed in place
    over accumulators, are the unique least-squares solutions, and are defined exactly off a line. */
module Calibration {
  import opened LeastSquares

  // ---- maps from the detector to the mirror ----

  datatype Affine = Affine(a00: real, a01: real, t0: real, a10: real, a11: real, t1: real)

  function ImageX(m: Affine, x: real, y: real): real { m.a00 * x + m.a01 * y + m.t0 }

  function ImageY(m: Affine, x: real, y: real): real { m.a10 * x + m.a11 * y + m.t1 }

  function MissX(m: Affine, p: Pair): real { ImageX(m, p.x0, p.y0) - p.x1 }

  function MissY(m: Affine, p: Pair): real { ImageY(m, p.x0, p.y0) - p.y1 }

  /** How far a map is off on all points together. */
  function SquaredError(m: Affine, s: seq<Pair>): real {
    if s == [] then 0.0
    else
      var p := s[|s| - 1];
      SquaredError(m, s[..|s| - 1]) + MissX(m, p) * MissX(m, p) + MissY(m, p) * MissY(m, p)
  }

  /** No other map is as good. */
  ghost predicate Best(m: Affine, s: seq<Pair>) {
    forall o: Affine ::
      SquaredError(o, s) >= SquaredError(m, s) && (SquaredError(o, s) == SquaredError(m, s) ==> o == m)
  }

  predicate Linear(m: Affine) { m.t0 == 0.0 && m.t1 == 0.0 }

  /** No other map without an offset is as good. */
  ghost predicate BestLinear(m: Affine, s: seq<Pair>) {
    Linear(m) && forall o: Affine | Linear(o) ::
      SquaredError(o, s) >= SquaredError(m, s) && (SquaredError(o, s) == SquaredError(m, s) ==> o == m)
  }

  /** All detector positions on one line. */
  ghost predicate Collinear(s: seq<Pair>) { exists c0, c1, k :: OnLine(c0, c1, k, s) }

  ghost predicate CollinearWithOrigin(s: seq<Pair>) { exists c0, c1 :: OnLine(c0, c1, 0.0, s) }

  // ---- errors as forms ----

  function ErrorX(m: Affine): Form { Form(-m.a00, -m.a01, 1.0, 0.0, -m.t0) }

  function ErrorY(m: Affine): Form { Form(-m.a10, -m.a11, 0.0, 1.0, -m.t1) }

  lemma ErrorAt(m: Affine, p: Pair)
    ensures Times(At(ErrorX(m), p), At(ErrorX(m), p)) == MissX(m, p) * MissX(m, p)
    ensures Times(At(ErrorY(m), p), At(ErrorY(m), p)) == MissY(m, p) * MissY(m, p)
  {
    assert At(ErrorX(m), p) == -MissX(m, p) && At(ErrorY(m), p) == -MissY(m, p);
    hide At, ErrorX, ErrorY, MissX, MissY;
    SquareOfNegated(MissX(m, p));
    SquareOfNegated(MissY(m, p));
  }

  lemma {:induction false} ErrorIsDot(m: Affine, s: seq<Pair>)
    ensures SquaredError(m, s) == Dot(ErrorX(m), ErrorX(m), s) + Dot(ErrorY(m), ErrorY(m), s)
  {
    hide At, MissX, MissY, ErrorX, ErrorY, Times;
    if s != [] {
      var n := |s| - 1;
      ErrorIsDot(m, s[..n]);
      ErrorAt(m, s[n]);
    }
  }

  // ---- the linear fit ----

  function LinearFit(s: seq<Pair>): Affine requires Det(s) != 0.0 {
    Affine(FirstOf(U, s), SecondOf(U, s), 0.0, FirstOf(V, s), SecondOf(V, s), 0.0)
  }

  /** One row of a fit against the same row of another map, with residual r of the fit. */
  lemma RowBest(target: Form, other: Form, p: real, q: real, k: real, s: seq<Pair>)
    requires Det(s) != 0.0 && Offset(k, s) && (k == 0.0 || Dot(target, ONE, s) == 0.0)
    requires other == Plus(Residual(target, FirstOf(target, s), SecondOf(target, s)),
                           Line(FirstOf(target, s) - p, SecondOf(target, s) - q, k))
    ensures var r := Residual(target, FirstOf(target, s), SecondOf(target, s));
            && Dot(other, other, s) >= Dot(r, r, s)
            && (Dot(other, other, s) == Dot(r, r, s) ==>
                  p == FirstOf(target, s) && q == SecondOf(target, s) && (s != [] ==> k == 0.0))
  {
    hide *;
    var p', q' := FirstOf(target, s), SecondOf(target, s);
    var r := Residual(target, p', q');
    NormalEquations(target, s);
    ResidualSum(target, p', q', k, s);
    BestResidual(r, p' - p, q' - q, k, s);
  }

  lemma ResidualSum(target: Form, p: real, q: real, k: real, s: seq<Pair>)
    requires Offset(k, s) && (k == 0.0 || Dot(target, ONE, s) == 0.0)
    ensures k == 0.0 || Dot(Residual(target, p, q), ONE, s) == 0.0
  {
    hide Dot, Times, Residual;
    var r := Residual(target, p, q);
    DotSymmetric(r, ONE, s);
    DotSymmetric(target, ONE, s);
    DotSymmetric(X, ONE, s);
    DotSymmetric(Y, ONE, s);
    ResidualDot(target, p, q, ONE, s);
    TimesZero(p);
    TimesZero(q);
  }

  lemma LinearFitBest(s: seq<Pair>)
    requires Det(s) != 0.0
    ensures BestLinear(LinearFit(s), s)
  {
    hide Dot, Det, FirstOf, SecondOf, SquaredError, Times;
    var m := LinearFit(s);
    ErrorIsDot(m, s);
    RowForms(m);
    forall o: Affine | Linear(o)
      ensures SquaredError(o, s) >= SquaredError(m, s) && (SquaredError(o, s) == SquaredError(m, s) ==> o == m)
    {
      ErrorIsDot(o, s);
      RowForms(o);
      RowBest(U, ErrorX(o), o.a00, o.a01, 0.0, s);
      RowBest(V, ErrorY(o), o.a10, o.a11, 0.0, s);
    }
  }

  lemma RowForms(m: Affine)
    ensures ErrorX(m) == Plus(Residual(U, m.a00, m.a01), Line(0.0, 0.0, -m.t0))
    ensures ErrorY(m) == Plus(Residual(V, m.a10, m.a11), Line(0.0, 0.0, -m.t1))
    ensures m.t0 == 0.0 ==> ErrorX(m) == Residual(U, m.a00, m.a01)
    ensures m.t1 == 0.0 ==> ErrorY(m) == Residual(V, m.a10, m.a11)
  {}

  // ---- centring ----

  function Minus(p: Pair, c: Pair): Pair { Pair(p.x0 - c.x0, p.y0 - c.y0, p.x1 - c.x1, p.y1 - c.y1) }

  function Moved(s: seq<Pair>, c: Pair): (r: seq<Pair>)
    ensures |r| == |s| && forall i | 0 <= i < |s| :: r[i] == Minus(s[i], c)
  {
    seq(|s|, i requires 0 <= i < |s| => Minus(s[i], c))
  }

  function Centre(s: seq<Pair>): Pair requires s != [] {
    var n := |s| as real;
    Pair(Dot(X, ONE, s) / n, Dot(Y, ONE, s) / n, Dot(U, ONE, s) / n, Dot(V, ONE, s) / n)
  }

  function Centred(s: seq<Pair>): seq<Pair> { if s == [] then [] else Moved(s, Centre(s)) }

  /** The same form, for points moved by c. */
  function Unshift(w: Form, c: Pair): Form { w.(k := At(w, c)) }

  lemma AtMoved(w: Form, p: Pair, c: Pair)
    ensures At(Unshift(w, c), Minus(p, c)) == At(w, p)
  {
    assert w.x * (p.x0 - c.x0) == w.x * p.x0 - w.x * c.x0;
    assert w.y * (p.y0 - c.y0) == w.y * p.y0 - w.y * c.y0;
    assert w.u * (p.x1 - c.x1) == w.u * p.x1 - w.u * c.x1;
    assert w.v * (p.y1 - c.y1) == w.v * p.y1 - w.v * c.y1;
  }

  lemma {:induction false} DotMoved(w: Form, z: Form, s: seq<Pair>, c: Pair)
    ensures Dot(Unshift(w, c), Unshift(z, c), Moved(s, c)) == Dot(w, z, s)
  {
    hide At, Unshift, Minus, Times;
    if s != [] {
      var n := |s| - 1;
      DotMoved(w, z, s[..n], c);
      assert Moved(s, c)[..n] == Moved(s[..n], c);
      AtMoved(w, s[n], c);
      AtMoved(z, s[n], c);
    }
  }

  lemma {:induction false} CountIsDot(s: seq<Pair>)
    ensures Dot(ONE, ONE, s) == |s| as real
  {
    if s != [] {
      CountIsDot(s[..|s| - 1]);
      OneAt(s[|s| - 1]);
      hide At;
      assert Times(1.0, 1.0) == 1.0;
    }
  }

  lemma OneAt(p: Pair)
    ensures At(ONE, p) == 1.0 && At(X, p) == p.x0 && At(Y, p) == p.y0 && At(U, p) == p.x1 && At(V, p) == p.y1
  {}

  /** Around their centre, the points sum to 0 in a coordinate w. */
  lemma CentredSum(w: Form, s: seq<Pair>)
    requires s != [] && w.k == 0.0 && At(w, Centre(s)) == Dot(w, ONE, s) / |s| as real
    ensures Dot(w, ONE, Moved(s, Centre(s))) == 0.0
  {
    hide *;
    var c, n := Centre(s), |s| as real;
    var t := At(w, c);
    var back := Plus(w, Line(0.0, 0.0, -t));
    ShiftBack(w, c);
    DotMoved(back, ONE, s, c);
    DotSymmetric(back, ONE, s);
    DotSymmetric(w, ONE, s);
    DotPlus(ONE, w, Line(0.0, 0.0, -t), s);
    DotLine(ONE, 0.0, 0.0, -t, s);
    TimesZero(Dot(ONE, X, s));
    TimesZero(Dot(ONE, Y, s));
    CountIsDot(s);
    TimesQuotient(Dot(w, ONE, s), n);
  }

  lemma TimesQuotient(x: real, n: real)
    requires n != 0.0
    ensures Times(-(x / n), n) == -x
  {
    var q := x / n;
    assert q * n == x;
    assert -q * n == -(q * n);
  }

  lemma ShiftBack(w: Form, c: Pair)
    requires w.k == 0.0
    ensures Unshift(ONE, c) == ONE && Unshift(Plus(w, Line(0.0, 0.0, -At(w, c))), c) == w
  {}

  lemma CentredSums(s: seq<Pair>)
    requires s != []
    ensures Dot(X, ONE, Centred(s)) == 0.0 && Dot(Y, ONE, Centred(s)) == 0.0
    ensures Dot(U, ONE, Centred(s)) == 0.0 && Dot(V, ONE, Centred(s)) == 0.0
  {
    OneAt(Centre(s));
    hide At, Dot;
    CentredSum(X, s);
    CentredSum(Y, s);
    CentredSum(U, s);
    CentredSum(V, s);
  }

  // ---- the affine fit ----

  /** The fit of the centred points, with the offset that puts it back. */
  function Fit(s: seq<Pair>): Affine requires s != [] && Det(Centred(s)) != 0.0 {
    var l, c := LinearFit(Centred(s)), Centre(s);
    Affine(l.a00, l.a01, c.x1 - l.a00 * c.x0 - l.a01 * c.y0, l.a10, l.a11, c.y1 - l.a10 * c.x0 - l.a11 * c.y0)
  }

  /** How far off a map's offset is at a point. */
  lemma ErrorForms(m: Affine, c: Pair)
    ensures Unshift(ErrorX(m), c) == Plus(Residual(U, m.a00, m.a01), Line(0.0, 0.0, -MissX(m, c)))
    ensures Unshift(ErrorY(m), c) == Plus(Residual(V, m.a10, m.a11), Line(0.0, 0.0, -MissY(m, c)))
  {}

  lemma Regroup(target: Form, p: real, q: real, p': real, q': real, k: real)
    ensures Plus(Residual(target, p, q), Line(0.0, 0.0, k)) == Plus(Residual(target, p', q'), Line(p' - p, q' - q, k))
  {}

  lemma FitOffsets(s: seq<Pair>)
    requires s != [] && Det(Centred(s)) != 0.0
    ensures MissX(Fit(s), Centre(s)) == 0.0 && MissY(Fit(s), Centre(s)) == 0.0
  {
    hide LinearFit, Centre;
  }

  lemma NoOffset(w: Form)
    ensures Plus(w, Line(0.0, 0.0, -0.0)) == w
  {}

  /** The theorem: the affine fit is the unique best map. */
  lemma FitBest(s: seq<Pair>)
    requires s != [] && Det(Centred(s)) != 0.0
    ensures Best(Fit(s), s)
  {
    forall o: Affine
      ensures SquaredError(o, s) >= SquaredError(Fit(s), s)
      ensures SquaredError(o, s) == SquaredError(Fit(s), s) ==> o == Fit(s)
    {
      FitBeats(o, s);
    }
  }

  lemma FitBeats(o: Affine, s: seq<Pair>)
    requires s != [] && Det(Centred(s)) != 0.0
    ensures SquaredError(o, s) >= SquaredError(Fit(s), s)
    ensures SquaredError(o, s) == SquaredError(Fit(s), s) ==> o == Fit(s)
  {
    var m, c, t := Fit(s), Centre(s), Centred(s);
    FitRow(o, s);
    FitOffsets(s);
    hide FirstOf, SecondOf, SquaredError, Dot, Det, ErrorX, ErrorY, Unshift, Centre, Moved, Plus, Residual;
    ErrorIsDot(m, s);
    ErrorIsDot(o, s);
    DotMoved(ErrorX(m), ErrorX(m), s, c);
    DotMoved(ErrorY(m), ErrorY(m), s, c);
    DotMoved(ErrorX(o), ErrorX(o), s, c);
    DotMoved(ErrorY(o), ErrorY(o), s, c);
    ErrorForms(m, c);
    NoOffset(Residual(U, m.a00, m.a01));
    NoOffset(Residual(V, m.a10, m.a11));
    if o.a00 == m.a00 && o.a01 == m.a01 && MissX(o, c) == 0.0 {
      SameOffset(o, m, c);
    }
    SameOffset(o, m, c);
  }

  lemma SameOffset(o: Affine, m: Affine, c: Pair)
    requires MissX(m, c) == 0.0 && MissY(m, c) == 0.0
    ensures o.a00 == m.a00 && o.a01 == m.a01 && MissX(o, c) == 0.0 ==> o.t0 == m.t0
    ensures o.a10 == m.a10 && o.a11 == m.a11 && MissY(o, c) == 0.0 ==> o.t1 == m.t1
  {}

  /** Both rows of another map, over the centred points. */
  lemma FitRow(o: Affine, s: seq<Pair>)
    requires s != [] && Det(Centred(s)) != 0.0
    ensures var m, c, t := Fit(s), Centre(s), Centred(s);
            var rx, ry := Residual(U, m.a00, m.a01), Residual(V, m.a10, m.a11);
            var ox, oy := Unshift(ErrorX(o), c), Unshift(ErrorY(o), c);
            && Dot(ox, ox, t) >= Dot(rx, rx, t) && Dot(oy, oy, t) >= Dot(ry, ry, t)
            && (Dot(ox, ox, t) == Dot(rx, rx, t) ==> o.a00 == m.a00 && o.a01 == m.a01 && MissX(o, c) == 0.0)
            && (Dot(oy, oy, t) == Dot(ry, ry, t) ==> o.a10 == m.a10 && o.a11 == m.a11 && MissY(o, c) == 0.0)
  {
    hide FirstOf, SecondOf, Dot, Det, ErrorX, ErrorY, Unshift, Centre, MissX, MissY, Plus, Residual;
    var m, c, t := Fit(s), Centre(s), Centred(s);
    CentredSums(s);
    ErrorForms(o, c);
    var kx, ky := -MissX(o, c), -MissY(o, c);
    Regroup(U, o.a00, o.a01, m.a00, m.a01, kx);
    Regroup(V, o.a10, o.a11, m.a10, m.a11, ky);
    RowBest(U, Unshift(ErrorX(o), c), o.a00, o.a01, kx, t);
    RowBest(V, Unshift(ErrorY(o), c), o.a10, o.a11, ky, t);
  }

  // ---- when the fit exists ----

  /** The fit exists exactly when the points are not all on one line. */
  lemma CentredSingularIff(s: seq<Pair>)
    requires s != []
    ensures Det(Centred(s)) == 0.0 <==> Collinear(s)
  {
    hide Det, OnLine;
    var t := Centred(s);
    SingularIff(t);
    if Det(t) == 0.0 {
      var c0, c1 :| OnLine(c0, c1, 0.0, t);
      LineMovesBack(c0, c1, s);
    }
    if Collinear(s) {
      var c0, c1, k :| OnLine(c0, c1, k, s);
      LineMoves(c0, c1, k, s);
    }
  }

  lemma LineMovesBack(c0: real, c1: real, s: seq<Pair>)
    requires s != [] && OnLine(c0, c1, 0.0, Centred(s))
    ensures Collinear(s)
  {
    var c := Centre(s);
    var k := -(c0 * c.x0 + c1 * c.y0);
    assert Unshift(Line(c0, c1, k), c) == Line(c0, c1, 0.0);
    hide At, Centre, Unshift, Line, Minus;
    forall p | p in s ensures At(Line(c0, c1, k), p) == 0.0 {
      var i :| 0 <= i < |s| && p == s[i];
      assert Centred(s)[i] in Centred(s);
      AtMoved(Line(c0, c1, k), p, c);
    }
    assert OnLine(c0, c1, k, s);
  }

  lemma LineMoves(c0: real, c1: real, k: real, s: seq<Pair>)
    requires s != [] && OnLine(c0, c1, k, s)
    ensures Det(Centred(s)) == 0.0
  {
    var c, t := Centre(s), Centred(s);
    var k' := At(Line(c0, c1, k), c);
    assert Unshift(Line(c0, c1, k), c) == Line(c0, c1, k');
    hide At, Centre, Unshift, Line, Minus, Det;
    forall p | p in t ensures At(Line(c0, c1, k'), p) == 0.0 {
      var i :| 0 <= i < |t| && p == t[i];
      assert s[i] in s;
      AtMoved(Line(c0, c1, k), s[i], c);
    }
    CentredSums(s);
    LineMakesSingular(c0, c1, k', t);
  }

  /** Points that a map sends exactly where they belong give back that very map. */
  lemma ExactMapRecovered(m: Affine, s: seq<Pair>)
    requires s != [] && Det(Centred(s)) != 0.0
    requires forall p | p in s :: MissX(m, p) == 0.0 && MissY(m, p) == 0.0
    ensures Fit(s) == m
  {
    hide MissX, MissY, Fit;
    FitBeats(m, s);
    ExactMapHasNoError(m, s);
    ErrorNotNegative(Fit(s), s);
  }

  lemma {:induction false} ExactMapHasNoError(m: Affine, s: seq<Pair>)
    requires forall p | p in s :: MissX(m, p) == 0.0 && MissY(m, p) == 0.0
    ensures SquaredError(m, s) == 0.0
  {
    if s != [] {
      ExactMapHasNoError(m, s[..|s| - 1]);
      assert s[|s| - 1] in s;
      hide MissX, MissY;
      assert 0.0 * 0.0 == 0.0;
    }
  }

  lemma ErrorNotNegative(m: Affine, s: seq<Pair>)
    ensures SquaredError(m, s) >= 0.0
  {
    ErrorIsDot(m, s);
    DotPositive(ErrorX(m), s);
    DotPositive(ErrorY(m), s);
  }

  // ---- the differences of the first points ----

  /** The steps between the first n points. */
  function Deltas(s: seq<Pair>, n: nat): (d: seq<Pair>)
    requires n <= |s|
    ensures |d| == if n == 0 then 0 else n - 1
    ensures forall i | 0 <= i < |d| :: d[i] == Minus(s[i + 1], s[i])
  {
    if n == 0 then [] else seq(n - 1, i requires 0 <= i < n - 1 => Minus(s[i + 1], s[i]))
  }

  /** Centring does not change the steps, so the sensitivity fit may come before or after the affine fit. */
  lemma DeltasOfCentred(s: seq<Pair>, n: nat)
    requires n <= |s|
    ensures Deltas(Centred(s), n) == Deltas(s, n)
  {
    hide Centre;
  }

  /** The map sends every point exactly where it belongs. */
  ghost predicate Exact(m: Affine, s: seq<Pair>) { forall p | p in s :: MissX(m, p) == 0.0 && MissY(m, p) == 0.0 }

  /** A map without its offset, as it takes steps. */
  function LinearPart(m: Affine): Affine { m.(t0 := 0.0, t1 := 0.0) }

  lemma StepsExact(m: Affine, s: seq<Pair>, n: nat)
    requires n <= |s| && Exact(m, s)
    ensures Exact(LinearPart(m), Deltas(s, n))
  {
    hide MissX, MissY, LinearPart, Minus, Deltas, Exact;
    var d := Deltas(s, n);
    forall i | 0 <= i < |d|
      ensures MissX(LinearPart(m), d[i]) == 0.0 && MissY(LinearPart(m), d[i]) == 0.0
    {
      StepExact(m, s, i);
    }
    ExactByIndex(LinearPart(m), d);
  }

  lemma ExactByIndex(m: Affine, s: seq<Pair>)
    requires forall i | 0 <= i < |s| :: MissX(m, s[i]) == 0.0 && MissY(m, s[i]) == 0.0
    ensures Exact(m, s)
  {
    hide MissX, MissY;
  }

  lemma StepExact(m: Affine, s: seq<Pair>, i: nat)
    requires i + 1 < |s| && Exact(m, s)
    ensures MissX(LinearPart(m), Minus(s[i + 1], s[i])) == 0.0 && MissY(LinearPart(m), Minus(s[i + 1], s[i])) == 0.0
  {
    hide MissX, MissY, LinearPart, Minus;
    assert s[i] in s && s[i + 1] in s;
    MissOfStep(m, s[i + 1], s[i]);
  }

  lemma MissOfStep(m: Affine, p: Pair, q: Pair)
    ensures MissX(LinearPart(m), Minus(p, q)) == MissX(m, p) - MissX(m, q)
    ensures MissY(LinearPart(m), Minus(p, q)) == MissY(m, p) - MissY(m, q)
  {
    assert m.a00 * (p.x0 - q.x0) == m.a00 * p.x0 - m.a00 * q.x0;
    assert m.a01 * (p.y0 - q.y0) == m.a01 * p.y0 - m.a01 * q.y0;
    assert m.a10 * (p.x0 - q.x0) == m.a10 * p.x0 - m.a10 * q.x0;
    assert m.a11 * (p.y0 - q.y0) == m.a11 * p.y0 - m.a11 * q.y0;
  }

  /** Exactly mapped points give back the linear part of the map from their steps. */
  lemma ExactStepsRecovered(f: Affine, s: seq<Pair>, n: nat)
    requires n <= |s| && BestLinear(f, Deltas(s, n))
    ensures forall m | Exact(m, s) :: f == LinearPart(m)
  {
    hide MissX, MissY, SquaredError, Deltas;
    forall m | Exact(m, s)
      ensures f == LinearPart(m)
    {
      StepsExact(m, s, n);
      ExactMapHasNoError(LinearPart(m), Deltas(s, n));
      ErrorNotNegative(f, Deltas(s, n));
    }
  }

  /** The best map, when there is one, is the computed one, and takes the centre to the centre. */
  lemma BestTakesCentre(m: Affine, s: seq<Pair>)
    requires s != [] && !Collinear(s) && Best(m, s)
    ensures MissX(m, Centre(s)) == 0.0 && MissY(m, Centre(s)) == 0.0
  {
    hide Collinear, MissX, MissY, SquaredError, Det;
    CentredSingularIff(s);
    FitBest(s);
    assert SquaredError(m, s) == SquaredError(Fit(s), s);
    FitOffsets(s);
  }

  // ---- the calibration object ----

  /** What the loop over the products has added up. */
  ghost predicate Sums(yx: seq<real>, xx: seq<real>, s: seq<Pair>) {
    && |yx| == 4 && |xx| == 4
    && yx[0] == Dot(U, X, s) && yx[1] == Dot(U, Y, s) && yx[2] == Dot(V, X, s) && yx[3] == Dot(V, Y, s)
    && xx[0] == Dot(X, X, s) && xx[1] == Dot(X, Y, s) && xx[2] == Dot(Y, X, s) && xx[3] == Dot(Y, Y, s)
  }

  lemma NoSums()
    ensures Sums([0.0, 0.0, 0.0, 0.0], [0.0, 0.0, 0.0, 0.0], [])
  {}

  lemma MoreSums(yx: seq<real>, xx: seq<real>, s: seq<Pair>, p: Pair)
    requires Sums(yx, xx, s)
    ensures Sums([yx[0] + p.x1 * p.x0, yx[1] + p.x1 * p.y0, yx[2] + p.y1 * p.x0, yx[3] + p.y1 * p.y0],
                 [xx[0] + p.x0 * p.x0, xx[1] + p.x0 * p.y0, xx[2] + p.y0 * p.x0, xx[3] + p.y0 * p.y0], s + [p])
  {
    DotSnoc(U, X, s, p);
    DotSnoc(U, Y, s, p);
    DotSnoc(V, X, s, p);
    DotSnoc(V, Y, s, p);
    DotSnoc(X, X, s, p);
    DotSnoc(X, Y, s, p);
    DotSnoc(Y, X, s, p);
    DotSnoc(Y, Y, s, p);
    OneAt(p);
    hide Dot, At;
  }

  lemma DotSnoc(w: Form, z: Form, s: seq<Pair>, p: Pair)
    ensures Dot(w, z, s + [p]) == Dot(w, z, s) + Times(At(w, p), At(z, p))
  {
    assert (s + [p])[..|s|] == s;
  }

  /** The sums, and what they make of the inverse matrix and the four parameters; undefined on a line. */
  method FitLinear(points: seq<Pair>) returns (defined: bool, p00: real, p01: real, p10: real, p11: real)
    ensures defined <==> !CollinearWithOrigin(points)
    ensures defined ==> Det(points) != 0.0 && Affine(p00, p01, 0.0, p10, p11, 0.0) == LinearFit(points)
    ensures defined ==> BestLinear(Affine(p00, p01, 0.0, p10, p11, 0.0), points)
  {
    hide Dot, Sums, BestLinear, Times;
    var yx, xx := [0.0, 0.0, 0.0, 0.0], [0.0, 0.0, 0.0, 0.0];
    NoSums();
    assert points[..0] == [];
    for n := 0 to |points|
      invariant |yx| == 4 && |xx| == 4
      invariant Sums(yx, xx, points[..n])
    {
      var p := points[n];
      MoreSums(yx, xx, points[..n], p);
      assert points[..n] + [p] == points[..n + 1];
      yx := [yx[0] + p.x1 * p.x0, yx[1] + p.x1 * p.y0, yx[2] + p.y1 * p.x0, yx[3] + p.y1 * p.y0];
      xx := [xx[0] + p.x0 * p.x0, xx[1] + p.x0 * p.y0, xx[2] + p.y0 * p.x0, xx[3] + p.y0 * p.y0];
    }
    assert points[..|points|] == points;
    var d := xx[0] * xx[3] - xx[1] * xx[2];
    p00, p01, p10, p11 := 0.0, 0.0, 0.0, 0.0;
    defined := d != 0.0;
    SumsGiveDet(yx, xx, points);
    SingularIff(points);
    if defined {
      var inverse := [xx[3] / d, -xx[1] / d, -xx[2] / d, xx[0] / d];
      p00 := yx[0] * inverse[0] + yx[1] * inverse[2];
      p01 := yx[0] * inverse[1] + yx[1] * inverse[3];
      p10 := yx[2] * inverse[0] + yx[3] * inverse[2];
      p11 := yx[2] * inverse[1] + yx[3] * inverse[3];
      SumsGiveFit(yx, xx, points);
      LinearFitBest(points);
    }
  }

  lemma SumsGiveDet(yx: seq<real>, xx: seq<real>, s: seq<Pair>)
    requires Sums(yx, xx, s)
    ensures |xx| == 4 && Det(s) == xx[0] * xx[3] - xx[1] * xx[2]
  {
    hide Dot;
  }

  lemma SumsGiveFit(yx: seq<real>, xx: seq<real>, s: seq<Pair>)
    requires Sums(yx, xx, s) && Det(s) != 0.0
    ensures var d := xx[0] * xx[3] - xx[1] * xx[2];
            && d != 0.0
            && LinearFit(s) == Affine(yx[0] * (xx[3] / d) + yx[1] * (-xx[2] / d),
                                      yx[0] * (-xx[1] / d) + yx[1] * (xx[0] / d), 0.0,
                                      yx[2] * (xx[3] / d) + yx[3] * (-xx[2] / d),
                                      yx[2] * (-xx[1] / d) + yx[3] * (xx[0] / d), 0.0)
  {
    hide Dot;
    SumsGiveDet(yx, xx, s);
  }

  class Calibration {
    var a00: real
    var a01: real
    var a10: real
    var a11: real
    var t0: real
    var t1: real
    var s00: real
    var s01: real
    var s10: real
    var s11: real
    var affineDefined: bool       // false when the parameters came from a division by 0
    var sensitivityDefined: bool

    function TheAffine(): Affine reads this { Affine(a00, a01, t0, a10, a11, t1) }

    function TheSensitivity(): Affine reads this { Affine(s00, s01, 0.0, s10, s11, 0.0) }

    constructor ()
      ensures !affineDefined && !sensitivityDefined
    {
      a00, a01, a10, a11, t0, t1 := 0.0, 0.0, 0.0, 0.0, 0.0, 0.0;
      s00, s01, s10, s11 := 0.0, 0.0, 0.0, 0.0;
      affineDefined, sensitivityDefined := false, false;
    }

    /** The centre of all points. */
    method CentreOf(data: array<Pair>) returns (c: Pair)
      requires data.Length > 0
      ensures c == Centre(data[..])
    {
      hide Dot;
      var x0, y0, x1, y1 := 0.0, 0.0, 0.0, 0.0;
      DotOfNone();
      for n := 0 to data.Length
        invariant x0 == Dot(X, ONE, data[..n]) && y0 == Dot(Y, ONE, data[..n])
        invariant x1 == Dot(U, ONE, data[..n]) && y1 == Dot(V, ONE, data[..n])
      {
        var p := data[n];
        assert data[..n + 1] == data[..n] + [p];
        TotalSnoc(data[..n], p);
        x0 := x0 + p.x0;
        y0 := y0 + p.y0;
        x1 := x1 + p.x1;
        y1 := y1 + p.y1;
      }
      assert data[..data.Length] == data[..];
      var n := data.Length as real;
      c := Pair(x0 / n, y0 / n, x1 / n, y1 / n);
    }

    /** The affine fit; the points are left centred. */
    method CalculateAffineParameters(data: array<Pair>)
      modifies this, data
      ensures data[..] == Centred(old(data[..]))
      ensures affineDefined <==> !Collinear(old(data[..]))
      ensures affineDefined ==> Best(TheAffine(), old(data[..]))
      ensures affineDefined ==> forall m | Exact(m, old(data[..])) :: TheAffine() == m
      ensures sensitivityDefined == old(sensitivityDefined) && TheSensitivity() == old(TheSensitivity())
    {
      hide Collinear, Best, Exact, Centre, Det, LinearFit;
      ghost var s := data[..];
      if data.Length == 0 {
        affineDefined := false;
        NoPointsCollinear();
        return;
      }
      var centers := CentreOf(data);
      for n := 0 to data.Length
        invariant unchanged(this)
        invariant forall i | 0 <= i < data.Length :: data[i] == if i < n then Minus(s[i], centers) else s[i]
      {
        var p := data[n];
        data[n] := Pair(p.x0 - centers.x0, p.y0 - centers.y0, p.x1 - centers.x1, p.y1 - centers.y1);
      }
      assert data[..] == Centred(s);
      var defined, p00, p01, p10, p11 := FitLinear(data[..]);
      affineDefined := defined;
      OriginOrNot(s);
      if defined {
        a00, a01, a10, a11 := p00, p01, p10, p11;
        t0 := centers.x1 - a00 * centers.x0 - a01 * centers.y0;
        t1 := centers.y1 - a10 * centers.x0 - a11 * centers.y0;
        assert TheAffine() == Fit(s);
        FitBest(s);
        ExactFits(s);
      }
    }

    /** The sensitivity fit over the steps of the first quarter of the points, which stay as they are. */
    method CalculateSensitivityMatrix(data: array<Pair>)
      modifies this
      ensures sensitivityDefined <==> !CollinearWithOrigin(Deltas(data[..], data.Length / 4))
      ensures sensitivityDefined ==> BestLinear(TheSensitivity(), Deltas(data[..], data.Length / 4))
      ensures sensitivityDefined ==> forall m | Exact(m, data[..]) :: TheSensitivity() == LinearPart(m)
      ensures affineDefined == old(affineDefined) && TheAffine() == old(TheAffine())
    {
      hide CollinearWithOrigin, BestLinear, LinearFit, Det, Deltas, Exact;
      var deltas: seq<Pair> := [];
      ghost var quarter := data.Length / 4;
      var i := 1;
      FewDeltas(data[..]);
      while i < data.Length / 4
        invariant 1 <= i && (i <= quarter || i == 1) && unchanged(this)
        invariant deltas == Deltas(data[..], if i <= quarter then i else quarter)
      {
        var p, q := data[i], data[i - 1];
        MoreDeltas(data[..], i);
        deltas := deltas + [Pair(p.x0 - q.x0, p.y0 - q.y0, p.x1 - q.x1, p.y1 - q.y1)];
        i := i + 1;
      }
      assert deltas == Deltas(data[..], quarter);
      var defined, p00, p01, p10, p11 := FitLinear(deltas);
      sensitivityDefined := defined;
      if defined {
        s00, s01, s10, s11 := p00, p01, p10, p11;
        ExactStepsRecovered(TheSensitivity(), data[..], quarter);
      }
    }

    /** The end of a calibration run: it is a success with 50 points or more, wherever they are. */
    method Conclude(data: array<Pair>) returns (success: bool)
      modifies this, data
      ensures success <==> data.Length >= 50
      ensures !success ==> data[..] == old(data[..]) && unchanged(this)
      ensures success ==> (affineDefined <==> !Collinear(old(data[..])))
      ensures success && affineDefined ==> Best(TheAffine(), old(data[..]))
      ensures success ==> (sensitivityDefined <==> !CollinearWithOrigin(Deltas(old(data[..]), data.Length / 4)))
      ensures success && sensitivityDefined ==> BestLinear(TheSensitivity(), Deltas(old(data[..]), data.Length / 4))
      ensures success ==> forall m | Exact(m, old(data[..])) ::
                (affineDefined ==> TheAffine() == m) && (sensitivityDefined ==> TheSensitivity() == LinearPart(m))
    {
      hide Collinear, CollinearWithOrigin, Best, BestLinear, Exact;
      if data.Length < 50 {
        return false;
      }
      CalculateSensitivityMatrix(data);
      CalculateAffineParameters(data);
      return true;
    }

    /** The mirror position for a spot on the detector. The centre of the points a fit was made of goes to the centre
        of their mirror positions, and exactly mapped points go where they belong. */
    method AffineTransform(x: real, y: real) returns (fx: real, fy: real)
      ensures forall s | s != [] && !Collinear(s) && Best(TheAffine(), s) ::
                x == Centre(s).x0 && y == Centre(s).y0 ==> fx == Centre(s).x1 && fy == Centre(s).y1
      ensures forall s, p: Pair | Exact(TheAffine(), s) && p in s ::
                x == p.x0 && y == p.y0 ==> fx == p.x1 && fy == p.y1
      ensures forall u, v :: fx == u && fy == v <==> Exact(TheAffine(), [Pair(x, y, u, v)])
    {
      fx := a00 * x + a01 * y + t0;
      fy := a10 * x + a11 * y + t1;
      ghost var m := TheAffine();
      assert fx == ImageX(m, x, y) && fy == ImageY(m, x, y);
      forall s | s != [] && !Collinear(s) && Best(m, s)
        ensures ImageX(m, Centre(s).x0, Centre(s).y0) == Centre(s).x1
        ensures ImageY(m, Centre(s).x0, Centre(s).y0) == Centre(s).y1
      {
        BestTakesCentre(m, s);
      }
      forall s, p: Pair | Exact(m, s) && p in s
        ensures ImageX(m, p.x0, p.y0) == p.x1 && ImageY(m, p.x0, p.y0) == p.y1
      {
      }
      ImageIsExact(m, x, y);
      hide Collinear, Best, Centre, Exact, ImageX, ImageY;
    }

    /** The mirror step for a step on the detector. With exactly mapped points it is the step between the mirror
        positions of the two spots. */
    method TransformDelta(dx: real, dy: real) returns (fdx: real, fdy: real)
      ensures forall m, p, q: Pair | TheSensitivity() == LinearPart(m) && Exact(m, [p, q]) ::
                dx == p.x0 - q.x0 && dy == p.y0 - q.y0 ==> fdx == p.x1 - q.x1 && fdy == p.y1 - q.y1
      ensures forall u, v :: fdx == u && fdy == v <==> Exact(TheSensitivity(), [Pair(dx, dy, u, v)])
    {
      fdx := s00 * dx + s01 * dy;
      fdy := s10 * dx + s11 * dy;
      ghost var f := TheSensitivity();
      assert fdx == ImageX(f, dx, dy) && fdy == ImageY(f, dx, dy);
      forall m, p, q: Pair | f == LinearPart(m) && Exact(m, [p, q])
        ensures ImageX(f, p.x0 - q.x0, p.y0 - q.y0) == p.x1 - q.x1
        ensures ImageY(f, p.x0 - q.x0, p.y0 - q.y0) == p.y1 - q.y1
      {
        assert p in [p, q] && q in [p, q];
        MissOfStep(m, p, q);
      }
      ImageIsExact(f, dx, dy);
      hide Exact, LinearPart, ImageX, ImageY;
    }
  }

  lemma ImageOf(m: Affine, x: real, y: real, u: real, v: real)
    requires Exact(m, [Pair(x, y, u, v)])
    ensures u == ImageX(m, x, y) && v == ImageY(m, x, y)
  {
    assert Pair(x, y, u, v) in [Pair(x, y, u, v)];
  }

  lemma ImageIsExact(m: Affine, x: real, y: real)
    ensures forall u, v :: ImageX(m, x, y) == u && ImageY(m, x, y) == v <==> Exact(m, [Pair(x, y, u, v)])
  {
    forall u, v
      ensures ImageX(m, x, y) == u && ImageY(m, x, y) == v <==> Exact(m, [Pair(x, y, u, v)])
    {
      assert Pair(x, y, u, v) in [Pair(x, y, u, v)];
    }
  }

  lemma ExactFits(s: seq<Pair>)
    requires s != [] && Det(Centred(s)) != 0.0
    ensures forall m | Exact(m, s) :: Fit(s) == m
  {
    hide Fit, MissX, MissY;
    forall m | Exact(m, s) ensures Fit(s) == m {
      ExactMapRecovered(m, s);
    }
  }

  lemma FewDeltas(s: seq<Pair>)
    ensures Deltas(s, 0) == [] && (|s| >= 1 ==> Deltas(s, 1) == [])
  {}

  lemma MoreDeltas(s: seq<Pair>, i: nat)
    requires 1 <= i < |s|
    ensures Deltas(s, i + 1) == Deltas(s, i) + [Minus(s[i], s[i - 1])]
  {}

  lemma DotOfNone()
    ensures Dot(X, ONE, []) == 0.0 && Dot(Y, ONE, []) == 0.0 && Dot(U, ONE, []) == 0.0 && Dot(V, ONE, []) == 0.0
  {}

  lemma TotalSnoc(s: seq<Pair>, p: Pair)
    ensures Dot(X, ONE, s + [p]) == Dot(X, ONE, s) + p.x0 && Dot(Y, ONE, s + [p]) == Dot(Y, ONE, s) + p.y0
    ensures Dot(U, ONE, s + [p]) == Dot(U, ONE, s) + p.x1 && Dot(V, ONE, s + [p]) == Dot(V, ONE, s) + p.y1
  {
    DotSnoc(X, ONE, s, p);
    DotSnoc(Y, ONE, s, p);
    DotSnoc(U, ONE, s, p);
    DotSnoc(V, ONE, s, p);
    OneAt(p);
    hide Dot, At;
  }

  lemma NoPointsCollinear()
    ensures Collinear([])
  {
    assert OnLine(1.0, 0.0, 0.0, []);
  }

  lemma OriginOrNot(s: seq<Pair>)
    requires s != []
    ensures CollinearWithOrigin(Centred(s)) <==> Collinear(s)
  {
    hide Det, OnLine, Centred;
    SingularIff(Centred(s));
    CentredSingularIff(s);
  }

  /** Spots on a line of the detector, for any mirror positions: a run that succeeds with both fits undefined. */
  method SuccessCanBeUndefined(mirror: seq<(real, real)>) returns (success: bool, affine: bool, sensitivity: bool)
    requires 50 <= |mirror| <= 100
    ensures success && !affine && !sensitivity
  {
    var data := new Pair[|mirror|](i requires 0 <= i < |mirror| =>
      Pair(i as real, i as real, mirror[i].0, mirror[i].1));
    assert OnLine(1.0, -1.0, 0.0, data[..]);
    var quarter := Deltas(data[..], |mirror| / 4);
    assert OnLine(1.0, -1.0, 0.0, quarter);
    var c := new Calibration();
    success := c.Conclude(data);
    return success, c.affineDefined, c.sensitivityDefined;
  }
}
