/** Sums of products of linear forms over point pairs, and the one geometric fact behind a least-squares
    fit: a residual that is orthogonal to what may be added to it is the smallest. */
module LeastSquares {
  /** A point on the detector and the mirror position it belongs to. */
  datatype Pair = Pair(x0: real, y0: real, x1: real, y1: real)

  /** x * x0 + y * y0 + u * x1 + v * y1 + k. */
  datatype Form = Form(x: real, y: real, u: real, v: real, k: real)

  const X := Form(1.0, 0.0, 0.0, 0.0, 0.0)
  const Y := Form(0.0, 1.0, 0.0, 0.0, 0.0)
  const U := Form(0.0, 0.0, 1.0, 0.0, 0.0)
  const V := Form(0.0, 0.0, 0.0, 1.0, 0.0)
  const ONE := Form(0.0, 0.0, 0.0, 0.0, 1.0)

  function Times(a: real, b: real): real { a * b }

  function At(w: Form, p: Pair): real { w.x * p.x0 + w.y * p.y0 + w.u * p.x1 + w.v * p.y1 + w.k }

  function Plus(w: Form, z: Form): Form { Form(w.x + z.x, w.y + z.y, w.u + z.u, w.v + z.v, w.k + z.k) }

  function Scale(c: real, w: Form): Form { Form(c * w.x, c * w.y, c * w.u, c * w.v, c * w.k) }

  /** The sum over all points of the product of two forms. */
  function Dot(w: Form, z: Form, s: seq<Pair>): real {
    if s == [] then 0.0 else Dot(w, z, s[..|s| - 1]) + Times(At(w, s[|s| - 1]), At(z, s[|s| - 1]))
  }

  lemma AtPlus(w: Form, z: Form, p: Pair)
    ensures At(Plus(w, z), p) == At(w, p) + At(z, p)
  {}

  lemma AtScale(c: real, w: Form, p: Pair)
    ensures At(Scale(c, w), p) == Times(c, At(w, p))
  {}

  lemma TimesPlus(a: real, b: real, c: real)
    ensures Times(a, b + c) == Times(a, b) + Times(a, c)
  {}

  lemma TimesSwap(a: real, c: real, b: real)
    ensures Times(a, Times(c, b)) == Times(c, Times(a, b))
  {}

  lemma TimesCommutes(a: real, b: real)
    ensures Times(a, b) == Times(b, a)
  {}

  lemma TimesZero(a: real)
    ensures Times(a, 0.0) == 0.0 && Times(0.0, a) == 0.0
  {}

  lemma ProductPositive(x: real, y: real)
    requires x > 0.0 && y > 0.0
    ensures x * y > 0.0
  {}

  lemma TimesPositive(x: real, y: real)
    requires x > 0.0 && y > 0.0
    ensures Times(x, y) > 0.0
  {
    ProductPositive(x, y);
  }

  lemma SquareOfNegated(a: real)
    ensures Times(-a, -a) == Times(a, a)
  {}

  lemma Square(a: real)
    ensures Times(a, a) > 0.0 || (a == 0.0 && Times(a, a) == 0.0)
  {
    hide Times;
    if a > 0.0 {
      TimesPositive(a, a);
    } else if a < 0.0 {
      TimesPositive(-a, -a);
      SquareOfNegated(a);
    } else {
      TimesZero(0.0);
    }
  }

  lemma Cancel(x: real, y: real, d: real)
    requires Times(x, d) == Times(y, d) && d != 0.0
    ensures x == y
  {
    assert (x - y) * d == 0.0;
  }

  lemma {:induction false} DotPlus(w: Form, z: Form, z': Form, s: seq<Pair>)
    ensures Dot(w, Plus(z, z'), s) == Dot(w, z, s) + Dot(w, z', s)
  {
    hide At, Plus, Times;
    if s != [] {
      var n := |s| - 1;
      DotPlus(w, z, z', s[..n]);
      AtPlus(z, z', s[n]);
      TimesPlus(At(w, s[n]), At(z, s[n]), At(z', s[n]));
    }
  }

  lemma {:induction false} DotScale(w: Form, c: real, z: Form, s: seq<Pair>)
    ensures Dot(w, Scale(c, z), s) == Times(c, Dot(w, z, s))
  {
    hide At, Scale, Times;
    if s == [] {
      TimesZero(c);
    } else {
      var n := |s| - 1;
      DotScale(w, c, z, s[..n]);
      AtScale(c, z, s[n]);
      TimesSwap(At(w, s[n]), c, At(z, s[n]));
      TimesPlus(c, Dot(w, z, s[..n]), Times(At(w, s[n]), At(z, s[n])));
    }
  }

  lemma {:induction false} DotSymmetric(w: Form, z: Form, s: seq<Pair>)
    ensures Dot(w, z, s) == Dot(z, w, s)
  {
    hide At, Times;
    if s != [] {
      var n := |s| - 1;
      DotSymmetric(w, z, s[..n]);
      TimesCommutes(At(w, s[n]), At(z, s[n]));
    }
  }

  /** A sum of squares is never negative, and only 0 when every term is. */
  lemma {:induction false} DotPositive(w: Form, s: seq<Pair>)
    ensures Dot(w, w, s) >= 0.0
    ensures Dot(w, w, s) == 0.0 ==> forall p | p in s :: At(w, p) == 0.0
  {
    hide At, Times;
    if s != [] {
      var n := |s| - 1;
      DotPositive(w, s[..n]);
      Square(At(w, s[n]));
      assert s == s[..n] + [s[n]];
    }
  }

  lemma {:induction false} DotVanishes(w: Form, z: Form, s: seq<Pair>)
    requires forall p | p in s :: At(w, p) == 0.0
    ensures Dot(w, z, s) == 0.0
  {
    hide At, Times;
    if s != [] {
      var n := |s| - 1;
      DotVanishes(w, z, s[..n]);
      TimesZero(At(z, s[n]));
    }
  }

  /** c0 x + c1 y + k. */
  function Line(c0: real, c1: real, k: real): Form { Form(c0, c1, 0.0, 0.0, k) }

  lemma DotLine(w: Form, c0: real, c1: real, k: real, s: seq<Pair>)
    ensures Dot(w, Line(c0, c1, k), s) == Times(c0, Dot(w, X, s)) + Times(c1, Dot(w, Y, s)) + Times(k, Dot(w, ONE, s))
  {
    assert Line(c0, c1, k) == Plus(Plus(Scale(c0, X), Scale(c1, Y)), Scale(k, ONE));
    hide *;
    DotPlus(w, Plus(Scale(c0, X), Scale(c1, Y)), Scale(k, ONE), s);
    DotPlus(w, Scale(c0, X), Scale(c1, Y), s);
    DotScale(w, c0, X, s);
    DotScale(w, c1, Y, s);
    DotScale(w, k, ONE, s);
  }

  lemma Pythagoras(r: Form, l: Form, s: seq<Pair>)
    requires Dot(r, l, s) == 0.0
    ensures Dot(Plus(r, l), Plus(r, l), s) == Dot(r, r, s) + Dot(l, l, s)
  {
    hide *;
    DotPlus(Plus(r, l), r, l, s);
    DotSymmetric(Plus(r, l), r, s);
    DotSymmetric(Plus(r, l), l, s);
    DotPlus(r, r, l, s);
    DotPlus(l, r, l, s);
    DotSymmetric(l, r, s);
  }

  /** The determinant of the normal equations. */
  function Det(s: seq<Pair>): real { Times(Dot(X, X, s), Dot(Y, Y, s)) - Times(Dot(X, Y, s), Dot(Y, X, s)) }

  /** What is left of a target after p x + q y. */
  function Residual(target: Form, p: real, q: real): Form { Plus(target, Line(-p, -q, 0.0)) }

  /** The solution of the normal equations, as the code computes it: the product with the inverse matrix. */
  function FirstOf(target: Form, s: seq<Pair>): real requires Det(s) != 0.0 {
    Times(Dot(target, X, s), Dot(Y, Y, s) / Det(s)) + Times(Dot(target, Y, s), -Dot(Y, X, s) / Det(s))
  }

  function SecondOf(target: Form, s: seq<Pair>): real requires Det(s) != 0.0 {
    Times(Dot(target, X, s), -Dot(X, Y, s) / Det(s)) + Times(Dot(target, Y, s), Dot(X, X, s) / Det(s))
  }

  lemma Quotient(e: real, x: real, f: real, y: real, d: real)
    requires d != 0.0
    ensures Times(Times(e, x / d) + Times(f, y / d), d) == Times(e, x) + Times(f, y)
  {
    var u, v := x / d, y / d;
    assert u * d == x && v * d == y;
    Distribute(e, u, f, v, d);
    assert Times(e, u * d) == Times(e, x) && Times(f, v * d) == Times(f, y);
  }

  lemma Distribute(e: real, u: real, f: real, v: real, d: real)
    ensures Times(Times(e, u) + Times(f, v), d) == Times(e, u * d) + Times(f, v * d)
  {}

  lemma Cramer(a: real, b: real, c: real, e: real, f: real, d: real, p: real, q: real)
    requires d == Times(a, c) - Times(b, b) && d != 0.0
    requires p == Times(e, c / d) + Times(f, -b / d) && q == Times(e, -b / d) + Times(f, a / d)
    ensures Times(p, a) + Times(q, b) == e && Times(p, b) + Times(q, c) == f
  {
    hide Times;
    Quotient(e, c, f, -b, d);
    Quotient(e, -b, f, a, d);
    Scaled(p, a, q, b, d);
    Scaled(p, b, q, c, d);
    Resolved(a, b, c, e, f, d, Times(p, d), Times(q, d));
    Cancel(Times(p, a) + Times(q, b), e, d);
    Cancel(Times(p, b) + Times(q, c), f, d);
  }

  lemma Scaled(p: real, a: real, q: real, b: real, d: real)
    ensures Times(Times(p, a) + Times(q, b), d) == Times(Times(p, d), a) + Times(Times(q, d), b)
  {}

  lemma Resolved(a: real, b: real, c: real, e: real, f: real, d: real, pd: real, qd: real)
    requires d == Times(a, c) - Times(b, b)
    requires pd == Times(e, c) + Times(f, -b) && qd == Times(e, -b) + Times(f, a)
    ensures Times(pd, a) + Times(qd, b) == Times(e, d) && Times(pd, b) + Times(qd, c) == Times(f, d)
  {
    assert pd == e * c - f * b && qd == f * a - e * b && d == a * c - b * b;
    assert (e * c - f * b) * a + (f * a - e * b) * b == e * (a * c - b * b);
    assert (e * c - f * b) * b + (f * a - e * b) * c == f * (a * c - b * b);
  }

  lemma TimesNegated(a: real, b: real)
    ensures Times(-a, b) == -Times(a, b)
  {}

  /** The fit leaves a residual that is orthogonal to both coordinates. */
  lemma NormalEquations(target: Form, s: seq<Pair>)
    requires Det(s) != 0.0
    ensures var r := Residual(target, FirstOf(target, s), SecondOf(target, s));
            Dot(r, X, s) == 0.0 && Dot(r, Y, s) == 0.0
  {
    hide Dot, Residual, Times;
    var p, q := FirstOf(target, s), SecondOf(target, s);
    var r := Residual(target, p, q);
    DotSymmetric(X, Y, s);
    Cramer(Dot(X, X, s), Dot(X, Y, s), Dot(Y, Y, s), Dot(target, X, s), Dot(target, Y, s), Det(s), p, q);
    hide Det, FirstOf, SecondOf;
    ResidualDot(target, p, q, X, s);
    ResidualDot(target, p, q, Y, s);
    DotSymmetric(r, X, s);
    DotSymmetric(r, Y, s);
    DotSymmetric(target, X, s);
    DotSymmetric(target, Y, s);
  }

  lemma ResidualDot(target: Form, p: real, q: real, z: Form, s: seq<Pair>)
    ensures Dot(z, Residual(target, p, q), s) == Dot(z, target, s) - (Times(p, Dot(z, X, s)) + Times(q, Dot(z, Y, s)))
  {
    assert Residual(target, p, q) == Plus(target, Line(-p, -q, 0.0));
    hide *;
    DotPlus(z, target, Line(-p, -q, 0.0), s);
    DotLine(z, -p, -q, 0.0, s);
    TimesNegated(p, Dot(z, X, s));
    TimesNegated(q, Dot(z, Y, s));
    TimesZero(Dot(z, ONE, s));
  }

  /** All points on one line c0 x + c1 y + k = 0. */
  ghost predicate OnLine(c0: real, c1: real, k: real, s: seq<Pair>) {
    (c0 != 0.0 || c1 != 0.0) && forall p | p in s :: At(Line(c0, c1, k), p) == 0.0
  }

  /** The offset of a line does not matter to the sums of the coordinates. */
  predicate Offset(k: real, s: seq<Pair>) { k == 0.0 || (Dot(X, ONE, s) == 0.0 && Dot(Y, ONE, s) == 0.0) }

  lemma OffsetVanishes(k: real, s: seq<Pair>)
    requires Offset(k, s)
    ensures Times(k, Dot(X, ONE, s)) == 0.0 && Times(k, Dot(Y, ONE, s)) == 0.0
  {
    hide Dot, Times;
    TimesZero(k);
    TimesZero(Dot(X, ONE, s));
    TimesZero(Dot(Y, ONE, s));
  }

  lemma LineMakesSingular(c0: real, c1: real, k: real, s: seq<Pair>)
    requires OnLine(c0, c1, k, s) && Offset(k, s)
    ensures Det(s) == 0.0
  {
    hide Dot, At, Times;
    var l := Line(c0, c1, k);
    DotVanishes(l, X, s);
    DotVanishes(l, Y, s);
    DotSymmetric(l, X, s);
    DotSymmetric(l, Y, s);
    DotLine(X, c0, c1, k, s);
    DotLine(Y, c0, c1, k, s);
    OffsetVanishes(k, s);
    DotSymmetric(X, Y, s);
    Singular(Dot(X, X, s), Dot(X, Y, s), Dot(Y, Y, s), c0, c1);
  }

  lemma Singular(a: real, b: real, c: real, c0: real, c1: real)
    requires Times(c0, a) + Times(c1, b) == 0.0 && Times(c0, b) + Times(c1, c) == 0.0 && (c0 != 0.0 || c1 != 0.0)
    ensures Times(a, c) - Times(b, b) == 0.0
  {
    var d := a * c - b * b;
    assert c0 * d == (c0 * a) * c - (c0 * b) * b;
    assert (c0 * a) * c == (-c1 * b) * c && (c0 * b) * b == (-c1 * c) * b;
    assert c1 * d == (c1 * c) * a - (c1 * b) * b;
    assert (c1 * c) * a == (-c0 * b) * a && (c1 * b) * b == (-c0 * a) * b;
    assert c0 * d == 0.0 && c1 * d == 0.0;
    Cancel(d, 0.0, if c0 != 0.0 then c0 else c1);
  }

  /** The determinant vanishes exactly when all points are on a line through the origin. */
  lemma SingularIff(s: seq<Pair>)
    ensures Det(s) == 0.0 <==> exists c0, c1 :: OnLine(c0, c1, 0.0, s)
  {
    hide Dot, Det, OnLine;
    if Det(s) == 0.0 {
      SingularHasLine(s);
    }
    if exists c0, c1 :: OnLine(c0, c1, 0.0, s) {
      var c0, c1 :| OnLine(c0, c1, 0.0, s);
      LineMakesSingular(c0, c1, 0.0, s);
    }
  }

  lemma SingularHasLine(s: seq<Pair>)
    requires Det(s) == 0.0
    ensures exists c0, c1 :: OnLine(c0, c1, 0.0, s)
  {
    hide Dot, At, Times;
    var a, b, c := Dot(X, X, s), Dot(X, Y, s), Dot(Y, Y, s);
    DotSymmetric(X, Y, s);
    var c0, c1 := if a == 0.0 then 1.0 else -b, if a == 0.0 then 0.0 else a;
    NullForm(a, b, c, c0, c1);
    hide Det;
    LineNorm(c0, c1, s);
    DotPositive(Line(c0, c1, 0.0), s);
    assert OnLine(c0, c1, 0.0, s);
  }

  lemma LineNorm(c0: real, c1: real, s: seq<Pair>)
    ensures var l := Line(c0, c1, 0.0);
            Dot(l, l, s) == Times(c0, Times(c0, Dot(X, X, s)) + Times(c1, Dot(X, Y, s)))
                          + Times(c1, Times(c0, Dot(X, Y, s)) + Times(c1, Dot(Y, Y, s)))
  {
    hide *;
    var l := Line(c0, c1, 0.0);
    DotLine(l, c0, c1, 0.0, s);
    DotLine(X, c0, c1, 0.0, s);
    DotLine(Y, c0, c1, 0.0, s);
    TimesZero(Dot(l, ONE, s));
    TimesZero(Dot(X, ONE, s));
    TimesZero(Dot(Y, ONE, s));
    DotSymmetric(l, X, s);
    DotSymmetric(l, Y, s);
    DotSymmetric(X, Y, s);
  }

  lemma NullForm(a: real, b: real, c: real, c0: real, c1: real)
    requires Times(a, c) - Times(b, b) == 0.0
    requires c0 == (if a == 0.0 then 1.0 else -b) && c1 == (if a == 0.0 then 0.0 else a)
    ensures Times(c0, Times(c0, a) + Times(c1, b)) + Times(c1, Times(c0, b) + Times(c1, c)) == 0.0
  {
    if a != 0.0 {
      assert c0 * a + c1 * b == 0.0;
      assert c0 * b + c1 * c == a * c - b * b;
    }
  }

  /** A residual orthogonal to x, y and (where an offset is allowed) 1 grows by whatever is added to it;
      an addition costs nothing only when it is 0. */
  lemma BestResidual(r: Form, c0: real, c1: real, k: real, s: seq<Pair>)
    requires Dot(r, X, s) == 0.0 && Dot(r, Y, s) == 0.0 && (k == 0.0 || Dot(r, ONE, s) == 0.0)
    requires Det(s) != 0.0 && Offset(k, s)
    ensures var e, l := Dot(r, r, s), Line(c0, c1, k);
            && Dot(Plus(r, l), Plus(r, l), s) >= e
            && (Dot(Plus(r, l), Plus(r, l), s) == e ==> c0 == 0.0 && c1 == 0.0 && (s != [] ==> k == 0.0))
  {
    hide Dot, At, Det, Plus, Times, Offset;
    var l := Line(c0, c1, k);
    DotLine(r, c0, c1, k, s);
    TimesZero(c0);
    TimesZero(c1);
    TimesZero(k);
    TimesZero(Dot(r, ONE, s));
    Pythagoras(r, l, s);
    DotPositive(l, s);
    if Dot(l, l, s) == 0.0 {
      if c0 != 0.0 || c1 != 0.0 {
        LineMakesSingular(c0, c1, k, s);
      } else if s != [] {
        ConstantAt(k, s[0]);
      }
    }
  }

  lemma ConstantAt(k: real, p: Pair)
    ensures At(Line(0.0, 0.0, k), p) == k
  {}
}
