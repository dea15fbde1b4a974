// Safeguarded Newton iteration and bisection, in the two forms the delay
// calculators use. The function and its derivative are arbitrary: the derivative
// need not be one.
module RootFinders {
  import opened RealSums

  ghost predicate Within(x: real, a: real, b: real) {
    a <= x <= b || b <= x <= a
  }

  // The ends of a bracket: the function is negative at lo and not at hi. Either
  // end may be the larger.
  datatype Bracket = Bracket(lo: real, hi: real)

  ghost predicate Brackets(f: real -> real, b: Bracket) {
    f(b.lo) < 0.0 <= f(b.hi)
  }

  // One end moves to a point within, the one whose sign the point has.
  ghost predicate Narrowed(f: real -> real, b: Bracket, b': Bracket, x: real) {
    Within(x, b.lo, b.hi) && b' == if f(x) < 0.0 then Bracket(x, b.hi) else Bracket(b.lo, x)
  }

  // Successive brackets; x is the point that comes after the last.
  ghost predicate Narrowing(f: real -> real, bs: seq<Bracket>, xs: seq<real>) {
    && |bs| == |xs| > 0
    && forall k :: 0 <= k < |bs| - 1 ==> Narrowed(f, bs[k], bs[k + 1], xs[k + 1])
  }

  // Every bracket lies in every earlier one, and keeps the change of sign.
  lemma {:induction false} NarrowingNests(f: real -> real, bs: seq<Bracket>, xs: seq<real>, i: nat, j: nat)
    requires Narrowing(f, bs, xs) && i <= j < |bs|
    ensures Brackets(f, bs[0]) ==> Brackets(f, bs[j])
    ensures Within(bs[j].lo, bs[i].lo, bs[i].hi) && Within(bs[j].hi, bs[i].lo, bs[i].hi)
  {
    if i < j {
      NarrowingNests(f, bs, xs, i, j - 1);
      assert Narrowed(f, bs[j - 1], bs[j], xs[j]);
    } else if i > 0 {
      NarrowingNests(f, bs, xs, i - 1, i - 1);
      assert Narrowed(f, bs[i - 1], bs[i], xs[i]);
    }
  }

  // ---- Newton's point ------------------------------------------------------------------

  // The guard of both searches: the sign of the product says on which sides of the
  // ends Newton's point lies.
  lemma NewtonGuard(x: real, y: real, dy: real, a: real, b: real, t: real)
    requires dy != 0.0 && t == x - y / dy && ((x - b) * dy - y) * ((x - a) * dy - y) <= 0.0
    ensures Within(t, a, b)
  {
    var q := y / dy;
    Quotient(y, dy, q);
    GuardFactor(x, y, dy, b, q);
    GuardFactor(x, y, dy, a, q);
    GuardProduct(dy, t - b, t - a, ((x - b) * dy - y) * ((x - a) * dy - y));
  }

  lemma GuardFactor(x: real, y: real, dy: real, b: real, q: real)
    requires q * dy == y
    ensures (x - b) * dy - y == dy * (x - q - b)
  {}

  lemma GuardProduct(d: real, u: real, v: real, z: real)
    requires d != 0.0 && z == (d * u) * (d * v) && z <= 0.0
    ensures (u <= 0.0 <= v) || (v <= 0.0 <= u)
  {
    SignOfProduct(d, u);
    SignOfProduct(d, v);
    SignOfProduct(Times(d, u), Times(d, v));
    assert z == Times(Times(d, u), Times(d, v));
    hide Times;
  }

  lemma SignOfProduct(x: real, y: real)
    ensures Times(x, y) > 0.0 <==> (x > 0.0 && y > 0.0) || (x < 0.0 && y < 0.0)
    ensures Times(x, y) < 0.0 <==> (x > 0.0 && y < 0.0) || (x < 0.0 && y > 0.0)
  {
    TimesSigns(x, y);
    TimesSigns(x, -y);
    TimesSigns(-x, y);
    TimesSigns(-x, -y);
    NegatedTimes(x, y);
    if x == 0.0 || y == 0.0 { ZeroTimes(x, y); }
    hide Times;
  }

  lemma TimesSigns(x: real, y: real)
    ensures x > 0.0 && y > 0.0 ==> Times(x, y) > 0.0
  {}

  lemma NegatedTimes(x: real, y: real)
    ensures Times(-x, y) == -Times(x, y) && Times(x, -y) == -Times(x, y) && Times(-x, -y) == Times(x, y)
  {}

  lemma ZeroTimes(x: real, y: real)
    requires x == 0.0 || y == 0.0
    ensures Times(x, y) == 0.0
  {}

  // ---- findRoot ------------------------------------------------------------------------

  datatype Search = Root(x: real) | NoSignChange | TooManyIterations | ZeroOverZero

  predicate Bisects(x: real, y: real, dy: real, b: Bracket, dxPrev: real) {
    ((x - b.hi) * dy - y) * ((x - b.lo) * dy - y) > 0.0 || Abs(2.0 * y) > Abs(dxPrev * dy)
  }

  // The point after x: the middle of the bracket, or Newton's point.
  ghost predicate NextPoint(f: real -> real, df: real -> real, b: Bracket, x: real, dxPrev: real, dx: real, x': real) {
    if Bisects(x, f(x), df(x), b, dxPrev) then dx == (b.hi - b.lo) * 0.5 && x' == b.lo + dx
    else df(x) != 0.0 && dx == f(x) / df(x) && x' == x - dx
  }

  // Strictly between the ends.
  ghost predicate Inside(x: real, a: real, b: real) {
    a < x < b || b < x < a
  }

  // Newton's point is taken if and only if it lies within the bracket, its ends
  // allowed, and the step is at most half the step before the last. With slope zero
  // it is asked for only at an exact zero.
  lemma NewtonTakenIff(x: real, y: real, dy: real, b: Bracket, dxPrev: real)
    ensures dy != 0.0 ==>
      (!Bisects(x, y, dy, b, dxPrev) <==> Within(x - y / dy, b.lo, b.hi) && 2.0 * Abs(y / dy) <= Abs(dxPrev))
    ensures dy == 0.0 ==> (!Bisects(x, y, dy, b, dxPrev) <==> y == 0.0)
  {
    if dy != 0.0 {
      GuardIff(x, y, dy, b.lo, b.hi);
      HalfIff(y, dy, dxPrev);
    } else {
      SlopeZero(x, y, b.lo, b.hi, dxPrev);
    }
  }

  // The product of the guard has the sign of the distances of Newton's point from the
  // two ends.
  lemma GuardIff(x: real, y: real, dy: real, a: real, b: real)
    requires dy != 0.0
    ensures ((x - b) * dy - y) * ((x - a) * dy - y) > 0.0 <==> !Within(x - y / dy, a, b)
    ensures ((x - b) * dy - y) * ((x - a) * dy - y) < 0.0 <==> Inside(x - y / dy, a, b)
  {
    var q := y / dy;
    var u, v := x - q - b, x - q - a;
    Quotient(y, dy, q);
    GuardFactor(x, y, dy, b, q);
    GuardFactor(x, y, dy, a, q);
    SignOfSquared(dy, u, v, ((x - b) * dy - y) * ((x - a) * dy - y));
    SignOfProduct(u, v);
  }

  lemma SignOfSquared(d: real, u: real, v: real, z: real)
    requires d != 0.0 && z == (d * u) * (d * v)
    ensures z > 0.0 <==> Times(u, v) > 0.0
    ensures z < 0.0 <==> Times(u, v) < 0.0
  {
    var s, t := Times(d, d), Times(u, v);
    assert z == Times(s, t);
    SquareSign(d);
    hide Times;
    SignOfProduct(s, t);
  }

  lemma HalfIff(y: real, dy: real, e: real)
    requires dy != 0.0
    ensures Abs(2.0 * y) <= Abs(e * dy) <==> 2.0 * Abs(y / dy) <= Abs(e)
  {
    var q := y / dy;
    Quotient(y, dy, q);
    AbsProduct(q, dy);
    AbsProduct(e, dy);
    var k, s, t := Abs(dy), 2.0 * Abs(q), Abs(e);
    assert Abs(2.0 * y) == Times(s, k);
    ScaledOrder(k, s, t);
  }

  lemma ScaledOrder(k: real, s: real, t: real)
    requires k > 0.0
    ensures Times(s, k) <= Times(t, k) <==> s <= t
  {
    assert Times(t, k) - Times(s, k) == Times(t - s, k);
    hide Times;
    SignOfProduct(t - s, k);
  }

  lemma SlopeZero(x: real, y: real, a: real, b: real, e: real)
    ensures ((x - b) * 0.0 - y) * ((x - a) * 0.0 - y) > 0.0 || Abs(2.0 * y) > Abs(e * 0.0) <==> y != 0.0
  {
    assert (x - b) * 0.0 == 0.0 && (x - a) * 0.0 == 0.0 && e * 0.0 == 0.0;
  }

  // It stays within the bracket; a Newton step is at most half the step before
  // the last.
  lemma NextPointWithin(f: real -> real, df: real -> real, b: Bracket, x: real, dxPrev: real, dx: real, x': real)
    requires NextPoint(f, df, b, x, dxPrev, dx, x') && Within(x, b.lo, b.hi)
    ensures Within(x', b.lo, b.hi)
    ensures Bisects(x, f(x), df(x), b, dxPrev) ==> x' == (b.lo + b.hi) / 2.0
    ensures !Bisects(x, f(x), df(x), b, dxPrev) ==> 2.0 * Abs(dx) <= Abs(dxPrev)
  {
    if !Bisects(x, f(x), df(x), b, dxPrev) { NewtonWithin(x, f(x), df(x), b, dxPrev, dx, x'); }
  }

  lemma NewtonWithin(x: real, y: real, dy: real, b: Bracket, dxPrev: real, dx: real, x': real)
    requires !Bisects(x, y, dy, b, dxPrev) && dy != 0.0 && dx == y / dy && x' == x - dx
    ensures Within(x', b.lo, b.hi) && 2.0 * Abs(dx) <= Abs(dxPrev)
  {
    NewtonGuard(x, y, dy, b.lo, b.hi, x');
    HalfStep(y, dy, dxPrev, dx);
  }

  lemma HalfStep(y: real, dy: real, e: real, dx: real)
    requires dy != 0.0 && dx == y / dy && Abs(2.0 * y) <= Abs(e * dy)
    ensures 2.0 * Abs(dx) <= Abs(e)
  {
    Quotient(y, dy, dx);
    AbsProduct(dx, dy);
    AbsProduct(e, dy);
    assert Abs(2.0 * y) == 2.0 * Abs(y);
    HalfBound(Abs(dx), Abs(dy), Abs(e), Abs(y));
  }

  lemma HalfBound(p: real, q: real, r: real, y: real)
    requires q > 0.0 && y == Times(p, q) && 2.0 * y <= Times(r, q)
    ensures 2.0 * p <= r
  {
    if 2.0 * p > r { PosProduct(2.0 * p - r, q); }
  }

  lemma AbsProduct(x: real, y: real)
    ensures Abs(x * y) == Times(Abs(x), Abs(y))
  {
    if x >= 0.0 && y >= 0.0 { NonNegProduct(x, y); }
    if x < 0.0 && y < 0.0 { NonNegProduct(-x, -y); }
    if x >= 0.0 && y < 0.0 { NonNegProduct(x, -y); }
    if x < 0.0 && y >= 0.0 { NonNegProduct(-x, y); }
  }

  ghost predicate SameSign(y1: real, y2: real) {
    (y1 > 0.0 && y2 > 0.0) || (y1 < 0.0 && y2 < 0.0)
  }

  // The first bracket and the first point.
  ghost predicate Begun(f: real -> real, x1: real, x2: real, b: Bracket, x: real) {
    && Brackets(f, b) && (b == Bracket(x1, x2) || b == Bracket(x2, x1)) && x == (x1 + x2) * 0.5
  }

  // The step before the last when point k is left; ds[0] is the width of the interval.
  ghost function StepBefore(ds: seq<real>, k: nat): real
    requires k < |ds|
  {
    if k == 0 then ds[0] else ds[k - 1]
  }

  // Point k + 1 is the one after point k, and does not end the search.
  ghost predicate SteppedAt(f: real -> real, df: real -> real, xTol: real, bs: seq<Bracket>, xs: seq<real>,
                            ds: seq<real>, k: nat)
    requires k + 1 < |bs| == |xs| == |ds|
  {
    NextPoint(f, df, bs[k], xs[k], StepBefore(ds, k), ds[k + 1], xs[k + 1]) && Abs(ds[k + 1]) > xTol * Abs(xs[k + 1])
  }

  ghost predicate Stepped(f: real -> real, df: real -> real, xTol: real, bs: seq<Bracket>, xs: seq<real>,
                          ds: seq<real>) {
    |bs| == |xs| == |ds| > 0 && forall k :: 0 <= k < |bs| - 1 ==> SteppedAt(f, df, xTol, bs, xs, ds, k)
  }

  // What the search went through: bs and xs from the first bracket and point on, ds
  // the steps to the points.
  ghost predicate Searched(f: real -> real, df: real -> real, x1: real, x2: real, xTol: real, maxIter: int,
                           bs: seq<Bracket>, xs: seq<real>, ds: seq<real>, o: Search)
  {
    && Narrowing(f, bs, xs) && Begun(f, x1, x2, bs[0], xs[0])
    && Stepped(f, df, xTol, bs, xs, ds) && ds[0] == Abs(x2 - x1)
    && match o
       case Root(x) =>
         && |bs| <= maxIter
         && Converged(f, df, xTol, bs[|bs| - 1], xs[|xs| - 1], StepBefore(ds, |ds| - 1), x)
       case ZeroOverZero => |bs| <= maxIter && f(xs[|xs| - 1]) == 0.0 && df(xs[|xs| - 1]) == 0.0
       case TooManyIterations => |bs| == (if maxIter > 0 then maxIter else 0) + 1
       case NoSignChange => false
  }

  // x is the next point, so close to the last that the search ends.
  ghost predicate Converged(f: real -> real, df: real -> real, xTol: real, b: Bracket, x0: real, dxPrev: real,
                            x: real) {
    exists dx :: NextPoint(f, df, b, x0, dxPrev, dx, x) && Abs(dx) <= xTol * Abs(x)
  }

  lemma NextPointIs(f: real -> real, df: real -> real, b: Bracket, x: real, y: real, dy: real, dxPrev: real, dx: real,
                    x': real)
    requires y == f(x) && dy == df(x)
    requires Bisects(x, y, dy, b, dxPrev) ==> dx == (b.hi - b.lo) * 0.5 && x' == b.lo + dx
    requires !Bisects(x, y, dy, b, dxPrev) ==> dy != 0.0 && dx == y / dy && x' == x - dx
    ensures NextPoint(f, df, b, x, dxPrev, dx, x')
  {}

  // Newton's point is asked for with derivative zero only at an exact zero.
  lemma OnlyAtZero(x: real, y: real, b: Bracket, dxPrev: real)
    requires !Bisects(x, y, 0.0, b, dxPrev)
    ensures y == 0.0
  {
    assert (x - b.hi) * 0.0 == 0.0 && (x - b.lo) * 0.0 == 0.0 && dxPrev * 0.0 == 0.0;
  }

  method FindRoot(f: real -> real, df: real -> real, x1: real, x2: real, xTol: real, maxIter: int)
    returns (o: Search, ghost bs: seq<Bracket>, ghost xs: seq<real>, ghost ds: seq<real>)
    ensures o == NoSignChange <==> SameSign(f(x1), f(x2))
    ensures f(x1) == 0.0 ==> o == Root(x1)
    ensures f(x1) != 0.0 && f(x2) == 0.0 ==> o == Root(x2)
    ensures f(x1) != 0.0 && f(x2) != 0.0 && !SameSign(f(x1), f(x2)) ==>
      Searched(f, df, x1, x2, xTol, maxIter, bs, xs, ds, o)
  {
    hide NextPoint, Bisects;
    bs, xs, ds := [], [], [];
    var y1, y2 := f(x1), f(x2);
    if (y1 > 0.0 && y2 > 0.0) || (y1 < 0.0 && y2 < 0.0) { return NoSignChange, bs, xs, ds; }
    if y1 == 0.0 { return Root(x1), bs, xs, ds; }
    if y2 == 0.0 { return Root(x2), bs, xs, ds; }
    var lo, hi := x1, x2;
    if y1 > 0.0 { lo, hi := x2, x1; }
    var root := (lo + hi) * 0.5;
    var dxPrev := Abs(hi - lo);
    var dx := dxPrev;
    var y, dy := f(root), df(root);
    bs, xs, ds := [Bracket(lo, hi)], [root], [dx];
    var iter := 0;
    while iter < maxIter
      invariant 0 <= iter && (iter <= maxIter || iter == 0) && y == f(root) && dy == df(root)
      invariant Narrowing(f, bs, xs) && Begun(f, x1, x2, bs[0], xs[0]) && |bs| == iter + 1
      invariant Stepped(f, df, xTol, bs, xs, ds) && ds[0] == Abs(x2 - x1) && ds[|ds| - 1] == dx
      invariant StepBefore(ds, |ds| - 1) == dxPrev
      invariant bs[|bs| - 1] == Bracket(lo, hi) && xs[|xs| - 1] == root && Within(root, lo, hi)
    {
      ghost var b, x, e := Bracket(lo, hi), root, dxPrev;
      if Bisects(root, y, dy, Bracket(lo, hi), dxPrev) {
        dxPrev := dx;
        dx := (hi - lo) * 0.5;
        root := lo + dx;
      } else {
        dxPrev := dx;
        if dy == 0.0 {
          OnlyAtZero(x, y, b, e);
          return ZeroOverZero, bs, xs, ds;
        }
        dx := y / dy;
        root := root - dx;
      }
      assert NextPoint(f, df, b, x, e, dx, root) by { NextPointIs(f, df, b, x, y, dy, e, dx, root); }
      NextPointWithin(f, df, b, x, e, dx, root);
      if Abs(dx) <= xTol * Abs(root) {
        return Root(root), bs, xs, ds;
      }
      y, dy := f(root), df(root);
      if y < 0.0 { lo := root; } else { hi := root; }
      assert Narrowed(f, b, Bracket(lo, hi), root);
      SteppedGrows(f, df, xTol, bs, xs, ds, Bracket(lo, hi), root, dx);
      bs, xs, ds := bs + [Bracket(lo, hi)], xs + [root], ds + [dx];
      iter := iter + 1;
    }
    return TooManyIterations, bs, xs, ds;
  }

  lemma SteppedGrows(f: real -> real, df: real -> real, xTol: real, bs: seq<Bracket>, xs: seq<real>, ds: seq<real>,
                     b: Bracket, x: real, dx: real)
    requires Stepped(f, df, xTol, bs, xs, ds)
    requires NextPoint(f, df, bs[|bs| - 1], xs[|xs| - 1], StepBefore(ds, |ds| - 1), dx, x) && Abs(dx) > xTol * Abs(x)
    ensures Stepped(f, df, xTol, bs + [b], xs + [x], ds + [dx])
  {
    hide NextPoint;
    forall k | 0 <= k < |bs| ensures SteppedAt(f, df, xTol, bs + [b], xs + [x], ds + [dx], k) {
      assert k < |bs| - 1 ==> SteppedAt(f, df, xTol, bs, xs, ds, k);
    }
  }

  // Whatever the search finds lies in the caller's interval.
  lemma FoundWithin(f: real -> real, df: real -> real, x1: real, x2: real, xTol: real, maxIter: int,
                    bs: seq<Bracket>, xs: seq<real>, ds: seq<real>, o: Search)
    requires Searched(f, df, x1, x2, xTol, maxIter, bs, xs, ds, o) && o.Root?
    ensures Within(o.x, x1, x2) && Abs(o.x - xs[|xs| - 1]) <= Abs(x2 - x1)
  {
    var j := |bs| - 1;
    NarrowingNests(f, bs, xs, 0, j);
    PointWithin(f, bs, xs, j);
    var dxPrev := StepBefore(ds, j);
    var dx :| NextPoint(f, df, bs[j], xs[j], dxPrev, dx, o.x) && Abs(dx) <= xTol * Abs(o.x);
    NextPointWithin(f, df, bs[j], xs[j], dxPrev, dx, o.x);
  }

  lemma PointWithin(f: real -> real, bs: seq<Bracket>, xs: seq<real>, j: nat)
    requires Narrowing(f, bs, xs) && Within(xs[0], bs[0].lo, bs[0].hi) && j < |bs|
    ensures Within(xs[j], bs[j].lo, bs[j].hi)
  {
    if j > 0 { assert Narrowed(f, bs[j - 1], bs[j], xs[j]); }
  }

  // The search divides zero by zero only where the function vanishes together with
  // its derivative, inside the interval.
  lemma NoZeroOverZero(f: real -> real, df: real -> real, x1: real, x2: real, xTol: real, maxIter: int,
                       bs: seq<Bracket>, xs: seq<real>, ds: seq<real>, o: Search)
    requires Searched(f, df, x1, x2, xTol, maxIter, bs, xs, ds, o)
    requires forall x :: Within(x, x1, x2) && f(x) == 0.0 ==> df(x) != 0.0
    ensures o != ZeroOverZero
  {
    var j := |bs| - 1;
    NarrowingNests(f, bs, xs, 0, j);
    PointWithin(f, bs, xs, j);
  }

  // At a point where both vanish no next point can be found ...
  lemma NoPointAfter(f: real -> real, df: real -> real, b: Bracket, x: real, dxPrev: real, dx: real, x': real)
    requires f(x) == 0.0 && df(x) == 0.0
    ensures !NextPoint(f, df, b, x, dxPrev, dx, x')
  {
    assert (x - b.hi) * 0.0 == 0.0 && (x - b.lo) * 0.0 == 0.0 && dxPrev * 0.0 == 0.0;
  }

  // ... so the search ends there, with 0/0, unless its iterations are used up.
  lemma ZeroOverZeroIff(f: real -> real, df: real -> real, x1: real, x2: real, xTol: real, maxIter: int,
                        bs: seq<Bracket>, xs: seq<real>, ds: seq<real>, o: Search)
    requires Searched(f, df, x1, x2, xTol, maxIter, bs, xs, ds, o)
    ensures o == ZeroOverZero <==> exists k :: 0 <= k < |xs| && k < maxIter && f(xs[k]) == 0.0 && df(xs[k]) == 0.0
  {
    hide NextPoint;
    forall k | 0 <= k < |xs| && k < maxIter && f(xs[k]) == 0.0 && df(xs[k]) == 0.0 ensures o == ZeroOverZero {
      if k < |xs| - 1 {
        assert SteppedAt(f, df, xTol, bs, xs, ds, k);
        NoPointAfter(f, df, bs[k], xs[k], StepBefore(ds, k), ds[k + 1], xs[k + 1]);
      } else if o.Root? {
        var dx :| NextPoint(f, df, bs[k], xs[k], StepBefore(ds, k), dx, o.x) && Abs(dx) <= xTol * Abs(o.x);
        NoPointAfter(f, df, bs[k], xs[k], StepBefore(ds, k), dx, o.x);
      }
    }
    if o == ZeroOverZero { assert f(xs[|xs| - 1]) == 0.0 && df(xs[|xs| - 1]) == 0.0; }
  }

  // The cube divides 0 by 0 at once between -1 and 1.
  lemma CubeDividesZeroByZero(xTol: real, maxIter: int, bs: seq<Bracket>, xs: seq<real>, ds: seq<real>, o: Search)
    requires maxIter > 0
    requires Searched(x => x * x * x, x => 3.0 * x * x, -1.0, 1.0, xTol, maxIter, bs, xs, ds, o)
    ensures o == ZeroOverZero
  {
    ZeroOverZeroIff(x => x * x * x, x => 3.0 * x * x, -1.0, 1.0, xTol, maxIter, bs, xs, ds, o);
    assert xs[0] == 0.0;
    assert 0.0 * 0.0 * 0.0 == 0.0 && 3.0 * 0.0 * 0.0 == 0.0;
  }

  // ---- solve_t_bracketed -----------------------------------------------------------------

  const XACC := 1e-15   // .001ps
  const VACC := 1e-6    // 1uV
  const FORWARD := 0.9348
  const BACKWARD := 0.0625

  predicate BisectsT(x: real, y: real, dy: real, b: Bracket, dxOld: real) {
    ((x - b.hi) * dy - y) * ((x - b.lo) * dy - y) >= 0.0 || Abs(2.0 * y) > Abs(dxOld * dy)
  }

  // How far into the bracket a bisection goes: further to the far side when two in
  // a row went the same way.
  function Stride(y: real, yLast: real): (k: real)
    ensures 0.0 < k < 1.0
  {
    if yLast * y > 0.0 then (if y < 0.0 then FORWARD else BACKWARD) else 0.5
  }

  // Newton's point is taken if and only if the slope is not zero, it lies strictly
  // within the bracket, and the step is at most half the step before the last.
  lemma NewtonTakenTIff(x: real, y: real, dy: real, b: Bracket, dxOld: real)
    ensures dy != 0.0 ==>
      (!BisectsT(x, y, dy, b, dxOld) <==> Inside(x - y / dy, b.lo, b.hi) && 2.0 * Abs(y / dy) <= Abs(dxOld))
    ensures dy == 0.0 ==> BisectsT(x, y, dy, b, dxOld)
  {
    if dy != 0.0 {
      GuardIff(x, y, dy, b.lo, b.hi);
      HalfIff(y, dy, dxOld);
    } else {
      ZeroSlopeBisects(x, y, b, dxOld);
    }
  }

  // Two bisections in a row to the same side go almost all the way to the far end: over
  // 93 parts of 100 up after negative values, down to under 7 after positive ones. Any
  // other bisection goes to the middle.
  lemma StrideIs(y: real, yLast: real)
    ensures y < 0.0 && yLast < 0.0 ==> Stride(y, yLast) == 0.9348
    ensures y > 0.0 && yLast > 0.0 ==> Stride(y, yLast) == 0.0625
    ensures !(y < 0.0 && yLast < 0.0) && !(y > 0.0 && yLast > 0.0) ==> Stride(y, yLast) == 0.5
  {
    SignOfProduct(yLast, y);
    assert Times(yLast, y) == yLast * y;
  }

  ghost predicate NextT(f: real -> real, df: real -> real, b: Bracket, x: real, dxOld: real, yLast: real, dx: real,
                        x': real) {
    if BisectsT(x, f(x), df(x), b, dxOld) then dx == Stride(f(x), yLast) * (b.hi - b.lo) && x' == b.lo + dx
    else df(x) != 0.0 && dx == f(x) / df(x) && x' == x - dx
  }

  // The next point stays within the bracket, and a derivative of zero always makes
  // the search bisect.
  lemma NextTWithin(f: real -> real, df: real -> real, b: Bracket, x: real, dxOld: real, yLast: real, dx: real,
                    x': real)
    requires NextT(f, df, b, x, dxOld, yLast, dx, x')
    ensures Within(x', b.lo, b.hi)
    ensures !BisectsT(x, f(x), df(x), b, dxOld) ==> 2.0 * Abs(dx) <= Abs(dxOld)
  {
    if BisectsT(x, f(x), df(x), b, dxOld) {
      PartWithin(Stride(f(x), yLast), b.lo, b.hi, x');
    } else {
      WeakerGuard(x, f(x), df(x), b, dxOld);
      NewtonWithin(x, f(x), df(x), b, dxOld, dx, x');
    }
    hide BisectsT, Bisects, Stride, Within;
  }

  lemma WeakerGuard(x: real, y: real, dy: real, b: Bracket, dxOld: real)
    ensures Bisects(x, y, dy, b, dxOld) ==> BisectsT(x, y, dy, b, dxOld)
  {}

  lemma PartWithin(k: real, a: real, b: real, x: real)
    requires 0.0 <= k <= 1.0 && x == a + k * (b - a)
    ensures Within(x, a, b)
  {
    if a <= b {
      NonNegProduct(k, b - a);
      NonNegProduct(1.0 - k, b - a);
      assert (1.0 - k) * (b - a) == (b - a) - k * (b - a);
    } else {
      NonNegProduct(k, a - b);
      NonNegProduct(1.0 - k, a - b);
      assert (1.0 - k) * (a - b) == (a - b) - k * (a - b);
      assert k * (a - b) == -(k * (b - a));
    }
  }

  lemma ZeroSlopeBisects(x: real, y: real, b: Bracket, dxOld: real)
    ensures BisectsT(x, y, 0.0, b, dxOld)
  {
    SquareNonNeg(y);
    assert (x - b.hi) * 0.0 == 0.0 && (x - b.lo) * 0.0 == 0.0;
    assert (0.0 - y) * (0.0 - y) == y * y;
  }

  // The first point.
  lemma SecantWithin(f1: real, f2: real, x1: real, x2: real, x: real)
    requires f1 < 0.0 < f2 || f2 < 0.0 < f1
    requires x == Secant(f1, f2, x1, x2)
    ensures Within(x, x1, x2)
  {
    var d := f1 - f2;
    var k := f1 / d;
    Quotient(f1 * x2 - f2 * x1, d, x);
    Quotient(f1, d, k);
    SecantPart(f1, f2, d, k, x1, x2, x);
    UnitPart(f1, f2, d, k);
    PartWithin(k, x1, x2, x);
  }

  lemma SecantPart(f1: real, f2: real, d: real, k: real, x1: real, x2: real, x: real)
    requires d == f1 - f2 && d != 0.0 && x * d == f1 * x2 - f2 * x1 && k * d == f1
    ensures x == x1 + k * (x2 - x1)
  {
    var z := x - (x1 + k * (x2 - x1));
    assert z * d == x * d - x1 * d - (k * d) * (x2 - x1);
    assert z * d == 0.0;
  }

  lemma UnitPart(f1: real, f2: real, d: real, k: real)
    requires d == f1 - f2 && k * d == f1 && (f1 < 0.0 < f2 || f2 < 0.0 < f1)
    ensures 0.0 < k < 1.0
  {
    SignOfProduct(k, d);
    SignOfProduct(1.0 - k, d);
    assert Times(1.0 - k, d) == d - k * d;
  }

  // The value at x, measured from val.
  function Excess(va: real -> real, val: real): real -> real {
    x => va(x) - val
  }

  ghost predicate Straddles(f1: real, f2: real) {
    f1 < 0.0 < f2 || f2 < 0.0 < f1
  }

  // The search from the bracket that v1 and v2 announce.
  ghost predicate BegunT(f1: real, f2: real, x1: real, x2: real, b: Bracket, x: real) {
    && b == (if f1 < f2 then Bracket(x1, x2) else Bracket(x2, x1)) && Within(x, x1, x2)
    && f1 != f2 && x == Secant(f1, f2, x1, x2)
  }

  // Where the line through both end values crosses zero.
  function Secant(f1: real, f2: real, x1: real, x2: real): real
    requires f1 != f2
  {
    (f1 * x2 - f2 * x1) / (f1 - f2)
  }

  // The step to x' is too small to matter, or leads nowhere.
  ghost predicate Stops(f: real -> real, df: real -> real, b: Bracket, x: real, dxOld: real, dx: real, x': real) {
    Abs(dx) < 1e-15 || (if BisectsT(x, f(x), df(x), b, dxOld) then x' == b.lo else x' == x)
  }

  // The value at the point before, if that was left by bisection.
  ghost function LastValue(f: real -> real, df: real -> real, bs: seq<Bracket>, xs: seq<real>, ds: seq<real>,
                           k: nat): real
    requires k < |bs| == |xs| == |ds|
  {
    if k > 0 && BisectsT(xs[k - 1], f(xs[k - 1]), df(xs[k - 1]), bs[k - 1], StepBefore(ds, k - 1)) then f(xs[k - 1])
    else 0.0
  }

  ghost predicate NextTAt(f: real -> real, df: real -> real, bs: seq<Bracket>, xs: seq<real>, ds: seq<real>, k: nat,
                          dx: real, x: real)
    requires k < |bs| == |xs| == |ds|
  {
    NextT(f, df, bs[k], xs[k], StepBefore(ds, k), LastValue(f, df, bs, xs, ds, k), dx, x)
  }

  // Point k + 1 is the one after point k, and the search goes on from it.
  ghost predicate SteppedTAt(f: real -> real, df: real -> real, bs: seq<Bracket>, xs: seq<real>, ds: seq<real>, k: nat)
    requires k + 1 < |bs| == |xs| == |ds|
  {
    && NextTAt(f, df, bs, xs, ds, k, ds[k + 1], xs[k + 1])
    && !Stops(f, df, bs[k], xs[k], StepBefore(ds, k), ds[k + 1], xs[k + 1])
  }

  ghost predicate SteppedT(f: real -> real, df: real -> real, bs: seq<Bracket>, xs: seq<real>, ds: seq<real>) {
    |bs| == |xs| == |ds| > 0 && forall k :: 0 <= k < |bs| - 1 ==> SteppedTAt(f, df, bs, xs, ds, k)
  }

  // t is the next point, and the search stops there.
  ghost predicate Settled(f: real -> real, df: real -> real, bs: seq<Bracket>, xs: seq<real>, ds: seq<real>, t: real)
    requires |bs| == |xs| == |ds| > 0
  {
    var j := |bs| - 1;
    exists dx :: NextTAt(f, df, bs, xs, ds, j, dx, t) && Stops(f, df, bs[j], xs[j], StepBefore(ds, j), dx, t)
  }

  // It stops at a step that no longer matters or after nine; then the last point
  // is good enough or the middle of the last bracket is taken.
  ghost predicate SearchedT(f: real -> real, df: real -> real, f1: real, f2: real, x1: real, x2: real,
                            bs: seq<Bracket>, xs: seq<real>, ds: seq<real>, t: real)
  {
    && Narrowing(f, bs, xs) && |bs| <= 10 && BegunT(f1, f2, x1, x2, bs[0], xs[0])
    && SteppedT(f, df, bs, xs, ds) && ds[0] == Abs(x2 - x1)
    && var b, x := bs[|bs| - 1], xs[|xs| - 1];
       if |bs| == 10 then t == (if Abs(f(x)) < 1e-6 then x else 0.5 * (b.lo + b.hi))
       else Settled(f, df, bs, xs, ds, t)
  }

  method SolveTBracketed(va: real -> real, dva: real -> real, val: real, x1: real, x2: real, v1: real, v2: real)
    returns (t: real, ghost bs: seq<Bracket>, ghost xs: seq<real>, ghost ds: seq<real>)
    ensures Straddles(v1 - val, v2 - val) ==> SearchedT(Excess(va, val), dva, v1 - val, v2 - val, x1, x2, bs, xs, ds, t)
    ensures !Straddles(v1 - val, v2 - val) ==>
      (t == x1 && Abs(v1 - val) <= Abs(v2 - val)) || (t == x2 && Abs(v2 - val) <= Abs(v1 - val))
  {
    hide NextT, NextTAt, BisectsT, Stride, Secant, Narrowing, Settled, Stops, SteppedT, LastValue, Within;
    bs, xs, ds := [], [], [];
    ghost var g := Excess(va, val);
    var f1, f2 := v1 - val, v2 - val;
    if f1 == 0.0 { return x1, bs, xs, ds; }
    if f2 == 0.0 { return x2, bs, xs, ds; }
    var rts, xl, xh;
    if f1 < f2 {
      xl, xh := x1, x2;
      if 0.0 < f1 { return x1, bs, xs, ds; }
      if f2 < 0.0 { return x2, bs, xs, ds; }
    } else {
      xl, xh := x2, x1;
      if 0.0 < f2 { return x2, bs, xs, ds; }
      if f1 < 0.0 { return x1, bs, xs, ds; }
    }
    rts := Secant(f1, f2, x1, x2);
    SecantWithin(f1, f2, x1, x2, rts);
    var dxold := Abs(x2 - x1);
    var dx := dxold;
    var f, df := va(rts) - val, dva(rts);
    var flast := 0.0;
    bs, xs, ds := [Bracket(xl, xh)], [rts], [dx];
    OnePoint(g, dva, bs, xs, ds);
    for j := 1 to 10
      invariant f == g(rts) && df == dva(rts) && |bs| == |xs| == j && Narrowing(g, bs, xs)
      invariant BegunT(f1, f2, x1, x2, bs[0], xs[0])
      invariant |ds| == j && SteppedT(g, dva, bs, xs, ds) && ds[0] == Abs(x2 - x1) && ds[j - 1] == dx
      invariant StepBefore(ds, j - 1) == dxold && LastValue(g, dva, bs, xs, ds, j - 1) == flast
      invariant bs[|bs| - 1] == Bracket(xl, xh) && xs[|xs| - 1] == rts
    {
      ghost var b, x, e, l := Bracket(xl, xh), rts, dxold, flast;
      if BisectsT(rts, f, df, Bracket(xl, xh), dxold) {
        dxold := dx;
        dx := Stride(f, flast) * (xh - xl);
        flast := f;
        rts := xl + dx;
        NextTIs(g, dva, bs, xs, ds, b, x, f, df, e, l, dx, rts);
        assert Stops(g, dva, b, x, e, dx, rts) <==> Abs(dx) < XACC || xl == rts by {
          StopsIs(g, dva, b, x, e, dx, rts);
        }
        if xl == rts {
          SettledIs(g, dva, bs, xs, ds, dx, rts);
          return rts, bs, xs, ds;
        }
      } else {
        dxold := dx;
        if df == 0.0 { ZeroSlopeBisects(x, f, b, e); }
        dx := f / df;
        flast := 0.0;
        var temp := rts;
        rts := rts - dx;
        NextTIs(g, dva, bs, xs, ds, b, x, f, df, e, l, dx, rts);
        assert Stops(g, dva, b, x, e, dx, rts) <==> Abs(dx) < XACC || temp == rts by {
          StopsIs(g, dva, b, x, e, dx, rts);
        }
        if temp == rts {
          SettledIs(g, dva, bs, xs, ds, dx, rts);
          return rts, bs, xs, ds;
        }
      }
      NextTWithin(g, dva, b, x, e, l, dx, rts);
      if Abs(dx) < XACC {
        SettledIs(g, dva, bs, xs, ds, dx, rts);
        return rts, bs, xs, ds;
      }
      f, df := va(rts) - val, dva(rts);
      if f < 0.0 { xl := rts; } else { xh := rts; }
      NarrowingGrows(g, bs, xs, Bracket(xl, xh), rts);
      SteppedTGrows(g, dva, bs, xs, ds, Bracket(xl, xh), rts, dx);
      bs, xs, ds := bs + [Bracket(xl, xh)], xs + [rts], ds + [dx];
    }
    if Abs(f) < VACC { return rts, bs, xs, ds; }
    return 0.5 * (xl + xh), bs, xs, ds;
  }

  lemma SettledIs(f: real -> real, df: real -> real, bs: seq<Bracket>, xs: seq<real>, ds: seq<real>, dx: real, t: real)
    requires |bs| == |xs| == |ds| > 0 && NextTAt(f, df, bs, xs, ds, |bs| - 1, dx, t)
    requires Stops(f, df, bs[|bs| - 1], xs[|bs| - 1], StepBefore(ds, |bs| - 1), dx, t)
    ensures Settled(f, df, bs, xs, ds, t)
  {}

  lemma StopsIs(f: real -> real, df: real -> real, b: Bracket, x: real, dxOld: real, dx: real, x': real)
    ensures Stops(f, df, b, x, dxOld, dx, x')
            <==> Abs(dx) < XACC || (if BisectsT(x, f(x), df(x), b, dxOld) then x' == b.lo else x' == x)
  {}

  lemma OnePoint(f: real -> real, df: real -> real, bs: seq<Bracket>, xs: seq<real>, ds: seq<real>)
    requires |bs| == |xs| == |ds| == 1
    ensures Narrowing(f, bs, xs) && SteppedT(f, df, bs, xs, ds) && LastValue(f, df, bs, xs, ds, 0) == 0.0
  {}

  lemma SteppedTGrows(f: real -> real, df: real -> real, bs: seq<Bracket>, xs: seq<real>, ds: seq<real>, b: Bracket,
                      x: real, dx: real)
    requires SteppedT(f, df, bs, xs, ds) && NextTAt(f, df, bs, xs, ds, |bs| - 1, dx, x)
    requires !Stops(f, df, bs[|bs| - 1], xs[|xs| - 1], StepBefore(ds, |ds| - 1), dx, x)
    ensures SteppedT(f, df, bs + [b], xs + [x], ds + [dx])
    ensures var y, j := f(xs[|xs| - 1]), |xs| - 1;
      LastValue(f, df, bs + [b], xs + [x], ds + [dx], |xs|)
      == if BisectsT(xs[j], y, df(xs[j]), bs[j], StepBefore(ds, j)) then y else 0.0
  {
    hide NextT, Stops, BisectsT;
    forall k | 0 <= k < |bs| ensures SteppedTAt(f, df, bs + [b], xs + [x], ds + [dx], k) {
      assert k < |bs| - 1 ==> SteppedTAt(f, df, bs, xs, ds, k);
      assert LastValue(f, df, bs + [b], xs + [x], ds + [dx], k) == LastValue(f, df, bs, xs, ds, k);
    }
  }

  lemma NarrowingGrows(f: real -> real, bs: seq<Bracket>, xs: seq<real>, b: Bracket, x: real)
    requires Narrowing(f, bs, xs) && Narrowed(f, bs[|bs| - 1], b, x)
    ensures Narrowing(f, bs + [b], xs + [x])
  {}

  lemma NextTIs(f: real -> real, df: real -> real, bs: seq<Bracket>, xs: seq<real>, ds: seq<real>, b: Bracket, x: real,
                y: real, dy: real, dxOld: real, yLast: real, dx: real, x': real)
    requires |bs| == |xs| == |ds| > 0 && b == bs[|bs| - 1] && x == xs[|xs| - 1] && y == f(x) && dy == df(x)
    requires dxOld == StepBefore(ds, |ds| - 1) && yLast == LastValue(f, df, bs, xs, ds, |ds| - 1)
    requires BisectsT(x, y, dy, b, dxOld) ==> dx == Stride(y, yLast) * (b.hi - b.lo) && x' == b.lo + dx
    requires !BisectsT(x, y, dy, b, dxOld) ==> dy != 0.0 && dx == y / dy && x' == x - dx
    ensures NextT(f, df, b, x, dxOld, yLast, dx, x') && NextTAt(f, df, bs, xs, ds, |bs| - 1, dx, x')
  {}

  // Whatever it returns lies in the caller's interval.
  lemma SolvedWithin(f: real -> real, df: real -> real, f1: real, f2: real, x1: real, x2: real,
                     bs: seq<Bracket>, xs: seq<real>, ds: seq<real>, t: real)
    requires SearchedT(f, df, f1, f2, x1, x2, bs, xs, ds, t)
    ensures Within(t, x1, x2)
  {
    var j := |bs| - 1;
    NarrowingNests(f, bs, xs, 0, j);
    PointWithin(f, bs, xs, j);
    if |bs| < 10 {
      var dx :| NextTAt(f, df, bs, xs, ds, j, dx, t);
      NextTWithin(f, df, bs[j], xs[j], StepBefore(ds, j), LastValue(f, df, bs, xs, ds, j), dx, t);
    }
  }

  // If v1 and v2 are the values at the ends, every bracket has a change of sign.
  lemma SolvedBrackets(va: real -> real, df: real -> real, val: real, x1: real, x2: real,
                       bs: seq<Bracket>, xs: seq<real>, ds: seq<real>, t: real, j: nat)
    requires Straddles(va(x1) - val, va(x2) - val)
    requires SearchedT(Excess(va, val), df, va(x1) - val, va(x2) - val, x1, x2, bs, xs, ds, t) && j < |bs|
    ensures Brackets(Excess(va, val), bs[j])
  {
    NarrowingNests(Excess(va, val), bs, xs, 0, j);
  }
}
