// Table lookup: the search of an axis, and interpolation in one, two and three
// dimensions, which also extrapolates.
module TableModel {
  import opened Options
  import opened RealSums
  import opened Matrices

  type Axis = seq<real>

  ghost predicate Ascending(a: Axis) {
    |a| > 0 && forall i, j :: 0 <= i < j < |a| ==> a[i] < a[j]
  }

  // ---- The search of an axis -----------------------------------------------------------------

  function Bisect(a: Axis, x: real, ascend: bool, lower: int, upper: int): int
    requires -1 <= lower < upper <= |a|
    decreases upper - lower
  {
    if upper - lower > 1 then
      var mid := (upper + lower) / 2;
      if (x >= a[mid]) == ascend then Bisect(a, x, ascend, mid, upper) else Bisect(a, x, ascend, lower, mid)
    else lower
  }

  lemma {:induction false} BisectBrackets(a: Axis, x: real, lower: int, upper: int)
    requires -1 <= lower < upper <= |a| && (lower >= 0 ==> a[lower] <= x) && (upper < |a| ==> x < a[upper])
    ensures var i := Bisect(a, x, true, lower, upper);
      lower <= i < upper && (i >= 0 ==> a[i] <= x) && (i + 1 < |a| ==> x < a[i + 1])
    decreases upper - lower
  {
    if upper - lower > 1 {
      var mid := (upper + lower) / 2;
      if x >= a[mid] { BisectBrackets(a, x, mid, upper); } else { BisectBrackets(a, x, lower, mid); }
    }
  }

  // The cell of x on the axis; the first or last one if x is off the axis.
  function AxisIndex(a: Axis, x: real): (i: nat)
    requires |a| > 0
    ensures if |a| == 1 then i == 0 else i + 1 < |a|
    ensures |a| > 1 && a[0] < x < a[|a| - 1] ==> a[i] <= x < a[i + 1]
  {
    var max := |a| - 1;
    if x <= a[0] || max == 0 then 0
    else if x >= a[max] then max - 1
    else
      BisectBrackets(a, x, -1, max + 1);
      Bisect(a, x, a[max] >= a[0], -1, max + 1)
  }

  method FindAxisIndex(a: Axis, value: real) returns (index: nat)
    requires |a| > 0
    ensures index == AxisIndex(a, value)
  {
    var max := |a| - 1;
    if value <= a[0] || max == 0 {
      return 0;
    } else if value >= a[max] {
      // The last cell, so that there is a point after it.
      return max - 1;
    } else {
      var lower, upper := -1, max + 1;
      var ascend := a[max] >= a[0];
      while upper - lower > 1
        invariant -1 <= lower < upper <= max + 1
        invariant Bisect(a, value, ascend, lower, upper) == Bisect(a, value, ascend, -1, max + 1)
      {
        var mid := (upper + lower) / 2;
        if (value >= a[mid]) == ascend {
          lower := mid;
        } else {
          upper := mid;
        }
      }
      BisectBrackets(a, value, -1, max + 1);
      return lower;
    }
  }

  // On a descending axis the search never runs: the first or the last cell is
  // taken, wherever x is.
  lemma DescendingIsNotSearched(a: Axis, x: real)
    requires |a| > 1 && forall i, j :: 0 <= i < j < |a| ==> a[i] > a[j]
    ensures AxisIndex(a, x) == if x <= a[0] then 0 else |a| - 2
    ensures a[|a| - 1] <= x <= a[0] ==> (a[AxisIndex(a, x)] >= x >= a[AxisIndex(a, x) + 1] <==> x >= a[1])
  {}

  // ---- Interpolation between two points --------------------------------------------------------

  function Lerp(d: real, y0: real, y1: real): real {
    (1.0 - d) * y0 + d * y1
  }

  // How far x is into cell i.
  function Weight(a: Axis, i: nat, x: real): real
    requires i + 1 < |a| && a[i] < a[i + 1]
  {
    (x - a[i]) / (a[i + 1] - a[i])
  }

  // A function of one variable whose graph is a line.
  ghost predicate Affine(g: real -> real) {
    forall x :: g(x) == g(0.0) + x * (g(1.0) - g(0.0))
  }

  lemma LerpOfLine(a: Axis, i: nat, x: real, g: real -> real)
    requires i + 1 < |a| && a[i] < a[i + 1] && Affine(g)
    ensures Lerp(Weight(a, i, x), g(a[i]), g(a[i + 1])) == g(x)
  {
    var d := Weight(a, i, x);
    LinePoint(a[i], a[i + 1], x, d, g(0.0), g(1.0) - g(0.0), g(a[i]), g(a[i + 1]), g(x));
  }

  lemma LinePoint(l: real, u: real, x: real, d: real, p: real, q: real, yl: real, yu: real, y: real)
    requires l < u && d == (x - l) / (u - l) && yl == p + l * q && yu == p + u * q && y == p + x * q
    ensures Lerp(d, yl, yu) == y
  {
    WeightTimes(l, u, x, d);
    assert (1.0 - d) * yl + d * yu == yl + d * (yu - yl);
    assert yu - yl == (u - l) * q;
    assert d * ((u - l) * q) == (d * (u - l)) * q;
  }

  lemma WeightTimes(l: real, u: real, x: real, d: real)
    requires l < u && d == (x - l) / (u - l)
    ensures d * (u - l) == x - l
  {}

  lemma WeightAtEnds(a: Axis, i: nat)
    requires i + 1 < |a| && a[i] < a[i + 1]
    ensures Weight(a, i, a[i]) == 0.0 && Weight(a, i, a[i + 1]) == 1.0
  {
    var l, u := a[i], a[i + 1];
    assert (l - l) / (u - l) == 0.0 && (u - l) / (u - l) == 1.0;
  }

  lemma WeightInside(a: Axis, i: nat, x: real)
    requires i + 1 < |a| && a[i] < a[i + 1] && a[i] <= x <= a[i + 1]
    ensures 0.0 <= Weight(a, i, x) <= 1.0
  {
    var d := Weight(a, i, x);
    WeightTimes(a[i], a[i + 1], x, d);
    Ratio(x - a[i], a[i + 1] - a[i], d);
  }

  lemma Ratio(p: real, q: real, d: real)
    requires 0.0 <= p <= q && q > 0.0 && d * q == p
    ensures 0.0 <= d <= 1.0
  {
    assert (-d) * q == -(d * q) && (d - 1.0) * q == d * q - q;
    Cancelled(-d, q);
    Cancelled(d - 1.0, q);
  }

  lemma Cancelled(x: real, q: real)
    requires q > 0.0 && x * q <= 0.0
    ensures x <= 0.0
  {
    if x > 0.0 { PosProduct(x, q); assert false; }
  }

  lemma LerpAtEnds(y0: real, y1: real)
    ensures Lerp(0.0, y0, y1) == y0 && Lerp(1.0, y0, y1) == y1
  {}

  ghost predicate Between(lo: real, x: real, hi: real) {
    lo <= x <= hi
  }

  // Interpolation keeps an order between its end points.
  lemma LerpOrder(d: real, y0: real, y1: real, z0: real, z1: real)
    requires 0.0 <= d <= 1.0 && y0 <= z0 && y1 <= z1
    ensures Lerp(d, y0, y1) <= Lerp(d, z0, z1)
  {
    NonNegProduct(1.0 - d, z0 - y0);
    NonNegProduct(d, z1 - y1);
    Differences(d, y0, y1, z0, z1);
  }

  lemma Differences(d: real, y0: real, y1: real, z0: real, z1: real)
    ensures Lerp(d, z0, z1) - Lerp(d, y0, y1) == (1.0 - d) * (z0 - y0) + d * (z1 - y1)
  {}

  lemma LerpSame(d: real, y: real)
    ensures Lerp(d, y, y) == y
  {}

  // A greater weight gives no less when the second point is no lower.
  lemma LerpRises(d: real, d': real, y0: real, y1: real)
    requires d <= d' && y0 <= y1
    ensures Lerp(d, y0, y1) <= Lerp(d', y0, y1)
  {
    NonNegProduct(d' - d, y1 - y0);
    assert Lerp(d', y0, y1) - Lerp(d, y0, y1) == (d' - d) * (y1 - y0);
  }

  // ---- A value looked up on an axis, in a cell of it ---------------------------------------------

  datatype Place = Place(axis: Axis, cell: nat, x: real)

  ghost predicate Placed(P: Place) {
    Ascending(P.axis) && if |P.axis| == 1 then P.cell == 0 else P.cell + 1 < |P.axis|
  }

  // x is in the closed cell.
  ghost predicate Inside(P: Place)
    requires Placed(P)
  {
    |P.axis| > 1 ==> P.axis[P.cell] <= P.x <= P.axis[P.cell + 1]
  }

  ghost function Found(a: Axis, x: real): (P: Place)
    requires Ascending(a)
    ensures Placed(P)
    ensures a[0] <= x <= a[|a| - 1] ==> Inside(P)
  {
    Place(a, AxisIndex(a, x), x)
  }

  // The point of the axis a lookup of x stands for: an axis of one point is constant.
  ghost function Reach(P: Place): real
    requires Placed(P)
  {
    if |P.axis| == 1 then P.axis[0] else P.x
  }

  // f is the function that holds the stored values.
  ghost function Interp(P: Place, f: int -> real): real
    requires Placed(P)
  {
    if |P.axis| == 1 then f(0) else Lerp(Weight(P.axis, P.cell, P.x), f(P.cell), f(P.cell + 1))
  }

  lemma InterpExact(P: Place, f: int -> real, g: real -> real)
    requires Placed(P) && Affine(g) && forall i :: 0 <= i < |P.axis| ==> f(i) == g(P.axis[i])
    ensures Interp(P, f) == g(Reach(P))
  {
    if |P.axis| > 1 { LerpOfLine(P.axis, P.cell, P.x, g); }
  }

  lemma InterpStored(a: Axis, i: nat, f: int -> real)
    requires Ascending(a) && i < |a|
    ensures Interp(Found(a, a[i]), f) == f(i)
  {
    var c := AxisIndex(a, a[i]);
    if |a| > 1 {
      Nearest(a, i);
      WeightAtEnds(a, c);
      LerpAtEnds(f(c), f(c + 1));
    }
  }

  lemma LessIffBefore(a: Axis, i: nat, j: nat)
    requires Ascending(a) && i < |a| && j < |a|
    ensures a[i] < a[j] <==> i < j
    ensures a[i] == a[j] <==> i == j
  {}

  lemma Nearest(a: Axis, i: nat)
    requires Ascending(a) && i < |a| && |a| > 1
    ensures i == AxisIndex(a, a[i]) || i == AxisIndex(a, a[i]) + 1
  {
    var c := AxisIndex(a, a[i]);
    if 0 < i < |a| - 1 {
      assert a[0] < a[i] < a[|a| - 1];
      LessIffBefore(a, i, c);
      LessIffBefore(a, c + 1, i);
    } else if i == |a| - 1 {
      assert a[0] < a[i];
    }
  }

  // Where two cells meet, either gives the same value.
  lemma InterpAgrees(P: Place, P': Place, f: int -> real)
    requires Placed(P) && Placed(P') && P.axis == P'.axis && P.x == P'.x && Inside(P) && Inside(P')
    ensures Interp(P, f) == Interp(P', f)
  {
    if |P.axis| > 1 && P.cell < P'.cell { Adjoining(P, P', f); }
    if |P.axis| > 1 && P'.cell < P.cell { Adjoining(P', P, f); }
  }

  lemma Adjoining(P: Place, P': Place, f: int -> real)
    requires Placed(P) && Placed(P') && P.axis == P'.axis && P.x == P'.x && Inside(P) && Inside(P')
    requires |P.axis| > 1 && P.cell < P'.cell
    ensures Interp(P, f) == Interp(P', f)
  {
    var a, c := P.axis, P'.cell;
    LessIffBefore(a, P.cell + 1, c);
    WeightAtEnds(a, P.cell);
    WeightAtEnds(a, c);
    LerpAtEnds(f(P.cell), f(c));
    LerpAtEnds(f(c), f(c + 1));
  }

  // Inside the axis, interpolation keeps an order between stored values.
  lemma InterpOrder(P: Place, f: int -> real, g: int -> real)
    requires Placed(P) && Inside(P)
    requires f(P.cell) <= g(P.cell) && (|P.axis| > 1 ==> f(P.cell + 1) <= g(P.cell + 1))
    ensures Interp(P, f) <= Interp(P, g)
  {
    if |P.axis| > 1 {
      WeightInside(P.axis, P.cell, P.x);
      LerpOrder(Weight(P.axis, P.cell, P.x), f(P.cell), f(P.cell + 1), g(P.cell), g(P.cell + 1));
    }
  }

  lemma InterpConstant(P: Place, y: real)
    requires Placed(P)
    ensures Interp(P, i => y) == y
  {
    if |P.axis| > 1 { LerpSame(Weight(P.axis, P.cell, P.x), y); }
  }

  lemma InterpBetween(P: Place, f: int -> real, lo: real, hi: real)
    requires Placed(P) && Inside(P)
    requires Between(lo, f(P.cell), hi) && (|P.axis| > 1 ==> Between(lo, f(P.cell + 1), hi))
    ensures Between(lo, Interp(P, f), hi)
  {
    InterpConstant(P, lo);
    InterpConstant(P, hi);
    InterpOrder(P, i => lo, f);
    InterpOrder(P, f, i => hi);
  }

  ghost predicate Rising(n: nat, f: int -> real) {
    forall i, j :: 0 <= i <= j < n ==> f(i) <= f(j)
  }

  // Rising values are looked up in rising order, off the axis too.
  lemma InterpRises(a: Axis, x: real, x': real, f: int -> real)
    requires Ascending(a) && Rising(|a|, f) && x <= x'
    ensures Interp(Found(a, x), f) <= Interp(Found(a, x'), f)
  {
    var i, j := AxisIndex(a, x), AxisIndex(a, x');
    if |a| > 1 {
      IndexRises(a, x, x');
      if i == j {
        WeightRises(a, i, x, x');
        LerpRises(Weight(a, i, x), Weight(a, i, x'), f(i), f(i + 1));
      } else {
        WeightAtEnds(a, i);
        WeightAtEnds(a, j);
        WeightRises(a, i, x, a[i + 1]);
        WeightRises(a, j, a[j], x');
        LerpRises(Weight(a, i, x), 1.0, f(i), f(i + 1));
        LerpRises(0.0, Weight(a, j, x'), f(j), f(j + 1));
        LerpAtEnds(f(i), f(i + 1));
        LerpAtEnds(f(j), f(j + 1));
      }
    }
  }

  lemma IndexRises(a: Axis, x: real, x': real)
    requires Ascending(a) && |a| > 1 && x <= x'
    ensures var i, j := AxisIndex(a, x), AxisIndex(a, x'); i <= j && (i < j ==> x <= a[i + 1] && a[j] <= x')
  {
    var i, j := AxisIndex(a, x), AxisIndex(a, x');
    LessIffBefore(a, j + 1, i);
  }

  lemma WeightRises(a: Axis, i: nat, x: real, x': real)
    requires i + 1 < |a| && a[i] < a[i + 1] && x <= x'
    ensures Weight(a, i, x) <= Weight(a, i, x')
  {
    var d, d', q := Weight(a, i, x), Weight(a, i, x'), a[i + 1] - a[i];
    WeightTimes(a[i], a[i + 1], x, d);
    WeightTimes(a[i], a[i + 1], x', d');
    assert (d - d') * q == d * q - d' * q;
    Cancelled(d - d', q);
  }

  // ---- Two and three axes -----------------------------------------------------------------------

  ghost function Along(Q: Place, F: (int, int) -> real): int -> real
    requires Placed(Q)
  {
    p => Interp(Q, RowOf(F, p))
  }

  ghost function Interp2(P: Place, Q: Place, F: (int, int) -> real): real
    requires Placed(P) && Placed(Q)
  {
    Interp(P, Along(Q, F))
  }

  ghost function LineOf(G: (int, int, int) -> real, p: int, q: int): int -> real {
    r => G(p, q, r)
  }

  ghost function Slice(R: Place, G: (int, int, int) -> real): (int, int) -> real
    requires Placed(R)
  {
    (p, q) => Interp(R, LineOf(G, p, q))
  }

  ghost function Interp3(P: Place, Q: Place, R: Place, G: (int, int, int) -> real): real
    requires Placed(P) && Placed(Q) && Placed(R)
  {
    Interp2(P, Q, Slice(R, G))
  }

  ghost function First2(H: (real, real) -> real, y: real): real -> real {
    x => H(x, y)
  }

  ghost function Second2(H: (real, real) -> real, x: real): real -> real {
    y => H(x, y)
  }

  ghost predicate Bilinear(H: (real, real) -> real) {
    forall t :: Affine(First2(H, t)) && Affine(Second2(H, t))
  }

  lemma InterpExact2(P: Place, Q: Place, F: (int, int) -> real, H: (real, real) -> real)
    requires Placed(P) && Placed(Q) && Bilinear(H)
    requires forall p, q :: 0 <= p < |P.axis| && 0 <= q < |Q.axis| ==> F(p, q) == H(P.axis[p], Q.axis[q])
    ensures Interp2(P, Q, F) == H(Reach(P), Reach(Q))
  {
    forall p | 0 <= p < |P.axis| ensures Along(Q, F)(p) == First2(H, Reach(Q))(P.axis[p]) {
      InterpExact(Q, RowOf(F, p), Second2(H, P.axis[p]));
    }
    InterpExact(P, Along(Q, F), First2(H, Reach(Q)));
  }

  ghost function FixThird(H: (real, real, real) -> real, z: real): (real, real) -> real {
    (x, y) => H(x, y, z)
  }

  ghost function Third(H: (real, real, real) -> real, x: real, y: real): real -> real {
    z => H(x, y, z)
  }

  ghost predicate Trilinear(H: (real, real, real) -> real) {
    (forall z :: Bilinear(FixThird(H, z))) && forall x, y :: Affine(Third(H, x, y))
  }

  // G stores H at the points of the axes.
  ghost predicate Samples(a: Axis, b: Axis, c: Axis, G: (int, int, int) -> real, H: (real, real, real) -> real) {
    forall p, q, r :: 0 <= p < |a| && 0 <= q < |b| && 0 <= r < |c| ==> G(p, q, r) == H(a[p], b[q], c[r])
  }

  lemma InterpExact3(P: Place, Q: Place, R: Place, G: (int, int, int) -> real, H: (real, real, real) -> real)
    requires Placed(P) && Placed(Q) && Placed(R) && Trilinear(H) && Samples(P.axis, Q.axis, R.axis, G, H)
    ensures Interp3(P, Q, R, G) == H(Reach(P), Reach(Q), Reach(R))
  {
    forall p, q | 0 <= p < |P.axis| && 0 <= q < |Q.axis|
      ensures Slice(R, G)(p, q) == FixThird(H, Reach(R))(P.axis[p], Q.axis[q])
    {
      InterpExact(R, LineOf(G, p, q), Third(H, P.axis[p], Q.axis[q]));
    }
    InterpExact2(P, Q, Slice(R, G), FixThird(H, Reach(R)));
  }

  ghost predicate SameSpot(P: Place, P': Place) {
    Placed(P) && Placed(P') && P.axis == P'.axis && P.x == P'.x && Inside(P) && Inside(P')
  }

  lemma SameOnAxis(P: Place, f: int -> real, g: int -> real)
    requires Placed(P) && forall i :: 0 <= i < |P.axis| ==> f(i) == g(i)
    ensures Interp(P, f) == Interp(P, g)
  {}

  lemma InterpAgrees2(P: Place, P': Place, Q: Place, Q': Place, F: (int, int) -> real, F': (int, int) -> real)
    requires SameSpot(P, P') && SameSpot(Q, Q') && forall p, q :: F(p, q) == F'(p, q)
    ensures Interp2(P, Q, F) == Interp2(P', Q', F')
  {
    forall p ensures Along(Q, F)(p) == Along(Q', F')(p) {
      SameOnAxis(Q, RowOf(F, p), RowOf(F', p));
      InterpAgrees(Q, Q', RowOf(F', p));
    }
    SameOnAxis(P, Along(Q, F), Along(Q', F'));
    InterpAgrees(P, P', Along(Q', F'));
  }

  lemma InterpAgrees3(P: Place, P': Place, Q: Place, Q': Place, R: Place, R': Place, G: (int, int, int) -> real)
    requires SameSpot(P, P') && SameSpot(Q, Q') && SameSpot(R, R')
    ensures Interp3(P, Q, R, G) == Interp3(P', Q', R', G)
  {
    forall p, q ensures Slice(R, G)(p, q) == Slice(R', G)(p, q) {
      InterpAgrees(R, R', LineOf(G, p, q));
    }
    InterpAgrees2(P, P', Q, Q', Slice(R, G), Slice(R', G));
  }

  // The points of the cell.
  ghost predicate IsCorner(P: Place, i: int)
    requires Placed(P)
  {
    i == P.cell || (|P.axis| > 1 && i == P.cell + 1)
  }

  lemma InterpBetween3(P: Place, Q: Place, R: Place, G: (int, int, int) -> real, lo: real, hi: real)
    requires Placed(P) && Placed(Q) && Placed(R) && Inside(P) && Inside(Q) && Inside(R)
    requires forall p, q, r :: IsCorner(P, p) && IsCorner(Q, q) && IsCorner(R, r) ==> Between(lo, G(p, q, r), hi)
    ensures Between(lo, Interp3(P, Q, R, G), hi)
  {
    forall p, q | IsCorner(P, p) && IsCorner(Q, q) ensures Between(lo, Slice(R, G)(p, q), hi) {
      assert IsCorner(R, R.cell) && (|R.axis| > 1 ==> IsCorner(R, R.cell + 1));
      InterpBetween(R, LineOf(G, p, q), lo, hi);
    }
    forall p | IsCorner(P, p) ensures Between(lo, Along(Q, Slice(R, G))(p), hi) {
      assert IsCorner(Q, Q.cell) && (|Q.axis| > 1 ==> IsCorner(Q, Q.cell + 1));
      InterpBetween(Q, RowOf(Slice(R, G), p), lo, hi);
    }
    assert IsCorner(P, P.cell) && (|P.axis| > 1 ==> IsCorner(P, P.cell + 1));
    InterpBetween(P, Along(Q, Slice(R, G)), lo, hi);
  }

  ghost predicate Rising3(l: int, m: int, n: int, G: (int, int, int) -> real) {
    forall p, p', q, q', r, r' :: 0 <= p <= p' < l && 0 <= q <= q' < m && 0 <= r <= r' < n ==>
      G(p, q, r) <= G(p', q', r')
  }

  ghost predicate Rising2(l: int, m: int, F: (int, int) -> real) {
    forall p, p', q, q' :: 0 <= p <= p' < l && 0 <= q <= q' < m ==> F(p, q) <= F(p', q')
  }

  ghost predicate OnAxis(a: Axis, x: real)
    requires Ascending(a)
  {
    a[0] <= x <= a[|a| - 1]
  }

  lemma InterpRises2(a: Axis, b: Axis, x: real, x': real, y: real, y': real, F: (int, int) -> real)
    requires Ascending(a) && Ascending(b) && OnAxis(b, y) && OnAxis(b, y') && x <= x' && y <= y' && OnAxis(a, x)
    requires OnAxis(a, x')
    requires Rising2(|a|, |b|, F)
    ensures Interp2(Found(a, x), Found(b, y), F) <= Interp2(Found(a, x'), Found(b, y'), F)
  {
    var Q, Q' := Found(b, y), Found(b, y');
    forall p, p' | 0 <= p <= p' < |a| ensures Along(Q, F)(p) <= Along(Q, F)(p') {
      InterpOrder(Q, RowOf(F, p), RowOf(F, p'));
    }
    InterpRises(a, x, x', Along(Q, F));
    forall p | 0 <= p < |a| ensures Along(Q, F)(p) <= Along(Q', F)(p) {
      InterpRises(b, y, y', RowOf(F, p));
    }
    InterpOrder(Found(a, x'), Along(Q, F), Along(Q', F));
  }

  lemma InterpOrder2(P: Place, Q: Place, F: (int, int) -> real, F': (int, int) -> real)
    requires Placed(P) && Placed(Q) && Inside(P) && Inside(Q)
    requires forall p, q :: 0 <= p < |P.axis| && 0 <= q < |Q.axis| ==> F(p, q) <= F'(p, q)
    ensures Interp2(P, Q, F) <= Interp2(P, Q, F')
  {
    forall p | 0 <= p < |P.axis| ensures Along(Q, F)(p) <= Along(Q, F')(p) {
      InterpOrder(Q, RowOf(F, p), RowOf(F', p));
    }
    InterpOrder(P, Along(Q, F), Along(Q, F'));
  }

  lemma InterpRises3(a: Axis, b: Axis, c: Axis, x: real, x': real, y: real, y': real, z: real, z': real,
                     G: (int, int, int) -> real)
    requires Ascending(a) && Ascending(b) && Ascending(c) && x <= x' && y <= y' && z <= z'
    requires OnAxis(a, x) && OnAxis(a, x') && OnAxis(b, y) && OnAxis(b, y') && OnAxis(c, z) && OnAxis(c, z')
    requires Rising3(|a|, |b|, |c|, G)
    ensures Interp3(Found(a, x), Found(b, y), Found(c, z), G) <= Interp3(Found(a, x'), Found(b, y'), Found(c, z'), G)
  {
    hide Interp, Interp2;
    var R, R' := Found(c, z), Found(c, z');
    forall p, p', q, q' | 0 <= p <= p' < |a| && 0 <= q <= q' < |b| ensures Slice(R, G)(p, q) <= Slice(R, G)(p', q') {
      SliceRises(R, |a|, |b|, G, p, p', q, q');
    }
    InterpRises2(a, b, x, x', y, y', Slice(R, G));
    forall p, q | 0 <= p < |a| && 0 <= q < |b| ensures Slice(R, G)(p, q) <= Slice(R', G)(p, q) {
      LineRises(|a|, |b|, |c|, G, p, q);
      InterpRises(c, z, z', LineOf(G, p, q));
    }
    InterpOrder2(Found(a, x'), Found(b, y'), Slice(R, G), Slice(R', G));
  }

  lemma SliceRises(R: Place, l: int, m: int, G: (int, int, int) -> real, p: int, p': int, q: int, q': int)
    requires Placed(R) && Inside(R) && Rising3(l, m, |R.axis|, G) && 0 <= p <= p' < l && 0 <= q <= q' < m
    ensures Slice(R, G)(p, q) <= Slice(R, G)(p', q')
  {
    hide Interp;
    InterpOrder(R, LineOf(G, p, q), LineOf(G, p', q'));
  }

  lemma LineRises(l: int, m: int, n: nat, G: (int, int, int) -> real, p: int, q: int)
    requires Rising3(l, m, n, G) && 0 <= p < l && 0 <= q < m
    ensures Rising(n, LineOf(G, p, q))
  {}

  // ---- The tables -------------------------------------------------------------------------------

  datatype Table1 = Table1(values: seq<real>, axis1: Axis) {
    ghost predicate Valid() {
      Ascending(axis1) && |values| == |axis1|
    }

    // With one point on the axis the looked-up value itself, cut to an integer,
    // is the index; None stands for reading outside the table.
    function FindValue(x1: real): Option<real>
      requires Valid()
    {
      if |axis1| == 1 then
        if -1.0 < x1 < 1.0 then Some(values[0]) else None
      else
        var index1 := AxisIndex(axis1, x1);
        var dx1 := Weight(axis1, index1, x1);
        Some(Lerp(dx1, values[index1], values[index1 + 1]))
    }
  }

  datatype Table2 = Table2(values: Matrix, axis1: Axis, axis2: Axis) {
    ghost predicate Valid() {
      && Ascending(axis1) && Ascending(axis2) && |values| == |axis1|
      && forall i :: 0 <= i < |axis1| ==> |values[i]| == |axis2|
    }

    // Interpolation along both axes, or the one that has more than a point.
    function FindValue(x1: real, x2: real): real
      requires Valid()
    {
      if |axis1| == 1 then
        if |axis2| == 1 then values[0][0]
        else
          var index2 := AxisIndex(axis2, x2);
          var dx2 := Weight(axis2, index2, x2);
          Lerp(dx2, values[0][index2], values[0][index2 + 1])
      else if |axis2| == 1 then
        var index1 := AxisIndex(axis1, x1);
        var dx1 := Weight(axis1, index1, x1);
        Lerp(dx1, values[index1][0], values[index1 + 1][0])
      else
        var index1 := AxisIndex(axis1, x1);
        var index2 := AxisIndex(axis2, x2);
        var dx1 := Weight(axis1, index1, x1);
        var dx2 := Weight(axis2, index2, x2);
        FourTerms(dx1, dx2, values[index1][index2], values[index1][index2 + 1], values[index1 + 1][index2],
                  values[index1 + 1][index2 + 1])
    }
  }

  function FourTerms(d1: real, d2: real, y00: real, y01: real, y10: real, y11: real): real {
    (1.0 - d1) * (1.0 - d2) * y00 + d1 * (1.0 - d2) * y10 + d1 * d2 * y11 + (1.0 - d1) * d2 * y01
  }

  lemma FourTermsNest(d1: real, d2: real, y00: real, y01: real, y10: real, y11: real)
    ensures FourTerms(d1, d2, y00, y01, y10, y11) == Lerp(d1, Lerp(d2, y00, y01), Lerp(d2, y10, y11))
  {}

  lemma Table1Interpolates(t: Table1, x1: real)
    requires t.Valid()
    ensures t.FindValue(x1) == Some(Interp(Found(t.axis1, x1), Entries(t.values))) <==> |t.axis1| > 1 || -1.0 < x1 < 1.0
  {
    var P, f := Found(t.axis1, x1), Entries(t.values);
    if |t.axis1| == 1 {
      assert f(0) == t.values[0];
    } else {
      assert Interp(P, f) == Lerp(Weight(P.axis, P.cell, x1), t.values[P.cell], t.values[P.cell + 1]);
    }
  }

  lemma Table2Interpolates(t: Table2, x1: real, x2: real)
    requires t.Valid()
    ensures t.FindValue(x1, x2) == Interp2(Found(t.axis1, x1), Found(t.axis2, x2), EntryOf(t.values))
  {
    var P, Q, V := Found(t.axis1, x1), Found(t.axis2, x2), t.values;
    if |t.axis1| > 1 && |t.axis2| > 1 {
      var i, j := P.cell, Q.cell;
      FourTermsNest(Weight(P.axis, i, x1), Weight(Q.axis, j, x2), V[i][j], V[i][j + 1], V[i + 1][j], V[i + 1][j + 1]);
    }
  }

  datatype Table3 = Table3(values: Matrix, axis1: Axis, axis2: Axis, axis3: Axis) {
    ghost predicate Valid() {
      Ascending(axis1) && Ascending(axis2) && Ascending(axis3) && |values| == |axis1| * |axis2| &&
      forall i :: 0 <= i < |values| ==> |values[i]| == |axis3|
    }

    // The rows are the points of the first two axes, those of the first axis outermost.
    function Value(index1: nat, index2: nat, index3: nat): real
      requires Valid() && index1 < |axis1| && index2 < |axis2| && index3 < |axis3|
    {
      RowInTable(|axis1|, |axis2|, index1, index2);
      values[index1 * |axis2| + index2][index3]
    }

    method FindValue(value1: real, value2: real, value3: real) returns (tblValue: real)
      requires Valid()
      ensures tblValue == Looked(this, value1, value2, value3)
    {
      hide EightTerms, Interp3, Weight, Vr;
      var index1 := FindAxisIndex(axis1, value1);
      var index2 := FindAxisIndex(axis2, value2);
      var index3 := FindAxisIndex(axis3, value3);
      var dx1, dx2, dx3 := 0.0, 0.0, 0.0;
      var y000 := Value(index1, index2, index3);
      var y001, y010, y011, y100, y101, y110, y111 := 0.0, 0.0, 0.0, 0.0, 0.0, 0.0, 0.0;
      if |axis1| != 1 {
        dx1 := Weight(axis1, index1, value1);
        y100 := Value(index1 + 1, index2, index3);
        if |axis3| != 1 {
          y101 := Value(index1 + 1, index2, index3 + 1);
        }
        if |axis2| != 1 {
          y110 := Value(index1 + 1, index2 + 1, index3);
          if |axis3| != 1 {
            y111 := Value(index1 + 1, index2 + 1, index3 + 1);
          }
        }
      }
      if |axis2| != 1 {
        dx2 := Weight(axis2, index2, value2);
        y010 := Value(index1, index2 + 1, index3);
        if |axis3| != 1 {
          y011 := Value(index1, index2 + 1, index3 + 1);
        }
      }
      if |axis3| != 1 {
        dx3 := Weight(axis3, index3, value3);
        y001 := Value(index1, index2, index3 + 1);
      }
      tblValue := EightTerms(dx1, dx2, dx3, y000, y001, y010, y011, y100, y101, y110, y111);
      AllStored(this);
      EightTermsInterpolate(Found(axis1, value1), Found(axis2, value2), Found(axis3, value3), dx1, dx2, dx3,
                            Stored(this),
        y000, y001, y010, y011, y100, y101, y110, y111);
    }
  }

  lemma RowInTable(l: nat, m: nat, p: nat, q: nat)
    requires p < l && q < m
    ensures p * m + q < l * m
  {
    assert l * m == p * m + m + (l - p - 1) * m;
  }

  // The value stored at each point of a table.
  ghost function Stored(t: Table3): (int, int, int) -> real {
    (p, q, r) => Vr(t.values, p * |t.axis2| + q, r)
  }

  // The rows of several tables, one table after the other.
  ghost function Joined(layers: seq<Matrix>): Matrix {
    if layers == [] then [] else Joined(layers[..|layers| - 1]) + layers[|layers| - 1]
  }

  // A table for every point of the first axis, joined, is read back point by point.
  lemma LayersAreRead(t: Table3, layers: seq<Matrix>, p: nat, q: nat, r: nat)
    requires t.Valid() && |layers| == |t.axis1| && (forall i :: 0 <= i < |layers| ==> |layers[i]| == |t.axis2|)
    requires t.values == Joined(layers) && p < |t.axis1| && q < |t.axis2| && r < |t.axis3|
    ensures r < |layers[p][q]| && t.Value(p, q, r) == layers[p][q][r] == Stored(t)(p, q, r)
  {
    RowInTable(|t.axis1|, |t.axis2|, p, q);
    JoinedAt(layers, |t.axis2|, p, q);
    StoredAt(t, p, q, r);
  }

  lemma {:induction false} JoinedAt(layers: seq<Matrix>, m: nat, p: nat, q: nat)
    requires p < |layers| && q < m && forall i :: 0 <= i < |layers| ==> |layers[i]| == m
    ensures p * m + q < |Joined(layers)| == |layers| * m && Joined(layers)[p * m + q] == layers[p][q]
  {
    var n := |layers| - 1;
    JoinedSize(layers[..n], m);
    RowInTable(|layers|, m, p, q);
    assert |layers| * m == n * m + m;
    if p < n {
      JoinedAt(layers[..n], m, p, q);
    }
  }

  lemma {:induction false} JoinedSize(layers: seq<Matrix>, m: nat)
    requires forall i :: 0 <= i < |layers| ==> |layers[i]| == m
    ensures |Joined(layers)| == |layers| * m
  {
    if layers != [] {
      JoinedSize(layers[..|layers| - 1], m);
      assert |layers| * m == (|layers| - 1) * m + m;
    }
  }

  lemma StoredAt(t: Table3, p: nat, q: nat, r: nat)
    requires t.Valid() && p < |t.axis1| && q < |t.axis2| && r < |t.axis3|
    ensures Stored(t)(p, q, r) == t.Value(p, q, r)
  {
    RowInTable(|t.axis1|, |t.axis2|, p, q);
  }

  ghost function Looked(t: Table3, x1: real, x2: real, x3: real): real
    requires t.Valid()
  {
    Interp3(Found(t.axis1, x1), Found(t.axis2, x2), Found(t.axis3, x3), Stored(t))
  }

  function EightTerms(d1: real, d2: real, d3: real, y000: real, y001: real, y010: real, y011: real, y100: real,
                      y101: real, y110: real, y111: real): real {
    (1.0 - d1) * (1.0 - d2) * (1.0 - d3) * y000
    + (1.0 - d1) * (1.0 - d2) * d3 * y001
    + (1.0 - d1) * d2 * (1.0 - d3) * y010
    + (1.0 - d1) * d2 * d3 * y011
    + d1 * (1.0 - d2) * (1.0 - d3) * y100
    + d1 * (1.0 - d2) * d3 * y101
    + d1 * d2 * (1.0 - d3) * y110
    + d1 * d2 * d3 * y111
  }

  lemma EightTermsNest(d1: real, d2: real, d3: real, y000: real, y001: real, y010: real, y011: real, y100: real,
                       y101: real, y110: real, y111: real)
    ensures EightTerms(d1, d2, d3, y000, y001, y010, y011, y100, y101, y110, y111)
         == Lerp(d1, Lerp(d2, Lerp(d3, y000, y001), Lerp(d3, y010, y011)),
                 Lerp(d2, Lerp(d3, y100, y101), Lerp(d3, y110, y111)))
  {
    FourOfEight(d2, d3, y000, y001, y010, y011);
    FourOfEight(d2, d3, y100, y101, y110, y111);
  }

  lemma FourOfEight(d2: real, d3: real, y0: real, y1: real, y2: real, y3: real)
    ensures Lerp(d2, Lerp(d3, y0, y1), Lerp(d3, y2, y3))
         == (1.0 - d2) * (1.0 - d3) * y0 + (1.0 - d2) * d3 * y1 + d2 * (1.0 - d3) * y2 + d2 * d3 * y3
  {}

  // The weight of a lookup, 0 on an axis of one point; and the end points of its
  // cell, of which the second has no bearing on the result there.
  ghost predicate Weighs(P: Place, d: real) {
    Placed(P) && d == if |P.axis| == 1 then 0.0 else Weight(P.axis, P.cell, P.x)
  }

  lemma InterpIsLerp(P: Place, d: real, f: int -> real, y0: real, y1: real)
    requires Weighs(P, d) && y0 == f(P.cell) && (|P.axis| > 1 ==> y1 == f(P.cell + 1))
    ensures Interp(P, f) == Lerp(d, y0, y1)
  {
    LerpAtEnds(y0, y1);
  }

  lemma InterpIsLerp2(P: Place, Q: Place, d1: real, d2: real, F: (int, int) -> real, y00: real, y01: real, y10: real,
                      y11: real)
    requires Weighs(P, d1) && Weighs(Q, d2) && y00 == F(P.cell, Q.cell)
    requires |Q.axis| > 1 ==> y01 == F(P.cell, Q.cell + 1)
    requires |P.axis| > 1 ==> y10 == F(P.cell + 1, Q.cell)
    requires |P.axis| > 1 && |Q.axis| > 1 ==> y11 == F(P.cell + 1, Q.cell + 1)
    ensures Interp2(P, Q, F) == Lerp(d1, Lerp(d2, y00, y01), Lerp(d2, y10, y11))
  {
    hide Interp, Lerp, Weight;
    InterpIsLerp(Q, d2, RowOf(F, P.cell), y00, y01);
    if |P.axis| > 1 { InterpIsLerp(Q, d2, RowOf(F, P.cell + 1), y10, y11); }
    InterpIsLerp(P, d1, Along(Q, F), Lerp(d2, y00, y01), Lerp(d2, y10, y11));
  }

  // The end points of a cell, those past an axis of one point being free.
  ghost predicate Corners(P: Place, Q: Place, R: Place, G: (int, int, int) -> real,
      y000: real, y001: real, y010: real, y011: real, y100: real, y101: real, y110: real, y111: real) {
    var i, j, k := P.cell, Q.cell, R.cell;
    var more1, more2, more3 := |P.axis| > 1, |Q.axis| > 1, |R.axis| > 1;
    y000 == G(i, j, k) && (more3 ==> y001 == G(i, j, k + 1)) &&
    (more2 ==> y010 == G(i, j + 1, k)) && (more2 && more3 ==> y011 == G(i, j + 1, k + 1)) &&
    (more1 ==> y100 == G(i + 1, j, k)) && (more1 && more3 ==> y101 == G(i + 1, j, k + 1)) &&
    (more1 && more2 ==> y110 == G(i + 1, j + 1, k)) && (more1 && more2 && more3 ==> y111 == G(i + 1, j + 1, k + 1))
  }

  lemma EightTermsInterpolate(P: Place, Q: Place, R: Place, d1: real, d2: real, d3: real, G: (int, int, int) -> real,
      y000: real, y001: real, y010: real, y011: real, y100: real, y101: real, y110: real, y111: real)
    requires Weighs(P, d1) && Weighs(Q, d2) && Weighs(R, d3)
    requires Corners(P, Q, R, G, y000, y001, y010, y011, y100, y101, y110, y111)
    ensures Interp3(P, Q, R, G) == EightTerms(d1, d2, d3, y000, y001, y010, y011, y100, y101, y110, y111)
  {
    hide Interp, Interp2, Lerp, Weight, EightTerms;
    var i, j, F := P.cell, Q.cell, Slice(R, G);
    InterpIsLerp(R, d3, LineOf(G, i, j), y000, y001);
    if |Q.axis| > 1 { InterpIsLerp(R, d3, LineOf(G, i, j + 1), y010, y011); }
    if |P.axis| > 1 { InterpIsLerp(R, d3, LineOf(G, i + 1, j), y100, y101); }
    if |P.axis| > 1 && |Q.axis| > 1 { InterpIsLerp(R, d3, LineOf(G, i + 1, j + 1), y110, y111); }
    InterpIsLerp2(P, Q, d1, d2, F,
                  Lerp(d3, y000, y001), Lerp(d3, y010, y011), Lerp(d3, y100, y101), Lerp(d3, y110, y111));
    EightTermsNest(d1, d2, d3, y000, y001, y010, y011, y100, y101, y110, y111);
  }

  lemma AllStored(t: Table3)
    requires t.Valid()
    ensures forall p, q, r :: 0 <= p < |t.axis1| && 0 <= q < |t.axis2| && 0 <= r < |t.axis3| ==>
      Stored(t)(p, q, r) == t.Value(p, q, r)
  {
    forall p, q, r | 0 <= p < |t.axis1| && 0 <= q < |t.axis2| && 0 <= r < |t.axis3|
      ensures Stored(t)(p, q, r) == t.Value(p, q, r)
    {
      StoredAt(t, p, q, r);
    }
  }

  // ---- What a lookup promises ---------------------------------------------------------------------

  // A table of values of a function that is linear in each variable gives that
  // function everywhere, outside the table too; an axis of one point counts as
  // that point.
  lemma LookupIsExact(t: Table3, H: (real, real, real) -> real, x1: real, x2: real, x3: real)
    requires t.Valid() && Trilinear(H)
    requires forall p, q, r :: 0 <= p < |t.axis1| && 0 <= q < |t.axis2| && 0 <= r < |t.axis3| ==>
      t.Value(p, q, r) == H(t.axis1[p], t.axis2[q], t.axis3[r])
    ensures Looked(t, x1, x2, x3) == H(Reach(Found(t.axis1, x1)), Reach(Found(t.axis2, x2)), Reach(Found(t.axis3, x3)))
  {
    hide Interp3, Vr;
    AllStored(t);
    assert Samples(t.axis1, t.axis2, t.axis3, Stored(t), H);
    InterpExact3(Found(t.axis1, x1), Found(t.axis2, x2), Found(t.axis3, x3), Stored(t), H);
  }

  // At the points of the axes the stored value is found.
  lemma LookupHitsStored(t: Table3, p: nat, q: nat, r: nat)
    requires t.Valid() && p < |t.axis1| && q < |t.axis2| && r < |t.axis3|
    ensures Looked(t, t.axis1[p], t.axis2[q], t.axis3[r]) == t.Value(p, q, r)
  {
    hide Interp, Vr;
    var F := Slice(Found(t.axis3, t.axis3[r]), Stored(t));
    InterpStored(t.axis3, r, LineOf(Stored(t), p, q));
    InterpStored(t.axis2, q, RowOf(F, p));
    InterpStored(t.axis1, p, Along(Found(t.axis2, t.axis2[q]), F));
    StoredAt(t, p, q, r);
  }

  // Within the table the lookup may use any cell that holds the point: cells
  // agree on the faces, edges and corners they share.
  lemma AnyCellWillDo(t: Table3, x1: real, x2: real, x3: real, i: nat, j: nat, k: nat)
    requires t.Valid() && OnAxis(t.axis1, x1) && OnAxis(t.axis2, x2) && OnAxis(t.axis3, x3)
    requires var P := Place(t.axis1, i, x1); Placed(P) && Inside(P)
    requires var Q := Place(t.axis2, j, x2); Placed(Q) && Inside(Q)
    requires var R := Place(t.axis3, k, x3); Placed(R) && Inside(R)
    ensures Looked(t, x1, x2, x3)
         == Interp3(Place(t.axis1, i, x1), Place(t.axis2, j, x2), Place(t.axis3, k, x3), Stored(t))
  {
    hide Interp3;
    InterpAgrees3(Found(t.axis1, x1), Place(t.axis1, i, x1), Found(t.axis2, x2), Place(t.axis2, j, x2),
      Found(t.axis3, x3), Place(t.axis3, k, x3), Stored(t));
  }

  ghost predicate CornerOf(t: Table3, x1: real, x2: real, x3: real, p: int, q: int, r: int)
    requires t.Valid()
    ensures CornerOf(t, x1, x2, x3, p, q, r) ==> 0 <= p < |t.axis1| && 0 <= q < |t.axis2| && 0 <= r < |t.axis3|
  {
    IsCorner(Found(t.axis1, x1), p) && IsCorner(Found(t.axis2, x2), q) && IsCorner(Found(t.axis3, x3), r)
  }

  // Within the table a lookup lies between the corner values of its cell.
  lemma LookupWithinCorners(t: Table3, x1: real, x2: real, x3: real, lo: real, hi: real)
    requires t.Valid() && OnAxis(t.axis1, x1) && OnAxis(t.axis2, x2) && OnAxis(t.axis3, x3)
    requires forall p, q, r :: CornerOf(t, x1, x2, x3, p, q, r) ==> Between(lo, t.Value(p, q, r), hi)
    ensures Between(lo, Looked(t, x1, x2, x3), hi)
  {
    hide Interp3, Vr;
    var P, Q, R := Found(t.axis1, x1), Found(t.axis2, x2), Found(t.axis3, x3);
    AllStored(t);
    forall p, q, r | IsCorner(P, p) && IsCorner(Q, q) && IsCorner(R, r) ensures Between(lo, Stored(t)(p, q, r), hi) {
      assert CornerOf(t, x1, x2, x3, p, q, r);
      assert Stored(t)(p, q, r) == t.Value(p, q, r);
    }
    InterpBetween3(P, Q, R, Stored(t), lo, hi);
  }

  // Within a table whose values rise along every axis, lookups rise too.
  lemma LookupRises(t: Table3, x1: real, y1: real, x2: real, y2: real, x3: real, y3: real)
    requires t.Valid() && OnAxis(t.axis1, x1) && OnAxis(t.axis2, x2) && OnAxis(t.axis3, x3)
    requires OnAxis(t.axis1, y1) && OnAxis(t.axis2, y2) && OnAxis(t.axis3, y3) && x1 <= y1 && x2 <= y2 && x3 <= y3
    requires Rising3(|t.axis1|, |t.axis2|, |t.axis3|, Stored(t))
    ensures Looked(t, x1, x2, x3) <= Looked(t, y1, y2, y3)
  {
    hide Interp3, Stored, Rising3;
    InterpRises3(t.axis1, t.axis2, t.axis3, x1, y1, x2, y2, x3, y3, Stored(t));
  }

  // A table whose third axis is one point is the table of its first two.
  lemma SingletonAxis(t: Table3, s: Table2, x1: real, x2: real, x3: real)
    requires t.Valid() && s.Valid() && |t.axis3| == 1 && s.axis1 == t.axis1 && s.axis2 == t.axis2
    requires forall p, q :: 0 <= p < |s.axis1| && 0 <= q < |s.axis2| ==> s.values[p][q] == t.Value(p, q, 0)
    ensures Looked(t, x1, x2, x3) == s.FindValue(x1, x2)
  {
    hide Interp;
    var P, Q, R := Found(t.axis1, x1), Found(t.axis2, x2), Found(t.axis3, x3);
    AllStored(t);
    forall p, q | 0 <= p < |P.axis| && 0 <= q < |Q.axis| ensures Slice(R, Stored(t))(p, q) == EntryOf(s.values)(p, q) {
      OnePoint(R, LineOf(Stored(t), p, q));
      assert Stored(t)(p, q, 0) == t.Value(p, q, 0);
    }
    SameOnAxes(P, Q, Slice(R, Stored(t)), EntryOf(s.values));
    Table2Interpolates(s, x1, x2);
  }

  lemma OnePoint(R: Place, f: int -> real)
    requires Placed(R) && |R.axis| == 1
    ensures Interp(R, f) == f(0)
  {}

  lemma SameOnAxes(P: Place, Q: Place, F: (int, int) -> real, F': (int, int) -> real)
    requires Placed(P) && Placed(Q) && forall p, q :: 0 <= p < |P.axis| && 0 <= q < |Q.axis| ==> F(p, q) == F'(p, q)
    ensures Interp2(P, Q, F) == Interp2(P, Q, F')
  {
    forall p | 0 <= p < |P.axis| ensures Along(Q, F)(p) == Along(Q, F')(p) {
      SameOnAxis(Q, RowOf(F, p), RowOf(F', p));
    }
    SameOnAxis(P, Along(Q, F), Along(Q, F'));
  }
}
