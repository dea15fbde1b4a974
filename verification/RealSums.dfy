// Finite sums of real-valued terms and the bilinear form they give. Everything
// the reduction and the linear solver prove about loops that accumulate is
// stated with `Sum`.
module RealSums {

  ghost function Sum(n: nat, f: int -> real): real {
    if n == 0 then 0.0 else Sum(n - 1, f) + f(n - 1)
  }

  // A square root on the non-negative reals.
  ghost predicate IsSqrt(sqrt: real -> real) {
    forall x: real :: x >= 0.0 ==> sqrt(x) >= 0.0 && sqrt(x) * sqrt(x) == x
  }

  lemma NonNegProduct(a: real, b: real)
    requires a >= 0.0 && b >= 0.0
    ensures a * b >= 0.0
  {}

  lemma PosProduct(a: real, b: real)
    requires a > 0.0 && b > 0.0
    ensures a * b > 0.0
  {}

  lemma SquareNonNeg(x: real)
    ensures x * x >= 0.0
  {}

  function Abs(x: real): real {
    if x < 0.0 then -x else x
  }

  // A product as a term of its own, for proofs that only shuffle products.
  ghost function Times(a: real, b: real): real {
    a * b
  }

  lemma SquareZero(x: real)
    ensures x * x == 0.0 <==> x == 0.0
  {
    if x * x == 0.0 {
      assert Times(0.0, 0.0) == 0.0;
      HypotenuseZero(0.0, 0.0, x);
    }
  }

  // The hypotenuse vanishes exactly when both sides do.
  lemma HypotenuseZero(f: real, g: real, r: real)
    requires Times(r, r) == Times(f, f) + Times(g, g)
    ensures r == 0.0 <==> f == 0.0 && g == 0.0
  {
    hide Times;
    SquareSign(f);
    SquareSign(g);
    SquareSign(r);
  }

  lemma SquareSign(x: real)
    ensures x == 0.0 || Times(x, x) > 0.0
    ensures x == 0.0 ==> Times(x, x) == 0.0
  {
    assert Times(0.0, 0.0) == 0.0;
    NegatedSquare(x);
    hide Times;
    if x > 0.0 { PosTimes(x, x); } else if x < 0.0 { PosTimes(-x, -x); }
  }

  lemma NegatedSquare(x: real)
    ensures Times(-x, -x) == Times(x, x)
  {}

  lemma PosTimes(x: real, y: real)
    requires x > 0.0 && y > 0.0
    ensures Times(x, y) > 0.0
  {}

  // The vectors of the model are sequences; reading past the end gives 0, so
  // that the terms of a sum are total functions.
  function At(s: seq<real>, i: int): real {
    if 0 <= i < |s| then s[i] else 0.0
  }

  lemma {:induction false} SumCong(n: nat, f: int -> real, g: int -> real)
    requires forall i :: 0 <= i < n ==> f(i) == g(i)
    ensures Sum(n, f) == Sum(n, g)
  {
    if n > 0 { SumCong(n - 1, f, g); }
  }

  lemma {:induction false} SumLinear(n: nat, a: real, f: int -> real, b: real, g: int -> real, h: int -> real)
    requires forall i :: 0 <= i < n ==> h(i) == a * f(i) + b * g(i)
    ensures Sum(n, h) == a * Sum(n, f) + b * Sum(n, g)
  {
    if n > 0 { SumLinear(n - 1, a, f, b, g, h); }
  }

  lemma SumScale(n: nat, a: real, f: int -> real, h: int -> real)
    requires forall i :: 0 <= i < n ==> h(i) == a * f(i)
    ensures Sum(n, h) == a * Sum(n, f)
  {
    SumLinear(n, a, f, 0.0, f, h);
  }

  lemma {:induction false} SumZero(n: nat, f: int -> real)
    requires forall i :: 0 <= i < n ==> f(i) == 0.0
    ensures Sum(n, f) == 0.0
  {
    if n > 0 { SumZero(n - 1, f); }
  }

  // All terms but one vanish.
  lemma {:induction false} SumSingle(n: nat, f: int -> real, k: nat)
    requires k < n
    requires forall i :: 0 <= i < n && i != k ==> f(i) == 0.0
    ensures Sum(n, f) == f(k)
  {
    if k == n - 1 { SumZero(n - 1, f); } else { SumSingle(n - 1, f, k); }
  }

  lemma {:induction false} SumNonNeg(n: nat, f: int -> real)
    requires forall i :: 0 <= i < n ==> f(i) >= 0.0
    ensures Sum(n, f) >= 0.0
  {
    if n > 0 { SumNonNeg(n - 1, f); }
  }

  // Two sums whose terms differ at one place.
  lemma {:induction false} SumChange(n: nat, f: int -> real, g: int -> real, k: nat)
    requires k < n && forall i :: 0 <= i < n && i != k ==> f(i) == g(i)
    ensures Sum(n, g) == Sum(n, f) + g(k) - f(k)
  {
    if k == n - 1 { SumCong(n - 1, f, g); } else { SumChange(n - 1, f, g, k); }
  }

  // Two sums whose terms differ at two places, with the same total there.
  lemma SumExchange(n: nat, f: int -> real, g: int -> real, k: nat, m: nat)
    requires k < n && m < n && k != m && forall i :: 0 <= i < n && i != k && i != m ==> f(i) == g(i)
    requires f(k) + f(m) == g(k) + g(m)
    ensures Sum(n, g) == Sum(n, f)
  {
    var h := i => if i == k then g(i) else f(i);
    SumChange(n, f, h, k);
    SumChange(n, h, g, m);
  }

  // Sum over i of Sum over j is Sum over j of Sum over i.
  lemma {:induction false} SumSwap(n: nat, m: nat, F: (int, int) -> real)
    ensures Sum(n, i => Sum(m, j => F(i, j))) == Sum(m, j => Sum(n, i => F(i, j)))
  {
    if n == 0 {
      SumZero(m, j => Sum(n, i => F(i, j)));
    } else {
      SumSwap(n - 1, m, F);
      var last := j => F(n - 1, j);
      SumCong(m, last, j => F(n - 1, j));
      SumLinear(m, 1.0, j => Sum(n - 1, i => F(i, j)), 1.0, last, j => Sum(n, i => F(i, j)));
      SumCong(n - 1, i => Sum(m, j => F(i, j)), i => Sum(m, j => F(i, j)));
    }
  }

  // The sum of x(i)*y(i).
  ghost function Dot(n: nat, x: int -> real, y: int -> real): real {
    Sum(n, i => x(i) * y(i))
  }

  lemma DotCong(n: nat, x: int -> real, y: int -> real, x': int -> real, y': int -> real)
    requires forall i :: 0 <= i < n ==> x(i) == x'(i) && y(i) == y'(i)
    ensures Dot(n, x, y) == Dot(n, x', y')
  {
    SumCong(n, i => x(i) * y(i), i => x'(i) * y'(i));
  }

  ghost function RowOf(A: (int, int) -> real, h: int): int -> real {
    i => A(h, i)
  }

  ghost function ColumnOf(A: (int, int) -> real, i: int): int -> real {
    h => A(h, i)
  }

  ghost function RowDots(m: nat, A: (int, int) -> real, y: int -> real): int -> real {
    h => Dot(m, RowOf(A, h), y)
  }

  ghost function ColumnDots(n: nat, A: (int, int) -> real, x: int -> real): int -> real {
    i => Dot(n, ColumnOf(A, i), x)
  }

  ghost function Product(x: int -> real, A: (int, int) -> real, y: int -> real): (int, int) -> real {
    (h, i) => x(h) * A(h, i) * y(i)
  }

  // x*(A*y) is (x*A)*y.
  lemma SumBilinear(n: nat, m: nat, x: int -> real, A: (int, int) -> real, y: int -> real)
    ensures Dot(n, x, RowDots(m, A, y)) == Dot(m, y, ColumnDots(n, A, x))
  {
    hide Product, RowDots, ColumnDots;
    var F := Product(x, A, y);
    forall h | 0 <= h < n ensures x(h) * RowDots(m, A, y)(h) == Sum(m, i => F(h, i)) {
      BilinearRow(m, x, A, y, h);
    }
    forall i | 0 <= i < m ensures y(i) * ColumnDots(n, A, x)(i) == Sum(n, h => F(h, i)) {
      BilinearColumn(n, x, A, y, i);
    }
    SumCong(n, h => x(h) * RowDots(m, A, y)(h), h => Sum(m, i => F(h, i)));
    SumSwap(n, m, F);
    SumCong(m, i => y(i) * ColumnDots(n, A, x)(i), i => Sum(n, h => F(h, i)));
  }

  lemma BilinearRow(m: nat, x: int -> real, A: (int, int) -> real, y: int -> real, h: int)
    ensures x(h) * RowDots(m, A, y)(h) == Sum(m, i => Product(x, A, y)(h, i))
  {
    forall i ensures Product(x, A, y)(h, i) == x(h) * (RowOf(A, h)(i) * y(i)) {
      Associate(x(h), A(h, i), y(i));
    }
    SumScale(m, x(h), i => RowOf(A, h)(i) * y(i), i => Product(x, A, y)(h, i));
  }

  lemma BilinearColumn(n: nat, x: int -> real, A: (int, int) -> real, y: int -> real, i: int)
    ensures y(i) * ColumnDots(n, A, x)(i) == Sum(n, h => Product(x, A, y)(h, i))
  {
    forall h ensures Product(x, A, y)(h, i) == y(i) * (ColumnOf(A, i)(h) * x(h)) {
      Associate(y(i), A(h, i), x(h));
    }
    SumScale(n, y(i), h => ColumnOf(A, i)(h) * x(h), h => Product(x, A, y)(h, i));
  }

  lemma Associate(x: real, a: real, y: real)
    ensures x * (a * y) == x * a * y == y * a * x
  {}

  // The sum of z over the points related to j.
  ghost function Related(n: nat, A: (int, int) -> bool, z: int -> real): int -> real {
    j => Sum(n, k => if A(k, j) then z(k) else 0.0)
  }

  ghost function Converse(A: (int, int) -> bool): (int, int) -> bool {
    (j, k) => A(k, j)
  }

  ghost function Entry(A: (int, int) -> bool, x: int -> real, z: int -> real): (int, int) -> real {
    (j, k) => if A(k, j) then x(j) * z(k) else 0.0
  }

  lemma RowSum(n: nat, A: (int, int) -> bool, x: int -> real, z: int -> real, j: int)
    ensures x(j) * Related(n, A, z)(j) == Sum(n, k => Entry(A, x, z)(j, k))
  {
    forall k ensures Entry(A, x, z)(j, k) == x(j) * (if A(k, j) then z(k) else 0.0) {
      if !A(k, j) { assert x(j) * 0.0 == 0.0; }
    }
    SumScale(n, x(j), k => if A(k, j) then z(k) else 0.0, k => Entry(A, x, z)(j, k));
  }

  lemma ColumnSum(n: nat, A: (int, int) -> bool, x: int -> real, z: int -> real, k: int)
    ensures z(k) * Related(n, Converse(A), x)(k) == Sum(n, j => Entry(A, x, z)(j, k))
  {
    forall j ensures Entry(A, x, z)(j, k) == z(k) * (if Converse(A)(j, k) then x(j) else 0.0) {
      if !A(k, j) { assert z(k) * 0.0 == 0.0; }
    }
    SumScale(n, z(k), j => if Converse(A)(j, k) then x(j) else 0.0, j => Entry(A, x, z)(j, k));
  }

  // Summing over a relation and over its converse are transposes of each other.
  lemma SumTranspose(n: nat, A: (int, int) -> bool, x: int -> real, z: int -> real)
    ensures Dot(n, x, Related(n, A, z)) == Dot(n, z, Related(n, Converse(A), x))
  {
    hide Dot, Related, Entry, Sum;
    SumByRows(n, A, x, z);
    SumSwap(n, n, Entry(A, x, z));
    SumByColumns(n, A, x, z);
  }

  lemma SumByRows(n: nat, A: (int, int) -> bool, x: int -> real, z: int -> real)
    ensures Dot(n, x, Related(n, A, z)) == Sum(n, j => Sum(n, k => Entry(A, x, z)(j, k)))
  {
    hide Related, Entry;
    forall j ensures x(j) * Related(n, A, z)(j) == Sum(n, k => Entry(A, x, z)(j, k)) { RowSum(n, A, x, z, j); }
    SumCong(n, j => x(j) * Related(n, A, z)(j), j => Sum(n, k => Entry(A, x, z)(j, k)));
  }

  lemma SumByColumns(n: nat, A: (int, int) -> bool, x: int -> real, z: int -> real)
    ensures Dot(n, z, Related(n, Converse(A), x)) == Sum(n, k => Sum(n, j => Entry(A, x, z)(j, k)))
  {
    hide Related, Entry;
    forall k
      ensures z(k) * Related(n, Converse(A), x)(k) == Sum(n, j => Entry(A, x, z)(j, k))
    {
      ColumnSum(n, A, x, z, k);
    }
    SumCong(n, k => z(k) * Related(n, Converse(A), x)(k), k => Sum(n, j => Entry(A, x, z)(j, k)));
  }

  // The capacitance-weighted inner product: the sum of c[j]*u[j]*w[j].
  ghost function Ip(n: nat, c: seq<real>, u: seq<real>, w: seq<real>): real {
    Sum(n, j => At(c, j) * At(u, j) * At(w, j))
  }

  lemma IpStep(n: nat, c: seq<real>, u: seq<real>, w: seq<real>)
    ensures Ip(n + 1, c, u, w) == Ip(n, c, u, w) + At(c, n) * At(u, n) * At(w, n)
  {}

  ghost function Entries(s: seq<real>): int -> real {
    j => At(s, j)
  }

  // The charge that voltage u leaves on point j.
  ghost function Charge(c: seq<real>, u: seq<real>): int -> real {
    j => At(c, j) * At(u, j)
  }

  lemma IpAsDot(n: nat, c: seq<real>, u: seq<real>, w: seq<real>)
    ensures Ip(n, c, u, w) == Dot(n, Charge(c, u), Entries(w))
  {
    var q, v := Charge(c, u), Entries(w);
    forall i ensures At(c, i) * At(u, i) * At(w, i) == q(i) * v(i) {
      assert q(i) == At(c, i) * At(u, i) && v(i) == At(w, i);
    }
    SumCong(n, j => At(c, j) * At(u, j) * At(w, j), i => q(i) * v(i));
  }

  lemma IpSym(n: nat, c: seq<real>, u: seq<real>, w: seq<real>)
    ensures Ip(n, c, u, w) == Ip(n, c, w, u)
  {
    SumCong(n, j => At(c, j) * At(u, j) * At(w, j), j => At(c, j) * At(w, j) * At(u, j));
  }

  lemma IpLinear(n: nat, c: seq<real>, a: real, u: seq<real>, b: real, v: seq<real>, z: seq<real>, w: seq<real>)
    requires forall j :: 0 <= j < n ==> At(z, j) == a * At(u, j) + b * At(v, j)
    ensures Ip(n, c, z, w) == a * Ip(n, c, u, w) + b * Ip(n, c, v, w)
  {
    forall j | 0 <= j < n
      ensures At(c, j) * At(z, j) * At(w, j)
           == a * (At(c, j) * At(u, j) * At(w, j)) + b * (At(c, j) * At(v, j) * At(w, j))
    {
      var p := At(c, j) * At(w, j);
      assert p * At(z, j) == a * (p * At(u, j)) + b * (p * At(v, j));
    }
    SumLinear(n, a, j => At(c, j) * At(u, j) * At(w, j), b, j => At(c, j) * At(v, j) * At(w, j),
              j => At(c, j) * At(z, j) * At(w, j));
  }

  // ---- Products and quotients ----------------------------------------------------------------

  lemma CancelFactor(k: real, x: real, y: real)
    requires k != 0.0 && k * x == k * y
    ensures x == y
  {
    assert k * (x - y) == 0.0;
  }

  lemma DotTimes(n: nat, x: int -> real, y: int -> real)
    ensures Dot(n + 1, x, y) == Dot(n, x, y) + Times(x(n), y(n))
    ensures Times(x(n), y(n)) == x(n) * y(n)
  {}

  lemma DotCommutes(n: nat, x: int -> real, y: int -> real)
    ensures Dot(n, x, y) == Dot(n, y, x)
  {
    SumCong(n, i => x(i) * y(i), i => y(i) * x(i));
  }

  lemma Quotient(y: real, dy: real, q: real)
    requires dy != 0.0 && q == y / dy
    ensures q * dy == y
  {}

  lemma TimesZero(a: real)
    ensures Times(0.0, a) == 0.0 && Times(a, 0.0) == 0.0
  {}
}
