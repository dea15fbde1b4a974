// Orthogonal similarity of a symmetric matrix and a band matrix, on values:
// what one rotation of the eigensolver, one deflation and one exchange of rows
// keep.
module Tridiagonal {
  import opened RealSums
  import opened Matrices

  // Entry a of A*x.
  ghost function Apply(n: nat, A: Matrix, x: seq<real>, a: int): real {
    Dot(n, Entries(Row(A, a)), Entries(x))
  }

  ghost function Unit(i: int, j: int): real {
    if i == j then 1.0 else 0.0
  }

  ghost function ColumnTerm(V: Matrix, a: int, b: int): int -> real {
    h => At(Row(V, h), a) * At(Row(V, h), b)
  }

  ghost predicate RowsOrthonormal(n: nat, V: Matrix) {
    forall i, j :: 0 <= i < n && 0 <= j < n ==> Dot(n, Entries(Row(V, i)), Entries(Row(V, j))) == Unit(i, j)
  }

  ghost predicate ColumnsOrthonormal(n: nat, V: Matrix) {
    forall a, b :: 0 <= a < n && 0 <= b < n ==> Sum(n, ColumnTerm(V, a, b)) == Unit(a, b)
  }

  ghost predicate Orthogonal(n: nat, V: Matrix) {
    Square(n, V) && RowsOrthonormal(n, V) && ColumnsOrthonormal(n, V)
  }

  lemma {:induction false} DotLinear(n: nat, a: real, x: seq<real>, b: real, y: seq<real>, z: seq<real>, w: int -> real)
    requires forall k :: 0 <= k < n ==> At(z, k) == a * At(x, k) + b * At(y, k)
    ensures Dot(n, w, Entries(z)) == a * Dot(n, w, Entries(x)) + b * Dot(n, w, Entries(y))
  {
    if n > 0 {
      hide Dot, Times, Entries;
      DotLinear(n - 1, a, x, b, y, z, w);
      var X, Y, Z := Entries(x), Entries(y), Entries(z);
      DotTimes(n - 1, w, X);
      DotTimes(n - 1, w, Y);
      DotTimes(n - 1, w, Z);
      LastEntry(n, a, x, b, y, z);
      Gather(a, b, Dot(n - 1, w, X), Dot(n - 1, w, Y), Dot(n - 1, w, Z), w(n - 1), X(n - 1), Y(n - 1), Z(n - 1));
    }
  }

  lemma LastEntry(n: nat, a: real, x: seq<real>, b: real, y: seq<real>, z: seq<real>)
    requires n > 0 && At(z, n - 1) == a * At(x, n - 1) + b * At(y, n - 1)
    ensures Entries(z)(n - 1) == a * Entries(x)(n - 1) + b * Entries(y)(n - 1)
  {}

  lemma Gather(a: real, b: real, p: real, q: real, t: real, w: real, x: real, y: real, z: real)
    requires z == a * x + b * y && t == a * p + b * q
    ensures t + Times(w, z) == a * (p + Times(w, x)) + b * (q + Times(w, y))
  {
    assert w * (a * x + b * y) == a * (w * x) + b * (w * y);
  }

  // ---- The rotation ------------------------------------------------------------

  // Rows i-1 and i become s*V[i] + c*V[i-1] and c*V[i] - s*V[i-1].
  ghost predicate Rotated(n: nat, V: Matrix, V': Matrix, i: nat, s: real, c: real) {
    && 0 < i < n && Square(n, V) && Square(n, V')
    && (forall j :: 0 <= j < n && j != i - 1 && j != i ==> V'[j] == V[j])
    && (forall k :: 0 <= k < n ==> V'[i - 1][k] == s * V[i][k] + c * V[i - 1][k])
    && (forall k :: 0 <= k < n ==> V'[i][k] == c * V[i][k] - s * V[i - 1][k])
  }

  lemma RotateSquare(s: real, c: real, x: real, y: real, u: real, v: real, x': real, y': real, u': real, v': real)
    requires c * c + s * s == 1.0
    requires x' == s * y + c * x && y' == c * y - s * x && u' == s * v + c * u && v' == c * v - s * u
    ensures x' * u' + y' * v' == x * u + y * v
  {
    assert x' * u' + y' * v' == (c * c + s * s) * (x * u + y * v);
  }

  lemma RotateColumns(n: nat, V: Matrix, V': Matrix, i: nat, s: real, c: real)
    requires Rotated(n, V, V', i, s, c) && c * c + s * s == 1.0 && ColumnsOrthonormal(n, V)
    ensures ColumnsOrthonormal(n, V')
  {
    forall a, b | 0 <= a < n && 0 <= b < n ensures Sum(n, ColumnTerm(V', a, b)) == Unit(a, b) {
      RotateColumn(n, V, V', i, s, c, a, b);
    }
  }

  lemma RotateColumn(n: nat, V: Matrix, V': Matrix, i: nat, s: real, c: real, a: nat, b: nat)
    requires Rotated(n, V, V', i, s, c) && c * c + s * s == 1.0 && a < n && b < n
    ensures Sum(n, ColumnTerm(V', a, b)) == Sum(n, ColumnTerm(V, a, b))
  {
    hide Sum;
    var f, g := ColumnTerm(V, a, b), ColumnTerm(V', a, b);
    RotateSquare(s, c, At(Row(V, i - 1), a), At(Row(V, i), a), At(Row(V, i - 1), b), At(Row(V, i), b),
                 At(Row(V', i - 1), a), At(Row(V', i), a), At(Row(V', i - 1), b), At(Row(V', i), b));
    SumExchange(n, f, g, i - 1, i);
  }

  // The products of the two new rows with any w.
  lemma RotateRowDot(n: nat, V: Matrix, V': Matrix, i: nat, s: real, c: real, w: int -> real)
    requires Rotated(n, V, V', i, s, c)
    ensures var x, y := Dot(n, Entries(Row(V, i - 1)), w), Dot(n, Entries(Row(V, i)), w);
      && Dot(n, Entries(Row(V', i - 1)), w) == Times(s, y) + Times(c, x)
      && Dot(n, Entries(Row(V', i)), w) == Times(c, y) - Times(s, x)
    ensures var x, y := Dot(n, w, Entries(Row(V, i - 1))), Dot(n, w, Entries(Row(V, i)));
      && Dot(n, w, Entries(Row(V', i - 1))) == Times(s, y) + Times(c, x)
      && Dot(n, w, Entries(Row(V', i))) == Times(c, y) - Times(s, x)
  {
    RotateRowTerms(n, V, V', i, s, c);
    DotLinear(n, s, Row(V, i), c, Row(V, i - 1), Row(V', i - 1), w);
    DotLinear(n, c, Row(V, i), -s, Row(V, i - 1), Row(V', i), w);
    hide Dot, Entries, Row;
    NegTimes(s, Dot(n, w, Entries(Row(V, i - 1))));
    DotCommutes(n, w, Entries(Row(V, i - 1)));
    DotCommutes(n, w, Entries(Row(V, i)));
    DotCommutes(n, w, Entries(Row(V', i - 1)));
    DotCommutes(n, w, Entries(Row(V', i)));
  }

  lemma NegTimes(s: real, x: real)
    ensures (-s) * x == -Times(s, x)
  {}

  lemma RotateRowTerms(n: nat, V: Matrix, V': Matrix, i: nat, s: real, c: real)
    requires Rotated(n, V, V', i, s, c)
    ensures forall k :: 0 <= k < n ==> At(Row(V', i - 1), k) == s * At(Row(V, i), k) + c * At(Row(V, i - 1), k)
    ensures forall k :: 0 <= k < n ==> At(Row(V', i), k) == c * At(Row(V, i), k) + (-s) * At(Row(V, i - 1), k)
  {
    forall k | 0 <= k < n ensures At(Row(V', i), k) == c * At(Row(V, i), k) + (-s) * At(Row(V, i - 1), k) {
      NegTimes(s, V[i - 1][k]);
    }
  }

  lemma RotateRows(n: nat, V: Matrix, V': Matrix, i: nat, s: real, c: real)
    requires Rotated(n, V, V', i, s, c) && c * c + s * s == 1.0 && RowsOrthonormal(n, V)
    ensures RowsOrthonormal(n, V')
  {
    forall p, q | 0 <= p < n && 0 <= q < n ensures Dot(n, Entries(Row(V', p)), Entries(Row(V', q))) == Unit(p, q) {
      RotatedPair(n, V, V', i, s, c, p, q);
    }
  }

  // An old row against a new one.
  lemma RotatedWith(n: nat, V: Matrix, V': Matrix, i: nat, s: real, c: real, p: nat, q: nat)
    requires Rotated(n, V, V', i, s, c) && RowsOrthonormal(n, V) && p < n && q < n
    ensures Dot(n, Entries(Row(V, p)), Entries(Row(V', q)))
         == if q == i - 1 then (if p == i then s else if p == i - 1 then c else 0.0)
            else if q == i then (if p == i then c else if p == i - 1 then -s else 0.0)
            else Unit(p, q)
  {
    hide Dot, Entries, Row;
    RotateRowDot(n, V, V', i, s, c, Entries(Row(V, p)));
    SameRow(n, V, V', i, s, c, q);
    assert Times(s, 1.0) == s && Times(s, 0.0) == 0.0 && Times(c, 1.0) == c && Times(c, 0.0) == 0.0;
    hide Times;
  }

  lemma RotatedPair(n: nat, V: Matrix, V': Matrix, i: nat, s: real, c: real, p: nat, q: nat)
    requires Rotated(n, V, V', i, s, c) && c * c + s * s == 1.0 && RowsOrthonormal(n, V) && p < n && q < n
    ensures Dot(n, Entries(Row(V', p)), Entries(Row(V', q))) == Unit(p, q)
  {
    UnitCircle(s, c);
    hide Dot, Entries, Row, RowsOrthonormal, Times;
    RotateRowDot(n, V, V', i, s, c, Entries(Row(V', q)));
    SameRow(n, V, V', i, s, c, p);
    RotatedWith(n, V, V', i, s, c, p, q);
    RotatedWith(n, V, V', i, s, c, i, q);
    RotatedWith(n, V, V', i, s, c, i - 1, q);
  }

  lemma UnitCircle(s: real, c: real)
    requires c * c + s * s == 1.0
    ensures Times(s, s) + Times(c, c) == 1.0 && Times(s, c) == Times(c, s)
    ensures Times(c, -s) == -Times(s, c) && Times(s, -s) == -Times(s, s)
    ensures Times(s, 0.0) == 0.0 && Times(c, 0.0) == 0.0
  {}

  lemma SameRow(n: nat, V: Matrix, V': Matrix, i: nat, s: real, c: real, p: nat)
    requires Rotated(n, V, V', i, s, c) && p < n
    ensures p != i && p != i - 1 ==> Row(V', p) == Row(V, p)
  {}

  // ---- Similarity to a band matrix ----------------------------------------------

  // N*V[j] is the combination of the rows around j given by the symmetric band
  // matrix with diagonal D, first off-diagonal E and second off-diagonal Q; E[i]
  // couples rows i-1 and i, Q[i] couples rows i-2 and i.
  ghost predicate BandRow(n: nat, N: Matrix, V: Matrix, D: seq<real>, E: seq<real>, Q: seq<real>, j: int, a: int) {
    Apply(n, N, Row(V, j), a)
    == Times(At(Q, j), Vr(V, j - 2, a)) + Times(At(E, j), Vr(V, j - 1, a)) + Times(At(D, j), Vr(V, j, a))
       + Times(At(E, j + 1), Vr(V, j + 1, a)) + Times(At(Q, j + 2), Vr(V, j + 2, a))
  }

  ghost predicate Similar(n: nat, N: Matrix, V: Matrix, D: seq<real>, E: seq<real>, Q: seq<real>) {
    && |D| == |E| == |Q| == n
    && forall j, a :: 0 <= j < n && 0 <= a < n ==> BandRow(n, N, V, D, E, Q, j, a)
  }

  ghost function Increment(dx: real, dy: real, b: real, s: real, c: real): real {
    (dy - dx) * s + 2.0 * c * b
  }

  // What rotating rows i-1 and i does to the band matrix when the only bulge is
  // Q[i]: R is the common increment, and the bulge moves down to Q[i+1].
  ghost predicate Chased(D: seq<real>, E: seq<real>, Q: seq<real>, D': seq<real>, E': seq<real>, Q': seq<real>,
                         i: nat, s: real, c: real, n: nat)
  {
    && 0 < i < n && |D| == |E| == |Q| == |D'| == |E'| == |Q'| == n
    && var R := Increment(D[i - 1], D[i], E[i], s, c);
       && D' == D[i - 1 := D[i - 1] + Times(s, R)][i := D[i] - Times(s, R)]
       && (i > 1 ==> E'[i - 1] == Times(s, Q[i]) + Times(c, E[i - 1]))
       && E'[i] == Times(c, R) - E[i]
       && (i + 1 < n ==> E'[i + 1] == Times(c, E[i + 1]))
       && (forall m :: 0 <= m < n && m != i - 1 && m != i && m != i + 1 ==> E'[m] == E[m])
       && (forall m :: 0 <= m < n ==> Q'[m] == if m == i + 1 then Times(s, E[m]) else 0.0)
  }

  // The equations of the four rows that a rotation touches, at one component:
  // u, x, y, z are rows i-2, i-1, i, i+1; X and Y are N applied to x and y.
  lemma ChaseX(s: real, c: real, f: real, g: real, dx: real, dy: real, b: real, ez: real, R: real,
               u: real, x: real, y: real, z: real, x': real, y': real, X: real, Y: real, X': real)
    requires X' == s * Y + c * X && X == g * u + dx * x + b * y && Y == f * u + b * x + dy * y + ez * z
    requires c * c + s * s == 1.0 && R == (dy - dx) * s + 2.0 * c * b
    requires x == c * x' - s * y' && y == s * x' + c * y'
    ensures X' == (s * f + c * g) * u + (dx + s * R) * x' + (c * R - b) * y' + (s * ez) * z
  {
    assert X' == s * (f * u + b * x + dy * y + ez * z) + c * (g * u + dx * x + b * y);
    // the part along the two rotated rows, with c*c replaced by 1 - s*s
    assert s * (b * x + dy * y) + c * (dx * x + b * y) == (dx + s * R) * x' + (c * R - b) * y' by {
      var k := c * c + s * s - 1.0;
      assert s * (b * x + dy * y) + c * (dx * x + b * y) - ((dx + s * R) * x' + (c * R - b) * y')
          == k * (dx * x' - b * y');
    }
  }

  lemma ChaseY(s: real, c: real, f: real, g: real, dx: real, dy: real, b: real, ez: real, R: real,
               u: real, x: real, y: real, z: real, x': real, y': real, X: real, Y: real, Y': real)
    requires Y' == c * Y - s * X && X == g * u + dx * x + b * y && Y == f * u + b * x + dy * y + ez * z
    requires c * c + s * s == 1.0 && c * f == s * g && R == (dy - dx) * s + 2.0 * c * b
    requires x == c * x' - s * y' && y == s * x' + c * y'
    ensures Y' == (c * R - b) * x' + (dy - s * R) * y' + (c * ez) * z
  {
    assert Y' == c * (f * u + b * x + dy * y + ez * z) - s * (g * u + dx * x + b * y);
    assert (c * f - s * g) * u == 0.0;
    assert c * (b * x + dy * y) - s * (dx * x + b * y) == (c * R - b) * x' + (dy - s * R) * y' by {
      var k := c * c + s * s - 1.0;
      assert c * (b * x + dy * y) - s * (dx * x + b * y) - ((c * R - b) * x' + (dy - s * R) * y')
          == k * (dy * y' - b * x');
    }
  }

  lemma Invert(s: real, c: real, x: real, y: real, x': real, y': real)
    requires c * c + s * s == 1.0 && x' == s * y + c * x && y' == c * y - s * x
    ensures x == c * x' - s * y' && y == s * x' + c * y'
  {
    assert c * (s * y + c * x) - s * (c * y - s * x) == (c * c + s * s) * x;
    assert s * (s * y + c * x) + c * (c * y - s * x) == (c * c + s * s) * y;
  }

  lemma ChaseUp(s: real, c: real, f: real, g: real, g': real, x: real, y: real, x': real, y': real)
    requires c * f == s * g && g' == s * f + c * g
    requires x == c * x' - s * y' && y == s * x' + c * y'
    ensures g * x + f * y == g' * x'
  {
    assert g * (c * x' - s * y') + f * (s * x' + c * y') == (s * f + c * g) * x' + (c * f - s * g) * y';
  }

  lemma ChaseDown(s: real, c: real, ez: real, sz: real, cz: real, y: real, x': real, y': real)
    requires sz == s * ez && cz == c * ez && y == s * x' + c * y'
    ensures ez * y == sz * x' + cz * y'
  {
    assert ez * (s * x' + c * y') == (s * ez) * x' + (c * ez) * y';
  }

  // The same equations as the terms of a band row; the primed coefficients are
  // those of the new band matrix.
  lemma ChaseTerms(s: real, c: real, f: real, g: real, dx: real, dy: real, b: real, ez: real,
                   g': real, dx': real, dy': real, b': real, sz: real, cz: real,
                   u: real, x: real, y: real, z: real, x': real, y': real, X: real, Y: real, X': real, Y': real)
    requires c * c + s * s == 1.0 && Times(c, f) == Times(s, g)
    requires var R := Increment(dx, dy, b, s, c);
      dx' == dx + Times(s, R) && dy' == dy - Times(s, R) && b' == Times(c, R) - b
    requires g' == Times(s, f) + Times(c, g) && sz == Times(s, ez) && cz == Times(c, ez)
    requires x' == Times(s, y) + Times(c, x) && y' == Times(c, y) - Times(s, x)
    requires X' == Times(s, Y) + Times(c, X) && Y' == Times(c, Y) - Times(s, X)
    requires X == Times(g, u) + Times(dx, x) + Times(b, y)
    requires Y == Times(f, u) + Times(b, x) + Times(dy, y) + Times(ez, z)
    ensures Times(g, x) + Times(f, y) == Times(g', x')
    ensures X' == Times(g', u) + Times(dx', x') + Times(b', y') + Times(sz, z)
    ensures Y' == Times(b', x') + Times(dy', y') + Times(cz, z)
    ensures Times(ez, y) == Times(sz, x') + Times(cz, y')
  {
    var R := Increment(dx, dy, b, s, c);
    Invert(s, c, x, y, x', y');
    ChaseUp(s, c, f, g, g', x, y, x', y');
    ChaseDown(s, c, ez, sz, cz, y, x', y');
    ChaseX(s, c, f, g, dx, dy, b, ez, R, u, x, y, z, x', y', X, Y, X');
    ChaseY(s, c, f, g, dx, dy, b, ez, R, u, x, y, z, x', y', X, Y, Y');
    SameFactor(s * f + c * g, g', u, x');
    SameFactor(dx + s * R, dx', x', x');
    SameFactor(c * R - b, b', x', y');
    SameFactor(dy - s * R, dy', y', y');
    SameFactor(s * ez, sz, z, x');
    SameFactor(c * ez, cz, z, y');
  }

  lemma SameFactor(a: real, b: real, x: real, y: real)
    requires a == b
    ensures a * x == b * x && a * y == b * y
  {}

  // Only the bulge Q[i] is not zero.
  ghost predicate OnlyBulge(Q: seq<real>, i: int) {
    forall m :: 0 <= m < |Q| && m != i ==> Q[m] == 0.0
  }

  // The rotation annihilates the bulge.
  ghost predicate Annihilates(E: seq<real>, Q: seq<real>, i: nat, s: real, c: real) {
    i > 1 ==> i < |E| && i < |Q| && Times(c, Q[i]) == Times(s, E[i - 1])
  }

  lemma NoTerm(x: real, V: Matrix, j: int, a: int)
    requires x == 0.0 || j < 0 || j >= |V|
    ensures Times(x, Vr(V, j, a)) == 0.0
  {}

  // The band rows i-1 and i when the only bulge is Q[i].
  lemma PairBefore(n: nat, N: Matrix, V: Matrix, D: seq<real>, E: seq<real>, Q: seq<real>, i: nat, a: nat)
    requires Similar(n, N, V, D, E, Q) && OnlyBulge(Q, i) && 0 < i < n && a < n && |V| == n
    ensures var g, f := if i > 1 then E[i - 1] else 0.0, if i > 1 then Q[i] else 0.0;
      && Apply(n, N, Row(V, i - 1), a)
         == Times(g, Vr(V, i - 2, a)) + Times(D[i - 1], Vr(V, i - 1, a)) + Times(E[i], Vr(V, i, a))
      && Apply(n, N, Row(V, i), a)
         == Times(f, Vr(V, i - 2, a)) + Times(E[i], Vr(V, i - 1, a)) + Times(D[i], Vr(V, i, a))
           + Times(At(E, i + 1), Vr(V, i + 1, a))
  {
    hide Dot, Times, Apply, Vr;
    assert BandRow(n, N, V, D, E, Q, i - 1, a) && BandRow(n, N, V, D, E, Q, i, a);
    NoTerm(At(Q, i - 1), V, i - 3, a);
    NoTerm(At(Q, i + 1), V, i + 1, a);
    NoTerm(At(Q, i + 2), V, i + 2, a);
    if i == 1 {
      NoTerm(At(E, i - 1), V, i - 2, a);
      NoTerm(At(Q, i), V, i - 2, a);
      NoTerm(0.0, V, i - 2, a);
    }
  }

  lemma PairAfter(n: nat, N: Matrix, V': Matrix, D': seq<real>, E': seq<real>, Q': seq<real>, i: nat, a: nat, g: real)
    requires 0 < i < n && |V'| == |D'| == |E'| == |Q'| == n && OnlyBulge(Q', i + 1)
    requires g == if i > 1 then E'[i - 1] else 0.0
    requires Apply(n, N, Row(V', i - 1), a)
      == Times(g, Vr(V', i - 2, a)) + Times(D'[i - 1], Vr(V', i - 1, a)) + Times(E'[i], Vr(V', i, a))
         + Times(At(Q', i + 1), Vr(V', i + 1, a))
    requires Apply(n, N, Row(V', i), a)
      == Times(E'[i], Vr(V', i - 1, a)) + Times(D'[i], Vr(V', i, a)) + Times(At(E', i + 1), Vr(V', i + 1, a))
    ensures BandRow(n, N, V', D', E', Q', i - 1, a) && BandRow(n, N, V', D', E', Q', i, a)
  {
    hide Dot, Times, Apply, Vr;
    NoTerm(At(Q', i - 1), V', i - 3, a);
    NoTerm(At(Q', i), V', i - 2, a);
    NoTerm(At(Q', i + 2), V', i + 2, a);
    if i == 1 {
      NoTerm(At(E', i - 1), V', i - 2, a);
      NoTerm(0.0, V', i - 2, a);
    }
  }

  // The band rows of the two rotated points, and what they contribute above and
  // below.
  lemma ChasedPair(n: nat, N: Matrix, V: Matrix, V': Matrix, D: seq<real>, E: seq<real>, Q: seq<real>,
                   D': seq<real>, E': seq<real>, Q': seq<real>, i: nat, s: real, c: real, a: nat)
    requires Rotated(n, V, V', i, s, c) && c * c + s * s == 1.0 && a < n
    requires Similar(n, N, V, D, E, Q) && OnlyBulge(Q, i) && Annihilates(E, Q, i, s, c)
    requires Chased(D, E, Q, D', E', Q', i, s, c, n)
    ensures BandRow(n, N, V', D', E', Q', i - 1, a) && BandRow(n, N, V', D', E', Q', i, a)
    ensures i > 1 ==> Times(E[i - 1], Vr(V, i - 1, a)) + Times(Q[i], Vr(V, i, a)) == Times(E'[i - 1], Vr(V', i - 1, a))
    ensures Times(At(E, i + 1), Vr(V, i, a))
         == Times(At(Q', i + 1), Vr(V', i - 1, a)) + Times(At(E', i + 1), Vr(V', i, a))
  {
    PairBefore(n, N, V, D, E, Q, i, a);
    RotateRowDot(n, V, V', i, s, c, Entries(Row(N, a)));
    RotatedEntries(n, V, V', i, s, c, a);
    ChasedValues(D, E, Q, D', E', Q', i, s, c, n);
    hide Dot, Times, Square, BandRow, Vr, Increment, Chased, Annihilates;
    var g, f, g' := if i > 1 then E[i - 1] else 0.0, if i > 1 then Q[i] else 0.0, if i > 1 then E'[i - 1] else 0.0;
    AnnihilatesHere(E, Q, i, s, c);
    ChaseTerms(s, c, f, g, D[i - 1], D[i], E[i], At(E, i + 1),
               g', D'[i - 1], D'[i], E'[i], At(Q', i + 1), At(E', i + 1),
               Vr(V, i - 2, a), Vr(V, i - 1, a), Vr(V, i, a), Vr(V, i + 1, a), Vr(V', i - 1, a), Vr(V', i, a),
               Apply(n, N, Row(V, i - 1), a), Apply(n, N, Row(V, i), a),
               Apply(n, N, Row(V', i - 1), a), Apply(n, N, Row(V', i), a));
    PairAfter(n, N, V', D', E', Q', i, a, g');
  }

  lemma AnnihilatesHere(E: seq<real>, Q: seq<real>, i: nat, s: real, c: real)
    requires Annihilates(E, Q, i, s, c) && 0 < i < |E| == |Q|
    ensures Times(c, if i > 1 then Q[i] else 0.0) == Times(s, if i > 1 then E[i - 1] else 0.0)
  {}

  lemma ChasedValues(D: seq<real>, E: seq<real>, Q: seq<real>, D': seq<real>, E': seq<real>, Q': seq<real>,
                     i: nat, s: real, c: real, n: nat)
    requires Chased(D, E, Q, D', E', Q', i, s, c, n)
    ensures 0 < i < n && |D| == |E| == |Q| == |D'| == |E'| == |Q'| == n
    ensures var R := Increment(D[i - 1], D[i], E[i], s, c);
      D'[i - 1] == D[i - 1] + Times(s, R) && D'[i] == D[i] - Times(s, R) && E'[i] == Times(c, R) - E[i]
    ensures At(E', i + 1) == Times(c, At(E, i + 1)) && At(Q', i + 1) == Times(s, At(E, i + 1))
    ensures var f, g := if i > 1 then Q[i] else 0.0, if i > 1 then E[i - 1] else 0.0;
      (if i > 1 then E'[i - 1] else 0.0) == Times(s, f) + Times(c, g)
    ensures OnlyBulge(Q', i + 1)
  {}

  lemma RotatedEntries(n: nat, V: Matrix, V': Matrix, i: nat, s: real, c: real, a: nat)
    requires Rotated(n, V, V', i, s, c) && a < n
    ensures |V| == |V'| == n
    ensures Vr(V', i - 1, a) == Times(s, Vr(V, i, a)) + Times(c, Vr(V, i - 1, a))
    ensures Vr(V', i, a) == Times(c, Vr(V, i, a)) - Times(s, Vr(V, i - 1, a))
    ensures forall j :: j != i && j != i - 1 ==> Vr(V', j, a) == Vr(V, j, a)
  {}

  // A rotation that annihilates the bulge, and turns a band matrix to which N is
  // similar into the chased one, keeps N similar.
  lemma ChaseKeepsSimilar(n: nat, N: Matrix, V: Matrix, V': Matrix, D: seq<real>, E: seq<real>, Q: seq<real>,
                          D': seq<real>, E': seq<real>, Q': seq<real>, i: nat, s: real, c: real)
    requires Rotated(n, V, V', i, s, c) && c * c + s * s == 1.0
    requires Similar(n, N, V, D, E, Q) && OnlyBulge(Q, i) && Annihilates(E, Q, i, s, c)
    requires Chased(D, E, Q, D', E', Q', i, s, c, n)
    ensures Similar(n, N, V', D', E', Q')
  {
    hide BandRow, Annihilates;
    forall j, a | 0 <= j < n && 0 <= a < n ensures BandRow(n, N, V', D', E', Q', j, a) {
      ChasedPair(n, N, V, V', D, E, Q, D', E', Q', i, s, c, a);
      if j != i - 1 && j != i { ChasedOther(n, N, V, V', D, E, Q, D', E', Q', i, s, c, j, a); }
    }
  }

  lemma ChasedOther(n: nat, N: Matrix, V: Matrix, V': Matrix, D: seq<real>, E: seq<real>, Q: seq<real>,
                    D': seq<real>, E': seq<real>, Q': seq<real>, i: nat, s: real, c: real, j: nat, a: nat)
    requires Rotated(n, V, V', i, s, c) && j < n && j != i - 1 && j != i && a < n
    requires Similar(n, N, V, D, E, Q) && OnlyBulge(Q, i) && Chased(D, E, Q, D', E', Q', i, s, c, n)
    requires i > 1 ==> Times(E[i - 1], Vr(V, i - 1, a)) + Times(Q[i], Vr(V, i, a)) == Times(E'[i - 1], Vr(V', i - 1, a))
    requires Times(At(E, i + 1), Vr(V, i, a))
          == Times(At(Q', i + 1), Vr(V', i - 1, a)) + Times(At(E', i + 1), Vr(V', i, a))
    ensures BandRow(n, N, V', D', E', Q', j, a)
  {
    ChasedValues(D, E, Q, D', E', Q', i, s, c, n);
    RotatedEntries(n, V, V', i, s, c, a);
    ChasedElsewhere(D, E, Q, D', E', Q', i, s, c, n, j);
    assert BandRow(n, N, V, D, E, Q, j, a);
    assert Row(V', j) == Row(V, j);
    hide Times, Dot, Apply, Vr, Chased, Increment, Row;
    NoTerm(0.0, V, j - 2, a);
    NoTerm(0.0, V, j + 2, a);
    NoTerm(0.0, V', j - 2, a);
    NoTerm(0.0, V', j + 2, a);
    NoTerm(0.0, V, j - 1, a);
    NoTerm(0.0, V', j + 1, a);
  }

  lemma ChasedElsewhere(D: seq<real>, E: seq<real>, Q: seq<real>, D': seq<real>, E': seq<real>, Q': seq<real>,
                        i: nat, s: real, c: real, n: nat, j: nat)
    requires Chased(D, E, Q, D', E', Q', i, s, c, n) && OnlyBulge(Q, i) && j < n && j != i - 1 && j != i
    ensures At(D', j) == At(D, j)
    ensures j != i + 1 ==> At(E', j) == At(E, j)
    ensures j != i - 2 ==> At(E', j + 1) == At(E, j + 1)
    ensures At(Q, j) == 0.0 && (j != i + 1 ==> At(Q', j) == 0.0)
    ensures At(Q', j + 2) == 0.0 && (j != i - 2 ==> At(Q, j + 2) == 0.0)
  {}

  // The trace is kept.
  lemma ChasedTrace(D: seq<real>, E: seq<real>, Q: seq<real>, D': seq<real>, E': seq<real>, Q': seq<real>,
                    i: nat, s: real, c: real, n: nat)
    requires Chased(D, E, Q, D', E', Q', i, s, c, n)
    ensures Sum(n, Entries(D')) == Sum(n, Entries(D))
  {
    ChasedValues(D, E, Q, D', E', Q', i, s, c, n);
    SumExchange(n, Entries(D), Entries(D'), i - 1, i);
  }

  // E[0] and Q[0], Q[1] couple to no row.
  lemma UnusedCouplings(n: nat, N: Matrix, V: Matrix, D: seq<real>, E: seq<real>, Q: seq<real>, E': seq<real>,
                        Q': seq<real>)
    requires Similar(n, N, V, D, E, Q) && |E'| == |Q'| == n
    requires forall m :: 1 <= m < n ==> E'[m] == E[m]
    requires forall m :: 2 <= m < n ==> Q'[m] == Q[m]
    ensures Similar(n, N, V, D, E', Q')
  {
    hide Dot, Apply, Times, Vr;
    forall j, a | 0 <= j < n && 0 <= a < n ensures BandRow(n, N, V, D, E', Q', j, a) {
      assert BandRow(n, N, V, D, E, Q, j, a);
      if j == 0 { NoTerm(At(E, 0), V, -1, a); NoTerm(At(E', 0), V, -1, a); }
      if j <= 1 { NoTerm(At(Q, j), V, j - 2, a); NoTerm(At(Q', j), V, j - 2, a); }
    }
  }

  // ---- Deflation -----------------------------------------------------------------

  // N' is N without the coupling x of rows h-1 and h of V.
  ghost function Deflated(n: nat, N: Matrix, V: Matrix, h: int, x: real): (N': Matrix)
    requires Square(n, N)
    ensures Square(n, N')
  {
    seq(n, a requires 0 <= a < n => seq(n, b requires 0 <= b < n => DeflatedEntry(N[a][b], V, h, x, a, b)))
  }

  ghost function DeflatedEntry(y: real, V: Matrix, h: int, x: real, a: int, b: int): real {
    y - x * (Vr(V, h - 1, a) * Vr(V, h, b) + Vr(V, h, a) * Vr(V, h - 1, b))
  }

  // What the dropped coupling contributes to row a of N, and to N*V[j] at a.
  ghost function Dropped(n: nat, V: Matrix, h: int, x: real, a: int): (t: seq<real>)
    ensures |t| == n
    ensures forall b :: 0 <= b < n ==>
      At(t, b) == (-x * Vr(V, h - 1, a)) * At(Row(V, h), b) + (-x * Vr(V, h, a)) * At(Row(V, h - 1), b)
  {
    seq(n, b => (-x * Vr(V, h - 1, a)) * At(Row(V, h), b) + (-x * Vr(V, h, a)) * At(Row(V, h - 1), b))
  }

  ghost function Coupled(x: real, V: Matrix, h: int, j: int, a: int): real {
    x * (Vr(V, h - 1, a) * Unit(h, j) + Vr(V, h, a) * Unit(h - 1, j))
  }

  lemma DroppedRow(n: nat, N: Matrix, V: Matrix, h: nat, x: real, a: nat)
    requires Square(n, N) && a < n
    ensures forall b :: 0 <= b < n ==>
      At(Row(Deflated(n, N, V, h, x), a), b) == 1.0 * At(Row(N, a), b) + 1.0 * At(Dropped(n, V, h, x, a), b)
  {
    var N' := Deflated(n, N, V, h, x);
    forall b | 0 <= b < n ensures At(Row(N', a), b) == 1.0 * At(Row(N, a), b) + 1.0 * At(Dropped(n, V, h, x, a), b) {
      DeflatedTerm(x, Vr(V, h - 1, a), Vr(V, h, b), Vr(V, h, a), Vr(V, h - 1, b));
      assert N'[a][b] == DeflatedEntry(N[a][b], V, h, x, a, b);
    }
  }

  lemma DeflatedApply(n: nat, N: Matrix, V: Matrix, h: nat, x: real, j: nat, a: nat)
    requires Square(n, N) && RowsOrthonormal(n, V) && 0 < h < n && j < n && a < n
    ensures Apply(n, Deflated(n, N, V, h, x), Row(V, j), a) == Apply(n, N, Row(V, j), a) - Coupled(x, V, h, j, a)
  {
    DroppedRow(n, N, V, h, x, a);
    DroppedApply(n, V, h, x, j, a);
    hide Dot, Entries, Row, Deflated, Dropped, RowsOrthonormal, Coupled;
    var N', w := Deflated(n, N, V, h, x), Entries(Row(V, j));
    DotLinear(n, 1.0, Row(N, a), 1.0, Dropped(n, V, h, x, a), Row(N', a), w);
    DotCommutes(n, w, Entries(Row(N', a)));
    DotCommutes(n, w, Entries(Row(N, a)));
  }

  lemma DroppedApply(n: nat, V: Matrix, h: nat, x: real, j: nat, a: nat)
    requires RowsOrthonormal(n, V) && 0 < h < n && j < n
    ensures Dot(n, Entries(Row(V, j)), Entries(Dropped(n, V, h, x, a))) == -Coupled(x, V, h, j, a)
  {
    var t, w := Dropped(n, V, h, x, a), Entries(Row(V, j));
    hide Dot, Entries, Row, Dropped, Vr;
    var p, q := -x * Vr(V, h - 1, a), -x * Vr(V, h, a);
    DotLinear(n, p, Row(V, h), q, Row(V, h - 1), t, w);
    assert Dot(n, w, Entries(Row(V, h))) == Unit(j, h) && Dot(n, w, Entries(Row(V, h - 1))) == Unit(j, h - 1);
    DeflatedTerm(x, Vr(V, h - 1, a), Unit(h, j), Vr(V, h, a), Unit(h - 1, j));
  }

  lemma DeflatedTerm(x: real, y: real, z: real, u: real, v: real)
    ensures -(x * (y * z + u * v)) == (-x * y) * z + (-x * u) * v
  {
    assert (-x * y) * z == -(x * (y * z));
    assert (-x * u) * v == -(x * (u * v));
  }

  // Dropping the coupling x == E[h] keeps the rest of the similarity.
  lemma DeflateKeepsSimilar(n: nat, N: Matrix, V: Matrix, D: seq<real>, E: seq<real>, Q: seq<real>, h: nat)
    requires Square(n, N) && RowsOrthonormal(n, V) && |V| == n && 0 < h < n && Similar(n, N, V, D, E, Q)
    ensures Similar(n, Deflated(n, N, V, h, E[h]), V, D, E[h := 0.0], Q)
  {
    var N', E' := Deflated(n, N, V, h, E[h]), E[h := 0.0];
    hide RowsOrthonormal, Apply, Deflated, Coupled;
    forall j, a | 0 <= j < n && 0 <= a < n ensures BandRow(n, N', V, D, E', Q, j, a) {
      DeflatedApply(n, N, V, h, E[h], j, a);
      assert BandRow(n, N, V, D, E, Q, j, a);
      DeflatedRow(n, N, N', V, D, E, Q, h, j, a);
    }
  }

  lemma DeflatedRow(n: nat, N: Matrix, N': Matrix, V: Matrix, D: seq<real>, E: seq<real>, Q: seq<real>, h: nat, j: nat,
                    a: nat)
    requires |E| == n && 0 < h < n && j < n && a < n
    requires Apply(n, N', Row(V, j), a) == Apply(n, N, Row(V, j), a) - Coupled(E[h], V, h, j, a)
    requires BandRow(n, N, V, D, E, Q, j, a)
    ensures BandRow(n, N', V, D, E[h := 0.0], Q, j, a)
  {
    NoTerm(0.0, V, h - 1, a);
    NoTerm(0.0, V, h, a);
    CoupledCases(E[h], V, h, j, a);
    hide Apply, Coupled, Vr, Row, Times;
  }

  lemma CoupledCases(x: real, V: Matrix, h: nat, j: nat, a: nat)
    ensures Coupled(x, V, h, j, a)
         == if j == h then Times(x, Vr(V, h - 1, a)) else if j == h - 1 then Times(x, Vr(V, h, a)) else 0.0
  {
    hide Vr;
  }

  // Entries of orthonormal rows are at most 1 in size, so an entry of the matrix
  // moves by at most twice the dropped coupling.
  lemma {:induction false} EntryBound(n: nat, x: seq<real>, k: nat)
    requires k < n && Dot(n, Entries(x), Entries(x)) == 1.0
    ensures -1.0 <= At(x, k) <= 1.0
  {
    var f := i => Entries(x)(i) * Entries(x)(i);
    TermAtMostSum(n, f, k) by {
      forall i ensures f(i) >= 0.0 { SquareNonNeg(At(x, i)); }
    }
    SumCong(n, f, i => Entries(x)(i) * Entries(x)(i));
    SquareBound(At(x, k));
  }

  lemma {:induction false} TermAtMostSum(n: nat, f: int -> real, k: nat)
    requires k < n && forall i :: 0 <= i < n ==> f(i) >= 0.0
    ensures f(k) <= Sum(n, f)
  {
    if k == n - 1 { SumNonNeg(n - 1, f); } else { TermAtMostSum(n - 1, f, k); }
  }

  lemma SquareBound(x: real)
    requires x * x <= 1.0
    ensures -1.0 <= x <= 1.0
  {}

  lemma DeflatedBound(n: nat, N: Matrix, V: Matrix, h: nat, x: real, a: nat, b: nat)
    requires Square(n, N) && RowsOrthonormal(n, V) && 0 < h < n && a < n && b < n
    ensures Abs(Deflated(n, N, V, h, x)[a][b] - N[a][b]) <= 2.0 * Abs(x)
  {
    hide Dot;
    EntryBound(n, Row(V, h), a);
    EntryBound(n, Row(V, h), b);
    EntryBound(n, Row(V, h - 1), a);
    EntryBound(n, Row(V, h - 1), b);
    ProductBound(Vr(V, h - 1, a), Vr(V, h, b));
    ProductBound(Vr(V, h, a), Vr(V, h - 1, b));
    ScaledBound(x, Vr(V, h - 1, a) * Vr(V, h, b) + Vr(V, h, a) * Vr(V, h - 1, b));
  }

  lemma ProductBound(x: real, y: real)
    requires -1.0 <= x <= 1.0 && -1.0 <= y <= 1.0
    ensures -1.0 <= x * y <= 1.0
  {
    if x >= 0.0 {
      NonNegativeBound(x, y);
    } else {
      NonNegativeBound(-x, y);
      assert (-x) * y == -(x * y);
    }
  }

  lemma NonNegativeBound(x: real, y: real)
    requires 0.0 <= x <= 1.0 && -1.0 <= y <= 1.0
    ensures -1.0 <= x * y <= 1.0
  {
    NonNegProduct(x, 1.0 - y);
    NonNegProduct(x, 1.0 + y);
    assert x * (1.0 - y) == x - x * y && x * (1.0 + y) == x + x * y;
  }

  lemma ScaledBound(x: real, t: real)
    requires -2.0 <= t <= 2.0
    ensures Abs(x * t) <= 2.0 * Abs(x)
  {
    NonNegProduct(Abs(x), 2.0 - t);
    NonNegProduct(Abs(x), 2.0 + t);
    if x < 0.0 { assert (-x) * t == -(x * t); }
  }

  // ---- The start and the end --------------------------------------------------------

  // The symmetric tridiagonal matrix with diagonal D and off-diagonal E.
  ghost function TriMatrix(n: nat, D: seq<real>, E: seq<real>): (M: Matrix)
    ensures Square(n, M)
    ensures forall a, b :: 0 <= a < n && 0 <= b < n ==> M[a][b] == TriEntry(D, E, a, b)
  {
    seq(n, a => seq(n, b => TriEntry(D, E, a, b)))
  }

  ghost function TriEntry(D: seq<real>, E: seq<real>, a: int, b: int): real {
    if a == b then At(D, a) else if b == a + 1 then At(E, b) else if a == b + 1 then At(E, a) else 0.0
  }

  ghost function Identity(n: nat): (V: Matrix)
    ensures Square(n, V)
    ensures forall a, b :: 0 <= a < n && 0 <= b < n ==> V[a][b] == Unit(a, b)
  {
    seq(n, a => seq(n, b => Unit(a, b)))
  }

  // The product with a unit vector is an entry.
  lemma DotUnit(n: nat, w: int -> real, x: seq<real>, j: nat)
    requires j < n && forall k :: 0 <= k < n ==> At(x, k) == Unit(k, j)
    ensures Dot(n, w, Entries(x)) == w(j)
  {
    var f := (k: int) => if k == j then w(j) else 0.0;
    forall k | 0 <= k < n ensures w(k) * Entries(x)(k) == f(k) {}
    SumCong(n, k => w(k) * Entries(x)(k), f);
    SumSingle(n, f, j);
  }

  lemma IdentityOrthogonal(n: nat)
    ensures Orthogonal(n, Identity(n))
  {
    var V := Identity(n);
    forall i, j | 0 <= i < n && 0 <= j < n ensures Dot(n, Entries(Row(V, i)), Entries(Row(V, j))) == Unit(i, j) {
      DotUnit(n, Entries(Row(V, i)), Row(V, j), j);
    }
    forall a, b | 0 <= a < n && 0 <= b < n ensures Sum(n, ColumnTerm(V, a, b)) == Unit(a, b) {
      SumSingle(n, ColumnTerm(V, a, b), a);
    }
  }

  lemma IdentitySimilar(n: nat, D: seq<real>, E: seq<real>, Q: seq<real>)
    requires |D| == |E| == |Q| == n && forall m :: 0 <= m < n ==> Q[m] == 0.0
    ensures Similar(n, TriMatrix(n, D, E), Identity(n), D, E, Q)
  {
    var M, V := TriMatrix(n, D, E), Identity(n);
    forall j, a | 0 <= j < n && 0 <= a < n ensures BandRow(n, M, V, D, E, Q, j, a) {
      IdentityRow(n, M, D, E, Q, j, a);
    }
  }

  lemma IdentityRow(n: nat, M: Matrix, D: seq<real>, E: seq<real>, Q: seq<real>, j: nat, a: nat)
    requires |D| == |E| == |Q| == n && (forall m :: 0 <= m < n ==> Q[m] == 0.0) && j < n && a < n
    requires Square(n, M) && M[a][j] == TriEntry(D, E, a, j)
    ensures BandRow(n, M, Identity(n), D, E, Q, j, a)
  {
    var V := Identity(n);
    DotUnit(n, Entries(Row(M, a)), Row(V, j), j);
    assert Apply(n, M, Row(V, j), a) == TriEntry(D, E, a, j);
    hide Apply, Dot;
    NoTerm(At(Q, j), V, j - 2, a);
    NoTerm(At(Q, j + 2), V, j + 2, a);
    assert forall m :: Vr(V, m, a) == if m == a then 1.0 else 0.0;
  }

  // V diagonalises N with eigenvalues p.
  ghost predicate Diagonalises(n: nat, N: Matrix, V: Matrix, p: seq<real>) {
    |p| == n && forall j, a :: 0 <= j < n && 0 <= a < n ==> Apply(n, N, Row(V, j), a) == p[j] * Vr(V, j, a)
  }

  lemma SimilarToDiagonal(n: nat, N: Matrix, V: Matrix, D: seq<real>, E: seq<real>, Q: seq<real>)
    requires Similar(n, N, V, D, E, Q) && |V| == n
    requires forall m :: 0 <= m < n ==> Q[m] == 0.0
    requires forall m :: 1 <= m < n ==> E[m] == 0.0
    ensures Diagonalises(n, N, V, D)
  {
    forall j, a | 0 <= j < n && 0 <= a < n ensures Apply(n, N, Row(V, j), a) == D[j] * Vr(V, j, a) {
      assert BandRow(n, N, V, D, E, Q, j, a);
      DiagonalRow(n, N, V, D, E, Q, j, a);
    }
  }

  lemma DiagonalRow(n: nat, N: Matrix, V: Matrix, D: seq<real>, E: seq<real>, Q: seq<real>, j: nat, a: nat)
    requires BandRow(n, N, V, D, E, Q, j, a) && |D| == |E| == |Q| == |V| == n && j < n
    requires forall m :: 0 <= m < n ==> Q[m] == 0.0
    requires forall m :: 1 <= m < n ==> E[m] == 0.0
    ensures Apply(n, N, Row(V, j), a) == D[j] * Vr(V, j, a)
  {
    hide Apply, Vr;
    NoTerm(At(E, j), V, j - 1, a);
    NoTerm(At(E, j + 1), V, j + 1, a);
    NoTerm(At(Q, j), V, j - 2, a);
    NoTerm(At(Q, j + 2), V, j + 2, a);
  }

  // Exchanging two rows together with their eigenvalues.
  ghost predicate Exchanged(n: nat, V: Matrix, p: seq<real>, V': Matrix, p': seq<real>, i: nat, k: nat) {
    && i < n && k < n && |V| == |V'| == |p| == |p'| == n
    && V' == V[i := V[k]][k := V[i]] && p' == p[i := p[k]][k := p[i]]
  }

  ghost function Other(i: nat, k: nat, j: nat): nat {
    if j == i then k else if j == k then i else j
  }

  lemma ExchangeKeeps(n: nat, N: Matrix, V: Matrix, p: seq<real>, V': Matrix, p': seq<real>, i: nat, k: nat)
    requires Exchanged(n, V, p, V', p', i, k) && Orthogonal(n, V)
    ensures Orthogonal(n, V') && Sum(n, Entries(p')) == Sum(n, Entries(p))
    ensures Diagonalises(n, N, V, p) ==> Diagonalises(n, N, V', p')
  {
    ExchangeRows(n, V, p, V', p', i, k);
    ExchangeColumns(n, V, p, V', p', i, k);
    ExchangeSum(n, V, p, V', p', i, k);
    if Diagonalises(n, N, V, p) { ExchangeDiagonal(n, N, V, p, V', p', i, k); }
    hide Dot, Sum, Apply, Diagonalises, RowsOrthonormal, ColumnsOrthonormal;
  }

  lemma ExchangedRow(n: nat, V: Matrix, p: seq<real>, V': Matrix, p': seq<real>, i: nat, k: nat)
    requires Exchanged(n, V, p, V', p', i, k)
    ensures forall j :: 0 <= j < n ==> Row(V', j) == Row(V, Other(i, k, j)) && p'[j] == p[Other(i, k, j)]
  {}

  lemma ExchangeRows(n: nat, V: Matrix, p: seq<real>, V': Matrix, p': seq<real>, i: nat, k: nat)
    requires Exchanged(n, V, p, V', p', i, k) && RowsOrthonormal(n, V)
    ensures RowsOrthonormal(n, V')
  {
    ExchangedRow(n, V, p, V', p', i, k);
    hide Dot, Row, Exchanged, Entries;
  }

  lemma ExchangeDiagonal(n: nat, N: Matrix, V: Matrix, p: seq<real>, V': Matrix, p': seq<real>, i: nat, k: nat)
    requires Exchanged(n, V, p, V', p', i, k) && Diagonalises(n, N, V, p)
    ensures Diagonalises(n, N, V', p')
  {
    ExchangedRow(n, V, p, V', p', i, k);
    forall j, a | 0 <= j < n && 0 <= a < n ensures Apply(n, N, Row(V', j), a) == p'[j] * Vr(V', j, a) {
      hide Apply, Row;
      assert Apply(n, N, Row(V, Other(i, k, j)), a) == p[Other(i, k, j)] * Vr(V, Other(i, k, j), a);
      assert Vr(V', j, a) == Vr(V, Other(i, k, j), a);
    }
  }

  lemma ExchangeColumns(n: nat, V: Matrix, p: seq<real>, V': Matrix, p': seq<real>, i: nat, k: nat)
    requires Exchanged(n, V, p, V', p', i, k) && ColumnsOrthonormal(n, V)
    ensures ColumnsOrthonormal(n, V')
  {
    ExchangedRow(n, V, p, V', p', i, k);
    forall a, b | 0 <= a < n && 0 <= b < n ensures Sum(n, ColumnTerm(V', a, b)) == Unit(a, b) {
      hide Sum, Row, Exchanged;
      var f, g := ColumnTerm(V, a, b), ColumnTerm(V', a, b);
      assert forall j :: 0 <= j < n ==> g(j) == f(Other(i, k, j));
      if i == k { SumCong(n, f, g); } else { SumExchange(n, f, g, i, k); }
    }
  }

  lemma ExchangeSum(n: nat, V: Matrix, p: seq<real>, V': Matrix, p': seq<real>, i: nat, k: nat)
    requires Exchanged(n, V, p, V', p', i, k)
    ensures Sum(n, Entries(p')) == Sum(n, Entries(p))
  {
    hide Sum;
    if i == k { SumCong(n, Entries(p), Entries(p')); } else { SumExchange(n, Entries(p), Entries(p'), i, k); }
  }
}
