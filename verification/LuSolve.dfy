// The solution of a linear system from its decomposition, and when the
// decomposition needs no help.
module LuSolve {
  import opened RealSums
  import opened Matrices
  import opened LuDecomp

  // Entry i of M*x for a matrix given by its entries.
  ghost function RowTimes(n: nat, A: (int, int) -> real, i: int, x: seq<real>): real {
    Dot(n, RowOf(A, i), Entries(x))
  }

  // ---- Forward substitution ------------------------------------------------------------

  // Equation r of L*y == c, given the values before r.
  ghost predicate ForwardAt(M: Matrix, y: seq<real>, c: real, r: nat) {
    r < |y| && Dot(r, RowOf(EntryOf(M), r), Entries(y)) + y[r] == c
  }

  // The first i equations are solved; the rest of b waits in its exchanged order,
  // and everything before the first non-zero value is zero.
  ghost predicate Forward(n: nat, M: Matrix, index: seq<int>, b0: seq<real>, b: seq<real>, nonZero: int, i: nat)
    requires Exchanges(n, index, n) && i <= n <= |b0|
  {
    && |b| == |b0|
    && (forall r :: 0 <= r < i ==> ForwardAt(M, b, b0[PermOf(n, index, n)[r]], r))
    && (forall r :: i <= r < n ==> b[r] == b0[PermOf(n, index, i)[r]])
    && -1 <= nonZero < i && (forall r :: 0 <= r < i && (nonZero == -1 || r < nonZero) ==> b[r] == 0.0)
  }

  // y solves L*y == (b with its entries exchanged).
  ghost predicate Transformed(n: nat, M: Matrix, index: seq<int>, b: seq<real>, y: seq<real>) {
    && Exchanges(n, index, n) && n <= |b| == |y|
    && forall r :: 0 <= r < n ==> ForwardAt(M, y, b[PermOf(n, index, n)[r]], r)
  }

  lemma ForwardFrame(M: Matrix, y: seq<real>, y': seq<real>, c: real, r: nat)
    requires ForwardAt(M, y, c, r) && |y'| == |y| && forall k :: 0 <= k <= r ==> y'[k] == y[k]
    ensures ForwardAt(M, y', c, r)
  {
    DotCong(r, RowOf(EntryOf(M), r), Entries(y), RowOf(EntryOf(M), r), Entries(y'));
  }

  lemma ForwardStep(n: nat, M: Matrix, index: seq<int>, b0: seq<real>, b: seq<real>, nonZero: int, i: nat, sum: real,
                    b': seq<real>)
    requires Exchanges(n, index, n) && i < n <= |b0| && Forward(n, M, index, b0, b, nonZero, i)
    requires sum == b[index[i]] - Dot(i, RowOf(EntryOf(M), i), Entries(b))
    requires b' == b[index[i] := b[i]][i := sum]
    requires nonZero == -1 ==> sum == b[index[i]]
    ensures Forward(n, M, index, b0, b', if nonZero == -1 && sum != 0.0 then i else nonZero, i + 1)
  {
    hide Dot, ForwardAt;
    var p, q := PermOf(n, index, n), PermOf(n, index, i + 1);
    forall r | 0 <= r < i + 1 ensures ForwardAt(M, b', b0[p[r]], r) {
      if r < i {
        ForwardFrame(M, b, b', b0[p[r]], r);
      } else {
        PermStable(n, index, i + 1, n, i);
        ForwardNew(M, b, b', i, b[index[i]]);
      }
    }
  }

  lemma ForwardNew(M: Matrix, b: seq<real>, b': seq<real>, i: nat, c: real)
    requires i < |b| == |b'| && b'[i] == c - Dot(i, RowOf(EntryOf(M), i), Entries(b))
    requires forall k :: 0 <= k < i ==> b'[k] == b[k]
    ensures ForwardAt(M, b', c, i)
  {
    DotCong(i, RowOf(EntryOf(M), i), Entries(b), RowOf(EntryOf(M), i), Entries(b'));
  }

  // Zeros before lo contribute nothing to the first i terms.
  lemma {:induction false} SkipZeros(lo: nat, x: int -> real, b: seq<real>)
    requires lo <= |b| && forall r :: 0 <= r < lo ==> b[r] == 0.0
    ensures Dot(lo, x, Entries(b)) == 0.0
  {
    if lo > 0 {
      SkipZeros(lo - 1, x, b);
      DotTimes(lo - 1, x, Entries(b));
      ZeroTerm(x(lo - 1), b[lo - 1]);
    }
  }

  // b becomes the solution of L*y == (b with its entries exchanged).
  method TransformB(a: array2<real>, n: nat, index: array<int>, b: array<real>)
    requires n <= a.Length0 && n <= a.Length1 && n <= index.Length && n <= b.Length && Exchanges(n, index[..], n)
    modifies b
    ensures Transformed(n, Rows(a, n), index[..], old(b[..]), b[..])
  {
    hide Rows, Forward, ForwardAt, Transformed;
    ghost var M, b0, ix := Rows(a, n), b[..], index[..];
    ForwardStarts(n, M, ix, b0);
    var nonZero := -1;
    for i := 0 to n
      invariant Forward(n, M, ix, b0, b[..], nonZero, i)
    {
      ForwardShape(n, M, ix, b0, b[..], nonZero, i);
      ghost var b1, x := b[..], RowOf(EntryOf(M), i);
      var iperm := index[i];
      var sum := b[iperm];
      ghost var sum0 := sum;
      b[iperm] := b[i];
      SameBefore(i, x, b1, b[..]);
      if nonZero != -1 {
        SkipZeros(nonZero, x, b[..]);
        for j := nonZero to i
          invariant b[..] == b1[iperm := b1[i]] && sum == sum0 - Dot(j, x, Entries(b[..]))
        {
          DotTimes(j, x, Entries(b[..]));
          assert x(j) == a[i, j] && Entries(b[..])(j) == b[j];
          sum := sum - a[i, j] * b[j];
        }
      } else {
        SkipZeros(i, x, b[..]);
        if sum != 0.0 {
          nonZero := i;
        }
      }
      b[i] := sum;
      ForwardStep(n, M, ix, b0, b1, if nonZero == i then -1 else nonZero, i, sum, b[..]);
    }
    ForwardEnds(n, M, ix, b0, b[..], nonZero);
  }

  lemma ForwardStarts(n: nat, M: Matrix, index: seq<int>, b: seq<real>)
    requires Exchanges(n, index, n) && n <= |b|
    ensures Forward(n, M, index, b, b, -1, 0)
  {}

  lemma ForwardShape(n: nat, M: Matrix, index: seq<int>, b0: seq<real>, b: seq<real>, nonZero: int, i: nat)
    requires Exchanges(n, index, n) && i <= n <= |b0| && Forward(n, M, index, b0, b, nonZero, i)
    ensures |b| == |b0| && -1 <= nonZero < i
    ensures forall r :: 0 <= r < i && (nonZero == -1 || r < nonZero) ==> b[r] == 0.0
  {}

  lemma ForwardEnds(n: nat, M: Matrix, index: seq<int>, b0: seq<real>, b: seq<real>, nonZero: int)
    requires Exchanges(n, index, n) && n <= |b0| && Forward(n, M, index, b0, b, nonZero, n)
    ensures Transformed(n, M, index, b0, b)
  {}

  lemma SameBefore(i: nat, x: int -> real, b: seq<real>, b': seq<real>)
    requires |b| == |b'| && forall r :: 0 <= r < i && r < |b| ==> b[r] == b'[r]
    ensures Dot(i, x, Entries(b')) == Dot(i, x, Entries(b))
  {
    DotCong(i, x, Entries(b), x, Entries(b'));
  }

  // ---- Back substitution -----------------------------------------------------------------

  // Equation r of U*x == y.
  ghost predicate BackAt(n: nat, M: Matrix, x: seq<real>, y: real, r: nat) {
    RowTimes(n, Upper(M), r, x) == y
  }

  ghost predicate Regular(n: nat, M: Matrix) {
    forall r :: 0 <= r < n ==> Vr(M, r, r) != 0.0
  }

  lemma {:induction false} UpperPrefix(M: Matrix, r: nat, x: seq<real>, m: nat)
    requires m <= r
    ensures Dot(m, RowOf(Upper(M), r), Entries(x)) == 0.0
  {
    if m > 0 {
      UpperPrefix(M, r, x, m - 1);
      DotTimes(m - 1, RowOf(Upper(M), r), Entries(x));
      ZeroTerm(Upper(M)(r, m - 1), At(x, m - 1));
    }
  }

  // The value that solves equation i once those below it are known.
  lemma BackStep(n: nat, M: Matrix, i: nat, x: seq<real>, y: real, rest: real, x': seq<real>)
    requires i < n <= |x| && |x'| == |x| && forall k :: i < k < |x| ==> x'[k] == x[k]
    requires rest == RowTimes(n, Upper(M), i, x) - Dot(i + 1, RowOf(Upper(M), i), Entries(x))
    requires Times(Vr(M, i, i), x'[i]) == y - rest
    ensures BackAt(n, M, x', y, i)
  {
    hide Vr, Dot, Times;
    var u := RowOf(Upper(M), i);
    RestFrame(n, i + 1, u, x, x');
    UpperPrefix(M, i, x', i);
    DotTimes(i, u, Entries(x'));
    assert u(i) == Vr(M, i, i) && Entries(x')(i) == x'[i];
  }

  lemma QuotientTimes(x: real, d: real, q: real)
    requires d != 0.0 && q == x / d
    ensures Times(d, q) == x
  {}

  lemma {:induction false} RestFrame(n: nat, m: nat, u: int -> real, x: seq<real>, x': seq<real>)
    requires m <= n && |x| == |x'| && forall k :: m <= k < |x| ==> x[k] == x'[k]
    ensures Dot(n, u, Entries(x')) - Dot(m, u, Entries(x')) == Dot(n, u, Entries(x)) - Dot(m, u, Entries(x))
  {
    if n > m {
      RestFrame(n - 1, m, u, x, x');
      DotTimes(n - 1, u, Entries(x));
      DotTimes(n - 1, u, Entries(x'));
      hide Dot;
      SameProduct(u(n - 1), At(x, n - 1), u(n - 1), At(x', n - 1));
    }
  }

  // Row r of U does not see the values before r.
  lemma UpperFrame(n: nat, M: Matrix, r: nat, x: seq<real>, x': seq<real>)
    requires r <= n && |x| == |x'| && forall k :: r <= k < |x| ==> x[k] == x'[k]
    ensures RowTimes(n, Upper(M), r, x') == RowTimes(n, Upper(M), r, x)
  {
    RestFrame(n, r, RowOf(Upper(M), r), x, x');
    UpperPrefix(M, r, x, r);
    UpperPrefix(M, r, x', r);
  }

  method BackSubstitute(a: array2<real>, n: nat, b: array<real>)
    requires n <= a.Length0 && n <= a.Length1 && n <= b.Length && Regular(n, Rows(a, n))
    modifies b
    ensures forall r :: 0 <= r < n ==> BackAt(n, Rows(a, n), b[..], old(b[r]), r)
  {
    hide Rows, BackAt, Times;
    ghost var M, y := Rows(a, n), b[..];
    var i := n - 1;
    while i >= 0
      invariant -1 <= i < n && b[..i + 1] == y[..i + 1]
      invariant forall r :: i < r < n ==> BackAt(n, M, b[..], y[r], r)
    {
      ghost var x, u := b[..], RowOf(Upper(M), i);
      var sum := b[i];
      for j := i + 1 to n
        invariant b[..] == x && sum == y[i] - (Dot(j, u, Entries(x)) - Dot(i + 1, u, Entries(x)))
      {
        DotTimes(j, u, Entries(x));
        assert u(j) == a[i, j] && Entries(x)(j) == b[j];
        sum := sum - a[i, j] * b[j];
      }
      assert Vr(M, i, i) == a[i, i] != 0.0;
      var q := sum / a[i, i];
      QuotientTimes(sum, a[i, i], q);
      b[i] := q;
      BackStep(n, M, i, x, y[i], y[i] - sum, b[..]);
      forall r | i < r < n ensures BackAt(n, M, b[..], y[r], r) {
        BackFrame(n, M, x, b[..], y[r], r);
      }
      i := i - 1;
    }
  }

  lemma BackFrame(n: nat, M: Matrix, x: seq<real>, x': seq<real>, y: real, r: nat)
    requires r <= n && BackAt(n, M, x, y, r) && |x| == |x'| && forall k :: r <= k < |x| ==> x[k] == x'[k]
    ensures BackAt(n, M, x', y, r)
  {
    UpperFrame(n, M, r, x, x');
  }

  // ---- The solution ------------------------------------------------------------------------

  // A*x == b, but for TINY*x[i] in the equation that had zero pivot i.
  ghost predicate SolvedAt(n: nat, A: Matrix, row: int, bumped: bool, i: nat, x: seq<real>, b: seq<real>) {
    && 0 <= row < |b| && i < |x|
    && RowTimes(n, EntryOf(A), row, x) + (if bumped then Times(TINY, x[i]) else 0.0) == b[row]
  }

  ghost predicate Solves(n: nat, A: Matrix, index: seq<int>, zero: set<int>, x: seq<real>, b: seq<real>) {
    && n <= |x| && n <= |b| && Exchanges(n, index, n)
    && forall i :: 0 <= i < n ==> SolvedAt(n, A, PermOf(n, index, n)[i], i in zero, i, x, b)
  }

  ghost predicate SolvesExactly(n: nat, A: Matrix, x: seq<real>, b: seq<real>) {
    n <= |x| && n <= |b| && forall i :: 0 <= i < n ==> RowTimes(n, EntryOf(A), i, x) == b[i]
  }

  // L*(U*x), row by row.
  lemma ProductTimes(n: nat, M: Matrix, i: nat, x: seq<real>, y: seq<real>)
    requires |y| >= n && forall r :: 0 <= r < n ==> BackAt(n, M, x, y[r], r)
    ensures Dot(n, RowOf(Lower(M), i), Entries(y)) == Dot(n, ProductRow(n, M, i), Entries(x))
  {
    hide Dot, Lower, Upper;
    var l, u := RowOf(Lower(M), i), Upper(M);
    SumBilinear(n, n, l, u, Entries(x));
    assert forall r :: 0 <= r < n ==> BackAt(n, M, x, y[r], r);
    DotCong(n, l, Entries(y), l, RowDots(n, u, Entries(x)));
    forall j ensures ColumnDots(n, u, l)(j) == ProductRow(n, M, i)(j) { DotCommutes(n, ColumnOf(u, j), l); }
    DotCommutes(n, Entries(x), ColumnDots(n, u, l));
    DotCong(n, ColumnDots(n, u, l), Entries(x), ProductRow(n, M, i), Entries(x));
  }

  ghost function ProductRow(n: nat, M: Matrix, i: int): int -> real {
    j => FactorProduct(n, M, i, j)
  }

  // L*y at row i is what forward substitution summed.
  lemma LowerTimes(n: nat, M: Matrix, i: nat, y: seq<real>, c: real)
    requires i < n <= |y| && ForwardAt(M, y, c, i)
    ensures Dot(n, RowOf(Lower(M), i), Entries(y)) == c
  {
    LowerPrefix(n, M, i, y);
  }

  lemma {:induction false} LowerPrefix(m: nat, M: Matrix, i: nat, y: seq<real>)
    requires i < |y|
    ensures m <= i ==> Dot(m, RowOf(Lower(M), i), Entries(y)) == Dot(m, RowOf(EntryOf(M), i), Entries(y))
    ensures m > i ==> Dot(m, RowOf(Lower(M), i), Entries(y)) == Dot(i, RowOf(EntryOf(M), i), Entries(y)) + y[i]
  {
    if m > 0 {
      LowerPrefix(m - 1, M, i, y);
      DotTimes(m - 1, RowOf(Lower(M), i), Entries(y));
      DotTimes(m - 1, RowOf(EntryOf(M), i), Entries(y));
      hide Dot, Vr;
      if m - 1 > i { ZeroTerm(Lower(M)(i, m - 1), At(y, m - 1)); }
    }
  }

  // Row i of L*U*x, from what L*U is.
  lemma DecomposedTimes(n: nat, A: Matrix, M: Matrix, p: seq<int>, zero: set<int>, i: nat, x: seq<real>)
    requires Factored(n, A, p, zero, M, n) && i < n <= |x|
    ensures Dot(n, ProductRow(n, M, i), Entries(x))
         == RowTimes(n, EntryOf(A), p[i], x) + (if i in zero then Times(TINY, x[i]) else 0.0)
  {
    var f, g := RowOf(EntryOf(A), p[i]), ProductRow(n, M, i);
    forall j | 0 <= j < n ensures g(j) == f(j) + Bump(zero, i, j) {
      ProductPrefix(n, M, i, j);
      assert FactoredAt(A, p, zero, M, i, j);
    }
    hide Dot, Factored;
    if i in zero {
      AddOne(n, f, g, Entries(x), i, TINY);
    } else {
      DotCong(n, g, Entries(x), f, Entries(x));
    }
  }

  lemma {:induction false} AddOne(n: nat, f: int -> real, g: int -> real, x: int -> real, i: nat, t: real)
    requires forall j :: 0 <= j < n ==> g(j) == f(j) + if j == i then t else 0.0
    ensures Dot(n, g, x) == Dot(n, f, x) + if i < n then Times(t, x(i)) else 0.0
  {
    if n > 0 {
      hide Dot, Times;
      AddOne(n - 1, f, g, x, i, t);
      DotTimes(n - 1, f, x);
      DotTimes(n - 1, g, x);
      AddOneTerm(f(n - 1), g(n - 1), if n - 1 == i then t else 0.0, x(n - 1));
    }
  }

  lemma AddOneTerm(f: real, g: real, t: real, x: real)
    requires g == f + t
    ensures g * x == f * x + Times(t, x) && Times(0.0, x) == 0.0
  {}

  // Solves the system that a and index hold the decomposition of. The divisions
  // are by the pivots, which are not zero.
  method LuSolve(a: array2<real>, n: nat, index: array<int>, b: array<real>, ghost A: Matrix, ghost zero: set<int>)
    requires n <= a.Length0 && n <= a.Length1 && n <= index.Length && n <= b.Length
    requires Decomposed(n, A, Rows(a, n), index[..], zero)
    modifies b
    ensures Solves(n, A, index[..], zero, b[..], old(b[..]))
  {
    hide Rows, ForwardAt, BackAt, Solves, Transformed, NothingBelow;
    ghost var M, b0, ix := Rows(a, n), b[..], index[..];
    TransformB(a, n, index, b);
    ghost var y := b[..];
    assert Transformed(n, M, ix, b0, y);
    BackSubstitute(a, n, b);
    SolvesDecomposed(n, A, M, ix, zero, b[..], y, b0);
  }

  lemma SolvesDecomposed(n: nat, A: Matrix, M: Matrix, index: seq<int>, zero: set<int>, x: seq<real>, y: seq<real>,
                         b: seq<real>)
    requires Decomposed(n, A, M, index, zero) && n <= |x| && n <= |y| && n <= |b| && Transformed(n, M, index, b, y)
    requires forall r :: 0 <= r < n ==> BackAt(n, M, x, y[r], r)
    ensures Solves(n, A, index, zero, x, b)
  {
    hide ForwardAt, BackAt, RowTimes, Factored, PermOf;
    var p := PermOf(n, index, n);
    forall i | 0 <= i < n ensures SolvedAt(n, A, p[i], i in zero, i, x, b) {
      ProductTimes(n, M, i, x, y);
      LowerTimes(n, M, i, y, b[p[i]]);
      DecomposedTimes(n, A, M, p, zero, i, x);
    }
  }

  // The place of row i after the first m exchanges.
  ghost function PlaceOf(n: nat, index: seq<int>, m: nat, i: int): (r: int)
    requires Exchanges(n, index, m) && 0 <= i < n
    ensures 0 <= r < n && PermOf(n, index, m)[r] == i
  {
    if m == 0 then i
    else
      var r := PlaceOf(n, index, m - 1, i);
      if r == m - 1 then index[m - 1] else if r == index[m - 1] then m - 1 else r
  }

  // With no zero pivot the system itself is solved.
  lemma SolvesWithoutZeroPivot(n: nat, A: Matrix, index: seq<int>, zero: set<int>, x: seq<real>, b: seq<real>)
    requires Solves(n, A, index, zero, x, b) && zero == {}
    ensures SolvesExactly(n, A, x, b)
  {
    hide RowTimes, PermOf;
    forall i | 0 <= i < n ensures RowTimes(n, EntryOf(A), i, x) == b[i] {
      var r := PlaceOf(n, index, n, i);
      assert SolvedAt(n, A, PermOf(n, index, n)[r], r in zero, r, x, b);
    }
  }

  // ---- When pivots vanish ------------------------------------------------------------------

  ghost predicate NullVector(n: nat, A: Matrix, x: seq<real>) {
    |x| == n && forall i :: 0 <= i < n ==> RowTimes(n, EntryOf(A), i, x) == 0.0
  }

  ghost predicate AllZero(x: seq<real>) {
    forall i :: 0 <= i < |x| ==> x[i] == 0.0
  }

  // Without a zero pivot only zero is mapped to zero.
  lemma RegularWithoutZeroPivot(n: nat, A: Matrix, M: Matrix, index: seq<int>, zero: set<int>, x: seq<real>)
    requires Decomposed(n, A, M, index, zero) && zero == {} && NullVector(n, A, x)
    ensures AllZero(x)
  {
    hide Factored, PermOf, Dot, EntryOf;
    var y := Image(n, M, x);
    var p := PermOf(n, index, n);
    forall i | 0 <= i < n ensures Dot(n, RowOf(Lower(M), i), Entries(y)) == 0.0 {
      ProductTimes(n, M, i, x, y);
      DecomposedTimes(n, A, M, p, zero, i, x);
      assert RowTimes(n, EntryOf(A), p[i], x) == 0.0;
    }
    LowerNull(n, M, y, n);
    NoZeroDiagonal(n, A, p, zero, M);
    UpperNull(n, M, x, y, 0);
  }

  lemma ZerosInRange(n: nat, A: Matrix, p: seq<int>, zero: set<int>, M: Matrix)
    requires Factored(n, A, p, zero, M, n)
    ensures forall k :: k in zero ==> 0 <= k < n
  {}

  lemma NoZeroDiagonal(n: nat, A: Matrix, p: seq<int>, zero: set<int>, M: Matrix)
    requires Factored(n, A, p, zero, M, n)
    ensures Regular(n, M)
  {}

  // U*x.
  ghost function Image(n: nat, M: Matrix, x: seq<real>): (y: seq<real>)
    ensures |y| == n && forall r :: 0 <= r < n ==> BackAt(n, M, x, y[r], r)
  {
    seq(n, r => RowTimes(n, Upper(M), r, x))
  }

  lemma {:induction false} LowerNull(n: nat, M: Matrix, y: seq<real>, m: nat)
    requires m <= n == |y| && forall i :: 0 <= i < n ==> Dot(n, RowOf(Lower(M), i), Entries(y)) == 0.0
    ensures forall i :: 0 <= i < m ==> y[i] == 0.0
  {
    if m > 0 {
      LowerNull(n, M, y, m - 1);
      LowerPrefix(n, M, m - 1, y);
      SkipZeros(m - 1, RowOf(EntryOf(M), m - 1), y);
    }
  }

  lemma {:induction false} UpperNull(n: nat, M: Matrix, x: seq<real>, y: seq<real>, m: nat)
    requires m <= n == |x| == |y| && Regular(n, M) && AllZero(y) && forall r :: 0 <= r < n ==> BackAt(n, M, x, y[r], r)
    ensures forall i :: m <= i < n ==> x[i] == 0.0
    decreases n - m
  {
    if m < n {
      UpperNull(n, M, x, y, m + 1);
      assert BackAt(n, M, x, y[m], m);
      UpperAtZeroTail(n, M, m, x);
      hide Vr;
      var d := Vr(M, m, m);
      if x[m] != 0.0 { NoZeroProduct(d, x[m]); }
    }
  }

  lemma NoZeroProduct(x: real, y: real)
    requires x != 0.0 && y != 0.0
    ensures Times(x, y) != 0.0
  {}

  // Row r of U*x when x vanishes after r.
  lemma UpperAtZeroTail(n: nat, M: Matrix, r: nat, x: seq<real>)
    requires r < n == |x| && forall k :: r < k < n ==> x[k] == 0.0
    ensures RowTimes(n, Upper(M), r, x) == Times(Vr(M, r, r), x[r])
  {
    var u := RowOf(Upper(M), r);
    UpperPrefix(M, r, x, r);
    DotTimes(r, u, Entries(x));
    ZeroTail(n, r + 1, u, x);
    hide Dot, Vr;
    assert u(r) == Vr(M, r, r) && Entries(x)(r) == x[r];
  }

  lemma {:induction false} ZeroTail(n: nat, m: nat, u: int -> real, x: seq<real>)
    requires m <= n == |x| && forall k :: m <= k < n ==> x[k] == 0.0
    ensures Dot(n, u, Entries(x)) == Dot(m, u, Entries(x))
  {
    ZeroTailTo(n, m, u, x, n);
  }

  lemma {:induction false} ZeroTailTo(n: nat, m: nat, u: int -> real, x: seq<real>, k: nat)
    requires m <= k <= n == |x| && forall k :: m <= k < n ==> x[k] == 0.0
    ensures Dot(k, u, Entries(x)) == Dot(m, u, Entries(x))
  {
    if k > m {
      ZeroTailTo(n, m, u, x, k - 1);
      DotTimes(k - 1, u, Entries(x));
      ZeroTerm(u(k - 1), At(x, k - 1));
    }
  }

  // A combination of the columns before j that cancels column j of U.
  lemma {:induction false} Cancelling(n: nat, M: Matrix, j: nat, m: nat) returns (x: seq<real>)
    requires m <= j < n && Regular(n, M)
    ensures |x| == n && x[j] == 1.0 && forall k :: j < k < n ==> x[k] == 0.0
    ensures forall r :: m <= r < j ==> BackAt(n, M, x, 0.0, r)
    decreases j - m
  {
    if m == j {
      x := seq(n, k => if k == j then 1.0 else 0.0);
    } else {
      var x1 := Cancelling(n, M, j, m + 1);
      var rest := RowTimes(n, Upper(M), m, x1) - Dot(m + 1, RowOf(Upper(M), m), Entries(x1));
      var q := (0.0 - rest) / Vr(M, m, m);
      QuotientTimes(0.0 - rest, Vr(M, m, m), q);
      x := x1[m := q];
      BackStep(n, M, m, x1, 0.0, rest, x);
      forall r | m < r < j ensures BackAt(n, M, x, 0.0, r) { BackFrame(n, M, x1, x, 0.0, r); }
    }
  }

  // L applied to TINY times unit vector j, the column below j being zero.
  lemma LowerColumn(n: nat, M: Matrix, j: nat, y: seq<real>, i: nat)
    requires j < n == |y| && i < n && y[j] == TINY && forall k :: 0 <= k < n && k != j ==> y[k] == 0.0
    requires forall i :: j < i < n ==> Vr(M, i, j) == 0.0
    ensures Dot(n, RowOf(Lower(M), i), Entries(y)) == if i == j then TINY else 0.0
  {
    var l := RowOf(Lower(M), i);
    SkipZeros(j, l, y);
    DotTimes(j, l, Entries(y));
    ZeroTail(n, j + 1, l, y);
    hide Dot, Vr;
    if i != j { ZeroTerm(l(j), y[j]); }
  }

  // Given a zero pivot c, the first one shows a vector that the input maps to zero.
  lemma SingularWithZeroPivot(n: nat, A: Matrix, M: Matrix, index: seq<int>, zero: set<int>, c: int)
    returns (x: seq<real>)
    requires Decomposed(n, A, M, index, zero) && c in zero
    ensures NullVector(n, A, x) && !AllZero(x)
  {
    hide Factored, PermOf, Dot, EntryOf, BackAt, Upper, Lower, RowTimes;
    var p := PermOf(n, index, n);
    NoZeroDiagonal(n, A, p, zero, M);
    ZerosInRange(n, A, p, zero, M);
    var j := LeastBelow(zero, c);
    x := Cancelling(n, M, j, 0);
    var y := Image(n, M, x);
    ImageOfCancelling(n, M, j, x, y);
    forall r | 0 <= r < n ensures RowTimes(n, EntryOf(A), r, x) == 0.0 {
      var i := PlaceOf(n, index, n, r);
      ProductTimes(n, M, i, x, y);
      LowerColumn(n, M, j, y, i);
      DecomposedTimes(n, A, M, p, zero, i, x);
      assert Times(TINY, 1.0) == TINY && Times(TINY, 0.0) == 0.0;
    }
  }

  lemma LeastBelow(zero: set<int>, c: int) returns (j: nat)
    requires c in zero && forall k :: k in zero ==> 0 <= k
    ensures j in zero && j <= c && forall k :: k in zero ==> j <= k
    decreases c
  {
    if k :| k in zero && k < c {
      j := LeastBelow(zero, k);
    } else {
      j := c;
    }
  }

  lemma ImageOfCancelling(n: nat, M: Matrix, j: nat, x: seq<real>, y: seq<real>)
    requires j < n == |x| == |y| && x[j] == 1.0 && (forall k :: j < k < n ==> x[k] == 0.0) && Vr(M, j, j) == TINY
    requires forall r :: 0 <= r < j ==> BackAt(n, M, x, 0.0, r)
    requires forall r :: 0 <= r < n ==> BackAt(n, M, x, y[r], r)
    ensures forall r :: 0 <= r < n ==> y[r] == if r == j then TINY else 0.0
  {
    forall r | 0 <= r < n ensures y[r] == if r == j then TINY else 0.0 {
      hide Dot, Upper, Vr;
      assert BackAt(n, M, x, y[r], r);
      if r < j {
        assert BackAt(n, M, x, 0.0, r);
      } else {
        UpperAtZeroTail(n, M, r, x);
        assert Times(TINY, 1.0) == TINY;
        ZeroOrOne(Vr(M, r, r), x[r]);
      }
    }
  }

  lemma ZeroOrOne(d: real, x: real)
    ensures x == 0.0 ==> Times(d, x) == 0.0
    ensures x == 1.0 ==> Times(d, x) == d
  {}
}
