// Crout's LU decomposition with implicit pivoting, and the solution of a linear
// system from it.
module LuDecomp {
  import opened RealSums
  import opened Sequences
  import opened Matrices

  const TINY := 1e-20

  // ---- The two factors kept in one matrix --------------------------------------------

  // Unit lower triangle: the multipliers below the diagonal.
  ghost function Lower(M: Matrix): (int, int) -> real {
    (i, k) => if k < i then Vr(M, i, k) else if k == i then 1.0 else 0.0
  }

  ghost function Upper(M: Matrix): (int, int) -> real {
    (k, j) => if k <= j then Vr(M, k, j) else 0.0
  }

  // Entry i,j of L*U.
  ghost function FactorProduct(n: nat, M: Matrix, i: int, j: int): real {
    Dot(n, RowOf(Lower(M), i), ColumnOf(Upper(M), j))
  }

  // The part of it that the first m pivots account for.
  ghost function Elim(M: Matrix, m: nat, i: int, j: int): real {
    Dot(m, RowOf(EntryOf(M), i), ColumnOf(EntryOf(M), j))
  }

  ghost function Entry(M: Matrix, i: nat, j: nat): real {
    if i <= j then Elim(M, i, i, j) + Vr(M, i, j) else Elim(M, j, i, j) + Times(Vr(M, i, j), Vr(M, j, j))
  }

  function Min(x: int, y: int): int {
    if x <= y then x else y
  }

  // The product of pivot k.
  lemma PivotTerm(M: Matrix, i: nat, j: nat, k: nat)
    ensures Times(Lower(M)(i, k), Upper(M)(k, j))
         == if k > Min(i, j) then 0.0 else if k < i then Times(Vr(M, i, k), Vr(M, k, j)) else Vr(M, i, j)
  {
    hide Vr;
    if k > Min(i, j) {
      assert Lower(M)(i, k) == 0.0 || Upper(M)(k, j) == 0.0;
      ZeroTerm(Lower(M)(i, k), Upper(M)(k, j));
    }
  }

  // Only the products up to the smaller of i and j are not zero.
  lemma {:induction false} ProductPrefix(n: nat, M: Matrix, i: nat, j: nat)
    ensures n <= Min(i, j) ==> FactorProduct(n, M, i, j) == Elim(M, n, i, j)
    ensures n > Min(i, j) ==> FactorProduct(n, M, i, j) == Entry(M, i, j)
  {
    if n > 0 {
      ProductPrefix(n - 1, M, i, j);
      ProductStep(n - 1, M, i, j);
      ElimStep(M, n - 1, i, j);
      PivotTerm(M, i, j, n - 1);
      hide FactorProduct, Elim, Vr, Lower, Upper, Times;
    }
  }

  lemma ProductStep(n: nat, M: Matrix, i: int, j: int)
    ensures FactorProduct(n + 1, M, i, j) == FactorProduct(n, M, i, j) + Times(Lower(M)(i, n), Upper(M)(n, j))
  {
    hide Lower, Upper;
    DotTimes(n, RowOf(Lower(M), i), ColumnOf(Upper(M), j));
  }

  lemma ElimStep(M: Matrix, n: nat, i: int, j: int)
    ensures Elim(M, n + 1, i, j) == Elim(M, n, i, j) + Times(Vr(M, i, n), Vr(M, n, j))
  {
    hide Vr;
    DotTimes(n, RowOf(EntryOf(M), i), ColumnOf(EntryOf(M), j));
  }

  lemma ZeroTerm(x: real, y: real)
    requires x == 0.0 || y == 0.0
    ensures x * y == 0.0
  {}

  // ---- Permutations --------------------------------------------------------------------

  function Swapped<T>(s: seq<T>, i: nat, k: nat): (t: seq<T>)
    requires i < |s| && k < |s|
    ensures |t| == |s| && t[i] == s[k] && t[k] == s[i]
    ensures forall j :: 0 <= j < |s| && j != i && j != k ==> t[j] == s[j]
  {
    s[i := s[k]][k := s[i]]
  }

  // Row exchanges: step j exchanged row j with a row at or below it.
  ghost predicate Exchanges(n: nat, index: seq<int>, m: nat) {
    m <= n <= |index| && forall j :: 0 <= j < m ==> j <= index[j] < n
  }

  // The row that stands at every place after the first m exchanges.
  ghost function PermOf(n: nat, index: seq<int>, m: nat): (p: seq<int>)
    requires Exchanges(n, index, m)
    ensures Permutation(n, p)
  {
    if m == 0 then seq(n, i => i) else Swapped(PermOf(n, index, m - 1), m - 1, index[m - 1])
  }

  lemma {:induction false} PermOfPrefix(n: nat, index: seq<int>, index': seq<int>, m: nat)
    requires Exchanges(n, index, m) && Exchanges(n, index', m) && forall j :: 0 <= j < m ==> index[j] == index'[j]
    ensures PermOf(n, index, m) == PermOf(n, index', m)
  {
    if m > 0 { PermOfPrefix(n, index, index', m - 1); }
  }

  // Later exchanges leave the places above them alone.
  lemma {:induction false} PermStable(n: nat, index: seq<int>, m: nat, k: nat, i: nat)
    requires Exchanges(n, index, k) && i < m <= k
    ensures PermOf(n, index, k)[i] == PermOf(n, index, m)[i]
  {
    if m < k { PermStable(n, index, m, k - 1, i); }
  }

  // ---- One column ------------------------------------------------------------------------

  ghost function Bump(zero: set<int>, i: int, j: int): real {
    if i == j && j in zero then TINY else 0.0
  }

  // Columns before j are factored; the others hold the permuted input.
  ghost predicate FactoredAt(A: Matrix, p: seq<int>, zero: set<int>, M: Matrix, i: nat, c: nat) {
    0 <= i < |p| && Entry(M, i, c) == Vr(A, p[i], c) + Bump(zero, i, c)
  }

  ghost predicate Factored(n: nat, A: Matrix, p: seq<int>, zero: set<int>, M: Matrix, j: nat) {
    && Square(n, M) && |p| == n && j <= n
    && (forall i, c :: 0 <= i < n && 0 <= c < j ==> FactoredAt(A, p, zero, M, i, c))
    && (forall i, c :: 0 <= i < n && j <= c < n ==> Vr(M, i, c) == Vr(A, p[i], c))
    && (forall c :: 0 <= c < j ==> Vr(M, c, c) != 0.0)
    && (forall c :: c in zero ==> 0 <= c < j)
  }

  // Column j, eliminated but not yet pivoted.
  ghost predicate EliminatedAt(A: Matrix, p: seq<int>, M: Matrix, i: nat, j: nat) {
    0 <= i < |p| && Elim(M, Min(i, j), i, j) + Vr(M, i, j) == Vr(A, p[i], j)
  }

  ghost predicate Eliminated(n: nat, A: Matrix, p: seq<int>, zero: set<int>, M: Matrix, j: nat) {
    && Square(n, M) && |p| == n && j < n
    && (forall i, c :: 0 <= i < n && 0 <= c < j ==> FactoredAt(A, p, zero, M, i, c))
    && (forall i :: 0 <= i < n ==> EliminatedAt(A, p, M, i, j))
    && (forall i, c :: 0 <= i < n && j < c < n ==> Vr(M, i, c) == Vr(A, p[i], c))
    && (forall c :: 0 <= c < j ==> Vr(M, c, c) != 0.0)
    && (forall c :: c in zero ==> 0 <= c < j)
  }

  // Elim reads only row i before column m and column j above row m.
  lemma ElimFrame(M: Matrix, M': Matrix, m: nat, i: int, i': int, j: int)
    requires forall k :: 0 <= k < m ==> Vr(M, i, k) == Vr(M', i', k) && Vr(M, k, j) == Vr(M', k, j)
    ensures Elim(M', m, i', j) == Elim(M, m, i, j)
  {
    DotCong(m, RowOf(EntryOf(M), i), ColumnOf(EntryOf(M), j), RowOf(EntryOf(M'), i'), ColumnOf(EntryOf(M'), j));
  }

  lemma EntryFrame(M: Matrix, M': Matrix, i: nat, i': nat, j: nat)
    requires i == i' || (j < i && j < i')
    requires forall k :: 0 <= k <= j ==> Vr(M, i, k) == Vr(M', i', k)
    requires forall k :: 0 <= k <= Min(i, j) ==> Vr(M, k, j) == Vr(M', k, j)
    ensures Entry(M', i', j) == Entry(M, i, j)
  {
    hide Elim, Vr;
    ElimFrame(M, M', Min(i, j), i, i', j);
    if j < i { SameProduct(Vr(M, i, j), Vr(M, j, j), Vr(M', i', j), Vr(M', j, j)); }
  }

  lemma SameProduct(x: real, y: real, x': real, y': real)
    requires x == x' && y == y'
    ensures x * y == x' * y'
  {}

  ghost function WithEntry(M: Matrix, i: nat, j: nat, x: real): (M': Matrix)
    requires i < |M| && j < |M[i]|
    ensures forall n :: Square(n, M) ==> Square(n, M')
    ensures forall r, c :: Vr(M', r, c) == if r == i && c == j then x else Vr(M, r, c)
  {
    M[i := M[i][j := x]]
  }

  // Rows before i of column j are eliminated; nothing else has changed.
  ghost predicate ColumnDone(n: nat, M0: Matrix, M: Matrix, j: nat, i: nat) {
    && Square(n, M) && Square(n, M0)
    && (forall r, c :: 0 <= r < n && 0 <= c < n && (c != j || r >= i) ==> Vr(M, r, c) == Vr(M0, r, c))
    && forall r :: 0 <= r < i ==> ReducedAt(M0, M, r, j)
  }

  ghost predicate ReducedAt(M0: Matrix, M: Matrix, r: nat, j: nat) {
    Vr(M, r, j) == Vr(M0, r, j) - Elim(M, Min(r, j), r, j)
  }

  lemma ColumnStep(n: nat, M0: Matrix, M: Matrix, M': Matrix, j: nat, i: nat)
    requires ColumnDone(n, M0, M, j, i) && i < n && j < n
    requires M' == WithEntry(M, i, j, Vr(M, i, j) - Elim(M, Min(i, j), i, j))
    ensures ColumnDone(n, M0, M', j, i + 1)
  {
    hide Elim, Vr, WithEntry;
    forall r | 0 <= r < i + 1 ensures ReducedAt(M0, M', r, j) {
      ElimFrame(M, M', Min(r, j), r, r, j);
      assert r < i ==> ReducedAt(M0, M, r, j);
    }
  }

  lemma ColumnEliminated(n: nat, A: Matrix, p: seq<int>, zero: set<int>, M0: Matrix, M: Matrix, j: nat)
    requires Factored(n, A, p, zero, M0, j) && j < n && ColumnDone(n, M0, M, j, n)
    ensures Eliminated(n, A, p, zero, M, j)
  {
    hide Elim, Vr, Entry;
    forall i, c | 0 <= i < n && 0 <= c < j ensures FactoredAt(A, p, zero, M, i, c) {
      assert FactoredAt(A, p, zero, M0, i, c);
      EntryFrame(M0, M, i, i, c);
    }
    forall i | 0 <= i < n ensures EliminatedAt(A, p, M, i, j) {
      assert ReducedAt(M0, M, i, j);
    }
  }

  // Exchanging row j with one at or below it.
  lemma RowsExchanged(n: nat, A: Matrix, p: seq<int>, zero: set<int>, M: Matrix, j: nat, k: nat)
    requires Eliminated(n, A, p, zero, M, j) && j <= k < n
    ensures Eliminated(n, A, Swapped(p, j, k), zero, Swapped(M, j, k), j)
  {
    var M', p' := Swapped(M, j, k), Swapped(p, j, k);
    SwappedEntries(n, M, M', j, k);
    hide Elim, Vr, Entry, Swapped, FactoredAt, EliminatedAt;
    forall i, c | 0 <= i < n && 0 <= c < j ensures FactoredAt(A, p', zero, M', i, c) {
      FactoredExchanged(n, A, p, p', zero, M, M', j, k, i, c);
    }
    forall i | 0 <= i < n ensures EliminatedAt(A, p', M', i, j) {
      EliminatedExchanged(n, A, p, p', M, M', j, k, i);
    }
    forall i, c | 0 <= i < n && j < c < n ensures Vr(M', i, c) == Vr(A, p'[i], c) {
      assert Vr(M', i, c) == Vr(M, Other(j, k, i), c);
    }
  }

  function Other(j: int, k: int, i: int): int {
    if i == j then k else if i == k then j else i
  }

  lemma FactoredExchanged(n: nat, A: Matrix, p: seq<int>, p': seq<int>, zero: set<int>, M: Matrix, M': Matrix,
                          j: nat, k: nat, i: nat, c: nat)
    requires c < j <= k < n && i < n && |p| == |p'| == n && p'[i] == p[Other(j, k, i)]
    requires FactoredAt(A, p, zero, M, Other(j, k, i), c)
    requires forall r, x :: 0 <= r < n ==> Vr(M', r, x) == Vr(M, Other(j, k, r), x)
    ensures FactoredAt(A, p', zero, M', i, c)
  {
    hide Elim, Vr, Entry;
    EntryFrame(M, M', Other(j, k, i), i, c);
  }

  lemma EliminatedExchanged(n: nat, A: Matrix, p: seq<int>, p': seq<int>, M: Matrix, M': Matrix, j: nat, k: nat, i: nat)
    requires j <= k < n && i < n && |p| == |p'| == n && p'[i] == p[Other(j, k, i)]
    requires EliminatedAt(A, p, M, Other(j, k, i), j)
    requires forall r, x :: 0 <= r < n ==> Vr(M', r, x) == Vr(M, Other(j, k, r), x)
    ensures EliminatedAt(A, p', M', i, j)
  {
    hide Elim, Vr;
    ElimFrame(M, M', Min(i, j), Other(j, k, i), i, j);
  }

  lemma SwappedEntries(n: nat, M: Matrix, M': Matrix, j: nat, k: nat)
    requires Square(n, M) && j < n && k < n && M' == Swapped(M, j, k)
    ensures Square(n, M')
    ensures forall r, c :: 0 <= r < n ==> Vr(M', r, c) == Vr(M, Other(j, k, r), c)
  {}

  // The diagonal is replaced if it is zero, and the residuals below it are divided
  // by it.
  ghost predicate Pivoted(n: nat, M: Matrix, M': Matrix, j: nat) {
    && Square(n, M) && Square(n, M') && j < n
    && var d := if Vr(M, j, j) == 0.0 then TINY else Vr(M, j, j);
       && Vr(M', j, j) == d && d != 0.0
       && (forall i :: j < i < n ==> Times(Vr(M', i, j), d) == Vr(M, i, j))
       && forall r, c :: 0 <= r < n && 0 <= c < n && (c != j || r < j) ==> Vr(M', r, c) == Vr(M, r, c)
  }

  lemma ColumnFactored(n: nat, A: Matrix, p: seq<int>, zero: set<int>, M: Matrix, M': Matrix, j: nat)
    requires Eliminated(n, A, p, zero, M, j) && Pivoted(n, M, M', j)
    ensures Factored(n, A, p, if Vr(M, j, j) == 0.0 then zero + {j} else zero, M', j + 1)
  {
    var zero' := if Vr(M, j, j) == 0.0 then zero + {j} else zero;
    hide Elim, Vr;
    forall i, c | 0 <= i < n && 0 <= c < j + 1 ensures FactoredAt(A, p, zero', M', i, c) {
      hide Times;
      if c < j {
        assert FactoredAt(A, p, zero, M, i, c);
        hide Entry;
        EntryFrame(M, M', i, i, c);
      } else {
        assert EliminatedAt(A, p, M, i, j);
        ElimFrame(M, M', Min(i, j), i, i, j);
      }
    }
  }

  // A zero pivot has become TINY, above zeros only.
  ghost predicate NothingBelow(n: nat, zero: set<int>, M: Matrix) {
    && (forall c, i :: c in zero && 0 <= c < i < n ==> Vr(M, i, c) == 0.0)
    && forall c :: c in zero && 0 <= c < n ==> Vr(M, c, c) == 1e-20
  }

  // ---- The decomposition in place ----------------------------------------------------------

  ghost predicate ZeroRow(n: nat, M: Matrix, i: int) {
    forall j :: 0 <= j < n ==> Vr(M, i, j) == 0.0
  }

  // The size of the largest of the first m entries of row i.
  ghost function Largest(m: nat, A: Matrix, i: int): real {
    if m == 0 then 0.0
    else if Abs(Vr(A, i, m - 1)) > Largest(m - 1, A, i) then Abs(Vr(A, i, m - 1))
    else Largest(m - 1, A, i)
  }

  lemma {:induction false} LargestIs(m: nat, A: Matrix, i: int)
    ensures Largest(m, A, i) >= 0.0 && forall k :: 0 <= k < m ==> Abs(Vr(A, i, k)) <= Largest(m, A, i)
    ensures m > 0 ==> exists k :: 0 <= k < m && Abs(Vr(A, i, k)) == Largest(m, A, i)
    ensures Largest(m, A, i) == 0.0 <==> ZeroRow(m, A, i)
  {
    if m > 0 {
      LargestIs(m - 1, A, i);
      assert Abs(Vr(A, i, m - 1)) == Largest(m, A, i) || Largest(m, A, i) == Largest(m - 1, A, i);
    }
  }

  ghost predicate Scaled(n: nat, scale: seq<real>) {
    n <= |scale| && forall i :: 0 <= i < n ==> scale[i] > 0.0
  }

  // s brings the largest entry of row i to 1.
  ghost predicate ScaleOf(n: nat, A: Matrix, i: int, s: real) {
    s > 0.0 && Times(s, Largest(n, A, i)) == 1.0
  }

  // Scaled, every entry is at most 1 and some entry is 1; no other factor does that.
  lemma ScaleOfIff(n: nat, A: Matrix, i: int, s: real)
    requires s > 0.0
    ensures ScaleOf(n, A, i, s)
            <==> (forall k :: 0 <= k < n ==> Times(s, Abs(Vr(A, i, k))) <= 1.0)
                 && exists k :: 0 <= k < n && Times(s, Abs(Vr(A, i, k))) == 1.0
  {
    LargestIs(n, A, i);
    assert n == 0 ==> Times(s, Largest(n, A, i)) == 0.0;
    forall k | 0 <= k < n ensures Times(s, Abs(Vr(A, i, k))) <= Times(s, Largest(n, A, i)) {
      TimesOrder(s, Abs(Vr(A, i, k)), Largest(n, A, i));
    }
  }

  lemma TimesOrder(s: real, x: real, y: real)
    requires s > 0.0 && x <= y
    ensures Times(s, x) <= Times(s, y)
  {
    NonNegProduct(s, y - x);
    assert s * (y - x) == s * y - s * x;
  }

  // The scale of every row is the inverse of its largest entry.
  method Scales(a: array2<real>, n: nat, scale: array<real>) returns (ok: bool)
    requires n <= a.Length0 && n <= a.Length1 && n <= scale.Length
    modifies scale
    ensures ok <==> forall i :: 0 <= i < n ==> !ZeroRow(n, Rows(a, n), i)
    ensures ok ==> Scaled(n, scale[..]) && forall i :: 0 <= i < n ==> ScaleOf(n, Rows(a, n), i, scale[i])
  {
    ghost var M := Rows(a, n);
    for i := 0 to n
      invariant forall r :: 0 <= r < i ==> !ZeroRow(n, M, r) && ScaleOf(n, M, r, scale[r])
    {
      var big := 0.0;
      for j := 0 to n
        invariant big == Largest(j, M, i)
      {
        assert Vr(M, i, j) == a[i, j];
        var temp := Abs(a[i, j]);
        if temp > big {
          big := temp;
        }
      }
      LargestIs(n, M, i);
      if big == 0.0 {
        assert Rows(a, n) == M && ZeroRow(n, M, i);
        return false;
      }
      scale[i] := 1.0 / big;
      Inverse(big, scale[i]);
    }
    return true;
  }

  lemma Inverse(b: real, s: real)
    requires b > 0.0 && s == 1.0 / b
    ensures s > 0.0 && Times(s, b) == 1.0
  {}

  // a[i,j] loses the products of the first m pivots.
  method Eliminate(a: array2<real>, n: nat, i: nat, j: nat, m: nat)
    requires n <= a.Length0 && n <= a.Length1 && i < n && j < n && m <= n
    modifies a
    ensures Rows(a, n) == WithEntry(old(Rows(a, n)), i, j, old(a[i, j]) - Elim(old(Rows(a, n)), m, i, j))
  {
    ghost var M := Rows(a, n);
    ghost var x, y := RowOf(EntryOf(M), i), ColumnOf(EntryOf(M), j);
    var sum := a[i, j];
    for k := 0 to m
      invariant Rows(a, n) == M && sum == a[i, j] - Dot(k, x, y)
    {
      assert x(k) == a[i, k] && y(k) == a[k, j];
      sum := sum - a[i, k] * a[k, j];
    }
    hide Dot;
    assert sum == a[i, j] - Elim(M, m, i, j);
    a[i, j] := sum;
    RowsSet(a, n, M, i, j, sum);
  }

  lemma RowsSet(a: array2<real>, n: nat, M: Matrix, i: nat, j: nat, x: real)
    requires n <= a.Length0 && n <= a.Length1 && i < n && j < n && Square(n, M) && a[i, j] == x
    requires forall r, c :: 0 <= r < n && 0 <= c < n && (r != i || c != j) ==> a[r, c] == M[r][c]
    ensures Rows(a, n) == WithEntry(M, i, j, x)
  {
    RowsEqual(a, n, WithEntry(M, i, j, x));
  }

  // The scaled residual of row i in column j.
  ghost function ScaledSize(scale: seq<real>, M: Matrix, i: int, j: int): real {
    At(scale, i) * Abs(Vr(M, i, j))
  }

  // imax is the last of the rows from j to i with the largest scaled residual.
  ghost predicate Foremost(scale: seq<real>, M: Matrix, j: nat, i: nat, imax: nat) {
    && (forall r :: j <= r < i ==> ScaledSize(scale, M, r, j) <= ScaledSize(scale, M, imax, j))
    && forall r :: j <= r < i && imax < r ==> ScaledSize(scale, M, r, j) < ScaledSize(scale, M, imax, j)
  }

  // Column j from top to bottom; the row of the largest scaled residual, the last if there
  // are several.
  method ReduceColumn(a: array2<real>, n: nat, j: nat, scale: array<real>) returns (imax: nat)
    requires n <= a.Length0 && n <= a.Length1 && j < n && Scaled(n, scale[..])
    modifies a
    ensures ColumnDone(n, old(Rows(a, n)), Rows(a, n), j, n)
    ensures j <= imax < n && Foremost(scale[..], Rows(a, n), j, n, imax)
  {
    hide Rows, ColumnDone, Elim, ScaledSize;
    ghost var M0 := Rows(a, n);
    ColumnStarts(n, M0, j);
    for i := 0 to j
      invariant ColumnDone(n, M0, Rows(a, n), j, i)
    {
      ghost var M := Rows(a, n);
      Eliminate(a, n, i, j, i);
      ColumnStep(n, M0, M, Rows(a, n), j, i);
    }
    var big := 0.0;
    imax := 0;
    for i := j to n
      invariant ColumnDone(n, M0, Rows(a, n), j, i)
      invariant i == j ==> big == 0.0
      invariant i > j ==> j <= imax < i && big == ScaledSize(scale[..], Rows(a, n), imax, j)
      invariant Foremost(scale[..], Rows(a, n), j, i, imax)
    {
      ghost var M := Rows(a, n);
      Eliminate(a, n, i, j, j);
      ColumnStep(n, M0, M, Rows(a, n), j, i);
      ScaledFrame(n, scale[..], M, Rows(a, n), j, i);
      var dum := scale[i] * Abs(a[i, j]);
      ScaledIs(n, scale[..], Rows(a, n), i, j, a[i, j]);
      if dum >= big {
        big := dum;
        imax := i;
      }
    }
  }

  lemma ColumnStarts(n: nat, M: Matrix, j: nat)
    requires Square(n, M)
    ensures ColumnDone(n, M, M, j, 0)
  {}

  lemma ScaledFrame(n: nat, scale: seq<real>, M: Matrix, M': Matrix, j: nat, i: nat)
    requires Square(n, M) && i < n && j < n && forall r, c :: r != i || c != j ==> Vr(M', r, c) == Vr(M, r, c)
    ensures forall r :: r != i ==> ScaledSize(scale, M', r, j) == ScaledSize(scale, M, r, j)
  {
    forall r | r != i ensures ScaledSize(scale, M', r, j) == ScaledSize(scale, M, r, j) {
      SameProduct(At(scale, r), Abs(Vr(M, r, j)), At(scale, r), Abs(Vr(M', r, j)));
    }
  }

  lemma ScaledIs(n: nat, scale: seq<real>, M: Matrix, i: nat, j: nat, x: real)
    requires i < |scale| && x == Vr(M, i, j) && Scaled(n, scale) && i < n
    ensures scale[i] * Abs(x) == ScaledSize(scale, M, i, j) >= 0.0
  {
    NonNegProduct(scale[i], Abs(x));
  }

  // If the largest scaled residual is zero, all are.
  lemma ForemostZero(n: nat, scale: seq<real>, M: Matrix, j: nat, imax: nat)
    requires Scaled(n, scale) && j <= imax < n && Foremost(scale, M, j, n, imax) && Vr(M, imax, j) == 0.0
    ensures forall i :: j <= i < n ==> Vr(M, i, j) == 0.0
  {
    forall i | j <= i < n ensures Vr(M, i, j) == 0.0 {
      assert ScaledSize(scale, M, i, j) <= ScaledSize(scale, M, imax, j);
      ZeroTerm(At(scale, imax), Abs(Vr(M, imax, j)));
      if Vr(M, i, j) != 0.0 { PosProduct(At(scale, i), Abs(Vr(M, i, j))); }
    }
  }

  // The pivot, and the multipliers below it.
  method PivotColumn(a: array2<real>, n: nat, j: nat)
    requires n <= a.Length0 && n <= a.Length1 && j < n
    modifies a
    ensures Pivoted(n, old(Rows(a, n)), Rows(a, n), j)
  {
    hide Rows, Times;
    ghost var M := Rows(a, n);
    if a[j, j] == 0.0 {
      a[j, j] := TINY;
    }
    var d := a[j, j];
    var size1 := n - 1;
    if j != size1 {
      var pivot := 1.0 / d;
      for i := j + 1 to n
        invariant a[j, j] == d
        invariant forall r, c :: 0 <= r < n && 0 <= c < n && (c != j || r < j || r >= i) && (r != j || c != j) ==>
          a[r, c] == M[r][c]
        invariant forall r :: j < r < i ==> Times(a[r, j], d) == M[r][j]
      {
        var x := a[i, j];
        Multiplier(x, d, pivot);
        a[i, j] := x * pivot;
      }
    }
    assert forall r, c :: 0 <= r < n && 0 <= c < n ==> Vr(Rows(a, n), r, c) == a[r, c] && Vr(M, r, c) == M[r][c];
  }

  lemma Multiplier(x: real, d: real, pivot: real)
    requires d != 0.0 && pivot == 1.0 / d
    ensures Times(x * pivot, d) == x
  {
    assert pivot * d == 1.0;
    assert x * pivot * d == x * (pivot * d);
  }

  // Pivot c was no smaller than the residual below it at row i, each taken relative to
  // the largest entry of its input row: the multiplier is the residual over the pivot.
  ghost predicate PivotHolds(n: nat, A: Matrix, p: seq<int>, M: Matrix, c: int, i: int) {
    0 <= c < |p| && 0 <= i < |p| && Times(Abs(Vr(M, i, c)), Largest(n, A, p[c])) <= Largest(n, A, p[i])
  }

  ghost predicate PivotsHold(n: nat, A: Matrix, p: seq<int>, M: Matrix, j: nat) {
    forall c, i :: 0 <= c < j && c < i < n ==> PivotHolds(n, A, p, M, c, i)
  }

  // The scales of the rows still to be pivoted belong to the input rows that stand there.
  ghost predicate ScalesOf(n: nat, A: Matrix, p: seq<int>, scale: seq<real>, j: nat) {
    n <= |scale| && |p| == n && forall r :: j <= r < n ==> ScaleOf(n, A, p[r], scale[r])
  }

  // What the decomposition leaves in a and index: L*U is the input with its rows
  // permuted, but for TINY on the diagonal at every zero pivot, and every pivot is the
  // largest in its column relative to its row.
  ghost predicate Decomposed(n: nat, A: Matrix, M: Matrix, index: seq<int>, zero: set<int>) {
    && Square(n, M) && Exchanges(n, index, n) && NothingBelow(n, zero, M)
    && PivotsHold(n, A, PermOf(n, index, n), M, n)
    && Factored(n, A, PermOf(n, index, n), zero, M, n)
  }

  // It fails exactly when a row of the input is zero.
  method LuDecomp(a: array2<real>, n: nat, index: array<int>, scale: array<real>)
    returns (ok: bool, ghost zero: set<int>)
    requires n <= a.Length0 && n <= a.Length1 && n <= index.Length && n <= scale.Length
    modifies a, index, scale
    ensures ok <==> forall i :: 0 <= i < n ==> !ZeroRow(n, old(Rows(a, n)), i)
    ensures !ok ==> Rows(a, n) == old(Rows(a, n))
    ensures ok ==> Decomposed(n, old(Rows(a, n)), Rows(a, n), index[..], zero)
  {
    hide Rows, Factored, Eliminated, NothingBelow, Scaled, ColumnDone, Foremost, Pivoted, ZeroRow;
    hide PivotsHold, ScalesOf, ScaleOf;
    zero := {};
    ok := Scales(a, n, scale);
    if !ok { return false, zero; }
    ghost var A := Rows(a, n);
    Starts(n, A, index[..], scale[..]);
    for j := 0 to n
      invariant |index[..]| >= n && Exchanges(n, index[..], j) && ScalesOf(n, A, PermOf(n, index[..], j), scale[..], j)
      invariant PivotsHold(n, A, PermOf(n, index[..], j), Rows(a, n), j)
      invariant Scaled(n, scale[..]) && Exchanges(n, index[..], j) && NothingBelow(n, zero, Rows(a, n))
      invariant Factored(n, A, PermOf(n, index[..], j), zero, Rows(a, n), j)
    {
      zero := Column(a, n, j, index, scale, A, zero);
    }
  }

  lemma Starts(n: nat, A: Matrix, index: seq<int>, scale: seq<real>)
    requires Square(n, A) && n <= |index| && n <= |scale| && forall i :: 0 <= i < n ==> ScaleOf(n, A, i, scale[i])
    ensures Factored(n, A, PermOf(n, index, 0), {}, A, 0) && NothingBelow(n, {}, A)
    ensures ScalesOf(n, A, PermOf(n, index, 0), scale, 0) && PivotsHold(n, A, PermOf(n, index, 0), A, 0)
  {}

  // One column of the decomposition.
  method Column(a: array2<real>, n: nat, j: nat, index: array<int>, scale: array<real>, ghost A: Matrix,
                ghost zero: set<int>)
    returns (ghost zero': set<int>)
    requires n <= a.Length0 && n <= a.Length1 && n <= index.Length && n <= scale.Length && j < n
    requires Scaled(n, scale[..]) && Exchanges(n, index[..], j) && NothingBelow(n, zero, Rows(a, n))
    requires Factored(n, A, PermOf(n, index[..], j), zero, Rows(a, n), j)
    requires ScalesOf(n, A, PermOf(n, index[..], j), scale[..], j)
    requires PivotsHold(n, A, PermOf(n, index[..], j), Rows(a, n), j)
    modifies a, index, scale
    ensures Scaled(n, scale[..]) && Exchanges(n, index[..], j + 1) && NothingBelow(n, zero', Rows(a, n))
    ensures Factored(n, A, PermOf(n, index[..], j + 1), zero', Rows(a, n), j + 1)
    ensures ScalesOf(n, A, PermOf(n, index[..], j + 1), scale[..], j + 1)
    ensures PivotsHold(n, A, PermOf(n, index[..], j + 1), Rows(a, n), j + 1)
  {
    hide Rows, Factored, Eliminated, NothingBelow, Scaled, ColumnDone, Foremost, Pivoted, PivotsHold, ScalesOf;
    ghost var M0, p, index0 := Rows(a, n), PermOf(n, index[..], j), index[..];
    var imax := ReduceColumn(a, n, j, scale);
    ghost var M := Rows(a, n);
    ColumnEliminated(n, A, p, zero, M0, M, j);
    if j != imax {
      ExchangeRowsOf(a, n, imax, j);
      ghost var scale0 := scale[..];
      scale[imax] := scale[j];
      ScaledExchanged(n, scale0, scale[..], j, imax);
    }
    ghost var M1 := Rows(a, n);
    assert M1 == Swapped(M, j, imax);
    RowsExchanged(n, A, p, zero, M, j, imax);
    index[j] := imax;
    IndexSet(n, index0, index[..], j, imax);
    PivotColumn(a, n, j);
    ColumnFactored(n, A, Swapped(p, j, imax), zero, M1, Rows(a, n), j);
    zero' := if Vr(M1, j, j) == 0.0 then zero + {j} else zero;
    ScalesMoved(n, A, p, old(scale[..]), scale[..], j, imax);
    StillPivotsHold(n, A, p, old(scale[..]), M0, M, M1, Rows(a, n), j, imax);
    StillNothingBelow(n, A, p, zero, old(scale[..]), M0, M, M1, Rows(a, n), j, imax);
  }

  lemma ScalesMoved(n: nat, A: Matrix, p: seq<int>, scale: seq<real>, scale': seq<real>, j: nat, imax: nat)
    requires ScalesOf(n, A, p, scale, j) && j <= imax < n && Permutation(n, p)
    requires scale' == if j == imax then scale else scale[imax := scale[j]]
    ensures ScalesOf(n, A, Swapped(p, j, imax), scale', j + 1)
  {
    hide ScaleOf;
  }

  lemma StillPivotsHold(n: nat, A: Matrix, p: seq<int>, scale: seq<real>, M0: Matrix, M: Matrix, M1: Matrix, M2: Matrix,
                        j: nat, imax: nat)
    requires PivotsHold(n, A, p, M0, j) && ScalesOf(n, A, p, scale, j) && ColumnDone(n, M0, M, j, n) && j <= imax < n
    requires Scaled(n, scale) && Foremost(scale, M, j, n, imax) && M1 == Swapped(M, j, imax) && Pivoted(n, M1, M2, j)
    ensures PivotsHold(n, A, Swapped(p, j, imax), M2, j + 1)
  {
    SwappedEntries(n, M, M1, j, imax);
    var q := Swapped(p, j, imax);
    if Vr(M1, j, j) == 0.0 { ForemostZero(n, scale, M, j, imax); }
    hide Vr, Foremost, Swapped, Entry, Largest, Times;
    forall c, i | 0 <= c < j + 1 && c < i < n ensures PivotHolds(n, A, q, M2, c, i) {
      var k := Other(j, imax, i);
      if c == j {
        assert q[j] == p[imax] && q[i] == p[k] && j <= k < n;
        assert Vr(M1, i, j) == Vr(M, k, j) && Vr(M1, j, j) == Vr(M, imax, j);
        NewPivotHolds(n, A, p, scale, M, M2, j, imax, i, k);
      } else {
        assert q[c] == p[c] && q[i] == p[k] && PivotHolds(n, A, p, M0, c, k);
        assert Vr(M2, i, c) == Vr(M1, i, c) == Vr(M, k, c) == Vr(M0, k, c);
      }
    }
  }

  lemma NewPivotHolds(n: nat, A: Matrix, p: seq<int>, scale: seq<real>, M: Matrix, M2: Matrix, j: nat, imax: nat,
                      i: nat, k: nat)
    requires ScalesOf(n, A, p, scale, j) && Foremost(scale, M, j, n, imax) && j <= imax < n && j <= k < n
    requires var d := if Vr(M, imax, j) == 0.0 then TINY else Vr(M, imax, j); Times(Vr(M2, i, j), d) == Vr(M, k, j)
    requires Vr(M, imax, j) == 0.0 ==> Vr(M, k, j) == 0.0
    ensures Times(Abs(Vr(M2, i, j)), Largest(n, A, p[imax])) <= Largest(n, A, p[k])
  {
    var m, x, d := Vr(M2, i, j), Vr(M, k, j), Vr(M, imax, j);
    LargestIs(n, A, p[k]);
    assert ScaleOf(n, A, p[k], scale[k]) && ScaleOf(n, A, p[imax], scale[imax]);
    assert ScaledSize(scale, M, k, j) <= ScaledSize(scale, M, imax, j);
    assert ScaledSize(scale, M, k, j) == Times(scale[k], Abs(x));
    assert ScaledSize(scale, M, imax, j) == Times(scale[imax], Abs(d));
    hide Vr, Foremost, Largest, ScaledSize;
    if d == 0.0 {
      NoFactor(m, TINY);
      ZeroTerm(Abs(m), Largest(n, A, p[imax]));
    } else {
      Ratio(scale[k], scale[imax], Largest(n, A, p[k]), Largest(n, A, p[imax]), m, d, x);
    }
  }

  lemma Ratio(si: real, sj: real, bi: real, bj: real, m: real, d: real, x: real)
    requires si > 0.0 && sj > 0.0 && bi >= 0.0 && Times(si, bi) == 1.0 && Times(sj, bj) == 1.0
    requires d != 0.0 && Times(m, d) == x && Times(si, Abs(x)) <= Times(sj, Abs(d))
    ensures Times(Abs(m), bj) <= bi
  {
    var k, e := Abs(m), Abs(d);
    AbsOfProduct(m, d);
    RatioSteps(si, sj, bi, bj, k, e);
  }

  lemma AbsOfProduct(m: real, d: real)
    ensures Abs(Times(m, d)) == Times(Abs(m), Abs(d))
  {}

  lemma RatioSteps(si: real, sj: real, bi: real, bj: real, k: real, e: real)
    requires si > 0.0 && sj > 0.0 && Times(si, bi) == 1.0 && Times(sj, bj) == 1.0 && e > 0.0
    requires Times(si, Times(k, e)) <= Times(sj, e)
    ensures Times(k, bj) <= bi
  {
    assert Times(sj, e) - Times(si, Times(k, e)) == Times(e, sj - Times(si, k));
    assert Times(si, k) <= sj by { Divided(e, sj - Times(si, k)); }
    assert Times(Times(si, sj), bi - Times(k, bj)) == Times(sj, Times(si, bi)) - Times(si, Times(k, Times(sj, bj)));
    assert Times(sj, 1.0) == sj && Times(si, Times(k, 1.0)) == Times(si, k);
    PosTimes(si, sj);
    Divided(Times(si, sj), bi - Times(k, bj));
  }

  lemma Divided(e: real, x: real)
    requires e > 0.0 && Times(e, x) >= 0.0
    ensures x >= 0.0
  {
    assert Times(e, -x) == -Times(e, x);
    if x < 0.0 { PosTimes(e, -x); }
  }

  lemma IndexSet(n: nat, index: seq<int>, index': seq<int>, j: nat, imax: nat)
    requires j < n <= |index| && j <= imax < n && Exchanges(n, index, j) && index' == index[j := imax]
    ensures Exchanges(n, index', j + 1) && PermOf(n, index', j + 1) == Swapped(PermOf(n, index, j), j, imax)
  {
    PermOfPrefix(n, index, index', j);
  }

  lemma ScaledExchanged(n: nat, scale: seq<real>, scale': seq<real>, j: nat, imax: nat)
    requires Scaled(n, scale) && j < n && imax < n && scale' == scale[imax := scale[j]]
    ensures Scaled(n, scale')
  {}

  lemma StillNothingBelow(n: nat, A: Matrix, p: seq<int>, zero: set<int>, scale: seq<real>, M0: Matrix, M: Matrix,
                          M1: Matrix, M2: Matrix,
                          j: nat, imax: nat)
    requires NothingBelow(n, zero, M0) && Factored(n, A, p, zero, M0, j) && ColumnDone(n, M0, M, j, n) && j <= imax < n
    requires Scaled(n, scale) && Foremost(scale, M, j, n, imax) && M1 == Swapped(M, j, imax) && Pivoted(n, M1, M2, j)
    ensures NothingBelow(n, if Vr(M1, j, j) == 0.0 then zero + {j} else zero, M2)
  {
    SwappedEntries(n, M, M1, j, imax);
    var zero' := if Vr(M1, j, j) == 0.0 then zero + {j} else zero;
    if Vr(M1, j, j) == 0.0 { ForemostZero(n, scale, M, j, imax); }
    hide Vr, Foremost, Swapped, Entry;
    forall c, i | c in zero' && 0 <= c < i < n ensures Vr(M2, i, c) == 0.0 {
      if c == j {
        var d := TINY;
        assert Times(Vr(M2, i, j), d) == Vr(M1, i, j) == 0.0;
        NoFactor(Vr(M2, i, j), d);
      } else {
        assert c in zero && c < j;
        assert Vr(M2, i, c) == Vr(M1, i, c) == Vr(M, Other(j, imax, i), c) == Vr(M0, Other(j, imax, i), c);
      }
    }
    forall c | c in zero' && 0 <= c < n ensures Vr(M2, c, c) == TINY {
      if c != j {
        assert c in zero && c < j;
        assert Vr(M2, c, c) == Vr(M1, c, c) == Vr(M, c, c) == Vr(M0, c, c);
      }
    }
  }

  lemma NoFactor(x: real, d: real)
    requires Times(x, d) == 0.0 && d != 0.0
    ensures x == 0.0
  {}
}
