// Poles and residues of the reduced model: what the response at every terminal
// is made of.
module Poles {
  import opened Options
  import opened RealSums
  import opened Matrices
  import opened RcTree
  import opened DrivenTree
  import opened Lanczos
  import opened Tridiagonal
  import opened QlSweeps
  import opened TridiagEV
  import opened TsGraph
  import opened RcModel

  const MIN_TIME := 1e-14   // .01ps

  // A pole is the inverse of a time constant, which is not let below MIN_TIME.
  function Pole(tau: real): (p: real)
    ensures p > 0.0
    ensures if tau >= 1e-14 then p * tau == 1.0 else p * 1e-14 == 1.0
  {
    1.0 / (if tau < MIN_TIME then MIN_TIME else tau)
  }

  function DriveDelay(m: Model, rdrive: real): real {
    rdrive * m.ctot
  }

  // The reduced model seen through the resistance of the driver.
  function DrivenD(m: Model, rdrive: real): seq<real>
    requires |m.d| > 0
  {
    m.d[0 := m.d[0] + DriveDelay(m, rdrive)]
  }

  // Eigenvector h at terminal j.
  ghost function Mode(m: Model, V: Matrix, j: int): int -> real {
    RowDots(m.order, EntryOf(V), Column(m.U, j))
  }

  ghost function Weight(m: Model, V: Matrix): int -> real {
    h => m.sqc * Vr(V, h, 0)
  }

  ghost function Residue(m: Model, V: Matrix, j: int): int -> real {
    h => Weight(m, V)(h) * Mode(m, V, j)(h)
  }

  class DelayWork {
    const poles: array<real>
    const v: array2<real>
    const w: array2<real>
    const aa: array<real>
    const resi: array2<real>

    constructor (order: nat, n: nat)
      ensures fresh(poles) && fresh(v) && fresh(w) && fresh(aa) && fresh(resi) && Fits(order, n)
    {
      poles := new real[order];
      v := new real[MAX_SIZE, MAX_SIZE];
      w := new real[MAX_SIZE, n];
      aa := new real[MAX_SIZE];
      resi := new real[n, MAX_SIZE];
    }

    ghost predicate Fits(order: nat, n: nat) {
      && poles.Length == order && v.Length0 == v.Length1 == w.Length0 == aa.Length == resi.Length1 == MAX_SIZE
      && w.Length1 == resi.Length0 == n && poles != aa && v != w && v != resi && w != resi
    }

    // d is the diagonal of the model; it is changed for the solver and restored.
    method CalculatePolesRes(m: Model, d: array<real>, rdrive: real, sqrt: real -> real)
      returns (ok: bool, ghost tau: seq<real>, ghost N: Matrix, ghost E: seq<real>, ghost runs: seq<seq<State>>,
               ghost T: State)
      requires Shaped(m) && m.order <= MAX_SIZE && Fits(m.order, m.n) && IsSqrt(sqrt)
      requires d[..] == m.d && d != poles && d != aa
      modifies d, poles, v, w, aa, resi
      ensures m.order <= 2 ==> ok
      ensures SplitAbove(m.order, m.e) ==> !ok
      ensures History(m.order, FirstState(m.order, DrivenD(m, rdrive), m.e), runs, ok, T)
      ensures if ok then Sorted(m.order, T.d, T.V, tau, Rows(v, m.order))
              else poles[..] == T.d && Rows(v, m.order) == T.V
      ensures !ok && !SplitAbove(m.order, m.e) ==>
        StillSimilar(m.order, DrivenD(m, rdrive), m.e, N, Rows(v, m.order), poles[..], E)
      ensures ok ==>
        && d[..] == m.d && Orthogonal(m.order, Rows(v, m.order))
        && Solved(m.order, DrivenD(m, rdrive), m.e, N, Rows(v, m.order), tau)
      ensures ok ==> poles[..] == Inverted(tau)
      ensures ok ==> forall j, h :: 0 <= j < m.n && 0 <= h < m.order ==>
        resi[j, h] == Residue(m, Rows(v, m.order), j)(h)
    {
      hide IsSqrt, DriveDelay, Solved, Orthogonal, SplitAbove, StillSimilar, Residue, Sum, Rows, Mode, Weight;
      hide Runs, RunStart, FirstState, Sorted, History;
      var dsave := d[0];
      d[0] := d[0] + DriveDelay(m, rdrive);
      assert d[..] == DrivenD(m, rdrive);
      ok, N, E, runs, T := TridiagEV.TridiagEV(m.order, d[..], m.e, poles, v, sqrt);
      if !ok { return false, [], N, E, runs, T; }
      d[0] := dsave;
      assert d[..] == m.d;
      tau := poles[..];
      InvertPoles();
      Modes(m);
      Residues(m);
    }

    method InvertPoles()
      modifies poles
      ensures poles[..] == Inverted(old(poles[..]))
    {
      for h := 0 to poles.Length
        invariant forall l :: 0 <= l < poles.Length ==> poles[l] == if l < h then Pole(old(poles[l])) else old(poles[l])
      {
        if poles[h] < MIN_TIME {
          poles[h] := MIN_TIME;
        }
        poles[h] := 1.0 / poles[h];
      }
    }

    // The eigenvectors at the terminals, and the weight of every one.
    method Modes(m: Model)
      requires Shaped(m) && m.order <= MAX_SIZE && Fits(m.order, m.n)
      modifies w, aa
      ensures forall h, k :: 0 <= h < m.order && 0 <= k < m.n ==> w[h, k] == Mode(m, Rows(v, m.order), k)(h)
      ensures forall h :: 0 <= h < m.order ==> aa[h] == Weight(m, Rows(v, m.order))(h)
    {
      ghost var V := Rows(v, m.order);
      hide Rows, Mode, Weight;
      for h := 0 to m.order
        invariant forall l, k :: 0 <= l < h && 0 <= k < m.n ==> w[l, k] == Mode(m, V, k)(l)
        invariant forall l :: 0 <= l < h ==> aa[l] == Weight(m, V)(l)
      {
        ModeRow(m, h);
        aa[h] := m.sqc * v[h, 0];
        WeightIs(m, V, h);
      }
    }

    method ModeRow(m: Model, h: nat)
      requires Shaped(m) && m.order <= MAX_SIZE && Fits(m.order, m.n) && h < m.order
      modifies w
      ensures forall k :: 0 <= k < m.n ==> w[h, k] == Mode(m, Rows(v, m.order), k)(h)
      ensures forall l, k :: 0 <= l < MAX_SIZE && 0 <= k < m.n && l != h ==> w[l, k] == old(w[l, k])
    {
      hide Rows, Mode;
      for k := 0 to m.n
        invariant forall i :: 0 <= i < k ==> w[h, i] == Mode(m, Rows(v, m.order), i)(h)
        invariant forall l, i :: 0 <= l < MAX_SIZE && 0 <= i < m.n && l != h ==> w[l, i] == old(w[l, i])
      {
        var x := ModeAt(m, h, k);
        w[h, k] := x;
      }
    }

    method ModeAt(m: Model, h: nat, k: nat) returns (sum: real)
      requires Shaped(m) && m.order <= MAX_SIZE && Fits(m.order, m.n) && h < m.order && k < m.n
      ensures sum == Mode(m, Rows(v, m.order), k)(h)
    {
      ghost var x, y := RowOf(EntryOf(Rows(v, m.order)), h), Column(m.U, k);
      sum := 0.0;
      for j := 0 to m.order
        invariant sum == Dot(j, x, y)
      {
        assert x(j) == v[h, j] && y(j) == m.U[j][k];
        sum := sum + v[h, j] * m.U[j][k];
      }
    }

    method Residues(m: Model)
      requires Shaped(m) && m.order <= MAX_SIZE && Fits(m.order, m.n)
      requires forall h, k :: 0 <= h < m.order && 0 <= k < m.n ==> w[h, k] == Mode(m, Rows(v, m.order), k)(h)
      requires forall h :: 0 <= h < m.order ==> aa[h] == Weight(m, Rows(v, m.order))(h)
      modifies resi
      ensures forall j, h :: 0 <= j < m.n && 0 <= h < m.order ==> resi[j, h] == Residue(m, Rows(v, m.order), j)(h)
    {
      hide Rows, Mode, Weight, Residue;
      for j := 0 to m.n
        invariant forall k, l :: 0 <= k < j && 0 <= l < m.order ==> resi[k, l] == Residue(m, Rows(v, m.order), k)(l)
      {
        ResidueRow(m, j, Rows(v, m.order));
      }
    }

    method ResidueRow(m: Model, j: nat, ghost V: Matrix)
      requires Shaped(m) && m.order <= MAX_SIZE && Fits(m.order, m.n) && j < m.n
      requires forall h :: 0 <= h < m.order ==> w[h, j] == Mode(m, V, j)(h)
      requires forall h :: 0 <= h < m.order ==> aa[h] == Weight(m, V)(h)
      modifies resi
      ensures forall h :: 0 <= h < m.order ==> resi[j, h] == Residue(m, V, j)(h)
      ensures forall k, l :: 0 <= k < m.n && 0 <= l < MAX_SIZE && k != j ==> resi[k, l] == old(resi[k, l])
    {
      hide Mode, Weight, Residue;
      for h := 0 to m.order
        invariant forall l :: 0 <= l < h ==> resi[j, l] == Residue(m, V, j)(l)
        invariant forall k, l :: 0 <= k < m.n && 0 <= l < MAX_SIZE && k != j ==> resi[k, l] == old(resi[k, l])
      {
        var a, x := aa[h], w[h, j];
        ResidueIs(m, V, j, h, a, x);
        resi[j, h] := a * x;
      }
    }
  }

  function Inverted(tau: seq<real>): (p: seq<real>)
    ensures |p| == |tau| && forall h :: 0 <= h < |tau| ==> p[h] == Pole(tau[h])
  {
    seq(|tau|, h requires 0 <= h < |tau| => Pole(tau[h]))
  }

  lemma ResidueIs(m: Model, V: Matrix, j: nat, h: nat, a: real, x: real)
    requires a == Weight(m, V)(h) && x == Mode(m, V, j)(h)
    ensures a * x == Residue(m, V, j)(h)
  {}

  lemma WeightIs(m: Model, V: Matrix, h: nat)
    requires h < |V| && |V[h]| > 0
    ensures Weight(m, V)(h) == m.sqc * V[h][0]
  {}

  // ---- What the residues say ----------------------------------------------------------

  // The columns of the eigenvectors, weighted by the driver's.
  lemma WeightedColumn(m: Model, V: Matrix, i: nat)
    requires ColumnsOrthonormal(m.order, V) && i < m.order
    ensures ColumnDots(m.order, EntryOf(V), Weight(m, V))(i) == m.sqc * Unit(i, 0)
  {
    hide Sum, Vr, ColumnTerm, Weight;
    var f, g := ColumnOf(EntryOf(V), i), Weight(m, V);
    forall h ensures f(h) * g(h) == m.sqc * ColumnTerm(V, i, 0)(h) { WeightedTermOf(m, V, i, h); }
    SumScale(m.order, m.sqc, ColumnTerm(V, i, 0), h => f(h) * g(h));
  }

  lemma WeightedTermOf(m: Model, V: Matrix, i: nat, h: int)
    ensures ColumnOf(EntryOf(V), i)(h) * Weight(m, V)(h) == m.sqc * ColumnTerm(V, i, 0)(h)
  {
    Regroup(At(Row(V, h), i), m.sqc, At(Row(V, h), 0), Weight(m, V)(h), ColumnTerm(V, i, 0)(h));
  }

  lemma Regroup(x: real, s: real, y: real, w: real, t: real)
    requires w == s * y && t == x * y
    ensures x * w == s * t
  {}

  // The residues at every terminal sum to the constant the recurrence starts from.
  lemma ResidueSum(m: Model, V: Matrix, j: nat)
    requires Shaped(m) && Orthogonal(m.order, V) && j < m.n
    ensures Sum(m.order, Residue(m, V, j)) == m.sqc * m.U[0][j]
  {
    hide Sum, ColumnsOrthonormal, RowsOrthonormal;
    var x, A, y := Weight(m, V), EntryOf(V), Column(m.U, j);
    var f := Residue(m, V, j);
    forall h ensures f(h) == x(h) * RowDots(m.order, A, y)(h) {}
    SumCong(m.order, f, h => x(h) * RowDots(m.order, A, y)(h));
    SumBilinear(m.order, m.order, x, A, y);
    var t := ColumnDots(m.order, A, x);
    forall i | 0 <= i < m.order ensures t(i) == m.sqc * Unit(i, 0) { WeightedColumn(m, V, i); }
    FirstOnly(m.order, y, t, m.sqc);
  }

  lemma FirstOnly(n: nat, y: int -> real, t: int -> real, s: real)
    requires n > 0 && forall i :: 0 <= i < n ==> t(i) == s * Unit(i, 0)
    ensures Dot(n, y, t) == s * y(0)
  {
    var f := i => y(i) * t(i);
    forall i | 0 < i < n ensures f(i) == 0.0 { assert t(i) == s * 0.0 == 0.0; }
    SumSingle(n, f, 0);
    SumCong(n, f, i => y(i) * t(i));
  }

  lemma ResiduesSumToOne(m: Model, V: Matrix, j: nat, par: seq<int>, r: seq<real>, c: seq<real>, out: seq<int>,
                         us: seq<seq<real>>)
    requires Reduces(m, par, r, c, out, us) && Orthogonal(m.order, V) && j < m.n
    ensures Sum(m.order, Residue(m, V, j)) == 1.0
  {
    hide Sum, Residue, ReducedModel, Orthogonal;
    ResidueSum(m, V, j);
    assert m.U[0][j] == At(us[0], out[j]) && At(us[0], out[j]) == 1.0 / m.sqc;
    assert m.sqc * (1.0 / m.sqc) == 1.0;
  }

  lemma InverseAntitone(x: real, y: real)
    requires 0.0 < x <= y
    ensures 1.0 / y <= 1.0 / x
  {
    assert 1.0 / x - 1.0 / y == (y - x) * (1.0 / x) * (1.0 / y);
    PosProduct(1.0 / x, 1.0 / y);
    NonNegProduct(y - x, (1.0 / x) * (1.0 / y));
  }

  // The time constants descend, so the poles ascend.
  lemma PolesAscend(tau: seq<real>, p: seq<real>)
    requires Descending(tau) && p == Inverted(tau)
    ensures forall i, j :: 0 <= i < j < |p| ==> 0.0 < p[i] <= p[j]
  {
    forall i, j | 0 <= i < j < |p| ensures 0.0 < p[i] <= p[j] {
      var x, y := if tau[j] < MIN_TIME then MIN_TIME else tau[j], if tau[i] < MIN_TIME then MIN_TIME else tau[i];
      InverseAntitone(x, y);
    }
  }

  // ---- The mean delay -------------------------------------------------------------------

  // Weight and time constant of every eigenvector.
  ghost function Moments(m: Model, V: Matrix, tau: seq<real>): int -> real {
    h => At(tau, h) * Weight(m, V)(h)
  }

  lemma MomentsAreImages(m: Model, N: Matrix, V: Matrix, tau: seq<real>, h: nat)
    requires Diagonalises(m.order, N, V, tau) && h < m.order
    ensures Moments(m, V, tau)(h) == m.sqc * RowDots(m.order, EntryOf(V), Entries(Row(N, 0)))(h)
  {
    ImageAt(m.order, N, V, h);
    hide Dot, Apply, Vr, RowDots;
    MomentAt(m, V, tau, h);
    hide Moments;
    var x, a := Vr(V, h, 0), Apply(m.order, N, Row(V, h), 0);
    assert a == tau[h] * x;
    SameProducts(m.sqc, At(tau, h), tau[h], x, a);
  }

  lemma ImageAt(n: nat, N: Matrix, V: Matrix, h: nat)
    ensures RowDots(n, EntryOf(V), Entries(Row(N, 0)))(h) == Apply(n, N, Row(V, h), 0)
  {
    hide Dot;
    var z := Entries(Row(N, 0));
    DotCommutes(n, z, Entries(Row(V, h)));
    DotCong(n, RowOf(EntryOf(V), h), z, Entries(Row(V, h)), z);
  }

  lemma MomentAt(m: Model, V: Matrix, tau: seq<real>, h: int)
    ensures Moments(m, V, tau)(h) == m.sqc * (At(tau, h) * Vr(V, h, 0))
  {
    Substitute(At(tau, h), Weight(m, V)(h), m.sqc, Vr(V, h, 0));
  }

  lemma Substitute(t: real, w: real, s: real, x: real)
    requires w == s * x
    ensures t * w == s * (t * x)
  {}

  lemma SameProducts(s: real, t: real, u: real, x: real, a: real)
    requires t == u && a == u * x
    ensures s * (t * x) == s * a
  {}

  lemma Exchange(x: real, a: real, y: real)
    ensures x * (a * y) == a * (x * y)
  {}

  // Column i of V against the images: column i of N.
  lemma ImageColumn(m: Model, N: Matrix, V: Matrix, tau: seq<real>, i: nat)
    requires Diagonalises(m.order, N, V, tau) && ColumnsOrthonormal(m.order, V) && i < m.order
    ensures ColumnDots(m.order, EntryOf(V), Moments(m, V, tau))(i) == m.sqc * At(Row(N, 0), i)
  {
    hide Diagonalises, ColumnsOrthonormal, Row, Moments, Sum, Vr;
    var n, A, z := m.order, EntryOf(V), Entries(Row(N, 0));
    var col, im := ColumnOf(A, i), RowDots(n, A, z);
    forall h | 0 <= h < n ensures col(h) * Moments(m, V, tau)(h) == m.sqc * (col(h) * im(h)) {
      MomentsAreImages(m, N, V, tau, h);
      Exchange(col(h), m.sqc, im(h));
    }
    SumScale(n, m.sqc, h => col(h) * im(h), h => col(h) * Moments(m, V, tau)(h));
    SumBilinear(n, n, col, A, z);
    UnitColumns(n, V, i, z);
  }

  lemma UnitColumns(n: nat, V: Matrix, i: nat, z: int -> real)
    requires ColumnsOrthonormal(n, V) && i < n
    ensures Dot(n, z, ColumnDots(n, EntryOf(V), ColumnOf(EntryOf(V), i))) == z(i)
  {
    var t, f := ColumnDots(n, EntryOf(V), ColumnOf(EntryOf(V), i)), (b: int) => if b == i then z(i) else 0.0;
    forall b | 0 <= b < n ensures z(b) * t(b) == f(b) {
      SumCong(n, h => ColumnOf(EntryOf(V), b)(h) * ColumnOf(EntryOf(V), i)(h), ColumnTerm(V, b, i));
      assert t(b) == Unit(b, i);
    }
    SumCong(n, b => z(b) * t(b), f);
    SumSingle(n, f, i);
  }

  lemma MomentDot(m: Model, V: Matrix, tau: seq<real>, j: nat)
    ensures Dot(m.order, Entries(tau), Residue(m, V, j)) == Dot(m.order, Moments(m, V, tau), Mode(m, V, j))
  {
    hide Weight, Mode, At, Sum;
    var x, im := Moments(m, V, tau), Mode(m, V, j);
    forall h ensures Entries(tau)(h) * Residue(m, V, j)(h) == x(h) * im(h) {
      Associate(At(tau, h), Weight(m, V)(h), im(h));
    }
    SumCong(m.order, h => Entries(tau)(h) * Residue(m, V, j)(h), h => x(h) * im(h));
  }

  lemma ImagesDot(m: Model, N: Matrix, V: Matrix, tau: seq<real>, y: int -> real)
    requires Diagonalises(m.order, N, V, tau) && Orthogonal(m.order, V)
    ensures Dot(m.order, y, ColumnDots(m.order, EntryOf(V), Moments(m, V, tau)))
         == m.sqc * Dot(m.order, Entries(Row(N, 0)), y)
  {
    hide Diagonalises, RowsOrthonormal, ColumnsOrthonormal, Row, ColumnDots, Moments, Sum;
    var t, z := ColumnDots(m.order, EntryOf(V), Moments(m, V, tau)), Entries(Row(N, 0));
    forall i | 0 <= i < m.order ensures y(i) * t(i) == m.sqc * (z(i) * y(i)) {
      ImageColumn(m, N, V, tau, i);
      Exchange(y(i), m.sqc, z(i));
    }
    SumScale(m.order, m.sqc, i => z(i) * y(i), i => y(i) * t(i));
  }

  // The residues weighted with the time constants: the first row of N at terminal j.
  lemma MeanDelay(m: Model, N: Matrix, V: Matrix, tau: seq<real>, j: nat)
    requires Diagonalises(m.order, N, V, tau) && Orthogonal(m.order, V)
    ensures Dot(m.order, Entries(tau), Residue(m, V, j)) == m.sqc * Dot(m.order, Entries(Row(N, 0)), Column(m.U, j))
  {
    hide Diagonalises, Orthogonal, Dot, Residue, Row, Column, RowDots, ColumnDots, Moments;
    MomentDot(m, V, tau, j);
    SumBilinear(m.order, m.order, Moments(m, V, tau), EntryOf(V), Column(m.U, j));
    ImagesDot(m, N, V, tau, Column(m.U, j));
  }

  ghost function Size(y: int -> real): int -> real {
    i => Abs(y(i))
  }

  lemma {:induction false} DotNear(n: nat, z: int -> real, z0: int -> real, y: int -> real, eps: real)
    requires forall i :: 0 <= i < n ==> Abs(z(i) - z0(i)) <= eps
    ensures Abs(Dot(n, z, y) - Dot(n, z0, y)) <= Times(eps, Sum(n, Size(y)))
  {
    if n > 0 {
      hide Dot, Sum, Size, Abs, Times;
      DotNear(n - 1, z, z0, y, eps);
      TermNear(z(n - 1), z0(n - 1), y(n - 1), eps);
      DotTimes(n - 1, z, y);
      DotTimes(n - 1, z0, y);
      SizeStep(n - 1, y);
      NearStep(Dot(n - 1, z, y), Dot(n - 1, z0, y), Times(z(n - 1), y(n - 1)), Times(z0(n - 1), y(n - 1)),
               eps, Sum(n - 1, Size(y)), Abs(y(n - 1)), Sum(n, Size(y)));
    }
  }

  lemma SizeStep(n: nat, y: int -> real)
    ensures Sum(n + 1, Size(y)) == Sum(n, Size(y)) + Abs(y(n))
  {}

  lemma NearStep(p: real, q: real, x: real, x0: real, eps: real, b: real, y: real, t: real)
    requires Abs(p - q) <= Times(eps, b) && Abs(x - x0) <= Times(eps, y) && t == b + y
    ensures Abs(p + x - (q + x0)) <= Times(eps, t)
  {
    assert eps * t == eps * b + eps * y;
  }

  lemma TermNear(z: real, z0: real, y: real, eps: real)
    requires Abs(z - z0) <= eps
    ensures Abs(Times(z, y) - Times(z0, y)) <= Times(eps, Abs(y))
  {
    NonNegProduct(eps - (z - z0), Abs(y));
    NonNegProduct(eps + (z - z0), Abs(y));
    var t := (z - z0) * y;
    assert t == z * y - z0 * y;
    if y < 0.0 { assert (z - z0) * (-y) == -t; }
  }

  // The first row of the matrix that the solver is given, at terminal j.
  lemma GivenRow(m: Model, rdrive: real, j: nat)
    requires Shaped(m) && j < m.n
    ensures Dot(m.order, Entries(Row(GivenMatrix(m.order, DrivenD(m, rdrive), m.e), 0)), Column(m.U, j))
         == (m.d[0] + DriveDelay(m, rdrive)) * m.U[0][j] + (if m.order > 1 then m.e[0] * m.U[1][j] else 0.0)
  {
    var n, y := m.order, Column(m.U, j);
    var z := Entries(Row(GivenMatrix(n, DrivenD(m, rdrive), m.e), 0));
    assert z(0) == m.d[0] + DriveDelay(m, rdrive) && (n > 1 ==> z(1) == m.e[0]);
    forall i | 2 <= i < n ensures z(i) == 0.0 {}
    FirstTwo(n, z, y);
  }

  lemma {:induction false} FirstTwo(n: nat, z: int -> real, y: int -> real)
    requires n > 0 && forall i :: 2 <= i < n ==> z(i) == 0.0
    ensures Dot(n, z, y) == z(0) * y(0) + (if n > 1 then z(1) * y(1) else 0.0)
  {
    if n > 2 {
      FirstTwo(n - 1, z, y);
      assert z(n - 1) * y(n - 1) == 0.0;
    }
  }

  // What dropping negligible couplings may have cost terminal j.
  ghost function Tolerance(m: Model, j: nat): real {
    m.sqc * ((m.order - 1) as real * 2e-18 * Sum(m.order, Size(Column(m.U, j))))
  }

  // The mean of the time constants, weighted with the residues of terminal j, is the
  // Elmore delay there in the tree behind the driver's resistance, but for what dropping
  // negligible couplings may have cost.
  lemma MeanDelayIsElmore(m: Model, rdrive: real, N: Matrix, V: Matrix, tau: seq<real>, j: nat,
                          par: seq<int>, r: seq<real>, c: seq<real>, out: seq<int>, us: seq<seq<real>>)
    requires Reduces(m, par, r, c, out, us) && m.order >= 2 && j < m.n
    requires Solved(m.order, DrivenD(m, rdrive), m.e, N, V, tau) && Orthogonal(m.order, V)
    ensures Abs(Dot(m.order, Entries(tau), Residue(m, V, j)) - DrivenDelay(par, r, c, rdrive, out[j]))
         <= Tolerance(m, j)
  {
    hide Solved, Orthogonal, Residue, Dot, Tolerance, DrivenDelay, ReducedModel;
    MeanDelayNear(m, rdrive, N, V, tau, j, par, r, c, out, us);
    DrivenElmoreExact(m, rdrive, j, par, r, c, out, us);
  }

  // At order 1 it is the capacitance-weighted mean of those delays.
  lemma MeanDelayOfOrderOne(m: Model, rdrive: real, N: Matrix, V: Matrix, tau: seq<real>, j: nat,
                            par: seq<int>, r: seq<real>, c: seq<real>, out: seq<int>, us: seq<seq<real>>)
    requires Reduces(m, par, r, c, out, us) && m.order == 1 && j < m.n
    requires Solved(m.order, DrivenD(m, rdrive), m.e, N, V, tau) && Orthogonal(m.order, V)
    ensures Dot(m.order, Entries(tau), Residue(m, V, j)) * m.ctot == Sum(|par|, DrivenWeighted(par, r, c, rdrive))
  {
    hide Solved, Orthogonal, Residue, Dot, DrivenDelay, ReducedModel, Sum, Size, Tree;
    MeanDelayNear(m, rdrive, N, V, tau, j, par, r, c, out, us);
    NoTolerance(m, j);
    DrivenFirstIsMean(m, rdrive, par, r, c, out, us);
    assert Elmore(m, j) + DriveDelay(m, rdrive) == DrivenD(m, rdrive)[0];
  }

  lemma NoTolerance(m: Model, j: nat)
    requires m.order == 1
    ensures Tolerance(m, j) == 0.0
  {
    hide Sum, Size;
    var x := Sum(m.order, Size(Column(m.U, j)));
    assert (m.order - 1) as real == 0.0 && 0.0 * 2e-18 * x == 0.0 && m.sqc * 0.0 == 0.0;
  }

  // From order 2 on the model and the driver's share have the exact delay of the driven
  // tree at every terminal.
  lemma DrivenElmoreExact(m: Model, rdrive: real, j: nat, par: seq<int>, r: seq<real>, c: seq<real>, out: seq<int>,
                          us: seq<seq<real>>)
    requires Reduces(m, par, r, c, out, us) && m.order >= 2 && j < m.n
    ensures Elmore(m, j) + DriveDelay(m, rdrive) == DrivenDelay(par, r, c, rdrive, out[j])
  {
    hide ReducedModel, ElmoreDelay, DrivenDelay, Sum, Tree, Elmore;
    ElmoreExact(m, par, r, c, out, us, j);
    DrivenDelayIs(par, r, c, rdrive, out[j]);
  }

  // At any order the first entry that the solver is given is their weighted mean.
  lemma DrivenFirstIsMean(m: Model, rdrive: real, par: seq<int>, r: seq<real>, c: seq<real>, out: seq<int>,
                          us: seq<seq<real>>)
    requires Reduces(m, par, r, c, out, us)
    ensures DrivenD(m, rdrive)[0] * m.ctot == Sum(|par|, DrivenWeighted(par, r, c, rdrive))
  {
    hide ReducedModel, WeightedDelay, DrivenWeighted, Sum, Tree;
    FirstDiagonalIsMean(m, par, r, c, out, us);
    DrivenSum(par, r, c, rdrive);
    assert (m.d[0] + rdrive * m.ctot) * m.ctot == m.d[0] * m.ctot + rdrive * m.ctot * m.ctot;
  }

  lemma MeanDelayNear(m: Model, rdrive: real, N: Matrix, V: Matrix, tau: seq<real>, j: nat,
                      par: seq<int>, r: seq<real>, c: seq<real>, out: seq<int>, us: seq<seq<real>>)
    requires Reduces(m, par, r, c, out, us) && j < m.n
    requires Solved(m.order, DrivenD(m, rdrive), m.e, N, V, tau) && Orthogonal(m.order, V)
    ensures Abs(Dot(m.order, Entries(tau), Residue(m, V, j)) - (Elmore(m, j) + DriveDelay(m, rdrive)))
         <= Tolerance(m, j)
  {
    hide ReducedModel, Orthogonal, Diagonalises, Residue, Column, GivenMatrix, Row, Dot, Sum, Size, Elmore;
    var n, M, eps := m.order, GivenMatrix(m.order, DrivenD(m, rdrive), m.e), (m.order - 1) as real * (2.0 * TOLERANCE);
    var z, z0, y := Entries(Row(N, 0)), Entries(Row(M, 0)), Column(m.U, j);
    MeanDelay(m, N, V, tau, j);
    FirstRowNear(n, N, M, eps);
    DotNear(n, z, z0, y, eps);
    GivenRow(m, rdrive, j);
    DrivenElmore(m, rdrive, j, par, r, c, out, us);
    ScaledNear(m.sqc, Dot(n, z, y), Dot(n, z0, y), eps * Sum(n, Size(y)));
  }

  lemma FirstRowNear(n: nat, N: Matrix, M: Matrix, eps: real)
    requires n > 0 && Near(n, N, M, eps)
    ensures forall i :: 0 <= i < n ==> Abs(Entries(Row(N, 0))(i) - Entries(Row(M, 0))(i)) <= eps
  {}

  lemma ScaledNear(s: real, x: real, y: real, b: real)
    requires s > 0.0 && Abs(x - y) <= b
    ensures Abs(s * x - s * y) <= s * b
  {
    NonNegProduct(s, b - (x - y));
    NonNegProduct(s, b + (x - y));
    assert s * (x - y) == s * x - s * y;
  }

  lemma DrivenElmore(m: Model, rdrive: real, j: nat, par: seq<int>, r: seq<real>, c: seq<real>, out: seq<int>,
                     us: seq<seq<real>>)
    requires Reduces(m, par, r, c, out, us) && j < m.n
    ensures m.sqc * ((m.d[0] + DriveDelay(m, rdrive)) * m.U[0][j] + (if m.order > 1 then m.e[0] * m.U[1][j] else 0.0))
         == Elmore(m, j) + DriveDelay(m, rdrive)
  {
    hide ReducedModel, Sum, Tree;
    assert m.U[0][j] == At(us[0], out[j]) && m.U[0][0] == At(us[0], out[0]);
    var a := 1.0 / m.sqc;
    assert m.U[0][j] == a && m.U[0][0] == a && m.sqc * a == 1.0;
    assert 1.0 / a == m.sqc;
    DrivenTerms(m.sqc, a, m.d[0] + DriveDelay(m, rdrive), if m.order > 1 then m.e[0] * m.U[1][j] else 0.0);
  }

  lemma DrivenTerms(s: real, a: real, x: real, y: real)
    requires s * a == 1.0
    ensures s * (x * a + y) == x + y * s
  {
    assert s * (x * a) == x * (s * a);
  }

  // ---- From the network to the residues ----------------------------------------------------

  // The couplings of a reduced model do not vanish: no sweep over it breaks off.
  lemma ReducedNotSplit(m: Model, par: seq<int>, r: seq<real>, c: seq<real>, out: seq<int>, us: seq<seq<real>>)
    requires Reduces(m, par, r, c, out, us)
    ensures !SplitAbove(m.order, m.e)
  {
    hide SplitAbove, Orthonormal, ThreeTerm, Tree, Sum;
    forall k | 0 <= k < m.order - 1 ensures m.e[k] != 0.0 { assert At(m.e, k) > 0.0; }
    NonZeroNotSplit(m.order, m.e);
  }

  ghost function ResidueRow(resi: array2<real>, j: nat, n: nat): (s: seq<real>)
    requires j < resi.Length0 && n <= resi.Length1
    reads resi
    ensures |s| == n && forall h :: 0 <= h < n ==> s[h] == resi[j, h]
  {
    seq(n, h requires 0 <= h < n reads resi => resi[j, h])
  }

  // What the poles and residues of a reduced network have in common, if the
  // eigenvalues are found.
  ghost predicate Response(m: Model, work: DelayWork)
    requires work.Fits(m.order, m.n) && m.order <= MAX_SIZE
    reads work.poles, work.resi
  {
    && (forall j :: 0 <= j < m.n ==> Sum(m.order, Entries(ResidueRow(work.resi, j, m.order))) == 1.0)
    && forall i, j :: 0 <= i < j < m.order ==> 0.0 < work.poles[i] <= work.poles[j]
  }

  lemma ResponseOfReduced(m: Model, work: DelayWork, rdrive: real, tau: seq<real>, N: Matrix,
                          par: seq<int>, r: seq<real>, c: seq<real>, out: seq<int>, us: seq<seq<real>>)
    requires Reduces(m, par, r, c, out, us) && m.order <= MAX_SIZE && work.Fits(m.order, m.n)
    requires Solved(m.order, DrivenD(m, rdrive), m.e, N, Rows(work.v, m.order), tau)
    requires Orthogonal(m.order, Rows(work.v, m.order))
    requires work.poles[..] == Inverted(tau)
    requires forall j, h :: 0 <= j < m.n && 0 <= h < m.order ==>
      work.resi[j, h] == Residue(m, Rows(work.v, m.order), j)(h)
    ensures Response(m, work)
  {
    hide Sum, Residue, Reduces, Orthogonal, Diagonalises, Rows, Near;
    var V := Rows(work.v, m.order);
    PolesAscend(tau, work.poles[..]);
    forall j | 0 <= j < m.n ensures Sum(m.order, Entries(ResidueRow(work.resi, j, m.order))) == 1.0 {
      ResiduesSumToOne(m, V, j, par, r, c, out, us);
      SumCong(m.order, Entries(ResidueRow(work.resi, j, m.order)), Residue(m, V, j));
    }
  }

  // The network of a driver is reduced, and the model is solved behind the driver's
  // resistance.
  method DriverResponse(w: TsWork, x: Parasitics, k0: nat, rdrive: real, sqrt: real -> real, ghost g: Net)
    returns (m: Option<Model>, work: DelayWork, ok: bool)
    requires w.Buffers() && WellFormed(g) && g.pointN == w.pointN && |g.a| == w.edgeN && g.eV == w.eV
    requires w.from[..] == g.a && w.to[..] == g.b
    requires Describes(x, g, k0) && Connected(x, g, x.termPoint[k0]) && IsSqrt(sqrt)
    modifies w, w.from, w.to, w.visited, w.ts, w.inEdge, w.pordV, w.stackV
    ensures m.None? <==> Sum(|x.cap|, NodeCap(x)) < 1e-22
    ensures m.Some? ==> m.value.order <= MAX_SIZE && work.Fits(m.value.order, m.value.n) && (m.value.order <= 2 ==> ok)
    ensures m.Some? && ok ==> Response(m.value, work)
  {
    hide Traversed, Reduces, Sum, NodeCap, IsSqrt, Connected, WellFormed, Describes, Response, Solved, Orthogonal, Rows,
      SplitAbove, StillSimilar, Residue;
    ghost var par, r, c, out, us;
    m, par, r, c, out, us := MakeRcmodelDrv(w, x, k0, sqrt, g);
    if m.None? {
      work := new DelayWork(0, 0);
      return m, work, false;
    }
    var model := m.value;
    ReductionShape(model, par, r, c, out, us);
    work := new DelayWork(model.order, model.n);
    var d := new real[model.order](i requires 0 <= i < |model.d| => model.d[i]);
    assert d[..] == model.d;
    ghost var tau, N, E, runs, T;
    ok, tau, N, E, runs, T := work.CalculatePolesRes(model, d, rdrive, sqrt);
    if ok { ResponseOfReduced(model, work, rdrive, tau, N, par, r, c, out, us); }
  }

  lemma ReductionShape(m: Model, par: seq<int>, r: seq<real>, c: seq<real>, out: seq<int>, us: seq<seq<real>>)
    requires Reduces(m, par, r, c, out, us)
    ensures Shaped(m)
  {}
}
