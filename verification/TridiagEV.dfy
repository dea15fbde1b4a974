// The eigensolver of the reduced model: implicit QL sweeps over a symmetric
// tridiagonal matrix, the sort of the eigenvalues, and the residues.
module TridiagEV {
  import opened RealSums
  import opened Sequences
  import opened Matrices
  import opened Tridiagonal
  import opened QlSweeps

  const TOLERANCE := 1e-18   // 1e-6ps
  const MAX_ITER := 20
  const MAX_SIZE := 32

  method SetIdentity(v: array2<real>, n: nat)
    requires n <= v.Length0 && n <= v.Length1
    modifies v
    ensures Rows(v, n) == Identity(n)
  {
    for j := 0 to n
      invariant forall i, k :: 0 <= i < j && 0 <= k < n ==> v[i, k] == 0.0
    {
      for k := 0 to n
        invariant forall i, m :: 0 <= i < j && 0 <= m < n ==> v[i, m] == 0.0
        invariant forall m :: 0 <= m < k ==> v[j, m] == 0.0
      {
        v[j, k] := 0.0;
      }
    }
    for j := 0 to n
      invariant forall i, k :: 0 <= i < n && 0 <= k < n ==> v[i, k] == if i < j then Unit(i, k) else 0.0
    {
      v[j, j] := 1.0;
    }
    RowsEqual(v, n, Identity(n));
  }

  // The inner loop of a sweep: rows i-1 and i of v are rotated.
  method RotateRowsOf(v: array2<real>, n: nat, i: nat, s: real, c: real)
    requires 0 < i < n <= v.Length0 && n <= v.Length1
    modifies v
    ensures Rotated(n, old(Rows(v, n)), Rows(v, n), i, s, c)
  {
    hide Upper, Lower, Rotated;
    ghost var V := Rows(v, n);
    for k := 0 to n
      invariant forall j, m :: 0 <= j < n && 0 <= m < n && ((j != i - 1 && j != i) || m >= k) ==> v[j, m] == V[j][m]
      invariant forall m :: 0 <= m < k ==> v[i - 1, m] == Upper(V[i - 1][m], V[i][m], s, c)
      invariant forall m :: 0 <= m < k ==> v[i, m] == Lower(V[i - 1][m], V[i][m], s, c)
    {
      var f := v[i - 1, k];
      RotatedValues(f, v[i, k], s, c);
      v[i - 1, k] := s * v[i, k] + c * f;
      v[i, k] := c * v[i, k] - s * f;
    }
    RotatedFrom(n, V, Rows(v, n), i, s, c);
  }

  ghost function Upper(x: real, y: real, s: real, c: real): real {
    s * y + c * x
  }

  ghost function Lower(x: real, y: real, s: real, c: real): real {
    c * y - s * x
  }

  lemma RotatedValues(x: real, y: real, s: real, c: real)
    ensures Upper(x, y, s, c) == s * y + c * x && Lower(x, y, s, c) == c * y - s * x
  {}

  lemma RotatedFrom(n: nat, V: Matrix, V': Matrix, i: nat, s: real, c: real)
    requires 0 < i < n && Square(n, V) && Square(n, V')
    requires forall j, m :: 0 <= j < n && 0 <= m < n && j != i - 1 && j != i ==> V'[j][m] == V[j][m]
    requires forall m :: 0 <= m < n ==> V'[i - 1][m] == Upper(V[i - 1][m], V[i][m], s, c)
    requires forall m :: 0 <= m < n ==> V'[i][m] == Lower(V[i - 1][m], V[i][m], s, c)
    ensures Rotated(n, V, V', i, s, c)
  {
    forall j | 0 <= j < n && j != i - 1 && j != i ensures V'[j] == V[j] {}
  }

  // ---- One sweep -------------------------------------------------------------------

  // The band matrix in the middle of a sweep, before the rotation at i: p is the
  // shift still owed by row i-1, g couples rows i-2 and i-1, and s*e[i] is the
  // bulge. Couplings past h have been dropped.
  ghost function SweepD(d: seq<real>, i: nat, p: real): seq<real>
    requires 0 < i <= |d|
  {
    d[i - 1 := d[i - 1] - p]
  }

  ghost function SweepE(e: seq<real>, h: nat, i: nat, g: real, c: real): (E: seq<real>)
    ensures |E| == |e|
  {
    seq(|e|, m requires 0 <= m < |e| =>
      if m > h then 0.0 else if m == i - 1 then g else if m == i then Times(c, e[m]) else e[m])
  }

  ghost function SweepQ(e: seq<real>, h: nat, i: nat, s: real): (Q: seq<real>)
    ensures |Q| == |e|
  {
    seq(|e|, m requires 0 <= m < |e| => if m == i && m <= h then Times(s, e[m]) else 0.0)
  }

  // The couplings between sweeps over rows 0..h.
  ghost function Kept(e: seq<real>, h: nat): (E: seq<real>)
    ensures |E| == |e|
  {
    seq(|e|, m requires 0 <= m < |e| => if m > h then 0.0 else e[m])
  }

  ghost function Zeros(n: nat): (Q: seq<real>)
    ensures |Q| == n && forall m :: 0 <= m < n ==> Q[m] == 0.0
  {
    seq(n, m => 0.0)
  }

  // Before the first rotation the band matrix is the tridiagonal one.
  lemma SweepStart(n: nat, N: Matrix, V: Matrix, d: seq<real>, e: seq<real>, h: nat, g: real)
    requires Similar(n, N, V, d, Kept(e, h), Zeros(n)) && |e| == n && 0 < h < n
    ensures Similar(n, N, V, SweepD(d, 1, 0.0), SweepE(e, h, 1, g, 1.0), SweepQ(e, h, 1, 1.0))
  {
    assert SweepD(d, 1, 0.0) == d;
    UnusedCouplings(n, N, V, d, Kept(e, h), Zeros(n), SweepE(e, h, 1, g, 1.0), SweepQ(e, h, 1, 1.0));
  }

  // After the last rotation it is tridiagonal again.
  lemma SweepEnd(n: nat, N: Matrix, V: Matrix, d: seq<real>, e: seq<real>, h: nat, p: real, g: real, s: real, c: real)
    requires |d| == |e| == n && 0 < h < n
    requires Similar(n, N, V, SweepD(d, h + 1, p), SweepE(e, h, h + 1, g, c), SweepQ(e, h, h + 1, s))
    ensures Similar(n, N, V, d[h := d[h] - p], Kept(e[h := g][0 := 0.0], h), Zeros(n))
  {
    UnusedCouplings(n, N, V, SweepD(d, h + 1, p), SweepE(e, h, h + 1, g, c), SweepQ(e, h, h + 1, s),
                    Kept(e[h := g][0 := 0.0], h), Zeros(n));
  }

  // One rotation: the arrays move from position i to position i+1. f is the
  // bulge, b the coupling below it, r what the two leave in its place.
  lemma SweepStep(n: nat, d: seq<real>, e: seq<real>, h: nat, i: nat, p: real, g: real, s: real, c: real,
                  r: real, s': real, c': real, d': seq<real>, e': seq<real>, p': real, g': real)
    requires |d| == |e| == n && 0 < i <= h < n
    requires var f := Times(s, e[i]);
      Times(c', f) == Times(s', g) && (i > 1 ==> r == Times(s', f) + Times(c', g))
    requires var R := Increment(d[i - 1] - p, d[i], Times(c, e[i]), s', c');
      && p' == Times(s', R) && d' == d[i - 1 := d[i - 1] - p + p'] && e' == e[i - 1 := r]
      && g' == Times(c', R) - Times(c, e[i])
    ensures var D, E, Q := SweepD(d, i, p), SweepE(e, h, i, g, c), SweepQ(e, h, i, s);
      && OnlyBulge(Q, i) && Annihilates(E, Q, i, s', c')
      && Chased(D, E, Q, SweepD(d', i + 1, p'), SweepE(e', h, i + 1, g', c'), SweepQ(e', h, i + 1, s'), i, s', c', n)
  {
    TimesZero(s');
    TimesZero(c');
    hide Times, Increment;
  }

  lemma Quotients(f: real, g: real, r: real, s: real, c: real)
    requires r != 0.0 && s == f / r && c == g / r && r * r == f * f + g * g
    ensures Times(c, f) == Times(s, g) && Times(s, f) + Times(c, g) == r && c * c + s * s == 1.0
  {
    Quotient(f, r, s);
    Quotient(g, r, c);
    Crossed(r, s, c, f, g);
    Collected(r, s, c, f, g);
    UnitLength(r, s, c, f, g);
  }

  lemma Crossed(r: real, s: real, c: real, f: real, g: real)
    requires s * r == f && c * r == g
    ensures c * f == s * g
  {
    assert c * (s * r) == s * (c * r);
  }

  lemma Collected(r: real, s: real, c: real, f: real, g: real)
    requires r != 0.0 && s * r == f && c * r == g && r * r == f * f + g * g
    ensures s * f + c * g == r
  {
    Moved(r, s, f);
    Moved(r, c, g);
    Sum2(r, s * f, c * g);
    CancelFactor(r, s * f + c * g, r);
  }

  lemma Moved(r: real, s: real, f: real)
    requires s * r == f
    ensures r * (s * f) == f * f
  {
    assert r * (s * f) == (s * r) * f;
  }

  lemma Sum2(r: real, x: real, y: real)
    ensures r * (x + y) == r * x + r * y
  {}

  lemma UnitLength(r: real, s: real, c: real, f: real, g: real)
    requires r != 0.0 && s * r == f && c * r == g && r * r == f * f + g * g
    ensures c * c + s * s == 1.0
  {
    SquareMoved(r, s, f);
    SquareMoved(r, c, g);
    Sum2(r * r, c * c, s * s);
    SquareZero(r);
    CancelFactor(r * r, c * c + s * s, 1.0);
  }

  lemma SquareMoved(r: real, s: real, f: real)
    requires s * r == f
    ensures (r * r) * (s * s) == f * f
  {
    assert (r * r) * (s * s) == (s * r) * (s * r);
  }

  // What every part of the solver keeps, whether or not it has broken off.
  ghost predicate Sound(n: nat, d: seq<real>, V: Matrix, trace: real) {
    |d| == n && Orthogonal(n, V) && Sum(n, Entries(d)) == trace
  }

  // A coupling strictly between rows 0 and h has vanished.
  ghost predicate Stuck(e: seq<real>, h: nat) {
    exists j :: 1 <= j < h && j < |e| && e[j] == 0.0
  }

  // In the middle of a sweep over rows 0..h.
  ghost predicate InSweep(n: nat, N: Matrix, d: seq<real>, e: seq<real>, V: Matrix, h: nat, i: nat,
                          p: real, g: real, s: real, c: real)
  {
    0 < i <= h + 1 <= n && |d| == |e| == n
    && Similar(n, N, V, SweepD(d, i, p), SweepE(e, h, i, g, c), SweepQ(e, h, i, s))
  }

  // Once the coupling z has vanished, the rotation after it has nothing to turn.
  ghost predicate StuckAt(e: seq<real>, h: nat, z: nat, i: nat, s: real, g: real) {
    z > 0 ==> z < h < |e| && e[z] == 0.0 && i <= z + 1 && (i == z + 1 ==> s == 0.0 && g == 0.0)
  }

  // In the middle of a sweep: the rows are orthonormal and the trace is kept; the
  // similarity holds unless the sweep started `!good`; z is a vanished coupling,
  // or 0.
  ghost predicate MidSweep(n: nat, N: Matrix, d: seq<real>, e: seq<real>, V: Matrix, h: nat, i: nat,
                           p: real, g: real, s: real, c: real, good: bool, z: nat, trace: real)
  {
    && |d| == |e| == n && 0 < i <= h + 1 <= n
    && Orthogonal(n, V) && Sum(n, Entries(SweepD(d, i, p))) == trace
    && (good ==> InSweep(n, N, d, e, V, h, i, p, g, s, c))
    && StuckAt(e, h, z, i, s, g)
  }

  // The rotation at i of a sweep. It does nothing if there is nothing to rotate.
  method RotateAt(n: nat, d: array<real>, e: array<real>, v: array2<real>, h: nat, i: nat,
                  p: real, g: real, s: real, c: real, sqrt: real -> real,
                  ghost N: Matrix, ghost good: bool, ghost z: nat, ghost trace: real)
    returns (r: real, p': real, g': real, s': real, c': real)
    requires IsSqrt(sqrt) && d != e && d.Length == e.Length == n <= v.Length0 && n <= v.Length1 && 0 < i <= h < n
    requires MidSweep(n, N, d[..], e[..], Rows(v, n), h, i, p, g, s, c, good, z, trace)
    modifies d, e, v
    ensures e[..] == old(e[..])[i - 1 := r]
    ensures r == 0.0 ==> s * old(e[i]) == 0.0 && g == 0.0 && d[..] == old(d[..]) && Rows(v, n) == old(Rows(v, n))
    ensures r != 0.0 ==> MidSweep(n, N, d[..], e[..], Rows(v, n), h, i + 1, p', g', s', c', good, z, trace)
    ensures r != 0.0 ==>
      Turned(n, i, Mid(State(old(d[..]), old(e[..]), old(Rows(v, n))), p, g, s, c),
             Mid(State(d[..], e[..], Rows(v, n)), p', g', s', c'))
  {
    hide MidSweep, Rotated, Rows, IsSqrt;
    ghost var d0, e0, V0 := d[..], e[..], Rows(v, n);
    var f := s * e[i];
    var b := c * e[i];
    r := sqrt(f * f + g * g);
    SqrtFacts(sqrt, f, g, r);
    e[i - 1] := r;
    p', g', s', c' := p, g, s, c;
    if r == 0.0 { return; }
    s' := f / r;
    c' := g / r;
    g' := d[i - 1] - p;
    var R := (d[i] - g') * s' + 2.0 * c' * b;
    p' := s' * R;
    d[i - 1] := g' + p';
    g' := c' * R - b;
    RotateRowsOf(v, n, i, s', c');
    RotationStep(n, N, d0, e0, V0, h, i, p, g, s, c, r, s', c', d[..], e[..], Rows(v, n), p', g', good, z, trace);
  }

  lemma RotationStep(n: nat, N: Matrix, d: seq<real>, e: seq<real>, V: Matrix, h: nat, i: nat, p: real, g: real,
                     s: real, c: real,
                     r: real, s': real, c': real, d': seq<real>, e': seq<real>, V': Matrix, p': real, g': real,
                     good: bool, z: nat, trace: real)
    requires |d| == |e| == n && 0 < i <= h < n && Rotation(d, e, i, p, g, s, c, r, s', c', p', g')
    requires d' == d[i - 1 := d[i - 1] - p + p'] && e' == e[i - 1 := r] && Rotated(n, V, V', i, s', c')
    requires MidSweep(n, N, d, e, V, h, i, p, g, s, c, good, z, trace)
    ensures MidSweep(n, N, d', e', V', h, i + 1, p', g', s', c', good, z, trace)
  {
    hide Rotation, Rotated, InSweep, StuckAt, Orthogonal, Sum, SweepD;
    RotationKeeps(n, d, e, V, h, i, p, g, s, c, r, s', c', d', e', V', p', g', trace);
    if good { RotationSimilar(n, N, d, e, V, h, i, p, g, s, c, r, s', c', d', e', V', p', g'); }
    RotationStuck(n, d, e, h, z, i, p, g, s, c, r, s', c', p', g', e');
  }

  lemma SqrtFacts(sqrt: real -> real, f: real, g: real, r: real)
    requires IsSqrt(sqrt) && r == sqrt(f * f + g * g)
    ensures r * r == f * f + g * g && r >= 0.0
    ensures r == 0.0 ==> f == 0.0 && g == 0.0
  {
    SquareNonNeg(f);
    SquareNonNeg(g);
    HypotenuseZero(f, g, r);
  }

  // The values of a rotation as the terms of the band matrix.
  lemma RotationTerms(d: seq<real>, e: seq<real>, i: nat, p: real, g: real, s: real, c: real, r: real,
                      s': real, c': real, p': real, g': real)
    requires Rotation(d, e, i, p, g, s, c, r, s', c', p', g')
    ensures c' * c' + s' * s' == 1.0
    ensures var f := Times(s, e[i]); Times(c', f) == Times(s', g) && r == Times(s', f) + Times(c', g)
    ensures var R := Increment(d[i - 1] - p, d[i], Times(c, e[i]), s', c');
      p' == Times(s', R) && g' == Times(c', R) - Times(c, e[i])
  {
    Quotients(s * e[i], g, r, s', c');
  }

  lemma RotationKeeps(n: nat, d: seq<real>, e: seq<real>, V: Matrix, h: nat, i: nat, p: real, g: real, s: real, c: real,
                      r: real, s': real, c': real, d': seq<real>, e': seq<real>, V': Matrix,
                      p': real, g': real, trace: real)
    requires |d| == |e| == n && 0 < i <= h < n && Rotation(d, e, i, p, g, s, c, r, s', c', p', g')
    requires d' == d[i - 1 := d[i - 1] - p + p'] && e' == e[i - 1 := r] && Rotated(n, V, V', i, s', c')
    requires Orthogonal(n, V) && Sum(n, Entries(SweepD(d, i, p))) == trace
    ensures Orthogonal(n, V') && Sum(n, Entries(SweepD(d', i + 1, p'))) == trace
  {
    RotationTerms(d, e, i, p, g, s, c, r, s', c', p', g');
    hide Rotation, Times, Increment, Sum, SweepD, SweepE, SweepQ, RowsOrthonormal, ColumnsOrthonormal, Chased;
    SweepStep(n, d, e, h, i, p, g, s, c, r, s', c', d', e', p', g');
    ChasedTrace(SweepD(d, i, p), SweepE(e, h, i, g, c), SweepQ(e, h, i, s),
                SweepD(d', i + 1, p'), SweepE(e', h, i + 1, g', c'), SweepQ(e', h, i + 1, s'), i, s', c', n);
    RotateRows(n, V, V', i, s', c');
    RotateColumns(n, V, V', i, s', c');
  }

  lemma RotationSimilar(n: nat, N: Matrix, d: seq<real>, e: seq<real>, V: Matrix, h: nat, i: nat, p: real, g: real,
                        s: real, c: real,
                        r: real, s': real, c': real, d': seq<real>, e': seq<real>, V': Matrix, p': real, g': real)
    requires |d| == |e| == n && 0 < i <= h < n && Rotation(d, e, i, p, g, s, c, r, s', c', p', g')
    requires d' == d[i - 1 := d[i - 1] - p + p'] && e' == e[i - 1 := r] && Rotated(n, V, V', i, s', c')
    requires InSweep(n, N, d, e, V, h, i, p, g, s, c)
    ensures InSweep(n, N, d', e', V', h, i + 1, p', g', s', c')
  {
    RotationTerms(d, e, i, p, g, s, c, r, s', c', p', g');
    hide Rotation, Times, Increment, SweepD, SweepE, SweepQ, Similar, Rotated, Chased, OnlyBulge, Annihilates;
    SweepStep(n, d, e, h, i, p, g, s, c, r, s', c', d', e', p', g');
    ChaseKeepsSimilar(n, N, V, V', SweepD(d, i, p), SweepE(e, h, i, g, c), SweepQ(e, h, i, s),
                      SweepD(d', i + 1, p'), SweepE(e', h, i + 1, g', c'), SweepQ(e', h, i + 1, s'), i, s', c');
  }

  // A rotation at a vanished coupling leaves nothing to turn at the next one.
  lemma RotationStuck(n: nat, d: seq<real>, e: seq<real>, h: nat, z: nat, i: nat, p: real, g: real, s: real, c: real,
                      r: real, s': real, c': real, p': real, g': real, e': seq<real>)
    requires |d| == |e| == n && 0 < i <= h < n && Rotation(d, e, i, p, g, s, c, r, s', c', p', g')
    requires e' == e[i - 1 := r] && StuckAt(e, h, z, i, s, g)
    ensures StuckAt(e', h, z, i + 1, s', g')
  {
    if z > 0 && i == z + 1 {
      HypotenuseZero(s * e[i], g, r);
    } else if z > 0 && i == z {
      VanishedCoupling(d[i] - (d[i - 1] - p), s, c, g, r, s', c', g');
    }
  }

  lemma VanishedCoupling(x: real, s: real, c: real, g: real, r: real, s': real, c': real, g': real)
    requires r != 0.0 && s' == s * 0.0 / r && c' == g / r && g' == c' * (x * s' + 2.0 * c' * (c * 0.0)) - c * 0.0
    ensures s' == 0.0 && g' == 0.0
  {
    assert s * 0.0 == 0.0 && c * 0.0 == 0.0;
    assert 2.0 * c' * 0.0 == 0.0 && x * 0.0 == 0.0;
  }

  // ---- A whole sweep ---------------------------------------------------------------

  // Between sweeps over rows 0..h: the rows are orthonormal and the trace is kept;
  // unless a sweep has broken off, N is similar to the tridiagonal matrix in d
  // and e.
  ghost predicate Between(n: nat, N: Matrix, d: seq<real>, e: seq<real>, V: Matrix, h: nat, good: bool, trace: real) {
    Sound(n, d, V, trace) && |e| == n && (good ==> Similar(n, N, V, d, Kept(e, h), Zeros(n)))
  }

  lemma SweepBegins(n: nat, N: Matrix, d: seq<real>, e: seq<real>, V: Matrix, h: nat, g: real, good: bool, z: nat,
                    trace: real)
    requires Between(n, N, d, e, V, h, good, trace) && 0 < h < n && (z > 0 ==> z < h && e[z] == 0.0)
    ensures MidSweep(n, N, d, e, V, h, 1, 0.0, g, 1.0, 1.0, good, z, trace)
  {
    hide Similar, Orthogonal, Sum, SweepE, SweepQ, Kept;
    assert SweepD(d, 1, 0.0) == d;
    if good { SweepStart(n, N, V, d, e, h, g); }
  }

  lemma SweepFinishes(n: nat, N: Matrix, d: seq<real>, e: seq<real>, V: Matrix, h: nat, p: real, g: real, s: real,
                      c: real,
                      good: bool, z: nat, trace: real)
    requires MidSweep(n, N, d, e, V, h, h + 1, p, g, s, c, good, z, trace) && 0 < h < n
    ensures Between(n, N, d[h := d[h] - p], e[h := g][0 := 0.0], V, h, good, trace) && z == 0
  {
    hide Similar, Orthogonal, Sum, SweepE, SweepQ, Kept;
    assert SweepD(d, h + 1, p) == d[h := d[h] - p];
    if good { SweepEnd(n, N, V, d, e, h, p, g, s, c); }
  }

  // A sweep that breaks off leaves a vanished coupling behind.
  lemma SweepBreaks(n: nat, N: Matrix, d: seq<real>, e: seq<real>, V: Matrix, h: nat, i: nat, p: real, g: real, s: real,
                    c: real,
                    good: bool, z: nat, trace: real)
    requires MidSweep(n, N, d, e, V, h, i, p, g, s, c, good, z, trace) && 0 < i <= h < n
    requires s * e[i] == 0.0 && (i == 1 ==> s == 1.0) && e[h] != 0.0
    ensures var e' := e[i - 1 := 0.0][0 := 0.0];
      Between(n, N, d[i - 1 := d[i - 1] - p], e', V, h, false, trace) && Stuck(e', h) && e'[h] == e[h]
  {
    hide Similar, Orthogonal, Sum, InSweep;
    var e' := e[i - 1 := 0.0][0 := 0.0];
    assert SweepD(d, i, p) == d[i - 1 := d[i - 1] - p];
    var j := if i == 1 then 1 else i - 1;
    assert e'[j] == 0.0;
  }

  // The first value of g: the shift of the implicit QL step, seen from row 0.
  method Shift(d0: real, dl: real, dh: real, eh: real, sqrt: real -> real) returns (g: real)
    requires IsSqrt(sqrt) && eh != 0.0
    ensures ShiftAt(g, d0, dl, dh, eh)
  {
    hide IsSqrt, ShiftAt;
    g := (dl - dh) / (2.0 * eh);
    ghost var x := g;
    var r := sqrt(1.0 + g * g);
    RootAboveOne(sqrt, g, r);
    var t := g + (if g < 0.0 then -r else r);
    g := d0 - dh + eh / t;
    ShiftIs(d0, dl, dh, eh, x, r, t, g);
  }

  // On two rows it is an eigenvalue of the matrix, seen from the upper row.
  ghost predicate IsShift(g: real, x: real, e: real) {
    g * g == g * x + e * e
  }

  lemma ShiftOfTwoRows(g: real, dl: real, dh: real, e: real)
    requires ShiftAt(g, dl, dl, dh, e)
    ensures IsShift(g, dl - dh, e)
  {
    assert (dl - g - dl) * (dl - g - dh) == g * g - g * (dl - dh);
  }

  lemma ShiftIs(d0: real, dl: real, dh: real, e: real, x: real, r: real, t: real, g: real)
    requires e != 0.0 && x == (dl - dh) / (2.0 * e) && r >= 0.0 && r * r == 1.0 + x * x
    requires t == (if x < 0.0 then x - r else x + r) && t != 0.0 && g == d0 - dh + e / t
    ensures ShiftAt(g, d0, dl, dh, e)
  {
    var y, q, sigma := dl - dh, e / t, d0 - g;
    assert t * t == 2.0 * (x * t) + 1.0 by {
      assert (t - x) * (t - x) == r * r;
    }
    Quotient(y, 2.0 * e, x);
    Quotient(e, t, q);
    ShiftQuotient(x, t, y, e, q);
    assert sigma - dh == -q && sigma - dl == -(e * t);
    ShiftProduct(q, e, t);
    AtLeastOne(x, r);
    NoGreater(q, e, t);
    if dl == dh {
      assert x == 0.0;
      OneRoot(r);
    }
  }

  lemma ShiftProduct(q: real, e: real, t: real)
    requires q * t == e
    ensures Times(-(e * t), -q) == Times(e, e)
  {
    assert -(e * t) * -q == e * (q * t);
  }

  lemma AtLeastOne(x: real, r: real)
    requires r >= 0.0 && r * r == 1.0 + x * x
    ensures r >= 1.0
  {
    assert Times(r, r) == 1.0 + Times(x, x) && Times(r, 1.0 - r) == r - Times(r, r);
    SquareSign(x);
    hide Times;
    if 0.0 < r < 1.0 { PosTimes(r, 1.0 - r); } else if r == 0.0 { SquareSign(r); }
  }

  lemma NoGreater(q: real, e: real, t: real)
    requires q * t == e && (t >= 1.0 || t <= -1.0)
    ensures Abs(q) <= Abs(e)
  {
    NonNegProduct(Abs(q), Abs(t) - 1.0);
    assert Abs(q) * (Abs(t) - 1.0) == Abs(q) * Abs(t) - Abs(q);
    assert Abs(q) * Abs(t) == Abs(q * t);
  }

  lemma OneRoot(r: real)
    requires r >= 1.0 && r * r == 1.0
    ensures r == 1.0
  {
    assert Times(r, r) == 1.0 && Times(r, r - 1.0) == Times(r, r) - r;
    hide Times;
    if r > 1.0 { PosTimes(r, r - 1.0); }
  }

  lemma ShiftQuotient(x: real, t: real, y: real, e: real, q: real)
    requires t != 0.0 && t * t == 2.0 * (x * t) + 1.0 && x * (2.0 * e) == y && q * t == e
    ensures y + q == e * t
  {
    assert t * (y + q) == (x * (2.0 * e)) * t + q * t;
    assert (x * (2.0 * e)) * t + e == e * (2.0 * (x * t) + 1.0);
    assert t * (e * t) == e * (t * t);
    CancelFactor(t, y + q, e * t);
  }

  // With that shift one rotation diagonalises two rows exactly.
  lemma TwoRows(d: seq<real>, e: seq<real>, g: real, r: real, s': real, c': real, p': real, g': real)
    requires |d| > 1 && Rotation(d, e, 1, 0.0, g, 1.0, 1.0, r, s', c', p', g') && IsShift(g, d[0] - d[1], e[1])
    ensures g' == 0.0
  {
    Quotient(e[1], r, s');
    Quotient(g, r, c');
    TwoRowsCoupling(d[0] - d[1], e[1], g, r, s', c', g');
  }

  lemma TwoRowsCoupling(x: real, e: real, g: real, r: real, s: real, c: real, z: real)
    requires r != 0.0 && r * r == e * e + g * g && s * r == e && c * r == g && IsShift(g, x, e)
    requires z == c * ((-x) * s + 2.0 * c * e) - e
    ensures z == 0.0
  {
    assert (r * r) * z == (c * r) * ((-x) * (s * r) + 2.0 * (c * r) * e) - e * (r * r);
    assert g * ((-x) * e + 2.0 * g * e) - e * (e * e + g * g) == e * (g * g - g * x - e * e);
    assert r * (r * z) == (r * r) * z;
    CancelFactor(r, r * z, 0.0);
    CancelFactor(r, z, 0.0);
  }

  // The division by g plus or minus r in the shift is never by zero.
  lemma RootAboveOne(sqrt: real -> real, g: real, r: real)
    requires IsSqrt(sqrt) && r == sqrt(1.0 + g * g)
    ensures r >= 0.0 && r * r == 1.0 + g * g
    ensures (if g < 0.0 then g - r else g + r) != 0.0
  {
    SquareNonNeg(g);
    assert r >= 0.0 && r * r == 1.0 + g * g;
    SquareZero(r);
  }

  // One sweep over rows 0..h. It breaks off if and only if a coupling strictly
  // between has vanished; one that does not leaves none that has.
  method Sweep(n: nat, d: array<real>, e: array<real>, v: array2<real>, h: nat, sqrt: real -> real,
               ghost N: Matrix, ghost good: bool, ghost trace: real)
    returns (broke: bool, ghost ms: seq<Mid>)
    requires IsSqrt(sqrt) && d != e && d.Length == e.Length == n <= v.Length0 && n <= v.Length1 && 0 < h < n
    requires Between(n, N, d[..], e[..], Rows(v, n), h, good, trace) && e[h] != 0.0
    modifies d, e, v
    ensures Between(n, N, d[..], e[..], Rows(v, n), h, good && !broke, trace)
    ensures broke <==> old(Stuck(e[..], h))
    ensures broke <==> Stuck(e[..], h)
    ensures broke ==> e[h] == old(e[h])
    ensures h == 1 ==> e[1] == 0.0
    ensures Swept(n, h, ms, State(old(d[..]), old(e[..]), old(Rows(v, n))), State(d[..], e[..], Rows(v, n)))
  {
    hide SweepInv, Between, MidSweep, IsSqrt, Rows, Stuck, Turned, ShiftAt, Swept;
    ghost var S, z := State(d[..], e[..], Rows(v, n)), Vanished(e[..], h);
    var g := Shift(d[0], d[h - 1], d[h], e[h], sqrt);
    var s, c, p, r := 1.0, 1.0, 0.0, 0.0;
    ms := [Mid(S, p, g, s, c)];
    InvBegins(n, N, S, h, g, good, z, trace);
    var i := 1;
    while i <= h
      invariant 1 <= i <= h + 1
      invariant SweepInv(n, N, State(d[..], e[..], Rows(v, n)), h, i, p, g, s, c, good, z, trace, S, ms)
    {
      ghost var S0 := State(d[..], e[..], Rows(v, n));
      InvParts(n, N, S0, h, i, p, g, s, c, good, z, trace, S, ms);
      var p', g', s', c';
      r, p', g', s', c' := RotateAt(n, d, e, v, h, i, p, g, s, c, sqrt, N, good, z, trace);
      if r == 0.0 {
        BreakSweep(n, d, e, i, p);
        InvBreaks(n, N, S0, h, i, p, g, s, c, good, z, trace, S, ms);
        return true, ms;
      }
      ghost var S1 := State(d[..], e[..], Rows(v, n));
      InvStep(n, N, S0, S1, h, i, p, g, s, c, p', g', s', c', good, z, trace, S, ms);
      ms := ms + [Mid(S1, p', g', s', c')];
      p, g, s, c, i := p', g', s', c', i + 1;
    }
    ghost var S0 := State(d[..], e[..], Rows(v, n));
    EndSweep(n, d, e, h, p, g);
    InvEnds(n, N, S0, h, p, g, s, c, good, z, trace, S, ms);
    return false, ms;
  }

  // In the middle of a sweep that started at S, after the rotations ms.
  ghost predicate SweepInv(n: nat, N: Matrix, x: State, h: nat, i: nat, p: real, g: real, s: real, c: real,
                           good: bool, z: nat, trace: real, S: State, ms: seq<Mid>)
  {
    && MidSweep(n, N, x.d, x.e, x.V, h, i, p, g, s, c, good, z, trace) && 0 < h < n == |S.d| == |S.e|
    && |ms| == i && Turning(n, ms) && Starts(h, ms[0], S) && ms[i - 1] == Mid(x, p, g, s, c)
    && (z == 0 <==> !Stuck(S.e, h)) && (z == 0 ==> s != 0.0 && NoneVanished(x.e, h)) && S.e[h] != 0.0
    && (i == 1 ==> s == c == 1.0 && p == 0.0 && x == S) && (i <= h ==> x.e[h] == S.e[h])
    && (h == 1 ==> if i == 1 then IsShift(g, x.d[0] - x.d[1], x.e[1]) else g == 0.0)
  }

  lemma InvBegins(n: nat, N: Matrix, S: State, h: nat, g: real, good: bool, z: nat, trace: real)
    requires Between(n, N, S.d, S.e, S.V, h, good, trace) && 0 < h < n == |S.d| == |S.e| && S.e[h] != 0.0
    requires z == Vanished(S.e, h) && ShiftAt(g, S.d[0], S.d[h - 1], S.d[h], S.e[h])
    ensures SweepInv(n, N, S, h, 1, 0.0, g, 1.0, 1.0, good, z, trace, S, [Mid(S, 0.0, g, 1.0, 1.0)])
  {
    hide Between, MidSweep, ShiftAt, Starts, Turning, NoneVanished, Stuck, IsShift;
    NotStuck(S.e, h);
    SweepBegins(n, N, S.d, S.e, S.V, h, g, good, z, trace);
    NoTurn(n, [Mid(S, 0.0, g, 1.0, 1.0)]);
    Started(h, Mid(S, 0.0, g, 1.0, 1.0), S);
    if h == 1 { ShiftOfTwoRows(g, S.d[0], S.d[1], S.e[1]); }
  }

  lemma InvParts(n: nat, N: Matrix, x: State, h: nat, i: nat, p: real, g: real, s: real, c: real,
                 good: bool, z: nat, trace: real, S: State, ms: seq<Mid>)
    requires SweepInv(n, N, x, h, i, p, g, s, c, good, z, trace, S, ms)
    ensures MidSweep(n, N, x.d, x.e, x.V, h, i, p, g, s, c, good, z, trace)
  {}

  lemma InvStep(n: nat, N: Matrix, x: State, y: State, h: nat, i: nat, p: real, g: real, s: real, c: real,
                p': real, g': real, s': real, c': real, good: bool, z: nat, trace: real, S: State, ms: seq<Mid>)
    requires SweepInv(n, N, x, h, i, p, g, s, c, good, z, trace, S, ms) && 0 < i <= h
    requires Turned(n, i, Mid(x, p, g, s, c), Mid(y, p', g', s', c'))
    requires MidSweep(n, N, y.d, y.e, y.V, h, i + 1, p', g', s', c', good, z, trace)
    ensures SweepInv(n, N, y, h, i + 1, p', g', s', c', good, z, trace, S, ms + [Mid(y, p', g', s', c')])
  {
    hide MidSweep, Turned, Turning, Starts, NoneVanished, Stuck, Rotation, IsShift;
    TurningGrows(n, ms, Mid(y, p', g', s', c'));
    RotationOf(n, i, Mid(x, p, g, s, c), Mid(y, p', g', s', c'));
    var r := y.e[i - 1];
    if z == 0 {
      CouplingLeft(x.e, i, h);
      RotationTurns(x.d, x.e, i, p, g, s, c, r, s', c', p', g');
      CouplingReplaced(x.e, i, h, r);
    }
    if h == 1 { TwoRows(x.d, x.e, g, r, s', c', p', g'); }
  }

  lemma InvBreaks(n: nat, N: Matrix, x: State, h: nat, i: nat, p: real, g: real, s: real, c: real,
                  good: bool, z: nat, trace: real, S: State, ms: seq<Mid>)
    requires SweepInv(n, N, x, h, i, p, g, s, c, good, z, trace, S, ms) && 0 < i <= h
    requires |x.d| == |x.e| == n && s * x.e[i] == 0.0 && g == 0.0
    ensures var d', e' := x.d[i - 1 := x.d[i - 1] - p], x.e[i - 1 := 0.0][0 := 0.0];
      && Between(n, N, d', e', x.V, h, false, trace) && Stuck(S.e, h) && Stuck(e', h) && e'[h] == S.e[h] && h > 1
      && Swept(n, h, ms, S, State(d', e', x.V))
  {
    hide MidSweep, Turning, Starts, NoneVanished, IsShift, Between, Swept, BreaksOff, Stuck;
    StillToTurn(x.e, i, h, s);
    SweepBreaks(n, N, x.d, x.e, x.V, h, i, p, g, s, c, good, z, trace);
    BrokenOff(n, i, x.d, x.e, x.V, p, g, s, c);
    SweptInPart(n, h, ms, S, State(x.d[i - 1 := x.d[i - 1] - p], x.e[i - 1 := 0.0][0 := 0.0], x.V));
    NothingBetween(S.e, h);
  }

  lemma InvEnds(n: nat, N: Matrix, x: State, h: nat, p: real, g: real, s: real, c: real,
                good: bool, z: nat, trace: real, S: State, ms: seq<Mid>)
    requires SweepInv(n, N, x, h, h + 1, p, g, s, c, good, z, trace, S, ms) && |x.d| == |x.e| == n
    ensures h < n
    ensures var d', e' := x.d[h := x.d[h] - p], x.e[h := g][0 := 0.0];
      && Between(n, N, d', e', x.V, h, good, trace) && !Stuck(S.e, h) && !Stuck(e', h) && (h == 1 ==> e'[1] == 0.0)
      && Swept(n, h, ms, S, State(d', e', x.V))
  {
    hide MidSweep, Turning, Starts, NoneVanished, IsShift, Between, Swept, Settles, Stuck;
    SweepFinishes(n, N, x.d, x.e, x.V, h, p, g, s, c, good, z, trace);
    StillNoneVanished(x.e, h, g);
    QlSweeps.Settled(n, h, x.d, x.e, x.V, p, g, s, c);
    SweptWhole(n, h, ms, S, State(x.d[h := x.d[h] - p], x.e[h := g][0 := 0.0], x.V));
  }

  // Nothing is left to turn at i: what is owed is settled there.
  method BreakSweep(n: nat, d: array<real>, e: array<real>, i: nat, p: real)
    requires d != e && d.Length == e.Length == n && 0 < i < n
    modifies d, e
    ensures d[..] == old(d[..])[i - 1 := old(d[i - 1]) - p] && e[..] == old(e[..])[0 := 0.0]
  {
    d[i - 1] := d[i - 1] - p;
    e[0] := 0.0;
  }

  // What is owed is settled at row h, whose coupling is the one in the air.
  method EndSweep(n: nat, d: array<real>, e: array<real>, h: nat, p: real, g: real)
    requires d != e && d.Length == e.Length == n && 0 < h < n
    modifies d, e
    ensures d[..] == old(d[..])[h := old(d[h]) - p] && e[..] == old(e[..])[h := g][0 := 0.0]
  {
    d[h] := d[h] - p;
    e[h] := g;
    e[0] := 0.0;
  }

  lemma NoTurn(n: nat, ms: seq<Mid>)
    requires |ms| == 1
    ensures Turning(n, ms)
  {}

  lemma RotationOf(n: nat, i: nat, x: Mid, y: Mid)
    requires Turned(n, i, x, y)
    ensures 0 < i < n == |x.at.d| == |x.at.e| == |y.at.e| && y.at.e[i - 1] > 0.0
    ensures y.at.e == x.at.e[i - 1 := y.at.e[i - 1]]
    ensures Rotation(x.at.d, x.at.e, i, x.p, x.g, x.s, x.c, y.at.e[i - 1], y.s, y.c, y.p, y.g)
  {}

  // No coupling up to that of row h has vanished.
  ghost predicate NoneVanished(e: seq<real>, h: nat) {
    forall j :: 1 <= j <= h && j < |e| ==> e[j] != 0.0
  }

  lemma CouplingLeft(e: seq<real>, i: nat, h: nat)
    requires NoneVanished(e, h) && 1 <= i <= h < |e|
    ensures e[i] != 0.0
  {}

  lemma StillToTurn(e: seq<real>, i: nat, h: nat, s: real)
    requires 1 <= i <= h < |e|
    ensures NoneVanished(e, h) && s != 0.0 ==> s * e[i] != 0.0
  {
    SomethingToTurn(s, e[i]);
  }

  lemma CouplingReplaced(e: seq<real>, i: nat, h: nat, r: real)
    requires NoneVanished(e, h) && 1 <= i <= h < |e| && r != 0.0
    ensures NoneVanished(e[i - 1 := r], h)
  {}

  lemma NotStuck(e: seq<real>, h: nat)
    requires 0 < h < |e| && e[h] != 0.0
    ensures NoneVanished(e, h) <==> !Stuck(e, h)
  {
    if !Stuck(e, h) {
      forall j | 1 <= j <= h ensures e[j] != 0.0 {}
    }
  }

  lemma StillNoneVanished(e: seq<real>, h: nat, g: real)
    requires 0 < h < |e| && NoneVanished(e, h)
    ensures !Stuck(e[h := g][0 := 0.0], h)
  {}

  // A sine and a coupling that are not zero leave something to turn.
  lemma SomethingToTurn(s: real, e: real)
    ensures s != 0.0 && e != 0.0 ==> s * e != 0.0
  {
    if s != 0.0 && e != 0.0 && s * e == 0.0 {
      CancelFactor(s, e, 0.0);
      assert false;
    }
  }

  // ... and then the next sine is not zero either.
  lemma RotationTurns(d: seq<real>, e: seq<real>, i: nat, p: real, g: real, s: real, c: real, r: real,
                      s': real, c': real, p': real, g': real)
    requires Rotation(d, e, i, p, g, s, c, r, s', c', p', g') && s != 0.0 && e[i] != 0.0
    ensures s' != 0.0
  {
    SomethingToTurn(s, e[i]);
    Quotient(s * e[i], r, s');
    assert 0.0 * r == 0.0;
  }

  // ---- The solver ------------------------------------------------------------------

  // Sweeps over rows 0..h until their last coupling is negligible, but only 20 times: ss
  // are the states between the sweeps. A row whose coupling is not negligible while one
  // strictly between has vanished is given up; for any other the similarity is kept
  // even if it is.
  method SolveRow(n: nat, d: array<real>, e: array<real>, v: array2<real>, h: nat, sqrt: real -> real,
                  ghost N: Matrix, ghost trace: real) returns (ok: bool, ghost ss: seq<State>)
    requires IsSqrt(sqrt) && d != e && d.Length == e.Length == n <= v.Length0 && n <= v.Length1 && 0 < h < n
    requires Between(n, N, d[..], e[..], Rows(v, n), h, true, trace)
    modifies d, e, v
    ensures Between(n, N, d[..], e[..], Rows(v, n), h, !old(StuckRow(e[..], h)), trace)
    ensures RowEnd(n, h, ss, ok) && ss[0] == State(old(d[..]), old(e[..]), old(Rows(v, n)))
    ensures ss[|ss| - 1] == State(d[..], e[..], Rows(v, n))
    ensures ok ==> Abs(e[h]) <= TOLERANCE
    ensures old(StuckRow(e[..], h)) ==> !ok
    ensures Abs(old(e[h])) <= TOLERANCE ==> ok && e[..] == old(e[..])
    ensures !old(Stuck(e[..], h)) ==> !Stuck(e[..], h)
    ensures h == 1 ==> ok
  {
    hide Between, IsSqrt, Rows, Stuck, SweptTo, Swept;
    ghost var stuck := StuckRow(e[..], h);
    var iter := 0;
    assert h == 1 ==> !stuck by { NothingBetween(e[..], h); }
    ss := [State(d[..], e[..], Rows(v, n))];
    while Abs(e[h]) > TOLERANCE
      invariant iter <= MAX_ITER && Between(n, N, d[..], e[..], Rows(v, n), h, !stuck || iter == 0, trace)
      invariant iter == 0 ==> e[..] == old(e[..])
      invariant if stuck then StuckRow(e[..], h) else iter > 0 || !old(Stuck(e[..], h)) ==> !Stuck(e[..], h)
      invariant iter > 0 ==> Abs(old(e[h])) > TOLERANCE
      invariant h == 1 && iter > 0 ==> e[1] == 0.0
      invariant |ss| == iter + 1 && RowRun(n, h, ss) && ss[iter] == State(d[..], e[..], Rows(v, n))
      invariant ss[0] == State(old(d[..]), old(e[..]), old(Rows(v, n)))
      decreases MAX_ITER - iter
    {
      if iter == MAX_ITER {
        return false, ss;
      }
      ghost var good := !stuck || iter == 0;
      iter := iter + 1;
      var broke;
      ghost var ms;
      broke, ms := Sweep(n, d, e, v, h, sqrt, N, good, trace);
      RowRunGrows(n, h, ss, ms, State(d[..], e[..], Rows(v, n)));
      ss := ss + [State(d[..], e[..], Rows(v, n))];
    }
    return true, ss;
  }

  ghost predicate StuckRow(e: seq<real>, h: nat) {
    h < |e| && Abs(e[h]) > TOLERANCE && Stuck(e, h)
  }

  lemma NothingBetween(e: seq<real>, h: nat)
    ensures h <= 1 ==> !Stuck(e, h)
  {}

  ghost function Vanished(e: seq<real>, h: nat): (z: nat)
    ensures z > 0 ==> z < h && z < |e| && e[z] == 0.0
    ensures Stuck(e, h) ==> z > 0
  {
    if Stuck(e, h) then var z: nat :| 1 <= z < h && z < |e| && e[z] == 0.0; z else 0
  }

  ghost predicate Near(n: nat, N: Matrix, M: Matrix, eps: real) {
    Square(n, N) && Square(n, M) && forall a, b :: 0 <= a < n && 0 <= b < n ==> Abs(N[a][b] - M[a][b]) <= eps
  }

  // A negligible coupling is dropped: N moves by at most twice its size.
  lemma Deflate(n: nat, N: Matrix, M: Matrix, d: seq<real>, e: seq<real>, V: Matrix, h: nat, trace: real, eps: real)
    requires Between(n, N, d, e, V, h, true, trace) && 0 < h < n && Abs(e[h]) <= TOLERANCE && Near(n, N, M, eps)
    ensures var N' := Deflated(n, N, V, h, e[h]);
      Between(n, N', d, e, V, h - 1, true, trace) && Near(n, N', M, eps + 2.0 * TOLERANCE)
  {
    hide Similar, Sum, Deflated, RowsOrthonormal, ColumnsOrthonormal;
    var N' := Deflated(n, N, V, h, e[h]);
    assert Kept(e, h - 1) == Kept(e, h)[h := 0.0];
    DeflateKeepsSimilar(n, N, V, d, Kept(e, h), Zeros(n), h);
    forall a, b | 0 <= a < n && 0 <= b < n ensures Abs(N'[a][b] - M[a][b]) <= eps + 2.0 * TOLERANCE {
      DeflatedBound(n, N, V, h, e[h], a, b);
    }
  }

  ghost predicate Descending(d: seq<real>) {
    forall i, j :: 0 <= i < j < |d| ==> d[i] >= d[j]
  }

  // Nothing after position i exceeds what is before it, which is in order.
  ghost predicate SortedTo(d: seq<real>, i: nat) {
    forall k, j :: 0 <= k < i && k < j < |d| ==> d[k] >= d[j]
  }

  // Values and rows are rearranged alike: q says where they were before.
  ghost predicate Rearranged(n: nat, q: seq<int>, d: seq<real>, V: Matrix, d': seq<real>, V': Matrix) {
    && Permutation(n, q) && |d| == |d'| == |V| == |V'| == n
    && forall j :: 0 <= j < n ==> d'[j] == d[q[j]] && V'[j] == V[q[j]]
  }

  ghost predicate Sorted(n: nat, d: seq<real>, V: Matrix, d': seq<real>, V': Matrix) {
    Descending(d') && exists q :: Rearranged(n, q, d, V, d', V')
  }

  lemma NotRearranged(n: nat, q: seq<int>, d: seq<real>, V: Matrix)
    requires |d| == |V| == |q| == n && forall i :: 0 <= i < n ==> q[i] == i
    ensures Rearranged(n, q, d, V, d, V)
  {}

  lemma RearrangedOnce(n: nat, q: seq<int>, d: seq<real>, V: Matrix, d': seq<real>, V': Matrix, i: nat, k: nat)
    requires Rearranged(n, q, d, V, d', V') && i < n && k < n && i != k
    ensures Rearranged(n, q[i := q[k]][k := q[i]], d, V, d'[i := d'[k]][k := d'[i]], V'[i := V'[k]][k := V'[i]])
  {}

  // Selection sort of the eigenvalues, with the rows of v alongside.
  method SortDescending(n: nat, d: array<real>, v: array2<real>, ghost N: Matrix)
    requires 0 < n == d.Length <= v.Length0 && n <= v.Length1 && Orthogonal(n, Rows(v, n))
    modifies d, v
    ensures Descending(d[..]) && Orthogonal(n, Rows(v, n)) && Sum(n, Entries(d[..])) == old(Sum(n, Entries(d[..])))
    ensures old(Diagonalises(n, N, Rows(v, n), d[..])) ==> Diagonalises(n, N, Rows(v, n), d[..])
    ensures Sorted(n, old(d[..]), old(Rows(v, n)), d[..], Rows(v, n))
  {
    hide Orthogonal, Sum, Diagonalises, Rows, Rearranged;
    ghost var D, V, q := d[..], Rows(v, n), seq(n, i => i);
    ghost var kept := Diagonalises(n, N, V, D);
    NotRearranged(n, q, D, V);
    for i := 0 to n - 1
      invariant SortedTo(d[..], i) && Orthogonal(n, Rows(v, n)) && Sum(n, Entries(d[..])) == old(Sum(n, Entries(d[..])))
      invariant kept ==> Diagonalises(n, N, Rows(v, n), d[..])
      invariant |q| == n && Rearranged(n, q, D, V, d[..], Rows(v, n))
    {
      ghost var d0, V0 := d[..], Rows(v, n);
      var k, p := i, d[i];
      for j := i + 1 to n
        invariant i <= k < j && p == d[k] && forall m :: i <= m < j ==> p >= d[m]
      {
        if d[j] > p { k, p := j, d[j]; }
      }
      if k != i {
        d[k] := d[i];
        d[i] := p;
        ExchangeRowsOf(v, n, i, k);
        assert d[..] == d0[i := d0[k]][k := d0[i]];
        ExchangeKeeps(n, N, V0, d0, Rows(v, n), d[..], i, k);
        RearrangedOnce(n, q, D, V, d0, V0, i, k);
        q := q[i := q[k]][k := q[i]];
      }
      SelectedNext(d0, d[..], i, k);
    }
  }

  lemma SelectedNext(d: seq<real>, d': seq<real>, i: nat, k: nat)
    requires i <= k < |d| && SortedTo(d, i) && d' == d[i := d[k]][k := d[i]]
    requires forall m :: i <= m < |d| ==> d[k] >= d[m]
    ensures SortedTo(d', i + 1)
  {
    forall l, j | 0 <= l < i + 1 && l < j < |d'| ensures d'[l] >= d'[j] {
      assert d'[j] == d[if j == i then k else if j == k then i else j];
    }
  }

  // The tridiagonal matrix the solver is given: ein[k] couples rows k and k+1.
  ghost function GivenMatrix(n: nat, din: seq<real>, ein: seq<real>): (M: Matrix)
    ensures Square(n, M)
  {
    TriMatrix(n, din, [0.0] + ein)
  }

  // N*V[j] == d[j]*V[j] for orthonormal rows V[j], where N differs from the given
  // matrix only by the couplings that were dropped as negligible.
  ghost predicate Solved(n: nat, din: seq<real>, ein: seq<real>, N: Matrix, V: Matrix, d: seq<real>) {
    && Diagonalises(n, N, V, d) && Descending(d)
    && n > 0 && Near(n, N, GivenMatrix(n, din, ein), (n - 1) as real * 2e-18)
  }

  // Row h is the last whose coupling is not negligible, and a coupling strictly
  // between rows 0 and h has vanished.
  ghost predicate SplitRow(n: nat, ein: seq<real>, h: nat) {
    && 1 <= h < n <= |ein| + 1 && Abs(ein[h - 1]) > 1e-18
    && (forall k :: h <= k < n - 1 ==> Abs(ein[k]) <= 1e-18)
    && exists z :: 0 <= z < h - 1 && ein[z] == 0.0
  }

  ghost predicate SplitAbove(n: nat, ein: seq<real>) {
    exists h :: SplitRow(n, ein, h)
  }

  // The matrix in d and E is similar to N, which differs from the given matrix only
  // by the couplings dropped so far.
  ghost predicate StillSimilar(n: nat, din: seq<real>, ein: seq<real>, N: Matrix, V: Matrix, d: seq<real>,
                               E: seq<real>) {
    && n > 0 && |E| == n && Similar(n, N, V, d, E, Zeros(n))
    && Near(n, N, GivenMatrix(n, din, ein), (n - 1) as real * 2e-18)
  }

  // A split matrix is given up, by sweeps that all break off. For any other one no
  // sweep breaks off, and even if it is given up the similarity is kept.
  method TridiagEV(n: nat, din: seq<real>, ein: seq<real>, d: array<real>, v: array2<real>, sqrt: real -> real)
    returns (ok: bool, ghost N: Matrix, ghost E: seq<real>, ghost runs: seq<seq<State>>, ghost T: State)
    requires IsSqrt(sqrt) && 0 < n <= |din| && n - 1 <= |ein| && d.Length == n <= v.Length0 && n <= v.Length1
    modifies d, v
    ensures n <= 32 ==> Sound(n, d[..], Rows(v, n), Sum(n, Entries(din)))
    ensures ok ==> n <= 32 && Solved(n, din, ein, N, Rows(v, n), d[..])
    ensures n > 32 || SplitAbove(n, ein) ==> !ok
    ensures !ok && n <= 32 && !SplitAbove(n, ein) ==> StillSimilar(n, din, ein, N, Rows(v, n), d[..], E)
    ensures n <= 2 ==> ok
    ensures n <= 32 ==> History(n, FirstState(n, din, ein), runs, ok, T)
    ensures n <= 32 && !ok ==> d[..] == T.d && Rows(v, n) == T.V
    ensures ok ==> Sorted(n, T.d, T.V, d[..], Rows(v, n))
  {
    hide IsSqrt, Rows, Between, Stuck, StuckRow, SplitAbove, GivenMatrix, Sum, Diagonalises;
    hide Descending, Deflated, Entries, StillSimilar, GivenTo, Runs, RowEnd, RunStart, FirstState, Sorted;
    SetIdentity(v, n);
    N, E, runs, T := [], [], [], State([], [], []);
    if n > MAX_SIZE { return false, N, E, runs, T; }
    for i := 0 to n
      invariant Rows(v, n) == Identity(n) && forall m :: 0 <= m < i ==> d[m] == din[m]
    {
      d[i] := din[i];
    }
    var e := new real[n];
    for i := 0 to n - 1
      invariant Rows(v, n) == Identity(n) && d[..] == din[..n] && forall m :: 1 <= m <= i ==> e[m] == ein[m - 1]
    {
      e[i + 1] := ein[i];
    }
    e[0] := 0.0;
    ghost var trace, M := Sum(n, Entries(din)), GivenMatrix(n, din, ein);
    N := M;
    Begins(n, din, ein, d[..], e[..]);
    GivenBegins(n, ein, e[..]);
    ghost var S := FirstState(n, din, ein);
    FirstStateIs(n, din, ein, d[..], e[..]);
    T := S;
    NoRuns(n, S);
    var h := n - 1;
    while h >= 1
      invariant 0 <= h < n && d != e && Between(n, N, d[..], e[..], Rows(v, n), h, true, trace)
      invariant Near(n, N, M, (n - 1 - h) as real * (2.0 * TOLERANCE))
      invariant |runs| == n - 1 - h && Runs(n, S, runs, true) && T == RunStart(S, runs, |runs|)
      invariant T == State(d[..], e[..], Rows(v, n))
      invariant GivenTo(n, ein, e[..], h) || (!Stuck(e[..], h) && !SplitAbove(n, ein))
    {
      ghost var e0 := e[..];
      SplitWhenStuck(n, ein, e0, h);
      var rowDone;
      ghost var ss;
      rowDone, ss := SolveRow(n, d, e, v, h, sqrt, N, trace);
      RunsGrow(n, S, runs, ss, rowDone);
      runs, T := runs + [ss], State(d[..], e[..], Rows(v, n));
      if !rowDone {
        BetweenMeans(n, N, d[..], e[..], Rows(v, n), h, !StuckRow(e0, h), trace);
        E := Kept(e[..], h);
        if !SplitAbove(n, ein) { GivenUp(n, din, ein, N, Rows(v, n), d[..], E, h); }
        return false, N, E, runs, T;
      }
      Deflate(n, N, M, d[..], e[..], Rows(v, n), h, trace, (n - 1 - h) as real * (2.0 * TOLERANCE));
      N := Deflated(n, N, Rows(v, n), h, e[h]);
      StuckBelow(e[..], h);
      h := h - 1;
    }
    NoSplitLeft(n, ein, e[..]);
    NoSplit(n, ein);
    Ends(n, N, d[..], e[..], Rows(v, n), trace);
    SortDescending(n, d, v, N);
    return true, N, E, runs, T;
  }

  // The state the solver starts from: the couplings are moved one place up.
  ghost function FirstState(n: nat, din: seq<real>, ein: seq<real>): State
    requires 0 < n <= |din| && n - 1 <= |ein|
  {
    State(din[..n], [0.0] + ein[..n - 1], Identity(n))
  }

  lemma FirstStateIs(n: nat, din: seq<real>, ein: seq<real>, d: seq<real>, e: seq<real>)
    requires 0 < n <= |din| && n - 1 <= |ein| && d == din[..n] && |e| == n && e[0] == 0.0
    requires forall m :: 1 <= m < n ==> e[m] == ein[m - 1]
    ensures FirstState(n, din, ein) == State(d, e, Identity(n))
  {}

  lemma NoRuns(n: nat, S: State)
    requires n > 0
    ensures Runs(n, S, [], true) && RunStart(S, [], 0) == S
  {}

  // Down to row h every coupling was negligible, and none has changed.
  ghost predicate GivenTo(n: nat, ein: seq<real>, e: seq<real>, h: nat) {
    && |e| == n <= |ein| + 1 && (forall m :: 1 <= m < n ==> e[m] == ein[m - 1])
    && forall k :: h <= k < n - 1 ==> Abs(ein[k]) <= TOLERANCE
  }

  lemma GivenBegins(n: nat, ein: seq<real>, e: seq<real>)
    requires 0 < n == |e| && n <= |ein| + 1 && forall m :: 1 <= m < n ==> e[m] == ein[m - 1]
    ensures GivenTo(n, ein, e, n - 1)
  {}

  // What the row tells about the given couplings, before it is solved.
  lemma SplitWhenStuck(n: nat, ein: seq<real>, e: seq<real>, h: nat)
    requires 1 <= h < n
    requires GivenTo(n, ein, e, h) || (!Stuck(e, h) && !SplitAbove(n, ein))
    ensures StuckRow(e, h) ==> SplitAbove(n, ein)
    ensures !StuckRow(e, h) ==> (GivenTo(n, ein, e, h) && Abs(e[h]) <= TOLERANCE && GivenTo(n, ein, e, h - 1))
                                || (!Stuck(e, h) && !SplitAbove(n, ein))
  {
    if GivenTo(n, ein, e, h) {
      if StuckRow(e, h) {
        var z :| 1 <= z < h && e[z] == 0.0;
        assert ein[z - 1] == 0.0;
        assert SplitRow(n, ein, h);
      }
      if Abs(e[h]) > TOLERANCE && SplitAbove(n, ein) { SplitIsStuck(n, ein, e, h); }
    }
  }

  lemma SplitIsStuck(n: nat, ein: seq<real>, e: seq<real>, h: nat)
    requires 1 <= h < n && GivenTo(n, ein, e, h) && Abs(e[h]) > TOLERANCE && SplitAbove(n, ein)
    ensures StuckRow(e, h)
  {
    var k :| SplitRow(n, ein, k);
    assert Abs(ein[h - 1]) > TOLERANCE;
    var z :| 0 <= z < k - 1 && ein[z] == 0.0;
    assert e[z + 1] == 0.0;
  }

  lemma StuckBelow(e: seq<real>, h: nat)
    requires h >= 1
    ensures !Stuck(e, h) ==> !Stuck(e, h - 1)
  {}

  lemma NoSplitLeft(n: nat, ein: seq<real>, e: seq<real>)
    requires GivenTo(n, ein, e, 0) || !SplitAbove(n, ein)
    ensures !SplitAbove(n, ein)
  {}

  lemma BetweenMeans(n: nat, N: Matrix, d: seq<real>, e: seq<real>, V: Matrix, h: nat, good: bool, trace: real)
    requires Between(n, N, d, e, V, h, good, trace)
    ensures Sound(n, d, V, trace) && |e| == n && (good ==> Similar(n, N, V, d, Kept(e, h), Zeros(n)))
  {}

  lemma GivenUp(n: nat, din: seq<real>, ein: seq<real>, N: Matrix, V: Matrix, d: seq<real>, E: seq<real>, h: nat)
    requires 0 < h < n && |E| == n && Similar(n, N, V, d, E, Zeros(n))
    requires Near(n, N, GivenMatrix(n, din, ein), (n - 1 - h) as real * (2.0 * TOLERANCE))
    ensures StillSimilar(n, din, ein, N, V, d, E)
  {
    hide Similar, GivenMatrix;
  }

  lemma NoSplit(n: nat, ein: seq<real>)
    ensures n <= 2 ==> !SplitAbove(n, ein)
  {}

  // Couplings that do not vanish are never split.
  lemma NonZeroNotSplit(n: nat, ein: seq<real>)
    requires forall k :: 0 <= k < n - 1 && k < |ein| ==> ein[k] != 0.0
    ensures !SplitAbove(n, ein)
  {}

  lemma Begins(n: nat, din: seq<real>, ein: seq<real>, d: seq<real>, e: seq<real>)
    requires 0 < n <= |din| && n - 1 <= |ein| && |d| == |e| == n && d == din[..n]
    requires e[0] == 0.0 && forall m :: 1 <= m < n ==> e[m] == ein[m - 1]
    ensures var M := GivenMatrix(n, din, ein);
      Between(n, M, d, e, Identity(n), n - 1, true, Sum(n, Entries(din))) && Near(n, M, M, 0.0)
  {
    hide Similar, RowsOrthonormal, ColumnsOrthonormal, Sum;
    var M, V := GivenMatrix(n, din, ein), Identity(n);
    IdentityOrthogonal(n);
    IdentitySimilar(n, d, e, Zeros(n));
    assert Kept(e, n - 1) == e;
    SameMatrix(n, din, ein, d, e);
    SumCong(n, Entries(d), Entries(din));
    SelfNear(n, M, M);
  }

  lemma SelfNear(n: nat, N: Matrix, M: Matrix)
    requires Square(n, M) && N == M
    ensures Near(n, N, M, 0.0)
  {
    forall a, b | 0 <= a < n && 0 <= b < n ensures Abs(N[a][b] - M[a][b]) <= 0.0 {
      var x := M[a][b];
      assert x - x == 0.0;
    }
  }

  lemma SameMatrix(n: nat, din: seq<real>, ein: seq<real>, d: seq<real>, e: seq<real>)
    requires 0 < n <= |din| && n - 1 <= |ein| && |d| == |e| == n && d == din[..n]
    requires e[0] == 0.0 && forall m :: 1 <= m < n ==> e[m] == ein[m - 1]
    ensures TriMatrix(n, d, e) == GivenMatrix(n, din, ein)
  {
    var A, M := TriMatrix(n, d, e), GivenMatrix(n, din, ein);
    forall a | 0 <= a < n ensures A[a] == M[a] {
      forall b | 0 <= b < n ensures A[a][b] == M[a][b] {}
    }
  }

  lemma Ends(n: nat, N: Matrix, d: seq<real>, e: seq<real>, V: Matrix, trace: real)
    requires Between(n, N, d, e, V, 0, true, trace)
    ensures Sound(n, d, V, trace) && Diagonalises(n, N, V, d)
  {
    SimilarToDiagonal(n, N, V, d, Kept(e, 0), Zeros(n));
  }
}
