// The reduction of an RC tree to a small tridiagonal model: the two linear
// passes that apply R*C, the recurrence over them with its two alternating
// buffers, and the model it leaves behind.
module ArnoldiReduce {
  import opened RealSums
  import opened RcTree
  import opened Lanczos

  const MAX_ORDER := 5
  const MIN_DIAGONAL := 1e-13   // .1ps
  const MIN_NORM := 1e-30       // (1e-6ns)^2

  class RcWork {
    const n: nat
    const par: array<int>
    const r: array<real>
    const c: array<real>
    const iv: array<real>
    const y: array<real>
    const ua: array<real>
    const ub: array<real>
    // The terminals: outV maps a terminal to its point.
    const nterms: nat
    const outV: array<int>
    // The model under construction.
    const d: array<real>
    const e: array<real>
    const U: array2<real>
    var order: nat
    var ctot: real
    var sqc: real

    constructor (n: nat, nterms: nat)
      requires n > 0
      ensures this.n == n && this.nterms == nterms && Buffers()
      ensures fresh(par) && fresh(r) && fresh(c) && fresh(iv) && fresh(y) && fresh(ua) && fresh(ub)
      ensures fresh(outV) && fresh(d) && fresh(e) && fresh(U)
    {
      this.n, this.nterms := n, nterms;
      par, r, c, iv, y := new int[n], new real[n], new real[n], new real[n], new real[n];
      ua, ub := new real[n], new real[n];
      outV := new int[nterms];
      d, e := new real[8], new real[8];
      U := new real[8, nterms];
    }

    ghost predicate Buffers() {
      && par.Length == r.Length == c.Length == iv.Length == y.Length == ua.Length == ub.Length == n > 0
      && outV.Length == nterms && par != outV
      && d.Length >= MAX_ORDER && e.Length >= MAX_ORDER && U.Length0 >= MAX_ORDER && U.Length1 >= nterms
      && r != c && r != iv && r != y && r != ua && r != ub && r != d && r != e
      && c != iv && c != y && c != ua && c != ub && c != d && c != e
      && iv != y && iv != ua && iv != ub && iv != d && iv != e
      && y != ua && y != ub && y != d && y != e
      && ua != ub && ua != d && ua != e && ub != d && ub != e && d != e
    }

    // u0 and u1 are the two buffers, in either order.
    ghost predicate Paired(u0: array<real>, u1: array<real>) {
      (u0 == ua && u1 == ub) || (u0 == ub && u1 == ua)
    }

    // The points are in depth-first order and every terminal is one of them.
    ghost predicate Loaded()
      reads par, outV
    {
      && Buffers() && Tree(par[..])
      && forall k :: 0 <= k < nterms ==> 0 <= outV[k] < n
    }

    // The backward pass: from the last point to the first, every point adds its
    // own charge to what its children have passed up, and passes the sum on.
    method Currents(u: array<real>)
      requires Buffers() && (u == ua || u == ub) && Tree(par[..])
      modifies iv
      ensures forall k :: 0 <= k < n ==> iv[k] == SubtreeCurrent(par[..], Charge(c[..], u[..]), k)
    {
      hide Sum, Gathered, SubtreeCurrent;
      ghost var x := Charge(c[..], u[..]);
      ghost var P := par[..];
      for j := 0 to n
        invariant forall k :: 0 <= k < j ==> iv[k] == 0.0
      {
        iv[j] := 0.0;
      }
      forall k | 0 <= k < n ensures iv[k] == Gathered(P, x, n - 1, k) { GatheredStart(P, x, k); }
      var j := n - 1;
      while j > 0
        invariant 0 <= j < n
        invariant forall k :: 0 <= k <= j ==> iv[k] == Gathered(P, x, j, k)
        invariant forall k :: j < k < n ==> iv[k] == SubtreeCurrent(P, x, k)
      {
        GatheredCompletes(P, x, j);
        forall k | 0 <= k < j
          ensures Gathered(P, x, j - 1, k) == Gathered(P, x, j, k) + if P[j] == k then SubtreeCurrent(P, x, j) else 0.0
        {
          GatheredStep(P, x, j, k);
        }
        assert c[j] * u[j] == x(j);
        iv[j] := iv[j] + c[j] * u[j];
        iv[par[j]] := iv[par[j]] + iv[j];
        j := j - 1;
      }
      GatheredCompletes(P, x, 0);
      assert c[0] * u[0] == x(0);
      iv[0] := iv[0] + c[0] * u[0];
    }

    // The forward pass: the drop to a point is the drop to its parent plus that
    // of the edge between them.
    method Drops(u: array<real>)
      requires Buffers() && (u == ua || u == ub) && Tree(par[..])
      requires forall k :: 0 <= k < n ==> iv[k] == SubtreeCurrent(par[..], Charge(c[..], u[..]), k)
      modifies y
      ensures forall j :: 0 <= j < n ==> y[j] == RC(par[..], r[..], c[..], u[..], j)
    {
      hide Sum, PathSum, SubtreeCurrent;
      ghost var P := par[..];
      ghost var z := EdgeDrop(P, r[..], c[..], u[..]);
      PathSumRoot(P, z);
      y[0] := 0.0;
      for j := 1 to n
        invariant forall k :: 0 <= k < j ==> y[k] == PathSum(P, z, k)
      {
        PathSumStep(P, z, j);
        assert z(j) == r[j] * iv[j];
        y[j] := y[par[j]] + r[j] * iv[j];
      }
    }

    method SumC() returns (sum: real)
      requires Buffers()
      ensures sum == Sum(n, Entries(c[..]))
    {
      sum := 0.0;
      for j := 0 to n
        invariant sum == Sum(j, Entries(c[..]))
      {
        sum := sum + c[j];
      }
    }

    // u C y. The driver's term is skipped: its drop is 0.
    method Diagonal(u: array<real>) returns (sum: real)
      requires Buffers() && (u == ua || u == ub) && y[0] == 0.0
      ensures sum == Ip(n, c[..], u[..], y[..])
    {
      ghost var C, V, Y := c[..], u[..], y[..];
      sum := 0.0;
      IpStep(0, C, V, Y);
      for j := 1 to n
        invariant sum == Ip(j, C, V, Y)
      {
        IpStep(j, C, V, Y);
        TermOrder(u[j], c[j], y[j]);
        sum := sum + u[j] * c[j] * y[j];
      }
    }

    method SquaredNorm() returns (sum: real)
      requires Buffers()
      ensures sum == Ip(n, c[..], y[..], y[..])
    {
      sum := 0.0;
      for j := 0 to n
        invariant sum == Ip(j, c[..], y[..], y[..])
      {
        IpStep(j, c[..], y[..], y[..]);
        sum := sum + c[j] * y[j] * y[j];
      }
    }

    // y := y - d[h]*u0 - e[h-1]*u1. The first step has no u1 yet.
    method Subtract(h: nat, sum: real, u0: array<real>, u1: array<real>)
      requires Buffers() && h < MAX_ORDER && Paired(u0, u1)
      modifies y
      ensures forall j :: 0 <= j < n ==>
        y[j] == old(y[j]) - (sum * u0[j] + if h == 0 then 0.0 else e[h - 1] * u1[j])
    {
      if h == 0 {
        for j := 0 to n
          invariant forall k :: 0 <= k < n ==> y[k] == old(y[k]) - if k < j then sum * u0[k] else 0.0
        {
          y[j] := y[j] - sum * u0[j];
        }
      } else {
        var e1 := e[h - 1];
        for j := 0 to n
          invariant forall k :: 0 <= k < n ==> y[k] == old(y[k]) - if k < j then sum * u0[k] + e1 * u1[k] else 0.0
        {
          y[j] := y[j] - (sum * u0[j] + e1 * u1[j]);
        }
      }
    }

    // The reduction: the diagonal d and off-diagonal e of the projection of R*C
    // on an orthonormal basis started from the constant vector, and in U the
    // values of the basis at the terminals.
    method MakeRcmodelFromTs(sqrt: real -> real) returns (ghost us: seq<seq<real>>)
      requires Loaded() && IsSqrt(sqrt)
      requires Sum(n, Entries(c[..])) > 0.0
      modifies this, iv, y, ua, ub, d, e, U
      ensures ctot == Sum(n, Entries(c[..])) && sqc == sqrt(ctot) > 0.0
      ensures 1 <= order <= 5 && order <= n && |us| == order
      ensures ReducedModel(par[..], r[..], c[..], us, d[..order], e[..order - 1])
      ensures forall j :: 0 <= j < n ==> At(us[0], j) == 1.0 / sqc
      ensures Rows(us, order)
      ensures order < n && order < 5 ==> StoppedEarly(par[..], r[..], c[..], us, d[order - 1], e[..order - 1])
      ensures forall k :: 0 <= k < order - 1 ==> WentOn(d[k], e[k])
    {
      hide Basis, RC, Ip, RCVector, StoppedEarly, Sum, IsSqrt, Tree, ReducedModel, InProgress, Rows, WentOn;
      ghost var P, R, C := par[..], r[..], c[..];
      order := MAX_ORDER;
      if n < order { order := n; }
      ghost var limit := order;
      Start(sqrt);
      var u0, u1 := ua, ub;
      us := [u0[..]];
      var h := 0;
      while h < order
        invariant 0 <= h < order == limit
        invariant u0 == (if h % 2 == 0 then ua else ub) && u1 == (if h % 2 == 0 then ub else ua)
        invariant |us| == h + 1 && InProgress(h, u0, u1, us) && Rows(us, h)
        invariant forall j :: 0 <= j < n ==> At(us[0], j) == 1.0 / sqc
        modifies `order, iv, y, ua, ub, d, e, U
        decreases limit - h
      {
        var more := Step(h, h == order - 1, u0, u1, us, sqrt);
        if !more {
          order := h + 1;
          break;
        }
        us := us + [u1[..]];
        if h % 2 == 1 { u0, u1 := ua, ub; } else { u0, u1 := ub, ua; }
        h := h + 1;
      }
    }

    // One step of the recurrence; the last one stops after its diagonal.
    method Step(h: nat, last: bool, u0: array<real>, u1: array<real>, ghost us: seq<seq<real>>, sqrt: real -> real)
      returns (more: bool)
      requires Loaded() && h < MAX_ORDER && (h + 1 < MAX_ORDER || last) && Paired(u0, u1) && IsSqrt(sqrt)
      requires InProgress(h, u0, u1, us) && Rows(us, h)
      modifies iv, y, d, e, U, u1
      ensures Rows(us, h + 1)
      ensures more ==> !last && InProgress(h + 1, u1, u0, us + [u1[..]]) && Rows(us + [u1[..]], h + 1)
      ensures !more ==> ReducedModel(par[..], r[..], c[..], us, d[..h + 1], e[..h])
      ensures !more ==> last || StoppedEarly(par[..], r[..], c[..], us, d[h], e[..h])
      ensures !more ==> forall k :: 0 <= k < h ==> WentOn(d[k], e[k])
    {
      hide Basis, RC, Ip, RCVector, StoppedEarly, Sum, IsSqrt, Tree, WentOn;
      Project(h, u0, u1, us);
      if last { return false; }
      more := Continue(h, u0, u1, us, sqrt);
    }

    // The second half of a step that is not the last.
    method Continue(h: nat, u0: array<real>, u1: array<real>, ghost us: seq<seq<real>>, sqrt: real -> real)
      returns (more: bool)
      requires Buffers() && h + 1 < MAX_ORDER && Paired(u0, u1) && IsSqrt(sqrt)
      requires InProgress(h, u0, u1, us) && Basis(par[..], r[..], c[..], us, d[..h + 1], e[..h])
      requires y[..] == RCVector(par[..], r[..], c[..], u0[..]) && d[h] == Ip(n, c[..], u0[..], y[..])
      modifies y, e, u1
      ensures e[..h] == old(e[..h])
      ensures more ==> InProgress(h + 1, u1, u0, us + [u1[..]])
      ensures !more ==> StoppedEarly(par[..], r[..], c[..], us, d[h], e[..h])
    {
      if d[h] < MIN_DIAGONAL { return false; }
      more := Advance(h, u0, u1, us, sqrt);
    }

    // The first half of a step: row h of U, y := R C u0, and d[h].
    method Project(h: nat, u0: array<real>, u1: array<real>, ghost us: seq<seq<real>>)
      requires Loaded() && h < MAX_ORDER && Paired(u0, u1)
      requires InProgress(h, u0, u1, us)
      requires Rows(us, h)
      modifies iv, y, d, U
      ensures Rows(us, h + 1)
      ensures y[..] == RCVector(par[..], r[..], c[..], u0[..]) && d[h] == Ip(n, c[..], u0[..], y[..])
      ensures InProgress(h, u0, u1, us) && Basis(par[..], r[..], c[..], us, d[..h + 1], e[..h])
    {
      hide Basis, RC, Ip, RCVector, Sum, Tree, WentOn;
      StoreRow(h, u0);
      var sum := ApplyRC(u0);
      d[h] := sum;
      assert d[..h] == old(d[..h]) && d[..h + 1] == d[..h] + [sum];
      BasisAnyLast(par[..], r[..], c[..], us, d[..h], e[..h], sum);
    }

    // The total capacitance, and the constant vector of unit norm.
    method Start(sqrt: real -> real)
      requires Buffers() && IsSqrt(sqrt) && Sum(n, Entries(c[..])) > 0.0
      modifies this, ua
      ensures order == old(order)
      ensures ctot == Sum(n, Entries(c[..])) && sqc == sqrt(ctot) > 0.0
      ensures forall j :: 0 <= j < n ==> ua[j] == 1.0 / sqc
      ensures InProgress(0, ua, ub, [ua[..]]) && Rows([ua[..]], 0)
    {
      ctot := SumC();
      sqc := sqrt(ctot);
      for j := 0 to n
        invariant sqc == sqrt(ctot) && ctot == Sum(n, Entries(c[..])) && order == old(order)
        invariant forall k :: 0 <= k < j ==> ua[k] == 1.0 / sqc
      {
        ua[j] := 1.0 / sqc;
      }
      StartBasis(par[..], r[..], c[..], ua[..], sqc);
      assert d[..0] == [] && e[..0] == [];
    }

    // U[h] is the vector u at the terminals.
    method StoreRow(h: nat, u: array<real>)
      requires Loaded() && h < MAX_ORDER && (u == ua || u == ub)
      modifies U
      ensures forall k :: 0 <= k < nterms ==> U[h, k] == u[outV[k]]
      ensures forall l, k :: 0 <= l < U.Length0 && 0 <= k < U.Length1 && l != h ==> U[l, k] == old(U[l, k])
    {
      for i := 0 to nterms
        invariant forall k :: 0 <= k < i ==> U[h, k] == u[outV[k]]
        invariant forall l, k :: 0 <= l < U.Length0 && 0 <= k < U.Length1 && l != h ==> U[l, k] == old(U[l, k])
      {
        U[h, i] := u[outV[i]];
      }
    }

    // The rest of a step that has not stopped at its diagonal: the next basis
    // vector in u1 and its coupling in e[h], unless the residual is negligible.
    method Advance(h: nat, u0: array<real>, u1: array<real>, ghost us: seq<seq<real>>, sqrt: real -> real)
      returns (more: bool)
      requires Buffers() && h + 1 < MAX_ORDER && Paired(u0, u1) && IsSqrt(sqrt)
      requires InProgress(h, u0, u1, us) && Basis(par[..], r[..], c[..], us, d[..h + 1], e[..h])
      requires y[..] == RCVector(par[..], r[..], c[..], u0[..]) && d[h] == Ip(n, c[..], u0[..], y[..])
      requires d[h] >= MIN_DIAGONAL
      modifies y, e, u1
      ensures e[..h] == old(e[..h])
      ensures more ==> InProgress(h + 1, u1, u0, us + [u1[..]])
      ensures !more ==> Negligible(par[..], r[..], c[..], us, d[h], e[..h])
    {
      hide Basis, RC, Ip, Residual, RCVector, WentOn;
      ghost var P, R, C, E := par[..], r[..], c[..], e[..h];
      assert forall k :: 0 <= k < h ==> WentOn(d[k], E[k]);
      Subtract(h, d[h], u0, u1);
      SubtractionLeavesResidual(P, R, C, us, d[h], E, y[..]);
      var norm := SquaredNorm();
      if norm < MIN_NORM { return false; }
      e[h] := sqrt(norm);
      assert e[..h] == E && e[..h + 1] == E + [e[h]];
      Normalize(h, u1);
      Extend(P, R, C, us, d[..h + 1], E, y[..], e[h], u1[..]);
      WentOnIs(d[h], e[h], norm);
      assert forall k :: 0 <= k < h ==> e[k] == E[k];
      more := true;
    }

    // The state between two steps: the basis so far, whose last two vectors are
    // the buffers.
    ghost predicate InProgress(h: nat, u0: array<real>, u1: array<real>, us: seq<seq<real>>)
      requires Buffers()
      reads par, r, c, d, e, u0, u1
    {
      && h < MAX_ORDER && |us| == h + 1 && us[h] == u0[..] && (h > 0 ==> us[h - 1] == u1[..])
      && Basis(par[..], r[..], c[..], us, d[..h], e[..h])
      && forall k :: 0 <= k < h ==> WentOn(d[k], e[k])
    }

    // The first m rows of U hold the first m vectors at the terminals.
    ghost predicate Rows(us: seq<seq<real>>, m: nat)
      requires Buffers() && m <= |us| && m <= MAX_ORDER
      reads U, outV
    {
      forall i, k :: 0 <= i < m && 0 <= k < nterms ==> U[i, k] == At(us[i], outV[k])
    }

    // y := R C u, and the diagonal entry u C y.
    method ApplyRC(u: array<real>) returns (sum: real)
      requires Buffers() && (u == ua || u == ub) && Tree(par[..])
      modifies iv, y
      ensures y[..] == RCVector(par[..], r[..], c[..], u[..])
      ensures sum == Ip(n, c[..], u[..], y[..])
    {
      Currents(u);
      Drops(u);
      PathSumRoot(par[..], EdgeDrop(par[..], r[..], c[..], u[..]));
      sum := Diagonal(u);
    }

    // u1 becomes y scaled by 1/e[h].
    method Normalize(h: nat, u1: array<real>)
      requires Buffers() && h < MAX_ORDER && e[h] > 0.0 && (u1 == ua || u1 == ub)
      modifies u1
      ensures forall j :: 0 <= j < n ==> y[j] == e[h] * u1[j]
    {
      var inv := 1.0 / e[h];
      for j := 0 to n
        invariant forall k :: 0 <= k < j ==> y[k] == e[h] * u1[k]
      {
        u1[j] := inv * y[j];
        assert e[h] * inv == 1.0;
        assert e[h] * (inv * y[j]) == (e[h] * inv) * y[j];
      }
    }
  }

  lemma SubtractionLeavesResidual(par: seq<int>, r: seq<real>, c: seq<real>, us: seq<seq<real>>, dh: real, e: seq<real>,
                                  y: seq<real>)
    requires |us| > 0
    requires forall j :: 0 <= j < |par| ==>
      At(y, j) == RC(par, r, c, us[|us| - 1], j)
                  - (dh * At(us[|us| - 1], j) + if |us| == 1 then 0.0 else At(e, |us| - 2) * At(us[|us| - 2], j))
    ensures Residual(par, r, c, us, dh, e, y)
  {
    hide RC;
    var h := |us| - 1;
    forall j | 0 <= j < |par|
      ensures BackCoupling(e, h) * At(Before(us, h), j) == if h == 0 then 0.0 else At(e, h - 1) * At(us[h - 1], j)
    {}
  }

  // The constant vector 1/sqrt(ctot) has unit norm.
  lemma StartBasis(par: seq<int>, r: seq<real>, c: seq<real>, u: seq<real>, sqc: real)
    requires sqc > 0.0 && sqc * sqc == Sum(|par|, Entries(c))
    requires forall j :: 0 <= j < |par| ==> At(u, j) == 1.0 / sqc
    ensures Basis(par, r, c, [u], [], [])
  {
    hide Sum, Ip;
    ConstantNorm(|par|, c, u, 1.0 / sqc);
    UnitSquare(sqc, Sum(|par|, Entries(c)));
  }

  lemma UnitSquare(s: real, sum: real)
    requires s > 0.0 && s * s == sum
    ensures ((1.0 / s) * (1.0 / s)) * sum == 1.0
  {
    var a := 1.0 / s;
    assert a * s == 1.0;
    assert a * a * (s * s) == (a * s) * (a * s);
  }

  lemma ConstantNorm(n: nat, c: seq<real>, u: seq<real>, a: real)
    requires forall j :: 0 <= j < n ==> At(u, j) == a
    ensures Ip(n, c, u, u) == (a * a) * Sum(n, Entries(c))
  {
    forall j | 0 <= j < n ensures At(c, j) * At(u, j) * At(u, j) == (a * a) * Entries(c)(j) {
      TermOrder(At(c, j), a, a);
    }
    SumScale(n, a * a, Entries(c), j => At(c, j) * At(u, j) * At(u, j));
  }

  // The recurrence ran out: the last diagonal is negligible, or what is left of
  // the operator outside the basis is.
  ghost predicate StoppedEarly(par: seq<int>, r: seq<real>, c: seq<real>, us: seq<seq<real>>, dh: real, e: seq<real>)
    requires |us| > 0
  {
    dh < 1e-13 || Negligible(par, r, c, us, dh, e)
  }

  // It went on past a vector: neither its diagonal nor what was left was negligible.
  ghost predicate WentOn(d: real, e: real) {
    d >= 1e-13 && Times(e, e) >= 1e-30
  }

  lemma WentOnIs(d: real, e: real, norm: real)
    requires d >= MIN_DIAGONAL && e * e == norm && norm >= MIN_NORM
    ensures WentOn(d, e)
  {}

  ghost predicate Negligible(par: seq<int>, r: seq<real>, c: seq<real>, us: seq<seq<real>>, dh: real, e: seq<real>)
    requires |us| > 0
  {
    exists y: seq<real> :: |y| == |par| && Residual(par, r, c, us, dh, e, y) && Ip(|par|, c, y, y) < 1e-30
  }

  lemma TermOrder(u: real, c: real, y: real)
    ensures u * c * y == c * u * y
  {}
}
