// The reduction from the network to the model: the traversal, the loading of
// the tree, the recurrence, and the model that is kept.
module RcModel {
  import opened Options
  import opened RealSums
  import opened RcTree
  import opened DrivenTree
  import opened Lanczos
  import opened ArnoldiReduce
  import opened TsGraph

  // order, number of terminals, diagonal, off-diagonal, basis at the terminals,
  // pin of every terminal.
  datatype Model = Model(order: nat, n: nat, d: seq<real>, e: seq<real>, U: seq<seq<real>>, pinV: seq<int>,
                         ctot: real, sqc: real)

  ghost predicate Shaped(m: Model) {
    && |m.d| == |m.U| == m.order > 0 && |m.e| == m.order - 1
    && (forall h :: 0 <= h < m.order ==> |m.U[h]| == m.n)
    && m.n > 0 && m.U[0][0] != 0.0
  }

  // The Elmore delay that the model gives for terminal k.
  function Elmore(m: Model, k: nat): real
    requires m.order == 1 ==> |m.d| > 0
    requires m.order >= 2 ==> Shaped(m) && k < m.n
  {
    if m.order == 0 then 0.0
    else if m.order == 1 then m.d[0]
    else
      var sqctot := 1.0 / m.U[0][0];
      m.d[0] + m.e[0] * m.U[1][k] * sqctot
  }

  // m is the reduction of the tree par, r, c, with terminal k at point out[k].
  ghost predicate Reduces(m: Model, par: seq<int>, r: seq<real>, c: seq<real>, out: seq<int>, us: seq<seq<real>>) {
    && Shaped(m) && |us| == m.order && |out| == m.n && Tree(par)
    && ReducedModel(par, r, c, us, m.d, m.e)
    && m.sqc > 0.0 && m.sqc * m.sqc == m.ctot && m.ctot == Sum(|par|, Entries(c))
    && (forall j :: 0 <= j < |par| ==> At(us[0], j) == 1.0 / m.sqc)
    && (forall k :: 0 <= k < m.n ==> 0 <= out[k] < |par|)
    && forall h, k :: 0 <= h < m.order && 0 <= k < m.n ==> m.U[h][k] == At(us[h], out[k])
  }

  // From order 2 on the model has the exact Elmore delay of every terminal.
  lemma ElmoreExact(m: Model, par: seq<int>, r: seq<real>, c: seq<real>, out: seq<int>, us: seq<seq<real>>, k: nat)
    requires Reduces(m, par, r, c, out, us) && m.order >= 2 && k < m.n
    ensures Elmore(m, k) == ElmoreDelay(par, r, c, out[k])
  {
    hide RC, ReducedModel, ElmoreDelay, Sum, Tree, Times;
    var j, a := out[k], 1.0 / m.sqc;
    FirstStep(par, r, c, us, m.d, m.e, j);
    RCOfConstantIsElmore(par, r, c, us[0], a, j);
    assert At(us[0], out[0]) == a && At(us[0], j) == a;
    Unscale(m.U[0][0], m.e[0], m.U[1][k], m.d[0], ElmoreDelay(par, r, c, j)) by {
      ScaledDelay(m.U[0][0], a, ElmoreDelay(par, r, c, j));
    }
  }

  lemma FirstStep(par: seq<int>, r: seq<real>, c: seq<real>, us: seq<seq<real>>, d: seq<real>, e: seq<real>, j: int)
    requires ReducedModel(par, r, c, us, d, e) && |us| >= 2 && |e| == |us| - 1 && 0 <= j < |par|
    ensures RC(par, r, c, us[0], j) == Times(e[0], At(us[1], j)) + Times(d[0], At(us[0], j))
  {
    hide RC, Orthonormal, Ip;
    assert ThreeTerm(par, r, c, us, d, e, 0);
    TimesZero(At(Before(us, 0), j));
  }

  lemma Unscale(a: real, e: real, u: real, d: real, t: real)
    requires a > 0.0 && a * t == Times(e, u) + Times(d, a)
    ensures d + e * u * (1.0 / a) == t
  {
    assert a * (1.0 / a) == 1.0;
    assert (e * u + d * a) * (1.0 / a) == e * u * (1.0 / a) + d * (a * (1.0 / a));
    assert a * t * (1.0 / a) == t * (a * (1.0 / a));
  }

  lemma ScaledDelay(s: real, a: real, t: real)
    requires s == a
    ensures s * t == a * t
  {}

  // ... and so no delay at a terminal that is the driver's point.
  lemma ElmoreAtDriver(m: Model, par: seq<int>, r: seq<real>, c: seq<real>, out: seq<int>, us: seq<seq<real>>, k: nat)
    requires Reduces(m, par, r, c, out, us) && m.order >= 2 && k < m.n && out[k] == 0
    ensures Elmore(m, k) == 0.0
  {
    ElmoreExact(m, par, r, c, out, us, k);
    DriverHasNoDelay(par, r, c);
  }

  // The first diagonal entry is the capacitance-weighted mean of all delays.
  lemma FirstDiagonalIsMean(m: Model, par: seq<int>, r: seq<real>, c: seq<real>, out: seq<int>, us: seq<seq<real>>)
    requires Reduces(m, par, r, c, out, us)
    ensures m.d[0] * m.ctot == Sum(|par|, WeightedDelay(par, r, c))
  {
    hide Sum, RC, RCVector, ElmoreDelay, Tree, WeightedDelay;
    var n, a := |par|, 1.0 / m.sqc;
    ReducedIsProjection(par, r, c, us, m.d, m.e, 0, 0);
    hide ReducedModel;
    ConstantPower(par, r, c, us[0], a);
    MeanOf(m.d[0], m.sqc, m.ctot, a, Sum(n, WeightedDelay(par, r, c)));
  }

  lemma ConstantPower(par: seq<int>, r: seq<real>, c: seq<real>, u: seq<real>, a: real)
    requires forall j :: 0 <= j < |par| ==> At(u, j) == a
    ensures Ip(|par|, c, u, RCVector(par, r, c, u)) == (a * a) * Sum(|par|, WeightedDelay(par, r, c))
  {
    hide Sum, RC, ElmoreDelay, WeightedDelay;
    var y := RCVector(par, r, c, u);
    forall j | 0 <= j < |par| ensures At(c, j) * At(u, j) * At(y, j) == (a * a) * WeightedDelay(par, r, c)(j) {
      RCOfConstantIsElmore(par, r, c, u, a, j);
      DelayTermIs(par, r, c, j);
      WeightedTerm(At(c, j), At(u, j), a, At(y, j), ElmoreDelay(par, r, c, j), WeightedDelay(par, r, c)(j));
    }
    SumScale(|par|, a * a, WeightedDelay(par, r, c), j => At(c, j) * At(u, j) * At(y, j));
  }

  lemma DelayTermIs(par: seq<int>, r: seq<real>, c: seq<real>, j: int)
    ensures WeightedDelay(par, r, c)(j) == At(c, j) * ElmoreDelay(par, r, c, j)
  {}

  lemma WeightedTerm(c: real, u: real, a: real, y: real, t: real, w: real)
    requires u == a && y == a * t && w == c * t
    ensures c * u * y == (a * a) * w
  {
    assert c * a * (a * t) == (a * a) * (c * t);
  }

  lemma MeanOf(d: real, s: real, ctot: real, a: real, sum: real)
    requires s > 0.0 && s * s == ctot && a == 1.0 / s && d == (a * a) * sum
    ensures d * ctot == sum
  {
    assert a * s == 1.0;
    assert (a * a) * sum * (s * s) == (a * s) * (a * s) * sum;
  }

  // With order 1 the model has one delay for all terminals, the driver among them:
  // it is exact where the delay is the mean, and nowhere else.
  lemma ElmoreOfOrderOne(m: Model, par: seq<int>, r: seq<real>, c: seq<real>, out: seq<int>, us: seq<seq<real>>, k: nat)
    requires Reduces(m, par, r, c, out, us) && m.order == 1 && k < m.n
    ensures Elmore(m, k) == ElmoreDelay(par, r, c, out[k])
            <==> ElmoreDelay(par, r, c, out[k]) * m.ctot == Sum(|par|, WeightedDelay(par, r, c))
  {
    hide Sum, ReducedModel, Tree, ElmoreDelay;
    FirstDiagonalIsMean(m, par, r, c, out, us);
    assert Elmore(m, k) == m.d[0];
    MeanIff(m.d[0], m.sqc, m.ctot, ElmoreDelay(par, r, c, out[k]), Sum(|par|, WeightedDelay(par, r, c)));
  }

  lemma MeanIff(d: real, s: real, ctot: real, t: real, sum: real)
    requires s > 0.0 && s * s == ctot && d * ctot == sum
    ensures d == t <==> t * ctot == sum
  {
    assert Times(s, s) == ctot;
    PosTimes(s, s);
    CancelIff(ctot, t, d, sum);
  }

  lemma CancelIff(k: real, t: real, d: real, sum: real)
    requires k != 0.0 && d * k == sum
    ensures d == t <==> t * k == sum
  {
    assert (t - d) * k == t * k - d * k;
  }

  // Below its order the model has every moment of the tree at every terminal.
  lemma MomentsExact(m: Model, par: seq<int>, r: seq<real>, c: seq<real>, out: seq<int>, us: seq<seq<real>>, p: nat,
                     k: nat)
    requires Reduces(m, par, r, c, out, us) && p < m.order && k < m.n
    ensures At(RCPower(par, r, c, us[0], p), out[k])
         == Dot(m.order, Moment(m.d, m.e, p), h => if 0 <= h < m.order then m.U[h][k] else 0.0)
  {
    MomentMatching(par, r, c, us, m.d, m.e, p, out[k]);
    hide ReducedModel, Dot, RCPower, Moment;
    DotCong(m.order, Moment(m.d, m.e, p), Column(us, out[k]),
            Moment(m.d, m.e, p), h => if 0 <= h < m.order then m.U[h][k] else 0.0);
  }

  // ---- Building the model ------------------------------------------------------

  const MIN_CAPACITANCE := 1e-22

  // The driver's terminal comes first, in exchange with terminal 0.
  function DriverFirst(k0: nat, k: nat): nat {
    if k == 0 then k0 else if k == k0 then 0 else k
  }

  lemma DriverFirstPermutes(k0: nat, n: nat, k: nat)
    requires k0 < n && k < n
    ensures DriverFirst(k0, k) < n && DriverFirst(k0, DriverFirst(k0, k)) == k
    ensures DriverFirst(k0, k) == k0 <==> k == 0
  {}

  // What the parasitics say: the capacitance of every point that has a node, the
  // value of every resistor, and the point and pin of every terminal.
  datatype Parasitics = Parasitics(cap: seq<real>, hasNode: seq<bool>, res: seq<real>, termPoint: seq<int>,
                                   pins: seq<int>)

  ghost function NodeCap(x: Parasitics): int -> real {
    p => if 0 <= p < |x.cap| && p < |x.hasNode| && x.hasNode[p] && x.cap[p] > 0.0 then x.cap[p] else 0.0
  }

  ghost predicate Describes(x: Parasitics, g: Net, k0: nat) {
    && |x.cap| == |x.hasNode| == g.pointN && |x.res| == |g.a| && |x.pins| == |x.termPoint|
    && k0 < |x.termPoint| && |g.a| == |g.b|
    && (forall e :: 0 <= e < |g.a| ==> 0 <= g.a[e] < g.pointN && 0 <= g.b[e] < g.pointN
                                       && x.hasNode[g.a[e]] && x.hasNode[g.b[e]])
    && forall k :: 0 <= k < |x.termPoint| ==> 0 <= x.termPoint[k] < g.pointN && x.hasNode[x.termPoint[k]]
  }

  // Every node is reached from the driver, which has a resistor.
  ghost predicate Connected(x: Parasitics, g: Net, drv: int)
    requires WellFormed(g) && |x.hasNode| == g.pointN
  {
    && 0 <= drv < g.pointN && |g.eV[drv]| > 0
    && forall p :: 0 <= p < g.pointN && x.hasNode[p] ==> Reachable(g, drv, p)
  }

  // The oriented network as the traversal leaves it; ord lists the visited points.
  datatype Oriented = Oriented(from: seq<int>, to: seq<int>, ts: seq<int>, inEdge: seq<int>, ord: seq<int>)

  ghost function Result(w: TsWork): Oriented
    requires w.Buffers() && w.ordN <= w.pointN
    reads w, w.from, w.to, w.ts, w.inEdge, w.pordV
  {
    Oriented(w.from[..], w.to[..], w.ts[..], w.inEdge[..], w.pordV[..w.ordN])
  }

  // Point number j > 0 and the edge e into it, from a point with a smaller number.
  ghost predicate EdgeInto(o: Oriented, j: int, e: int) {
    && 0 < j < |o.ord| && 0 <= o.ord[j] < |o.inEdge| && o.inEdge[o.ord[j]] == e
    && 0 <= e < |o.from| == |o.to| && o.to[e] == o.ord[j] && 0 <= o.from[e] < |o.ts| && 0 <= o.ts[o.from[e]] < j
  }

  // The sequences the recurrence works on are those of the oriented network.
  ghost predicate TreeOf(o: Oriented, x: Parasitics, par: seq<int>, r: seq<real>, c: seq<real>) {
    && |par| == |r| == |c| == |o.ord| > 0 && par[0] == -1 && r[0] == 0.0
    && (forall j :: 0 <= j < |o.ord| ==> c[j] == NodeCap(x)(o.ord[j]))
    && forall j :: 0 < j < |o.ord| ==> EdgeLoaded(o, x, par[j], r[j], j)
  }

  ghost predicate EdgeLoaded(o: Oriented, x: Parasitics, parent: int, r: real, j: int) {
    exists e :: EdgeInto(o, j, e) && parent == o.ts[o.from[e]] && e < |x.res| && r == x.res[e]
  }

  // The capacitance and resistance of every point, and the total capacitance.
  method GetRC(w: TsWork, x: Parasitics) returns (c: array<real>, r: array<real>, ctot: real)
    requires w.Buffers() && |x.cap| == |x.hasNode| == w.pointN && |x.res| == w.edgeN
    ensures fresh(c) && fresh(r) && c.Length == r.Length == w.pointN
    ensures forall p :: 0 <= p < w.pointN ==> c[p] == NodeCap(x)(p)
    ensures forall p :: 0 <= p < w.pointN && x.hasNode[p] && 0 <= w.inEdge[p] < w.edgeN ==> r[p] == x.res[w.inEdge[p]]
    ensures ctot == Sum(w.pointN, NodeCap(x))
  {
    c, r := new real[w.pointN], new real[w.pointN];
    ctot := 0.0;
    for p := 0 to w.pointN
      invariant ctot == Sum(p, NodeCap(x))
      invariant forall q :: 0 <= q < p ==> c[q] == NodeCap(x)(q)
      invariant forall q :: 0 <= q < p && x.hasNode[q] && 0 <= w.inEdge[q] < w.edgeN ==> r[q] == x.res[w.inEdge[q]]
    {
      c[p] := 0.0;
      r[p] := 0.0;
      if x.hasNode[p] {
        if x.cap[p] > 0.0 {
          c[p] := x.cap[p];
          ctot := ctot + x.cap[p];
        }
        if 0 <= w.inEdge[p] < w.edgeN { r[p] := x.res[w.inEdge[p]]; }
      }
    }
  }

  // The traversal has been run from the driver and reaches every node.
  ghost predicate Traversed(o: Oriented, x: Parasitics, drv: int) {
    && 0 < |o.ord| && o.ord[0] == drv && |o.ts| == |o.inEdge| == |x.hasNode| && |o.from| == |o.to| == |x.res|
    && (forall i :: 0 <= i < |o.ord| ==> 0 <= o.ord[i] < |o.ts| && x.hasNode[o.ord[i]] && o.ts[o.ord[i]] == i)
    && (forall p :: 0 <= p < |o.ts| && x.hasNode[p] ==> 0 <= o.ts[p] < |o.ord| && o.ord[o.ts[p]] == p)
    && forall i :: 0 < i < |o.ord| ==> EdgeInto(o, i, o.inEdge[o.ord[i]])
  }

  // Loads the oriented tree into the buffers of the recurrence.
  method LoadTree(w: TsWork, x: Parasitics, ghost drv: int, pc: array<real>, pr: array<real>, rw: RcWork)
    requires w.Buffers() && w.ordN <= w.pointN && Traversed(Result(w), x, drv)
    requires pc.Length == pr.Length == w.pointN
    requires forall p :: 0 <= p < w.pointN ==> pc[p] == NodeCap(x)(p)
    requires forall p :: 0 <= p < w.pointN && x.hasNode[p] && 0 <= w.inEdge[p] < w.edgeN ==> pr[p] == x.res[w.inEdge[p]]
    requires rw.par.Length == rw.r.Length == rw.c.Length == w.ordN && rw.r != rw.c
    requires rw.par != w.from && rw.par != w.to && rw.par != w.ts && rw.par != w.inEdge && rw.par != w.pordV
    requires rw.c != pc && rw.c != pr && rw.r != pc && rw.r != pr
    modifies rw.par, rw.r, rw.c
    ensures Result(w) == old(Result(w))
    ensures TreeOf(Result(w), x, rw.par[..], rw.r[..], rw.c[..]) && Tree(rw.par[..])
  {
    ghost var o, PC, PR := Result(w), pc[..], pr[..];
    rw.par[0], rw.r[0] := -1, 0.0;
    rw.c[0] := pc[w.pordV[0]];
    for j := 1 to w.ordN
      invariant Result(w) == o && pc[..] == PC && pr[..] == PR
      invariant LoadedTo(o, PC, PR, rw.par[..], rw.r[..], rw.c[..], j)
    {
      hide Traversed, NodeCap, LoadedTo;
      assert EdgeInto(o, j, o.inEdge[o.ord[j]]) by { EveryPointEntered(o, x, drv, j); }
      var p := w.pordV[j];
      assert p == o.ord[j];
      LoadedNext(o, PC, PR, rw.par[..], rw.r[..], rw.c[..], j);
      rw.c[j] := pc[p];
      rw.r[j] := pr[p];
      rw.par[j] := w.ts[w.from[w.inEdge[p]]];
    }
    LoadedAll(o, x, drv, PC, PR, rw.par[..], rw.r[..], rw.c[..]);
  }

  lemma EveryPointEntered(o: Oriented, x: Parasitics, drv: int, j: int)
    requires Traversed(o, x, drv) && 0 < j < |o.ord|
    ensures |o.ts| == |o.inEdge| && 0 <= o.ord[j] < |o.ts| && EdgeInto(o, j, o.inEdge[o.ord[j]])
  {}

  // The first n points have been loaded.
  ghost predicate LoadedTo(o: Oriented, pc: seq<real>, pr: seq<real>, par: seq<int>, r: seq<real>, c: seq<real>,
                           n: nat) {
    && |par| == |r| == |c| == |o.ord| && 0 < n <= |o.ord| && par[0] == -1 && r[0] == 0.0
    && forall i :: 0 <= i < n ==> PointLoaded(o, pc, pr, par[i], r[i], c[i], i)
  }

  ghost predicate PointLoaded(o: Oriented, pc: seq<real>, pr: seq<real>, par: int, r: real, c: real, i: nat) {
    && i < |o.ord| && 0 <= o.ord[i] < |pc| == |pr| && c == pc[o.ord[i]]
    && (i > 0 ==>
          && o.ord[i] < |o.inEdge| && EdgeInto(o, i, o.inEdge[o.ord[i]])
          && r == pr[o.ord[i]] && par == o.ts[o.from[o.inEdge[o.ord[i]]]])
  }

  lemma LoadedNext(o: Oriented, pc: seq<real>, pr: seq<real>, par: seq<int>, r: seq<real>, c: seq<real>, j: nat)
    requires LoadedTo(o, pc, pr, par, r, c, j) && j < |o.ord| && 0 <= o.ord[j] < |pc| == |pr|
    requires 0 <= o.ord[j] < |o.inEdge| && EdgeInto(o, j, o.inEdge[o.ord[j]])
    ensures |par| == |r| == |c| == |o.ord|
    ensures var p := o.ord[j];
      LoadedTo(o, pc, pr, par[j := o.ts[o.from[o.inEdge[p]]]], r[j := pr[p]], c[j := pc[p]], j + 1)
  {
    var p := o.ord[j];
    var par', r', c' := par[j := o.ts[o.from[o.inEdge[p]]]], r[j := pr[p]], c[j := pc[p]];
    forall i | 0 <= i < j + 1 ensures PointLoaded(o, pc, pr, par'[i], r'[i], c'[i], i) {
      if i < j { assert PointLoaded(o, pc, pr, par[i], r[i], c[i], i); }
    }
  }

  lemma LoadedAll(o: Oriented, x: Parasitics, drv: int, pc: seq<real>, pr: seq<real>, par: seq<int>, r: seq<real>,
                  c: seq<real>)
    requires Traversed(o, x, drv) && |pc| == |pr| == |o.ts| && LoadedTo(o, pc, pr, par, r, c, |o.ord|)
    requires forall p :: 0 <= p < |pc| ==> pc[p] == NodeCap(x)(p)
    requires forall p :: 0 <= p < |pr| && x.hasNode[p] && 0 <= o.inEdge[p] < |o.from| ==> pr[p] == x.res[o.inEdge[p]]
    ensures TreeOf(o, x, par, r, c) && Tree(par)
  {
    forall j | 0 < j < |o.ord| ensures EdgeLoaded(o, x, par[j], r[j], j) && 0 <= par[j] < j {
      assert PointLoaded(o, pc, pr, par[j], r[j], c[j], j);
      assert EdgeInto(o, j, o.inEdge[o.ord[j]]) && x.hasNode[o.ord[j]];
    }
    forall j | 0 <= j < |o.ord| ensures c[j] == NodeCap(x)(o.ord[j]) {
      assert PointLoaded(o, pc, pr, par[j], r[j], c[j], j);
    }
  }

  // The place of every terminal among the visited points, the driver's first.
  ghost predicate TermsAt(o: Oriented, x: Parasitics, k0: nat, out: seq<int>) {
    && |out| == |x.termPoint|
    && forall k :: 0 <= k < |out| ==>
         DriverFirst(k0, k) < |x.termPoint| && 0 <= x.termPoint[DriverFirst(k0, k)] < |o.ts|
         && out[k] == o.ts[x.termPoint[DriverFirst(k0, k)]]
  }

  method SetTerms(w: TsWork, x: Parasitics, k0: nat, rw: RcWork) returns (termV: array<int>)
    requires w.Buffers() && w.ordN <= w.pointN && k0 < |x.termPoint| == rw.outV.Length
    requires forall k :: 0 <= k < |x.termPoint| ==> 0 <= x.termPoint[k] < w.pointN
    requires rw.outV != w.from && rw.outV != w.to && rw.outV != w.ts && rw.outV != w.inEdge && rw.outV != w.pordV
    modifies rw.outV
    ensures Result(w) == old(Result(w))
    ensures fresh(termV) && termV.Length == |x.termPoint|
    ensures forall k :: 0 <= k < termV.Length ==> termV[k] == DriverFirst(k0, k)
    ensures TermsAt(Result(w), x, k0, rw.outV[..])
  {
    termV := new int[|x.termPoint|];
    termV[0] := k0;
    for k := 1 to termV.Length
      invariant forall i :: 0 <= i < k ==> termV[i] == DriverFirst(k0, i)
    {
      if k == k0 { termV[k] := 0; } else { termV[k] := k; }
    }
    ghost var o := Result(w);
    for k := 0 to termV.Length
      invariant Result(w) == o && forall i :: 0 <= i < termV.Length ==> termV[i] == DriverFirst(k0, i)
      invariant forall i :: 0 <= i < k ==> rw.outV[i] == o.ts[x.termPoint[DriverFirst(k0, i)]]
    {
      rw.outV[k] := w.ts[x.termPoint[termV[k]]];
    }
  }

  // The model is copied out of the buffers.
  method MakeRcmodelFromW(rw: RcWork, x: Parasitics, termV: array<int>) returns (m: Model)
    requires rw.Buffers() && 0 < rw.order <= MAX_ORDER && rw.nterms == termV.Length == |x.pins|
    requires forall k :: 0 <= k < termV.Length ==> 0 <= termV[k] < |x.pins|
    ensures m.order == rw.order && m.n == rw.nterms && m.ctot == rw.ctot && m.sqc == rw.sqc
    ensures m.d == rw.d[..rw.order] && m.e == rw.e[..rw.order - 1]
    ensures |m.U| == rw.order && forall h :: 0 <= h < rw.order ==> |m.U[h]| == rw.nterms
    ensures forall h, k :: 0 <= h < rw.order && 0 <= k < rw.nterms ==> m.U[h][k] == rw.U[h, k]
    ensures |m.pinV| == m.n && forall k :: 0 <= k < m.n ==> m.pinV[k] == x.pins[termV[k]]
  {
    var d, e, U, pinV := [], [], [], [];
    for h := 0 to rw.order
      invariant d == rw.d[..h] && e == rw.e[..if h < rw.order then h else h - 1]
      invariant |U| == h && forall i :: 0 <= i < h ==> |U[i]| == rw.nterms
      invariant forall i, k :: 0 <= i < h && 0 <= k < rw.nterms ==> U[i][k] == rw.U[i, k]
    {
      d := d + [rw.d[h]];
      if h < rw.order - 1 { e := e + [rw.e[h]]; }
      var row := [];
      for k := 0 to rw.nterms
        invariant |row| == k && forall i :: 0 <= i < k ==> row[i] == rw.U[h, i]
      {
        row := row + [rw.U[h, k]];
      }
      U := U + [row];
    }
    for k := 0 to rw.nterms
      invariant |pinV| == k && forall i :: 0 <= i < k ==> pinV[i] == x.pins[termV[i]]
    {
      pinV := pinV + [x.pins[termV[k]]];
    }
    m := Model(rw.order, rw.nterms, d, e, U, pinV, rw.ctot, rw.sqc);
  }

  lemma TraversalResult(w: TsWork, g: Net, x: Parasitics, k0: nat)
    requires w.Buffers() && WellFormed(g) && g.pointN == w.pointN && |g.a| == w.edgeN && Describes(x, g, k0)
    requires Connected(x, g, x.termPoint[k0])
    requires 0 < w.ordN <= w.pointN && w.pordV[0] == x.termPoint[k0]
    requires forall p :: 0 <= p < w.pointN ==> (w.visited[p] <==> Reachable(g, x.termPoint[k0], p))
    requires forall i :: 0 <= i < w.ordN ==> 0 <= w.pordV[i] < w.pointN && w.ts[w.pordV[i]] == i
    requires forall p :: 0 <= p < w.pointN && w.visited[p] ==> 0 <= w.ts[p] < w.ordN && w.pordV[w.ts[p]] == p
    requires forall i :: 0 < i < w.ordN ==> w.TreeEdge(g, w.pordV[i])
    ensures Traversed(Result(w), x, x.termPoint[k0])
  {
    hide WellFormed, Reachable;
    var o := Result(w);
    forall i | 0 < i < |o.ord| ensures EdgeInto(o, i, o.inEdge[o.ord[i]]) && x.hasNode[o.ord[i]] {
      assert w.TreeEdge(g, w.pordV[i]);
    }
  }

  // The tree holds all the capacitance of the network.
  lemma TreeHasCapacitance(o: Oriented, x: Parasitics, drv: int, par: seq<int>, r: seq<real>, c: seq<real>)
    requires Traversed(o, x, drv) && TreeOf(o, x, par, r, c) && |x.cap| == |x.hasNode|
    requires Sum(|o.ts|, NodeCap(x)) > 0.0
    ensures Sum(|c|, Entries(c)) > 0.0
  {
    var p := PositiveTerm(|o.ts|, NodeCap(x));
    assert c[o.ts[p]] == NodeCap(x)(p);
    PositiveSum(|c|, Entries(c), o.ts[p]);
  }

  lemma {:induction false} PositiveTerm(n: nat, f: int -> real) returns (k: nat)
    requires Sum(n, f) > 0.0
    ensures k < n && f(k) > 0.0
  {
    if f(n - 1) > 0.0 { k := n - 1; } else { k := PositiveTerm(n - 1, f); }
  }

  lemma {:induction false} PositiveSum(n: nat, f: int -> real, k: nat)
    requires k < n && f(k) > 0.0 && forall i :: 0 <= i < n ==> f(i) >= 0.0
    ensures Sum(n, f) > 0.0
  {
    if k == n - 1 { SumNonNeg(n - 1, f); } else { PositiveSum(n - 1, f, k); }
  }

  // The order is at most five and the number of points; if it is less than both the
  // recurrence ran out, and not before.
  ghost predicate OrderOf(m: Model, par: seq<int>, r: seq<real>, c: seq<real>, us: seq<seq<real>>) {
    && |us| == m.order == |m.d| == |m.e| + 1 && m.order <= 5 && m.order <= |par|
    && (forall k :: 0 <= k < m.order - 1 ==> WentOn(m.d[k], m.e[k]))
    && (m.order < 5 && m.order < |par| ==> StoppedEarly(par, r, c, us, m.d[m.order - 1], m.e))
  }

  // What the reduction of a driver's network is.
  ghost predicate ModelOf(m: Model, o: Oriented, x: Parasitics, k0: nat, par: seq<int>, r: seq<real>, c: seq<real>,
                          out: seq<int>, us: seq<seq<real>>)
  {
    && TreeOf(o, x, par, r, c) && TermsAt(o, x, k0, out) && Reduces(m, par, r, c, out, us) && OrderOf(m, par, r, c, us)
    && m.n == |x.termPoint| == |m.pinV| == |x.pins| && out[0] == 0
    && forall k :: 0 <= k < |x.pins| ==> DriverFirst(k0, k) < |x.pins| && m.pinV[k] == x.pins[DriverFirst(k0, k)]
  }

  // The whole reduction for a driver. There is no model for a network with
  // next to no capacitance.
  method MakeRcmodelDrv(w: TsWork, x: Parasitics, k0: nat, sqrt: real -> real, ghost g: Net)
    returns (m: Option<Model>, ghost par: seq<int>, ghost r: seq<real>, ghost c: seq<real>, ghost out: seq<int>,
             ghost us: seq<seq<real>>)
    requires w.Buffers() && WellFormed(g) && g.pointN == w.pointN && |g.a| == w.edgeN && g.eV == w.eV
    requires w.from[..] == g.a && w.to[..] == g.b
    requires Describes(x, g, k0) && Connected(x, g, x.termPoint[k0]) && IsSqrt(sqrt)
    modifies w, w.from, w.to, w.visited, w.ts, w.inEdge, w.pordV, w.stackV
    ensures m.None? <==> Sum(|x.cap|, NodeCap(x)) < 1e-22
    ensures w.ordN <= w.pointN && Traversed(Result(w), x, x.termPoint[k0])
    ensures m.Some? ==> ModelOf(m.value, Result(w), x, k0, par, r, c, out, us)
  {
    hide Traversed, TreeOf, TermsAt, Reduces, Sum, NodeCap, IsSqrt, Connected, WellFormed;
    OrientNetwork(w, x, k0, g);
    m, par, r, c, out, us := Reduce(w, x, k0, sqrt);
  }

  method OrientNetwork(w: TsWork, x: Parasitics, k0: nat, ghost g: Net)
    requires w.Buffers() && WellFormed(g) && g.pointN == w.pointN && |g.a| == w.edgeN && g.eV == w.eV
    requires w.from[..] == g.a && w.to[..] == g.b
    requires Describes(x, g, k0) && Connected(x, g, x.termPoint[k0])
    modifies w, w.from, w.to, w.visited, w.ts, w.inEdge, w.pordV, w.stackV
    ensures w.ordN <= w.pointN && Traversed(Result(w), x, x.termPoint[k0])
  {
    hide WellFormed, Traversed, Reachable;
    ghost var s := w.MakeRcmodelDfs(x.termPoint[k0], g);
    TraversalResult(w, g, x, k0);
  }

  method Reduce(w: TsWork, x: Parasitics, k0: nat, sqrt: real -> real)
    returns (m: Option<Model>, ghost par: seq<int>, ghost r: seq<real>, ghost c: seq<real>, ghost out: seq<int>,
             ghost us: seq<seq<real>>)
    requires w.Buffers() && w.ordN <= w.pointN && IsSqrt(sqrt) && |x.cap| == w.pointN && k0 < |x.termPoint| == |x.pins|
    requires forall k :: 0 <= k < |x.termPoint| ==>
      0 <= x.termPoint[k] < w.pointN && x.termPoint[k] < |x.hasNode| && x.hasNode[x.termPoint[k]]
    requires Traversed(Result(w), x, x.termPoint[k0])
    ensures m.None? <==> Sum(|x.cap|, NodeCap(x)) < 1e-22
    ensures m.Some? ==> ModelOf(m.value, Result(w), x, k0, par, r, c, out, us)
  {
    hide Traversed, TreeOf, TermsAt, Reduces, OrderOf, Sum, NodeCap, IsSqrt, Tree, ReducedModel;
    ghost var o, drv := Result(w), x.termPoint[k0];
    TraversedSizes(o, x, drv);
    var pc, pr, ctot := GetRC(w, x);
    if ctot < MIN_CAPACITANCE { return None, [], [], [], [], []; }
    var rw, termV := LoadWork(w, x, k0, pc, pr);
    par, r, c, out := rw.par[..], rw.r[..], rw.c[..], rw.outV[..];
    TreeHasCapacitance(o, x, drv, par, r, c);
    var model;
    model, us := Solve(rw, x, termV, sqrt);
    m := Some(model);
  }

  // The buffers of the recurrence for the oriented network.
  method LoadWork(w: TsWork, x: Parasitics, k0: nat, pc: array<real>, pr: array<real>)
    returns (rw: RcWork, termV: array<int>)
    requires w.Buffers() && w.ordN <= w.pointN && k0 < |x.termPoint|
    requires forall k :: 0 <= k < |x.termPoint| ==>
      0 <= x.termPoint[k] < w.pointN && x.termPoint[k] < |x.hasNode| && x.hasNode[x.termPoint[k]]
    requires Traversed(Result(w), x, x.termPoint[k0]) && pc.Length == pr.Length == w.pointN
    requires forall p :: 0 <= p < w.pointN ==> pc[p] == NodeCap(x)(p)
    requires forall p :: 0 <= p < w.pointN && x.hasNode[p] && 0 <= w.inEdge[p] < w.edgeN ==> pr[p] == x.res[w.inEdge[p]]
    ensures fresh(rw) && fresh(rw.iv) && fresh(rw.y) && fresh(rw.ua) && fresh(rw.ub) && fresh(rw.d) && fresh(rw.e)
    ensures fresh(rw.U)
    ensures rw.Loaded() && rw.n == w.ordN && rw.nterms == termV.Length == |x.termPoint|
    ensures TreeOf(Result(w), x, rw.par[..], rw.r[..], rw.c[..]) && TermsAt(Result(w), x, k0, rw.outV[..])
    ensures rw.outV[0] == 0
    ensures forall k :: 0 <= k < termV.Length ==> termV[k] == DriverFirst(k0, k)
  {
    hide Traversed, TreeOf, TermsAt, NodeCap, Tree;
    ghost var o := Result(w);
    TraversedSizes(o, x, x.termPoint[k0]);
    rw := new RcWork(w.ordN, |x.termPoint|);
    termV := SetTerms(w, x, k0, rw);
    LoadTree(w, x, x.termPoint[k0], pc, pr, rw);
    TermsVisited(o, x, x.termPoint[k0], k0, rw.outV[..]);
  }

  method Solve(rw: RcWork, x: Parasitics, termV: array<int>, sqrt: real -> real)
    returns (m: Model, ghost us: seq<seq<real>>)
    requires rw.Loaded() && IsSqrt(sqrt) && Sum(rw.n, Entries(rw.c[..])) > 0.0
    requires rw.nterms == termV.Length == |x.pins| > 0 && forall k :: 0 <= k < termV.Length ==> 0 <= termV[k] < |x.pins|
    modifies rw, rw.iv, rw.y, rw.ua, rw.ub, rw.d, rw.e, rw.U
    ensures Reduces(m, old(rw.par[..]), old(rw.r[..]), old(rw.c[..]), old(rw.outV[..]), us)
    ensures OrderOf(m, old(rw.par[..]), old(rw.r[..]), old(rw.c[..]), us)
    ensures m.n == |m.pinV| == |x.pins|
    ensures forall k :: 0 <= k < m.n ==> 0 <= old(termV[k]) < |x.pins| && m.pinV[k] == x.pins[old(termV[k])]
  {
    hide Sum, IsSqrt, ReducedModel, Tree, Reduces, StoppedEarly;
    us := rw.MakeRcmodelFromTs(sqrt);
    m := MakeRcmodelFromW(rw, x, termV);
    IsReduction(m, rw.par[..], rw.r[..], rw.c[..], rw.outV[..], us, sqrt);
  }

  lemma TraversedSizes(o: Oriented, x: Parasitics, drv: int)
    requires Traversed(o, x, drv)
    ensures 0 < |o.ord| && |o.ts| == |o.inEdge| == |x.hasNode| && |o.from| == |o.to| == |x.res|
  {}

  lemma TermsVisited(o: Oriented, x: Parasitics, drv: int, k0: nat, out: seq<int>)
    requires Traversed(o, x, drv) && TermsAt(o, x, k0, out) && k0 < |x.termPoint| && x.termPoint[k0] == drv
    requires forall k :: 0 <= k < |x.termPoint| ==> 0 <= x.termPoint[k] < |x.hasNode| && x.hasNode[x.termPoint[k]]
    ensures forall k :: 0 <= k < |out| ==> 0 <= out[k] < |o.ord|
    ensures |out| == |x.termPoint| && out[0] == 0
  {
    forall k | 0 <= k < |out| ensures 0 <= out[k] < |o.ord| {
      assert x.hasNode[x.termPoint[DriverFirst(k0, k)]];
    }
  }

  lemma IsReduction(m: Model, par: seq<int>, r: seq<real>, c: seq<real>, out: seq<int>, us: seq<seq<real>>,
                    sqrt: real -> real)
    requires IsSqrt(sqrt) && Tree(par) && |par| == |c| && m.order > 0 && |us| == m.order && |out| == m.n > 0
    requires |m.d| == |m.U| == m.order && |m.e| == m.order - 1 && forall h :: 0 <= h < m.order ==> |m.U[h]| == m.n
    requires ReducedModel(par, r, c, us, m.d, m.e)
    requires m.ctot == Sum(|c|, Entries(c)) > 0.0 && m.sqc == sqrt(m.ctot) > 0.0
    requires forall j :: 0 <= j < |par| ==> At(us[0], j) == 1.0 / m.sqc
    requires forall k :: 0 <= k < m.n ==> 0 <= out[k] < |par|
    requires forall h, k :: 0 <= h < m.order && 0 <= k < m.n ==> m.U[h][k] == At(us[h], out[k])
    ensures Reduces(m, par, r, c, out, us)
  {
    hide ReducedModel, Sum;
    var z := out[0];
    assert m.U[0][0] == At(us[0], z) && At(us[0], z) == 1.0 / m.sqc;
  }
}
