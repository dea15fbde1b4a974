// The RC tree seen from behind the driver's resistance: one more root, from which that
// resistance leads to the driver.
module DrivenTree {
  import opened RealSums
  import opened RcTree

  // Point j becomes point j + 1; the driver's parent is the new root.
  ghost function DrivenPar(par: seq<int>): (p: seq<int>)
    requires |par| > 0
    ensures |p| == |par| + 1
  {
    seq(|par| + 1, i requires 0 <= i < |par| + 1 => if i == 0 then -1 else if i == 1 then 0 else par[i - 1] + 1)
  }

  ghost function DrivenR(n: nat, r: seq<real>, rdrive: real): (s: seq<real>)
    ensures |s| == n + 1
  {
    seq(n + 1, i => if i == 0 then 0.0 else if i == 1 then rdrive else At(r, i - 1))
  }

  // The new root has no capacitance.
  ghost function DrivenC(n: nat, c: seq<real>): (s: seq<real>)
    ensures |s| == n + 1
  {
    seq(n + 1, i => if i == 0 then 0.0 else At(c, i - 1))
  }

  ghost function DrivenDelay(par: seq<int>, r: seq<real>, c: seq<real>, rdrive: real, j: int): real
    requires |par| > 0
  {
    ElmoreDelay(DrivenPar(par), DrivenR(|par|, r, rdrive), DrivenC(|par|, c), j + 1)
  }

  lemma DrivenIsTree(par: seq<int>)
    requires Tree(par)
    ensures Tree(DrivenPar(par))
  {}

  lemma {:induction false} AncShifted(par: seq<int>, k: int, j: int)
    requires Tree(par) && 0 <= k && 0 <= j < |par|
    ensures Anc(DrivenPar(par), k + 1, j + 1) <==> Anc(par, k, j)
    decreases j
  {
    if k != j && j > 0 { AncShifted(par, k, par[j]); }
  }

  lemma {:induction false} RootIsAnc(par: seq<int>, j: int)
    requires Tree(par) && 0 <= j < |par|
    ensures Anc(par, 0, j)
    decreases j
  {
    if j > 0 { RootIsAnc(par, par[j]); }
  }

  lemma {:induction false} SumShifted(n: nat, f: int -> real, g: int -> real)
    requires forall i :: 0 <= i < n ==> g(i) == f(i + 1)
    ensures Sum(n + 1, f) == f(0) + Sum(n, g)
  {
    if n > 0 { SumShifted(n - 1, f, g); }
  }

  // The edges shared by the root paths of j and m.
  ghost function Shared(par: seq<int>, r: seq<real>, j: int, m: int): int -> real {
    k => if k != 0 && Anc(par, k, j) && Anc(par, k, m) then At(r, k) else 0.0
  }

  lemma SharedIsSum(par: seq<int>, r: seq<real>, j: int, m: int)
    ensures SharedResistance(par, r, j, m) == Sum(|par|, Shared(par, r, j, m))
  {
    SumCong(|par|, Shared(par, r, j, m), k => if k != 0 && Anc(par, k, j) && Anc(par, k, m) then At(r, k) else 0.0);
  }

  // All points share the driver's resistance.
  lemma DrivenShares(par: seq<int>, r: seq<real>, rdrive: real, j: int, m: int)
    requires Tree(par) && 0 <= j < |par| && 0 <= m < |par|
    ensures SharedResistance(DrivenPar(par), DrivenR(|par|, r, rdrive), j + 1, m + 1)
         == SharedResistance(par, r, j, m) + rdrive
  {
    hide Tree, Anc, Sum, SharedResistance;
    var n, f := |par|, Shared(DrivenPar(par), DrivenR(|par|, r, rdrive), j + 1, m + 1);
    var g := i => f(i + 1);
    SharedIsSum(DrivenPar(par), DrivenR(n, r, rdrive), j + 1, m + 1);
    SharedIsSum(par, r, j, m);
    SumShifted(n, f, g);
    forall k | 0 <= k < n ensures g(k) == Shared(par, r, j, m)(k) + if k == 0 then rdrive else 0.0 {
      AncShifted(par, k, j);
      AncShifted(par, k, m);
      if k == 0 {
        RootIsAnc(par, j);
        RootIsAnc(par, m);
      }
    }
    assert n > 0 by { HasRoot(par); }
    SumChange(n, Shared(par, r, j, m), g, 0);
  }

  lemma HasRoot(par: seq<int>)
    requires Tree(par)
    ensures |par| > 0
  {}

  ghost function DelayTerms(par: seq<int>, r: seq<real>, c: seq<real>, j: int): int -> real {
    m => SharedResistance(par, r, j, m) * At(c, m)
  }

  lemma DelayOf(par: seq<int>, r: seq<real>, c: seq<real>, j: int)
    ensures ElmoreDelay(par, r, c, j) == Sum(|par|, DelayTerms(par, r, c, j))
  {
    hide SharedResistance;
    SumCong(|par|, DelayTerms(par, r, c, j), m => SharedResistance(par, r, j, m) * At(c, m));
  }

  // Every delay grows by the driver's resistance times all the capacitance.
  lemma DrivenDelayIs(par: seq<int>, r: seq<real>, c: seq<real>, rdrive: real, j: int)
    requires Tree(par) && 0 <= j < |par|
    ensures DrivenDelay(par, r, c, rdrive, j) == ElmoreDelay(par, r, c, j) + rdrive * Sum(|par|, Entries(c))
  {
    hide Tree, Sum, SharedResistance, ElmoreDelay;
    HasRoot(par);
    var n := |par|;
    var par', r', c' := DrivenPar(par), DrivenR(n, r, rdrive), DrivenC(n, c);
    var f, g := DelayTerms(par', r', c', j + 1), i => DelayTerms(par', r', c', j + 1)(i + 1);
    DelayOf(par', r', c', j + 1);
    DelayOf(par, r, c, j);
    SumShifted(n, f, g);
    assert f(0) == 0.0 by { NoCharge(SharedResistance(par', r', j + 1, 0)); }
    forall m | 0 <= m < n ensures g(m) == 1.0 * DelayTerms(par, r, c, j)(m) + rdrive * Entries(c)(m) {
      DrivenShares(par, r, rdrive, j, m);
      Split(SharedResistance(par', r', j + 1, m + 1), SharedResistance(par, r, j, m), rdrive, At(c, m));
    }
    SumLinear(n, 1.0, DelayTerms(par, r, c, j), rdrive, Entries(c), g);
  }

  lemma NoCharge(x: real)
    ensures x * 0.0 == 0.0
  {}

  lemma Split(s: real, t: real, x: real, c: real)
    requires s == t + x
    ensures s * c == 1.0 * (t * c) + x * c
  {}

  // The delay of every point but the new root, weighted with its capacitance.
  ghost function DrivenWeighted(par: seq<int>, r: seq<real>, c: seq<real>, rdrive: real): int -> real
    requires |par| > 0
  {
    j => At(c, j) * DrivenDelay(par, r, c, rdrive, j)
  }

  ghost function WeightedDelay(par: seq<int>, r: seq<real>, c: seq<real>): int -> real {
    j => At(c, j) * ElmoreDelay(par, r, c, j)
  }

  // The weighted sum grows by the driver's resistance times the square of the capacitance.
  lemma DrivenSum(par: seq<int>, r: seq<real>, c: seq<real>, rdrive: real)
    requires Tree(par)
    ensures var ctot := Sum(|par|, Entries(c));
      && |par| > 0
      && Sum(|par|, DrivenWeighted(par, r, c, rdrive)) == Sum(|par|, WeightedDelay(par, r, c)) + rdrive * ctot * ctot
  {
    hide Tree, Sum, ElmoreDelay, DrivenDelay;
    HasRoot(par);
    var n, ctot := |par|, Sum(|par|, Entries(c));
    var h := DrivenWeighted(par, r, c, rdrive);
    forall j | 0 <= j < n ensures h(j) == 1.0 * WeightedDelay(par, r, c)(j) + (rdrive * ctot) * Entries(c)(j) {
      DrivenDelayIs(par, r, c, rdrive, j);
      Weigh(At(c, j), DrivenDelay(par, r, c, rdrive, j), ElmoreDelay(par, r, c, j), rdrive * ctot);
    }
    SumLinear(n, 1.0, WeightedDelay(par, r, c), rdrive * ctot, Entries(c), h);
  }

  lemma Weigh(c: real, s: real, t: real, x: real)
    requires s == t + x
    ensures c * s == 1.0 * (c * t) + x * c
  {}
}
