// The RC tree of one driven net, in depth-first order: point 0 is the driver,
// par[j] is the parent of point j, r[j] the resistance of the edge to it, and
// c[j] the grounded capacitance.
module RcTree {
  import opened RealSums

  ghost predicate Tree(par: seq<int>) {
    |par| > 0 && forall j :: 0 < j < |par| ==> 0 <= par[j] < j
  }

  // k lies on the path from the root to j, both ends included.
  ghost predicate Anc(par: seq<int>, k: int, j: int)
    decreases j
  {
    k == j || (0 < j < |par| && 0 <= par[j] < j && Anc(par, k, par[j]))
  }

  // The current into the subtree under k when point m injects x[m].
  ghost function SubtreeCurrent(par: seq<int>, x: int -> real, k: int): real {
    Sum(|par|, m => if Anc(par, k, m) then x(m) else 0.0)
  }

  // The sum over the points k of the path to j of z(k).
  ghost function PathSum(par: seq<int>, z: int -> real, j: int): real {
    Sum(|par|, k => if Anc(par, k, j) then z(k) else 0.0)
  }

  // The drop along the edge into k when the charges c*u flow to the root. There
  // is no edge into the root.
  ghost function EdgeDrop(par: seq<int>, r: seq<real>, c: seq<real>, u: seq<real>): int -> real {
    k => if k == 0 then 0.0 else At(r, k) * SubtreeCurrent(par, Charge(c, u), k)
  }

  // Entry j of R*C*u: the voltage drop from the root to j.
  ghost function RC(par: seq<int>, r: seq<real>, c: seq<real>, u: seq<real>, j: int): real {
    PathSum(par, EdgeDrop(par, r, c, u), j)
  }

  // The resistance shared by the root paths of j and m.
  ghost function SharedResistance(par: seq<int>, r: seq<real>, j: int, m: int): real {
    Sum(|par|, k => if k != 0 && Anc(par, k, j) && Anc(par, k, m) then At(r, k) else 0.0)
  }

  // The Elmore delay of point j.
  ghost function ElmoreDelay(par: seq<int>, r: seq<real>, c: seq<real>, j: int): real {
    Sum(|par|, m => SharedResistance(par, r, j, m) * At(c, m))
  }

  // Point k and its ancestors: the path sum obeys the recurrence of the forward
  // pass.
  lemma PathSumStep(par: seq<int>, z: int -> real, j: int)
    requires Tree(par) && 0 < j < |par|
    ensures PathSum(par, z, j) == PathSum(par, z, par[j]) + z(j)
  {
    forall k ensures Anc(par, k, j) <==> k == j || Anc(par, k, par[j])
             ensures !Anc(par, j, par[j])
    {
      if Anc(par, j, par[j]) { AncBelow(par, j, par[j]); }
    }
    var only := (k: int) => if k == j then z(k) else 0.0;
    SumSingle(|par|, only, j);
    SumLinear(|par|, 1.0, k => if Anc(par, k, par[j]) then z(k) else 0.0, 1.0, only,
              k => if Anc(par, k, j) then z(k) else 0.0);
  }

  lemma {:induction false} AncBelow(par: seq<int>, k: int, j: int)
    requires Anc(par, k, j)
    ensures k <= j
    decreases j
  {
    if k != j { AncBelow(par, k, par[j]); }
  }

  lemma PathSumRoot(par: seq<int>, z: int -> real)
    requires Tree(par)
    ensures PathSum(par, z, 0) == z(0)
  {
    forall k ensures Anc(par, k, 0) <==> k == 0 {}
    SumSingle(|par|, k => if Anc(par, k, 0) then z(k) else 0.0, 0);
  }

  // The first point at or below `bound` on the way from m to the root. The
  // backward pass has moved the current of m to this point when it is about to
  // process `bound`.
  ghost function Reached(par: seq<int>, m: int, bound: int): int
    decreases m
  {
    if m <= bound || !(0 < m < |par| && 0 <= par[m] < m) then m else Reached(par, par[m], bound)
  }

  lemma {:induction false} ReachedIsAnc(par: seq<int>, m: int, k: int)
    requires Tree(par) && 0 <= k && 0 <= m < |par|
    ensures Reached(par, m, k) <= k
    ensures Reached(par, m, k) == k <==> Anc(par, k, m)
    decreases m
  {
    if m > k { ReachedIsAnc(par, par[m], k); } else if m < k {
      if Anc(par, k, m) { AncBelow(par, k, m); }
    }
  }

  lemma {:induction false} ReachedStep(par: seq<int>, m: int, j: int)
    requires Tree(par) && 0 < j < |par| && 0 <= m < |par|
    ensures Reached(par, m, j - 1) == if Reached(par, m, j) == j then par[j] else Reached(par, m, j)
    decreases m
  {
    if m > j { ReachedStep(par, par[m], j); }
  }

  // What the backward pass has accumulated at point k, above what k injects
  // itself, when it is about to process point j.
  ghost function Gathered(par: seq<int>, x: int -> real, j: int, k: int): real {
    Sum(|par|, m => if m > j && Reached(par, m, j) == k then x(m) else 0.0)
  }

  lemma GatheredStart(par: seq<int>, x: int -> real, k: int)
    ensures Gathered(par, x, |par| - 1, k) == 0.0
  {
    SumZero(|par|, m => if m > |par| - 1 && Reached(par, m, |par| - 1) == k then x(m) else 0.0);
  }

  // Adding what j itself injects completes its subtree current.
  lemma GatheredCompletes(par: seq<int>, x: int -> real, j: int)
    requires Tree(par) && 0 <= j < |par|
    ensures Gathered(par, x, j, j) + x(j) == SubtreeCurrent(par, x, j)
  {
    forall m | 0 <= m < |par| ensures Reached(par, m, j) == j <==> Anc(par, j, m) { ReachedIsAnc(par, m, j); }
    forall m | Anc(par, j, m) ensures j <= m { AncBelow(par, j, m); }
    var own := (m: int) => if m == j then x(m) else 0.0;
    SumSingle(|par|, own, j);
    SumLinear(|par|, 1.0, m => if m > j && Reached(par, m, j) == j then x(m) else 0.0, 1.0, own,
              m => if Anc(par, j, m) then x(m) else 0.0);
  }

  // Passing the completed current of j to its parent.
  lemma GatheredStep(par: seq<int>, x: int -> real, j: int, k: int)
    requires Tree(par) && 0 < j < |par| && 0 <= k < j
    ensures Gathered(par, x, j - 1, k)
         == Gathered(par, x, j, k) + if par[j] == k then SubtreeCurrent(par, x, j) else 0.0
  {
    forall m | 0 <= m < |par|
      ensures Reached(par, m, j - 1) == if Reached(par, m, j) == j then par[j] else Reached(par, m, j)
      ensures Reached(par, m, j) == j <==> Anc(par, j, m)
    {
      ReachedStep(par, m, j);
      ReachedIsAnc(par, m, j);
    }
    forall m | Anc(par, j, m) ensures j <= m { AncBelow(par, j, m); }
    var moved := (m: int) => if par[j] == k && Anc(par, j, m) then x(m) else 0.0;
    if par[j] == k {
      SumCong(|par|, moved, m => if Anc(par, j, m) then x(m) else 0.0);
    } else {
      SumZero(|par|, moved);
    }
    SumLinear(|par|, 1.0, m => if m > j && Reached(par, m, j) == k then x(m) else 0.0, 1.0, moved,
              m => if m > j - 1 && Reached(par, m, j - 1) == k then x(m) else 0.0);
  }

  // ---- Adjointness ----------------------------------------------------------

  ghost function Currents(par: seq<int>, x: int -> real): int -> real {
    k => SubtreeCurrent(par, x, k)
  }

  ghost function PathSums(par: seq<int>, z: int -> real): int -> real {
    j => PathSum(par, z, j)
  }

  // Path sums and subtree currents are transposes of each other.
  lemma PathSumAdjoint(par: seq<int>, z: int -> real, x: int -> real)
    ensures Dot(|par|, x, PathSums(par, z)) == Dot(|par|, z, Currents(par, x))
  {
    var n := |par|;
    var A := (k: int, j: int) => Anc(par, k, j);
    SumTranspose(n, A, x, z);
    forall j ensures PathSum(par, z, j) == Related(n, A, z)(j) {
      SumCong(n, k => if Anc(par, k, j) then z(k) else 0.0, k => if A(k, j) then z(k) else 0.0);
    }
    forall k ensures SubtreeCurrent(par, x, k) == Related(n, Converse(A), x)(k) {
      SumCong(n, m => if Anc(par, k, m) then x(m) else 0.0, m => if Converse(A)(m, k) then x(m) else 0.0);
    }
    DotCong(n, x, PathSums(par, z), x, Related(n, A, z));
    DotCong(n, z, Currents(par, x), z, Related(n, Converse(A), x));
  }

  // The power r[k]*iv_k(w)*iv_k(u) that the edge into k sees.
  ghost function EdgePower(par: seq<int>, r: seq<real>, c: seq<real>, w: seq<real>, u: seq<real>, k: int): real {
    if k == 0 then 0.0
    else At(r, k) * SubtreeCurrent(par, Charge(c, w), k) * SubtreeCurrent(par, Charge(c, u), k)
  }

  ghost function RCVector(par: seq<int>, r: seq<real>, c: seq<real>, u: seq<real>): (y: seq<real>)
    ensures |y| == |par|
    ensures forall j :: 0 <= j < |par| ==> y[j] == RC(par, r, c, u, j)
  {
    seq(|par|, j => RC(par, r, c, u, j))
  }

  // <w, RC u> is the sum over the edges of r[k]*iv_k(w)*iv_k(u).
  lemma EnergyForm(par: seq<int>, r: seq<real>, c: seq<real>, w: seq<real>, u: seq<real>)
    ensures Ip(|par|, c, w, RCVector(par, r, c, u)) == Sum(|par|, k => EdgePower(par, r, c, w, u, k))
  {
    var n, z, x := |par|, EdgeDrop(par, r, c, u), Charge(c, w);
    IpAsDot(n, c, w, RCVector(par, r, c, u));
    DotCong(n, x, Entries(RCVector(par, r, c, u)), x, PathSums(par, z));
    PathSumAdjoint(par, z, x);
    DotIsEdgePower(par, r, c, w, u);
  }

  lemma DotIsEdgePower(par: seq<int>, r: seq<real>, c: seq<real>, w: seq<real>, u: seq<real>)
    ensures Dot(|par|, EdgeDrop(par, r, c, u), Currents(par, Charge(c, w)))
         == Sum(|par|, k => EdgePower(par, r, c, w, u, k))
  {
    var z, x := EdgeDrop(par, r, c, u), Currents(par, Charge(c, w));
    forall k ensures z(k) * x(k) == EdgePower(par, r, c, w, u, k) {
      EdgePowerProduct(At(r, k), x(k), SubtreeCurrent(par, Charge(c, u), k));
    }
    SumCong(|par|, k => z(k) * x(k), k => EdgePower(par, r, c, w, u, k));
  }

  lemma EdgePowerProduct(r: real, a: real, b: real)
    ensures (r * b) * a == r * a * b
    ensures 0.0 * a == 0.0
  {}

  // The operator of the two passes is self-adjoint in the capacitance inner
  // product.
  lemma SelfAdjoint(par: seq<int>, r: seq<real>, c: seq<real>, w: seq<real>, u: seq<real>)
    ensures Ip(|par|, c, w, RCVector(par, r, c, u)) == Ip(|par|, c, RCVector(par, r, c, w), u)
  {
    EnergyForm(par, r, c, w, u);
    EnergyForm(par, r, c, u, w);
    IpSym(|par|, c, u, RCVector(par, r, c, w));
    forall k | 0 <= k < |par| ensures EdgePower(par, r, c, w, u, k) == EdgePower(par, r, c, u, w, k) {
      EdgePowerProduct(At(r, k), SubtreeCurrent(par, Charge(c, w), k), SubtreeCurrent(par, Charge(c, u), k));
    }
    SumCong(|par|, k => EdgePower(par, r, c, w, u, k), k => EdgePower(par, r, c, u, w, k));
  }

  // ... and positive semi-definite when no resistance is negative.
  lemma PositiveSemiDefinite(par: seq<int>, r: seq<real>, c: seq<real>, u: seq<real>)
    requires forall k :: 0 < k < |par| ==> At(r, k) >= 0.0
    ensures Ip(|par|, c, u, RCVector(par, r, c, u)) >= 0.0
  {
    EnergyForm(par, r, c, u, u);
    forall k | 0 <= k < |par| ensures EdgePower(par, r, c, u, u, k) >= 0.0 {
      var a := SubtreeCurrent(par, Charge(c, u), k);
      assert a * a >= 0.0;
      if k > 0 { assert At(r, k) * (a * a) >= 0.0; }
    }
    SumNonNeg(|par|, k => EdgePower(par, r, c, u, u, k));
  }

  // R*C applied to a constant voltage gives the Elmore delays, defined
  // independently through shared path resistances.
  lemma RCOfConstantIsElmore(par: seq<int>, r: seq<real>, c: seq<real>, u: seq<real>, a: real, j: int)
    requires forall m :: 0 <= m < |par| ==> At(u, m) == a
    ensures RC(par, r, c, u, j) == a * ElmoreDelay(par, r, c, j)
  {
    hide RC, ElmoreDelay, Sum, PathResistance, PathSums, Currents, Charge, SharedResistance;
    var rj := PathResistance(par, r, j);
    RCAsDot(par, r, c, u, j);
    PathSumAdjoint(par, rj, Charge(c, u));
    forall m | 0 <= m < |par| ensures Charge(c, u)(m) * PathSums(par, rj)(m) == a * DelayTerm(par, r, c, j)(m) {
      ConstantTerm(par, r, c, u, a, j, m);
    }
    SumScale(|par|, a, DelayTerm(par, r, c, j), m => Charge(c, u)(m) * PathSums(par, rj)(m));
    DelayIsSum(par, r, c, j);
  }

  ghost function DelayTerm(par: seq<int>, r: seq<real>, c: seq<real>, j: int): int -> real {
    m => SharedResistance(par, r, j, m) * At(c, m)
  }

  lemma DelayIsSum(par: seq<int>, r: seq<real>, c: seq<real>, j: int)
    ensures ElmoreDelay(par, r, c, j) == Sum(|par|, DelayTerm(par, r, c, j))
  {
    hide SharedResistance;
    SumCong(|par|, DelayTerm(par, r, c, j), m => SharedResistance(par, r, j, m) * At(c, m));
  }

  lemma ConstantTerm(par: seq<int>, r: seq<real>, c: seq<real>, u: seq<real>, a: real, j: int, m: int)
    requires At(u, m) == a
    ensures Charge(c, u)(m) * PathSums(par, PathResistance(par, r, j))(m) == a * DelayTerm(par, r, c, j)(m)
  {
    var rj := PathResistance(par, r, j);
    SumCong(|par|, k => if Anc(par, k, m) then rj(k) else 0.0,
            k => if k != 0 && Anc(par, k, j) && Anc(par, k, m) then At(r, k) else 0.0);
    assert PathSums(par, rj)(m) == SharedResistance(par, r, j, m);
    EdgePowerProduct(At(c, m), a, SharedResistance(par, r, j, m));
  }

  ghost function PathResistance(par: seq<int>, r: seq<real>, j: int): int -> real {
    k => if k != 0 && Anc(par, k, j) then At(r, k) else 0.0
  }

  lemma RCAsDot(par: seq<int>, r: seq<real>, c: seq<real>, u: seq<real>, j: int)
    ensures RC(par, r, c, u, j) == Dot(|par|, PathResistance(par, r, j), Currents(par, Charge(c, u)))
  {
    var z, rj, iv := EdgeDrop(par, r, c, u), PathResistance(par, r, j), Currents(par, Charge(c, u));
    forall k ensures (if Anc(par, k, j) then z(k) else 0.0) == rj(k) * iv(k) {
      EdgePowerProduct(0.0, iv(k), 0.0);
    }
    SumCong(|par|, k => if Anc(par, k, j) then z(k) else 0.0, k => rj(k) * iv(k));
  }

  // The driver is its own reference.
  lemma DriverHasNoDelay(par: seq<int>, r: seq<real>, c: seq<real>)
    requires Tree(par)
    ensures ElmoreDelay(par, r, c, 0) == 0.0
  {
    forall m | 0 <= m < |par| ensures SharedResistance(par, r, 0, m) == 0.0 {
      SumZero(|par|, k => if k != 0 && Anc(par, k, 0) && Anc(par, k, m) then At(r, k) else 0.0);
    }
    SumZero(|par|, m => SharedResistance(par, r, 0, m) * At(c, m));
  }
}
