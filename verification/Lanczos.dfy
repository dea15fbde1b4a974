// The three-term recurrence of the reduction, on values: what the vectors it
// produces have in common whatever tree they come from.
module Lanczos {
  import opened RealSums
  import opened RcTree

  // A symmetric tridiagonal matrix of order |d| with diagonal d and off-diagonal e.
  ghost function Tri(d: seq<real>, e: seq<real>, i: int, j: int): real {
    if i == j then At(d, i) else if j == i + 1 then At(e, i) else if i == j + 1 then At(e, j) else 0.0
  }

  // The coupling of column i of T back to the vector before it; the first
  // column has none.
  ghost function BackCoupling(e: seq<real>, i: int): real {
    if i == 0 then 0.0 else At(e, i - 1)
  }

  ghost function Before(us: seq<seq<real>>, i: nat): seq<real>
    requires i < |us|
  {
    if i == 0 then us[0] else us[i - 1]
  }

  ghost predicate Orthonormal(n: nat, c: seq<real>, us: seq<seq<real>>) {
    forall i, j :: 0 <= i < |us| && 0 <= j < |us| ==> Ip(n, c, us[i], us[j]) == if i == j then 1.0 else 0.0
  }

  // RC*u[i] is a combination of u[i-1], u[i] and u[i+1] only.
  ghost predicate ThreeTerm(par: seq<int>, r: seq<real>, c: seq<real>, us: seq<seq<real>>, d: seq<real>, e: seq<real>,
                            i: nat)
    requires i + 1 < |us|
  {
    forall j :: 0 <= j < |par| ==>
      RC(par, r, c, us[i], j) == Times(At(e, i), At(us[i + 1], j)) + Times(At(d, i), At(us[i], j))
        + Times(BackCoupling(e, i), At(Before(us, i), j))
  }

  ghost predicate Basis(par: seq<int>, r: seq<real>, c: seq<real>, us: seq<seq<real>>, d: seq<real>, e: seq<real>) {
    && Orthonormal(|par|, c, us)
    && (forall i :: 0 <= i < |us| - 1 ==> At(e, i) > 0.0 && ThreeTerm(par, r, c, us, d, e, i))
  }

  // What is left of RC*u[h] once its components along the last two vectors are
  // removed.
  ghost predicate Residual(par: seq<int>, r: seq<real>, c: seq<real>, us: seq<seq<real>>, dh: real, e: seq<real>,
                           y: seq<real>)
    requires |us| > 0
  {
    var h := |us| - 1;
    forall j :: 0 <= j < |par| ==>
      At(y, j) == RC(par, r, c, us[h], j) - dh * At(us[h], j) - BackCoupling(e, h) * At(Before(us, h), j)
  }

  lemma IpLinear3(n: nat, c: seq<real>, a: real, u: seq<real>, b: real, v: seq<real>, k: real, q: seq<real>,
                  z: seq<real>, w: seq<real>)
    requires forall j :: 0 <= j < n ==> At(z, j) == a * At(u, j) + b * At(v, j) + k * At(q, j)
    ensures Ip(n, c, z, w) == a * Ip(n, c, u, w) + b * Ip(n, c, v, w) + k * Ip(n, c, q, w)
  {
    var t := seq(n, j => a * At(u, j) + b * At(v, j));
    IpLinear(n, c, a, u, b, v, t, w);
    IpLinear(n, c, 1.0, t, k, q, z, w);
  }

  lemma ProjectionTerms(par: seq<int>, r: seq<real>, c: seq<real>, us: seq<seq<real>>, d: seq<real>, e: seq<real>,
                        i: nat, w: seq<real>)
    requires i < |us| - 1 && ThreeTerm(par, r, c, us, d, e, i)
    ensures Ip(|par|, c, RCVector(par, r, c, us[i]), w)
         == At(e, i) * Ip(|par|, c, us[i + 1], w) + At(d, i) * Ip(|par|, c, us[i], w)
            + BackCoupling(e, i) * Ip(|par|, c, Before(us, i), w)
  {
    IpLinear3(|par|, c, At(e, i), us[i + 1], At(d, i), us[i], BackCoupling(e, i), Before(us, i),
              RCVector(par, r, c, us[i]), w);
  }

  // Row i of T: <u[m], RC u[i]> for i before the last vector.
  lemma Projection(par: seq<int>, r: seq<real>, c: seq<real>, us: seq<seq<real>>, d: seq<real>, e: seq<real>, i: nat,
                   m: nat)
    requires Basis(par, r, c, us, d, e) && i < |us| - 1 && m < |us|
    ensures Ip(|par|, c, RCVector(par, r, c, us[i]), us[m]) == Tri(d, e, i, m)
  {
    hide Ip, RCVector, ThreeTerm, Tri, BackCoupling;
    ProjectionTerms(par, r, c, us, d, e, i, us[m]);
    ThreeProducts(|par|, c, us, i, m);
    EntryOfT(d, e, i, m, Ip(|par|, c, us[i + 1], us[m]), Ip(|par|, c, us[i], us[m]),
             Ip(|par|, c, Before(us, i), us[m]));
  }

  ghost function One(b: bool): real {
    if b then 1.0 else 0.0
  }

  // The products of us[m] with the vectors around position i.
  lemma ThreeProducts(n: nat, c: seq<real>, us: seq<seq<real>>, i: nat, m: nat)
    requires Orthonormal(n, c, us) && i + 1 < |us| && m < |us|
    ensures Ip(n, c, us[i + 1], us[m]) == One(m == i + 1) && Ip(n, c, us[i], us[m]) == One(m == i)
    ensures i > 0 ==> Ip(n, c, Before(us, i), us[m]) == One(m == i - 1)
  {
    hide Ip;
  }

  lemma EntryOfT(d: seq<real>, e: seq<real>, i: nat, m: nat, x: real, y: real, z: real)
    requires x == One(m == i + 1) && y == One(m == i) && (i > 0 ==> z == One(m == i - 1))
    ensures At(e, i) * x + At(d, i) * y + BackCoupling(e, i) * z == Tri(d, e, i, m)
  {}

  lemma ResidualTerms(par: seq<int>, r: seq<real>, c: seq<real>, us: seq<seq<real>>, dh: real, e: seq<real>,
                      y: seq<real>, w: seq<real>)
    requires |us| > 0 && Residual(par, r, c, us, dh, e, y)
    ensures var h := |us| - 1;
            Ip(|par|, c, y, w) == Ip(|par|, c, RCVector(par, r, c, us[h]), w) - dh * Ip(|par|, c, us[h], w)
                                  - BackCoupling(e, h) * Ip(|par|, c, Before(us, h), w)
  {
    var h := |us| - 1;
    IpLinear3(|par|, c, 1.0, RCVector(par, r, c, us[h]), -dh, us[h], -BackCoupling(e, h), Before(us, h), y, w);
  }

  // The residual is orthogonal to every earlier vector, although only the last
  // two components are subtracted.
  lemma ResidualOrthogonal(par: seq<int>, r: seq<real>, c: seq<real>, us: seq<seq<real>>, d: seq<real>, e: seq<real>,
                           dh: real, y: seq<real>, m: nat)
    requires Basis(par, r, c, us, d, e) && m < |us|
    requires dh == Ip(|par|, c, us[|us| - 1], RCVector(par, r, c, us[|us| - 1]))
    requires Residual(par, r, c, us, dh, e, y)
    ensures Ip(|par|, c, y, us[m]) == 0.0
  {
    hide RC, Ip, ThreeTerm, Residual;
    var h := |us| - 1;
    ResidualTerms(par, r, c, us, dh, e, y, us[m]);
    OperatorTerm(par, r, c, us, d, e, dh, m);
    SubtractedTerms(|par|, c, us, e, dh, m);
  }

  // The two subtracted components, seen along us[m].
  lemma SubtractedTerms(n: nat, c: seq<real>, us: seq<seq<real>>, e: seq<real>, dh: real, m: nat)
    requires Orthonormal(n, c, us) && m < |us|
    ensures dh * Ip(n, c, us[|us| - 1], us[m]) + BackCoupling(e, |us| - 1) * Ip(n, c, Before(us, |us| - 1), us[m])
         == if m == |us| - 1 then dh else if m == |us| - 2 then At(e, m) else 0.0
  {
    var h := |us| - 1;
    var x, z := Ip(n, c, us[h], us[m]), Ip(n, c, Before(us, h), us[m]);
    assert x == if m == h then 1.0 else 0.0;
    assert h > 0 ==> z == if m == h - 1 then 1.0 else 0.0;
  }

  lemma OperatorTerm(par: seq<int>, r: seq<real>, c: seq<real>, us: seq<seq<real>>, d: seq<real>, e: seq<real>,
                     dh: real, m: nat)
    requires Basis(par, r, c, us, d, e) && m < |us|
    requires dh == Ip(|par|, c, us[|us| - 1], RCVector(par, r, c, us[|us| - 1]))
    ensures var h := |us| - 1;
            Ip(|par|, c, RCVector(par, r, c, us[h]), us[m]) == if m == h then dh else Tri(d, e, m, h)
  {
    var n, h := |par|, |us| - 1;
    SelfAdjoint(par, r, c, us[h], us[m]);
    IpSym(n, c, us[h], RCVector(par, r, c, us[m]));
    if m < h { Projection(par, r, c, us, d, e, m, h); }
  }

  // The last diagonal entry plays no part in the recurrence so far.
  lemma BasisAnyLast(par: seq<int>, r: seq<real>, c: seq<real>, us: seq<seq<real>>, d: seq<real>, e: seq<real>, x: real)
    requires |us| > 0 && |d| == |us| - 1 && Basis(par, r, c, us, d, e)
    ensures Basis(par, r, c, us, d + [x], e)
  {
    hide Orthonormal, RC, Times;
    forall i | 0 <= i < |us| - 1 ensures ThreeTerm(par, r, c, us, d + [x], e, i) {
      assert ThreeTerm(par, r, c, us, d, e, i) && At(d + [x], i) == At(d, i);
    }
  }

  // One step of the recurrence extends the basis.
  lemma Extend(par: seq<int>, r: seq<real>, c: seq<real>, us: seq<seq<real>>, d: seq<real>, e: seq<real>,
               y: seq<real>, eh: real, u: seq<real>)
    requires |us| > 0 && |d| == |us| && |e| == |us| - 1
    requires Basis(par, r, c, us, d, e)
    requires d[|us| - 1] == Ip(|par|, c, us[|us| - 1], RCVector(par, r, c, us[|us| - 1]))
    requires Residual(par, r, c, us, d[|us| - 1], e, y)
    requires eh > 0.0 && eh * eh == Ip(|par|, c, y, y)
    requires forall j :: 0 <= j < |par| ==> At(y, j) == eh * At(u, j)
    ensures Basis(par, r, c, us + [u], d, e + [eh])
  {
    ExtendOrthonormal(par, r, c, us, d, e, y, eh, u);
    var us', e', h := us + [u], e + [eh], |us| - 1;
    forall i | 0 <= i < |us'| - 1 ensures At(e', i) > 0.0 && ThreeTerm(par, r, c, us', d, e', i) {
      if i < h {
        assert At(e, i) > 0.0 && ThreeTerm(par, r, c, us, d, e, i);
        ThreeTermFrame(par, r, c, us, d, e, us', e', i);
      } else {
        ThreeTermNew(par, r, c, us, d, e, y, eh, u);
      }
    }
  }

  lemma ThreeTermFrame(par: seq<int>, r: seq<real>, c: seq<real>, us: seq<seq<real>>, d: seq<real>, e: seq<real>,
                       us': seq<seq<real>>, e': seq<real>, i: nat)
    requires i + 1 < |us| <= |us'| && us'[..|us|] == us && |e| == |us| - 1 && |e'| >= |e| && e'[..|e|] == e
    requires ThreeTerm(par, r, c, us, d, e, i)
    ensures ThreeTerm(par, r, c, us', d, e', i)
  {
    hide RC, Times;
    assert us'[i] == us[i] && us'[i + 1] == us[i + 1] && Before(us', i) == Before(us, i);
    assert At(e', i) == At(e, i) && BackCoupling(e', i) == BackCoupling(e, i);
  }

  lemma ThreeTermNew(par: seq<int>, r: seq<real>, c: seq<real>, us: seq<seq<real>>, d: seq<real>, e: seq<real>,
                     y: seq<real>, eh: real, u: seq<real>)
    requires |us| > 0 && |d| == |us| && |e| == |us| - 1
    requires Residual(par, r, c, us, d[|us| - 1], e, y)
    requires forall j :: 0 <= j < |par| ==> At(y, j) == eh * At(u, j)
    ensures ThreeTerm(par, r, c, us + [u], d, e + [eh], |us| - 1)
  {
    var us', e', h := us + [u], e + [eh], |us| - 1;
    assert us'[h] == us[h] && us'[h + 1] == u && Before(us', h) == Before(us, h);
    assert At(e', h) == eh && BackCoupling(e', h) == BackCoupling(e, h);
  }

  lemma ExtendOrthonormal(par: seq<int>, r: seq<real>, c: seq<real>, us: seq<seq<real>>, d: seq<real>, e: seq<real>,
                          y: seq<real>, eh: real, u: seq<real>)
    requires |us| > 0 && |d| == |us|
    requires Basis(par, r, c, us, d, e)
    requires d[|us| - 1] == Ip(|par|, c, us[|us| - 1], RCVector(par, r, c, us[|us| - 1]))
    requires Residual(par, r, c, us, d[|us| - 1], e, y)
    requires eh > 0.0 && eh * eh == Ip(|par|, c, y, y)
    requires forall j :: 0 <= j < |par| ==> At(y, j) == eh * At(u, j)
    ensures Orthonormal(|par|, c, us + [u])
  {
    forall m | 0 <= m < |us| ensures Ip(|par|, c, u, us[m]) == 0.0 && Ip(|par|, c, us[m], u) == 0.0 {
      ResidualOrthogonal(par, r, c, us, d, e, d[|us| - 1], y, m);
      ScaledOrthogonal(|par|, c, y, eh, u, us[m]);
      IpSym(|par|, c, u, us[m]);
    }
    UnitNorm(|par|, c, y, eh, u);
  }

  lemma ScaledOrthogonal(n: nat, c: seq<real>, y: seq<real>, k: real, u: seq<real>, w: seq<real>)
    requires k != 0.0 && Ip(n, c, y, w) == 0.0
    requires forall j :: 0 <= j < n ==> At(y, j) == k * At(u, j)
    ensures Ip(n, c, u, w) == 0.0
  {
    IpLinear(n, c, k, u, 0.0, u, y, w);
    CancelFactor(k, Ip(n, c, u, w), 0.0);
  }

  lemma UnitNorm(n: nat, c: seq<real>, y: seq<real>, k: real, u: seq<real>)
    requires k != 0.0 && k * k == Ip(n, c, y, y)
    requires forall j :: 0 <= j < n ==> At(y, j) == k * At(u, j)
    ensures Ip(n, c, u, u) == 1.0
  {
    IpLinear(n, c, k, u, 0.0, u, y, y);
    IpSym(n, c, u, y);
    IpLinear(n, c, k, u, 0.0, u, y, u);
    CancelFactor(k, k, k * Ip(n, c, u, u));
    CancelFactor(k, 1.0, Ip(n, c, u, u));
  }

  // ---- The reduced model ----------------------------------------------------

  // An orthonormal basis us, started from the constant vector, on which T is
  // the projection of RC.
  ghost predicate ReducedModel(par: seq<int>, r: seq<real>, c: seq<real>, us: seq<seq<real>>, d: seq<real>,
                               e: seq<real>) {
    && |us| == |d| > 0
    && Basis(par, r, c, us, d, e)
    && d[|d| - 1] == Ip(|par|, c, us[|us| - 1], RCVector(par, r, c, us[|us| - 1]))
  }

  // Every entry of the reduced matrix is the projection of the operator.
  lemma ReducedIsProjection(par: seq<int>, r: seq<real>, c: seq<real>, us: seq<seq<real>>, d: seq<real>, e: seq<real>,
                            i: nat, m: nat)
    requires ReducedModel(par, r, c, us, d, e) && i < |us| && m < |us|
    ensures Ip(|par|, c, us[m], RCVector(par, r, c, us[i])) == Tri(d, e, m, i)
  {
    var n := |par|;
    if i < |us| - 1 {
      Projection(par, r, c, us, d, e, i, m);
      IpSym(n, c, us[m], RCVector(par, r, c, us[i]));
    } else if m < |us| - 1 {
      SelfAdjoint(par, r, c, us[m], us[i]);
      Projection(par, r, c, us, d, e, m, i);
    }
  }

  // With no negative resistance no diagonal entry is negative.
  lemma DiagonalNonNegative(par: seq<int>, r: seq<real>, c: seq<real>, us: seq<seq<real>>, d: seq<real>, e: seq<real>,
                            i: nat)
    requires ReducedModel(par, r, c, us, d, e) && i < |d| && forall k :: 0 < k < |par| ==> At(r, k) >= 0.0
    ensures d[i] >= 0.0
  {
    ReducedIsProjection(par, r, c, us, d, e, i, i);
    PositiveSemiDefinite(par, r, c, us[i]);
  }

  // The k-th power of RC applied to u.
  ghost function RCPower(par: seq<int>, r: seq<real>, c: seq<real>, u: seq<real>, k: nat): seq<real> {
    if k == 0 then u else RCVector(par, r, c, RCPower(par, r, c, u, k - 1))
  }

  // Entry i of the k-th power of T applied to the first unit vector.
  ghost function TriPower(d: seq<real>, e: seq<real>, k: nat, i: int): real
    decreases k
  {
    if k == 0 then
      if i == 0 then 1.0 else 0.0
    else
      At(d, i) * TriPower(d, e, k - 1, i)
      + BackCoupling(e, i) * TriPower(d, e, k - 1, i - 1)
      + At(e, i) * TriPower(d, e, k - 1, i + 1)
  }

  lemma {:induction false} TriPowerSupport(d: seq<real>, e: seq<real>, k: nat, i: int)
    requires i > k || i < 0
    ensures TriPower(d, e, k, i) == 0.0
    decreases k
  {
    if k > 0 {
      TriPowerSupport(d, e, k - 1, i);
      if i != 0 { TriPowerSupport(d, e, k - 1, i - 1); }
      if i > k || i + 1 < 0 { TriPowerSupport(d, e, k - 1, i + 1); }
      else { assert At(e, i) == 0.0; }
    }
  }

  // ---- Moments --------------------------------------------------------------

  lemma RCLinear(par: seq<int>, r: seq<real>, c: seq<real>, a: real, u: seq<real>, b: real, v: seq<real>, w: seq<real>,
                 j: int)
    requires forall m :: 0 <= m < |par| ==> At(w, m) == a * At(u, m) + b * At(v, m)
    ensures RC(par, r, c, w, j) == a * RC(par, r, c, u, j) + b * RC(par, r, c, v, j)
  {
    var n := |par|;
    forall k ensures EdgeDrop(par, r, c, w)(k) == a * EdgeDrop(par, r, c, u)(k) + b * EdgeDrop(par, r, c, v)(k) {
      EdgeDropLinear(par, r, c, a, u, b, v, w, k);
    }
    SumLinear(n, a, k => if Anc(par, k, j) then EdgeDrop(par, r, c, u)(k) else 0.0,
              b, k => if Anc(par, k, j) then EdgeDrop(par, r, c, v)(k) else 0.0,
              k => if Anc(par, k, j) then EdgeDrop(par, r, c, w)(k) else 0.0);
  }

  lemma EdgeDropLinear(par: seq<int>, r: seq<real>, c: seq<real>, a: real, u: seq<real>, b: real, v: seq<real>,
                       w: seq<real>, k: int)
    requires forall m :: 0 <= m < |par| ==> At(w, m) == a * At(u, m) + b * At(v, m)
    ensures EdgeDrop(par, r, c, w)(k) == a * EdgeDrop(par, r, c, u)(k) + b * EdgeDrop(par, r, c, v)(k)
  {
    forall m | 0 <= m < |par| ensures Charge(c, w)(m) == a * Charge(c, u)(m) + b * Charge(c, v)(m) {
      Distribute(At(c, m), a, At(u, m), b, At(v, m));
    }
    SumLinear(|par|, a, m => if Anc(par, k, m) then Charge(c, u)(m) else 0.0,
              b, m => if Anc(par, k, m) then Charge(c, v)(m) else 0.0,
              m => if Anc(par, k, m) then Charge(c, w)(m) else 0.0);
    Distribute(At(r, k), a, SubtreeCurrent(par, Charge(c, u), k), b, SubtreeCurrent(par, Charge(c, v), k));
  }

  lemma Distribute(p: real, a: real, x: real, b: real, y: real)
    ensures p * (a * x + b * y) == a * (p * x) + b * (p * y)
    ensures a * 0.0 + b * 0.0 == 0.0
  {}

  // The combination of the first m vectors with weights t.
  ghost function Combine(n: nat, t: int -> real, us: seq<seq<real>>, m: nat): (w: seq<real>)
    requires m <= |us|
    ensures |w| == n
  {
    if m == 0 then seq(n, j => 0.0)
    else var w := Combine(n, t, us, m - 1); seq(n, j => At(w, j) + t(m - 1) * At(us[m - 1], j))
  }

  // Entry j of every vector, and of the operator applied to every vector.
  ghost function Column(us: seq<seq<real>>, j: int): int -> real {
    i => if 0 <= i < |us| then At(us[i], j) else 0.0
  }

  ghost function Images(par: seq<int>, r: seq<real>, c: seq<real>, us: seq<seq<real>>, j: int): int -> real {
    i => if 0 <= i < |us| then RC(par, r, c, us[i], j) else 0.0
  }

  lemma {:induction false} CombineAt(n: nat, t: int -> real, us: seq<seq<real>>, m: nat, x: int)
    requires m <= |us| && 0 <= x < n
    ensures At(Combine(n, t, us, m), x) == Dot(m, t, Column(us, x))
  {
    if m > 0 { CombineAt(n, t, us, m - 1, x); }
  }

  lemma {:induction false} RCOfCombine(par: seq<int>, r: seq<real>, c: seq<real>, t: int -> real, us: seq<seq<real>>,
                                       m: nat, j: int)
    requires m <= |us|
    ensures RC(par, r, c, Combine(|par|, t, us, m), j) == Dot(m, t, Images(par, r, c, us, j))
  {
    var w := Combine(|par|, t, us, m);
    if m == 0 {
      RCLinear(par, r, c, 0.0, w, 0.0, w, w, j);
    } else {
      var w' := Combine(|par|, t, us, m - 1);
      RCOfCombine(par, r, c, t, us, m - 1, j);
      RCLinear(par, r, c, 1.0, w', t(m - 1), us[m - 1], w, j);
    }
  }

  // The weights T^k gives to the vectors.
  ghost function Moment(d: seq<real>, e: seq<real>, k: nat): int -> real {
    i => TriPower(d, e, k, i)
  }

  lemma ThreeTermAt(par: seq<int>, r: seq<real>, c: seq<real>, us: seq<seq<real>>, d: seq<real>, e: seq<real>, i: nat,
                    j: int)
    requires Basis(par, r, c, us, d, e) && i < |us| - 1 && 0 <= j < |par|
    ensures var col := Column(us, j);
      Images(par, r, c, us, j)(i) == Times(At(e, i), col(i + 1)) + Times(At(d, i), col(i))
        + Times(BackCoupling(e, i), col(i - 1))
  {
    hide RC, Orthonormal, Times;
    assert ThreeTerm(par, r, c, us, d, e, i);
    assert Images(par, r, c, us, j)(i) == RC(par, r, c, us[i], j);
    var col := Column(us, j);
    assert col(i) == At(us[i], j) && col(i + 1) == At(us[i + 1], j);
    if i == 0 {
      TimesZero(At(Before(us, i), j));
      TimesZero(col(i - 1));
    } else {
      assert col(i - 1) == At(Before(us, i), j);
    }
  }

  lemma MomentRecurrence(d: seq<real>, e: seq<real>, k: nat, i: nat)
    ensures var t := Moment(d, e, k);
      Moment(d, e, k + 1)(i) == Times(At(d, i), t(i)) + Times(BackCoupling(e, i), t(i - 1)) + Times(At(e, i), t(i + 1))
  {}

  // x' is T applied to x, up to position m.
  ghost predicate Applied(d: seq<real>, e: seq<real>, x: int -> real, x': int -> real, m: nat) {
    forall i :: 0 <= i < m ==>
      x'(i) == Times(At(d, i), x(i)) + Times(BackCoupling(e, i), x(i - 1)) + Times(At(e, i), x(i + 1))
  }

  // T is symmetric, but for the two couplings that cross position m.
  lemma {:induction false} Crossing(d: seq<real>, e: seq<real>, x: int -> real, x': int -> real, y: int -> real,
                                    y': int -> real, m: nat)
    requires Applied(d, e, x, x', m) && Applied(d, e, y, y', m)
    ensures Dot(m, x, y') == Dot(m, x', y) + Times(BackCoupling(e, m), Times(x(m - 1), y(m)) - Times(x(m), y(m - 1)))
  {
    if m > 0 {
      hide Dot, Times, Applied, BackCoupling;
      var i := m - 1;
      AppliedAt(d, e, x, x', m, i);
      AppliedAt(d, e, y, y', m, i);
      Crossing(d, e, x, x', y, y', i);
      DotTimes(i, x, y');
      DotTimes(i, x', y);
      CouplingName(e, m);
      CrossingStep(Dot(i, x, y'), Dot(i, x', y), Dot(m, x, y'), Dot(m, x', y), At(e, i), At(d, i), BackCoupling(e, i),
                   x(i - 1), x(i), x(i + 1), y(i - 1), y(i), y(i + 1), y'(i), x'(i));
    }
  }

  lemma AppliedAt(d: seq<real>, e: seq<real>, x: int -> real, x': int -> real, m: nat, i: nat)
    requires Applied(d, e, x, x', m) && i < m
    ensures Applied(d, e, x, x', i)
    ensures x'(i) == Times(At(d, i), x(i)) + Times(BackCoupling(e, i), x(i - 1)) + Times(At(e, i), x(i + 1))
  {
    hide Times, BackCoupling;
  }

  // Applying RC to the first m weighted vectors is applying T to the weights,
  // but for the two couplings that cross position m.
  lemma CrossingTerms(par: seq<int>, r: seq<real>, c: seq<real>, us: seq<seq<real>>, d: seq<real>, e: seq<real>,
                      k: nat, m: nat, j: int)
    requires Basis(par, r, c, us, d, e) && m < |us| && 0 <= j < |par|
    ensures var t, col := Moment(d, e, k), Column(us, j);
      Dot(m, t, Images(par, r, c, us, j))
      == Dot(m, Moment(d, e, k + 1), col) + Times(BackCoupling(e, m), Times(t(m - 1), col(m)) - Times(t(m), col(m - 1)))
  {
    hide Dot, Times, Basis, Images, Column, Moment, BackCoupling;
    var im, col := Images(par, r, c, us, j), Column(us, j);
    forall i | 0 <= i < m
      ensures im(i) == Times(At(d, i), col(i)) + Times(BackCoupling(e, i), col(i - 1)) + Times(At(e, i), col(i + 1))
    {
      ThreeTermAt(par, r, c, us, d, e, i, j);
    }
    MomentApplied(d, e, k, m);
    Crossing(d, e, Moment(d, e, k), Moment(d, e, k + 1), col, im, m);
  }

  lemma MomentApplied(d: seq<real>, e: seq<real>, k: nat, m: nat)
    ensures Applied(d, e, Moment(d, e, k), Moment(d, e, k + 1), m)
  {
    hide Times, Moment, BackCoupling;
    forall i: nat { MomentRecurrence(d, e, k, i); }
  }

  lemma CouplingName(e: seq<real>, m: nat)
    requires 0 < m
    ensures BackCoupling(e, m) == At(e, m - 1)
  {}

  lemma CrossingStep(x: real, y: real, x': real, y': real, e: real, d: real, b: real,
                     t0: real, t1: real, t2: real, u0: real, u1: real, u2: real, a: real, w: real)
    requires x == y + Times(b, Times(t0, u1) - Times(t1, u0))
    requires x' == x + Times(t1, a) && a == Times(e, u2) + Times(d, u1) + Times(b, u0)
    requires y' == y + Times(w, u1) && w == Times(d, t1) + Times(b, t0) + Times(e, t2)
    ensures x' == y' + Times(e, Times(t1, u2) - Times(t2, u1))
  {}

  // The reduced model has the moments of the tree: (RC)^k applied to the first
  // vector is the combination of the basis with weights T^k, for every k below
  // the order.
  lemma {:induction false} MomentMatching(par: seq<int>, r: seq<real>, c: seq<real>, us: seq<seq<real>>, d: seq<real>,
                                          e: seq<real>,
                                          k: nat, j: int)
    requires ReducedModel(par, r, c, us, d, e) && |e| == |us| - 1 && k < |us| && 0 <= j < |par|
    ensures At(RCPower(par, r, c, us[0], k), j) == Dot(|us|, Moment(d, e, k), Column(us, j))
  {
    var q := |us|;
    if k == 0 {
      hide Basis, RC;
      forall i ensures Moment(d, e, 0)(i) * Column(us, j)(i) == if i == 0 then At(us[0], j) else 0.0 {}
      SumSingle(q, i => Moment(d, e, 0)(i) * Column(us, j)(i), 0);
    } else {
      hide Basis, Sum, Dot, RC, Moment, Column, Images;
      var p, t := RCPower(par, r, c, us[0], k - 1), Moment(d, e, k - 1);
      var w := Combine(|par|, t, us, q);
      forall x | 0 <= x < |par| ensures At(p, x) == 1.0 * At(w, x) + 0.0 * At(w, x) {
        MomentMatching(par, r, c, us, d, e, k - 1, x);
        CombineAt(|par|, t, us, q, x);
      }
      RCLinear(par, r, c, 1.0, w, 0.0, w, p, j);
      RCOfCombine(par, r, c, t, us, q, j);
      MomentStep(par, r, c, us, d, e, k, j);
    }
  }

  lemma MomentStep(par: seq<int>, r: seq<real>, c: seq<real>, us: seq<seq<real>>, d: seq<real>, e: seq<real>, k: nat,
                   j: int)
    requires ReducedModel(par, r, c, us, d, e) && |e| == |us| - 1 && 0 < k < |us| && 0 <= j < |par|
    ensures Dot(|us|, Moment(d, e, k - 1), Images(par, r, c, us, j)) == Dot(|us|, Moment(d, e, k), Column(us, j))
  {
    hide *;
    var i := |us| - 1;
    assert Basis(par, r, c, us, d, e) by { ModelHasBasis(par, r, c, us, d, e); }
    var t, t', im, col := Moment(d, e, k - 1), Moment(d, e, k), Images(par, r, c, us, j), Column(us, j);
    CrossingTerms(par, r, c, us, d, e, k - 1, i, j);
    DotTimes(i, t, im);
    DotTimes(i, t', col);
    MomentRecurrence(d, e, k - 1, i);
    assert t(i) == 0.0 && At(e, i) == 0.0 by { LastWeight(d, e, k, i); }
    LastMoment(At(d, i), BackCoupling(e, i), t(i - 1), t(i + 1), col(i - 1), col(i), im(i));
  }

  lemma ModelHasBasis(par: seq<int>, r: seq<real>, c: seq<real>, us: seq<seq<real>>, d: seq<real>, e: seq<real>)
    requires ReducedModel(par, r, c, us, d, e)
    ensures |us| == |d| > 0 && Basis(par, r, c, us, d, e)
  {}

  lemma LastWeight(d: seq<real>, e: seq<real>, k: nat, i: nat)
    requires 0 < k <= i && |e| == i
    ensures Moment(d, e, k - 1)(i) == 0.0 && At(e, i) == 0.0
  {
    TriPowerSupport(d, e, k - 1, i);
  }

  // The last vector has no weight yet, and no coupling leaves it.
  lemma LastMoment(d: real, b: real, t0: real, t2: real, u0: real, u1: real, a: real)
    ensures Times(b, Times(t0, u1) - Times(0.0, u0)) + Times(0.0, a)
         == Times(Times(d, 0.0) + Times(b, t0) + Times(0.0, t2), u1)
  {}

  // ---- The moments in the capacitance product ----------------------------------------------

  ghost function Products(n: nat, c: seq<real>, us: seq<seq<real>>, w: seq<real>): int -> real {
    i => if 0 <= i < |us| then Ip(n, c, us[i], w) else 0.0
  }

  lemma {:induction false} IpOfCombine(n: nat, c: seq<real>, t: int -> real, us: seq<seq<real>>, m: nat, w: seq<real>)
    requires m <= |us|
    ensures Ip(n, c, Combine(n, t, us, m), w) == Dot(m, t, Products(n, c, us, w))
  {
    hide Ip, Dot, Products, Times;
    var v := Combine(n, t, us, m);
    if m == 0 {
      IpLinear(n, c, 0.0, v, 0.0, v, v, w);
      assert Dot(0, t, Products(n, c, us, w)) == 0.0 by { DotNone(t, Products(n, c, us, w)); }
    } else {
      IpOfCombine(n, c, t, us, m - 1, w);
      IpLinear(n, c, 1.0, Combine(n, t, us, m - 1), t(m - 1), us[m - 1], v, w);
      DotTimes(m - 1, t, Products(n, c, us, w));
      ProductAt(n, c, us, w, m - 1);
    }
  }

  lemma DotNone(x: int -> real, y: int -> real)
    ensures Dot(0, x, y) == 0.0
  {}

  lemma ProductAt(n: nat, c: seq<real>, us: seq<seq<real>>, w: seq<real>, i: nat)
    requires i < |us|
    ensures Products(n, c, us, w)(i) == Ip(n, c, us[i], w)
  {}

  // The products of a power of RC below the order, from those of the basis.
  lemma IpOfPower(par: seq<int>, r: seq<real>, c: seq<real>, us: seq<seq<real>>, d: seq<real>, e: seq<real>, p: nat,
                  w: seq<real>)
    requires ReducedModel(par, r, c, us, d, e) && |e| == |us| - 1 && p < |us|
    ensures Ip(|par|, c, RCPower(par, r, c, us[0], p), w) == Dot(|us|, Moment(d, e, p), Products(|par|, c, us, w))
  {
    hide Ip, Dot, ReducedModel, RCPower, Moment, Products;
    var n, t, v := |par|, Moment(d, e, p), RCPower(par, r, c, us[0], p);
    var m := Combine(n, t, us, |us|);
    forall x | 0 <= x < n ensures At(v, x) == 1.0 * At(m, x) + 0.0 * At(m, x) {
      MomentMatching(par, r, c, us, d, e, p, x);
      CombineAt(n, t, us, |us|, x);
    }
    IpLinear(n, c, 1.0, m, 0.0, m, v, w);
    IpOfCombine(n, c, t, us, |us|, w);
  }

  // The products of the basis with a power of RC up to the order are its weights.
  lemma {:induction false} ProductIsMoment(par: seq<int>, r: seq<real>, c: seq<real>, us: seq<seq<real>>, d: seq<real>,
                                           e: seq<real>,
                                           q: nat, i: nat)
    requires ReducedModel(par, r, c, us, d, e) && |e| == |us| - 1 && q <= |us| && i < |us|
    ensures Ip(|par|, c, us[i], RCPower(par, r, c, us[0], q)) == TriPower(d, e, q, i)
  {
    if q == 0 {
      hide Ip, RCVector, ThreeTerm;
    } else {
      hide *;
      var n, p := |par|, RCPower(par, r, c, us[0], q - 1);
      var g, t := RCVector(par, r, c, us[i]), Moment(d, e, q - 1);
      PowerStep(par, r, c, us[0], q);
      SelfAdjoint(par, r, c, us[i], p);
      IpSym(n, c, g, p);
      IpOfPower(par, r, c, us, d, e, q - 1, g);
      forall j | 0 <= j < |us| ensures Products(n, c, us, g)(j) == TriColumn(d, e, i)(j) {
        ReducedIsProjection(par, r, c, us, d, e, i, j);
        ProductAt(n, c, us, g, j);
        TriColumnAt(d, e, i, j);
      }
      DotCong(|us|, t, Products(n, c, us, g), t, TriColumn(d, e, i));
      SizeOf(par, r, c, us, d, e);
      ColumnTimes(d, e, i, t, |us|);
      LastCoupling(d, e, i, t);
      MomentRecurrence(d, e, q - 1, i);
      MomentAt(d, e, q, i);
    }
  }

  lemma PowerStep(par: seq<int>, r: seq<real>, c: seq<real>, u: seq<real>, q: nat)
    requires q > 0
    ensures RCPower(par, r, c, u, q) == RCVector(par, r, c, RCPower(par, r, c, u, q - 1))
  {}

  lemma SizeOf(par: seq<int>, r: seq<real>, c: seq<real>, us: seq<seq<real>>, d: seq<real>, e: seq<real>)
    requires ReducedModel(par, r, c, us, d, e)
    ensures |us| == |d| > 0
  {}

  lemma MomentAt(d: seq<real>, e: seq<real>, q: nat, i: int)
    ensures Moment(d, e, q)(i) == TriPower(d, e, q, i)
  {}

  // Column i of T.
  ghost function TriColumn(d: seq<real>, e: seq<real>, i: int): int -> real {
    j => Tri(d, e, j, i)
  }

  lemma TriColumnAt(d: seq<real>, e: seq<real>, i: int, j: int)
    ensures TriColumn(d, e, i)(j) == Tri(d, e, j, i)
  {}

  ghost function TermIf(b: bool, x: real, y: real): real {
    if b then Times(x, y) else 0.0
  }

  // Three entries of a column of T are not zero.
  lemma {:induction false} ColumnTimes(d: seq<real>, e: seq<real>, i: nat, t: int -> real, m: nat)
    ensures Dot(m, t, TriColumn(d, e, i))
         == TermIf(i < m, At(d, i), t(i)) + TermIf(0 < i <= m, BackCoupling(e, i), t(i - 1))
           + TermIf(i + 1 < m, At(e, i), t(i + 1))
  {
    if m == 0 {
      DotNone(t, TriColumn(d, e, i));
    } else {
      ColumnTimes(d, e, i, t, m - 1);
      ColumnEntry(d, e, i, t, m - 1);
      hide Dot, Tri, TriColumn, BackCoupling, Times;
      DotTimes(m - 1, t, TriColumn(d, e, i));
    }
  }

  lemma ColumnEntry(d: seq<real>, e: seq<real>, i: nat, t: int -> real, j: nat)
    ensures Times(t(j), TriColumn(d, e, i)(j))
         == if j == i then Times(At(d, i), t(i)) else if j == i - 1 then Times(BackCoupling(e, i), t(i - 1))
            else if j == i + 1 then Times(At(e, i), t(i + 1)) else 0.0
  {
    var x := TriColumn(d, e, i)(j);
    assert x == 0.0 ==> t(j) * x == 0.0;
  }

  // No coupling leaves the last vector, and none comes before the first.
  lemma LastCoupling(d: seq<real>, e: seq<real>, i: nat, t: int -> real)
    requires i < |d| == |e| + 1
    ensures TermIf(i < |d|, At(d, i), t(i)) == Times(At(d, i), t(i))
    ensures TermIf(0 < i <= |d|, BackCoupling(e, i), t(i - 1)) == Times(BackCoupling(e, i), t(i - 1))
    ensures TermIf(i + 1 < |d|, At(e, i), t(i + 1)) == Times(At(e, i), t(i + 1))
  {
    assert 0.0 * t(i - 1) == 0.0 && 0.0 * t(i + 1) == 0.0;
  }

  // Powers of RC can be moved from one side to the other.
  lemma {:induction false} PowersMove(par: seq<int>, r: seq<real>, c: seq<real>, u: seq<real>, p: nat, q: nat)
    ensures Ip(|par|, c, RCPower(par, r, c, u, p), RCPower(par, r, c, u, q))
         == Ip(|par|, c, u, RCPower(par, r, c, u, p + q))
    decreases p
  {
    hide Ip, RCVector;
    if p > 0 {
      SelfAdjoint(par, r, c, RCPower(par, r, c, u, p - 1), RCPower(par, r, c, u, q));
      PowersMove(par, r, c, u, p - 1, q + 1);
      assert p - 1 + (q + 1) == p + q;
    }
  }

  lemma {:induction false} WeightsMove(d: seq<real>, e: seq<real>, p: nat, q: nat)
    requires |d| == |e| + 1
    ensures Dot(|d|, Moment(d, e, p), Moment(d, e, q)) == TriPower(d, e, p + q, 0)
    decreases p
  {
    hide Dot, Moment, Times, BackCoupling, TriPower;
    if p == 0 {
      FirstWeight(|d|, d, e, Moment(d, e, q));
      MomentAt(d, e, q, 0);
    } else {
      WeightMoves(d, e, p - 1, q);
      WeightsMove(d, e, p - 1, q + 1);
      assert p - 1 + (q + 1) == p + q;
    }
  }

  lemma FirstWeight(n: nat, d: seq<real>, e: seq<real>, y: int -> real)
    requires n > 0
    ensures Dot(n, Moment(d, e, 0), y) == y(0)
  {
    var x := Moment(d, e, 0);
    forall i ensures x(i) * y(i) == if i == 0 then y(0) else 0.0 {}
    SumSingle(n, i => x(i) * y(i), 0);
  }

  lemma WeightMoves(d: seq<real>, e: seq<real>, p: nat, q: nat)
    requires |d| == |e| + 1
    ensures Dot(|d|, Moment(d, e, p + 1), Moment(d, e, q)) == Dot(|d|, Moment(d, e, p), Moment(d, e, q + 1))
  {
    hide Dot, Moment, Times, BackCoupling;
    var n, x, y := |d|, Moment(d, e, p), Moment(d, e, q);
    MomentApplied(d, e, p, n);
    MomentApplied(d, e, q, n);
    Crossing(d, e, x, Moment(d, e, p + 1), y, Moment(d, e, q + 1), n);
    NothingCrosses(e, n, Times(x(n - 1), y(n)) - Times(x(n), y(n - 1)));
  }

  lemma NothingCrosses(e: seq<real>, n: nat, x: real)
    requires n == |e| + 1
    ensures Times(BackCoupling(e, n), x) == 0.0
  {}

  // Seen from the first vector, the model has twice as many moments as its order.
  lemma TwiceTheMoments(par: seq<int>, r: seq<real>, c: seq<real>, us: seq<seq<real>>, d: seq<real>, e: seq<real>,
                        k: nat)
    requires ReducedModel(par, r, c, us, d, e) && |e| == |us| - 1 && k < 2 * |us|
    ensures Ip(|par|, c, us[0], RCPower(par, r, c, us[0], k)) == TriPower(d, e, k, 0)
  {
    hide *;
    SizeOf(par, r, c, us, d, e);
    var n, p := |par|, if k < |us| then k else |us| - 1;
    var q := k - p;
    var w := RCPower(par, r, c, us[0], q);
    PowersMove(par, r, c, us[0], p, q);
    IpOfPower(par, r, c, us, d, e, p, w);
    forall i | 0 <= i < |us| ensures Products(n, c, us, w)(i) == Moment(d, e, q)(i) {
      ProductIsMoment(par, r, c, us, d, e, q, i);
      ProductAt(n, c, us, w, i);
      MomentAt(d, e, q, i);
    }
    DotCong(|us|, Moment(d, e, p), Products(n, c, us, w), Moment(d, e, p), Moment(d, e, q));
    WeightsMove(d, e, p, q);
  }
}
