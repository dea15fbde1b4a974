// Newton-Raphson iteration on top of the linear solver.
module NewtonRaphson {
  import opened RealSums
  import opened Matrices
  import opened LuDecomp
  import opened LuSolve

  // The equations and their Jacobian at a point, unless evaluating them fails.
  datatype Evaluation = Values(fvec: seq<real>, fjac: Matrix) | Failed

  datatype Outcome = Converged | EvalFailed | NoNonZeroRowElement | TooManyIterations

  // An equation system of a size: evaluated values have that size.
  ghost predicate SystemOf(size: nat, eval: seq<real> -> Evaluation) {
    forall x :: |x| == size && eval(x).Values? ==> |eval(x).fvec| == size && Square(size, eval(x).fjac)
  }

  // One step: the point, the step from it, and the decomposition it came from.
  datatype Step = Step(x: seq<real>, p: seq<real>, lu: Matrix, index: seq<int>, zero: set<int>)

  function Negated(f: seq<real>): (g: seq<real>)
    ensures |g| == |f| && forall i :: 0 <= i < |f| ==> g[i] == -f[i]
  {
    seq(|f|, i requires 0 <= i < |f| => -f[i])
  }

  function Moved(x: seq<real>, p: seq<real>): (y: seq<real>)
    ensures |y| == |x| && forall i :: 0 <= i < |x| ==> y[i] == x[i] + At(p, i)
  {
    seq(|x|, i requires 0 <= i < |x| => x[i] + At(p, i))
  }

  ghost predicate Newton(size: nat, eval: seq<real> -> Evaluation, s: Step) {
    && |s.x| == |s.p| == size && eval(s.x).Values?
    && Decomposed(size, eval(s.x).fjac, s.lu, s.index, s.zero)
    && Solves(size, eval(s.x).fjac, s.index, s.zero, s.p, Negated(eval(s.x).fvec))
  }

  // All components of the step are under the tolerance.
  ghost predicate Small(xTol: real, s: Step) {
    forall i :: 0 <= i < |s.x| ==> Abs(At(s.p, i)) <= Abs(s.x[i]) * xTol
  }

  // The steps lead from x0 to x, none of them small but perhaps the last.
  ghost predicate Run(size: nat, eval: seq<real> -> Evaluation, xTol: real, x0: seq<real>, steps: seq<Step>,
                      x: seq<real>) {
    if steps == [] then x == x0
    else
      var s := steps[|steps| - 1];
      && Newton(size, eval, s) && x == Moved(s.x, s.p)
      && Run(size, eval, xTol, x0, steps[..|steps| - 1], s.x)
      && forall k :: 0 <= k < |steps| - 1 ==> !Small(xTol, steps[k])
  }

  // What every outcome says about the steps made and the point reached.
  ghost predicate Outcomes(o: Outcome, size: nat, eval: seq<real> -> Evaluation, xTol: real, maxIter: int,
                           steps: seq<Step>, x: seq<real>) {
    match o
    case Converged => 0 < |steps| <= maxIter && Small(xTol, steps[|steps| - 1])
    case EvalFailed => |steps| < maxIter && NoneSmall(xTol, steps) && eval(x).Failed?
    case NoNonZeroRowElement =>
      && |steps| < maxIter && NoneSmall(xTol, steps) && eval(x).Values?
      && exists i :: 0 <= i < size && ZeroRow(size, eval(x).fjac, i)
    case TooManyIterations => |steps| == (if maxIter > 0 then maxIter else 0) && NoneSmall(xTol, steps)
  }

  ghost predicate NoneSmall(xTol: real, steps: seq<Step>) {
    forall k :: 0 <= k < |steps| ==> !Small(xTol, steps[k])
  }

  // The equations at the current point are copied to the work arrays.
  method Evaluate(fvec: seq<real>, fjac: Matrix, size: nat, f: array<real>, a: array2<real>)
    requires |fvec| == size == f.Length && Square(size, fjac) && a.Length0 == a.Length1 == size
    modifies f, a
    ensures f[..] == fvec && Rows(a, size) == fjac
  {
    for i := 0 to size
      invariant f[..i] == fvec[..i]
      invariant forall r, c :: 0 <= r < i && 0 <= c < size ==> a[r, c] == fjac[r][c]
    {
      f[i] := fvec[i];
      for j := 0 to size
        invariant f[..i + 1] == fvec[..i + 1]
        invariant forall r, c :: 0 <= r < i && 0 <= c < size ==> a[r, c] == fjac[r][c]
        invariant forall c :: 0 <= c < j ==> a[i, c] == fjac[i][c]
      {
        a[i, j] := fjac[i][j];
      }
    }
    RowsEqual(a, size, fjac);
  }

  // x moves by p; tells whether every component was under the tolerance.
  method Move(x: array<real>, p: array<real>, size: nat, xTol: real) returns (small: bool)
    requires x.Length == p.Length == size && x != p
    modifies x
    ensures x[..] == Moved(old(x[..]), p[..])
    ensures small <==> forall i :: 0 <= i < size ==> Abs(p[i]) <= Abs(old(x[i])) * xTol
  {
    small := true;
    for i := 0 to size
      invariant forall k :: 0 <= k < size ==> x[k] == if k < i then old(x[k]) + p[k] else old(x[k])
      invariant small <==> forall k :: 0 <= k < i ==> Abs(p[k]) <= Abs(old(x[k])) * xTol
    {
      if Abs(p[i]) > Abs(x[i]) * xTol {
        small := false;
      }
      x[i] := x[i] + p[i];
    }
  }

  // The step from a point where the equations have been evaluated, left in p.
  method StepOf(size: nat, eval: seq<real> -> Evaluation, e: Evaluation, ghost at: seq<real>, fvec: array<real>,
                fjac: array2<real>, index: array<int>, p: array<real>, scale: array<real>)
                returns (ok: bool, ghost s: Step)
    requires SystemOf(size, eval) && e == eval(at) && e.Values? && |at| == size
    requires fvec.Length == p.Length == index.Length == scale.Length == size && fjac.Length0 == fjac.Length1 == size
    requires p != scale && fvec != p && fvec != scale
    modifies fvec, fjac, index, p, scale
    ensures ok ==> Newton(size, eval, s) && s.x == at && s.p == p[..]
    ensures !ok ==> exists i :: 0 <= i < size && ZeroRow(size, e.fjac, i)
  {
    hide Rows, Decomposed, Solves, ZeroRow;
    Evaluate(e.fvec, e.fjac, size, fvec, fjac);
    for i := 0 to size
      invariant fvec[..] == e.fvec && Rows(fjac, size) == e.fjac && p[..i] == Negated(e.fvec)[..i]
    {
      p[i] := -fvec[i];
    }
    ghost var b := p[..];
    assert b == Negated(e.fvec);
    ghost var zero;
    ok, zero := LuDecomp.LuDecomp(fjac, size, index, scale);
    s := Step(at, b, [], [], {});
    if ok {
      LuSolve.LuSolve(fjac, size, index, p, e.fjac, zero);
      s := Step(at, p[..], Rows(fjac, size), index[..], zero);
    }
  }

  method NewtonRaphson(maxIter: int, x: array<real>, size: nat, xTol: real, eval: seq<real> -> Evaluation,
                       fvec: array<real>, fjac: array2<real>, index: array<int>, p: array<real>, scale: array<real>)
    returns (o: Outcome, ghost steps: seq<Step>)
    requires SystemOf(size, eval) && x.Length == fvec.Length == p.Length == size && fjac.Length0 == fjac.Length1 == size
    requires index.Length == scale.Length == size && x != fvec && x != p && x != scale && fvec != p && fvec != scale
    requires p != scale
    modifies x, fvec, fjac, index, p, scale
    ensures Run(size, eval, xTol, old(x[..]), steps, x[..])
    ensures Outcomes(o, size, eval, xTol, maxIter, steps, x[..])
  {
    hide Rows, ZeroRow, Newton, Run, Small, SystemOf, Moved;
    steps := [];
    var k := 0;
    assert Run(size, eval, xTol, x[..], [], x[..]) by { EmptyRun(size, eval, xTol, x[..]); }
    while k < maxIter
      invariant 0 <= k && (k <= maxIter || k == 0) && |steps| == k
      invariant Run(size, eval, xTol, old(x[..]), steps, x[..]) && NoneSmall(xTol, steps)
    {
      ghost var at := x[..];
      var e := eval(x[..]);
      if e.Failed? { return EvalFailed, steps; }
      var ok;
      ghost var s;
      ok, s := StepOf(size, eval, e, at, fvec, fjac, index, p, scale);
      if !ok { return NoNonZeroRowElement, steps; }
      var small := Move(x, p, size, xTol);
      RunExtended(size, eval, xTol, old(x[..]), steps, s, x[..]);
      steps := steps + [s];
      SmallIs(xTol, s, at, p[..], small);
      if small { return Converged, steps; }
      k := k + 1;
    }
    return TooManyIterations, steps;
  }

  lemma EmptyRun(size: nat, eval: seq<real> -> Evaluation, xTol: real, x: seq<real>)
    ensures Run(size, eval, xTol, x, [], x)
  {}

  lemma SmallIs(xTol: real, s: Step, x: seq<real>, p: seq<real>, small: bool)
    requires s.x == x && s.p == p && |x| == |p|
    requires small <==> forall i :: 0 <= i < |x| ==> Abs(p[i]) <= Abs(x[i]) * xTol
    ensures small <==> Small(xTol, s)
  {}

  lemma RunExtended(size: nat, eval: seq<real> -> Evaluation, xTol: real, x0: seq<real>, steps: seq<Step>, s: Step,
                    x: seq<real>)
    requires Run(size, eval, xTol, x0, steps, s.x) && NoneSmall(xTol, steps) && Newton(size, eval, s)
    requires x == Moved(s.x, s.p)
    ensures Run(size, eval, xTol, x0, steps + [s], x)
  {
    assert (steps + [s])[..|steps|] == steps;
  }

  // ---- What a step achieves ------------------------------------------------------------------

  // Without a zero pivot the step solves J*p == -F.
  lemma StepSolves(size: nat, eval: seq<real> -> Evaluation, s: Step)
    requires Newton(size, eval, s) && s.zero == {}
    ensures SolvesExactly(size, eval(s.x).fjac, s.p, Negated(eval(s.x).fvec))
  {
    SolvesWithoutZeroPivot(size, eval(s.x).fjac, s.index, s.zero, s.p, Negated(eval(s.x).fvec));
  }

  // A regular Jacobian has no zero pivot.
  lemma RegularStep(size: nat, eval: seq<real> -> Evaluation, s: Step, c: int)
    requires Newton(size, eval, s) && forall x :: NullVector(size, eval(s.x).fjac, x) ==> AllZero(x)
    ensures c !in s.zero
  {
    hide Decomposed, Solves;
    if c in s.zero {
      var x := SingularWithZeroPivot(size, eval(s.x).fjac, s.lu, s.index, s.zero, c);
    }
  }

  // Where the equations are linear along the step, the step ends at a root.
  lemma LinearStepEndsAtRoot(size: nat, eval: seq<real> -> Evaluation, s: Step)
    requires SystemOf(size, eval) && Newton(size, eval, s) && s.zero == {} && eval(Moved(s.x, s.p)).Values?
    requires forall i :: 0 <= i < size ==>
      eval(Moved(s.x, s.p)).fvec[i] == eval(s.x).fvec[i] + RowTimes(size, EntryOf(eval(s.x).fjac), i, s.p)
    ensures forall i :: 0 <= i < size ==> eval(Moved(s.x, s.p)).fvec[i] == 0.0
  {
    StepSolves(size, eval, s);
    hide RowTimes, Newton;
  }
}
