// The states the eigensolver goes through: what one rotation, one sweep, the sweeps of
// one row and the rows of the whole matrix have to do with each other.
module QlSweeps {
  import opened RealSums
  import opened Matrices
  import opened Tridiagonal

  // The diagonal, the couplings and the rows of v between two sweeps.
  datatype State = State(d: seq<real>, e: seq<real>, V: Matrix)

  // ... and in the middle of one, with the shift still owed, the coupling in the air, and
  // the sine and cosine of the last rotation.
  datatype Mid = Mid(at: State, p: real, g: real, s: real, c: real)

  // How the values of a rotation depend on those before it.
  ghost predicate Rotation(d: seq<real>, e: seq<real>, i: nat, p: real, g: real, s: real, c: real, r: real,
                           s': real, c': real, p': real, g': real)
  {
    && 0 < i < |d| == |e| && r != 0.0
    && var f, b := s * e[i], c * e[i];
       r * r == f * f + g * g && s' == f / r && c' == g / r
       && var R := (d[i] - (d[i - 1] - p)) * s' + 2.0 * c' * b;
          p' == s' * R && g' == c' * R - b
  }

  // The rotation at i of a sweep.
  ghost predicate Turned(n: nat, i: nat, x: Mid, y: Mid) {
    && 0 < i < n == |x.at.d| == |x.at.e| == |y.at.e| && y.at.e[i - 1] > 0.0
    && Rotation(x.at.d, x.at.e, i, x.p, x.g, x.s, x.c, y.at.e[i - 1], y.s, y.c, y.p, y.g)
    && y.at.d == x.at.d[i - 1 := x.at.d[i - 1] - x.p + y.p] && y.at.e == x.at.e[i - 1 := y.at.e[i - 1]]
    && Rotated(n, x.at.V, y.at.V, i, y.s, y.c)
  }

  // Rotation i leads from ms[i - 1] to ms[i].
  ghost predicate Turning(n: nat, ms: seq<Mid>) {
    |ms| > 0 && forall i :: 1 <= i < |ms| ==> Turned(n, i, ms[i - 1], ms[i])
  }

  lemma TurningGrows(n: nat, ms: seq<Mid>, y: Mid)
    requires Turning(n, ms) && Turned(n, |ms|, ms[|ms| - 1], y)
    ensures Turning(n, ms + [y])
  {
    hide Turned;
  }

  // Seen from row 0 the shift d0 - g is the eigenvalue of the last two rows that is the
  // nearer to dh; between two equally near it is the one on the far side of the coupling.
  ghost predicate ShiftAt(g: real, d0: real, dl: real, dh: real, eh: real) {
    var sigma := d0 - g;
    && Times(sigma - dl, sigma - dh) == Times(eh, eh) && Abs(sigma - dh) <= Abs(eh)
    && (dl == dh ==> sigma == dh - eh)
  }

  // A sweep starts at row 0 with the shift.
  ghost predicate Starts(h: nat, m: Mid, S: State) {
    && 0 < h < |S.d| == |S.e| && m.at == S && m.p == 0.0 && m.s == m.c == 1.0
    && ShiftAt(m.g, S.d[0], S.d[h - 1], S.d[h], S.e[h])
  }

  // After its last rotation it settles what is owed and in the air.
  ghost predicate Settles(n: nat, h: nat, m: Mid, T: State) {
    && 0 < h < n == |m.at.d| == |m.at.e|
    && T == State(m.at.d[h := m.at.d[h] - m.p], m.at.e[h := m.g][0 := 0.0], m.at.V)
  }

  // Before rotation i there is nothing to turn, and it breaks off.
  ghost predicate BreaksOff(n: nat, i: nat, m: Mid, T: State) {
    && 0 < i < n == |m.at.d| == |m.at.e| && m.s * m.at.e[i] == 0.0 && m.g == 0.0
    && T == State(m.at.d[i - 1 := m.at.d[i - 1] - m.p], m.at.e[i - 1 := 0.0][0 := 0.0], m.at.V)
  }

  // One sweep over rows 0..h, by the rotations ms.
  ghost predicate Swept(n: nat, h: nat, ms: seq<Mid>, S: State, T: State) {
    && Turning(n, ms) && |ms| <= h + 1 && Starts(h, ms[0], S)
    && if |ms| == h + 1 then Settles(n, h, ms[h], T) else BreaksOff(n, |ms|, ms[|ms| - 1], T)
  }

  lemma SweptWhole(n: nat, h: nat, ms: seq<Mid>, S: State, T: State)
    requires Turning(n, ms) && |ms| == h + 1 && Starts(h, ms[0], S) && Settles(n, h, ms[h], T)
    ensures Swept(n, h, ms, S, T)
  {}

  lemma SweptInPart(n: nat, h: nat, ms: seq<Mid>, S: State, T: State)
    requires Turning(n, ms) && |ms| <= h && Starts(h, ms[0], S) && BreaksOff(n, |ms|, ms[|ms| - 1], T)
    ensures Swept(n, h, ms, S, T)
  {}

  lemma Started(h: nat, m: Mid, S: State)
    requires 0 < h < |S.d| == |S.e| && m.at == S && m.p == 0.0 && m.s == m.c == 1.0
    requires ShiftAt(m.g, S.d[0], S.d[h - 1], S.d[h], S.e[h])
    ensures Starts(h, m, S)
  {}

  lemma Settled(n: nat, h: nat, d: seq<real>, e: seq<real>, V: Matrix, p: real, g: real, s: real, c: real)
    requires 0 < h < n == |d| == |e|
    ensures Settles(n, h, Mid(State(d, e, V), p, g, s, c), State(d[h := d[h] - p], e[h := g][0 := 0.0], V))
  {}

  lemma BrokenOff(n: nat, i: nat, d: seq<real>, e: seq<real>, V: Matrix, p: real, g: real, s: real, c: real)
    requires 0 < i < n == |d| == |e| && s * e[i] == 0.0 && g == 0.0
    ensures BreaksOff(n, i, Mid(State(d, e, V), p, g, s, c),
                      State(d[i - 1 := d[i - 1] - p], e[i - 1 := 0.0][0 := 0.0], V))
  {}

  ghost predicate SweptTo(n: nat, h: nat, S: State, T: State) {
    exists ms :: Swept(n, h, ms, S, T)
  }

  // The sweeps of one row: each leads from a state whose coupling of row h is not
  // negligible to the next, and there are no more than 20.
  ghost predicate RowRun(n: nat, h: nat, ss: seq<State>) {
    && 0 < |ss| <= 21 && (forall k :: 0 <= k < |ss| ==> h < |ss[k].e|)
    && forall k :: 0 <= k < |ss| - 1 ==> Abs(ss[k].e[h]) > 1e-18 && SweptTo(n, h, ss[k], ss[k + 1])
  }

  // The row ended with a negligible coupling, or after 20 sweeps without one.
  ghost predicate RowEnd(n: nat, h: nat, ss: seq<State>, ok: bool) {
    RowRun(n, h, ss) && if ok then Abs(ss[|ss| - 1].e[h]) <= 1e-18 else |ss| == 21 && Abs(ss[20].e[h]) > 1e-18
  }

  lemma RowRunGrows(n: nat, h: nat, ss: seq<State>, ms: seq<Mid>, T: State)
    requires RowRun(n, h, ss) && |ss| <= 20 && Abs(ss[|ss| - 1].e[h]) > 1e-18 && h < |T.e|
    requires Swept(n, h, ms, ss[|ss| - 1], T)
    ensures RowRun(n, h, ss + [T])
  {
    hide Swept;
    var t := ss + [T];
    forall k | 0 <= k < |t| - 1 ensures Abs(t[k].e[h]) > 1e-18 && SweptTo(n, h, t[k], t[k + 1]) {
      assert k < |ss| - 1 ==> SweptTo(n, h, ss[k], ss[k + 1]);
    }
  }

  // Where run k starts: run 0 at S, every other where the one before it ended.
  ghost function RunStart(S: State, runs: seq<seq<State>>, k: nat): State
  {
    if 0 < k <= |runs| && runs[k - 1] != [] then runs[k - 1][|runs[k - 1]| - 1] else S
  }

  // The rows n - 1, n - 2, ... in turn, all of which ended well, but perhaps the last.
  ghost predicate Runs(n: nat, S: State, runs: seq<seq<State>>, ok: bool) {
    && |runs| < n && (forall k :: 0 <= k < |runs| ==> runs[k] != [])
    && forall k :: 0 <= k < |runs| ==>
         RowEnd(n, n - 1 - k, runs[k], ok || k < |runs| - 1) && runs[k][0] == RunStart(S, runs, k)
  }

  lemma RunsGrow(n: nat, S: State, runs: seq<seq<State>>, ss: seq<State>, ok: bool)
    requires Runs(n, S, runs, true) && |runs| + 1 < n
    requires RowEnd(n, n - 1 - |runs|, ss, ok) && ss[0] == RunStart(S, runs, |runs|)
    ensures Runs(n, S, runs + [ss], ok) && RunStart(S, runs + [ss], |runs| + 1) == ss[|ss| - 1]
  {
    hide RowRun;
    var t := runs + [ss];
    assert |ss| > 0 by { NotEmpty(n, n - 1 - |runs|, ss, ok); }
    forall k | 0 <= k < |t| ensures RowEnd(n, n - 1 - k, t[k], ok || k < |t| - 1) && t[k][0] == RunStart(S, t, k) {
      assert k < |runs| ==> RowEnd(n, n - 1 - k, runs[k], true) && runs[k][0] == RunStart(S, runs, k);
    }
  }

  lemma NotEmpty(n: nat, h: nat, ss: seq<State>, ok: bool)
    requires RowEnd(n, h, ss, ok)
    ensures |ss| > 0
  {}

  // All rows were gone through, or the last one was given up after 20 sweeps, at T.
  ghost predicate History(n: nat, S: State, runs: seq<seq<State>>, ok: bool, T: State) {
    && Runs(n, S, runs, ok) && T == RunStart(S, runs, |runs|)
    && if ok then |runs| == n - 1 else runs != []
  }
}
