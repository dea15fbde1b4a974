// Square matrices as sequences of rows, and the arrays that hold them.
module Matrices {
  import opened RealSums

  type Matrix = seq<seq<real>>

  ghost predicate Square(n: nat, A: Matrix) {
    |A| == n && forall i :: 0 <= i < n ==> |A[i]| == n
  }

  // Row j of V, or zeros.
  ghost function Row(V: Matrix, j: int): seq<real> {
    if 0 <= j < |V| then V[j] else []
  }

  // Entry a of row j of V, or 0.
  ghost function Vr(V: Matrix, j: int, a: int): real {
    At(Row(V, j), a)
  }

  ghost function EntryOf(V: Matrix): (int, int) -> real {
    (h, i) => Vr(V, h, i)
  }

  ghost function Rows(v: array2<real>, n: nat): (V: Matrix)
    requires n <= v.Length0 && n <= v.Length1
    reads v
    ensures Square(n, V)
    ensures forall j, k :: 0 <= j < n && 0 <= k < n ==> V[j][k] == v[j, k]
  {
    seq(n, j requires 0 <= j < n reads v => seq(n, k requires 0 <= k < n reads v => v[j, k]))
  }

  lemma RowsEqual(v: array2<real>, n: nat, V: Matrix)
    requires n <= v.Length0 && n <= v.Length1 && Square(n, V)
    requires forall j, k :: 0 <= j < n && 0 <= k < n ==> V[j][k] == v[j, k]
    ensures Rows(v, n) == V
  {
    var R := Rows(v, n);
    forall j | 0 <= j < n ensures R[j] == V[j] {}
  }

  // Rows i and k of v are exchanged.
  method ExchangeRowsOf(v: array2<real>, n: nat, i: nat, k: nat)
    requires i < n && k < n && i != k && n <= v.Length0 && n <= v.Length1
    modifies v
    ensures Rows(v, n) == old(Rows(v, n))[i := old(Rows(v, n))[k]][k := old(Rows(v, n))[i]]
  {
    for j := 0 to n
      invariant forall l, m :: 0 <= l < n && 0 <= m < n && ((l != i && l != k) || m >= j) ==> v[l, m] == old(v[l, m])
      invariant forall m :: 0 <= m < j ==> v[i, m] == old(v[k, m]) && v[k, m] == old(v[i, m])
    {
      var p := v[i, j];
      v[i, j] := v[k, j];
      v[k, j] := p;
    }
    ghost var V := old(Rows(v, n));
    RowsEqual(v, n, V[i := V[k]][k := V[i]]);
  }
}
