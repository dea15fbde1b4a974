// Sequences without duplicates.
module Sequences {
  ghost predicate Distinct<T>(s: seq<T>) {
    forall i, j :: 0 <= i < j < |s| ==> s[i] != s[j]
  }

  ghost predicate Permutation(n: nat, p: seq<int>) {
    && |p| == n && (forall i :: 0 <= i < n ==> 0 <= p[i] < n)
    && forall i, j :: 0 <= i < j < n ==> p[i] != p[j]
  }

  ghost function Without<T>(s: seq<T>, k: nat): seq<T>
    requires k < |s|
  {
    s[..k] + s[k + 1..]
  }

  lemma WithoutMembers<T>(s: seq<T>, k: nat)
    requires k < |s| && Distinct(s)
    ensures forall x :: x in Without(s, k) <==> x in s && x != s[k]
  {
    var t := Without(s, k);
    forall x | x in s && x != s[k] ensures x in t {
      var i :| 0 <= i < |s| && s[i] == x;
      assert t[if i < k then i else i - 1] == x;
    }
    forall x | x in t ensures x in s && x != s[k] {
      var i :| 0 <= i < |t| && t[i] == x;
      assert x == s[if i < k then i else i + 1];
    }
  }

  lemma PrefixHead<T>(s: seq<T>, t: seq<T>, k: nat)
    ensures 0 < k <= |s| && k <= |t| && s[..k] == t[..k] ==> s[0] == t[0]
  {
    if 0 < k <= |s| && k <= |t| { assert s[..k][0] == s[0] && t[..k][0] == t[0]; }
  }
}
