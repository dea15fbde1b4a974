// The pruning of duplicate timing arc sets from a cell.
module LibertyCell {
  import opened Options
  import opened TimingArcs

  ghost predicate SameKey(a: ArcSet, b: ArcSet) {
    Key(a) == Key(b)
  }

  ghost predicate Unique(s: seq<ArcSet>) {
    forall i, j :: 0 <= i < j < |s| ==> !SameKey(s[i], s[j])
  }

  ghost predicate DistinctIds(s: seq<ArcSet>) {
    forall i, j :: 0 <= i < j < |s| ==> s[i].id != s[j].id
  }

  // No earlier arc set has the same keys.
  ghost predicate IsFirst(s: seq<ArcSet>, i: nat)
    requires i < |s|
  {
    forall k :: 0 <= k < i ==> !SameKey(s[k], s[i])
  }

  // The first arc set of every class, in order.
  ghost function Firsts(s: seq<ArcSet>): seq<ArcSet> {
    if s == [] then []
    else
      var n := |s| - 1;
      Firsts(s[..n]) + if IsFirst(s, n) then [s[n]] else []
  }

  lemma {:induction false} FirstsAre(s: seq<ArcSet>)
    ensures forall x :: x in Firsts(s) <==> exists i :: 0 <= i < |s| && s[i] == x && IsFirst(s, i)
  {
    if s != [] {
      hide SameKey;
      var n := |s| - 1;
      var t := s[..n];
      FirstsAre(t);
      forall x ensures x in Firsts(s) <==> exists i :: 0 <= i < |s| && s[i] == x && IsFirst(s, i) {
        if x in Firsts(t) {
          var i :| 0 <= i < |t| && t[i] == x && IsFirst(t, i);
          assert s[i] == x && IsFirst(s, i);
        }
        if i :| 0 <= i < |s| && s[i] == x && IsFirst(s, i) {
          if i < n { assert t[i] == x && IsFirst(t, i); }
        }
      }
    }
  }

  // No two of them have the same keys.
  lemma {:induction false} FirstsUnique(s: seq<ArcSet>)
    ensures Unique(Firsts(s))
  {
    if s != [] {
      hide SameKey;
      var n := |s| - 1;
      var t := s[..n];
      FirstsUnique(t);
      FirstsAre(t);
      forall x | x in Firsts(t) && IsFirst(s, n) ensures !SameKey(x, s[n]) {
        var i :| 0 <= i < |t| && t[i] == x && IsFirst(t, i);
        assert s[i] == x;
      }
    }
  }

  lemma {:induction false} EveryClassHasAFirst(s: seq<ArcSet>, i: nat) returns (k: nat)
    requires i < |s|
    ensures k <= i && IsFirst(s, k) && SameKey(s[k], s[i])
  {
    if IsFirst(s, i) {
      k := i;
    } else {
      var j :| 0 <= j < i && SameKey(s[j], s[i]);
      k := EveryClassHasAFirst(s, j);
    }
  }

  // Firsts keep their order: x before y in the result means x before y in s.
  lemma {:induction false} FirstsInOrder(s: seq<ArcSet>, a: nat, b: nat) returns (i: nat, j: nat)
    requires a < b < |Firsts(s)|
    ensures i < j < |s| && s[i] == Firsts(s)[a] && s[j] == Firsts(s)[b]
  {
    var n := |s| - 1;
    var t := s[..n];
    if b < |Firsts(t)| {
      i, j := FirstsInOrder(t, a, b);
    } else {
      FirstsAre(t);
      assert Firsts(t)[a] in Firsts(t);
      i :| 0 <= i < |t| && t[i] == Firsts(t)[a] && IsFirst(t, i);
      j := n;
    }
  }

  class LibertyCell {
    var timingArcSets: seq<ArcSet>
    var timingArcSetMap: seq<ArcSet>   // the contents of the set

    // The element of the set that the order does not tell from x.
    method FindKey(x: ArcSet) returns (match_: Option<ArcSet>)
      ensures match_.Some? ==> match_.value in timingArcSetMap && SameKey(match_.value, x)
      ensures match_.None? ==> forall m :: m in timingArcSetMap ==> !SameKey(m, x)
    {
      for i := 0 to |timingArcSetMap|
        invariant forall k :: 0 <= k < i ==> !SameKey(timingArcSetMap[k], x)
      {
        var m := timingArcSetMap[i];
        TiesAreSameKeys(m, x);
        if !ArcSetLess(m, x) && !ArcSetLess(x, m) { return Some(m); }
      }
      return None;
    }

    // Inserts x unless the set has an element that the order does not tell from it.
    method Insert(x: ArcSet)
      modifies this`timingArcSetMap
      ensures timingArcSetMap == if forall m :: m in old(timingArcSetMap) ==>
        !SameKey(m, x) then old(timingArcSetMap) + [x] else old(timingArcSetMap)
    {
      var match_ := FindKey(x);
      if match_.None? {
        timingArcSetMap := timingArcSetMap + [x];
      }
    }

    // Leaves the first arc set of every class, in order; the sizes agree.
    method MakeTimingArcMap() returns (ok: bool)
      requires timingArcSetMap == [] && DistinctIds(timingArcSets)
      modifies this
      ensures timingArcSets == Firsts(old(timingArcSets)) && timingArcSetMap == timingArcSets && ok
    {
      hide SameKey, Firsts;
      ghost var s := timingArcSets;
      FirstsOfNone(s);
      for i := 0 to |timingArcSets|
        invariant timingArcSets == s && timingArcSetMap == Firsts(s[..i])
      {
        FirstsNext(s, i);
        Insert(timingArcSets[i]);
      }
      assert s[..|s|] == s;
      // What the set does not hold goes; the rest closes up.
      var j := 0;
      for i := 0 to |timingArcSets|
        invariant 0 <= j <= i && |timingArcSets| == |s| && timingArcSets[i..] == s[i..]
        invariant timingArcSets[..j] == Firsts(s[..i])
        invariant timingArcSetMap == Firsts(s)
      {
        var arcSet := timingArcSets[i];
        assert arcSet == s[i];
        var match_ := FindKey(arcSet);
        MatchIsFirst(s, i, match_);
        FirstsNext(s, i);
        FirstsLength(s, i);
        if match_ == Some(arcSet) {
          timingArcSets := timingArcSets[j := arcSet];
          j := j + 1;
        }
      }
      timingArcSets := timingArcSets[..j];
      ok := |timingArcSetMap| == |timingArcSets|;
    }
  }

  lemma FirstsOfNone(s: seq<ArcSet>)
    ensures Firsts(s[..0]) == []
  {}

  lemma FirstsNext(s: seq<ArcSet>, i: nat)
    requires i < |s|
    ensures Firsts(s[..i + 1]) == Firsts(s[..i]) + if IsFirst(s, i) then [s[i]] else []
    ensures IsFirst(s, i) <==> forall m :: m in Firsts(s[..i]) ==> !SameKey(m, s[i])
  {
    hide SameKey;
    assert s[..i + 1][..i] == s[..i];
    FirstOfAll(s, i);
  }

  lemma FirstOfAll(s: seq<ArcSet>, i: nat)
    requires i < |s|
    ensures IsFirst(s, i) <==> forall m :: m in Firsts(s[..i]) ==> !SameKey(m, s[i])
  {
    hide Firsts, Key;
    FirstsAre(s[..i]);
    if IsFirst(s, i) {
      forall m | m in Firsts(s[..i]) ensures !SameKey(m, s[i]) {
        var k :| 0 <= k < i && s[..i][k] == m && IsFirst(s[..i], k);
        assert s[k] == m;
      }
    } else {
      var j :| 0 <= j < i && SameKey(s[j], s[i]);
      var k := EveryClassHasAFirst(s[..i], j);
      assert s[..i][k] in Firsts(s[..i]);
    }
  }

  // What the set finds for an arc set is that arc set if and only if it is a first.
  lemma MatchIsFirst(s: seq<ArcSet>, i: nat, match_: Option<ArcSet>)
    requires i < |s| && DistinctIds(s)
    requires match_.Some? ==> match_.value in Firsts(s) && SameKey(match_.value, s[i])
    requires match_.None? ==> forall m :: m in Firsts(s) ==> !SameKey(m, s[i])
    ensures match_ == Some(s[i]) <==> IsFirst(s, i)
  {
    FirstsAre(s);
    var k := EveryClassHasAFirst(s, i);
    assert s[k] in Firsts(s);
    if match_.Some? {
      var m :| 0 <= m < |s| && s[m] == match_.value && IsFirst(s, m);
      assert m == k by { assert m < k ==> SameKey(s[m], s[k]); assert k < m ==> SameKey(s[k], s[m]); }
    }
  }

  lemma {:induction false} FirstsLength(s: seq<ArcSet>, i: nat)
    requires i <= |s|
    ensures |Firsts(s[..i])| <= i
  {
    if i > 0 {
      FirstsLength(s, i - 1);
      FirstsNext(s, i - 1);
    }
  }

  // Of two duplicates the earlier one is kept.
  lemma EarlierIsKept(a: ArcSet, b: ArcSet)
    requires SameKey(a, b)
    ensures Firsts([a, b]) == [a]
  {
    var s := [a, b];
    FirstsNext(s, 0);
    FirstsNext(s, 1);
    assert s[..2] == s && s[0] == a && s[1] == b;
  }
}
