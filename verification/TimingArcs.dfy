// Timing arc sets: the order that tells duplicates, and the pruning of duplicates
// from a cell.
module TimingArcs {
  import opened Options
  import opened Sequences
  import opened FuncExpr

  // The edges of one arc, by the index of their transitions.
  datatype Edges = Edges(from: int, to: int)

  // id tells arc sets apart; role is the index of the timing role.
  datatype ArcSet = ArcSet(id: int, from: Port, to: Port, role: int, cond: Func, sdfCond: Option<string>,
                           sdfCondStart: Option<string>,
                           sdfCondEnd: Option<string>, modeName: Option<string>, modeValue: Option<string>,
                           arcs: seq<Edges>)

  predicate StringLessIf(a: Option<string>, b: Option<string>) {
    (a.None? && b.Some?) || (a.Some? && b.Some? && StringLess(a.value, b.value))
  }

  predicate ArcsLess(a: seq<Edges>, b: seq<Edges>) {
    if |a| < |b| then true else if |a| > |b| then false else EdgesLess(a, b)
  }

  predicate EdgesLess(a: seq<Edges>, b: seq<Edges>)
    requires |a| == |b|
  {
    if a == [] then false
    else if a[0].from != b[0].from then a[0].from < b[0].from
    else if a[0].to != b[0].to then a[0].to < b[0].to
    else EdgesLess(a[1..], b[1..])
  }

  method TimingArcsLess(arcs1: seq<Edges>, arcs2: seq<Edges>) returns (less: bool)
    ensures less == ArcsLess(arcs1, arcs2)
  {
    if |arcs1| < |arcs2| { return true; }
    if |arcs1| > |arcs2| { return false; }
    var i := 0;
    while i < |arcs1|
      invariant i <= |arcs1| && EdgesLess(arcs1, arcs2) == EdgesLess(arcs1[i..], arcs2[i..])
    {
      var arc1, arc2 := arcs1[i], arcs2[i];
      if arc1.from < arc2.from { return true; }
      if arc1.from > arc2.from { return false; }
      if arc1.to < arc2.to { return true; }
      if arc1.to > arc2.to { return false; }
      assert arcs1[i..][1..] == arcs1[i + 1..] && arcs2[i..][1..] == arcs2[i + 1..];
      i := i + 1;
    }
    return false;
  }

  method TimingArcsEquiv(arcs1: seq<Edges>, arcs2: seq<Edges>) returns (equiv: bool)
    ensures equiv <==> arcs1 == arcs2
  {
    if |arcs1| != |arcs2| { return false; }
    for i := 0 to |arcs1|
      invariant arcs1[..i] == arcs2[..i]
    {
      if !(arcs1[i].from == arcs2[i].from && arcs1[i].to == arcs2[i].to) { return false; }
    }
    return true;
  }

  predicate ArcSetLess(a: ArcSet, b: ArcSet) {
    if PortEquiv(a.from, b.from) then
      if PortEquiv(a.to, b.to) then
        if a.role == b.role then
          if FuncEquiv(a.cond, b.cond) then
            if a.sdfCond == b.sdfCond then
              if a.sdfCondStart == b.sdfCondStart then
                if a.sdfCondEnd == b.sdfCondEnd then
                  if a.modeName == b.modeName then
                    if a.modeValue == b.modeValue then ArcsLess(a.arcs, b.arcs)
                    else StringLessIf(a.modeValue, b.modeValue)
                  else StringLessIf(a.modeName, b.modeName)
                else StringLessIf(a.sdfCondEnd, b.sdfCondEnd)
              else StringLessIf(a.sdfCondStart, b.sdfCondStart)
            else StringLessIf(a.sdfCond, b.sdfCond)
          else FuncLess(a.cond, b.cond)
        else a.role < b.role
      else PortLess(a.to, b.to)
    else PortLess(a.from, b.from)
  }

  predicate ArcSetEquiv(a: ArcSet, b: ArcSet) {
    && PortEquiv(a.from, b.from) && PortEquiv(a.to, b.to) && a.role == b.role && FuncEquiv(a.cond, b.cond)
    && a.sdfCond == b.sdfCond && a.sdfCondStart == b.sdfCondStart && a.sdfCondEnd == b.sdfCondEnd && a.arcs == b.arcs
  }

  // ---- The order is a strict weak one ----------------------------------------------------------

  // The ten keys: an arc set without its identity and those of its ports.
  function Key(a: ArcSet): ArcSet {
    a.(id := 0, from := PortKey(a.from), to := PortKey(a.to), cond := Shape(a.cond))
  }

  lemma OptionOrder(a: Option<string>, b: Option<string>, c: Option<string>)
    ensures a == b ==> !StringLessIf(a, b)
    ensures a != b ==> StringLessIf(a, b) != StringLessIf(b, a)
    ensures StringLessIf(a, b) && StringLessIf(b, c) ==> StringLessIf(a, c)
  {
    if a.Some? && b.Some? {
      StringOrder(a.value, b.value, if c.Some? then c.value else []);
    }
  }

  lemma {:induction false} EdgesOrder(a: seq<Edges>, b: seq<Edges>, c: seq<Edges>)
    requires |a| == |b| == |c|
    ensures a == b ==> !EdgesLess(a, b)
    ensures a != b ==> EdgesLess(a, b) != EdgesLess(b, a)
    ensures EdgesLess(a, b) && EdgesLess(b, c) ==> EdgesLess(a, c)
  {
    if a != [] {
      EdgesOrder(a[1..], b[1..], c[1..]);
      assert a == b <==> a[0] == b[0] && a[1..] == b[1..] by {
        if a[0] == b[0] && a[1..] == b[1..] { assert a == [a[0]] + a[1..] && b == [b[0]] + b[1..]; }
      }
    }
  }

  lemma ArcsOrder(a: seq<Edges>, b: seq<Edges>, c: seq<Edges>)
    ensures a == b ==> !ArcsLess(a, b)
    ensures a != b ==> ArcsLess(a, b) != ArcsLess(b, a)
    ensures ArcsLess(a, b) && ArcsLess(b, c) ==> ArcsLess(a, c)
  {
    if |a| == |b| {
      EdgesOrder(a, b, b);
      if |b| == |c| { EdgesOrder(a, b, c); }
    }
  }

  // The keys agree exactly when every comparison along the way finds equality.
  lemma SameKeys(a: ArcSet, b: ArcSet)
    ensures Key(a) == Key(b) <==> ArcSetEquiv(a, b) && a.modeName == b.modeName && a.modeValue == b.modeValue
  {
    EquivIsSameShape(a.cond, b.cond);
  }

  // Two arc sets are in exactly one of three relations: less, greater, or equal in
  // all ten keys.
  lemma ArcSetTrichotomy(a: ArcSet, b: ArcSet)
    ensures Key(a) == Key(b) ==> !ArcSetLess(a, b) && !ArcSetLess(b, a)
    ensures Key(a) != Key(b) ==> ArcSetLess(a, b) != ArcSetLess(b, a)
  {
    SameKeys(a, b);
    FuncTrichotomy(a.cond, b.cond);
    ArcsOrder(a.arcs, b.arcs, b.arcs);
    hide FuncLess, FuncEquiv, StringLess, ArcsLess, Shape;
    PortOrder(a.from, b.from, b.from);
    PortOrder(a.to, b.to, b.to);
    OptionOrder(a.sdfCond, b.sdfCond, None);
    OptionOrder(a.sdfCondStart, b.sdfCondStart, None);
    OptionOrder(a.sdfCondEnd, b.sdfCondEnd, None);
    OptionOrder(a.modeName, b.modeName, None);
    OptionOrder(a.modeValue, b.modeValue, None);
    hide StringLessIf, PortLess;
  }

  lemma ArcSetTransitive(a: ArcSet, b: ArcSet, c: ArcSet)
    requires ArcSetLess(a, b) && ArcSetLess(b, c)
    ensures ArcSetLess(a, c)
  {
    PortChain(a.from, b.from, c.from);
    PortChain(a.to, b.to, c.to);
    LeftParts(a.cond, b.cond, c.cond);
    FuncTransitive(a.cond, b.cond, c.cond);
    OptionOrder(a.sdfCond, b.sdfCond, c.sdfCond);
    OptionOrder(a.sdfCondStart, b.sdfCondStart, c.sdfCondStart);
    OptionOrder(a.sdfCondEnd, b.sdfCondEnd, c.sdfCondEnd);
    OptionOrder(a.modeName, b.modeName, c.modeName);
    OptionOrder(a.modeValue, b.modeValue, c.modeValue);
    ArcsOrder(a.arcs, b.arcs, c.arcs);
    hide PortEquiv, PortLess, FuncEquiv, FuncLess, StringLessIf, ArcsLess;
  }

  // How a comparison of ports passes the decision on.
  lemma PortChain(p: Port, q: Port, r: Port)
    ensures PortEquiv(p, q) && PortEquiv(q, r) ==> PortEquiv(p, r)
    ensures PortEquiv(p, q) ==> PortLess(p, r) == PortLess(q, r) && PortEquiv(p, r) == PortEquiv(q, r)
    ensures PortEquiv(q, r) ==> PortLess(p, q) == PortLess(p, r) && PortEquiv(p, q) == PortEquiv(p, r)
    ensures PortLess(p, q) && PortLess(q, r) ==> PortLess(p, r) && !PortEquiv(p, r)
  {
    PortOrder(p, q, r);
    PortOrder(q, r, p);
    PortOrder(p, r, q);
  }

  // Being equal in the order is agreement on all ten keys, hence an equivalence.
  lemma TiesAreSameKeys(a: ArcSet, b: ArcSet)
    ensures !ArcSetLess(a, b) && !ArcSetLess(b, a) <==> Key(a) == Key(b)
  {
    ArcSetTrichotomy(a, b);
  }

  // The equivalence of arc sets leaves the modes out: it is weaker than a tie.
  lemma EquivIgnoresModes(a: ArcSet, b: ArcSet)
    ensures ArcSetEquiv(a, b)
            <==> Key(a.(modeName := None, modeValue := None)) == Key(b.(modeName := None, modeValue := None))
  {
    SameKeys(a.(modeName := None, modeValue := None), b.(modeName := None, modeValue := None));
  }

  // ---- Which way the order goes --------------------------------------------------------------

  // The first transition that differs decides.
  ghost predicate FirstEdgesLess(a: seq<Edges>, b: seq<Edges>, k: nat)
    requires |a| == |b|
  {
    && k < |a| && a[..k] == b[..k]
    && (a[k].from < b[k].from || (a[k].from == b[k].from && a[k].to < b[k].to))
  }

  // Fewer arcs come first, then the first transition that differs.
  lemma ArcsLessIff(a: seq<Edges>, b: seq<Edges>)
    ensures ArcsLess(a, b) <==> |a| < |b| || (|a| == |b| && exists k: nat :: FirstEdgesLess(a, b, k))
  {
    if |a| == |b| { EdgesLessIff(a, b); }
  }

  lemma {:induction false} EdgesLessIff(a: seq<Edges>, b: seq<Edges>)
    requires |a| == |b|
    ensures EdgesLess(a, b) <==> exists k: nat :: FirstEdgesLess(a, b, k)
  {
    if a != [] {
      if a[0] == b[0] {
        EdgesLessIff(a[1..], b[1..]);
        forall k: nat | FirstEdgesLess(a, b, k) ensures k > 0 && FirstEdgesLess(a[1..], b[1..], k - 1) {
          assert a[1..][..k - 1] == a[..k][1..] && b[1..][..k - 1] == b[..k][1..];
        }
        forall k: nat | FirstEdgesLess(a[1..], b[1..], k) ensures FirstEdgesLess(a, b, k + 1) {
          assert a[..k + 1] == [a[0]] + a[1..][..k] && b[..k + 1] == [b[0]] + b[1..][..k];
        }
      } else {
        assert FirstEdgesLess(a, b, 0) <==> EdgesLess(a, b);
        forall k: nat | FirstEdgesLess(a, b, k) ensures k == 0 {
          PrefixHead(a, b, k);
        }
      }
    }
  }

  // What the comparison of one key says.
  datatype Verdict = Verdict(equal: bool, less: bool)

  ghost function Verdicts(a: ArcSet, b: ArcSet): seq<Verdict> {
    [Verdict(PortEquiv(a.from, b.from), PortLess(a.from, b.from)),
     Verdict(PortEquiv(a.to, b.to), PortLess(a.to, b.to)),
     Verdict(a.role == b.role, a.role < b.role),
     Verdict(FuncEquiv(a.cond, b.cond), FuncLess(a.cond, b.cond)),
     Verdict(a.sdfCond == b.sdfCond, StringLessIf(a.sdfCond, b.sdfCond)),
     Verdict(a.sdfCondStart == b.sdfCondStart, StringLessIf(a.sdfCondStart, b.sdfCondStart)),
     Verdict(a.sdfCondEnd == b.sdfCondEnd, StringLessIf(a.sdfCondEnd, b.sdfCondEnd)),
     Verdict(a.modeName == b.modeName, StringLessIf(a.modeName, b.modeName)),
     Verdict(a.modeValue == b.modeValue, StringLessIf(a.modeValue, b.modeValue)),
     Verdict(a.arcs == b.arcs, ArcsLess(a.arcs, b.arcs))]
  }

  ghost predicate FirstVerdict(vs: seq<Verdict>, k: nat) {
    k < |vs| && !vs[k].equal && forall j :: 0 <= j < k ==> vs[j].equal
  }

  // The first of the ten keys that differs decides.
  lemma ArcSetLessIff(a: ArcSet, b: ArcSet)
    ensures ArcSetLess(a, b) <==> exists k: nat :: FirstVerdict(Verdicts(a, b), k) && Verdicts(a, b)[k].less
  {
    var vs := Verdicts(a, b);
    Unfolded(a, b);
    DecidedIff(vs, 0);
  }

  ghost predicate Decided(vs: seq<Verdict>, i: nat)
    decreases |vs| - i
  {
    i < |vs| && if vs[i].equal then Decided(vs, i + 1) else vs[i].less
  }

  lemma Unfolded(a: ArcSet, b: ArcSet)
    ensures ArcSetLess(a, b) <==> Decided(Verdicts(a, b), 0)
  {
    ArcsOrder(a.arcs, b.arcs, b.arcs);
    hide FuncEquiv, FuncLess, PortLess, PortEquiv, StringLessIf, ArcsLess, Decided;
    LastFour(Verdicts(a, b));
    FirstSix(Verdicts(a, b));
  }

  lemma LastFour(vs: seq<Verdict>)
    requires |vs| == 10
    ensures Decided(vs, 6)
            <==> if vs[6].equal then
                   if vs[7].equal then
                     if vs[8].equal then !vs[9].equal && vs[9].less else vs[8].less
                   else vs[7].less
                 else vs[6].less
  {
    assert Decided(vs, 9) <==> !vs[9].equal && vs[9].less;
    assert Decided(vs, 8) <==> if vs[8].equal then Decided(vs, 9) else vs[8].less;
    assert Decided(vs, 7) <==> if vs[7].equal then Decided(vs, 8) else vs[7].less;
  }

  lemma FirstSix(vs: seq<Verdict>)
    requires |vs| == 10
    ensures Decided(vs, 0)
            <==> if vs[0].equal then
                   if vs[1].equal then
                     if vs[2].equal then
                       if vs[3].equal then
                         if vs[4].equal then
                           if vs[5].equal then Decided(vs, 6) else vs[5].less
                         else vs[4].less
                       else vs[3].less
                     else vs[2].less
                   else vs[1].less
                 else vs[0].less
  {
    assert Decided(vs, 5) <==> if vs[5].equal then Decided(vs, 6) else vs[5].less;
    assert Decided(vs, 4) <==> if vs[4].equal then Decided(vs, 5) else vs[4].less;
    assert Decided(vs, 3) <==> if vs[3].equal then Decided(vs, 4) else vs[3].less;
    assert Decided(vs, 2) <==> if vs[2].equal then Decided(vs, 3) else vs[2].less;
    assert Decided(vs, 1) <==> if vs[1].equal then Decided(vs, 2) else vs[1].less;
  }

  lemma {:induction false} DecidedIff(vs: seq<Verdict>, i: nat)
    requires i <= |vs| && forall j :: 0 <= j < i ==> vs[j].equal
    ensures Decided(vs, i) <==> exists k: nat :: FirstVerdict(vs, k) && vs[k].less
    decreases |vs| - i
  {
    if i < |vs| {
      if vs[i].equal {
        DecidedIff(vs, i + 1);
      } else {
        assert FirstVerdict(vs, i);
        forall k: nat | FirstVerdict(vs, k) ensures k == i {}
      }
    }
  }
}
