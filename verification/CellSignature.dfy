// When two cells are equivalent, and what their hashes have in common.
module CellSignature {
  import opened Sequences
  import opened Options
  import opened FuncExpr
  import opened TimingArcs

  datatype CellPort = CellPort(port: Port, function_: Func, tristateEnable: Func)

  datatype PgPort = PgPort(name: string, pgType: nat)

  datatype Sequential = Sequential(clock: Func, data: Func, output: Port, outputInv: Port, clear: Func, preset: Func,
                                   clearPresetOutput: nat, clearPresetOutputInv: nat)

  // portMap finds ports by name, bits of bus ports among them.
  datatype Cell = Cell(id: int, dontUse: bool, ports: seq<CellPort>, portMap: map<string, CellPort>,
                       pgPorts: seq<PgPort>,
                       sequentials: seq<Sequential>, arcSets: seq<ArcSet>)

  // ---- The comparison, as the loops make it ------------------------------------------------

  ghost predicate PortMatch(p: CellPort, q: CellPort) {
    PortEquiv(p.port, q.port) && FuncEquiv(p.function_, q.function_) && FuncEquiv(p.tristateEnable, q.tristateEnable)
  }

  // Port i of c is found by name in d, and matches.
  ghost predicate PortFound(c: Cell, d: Cell, i: nat)
    requires i < |c.ports|
  {
    c.ports[i].port.name in d.portMap && PortMatch(c.ports[i], d.portMap[c.ports[i].port.name])
  }

  ghost predicate EquivPortsAndFuncs(c: Cell, d: Cell) {
    |c.ports| == |d.ports| && forall i :: 0 <= i < |c.ports| ==> PortFound(c, d, i)
  }

  ghost predicate EquivPgPorts(c: Cell, d: Cell) {
    |c.pgPorts| == |d.pgPorts| && forall p :: p in c.pgPorts ==> p in d.pgPorts
  }

  ghost predicate SequentialMatch(s: Sequential, t: Sequential) {
    && FuncEquiv(s.clock, t.clock) && FuncEquiv(s.data, t.data) && PortEquiv(s.output, t.output)
    && PortEquiv(s.outputInv, t.outputInv)
    && FuncEquiv(s.clear, t.clear) && FuncEquiv(s.preset, t.preset)
  }

  ghost predicate EquivSequentials(c: Cell, d: Cell) {
    && |c.sequentials| == |d.sequentials|
    && forall i :: 0 <= i < |c.sequentials| ==> SequentialMatch(c.sequentials[i], d.sequentials[i])
  }

  ghost predicate ArcSetFound(a: ArcSet, d: Cell) {
    exists b :: b in d.arcSets && Key(a) == Key(b)
  }

  ghost predicate EquivArcSets(c: Cell, d: Cell) {
    |c.arcSets| == |d.arcSets| && forall a :: a in c.arcSets ==> ArcSetFound(a, d)
  }

  ghost predicate EquivCells(c: Cell, d: Cell) {
    EquivPortsAndFuncs(c, d) && EquivPgPorts(c, d) && EquivSequentials(c, d) && EquivArcSets(c, d)
  }

  // ---- The comparison in loops ---------------------------------------------------------------

  // The pg ports of a cell are kept by name.
  ghost predicate PgByName(c: Cell) {
    forall i, j :: 0 <= i < j < |c.pgPorts| ==> c.pgPorts[i].name != c.pgPorts[j].name
  }

  method CompareCells(c: Cell, d: Cell) returns (equiv: bool)
    requires PgByName(d)
    ensures equiv <==> EquivCells(c, d)
  {
    equiv := ComparePortsAndFuncs(c, d);
    if !equiv { return; }
    equiv := ComparePgPorts(c, d);
    if !equiv { return; }
    equiv := CompareSequentials(c, d);
    if !equiv { return; }
    equiv := CompareArcSets(c, d);
  }

  method ComparePortsAndFuncs(c: Cell, d: Cell) returns (equiv: bool)
    ensures equiv <==> EquivPortsAndFuncs(c, d)
  {
    if |c.ports| != |d.ports| { return false; }
    for i := 0 to |c.ports|
      invariant forall k :: 0 <= k < i ==> PortFound(c, d, k)
    {
      var port1 := c.ports[i];
      var name := port1.port.name;
      if name !in d.portMap {
        assert !PortFound(c, d, i);
        return false;
      }
      var port2 := d.portMap[name];
      if !(PortEquiv(port1.port, port2.port)
           && FuncEquiv(port1.function_, port2.function_)
           && FuncEquiv(port1.tristateEnable, port2.tristateEnable)) {
        assert !PortFound(c, d, i);
        return false;
      }
    }
    return true;
  }

  // The pg port of that name, by which a cell keeps its pg ports apart.
  function FindPgPort(ports: seq<PgPort>, name: string): (p: Option<PgPort>)
    ensures p.Some? ==> p.value in ports && p.value.name == name
    ensures p.None? ==> forall q :: q in ports ==> q.name != name
  {
    if ports == [] then None else if ports[0].name == name then Some(ports[0]) else FindPgPort(ports[1..], name)
  }

  method ComparePgPorts(c: Cell, d: Cell) returns (equiv: bool)
    requires PgByName(d)
    ensures equiv <==> EquivPgPorts(c, d)
  {
    assert forall p, q :: p in d.pgPorts && q in d.pgPorts && p.name == q.name ==> p == q;
    if |c.pgPorts| != |d.pgPorts| { return false; }
    for i := 0 to |c.pgPorts|
      invariant forall k :: 0 <= k < i ==> c.pgPorts[k] in d.pgPorts
    {
      var port2 := FindPgPort(d.pgPorts, c.pgPorts[i].name);
      if !(port2.Some? && c.pgPorts[i].name == port2.value.name && c.pgPorts[i].pgType == port2.value.pgType) {
        return false;
      }
    }
    return true;
  }

  method CompareSequentials(c: Cell, d: Cell) returns (equiv: bool)
    ensures equiv <==> EquivSequentials(c, d)
  {
    var i := 0;
    while i < |c.sequentials| && i < |d.sequentials|
      invariant i <= |c.sequentials| && i <= |d.sequentials|
      invariant forall k :: 0 <= k < i ==> SequentialMatch(c.sequentials[k], d.sequentials[k])
    {
      var seq1, seq2 := c.sequentials[i], d.sequentials[i];
      if !(FuncEquiv(seq1.clock, seq2.clock) && FuncEquiv(seq1.data, seq2.data) && PortEquiv(seq1.output, seq2.output)
           && PortEquiv(seq1.outputInv, seq2.outputInv) && FuncEquiv(seq1.clear, seq2.clear)
           && FuncEquiv(seq1.preset, seq2.preset)) {
        assert !SequentialMatch(c.sequentials[i], d.sequentials[i]);
        return false;
      }
      i := i + 1;
    }
    return i == |c.sequentials| && i == |d.sequentials|;
  }

  // What the ordered set of arc sets finds.
  function FindArcSet(sets: seq<ArcSet>, a: ArcSet): (b: Option<ArcSet>)
    ensures b.Some? ==> b.value in sets && !ArcSetLess(b.value, a) && !ArcSetLess(a, b.value)
    ensures b.None? ==> forall x :: x in sets ==> ArcSetLess(x, a) || ArcSetLess(a, x)
  {
    if sets == [] then None
    else if !ArcSetLess(sets[0], a) && !ArcSetLess(a, sets[0]) then Some(sets[0])
    else FindArcSet(sets[1..], a)
  }

  method CompareArcSets(c: Cell, d: Cell) returns (equiv: bool)
    ensures equiv <==> EquivArcSets(c, d)
  {
    if |c.arcSets| != |d.arcSets| { return false; }
    for i := 0 to |c.arcSets|
      invariant forall k :: 0 <= k < i ==> ArcSetFound(c.arcSets[k], d)
    {
      var arcSet1 := c.arcSets[i];
      var arcSet2 := FindArcSet(d.arcSets, arcSet1);
      FoundByKey(d.arcSets, arcSet1);
      if !(arcSet2.Some? && ArcSetEquiv(arcSet1, arcSet2.value)) {
        assert !ArcSetFound(arcSet1, d);
        return false;
      }
    }
    return true;
  }

  // The order finds exactly what agrees in the keys, which is then equivalent.
  lemma FoundByKey(sets: seq<ArcSet>, a: ArcSet)
    ensures FindArcSet(sets, a).Some? <==> exists b :: b in sets && Key(a) == Key(b)
    ensures FindArcSet(sets, a).Some? ==> ArcSetEquiv(a, FindArcSet(sets, a).value)
  {
    forall b | b in sets ensures !ArcSetLess(b, a) && !ArcSetLess(a, b) <==> Key(b) == Key(a) { TiesAreSameKeys(b, a); }
    var b := FindArcSet(sets, a);
    if b.Some? { SameKeys(a, b.value); }
  }

  // ---- The signature of a cell ---------------------------------------------------------------

  function PortSig(p: CellPort): CellPort {
    CellPort(PortKey(p.port), Shape(p.function_), Shape(p.tristateEnable))
  }

  function SequentialSig(s: Sequential): Sequential {
    Sequential(Shape(s.clock), Shape(s.data), PortKey(s.output), PortKey(s.outputInv), Shape(s.clear), Shape(s.preset),
               0, 0)
  }

  ghost function PortSigs(ports: seq<CellPort>): (s: seq<CellPort>)
    ensures |s| == |ports| && forall i :: 0 <= i < |ports| ==> s[i] == PortSig(ports[i])
  {
    seq(|ports|, i requires 0 <= i < |ports| => PortSig(ports[i]))
  }

  ghost function SequentialSigs(q: seq<Sequential>): (s: seq<Sequential>)
    ensures |s| == |q| && forall i :: 0 <= i < |q| ==> s[i] == SequentialSig(q[i])
  {
    seq(|q|, i requires 0 <= i < |q| => SequentialSig(q[i]))
  }

  ghost function ArcSetSigs(a: seq<ArcSet>): (s: seq<ArcSet>)
    ensures |s| == |a| && forall i :: 0 <= i < |a| ==> s[i] == Key(a[i])
  {
    seq(|a|, i requires 0 <= i < |a| => Key(a[i]))
  }

  datatype Signature = Signature(ports: multiset<CellPort>, pgPorts: multiset<PgPort>, sequentials: seq<Sequential>,
                                 arcSets: multiset<ArcSet>)

  ghost function Sig(c: Cell): Signature {
    Signature(multiset(PortSigs(c.ports)), multiset(c.pgPorts), SequentialSigs(c.sequentials),
              multiset(ArcSetSigs(c.arcSets)))
  }

  // Ports have names of their own and are found by them; duplicate arc sets have
  // been pruned.
  ghost predicate WellFormed(c: Cell) {
    && PgByName(c)
    && (forall i, j :: 0 <= i < j < |c.ports| ==> c.ports[i].port.name != c.ports[j].port.name)
    && (forall i :: 0 <= i < |c.ports| ==>
          c.ports[i].port.name in c.portMap && c.portMap[c.ports[i].port.name] == c.ports[i])
    && forall i, j :: 0 <= i < j < |c.arcSets| ==> Key(c.arcSets[i]) != Key(c.arcSets[j])
  }

  // No port of c has the name of what is only a bit of a bus in d.
  ghost predicate NoBitOf(c: Cell, d: Cell) {
    forall i :: 0 <= i < |c.ports| && c.ports[i].port.name in d.portMap ==> d.portMap[c.ports[i].port.name] in d.ports
  }

  // c is not found equivalent to d by way of a bit of a bus.
  ghost predicate Comparable(c: Cell, d: Cell) {
    WellFormed(c) && WellFormed(d) && (EquivCells(c, d) ==> NoBitOf(c, d))
  }

  // ---- Sequences without duplicates ------------------------------------------------------------

  lemma {:induction false} CountAtMostOne<T>(s: seq<T>, x: T)
    requires Distinct(s)
    ensures multiset(s)[x] <= 1
  {
    if s != [] {
      var n := |s| - 1;
      CountAtMostOne(s[..n], x);
      assert s == s[..n] + [s[n]];
      if x == s[n] { assert x !in s[..n]; }
    }
  }

  // Two such sequences of the same length, one inside the other, have the same
  // elements.
  lemma SameElements<T>(s: seq<T>, t: seq<T>)
    requires Distinct(s) && |s| == |t|
    ensures (forall x :: x in s ==> x in t) <==> multiset(s) == multiset(t)
  {
    if forall x :: x in s ==> x in t {
      forall x ensures multiset(s)[x] <= multiset(t)[x] {
        CountAtMostOne(s, x);
        if x in multiset(s) { assert x in s && x in t; }
      }
      var rest := multiset(t) - multiset(s);
      assert multiset(t) == multiset(s) + rest;
      assert |rest| == 0;
    } else {
      var x :| x in s && x !in t;
      assert multiset(s)[x] > 0;
    }
  }

  // Every port of c has the signature of a port of d exactly if it is found there,
  // and not as a bit.
  lemma PortsByName(c: Cell, d: Cell)
    requires WellFormed(c) && WellFormed(d)
    ensures EquivPortsAndFuncs(c, d) && NoBitOf(c, d) <==> multiset(PortSigs(c.ports)) == multiset(PortSigs(d.ports))
  {
    var s, t := PortSigs(c.ports), PortSigs(d.ports);
    if |s| == |t| {
      forall i | 0 <= i < |s| ensures s[i] in t <==> OwnPortFound(c, d, i) { FoundBySig(c, d, i); }
      if EquivPortsAndFuncs(c, d) && NoBitOf(c, d) {
        forall x | x in s ensures x in t {
          var i :| 0 <= i < |s| && s[i] == x;
          assert PortFound(c, d, i) && OwnPortFound(c, d, i);
        }
      } else {
        var i :| 0 <= i < |s| && !OwnPortFound(c, d, i);
        assert s[i] in s && s[i] !in t;
      }
      SameElements(s, t);
    } else {
      assert |multiset(s)| != |multiset(t)|;
    }
  }

  ghost predicate OwnPortFound(c: Cell, d: Cell, i: nat)
    requires i < |c.ports|
  {
    PortFound(c, d, i) && d.portMap[c.ports[i].port.name] in d.ports
  }

  lemma FoundBySig(c: Cell, d: Cell, i: nat)
    requires WellFormed(c) && WellFormed(d) && i < |c.ports|
    ensures PortSig(c.ports[i]) in PortSigs(d.ports) <==> OwnPortFound(c, d, i)
  {
    var p := c.ports[i];
    if OwnPortFound(c, d, i) {
      var q := d.portMap[p.port.name];
      MatchIsSameSig(p, q);
      var j :| 0 <= j < |d.ports| && d.ports[j] == q;
      assert PortSigs(d.ports)[j] == PortSig(p);
    }
    if PortSig(p) in PortSigs(d.ports) {
      var j :| 0 <= j < |d.ports| && PortSigs(d.ports)[j] == PortSig(p);
      MatchIsSameSig(p, d.ports[j]);
    }
  }

  lemma MatchIsSameSig(p: CellPort, q: CellPort)
    ensures PortMatch(p, q) <==> PortSig(p) == PortSig(q)
  {
    EquivIsSameShape(p.function_, q.function_);
    EquivIsSameShape(p.tristateEnable, q.tristateEnable);
  }

  lemma SequentialsBySig(c: Cell, d: Cell)
    ensures EquivSequentials(c, d) <==> SequentialSigs(c.sequentials) == SequentialSigs(d.sequentials)
  {
    forall i | 0 <= i < |c.sequentials| && i < |d.sequentials|
      ensures SequentialMatch(c.sequentials[i], d.sequentials[i])
              <==> SequentialSigs(c.sequentials)[i] == SequentialSigs(d.sequentials)[i]
    {
      var s, t := c.sequentials[i], d.sequentials[i];
      EquivIsSameShape(s.clock, t.clock);
      EquivIsSameShape(s.data, t.data);
      EquivIsSameShape(s.clear, t.clear);
      EquivIsSameShape(s.preset, t.preset);
    }
  }

  lemma ArcSetsBySig(c: Cell, d: Cell)
    requires WellFormed(c)
    ensures EquivArcSets(c, d) <==> multiset(ArcSetSigs(c.arcSets)) == multiset(ArcSetSigs(d.arcSets))
  {
    hide Key;
    var s, t := ArcSetSigs(c.arcSets), ArcSetSigs(d.arcSets);
    if |s| == |t| {
      forall i | 0 <= i < |s| ensures s[i] in t <==> ArcSetFound(c.arcSets[i], d) {
        if s[i] in t { var j :| 0 <= j < |t| && t[j] == s[i]; assert d.arcSets[j] in d.arcSets; }
        if b :| b in d.arcSets && Key(c.arcSets[i]) == Key(b) {
          var j :| 0 <= j < |t| && d.arcSets[j] == b;
          assert t[j] == s[i];
        }
      }
      SameElements(s, t);
      if EquivArcSets(c, d) {
        forall x | x in s ensures x in t {
          var i :| 0 <= i < |s| && s[i] == x;
          assert c.arcSets[i] in c.arcSets;
        }
      } else {
        var a :| a in c.arcSets && !ArcSetFound(a, d);
        var i :| 0 <= i < |s| && c.arcSets[i] == a;
        assert s[i] in s;
      }
    } else {
      assert |multiset(s)| != |multiset(t)|;
    }
  }

  // Signatures agree exactly when the cells are equivalent and none of the ports has
  // been found as a bit.
  lemma EquivIsSameSig(c: Cell, d: Cell)
    requires WellFormed(c) && WellFormed(d)
    ensures EquivCells(c, d) && NoBitOf(c, d) <==> Sig(c) == Sig(d)
  {
    hide WellFormed, NoBitOf, EquivPortsAndFuncs, EquivSequentials, EquivArcSets;
    PortsByName(c, d);
    PgPortsBySig(c, d);
    SequentialsBySig(c, d);
    ArcSetsBySig(c, d);
  }

  // So the comparison is an equivalence relation on cells that are comparable.
  lemma ComparableBySig(c: Cell, d: Cell)
    requires Comparable(c, d)
    ensures EquivCells(c, d) <==> Sig(c) == Sig(d)
  {
    hide WellFormed, NoBitOf, EquivCells, Sig;
    EquivIsSameSig(c, d);
  }

  // Cells that are equivalent one way are equivalent the other way exactly if the
  // ports are found there too: all else that is compared is symmetric.
  lemma OtherWayIffPortsFound(c: Cell, d: Cell)
    requires WellFormed(c) && WellFormed(d) && EquivCells(c, d)
    ensures EquivCells(d, c) <==> forall i :: 0 <= i < |d.ports| ==> PortFound(d, c, i)
    ensures NoBitOf(c, d) ==> EquivCells(d, c)
  {
    hide WellFormed, NoBitOf, PortFound, EquivSequentials, EquivArcSets, EquivPgPorts;
    PgPortsBySig(c, d);
    PgPortsBySig(d, c);
    SequentialsBySig(c, d);
    SequentialsBySig(d, c);
    ArcSetsBySig(c, d);
    ArcSetsBySig(d, c);
    EquivIsSameSig(c, d);
    EquivIsSameSig(d, c);
  }

  lemma PgPortsBySig(c: Cell, d: Cell)
    requires WellFormed(c)
    ensures EquivPgPorts(c, d) <==> multiset(c.pgPorts) == multiset(d.pgPorts)
  {
    if |c.pgPorts| == |d.pgPorts| {
      SameElements(c.pgPorts, d.pgPorts);
    } else {
      assert |multiset(c.pgPorts)| != |multiset(d.pgPorts)|;
    }
  }

  // ---- The hash --------------------------------------------------------------------------------

  const WORD := 0x1_0000_0000   // unsigned is 32 bits

  // The sum of g over a sequence.
  ghost function SumOf<T>(s: seq<T>, g: T -> nat): nat {
    if s == [] then 0 else SumOf(s[..|s| - 1], g) + g(s[|s| - 1])
  }

  // It does not depend on the order.
  lemma {:induction false} SumOfPermuted<T>(s: seq<T>, t: seq<T>, g: T -> nat)
    requires multiset(s) == multiset(t)
    ensures SumOf(s, g) == SumOf(t, g)
  {
    if s == [] {
      assert |multiset(t)| == 0;
    } else {
      var n := |s| - 1;
      assert s[n] in multiset(t);
      var k :| 0 <= k < |t| && t[k] == s[n];
      OneLess(s, t, k);
      SumOfPermuted(s[..n], t[..k] + t[k + 1..], g);
      SumOfWithout(t, k, g);
    }
  }

  lemma OneLess<T>(s: seq<T>, t: seq<T>, k: nat)
    requires s != [] && k < |t| && t[k] == s[|s| - 1] && multiset(s) == multiset(t)
    ensures multiset(s[..|s| - 1]) == multiset(t[..k] + t[k + 1..])
  {
    DropOne(s, |s| - 1);
    DropOne(t, k);
    assert s[..|s| - 1] + s[|s| - 1 + 1..] == s[..|s| - 1];
  }

  lemma DropOne<T>(t: seq<T>, k: nat)
    requires k < |t|
    ensures multiset(t[..k] + t[k + 1..]) == multiset(t) - multiset{t[k]}
  {
    assert t == t[..k] + [t[k]] + t[k + 1..];
  }

  lemma {:induction false} SumOfWithout<T>(t: seq<T>, k: nat, g: T -> nat)
    requires k < |t|
    ensures SumOf(t, g) == SumOf(t[..k] + t[k + 1..], g) + g(t[k])
  {
    var n := |t| - 1;
    var r := t[..k] + t[k + 1..];
    if k == n {
      assert r == t[..n];
    } else {
      SumOfWithout(t[..n], k, g);
      assert r[..|r| - 1] == t[..n][..k] + t[..n][k + 1..] && r[|r| - 1] == t[n];
    }
  }

  function HashPort(h: string -> nat, p: Port): nat {
    Word(h(p.name) * 3 + p.direction.Index() * 5)
  }

  function HashFunc(h: string -> nat, f: Func): nat {
    match f
    case Null => 0
    case PortRef(p) => Word(HashPort(h, p) * 17)
    case Not(left) => Word(HashFunc(h, left) * 31)
    case Or(left, right) => Word((HashFunc(h, left) + HashFunc(h, right)) * 3)
    case And(left, right) => Word((HashFunc(h, left) + HashFunc(h, right)) * 7)
    case Xor(left, right) => Word((HashFunc(h, left) + HashFunc(h, right)) * 15)
    case One => 0
    case Zero => 0
  }

  function HashPgPort(h: string -> nat, p: PgPort): nat {
    Word(h(p.name) * 3 + p.pgType * 5)
  }

  ghost function PortTerm(h: string -> nat): CellPort -> nat {
    (p: CellPort) => HashPort(h, p.port) + HashFunc(h, p.function_) * 3 + HashFunc(h, p.tristateEnable) * 5
  }

  ghost function PgPortTerm(h: string -> nat): PgPort -> nat {
    (p: PgPort) => HashPgPort(h, p)
  }

  ghost function SequentialTerm(h: string -> nat): Sequential -> nat {
    (s: Sequential) => HashFunc(h, s.clock) * 3 + HashFunc(h, s.data) * 5 + HashPort(h, s.output) * 7
      + HashPort(h, s.outputInv) * 9
         + HashFunc(h, s.clear) * 11 + HashFunc(h, s.preset) * 13
  }

  ghost function ClearPresetTerm(): Sequential -> nat {
    (s: Sequential) => s.clearPresetOutput * 17 + s.clearPresetOutputInv * 19
  }

  ghost function ClearPreset(c: Cell): nat {
    SumOf(c.sequentials, ClearPresetTerm())
  }

  // The hash but for what the clear and preset outputs add.
  ghost function SigHash(h: string -> nat, c: Cell): nat {
    SumOf(c.ports, PortTerm(h)) + SumOf(c.pgPorts, PgPortTerm(h)) + SumOf(c.sequentials, SequentialTerm(h))
  }

  ghost function Hash(h: string -> nat, c: Cell): nat {
    Word(SigHash(h, c) + ClearPreset(c))
  }

  // Unsigned arithmetic.
  function Word(x: nat): (w: nat)
    ensures w < 0x1_0000_0000 && (x - w) % 0x1_0000_0000 == 0
  {
    x % WORD
  }

  lemma WordAdd(x: nat, y: nat)
    ensures Word(Word(x) + y) == Word(x + y)
  {}

  // h is the hash of strings.
  method HashCell(h: string -> nat, c: Cell) returns (hash: nat)
    ensures hash == Hash(h, c)
  {
    hide Word, SumOf;
    var ports := HashCellPorts(h, c);
    var pgPorts := HashCellPgPorts(h, c);
    var sequentials := HashCellSequentials(h, c);
    hash := Word(ports + pgPorts + sequentials);
    WordAddThree(SumOf(c.ports, PortTerm(h)), SumOf(c.pgPorts, PgPortTerm(h)),
                 SumOf(c.sequentials, SequentialTerm(h)) + ClearPreset(c));
  }

  lemma WordAddThree(x: nat, y: nat, z: nat)
    ensures Word(Word(x) + Word(y) + Word(z)) == Word(x + y + z)
  {
    hide Word;
    WordAdd(x, Word(y) + Word(z));
    WordAdd(y, x + Word(z));
    WordAdd(z, x + y);
  }

  method HashCellPorts(h: string -> nat, c: Cell) returns (hash: nat)
    ensures hash == Word(SumOf(c.ports, PortTerm(h)))
  {
    hide Word, SumOf, HashPort, HashFunc;
    hash := 0;
    ghost var total := 0;
    WordOfZero(c.ports, PortTerm(h));
    for i := 0 to |c.ports|
      invariant hash == Word(total) && total == SumOf(c.ports[..i], PortTerm(h))
    {
      var port := c.ports[i];
      SumOfNext(c.ports, i, PortTerm(h));
      hash, total := Add(hash, HashPort(h, port.port), total);
      hash, total := Add(hash, HashFunc(h, port.function_) * 3, total);
      hash, total := Add(hash, HashFunc(h, port.tristateEnable) * 5, total);
    }
    assert c.ports[..|c.ports|] == c.ports;
  }

  method Add(hash: nat, x: nat, ghost total: nat) returns (hash': nat, ghost total': nat)
    requires hash == Word(total)
    ensures total' == total + x && hash' == Word(total + x)
  {
    WordAdd(total, x);
    hash', total' := Word(hash + x), total + x;
  }

  lemma WordOfZero<T>(s: seq<T>, g: T -> nat)
    ensures Word(0) == 0 && SumOf(s[..0], g) == 0
  {}

  method HashCellPgPorts(h: string -> nat, c: Cell) returns (hash: nat)
    ensures hash == Word(SumOf(c.pgPorts, PgPortTerm(h)))
  {
    hide Word, SumOf;
    hash := 0;
    ghost var total := 0;
    WordOfZero(c.pgPorts, PgPortTerm(h));
    for i := 0 to |c.pgPorts|
      invariant hash == Word(total) && total == SumOf(c.pgPorts[..i], PgPortTerm(h))
    {
      var port := c.pgPorts[i];
      SumOfNext(c.pgPorts, i, PgPortTerm(h));
      hash, total := Add(hash, HashPgPort(h, port), total);
    }
    assert c.pgPorts[..|c.pgPorts|] == c.pgPorts;
  }

  method HashCellSequentials(h: string -> nat, c: Cell) returns (hash: nat)
    ensures hash == Word(SumOf(c.sequentials, SequentialTerm(h)) + ClearPreset(c))
  {
    hide Word, SumOf, HashPort, HashFunc;
    hash := 0;
    ghost var total := 0;
    WordOfZero(c.sequentials, SequentialTerm(h));
    WordOfZero(c.sequentials, ClearPresetTerm());
    for i := 0 to |c.sequentials|
      invariant hash == Word(total)
      invariant total == SumOf(c.sequentials[..i], SequentialTerm(h)) + SumOf(c.sequentials[..i], ClearPresetTerm())
    {
      var q := c.sequentials[i];
      SumOfNext(c.sequentials, i, SequentialTerm(h));
      SumOfNext(c.sequentials, i, ClearPresetTerm());
      hash, total := Add(hash, HashFunc(h, q.clock) * 3, total);
      hash, total := Add(hash, HashFunc(h, q.data) * 5, total);
      hash, total := Add(hash, HashPort(h, q.output) * 7, total);
      hash, total := Add(hash, HashPort(h, q.outputInv) * 9, total);
      hash, total := Add(hash, HashFunc(h, q.clear) * 11, total);
      hash, total := Add(hash, HashFunc(h, q.preset) * 13, total);
      hash, total := Add(hash, q.clearPresetOutput * 17, total);
      hash, total := Add(hash, q.clearPresetOutputInv * 19, total);
    }
    assert c.sequentials[..|c.sequentials|] == c.sequentials;
  }

  lemma SumOfNext<T>(s: seq<T>, i: nat, g: T -> nat)
    requires i < |s|
    ensures SumOf(s[..i + 1], g) == SumOf(s[..i], g) + g(s[i])
  {
    assert s[..i + 1][..i] == s[..i];
  }

  // ---- The hash of equivalent cells --------------------------------------------------------------

  lemma HashOfKey(h: string -> nat, p: Port)
    ensures HashPort(h, PortKey(p)) == HashPort(h, p)
  {}

  lemma {:induction false} HashOfShape(h: string -> nat, f: Func)
    ensures HashFunc(h, Shape(f)) == HashFunc(h, f)
  {
    hide Word, HashPort;
    if f.PortRef? { HashOfKey(h, f.port); }
    match f
    case Not(left) => HashOfShape(h, left);
    case Or(left, right) => HashOfShape(h, left); HashOfShape(h, right);
    case And(left, right) => HashOfShape(h, left); HashOfShape(h, right);
    case Xor(left, right) => HashOfShape(h, left); HashOfShape(h, right);
    case _ =>
  }

  lemma {:induction false} SumOfSame<S, T>(s: seq<S>, t: seq<T>, g: S -> nat, k: T -> nat)
    requires |s| == |t| && forall i :: 0 <= i < |s| ==> g(s[i]) == k(t[i])
    ensures SumOf(s, g) == SumOf(t, k)
  {
    if s != [] { SumOfSame(s[..|s| - 1], t[..|t| - 1], g, k); }
  }

  // Equal signatures have equal hashes, but for the clear and preset outputs, which
  // are not part of the comparison.
  lemma SameSigSameHash(h: string -> nat, c: Cell, d: Cell)
    requires Sig(c) == Sig(d)
    ensures SigHash(h, c) == SigHash(h, d)
  {
    PortsHash(h, c);
    PortsHash(h, d);
    SequentialsHash(h, c);
    SequentialsHash(h, d);
    SumOfPermuted(PortSigs(c.ports), PortSigs(d.ports), PortTerm(h));
    SumOfPermuted(c.pgPorts, d.pgPorts, PgPortTerm(h));
  }

  lemma PortsHash(h: string -> nat, c: Cell)
    ensures SumOf(c.ports, PortTerm(h)) == SumOf(PortSigs(c.ports), PortTerm(h))
  {
    forall i | 0 <= i < |c.ports| ensures PortTerm(h)(c.ports[i]) == PortTerm(h)(PortSigs(c.ports)[i]) {
      HashOfShape(h, c.ports[i].function_);
      HashOfShape(h, c.ports[i].tristateEnable);
    }
    SumOfSame(c.ports, PortSigs(c.ports), PortTerm(h), PortTerm(h));
  }

  lemma SequentialsHash(h: string -> nat, c: Cell)
    ensures SumOf(c.sequentials, SequentialTerm(h)) == SumOf(SequentialSigs(c.sequentials), SequentialTerm(h))
  {
    forall i | 0 <= i < |c.sequentials|
      ensures SequentialTerm(h)(c.sequentials[i]) == SequentialTerm(h)(SequentialSigs(c.sequentials)[i])
    {
      var q := c.sequentials[i];
      HashOfShape(h, q.clock);
      HashOfShape(h, q.data);
      HashOfShape(h, q.clear);
      HashOfShape(h, q.preset);
    }
    SumOfSame(c.sequentials, SequentialSigs(c.sequentials), SequentialTerm(h), SequentialTerm(h));
  }

  // Equivalent cells hash alike if and only if their clear and preset outputs do.
  lemma EquivHashesAlikeIff(h: string -> nat, c: Cell, d: Cell)
    requires Comparable(c, d) && EquivCells(c, d)
    ensures Hash(h, c) == Hash(h, d) <==> Word(ClearPreset(c)) == Word(ClearPreset(d))
  {
    hide Comparable, EquivCells, Sig, Word, SigHash, ClearPreset;
    ComparableBySig(c, d);
    SameSigSameHash(h, c, d);
    SumModulo(SigHash(h, c), ClearPreset(c), ClearPreset(d));
  }

  lemma SumModulo(a: nat, x: nat, y: nat)
    ensures Word(a + x) == Word(a + y) <==> Word(x) == Word(y)
  {}

  // ---- Where it fails ------------------------------------------------------------------------------

  function Bare(id: int, ports: seq<CellPort>, portMap: map<string, CellPort>, sequentials: seq<Sequential>): Cell {
    Cell(id, false, ports, portMap, [], sequentials, [])
  }

  function Latch(clearPresetOutput: nat): Sequential {
    var q := Port(0, "q", Internal);
    Sequential(Null, Null, q, q, Null, Null, clearPresetOutput, 0)
  }

  // Two registers that differ in what clear and preset together give are equivalent,
  // but no hash of strings puts them together.
  lemma EquivalentButApart(h: string -> nat)
    ensures var c, d := Bare(1, [], map[], [Latch(0)]), Bare(2, [], map[], [Latch(1)]);
      Comparable(c, d) && EquivCells(c, d) && Hash(h, c) != Hash(h, d)
  {
    var c, d := Bare(1, [], map[], [Latch(0)]), Bare(2, [], map[], [Latch(1)]);
    assert EquivCells(c, d) && Comparable(c, d);
    EquivHashesAlikeIff(h, c, d);
    assert [Latch(0)][..0] == [] && [Latch(1)][..0] == [];
    assert ClearPreset(c) == 0 && ClearPreset(d) == 17;
  }

  // A scalar port with the name of a bit of the other cell's bus is found there, but
  // the bus is not found the other way round.
  lemma BusBitIsOneWay()
    ensures var a, bus := CellPort(Port(1, "a[0]", Input), Null, Null), CellPort(Port(2, "a", Input), Null, Null);
      var c, d :=
        Bare(1, [a], map["a[0]" := a], []), Bare(2, [bus],
             map["a" := bus, "a[0]" := a.(port := Port(3, "a[0]", Input))], []);
      WellFormed(c) && WellFormed(d) && EquivCells(c, d) && !EquivCells(d, c)
  {
    var a, bus := CellPort(Port(1, "a[0]", Input), Null, Null), CellPort(Port(2, "a", Input), Null, Null);
    var c, d :=
      Bare(1, [a], map["a[0]" := a], []), Bare(2, [bus], map["a" := bus, "a[0]" := a.(port := Port(3, "a[0]", Input))],
           []);
    assert PortFound(c, d, 0);
    assert !PortFound(d, c, 0) by { assert "a" != "a[0]" by { assert |"a"| != |"a[0]"|; } }
  }

  function Plain(id: int, name: string): CellPort {
    CellPort(Port(id, name, Input), Null, Null)
  }

  function OfPorts(id: int, ports: seq<CellPort>, bit: string): Cell
    requires |ports| == 3
  {
    var portMap :=
      map[ports[0].port.name := ports[0], ports[1].port.name := ports[1], ports[2].port.name := ports[2],
          bit := Plain(0, bit)];
    Bare(id, ports, portMap, [])
  }

  ghost predicate Finds(c: Cell, p: CellPort) {
    p.port.name in c.portMap && c.portMap[p.port.name] == p
  }

  lemma OfPortsFinds(id: int, ports: seq<CellPort>, bit: string)
    requires |ports| == 3 && forall i :: 0 <= i < 3 ==> ports[i].port.name != bit
    requires forall i, j :: 0 <= i < j < 3 ==> ports[i].port.name != ports[j].port.name
    ensures var c := OfPorts(id, ports, bit);
      && WellFormed(c) && c.ports == ports && c.pgPorts == [] && c.sequentials == [] && c.arcSets == []
      && Finds(c, Plain(0, bit)) && Plain(0, bit) !in ports
      && Finds(c, ports[0]) && Finds(c, ports[1]) && Finds(c, ports[2])
  {}

  // Finding bits need not be one way: here both cells find one.
  lemma BothWaysByBits()
    ensures var c := OfPorts(1, [Plain(1, "a[0]"), Plain(2, "b"), Plain(3, "a")], "b[0]");
      var d := OfPorts(2, [Plain(4, "a"), Plain(5, "b[0]"), Plain(6, "b")], "a[0]");
      WellFormed(c) && WellFormed(d) && EquivCells(c, d) && EquivCells(d, c) && !NoBitOf(c, d)
  {
    hide OfPorts, WellFormed;
    var ports, others :=
      [Plain(1, "a[0]"), Plain(2, "b"), Plain(3, "a")], [Plain(4, "a"), Plain(5, "b[0]"), Plain(6, "b")];
    var c, d := OfPorts(1, ports, "b[0]"), OfPorts(2, others, "a[0]");
    assert "a"[0] != "b"[0] && |"a"| != |"a[0]"| && |"b"| != |"b[0]"| && "a[0]"[0] != "b[0]"[0];
    OfPortsFinds(1, ports, "b[0]");
    OfPortsFinds(2, others, "a[0]");
    assert PortFound(c, d, 0) && PortFound(c, d, 1) && PortFound(c, d, 2);
    assert PortFound(d, c, 0) && PortFound(d, c, 1) && PortFound(d, c, 2);
  }
}
