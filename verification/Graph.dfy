// The timing graph: making and deleting edges and vertices, and the flags that say
// which arc delays are annotated.
module Graph {
  import opened Sequences
  import opened GraphLinks
  import ArrayTable

  // ---- The places of the flags ---------------------------------------------------------------

  // Every arc of every edge has a flag for every analysis point.
  function FlagIndex(edge: Edge, arc: nat, ap: nat, apCount: nat): nat {
    (edge.arcDelays + arc) * apCount + ap
  }

  lemma IndexBelow(a: nat, b: nat, p: nat, n: nat)
    requires a < b && p < n
    ensures a * n + p < b * n
  {
    assert b * n == (b - 1) * n + n && a * n <= (b - 1) * n by { ProductMonotone(a, b - 1, n); }
  }

  lemma ProductMonotone(a: nat, b: nat, n: nat)
    requires a <= b
    ensures a * n <= b * n
  {
    assert b * n == a * n + (b - a) * n;
  }

  // Different places have different indices.
  lemma IndexInjective(a: nat, b: nat, p: nat, q: nat, n: nat)
    requires p < n && q < n && a * n + p == b * n + q
    ensures a == b && p == q
  {
    if a < b { IndexBelow(a, b, p, n); } else if b < a { IndexBelow(b, a, q, n); }
  }

  // The flags of an edge follow each other, arc by arc.
  lemma NextFlag(edge: Edge, arc: nat, ap: nat, apCount: nat)
    ensures FlagIndex(edge, arc, ap + 1, apCount) == FlagIndex(edge, arc, ap, apCount) + 1
    ensures FlagIndex(edge, arc, apCount, apCount) == FlagIndex(edge, arc + 1, 0, apCount)
  {
    var a := edge.arcDelays + arc;
    assert (a + 1) * apCount == a * apCount + apCount;
  }

  // The first flag of an edge, and the first after its last.
  function FlagsFrom(edge: Edge, apCount: nat): nat {
    FlagIndex(edge, 0, 0, apCount)
  }

  function FlagsTo(edge: Edge, apCount: nat): nat {
    FlagIndex(edge, edge.arcs, 0, apCount)
  }

  lemma FlagBetween(edge: Edge, arc: nat, ap: nat, apCount: nat)
    requires arc < edge.arcs && ap < apCount
    ensures FlagsFrom(edge, apCount) <= FlagIndex(edge, arc, ap, apCount) < FlagsTo(edge, apCount)
  {
    IndexBelow(edge.arcDelays + arc, edge.arcDelays + edge.arcs, ap, apCount);
    ProductMonotone(edge.arcDelays, edge.arcDelays + arc, apCount);
  }

  ghost predicate HasRoom(edge: Edge, apCount: nat, size: nat) {
    FlagsTo(edge, apCount) <= size
  }

  // The flags of the edge have places and are not set.
  ghost predicate AllClear(annotated: seq<bool>, lo: nat, hi: nat) {
    hi <= |annotated| && forall i :: lo <= i < hi ==> !annotated[i]
  }

  ghost predicate NoneSet(annotated: seq<bool>, edge: Edge, apCount: nat) {
    AllClear(annotated, FlagsFrom(edge, apCount), FlagsTo(edge, apCount))
  }

  lemma FlagNotSet(annotated: seq<bool>, edge: Edge, arc: nat, ap: nat, apCount: nat)
    requires NoneSet(annotated, edge, apCount) && arc < edge.arcs && ap < apCount
    ensures FlagIndex(edge, arc, ap, apCount) < |annotated| && !SetAt(annotated, edge, arc, ap, apCount)
  {
    FlagBetween(edge, arc, ap, apCount);
  }

  ghost predicate SetAt(annotated: seq<bool>, edge: Edge, arc: nat, ap: nat, apCount: nat) {
    FlagIndex(edge, arc, ap, apCount) < |annotated| && annotated[FlagIndex(edge, arc, ap, apCount)]
  }

  ghost predicate EdgesApart(x: Edge, y: Edge) {
    ArrayTable.Apart(x.arcDelays, x.arcs, y.arcDelays, y.arcs)
  }

  // The tables of all analysis points have allocated alike.
  ghost predicate LockStep(tables: seq<ArrayTable.Table>) {
    forall i :: 0 <= i < |tables| ==> ArrayTable.TableOk(tables[i]) && tables[i] == tables[0]
  }

  // The edges in done have arrays within the flags, apart from each other: no edge
  // has so many arcs that its array could run out of a block.
  ghost predicate Delays(apCount: nat, tables: seq<ArrayTable.Table>, edges: Edges, annotated: seq<bool>,
                         done: set<Id>) {
    && |tables| == apCount && LockStep(tables) && done <= edges.Keys
    && (forall e :: e in done ==> HasRoom(edges[e], apCount, |annotated|))
    && (apCount > 0 ==>
          && ArrayTable.Tidy(tables[0])
          && (forall e :: e in done ==> edges[e].arcDelays + edges[e].arcs <= ArrayTable.End(tables[0]))
          && forall x, y :: x in done && y in done && x != y ==> EdgesApart(edges[x], edges[y]))
  }

  // A flag of a live edge has a place, and no two flags share one.
  lemma FlagInBounds(apCount: nat, tables: seq<ArrayTable.Table>, edges: Edges, annotated: seq<bool>, done: set<Id>,
                     e: Id, arc: nat, ap: nat)
    requires Delays(apCount, tables, edges, annotated, done) && e in done && arc < edges[e].arcs && ap < apCount
    ensures FlagIndex(edges[e], arc, ap, apCount) < |annotated|
  {
    FlagBetween(edges[e], arc, ap, apCount);
    assert HasRoom(edges[e], apCount, |annotated|);
  }

  lemma FlagsDistinct(apCount: nat, tables: seq<ArrayTable.Table>, edges: Edges, annotated: seq<bool>, done: set<Id>,
                      e: Id, arc: nat, ap: nat, e': Id, arc': nat, ap': nat)
    requires Delays(apCount, tables, edges, annotated, done) && e in done && e' in done
    requires arc < edges[e].arcs && ap < apCount && arc' < edges[e'].arcs && ap' < apCount
    requires (e, arc, ap) != (e', arc', ap')
    ensures FlagIndex(edges[e], arc, ap, apCount) != FlagIndex(edges[e'], arc', ap', apCount)
  {
    assert e == e' || EdgesApart(edges[e], edges[e']);
    if FlagIndex(edges[e], arc, ap, apCount) == FlagIndex(edges[e'], arc', ap', apCount) {
      IndexInjective(edges[e].arcDelays + arc, edges[e'].arcDelays + arc', ap, ap', apCount);
    }
  }

  // Clearing the flags of one edge leaves those of the others alone.
  lemma FlagAfterClears(apCount: nat, tables: seq<ArrayTable.Table>, edges: Edges, was: seq<bool>, now: seq<bool>,
                        cleared: Id, e: Id, arc: nat, ap: nat)
    requires Delays(apCount, tables, edges, now, edges.Keys) && cleared in edges && e in edges
    requires arc < edges[e].arcs && ap < apCount
    requires OnlyClears(was, now, edges[cleared], apCount) && NoneSet(now, edges[cleared], apCount)
    ensures SetAt(now, edges[e], arc, ap, apCount) <==> e != cleared && SetAt(was, edges[e], arc, ap, apCount)
  {
    var i := FlagIndex(edges[e], arc, ap, apCount);
    FlagInBounds(apCount, tables, edges, now, edges.Keys, e, arc, ap);
    if e == cleared {
      FlagNotSet(now, edges[e], arc, ap, apCount);
    } else {
      assert EdgesApart(edges[e], edges[cleared]);
      hide Delays;
      OutsideOf(edges[e], edges[cleared], arc, ap, apCount);
    }
  }

  lemma OutsideOf(x: Edge, y: Edge, arc: nat, ap: nat, apCount: nat)
    requires EdgesApart(x, y) && arc < x.arcs && ap < apCount
    ensures !(FlagsFrom(y, apCount) <= FlagIndex(x, arc, ap, apCount) < FlagsTo(y, apCount))
  {
    if x.arcDelays + arc < y.arcDelays {
      IndexBelow(x.arcDelays + arc, y.arcDelays, ap, apCount);
    } else {
      ProductMonotone(y.arcDelays + y.arcs, x.arcDelays + arc, apCount);
    }
  }

  lemma SameFlag(was: seq<bool>, x: Edge, y: Edge, arc: nat, ap: nat, apCount: nat)
    requires Kept(x, y)
    ensures SetAt(was, x, arc, ap, apCount) == SetAt(was, y, arc, ap, apCount)
  {}

  lemma NoFlagSet(edge: Edge, arc: nat, ap: nat, apCount: nat)
    ensures !SetAt([], edge, arc, ap, apCount)
  {}

  // std::vector::resize
  function Resized(s: seq<bool>, n: nat): (t: seq<bool>)
    ensures |t| == n && forall i :: 0 <= i < n ==> t[i] == (i < |s| && s[i])
  {
    if n <= |s| then s[..n] else s + seq(n - |s|, i => false)
  }

  // ---- What the methods keep -----------------------------------------------------------------

  // Flags of the edge may have been cleared, no other flag has changed, and new ones
  // are clear.
  ghost predicate OnlyClears(was: seq<bool>, now: seq<bool>, edge: Edge, apCount: nat) {
    && |was| <= |now| && (forall i :: 0 <= i < |now| && now[i] ==> i < |was| && was[i])
    && forall i :: 0 <= i < |was| && !(FlagsFrom(edge, apCount) <= i < FlagsTo(edge, apCount)) ==> now[i] == was[i]
  }

  // The flags from lo on up to hi are clear, the others as they were.
  ghost predicate ClearedFrom(was: seq<bool>, now: seq<bool>, lo: nat, hi: nat) {
    |was| == |now| && forall i :: 0 <= i < |now| ==> now[i] == (was[i] && !(lo <= i < hi))
  }

  // Clearing flags moves no place.
  lemma ClearedDelays(apCount: nat, tables: seq<ArrayTable.Table>, edges: Edges, was: seq<bool>, now: seq<bool>,
                      done: set<Id>)
    requires Delays(apCount, tables, edges, was, done) && |was| == |now|
    ensures Delays(apCount, tables, edges, now, done)
  {}

  lemma ClearsAfterGrowth(was: seq<bool>, grown: seq<bool>, now: seq<bool>, edge: Edge, apCount: nat)
    requires |was| <= |grown| && forall i :: 0 <= i < |grown| ==> grown[i] == (i < |was| && was[i])
    requires OnlyClears(grown, now, edge, apCount)
    ensures OnlyClears(was, now, edge, apCount)
  {}

  lemma SameFlags(x: Edge, y: Edge, was: seq<bool>, now: seq<bool>, apCount: nat)
    requires Kept(x, y)
    ensures NoneSet(now, x, apCount) ==> NoneSet(now, y, apCount)
    ensures OnlyClears(was, now, x, apCount) ==> OnlyClears(was, now, y, apCount)
  {}

  lemma VertexAdded(vertices: Vertices, edges: Edges, outs: Lists, ins: Lists, v: Id)
    requires Inv(vertices, edges, outs, ins, 0, 0) && v != 0 && v !in vertices
    ensures Inv(vertices[v := Vertex(0, 0)], edges, outs[v := []], ins[v := []], 0, 0)
  {
    hide OutList, InList;
    forall u | u in vertices ensures ListsOf(vertices[v := Vertex(0, 0)], edges, outs[v := []], ins[v := []], 0, 0, u) {
      assert ListsOf(vertices, edges, outs, ins, 0, 0, u);
    }
    EmptyLists(edges, v);
    forall e | e in edges ensures Listed(vertices[v := Vertex(0, 0)], edges, outs[v := []], ins[v := []], e) {
      assert Listed(vertices, edges, outs, ins, e);
    }
  }

  lemma EmptyLists(edges: Edges, v: Id)
    ensures OutList(edges, v, 0, 0, []) && InList(edges, v, 0, [])
  {}

  lemma NewEdgeDelays(apCount: nat, tables: seq<ArrayTable.Table>, edges: Edges, edges': Edges, annotated: seq<bool>, 
                      done: set<Id>, e: Id)
    requires e !in edges && edges'.Keys == edges.Keys + {e} && done == edges.Keys
    requires forall x :: x in edges ==> edges'[x] == edges[x]
    ensures Delays(apCount, tables, edges, annotated, done) ==> Delays(apCount, tables, edges', annotated, done)
  {}

  // Only the number of arcs and the array matter to the flags.
  lemma SameDelays(apCount: nat, tables: seq<ArrayTable.Table>, edges: Edges, edges': Edges, annotated: seq<bool>,
                   done: set<Id>)
    requires edges'.Keys == edges.Keys && forall x :: x in edges ==> Kept(edges[x], edges'[x])
    ensures Delays(apCount, tables, edges, annotated, done) ==> Delays(apCount, tables, edges', annotated, done)
  {}

  lemma InvKeys(vertices: Vertices, edges: Edges, outs: Lists, ins: Lists, dead: Id, first: Id)
    requires Inv(vertices, edges, outs, ins, dead, first)
    ensures 0 !in vertices && 0 !in edges && outs.Keys == ins.Keys == vertices.Keys
    ensures forall e :: e in edges ==> edges[e].from in vertices && edges[e].to in vertices
  {
    forall e | e in edges ensures edges[e].from in vertices && edges[e].to in vertices {
      assert Listed(vertices, edges, outs, ins, e);
    }
  }

  // The head of an out-list is a live edge from that vertex.
  lemma HeadLive(vertices: Vertices, edges: Edges, outs: Lists, ins: Lists, v: Id)
    requires Inv(vertices, edges, outs, ins, 0, 0) && v in vertices && vertices[v].outEdges != 0
    ensures vertices[v].outEdges in edges && edges[vertices[v].outEdges].from == v
  {
    assert ListsOf(vertices, edges, outs, ins, 0, 0, v);
    assert OutAt(edges, v, 0, outs[v], 0);
  }

  lemma CountAdded(edges: Edges, edges': Edges, e: Id, top: nat, top': nat)
    requires Below(edges, top) && e !in edges && edges'.Keys == edges.Keys + {e}
    requires top' == if top > e then top else e + 1
    requires forall x :: x in edges ==> edges'[x].arcs == edges[x].arcs
    ensures Below(edges', top') && ArcTotal(edges', top') == ArcTotal(edges, top) + edges'[e].arcs
  {
    ArcTotalMore(edges, top, top');
    ArcTotalAdded(edges, edges', e, top');
  }

  lemma MadeParts(vertices: Vertices, edges: Edges, vertices': Vertices, edges': Edges, e: Id)
    requires Made(vertices, edges, vertices', edges', e)
    ensures vertices'.Keys == vertices.Keys && edges'.Keys == edges.Keys + {e}
    ensures forall x :: x in edges ==> Kept(edges[x], edges'[x])
  {}

  // One more array from every table.
  lemma DelaysMade(apCount: nat, tables: seq<ArrayTable.Table>, tables': seq<ArrayTable.Table>, edges: Edges,
                   edges': Edges,
                   annotated: seq<bool>, annotated': seq<bool>, done: set<Id>, e: Id, arcId: nat)
    requires e in edges && e !in done && Delays(apCount, tables, edges, annotated, done) && |tables'| == |tables|
    requires forall k :: 0 <= k < apCount ==> tables'[k] == ArrayTable.Make(tables[k], edges[e].arcs).0
    requires apCount > 0 ==> arcId == ArrayTable.Make(tables[0], edges[e].arcs).1
    requires edges' == edges[e := edges[e].(arcDelays := arcId)]
    requires |annotated| <= |annotated'| && HasRoom(edges'[e], apCount, |annotated'|)
    ensures Delays(apCount, tables', edges', annotated', done + {e})
  {
    hide FlagsTo, ArrayTable.Make, ArrayTable.TableOk, ArrayTable.Tidy, ArrayTable.End;
    if apCount > 0 {
      assert ArrayTable.TableOk(tables[0]);
      ArrayTable.MakeAfter(tables[0], edges[e].arcs);
    }
    forall x | x in done + {e} ensures HasRoom(edges'[x], apCount, |annotated'|) {
      assert x != e ==> HasRoom(edges[x], apCount, |annotated|);
    }
  }

  lemma LinkedKeeps(vertices: Vertices, edges: Edges, outs: Lists, ins: Lists, vertices': Vertices, edges': Edges,
                    e: Id, top: nat)
    requires Inv(vertices, edges, outs, ins, 0, 0) && Below(edges, top) && Made(vertices, edges, vertices', edges', e)
    ensures var top' := if top > e then top else e + 1;
      && Inv(vertices', edges', outs[edges'[e].from := [e] + outs[edges'[e].from]],
             ins[edges'[e].to := [e] + ins[edges'[e].to]], 0, 0)
      && Below(edges', top') && ArcTotal(edges', top') == ArcTotal(edges, top) + edges'[e].arcs
      && vertices'.Keys == vertices.Keys && forall x :: x in edges ==> Kept(edges[x], edges'[x])
  {
    hide Inv, Below, ArcTotal;
    MadeParts(vertices, edges, vertices', edges', e);
    MadeKeeps(vertices, edges, outs, ins, vertices', edges', e);
    hide Made;
    CountAdded(edges, edges', e, top, if top > e then top else e + 1);
  }

  // ---- What deleting keeps -------------------------------------------------------------------

  // The edges that are left are as they were, but for their links.
  ghost predicate Left(edges: Edges, edges': Edges) {
    edges'.Keys <= edges.Keys && forall x :: x in edges' ==> Kept(edges[x], edges'[x])
  }

  lemma FewerDelays(apCount: nat, tables: seq<ArrayTable.Table>, edges: Edges, edges': Edges, annotated: seq<bool>)
    requires Left(edges, edges') && Delays(apCount, tables, edges, annotated, edges.Keys)
    ensures Delays(apCount, tables, edges', annotated, edges'.Keys)
  {}

  lemma CountRemoved(edges: Edges, edges': Edges, e: Id, top: nat)
    requires Below(edges, top) && e in edges && edges'.Keys == edges.Keys - {e} && Left(edges, edges')
    ensures Below(edges', top) && ArcTotal(edges', top) == ArcTotal(edges, top) - edges[e].arcs
  {
    ArcTotalAdded(edges', edges, e, top);
  }

  lemma DestroyedLeaves(edges: Edges, edges': Edges, e: Id, outPrev: Id, outNext: Id, inPrev: Id, inLink: Id)
    requires Destroyed(edges, edges', e, outPrev, outNext, inPrev, inLink)
    ensures Left(edges, edges') && edges'.Keys == edges.Keys - {e}
  {}

  lemma OutThenIn(edges: Edges, edges1: Edges, edges2: Edges, e: Id, prev: Id)
    requires TakenOut(edges, edges1, e) && TakenIn(edges1, edges2, e, prev)
    ensures Destroyed(edges, edges2 - {e}, e, edges[e].outPrev, edges[e].outNext, prev, edges[e].inLink)
  {}

  // An out-list change leaves the in-lists alone.
  lemma TakenOutKeeps(edges: Edges, edges1: Edges, v: Id, head: Id, s: seq<Id>, e: Id)
    requires TakenOut(edges, edges1, e) && InList(edges, v, head, s)
    ensures InList(edges1, v, head, s) && edges1[e].inLink == edges[e].inLink && edges1.Keys == edges.Keys
  {
    forall x | x in s ensures x in edges { assert InAt(edges, v, s, IndexOf(s, x)); }
    InFrame(edges, edges1, v, head, s);
  }

  lemma SameArcs(edges: Edges, edges1: Edges, edges2: Edges, e: Id, prev: Id)
    requires TakenOut(edges, edges1, e) && TakenIn(edges1, edges2, e, prev)
    ensures e in edges2 && edges2[e].arcs == edges[e].arcs
  {}

  lemma OnlyOut(edges: Edges, edges1: Edges, e: Id)
    requires TakenOut(edges, edges1, e) && 0 !in edges
    ensures Destroyed(edges, edges1 - {e}, e, edges[e].outPrev, edges[e].outNext, 0, edges[e].inLink)
  {}

  lemma OnlyIn(edges: Edges, edges1: Edges, e: Id, prev: Id)
    requires TakenIn(edges, edges1, e, prev) && 0 !in edges
    ensures Destroyed(edges, edges1 - {e}, e, 0, 0, prev, edges[e].inLink)
  {}

  // The links of a live edge lead to live edges or nowhere.
  lemma LinksLive(vertices: Vertices, edges: Edges, outs: Lists, ins: Lists, e: Id)
    requires Inv(vertices, edges, outs, ins, 0, 0) && e in edges
    ensures edges[e].outPrev == 0 || edges[e].outPrev in edges
    ensures edges[e].outNext == 0 || edges[e].outNext in edges
  {
    assert Listed(vertices, edges, outs, ins, e);
    var v := edges[e].from;
    assert ListsOf(vertices, edges, outs, ins, 0, 0, v);
    var s, k := outs[v], IndexOf(outs[v], e);
    assert OutAt(edges, v, 0, s, k);
    if k + 1 < |s| { assert OutAt(edges, v, 0, s, k + 1); }
    if k > 0 { assert OutAt(edges, v, 0, s, k - 1); }
  }

  lemma InListOf(vertices: Vertices, edges: Edges, outs: Lists, ins: Lists, dead: Id, first: Id, e: Id)
    requires Inv(vertices, edges, outs, ins, dead, first) && e in edges
    ensures edges[e].from in vertices && edges[e].to in vertices && Listed(vertices, edges, outs, ins, e)
    ensures InList(edges, edges[e].to, vertices[edges[e].to].inEdges, ins[edges[e].to])
  {
    assert Listed(vertices, edges, outs, ins, e);
    assert ListsOf(vertices, edges, outs, ins, dead, first, edges[e].to);
  }

  lemma DeletedKeeps(vertices: Vertices, edges: Edges, outs: Lists, ins: Lists, edges1: Edges, edges2: Edges,
                     vertices': Vertices, e: Id, prev: Id, top: nat)
    requires Inv(vertices, edges, outs, ins, 0, 0) && Below(edges, top) && e in edges
    requires Listed(vertices, edges, outs, ins, e)
    requires TakenOut(edges, edges1, e) && TakenIn(edges1, edges2, e, prev)
    requires prev == Nth(ins[edges[e].to], IndexOf(ins[edges[e].to], e) - 1)
    requires var from, to := edges[e].from, edges[e].to;
             var vertices1 := vertices[from := vertices[from].(outEdges := OutHead(edges, vertices[from].outEdges, e))];
             vertices' == vertices1[to := vertices1[to].(inEdges := InHead(edges1, vertices1[to].inEdges, e, prev))]
    ensures var edges' := edges2 - {e};
      && e in edges2 && edges2[e].arcs == edges[e].arcs
      && Inv(vertices', edges', OutsWithout(edges, outs, e), InsWithout(edges, ins, e), 0, 0)
      && edges'.Keys == edges.Keys - {e} && Left(edges, edges')
      && Below(edges', top) && ArcTotal(edges', top) == ArcTotal(edges, top) - edges[e].arcs
  {
    hide Inv, ArcTotal, Below, Destroyed, OutsWithout, InsWithout;
    var edges' := edges2 - {e};
    OutThenIn(edges, edges1, edges2, e, prev);
    SameArcs(edges, edges1, edges2, e, prev);
    DestroyedLeaves(edges, edges', e, edges[e].outPrev, edges[e].outNext, prev, edges[e].inLink);
    assert forall v :: v in vertices ==> DroppedHeads(vertices, edges, vertices', e, prev, v);
    hide TakenOut, TakenIn, Listed;
    EdgeDropped(vertices, edges, outs, ins, vertices', edges', e, prev);
    CountRemoved(edges, edges', e, top);
  }

  // ---- Deleting a vertex -----------------------------------------------------------------------

  // In deleteVertex the vertex's own in-list is not relinked: only `head`, the next
  // edge to delete, stands for it.
  ghost function Entering(vertices: Vertices, v: Id, head: Id): Vertices
    requires v in vertices
  {
    vertices[v := vertices[v].(inEdges := head)]
  }

  lemma EnteringBegins(vertices: Vertices, v: Id)
    requires v in vertices
    ensures Entering(vertices, v, vertices[v].inEdges) == vertices
  {}

  lemma EnteringHead(vertices: Vertices, v: Id, head: Id)
    requires v in vertices
    ensures Entering(vertices, v, head).Keys == vertices.Keys && Entering(vertices, v, head)[v].inEdges == head
  {}

  ghost function Leaving(vertices: Vertices, v: Id, head: Id): Vertices {
    vertices[v := Vertex(0, head)]
  }

  // The edges that are gone all touched v.
  ghost predicate GoneTouched(edges: Edges, edges': Edges, v: Id) {
    Left(edges, edges') && forall x :: x in edges && x !in edges' ==> edges[x].from == v || edges[x].to == v
  }

  lemma TouchedStep(edges: Edges, edges1: Edges, edges2: Edges, v: Id, e: Id)
    requires GoneTouched(edges, edges1, v) && Left(edges1, edges2) && edges2.Keys == edges1.Keys - {e}
    requires e in edges1 && (edges1[e].from == v || edges1[e].to == v)
    ensures GoneTouched(edges, edges2, v)
  {}

  // The first edge of an in-list.
  lemma FirstIn(vertices: Vertices, edges: Edges, outs: Lists, ins: Lists, dead: Id, first: Id, v: Id)
    requires Inv(vertices, edges, outs, ins, dead, first) && v in vertices
    ensures v in ins && (vertices[v].inEdges == 0 <==> ins[v] == [])
    ensures var e := vertices[v].inEdges; e != 0 ==>
      e in edges && edges[e].to == v && e == ins[v][0] && IndexOf(ins[v], e) == 0
  {
    assert ListsOf(vertices, edges, outs, ins, dead, first, v);
    if ins[v] != [] {
      assert InAt(edges, v, ins[v], 0);
      FirstIndex(ins[v]);
    }
  }

  lemma FirstOut(vertices: Vertices, edges: Edges, outs: Lists, ins: Lists, dead: Id, first: Id, v: Id)
    requires Inv(vertices, edges, outs, ins, dead, first) && v in vertices
    ensures v in outs && (vertices[v].outEdges == 0 <==> outs[v] == [])
    ensures var e := vertices[v].outEdges; e != 0 ==>
      e in edges && edges[e].from == v && e == outs[v][0] && IndexOf(outs[v], e) == 0
  {
    assert ListsOf(vertices, edges, outs, ins, dead, first, v);
    if outs[v] != [] {
      assert OutAt(edges, v, if v == dead then first else 0, outs[v], 0);
      FirstIndex(outs[v]);
    }
  }

  // One edge into v has gone.
  lemma EnteringDeleted(vertices: Vertices, edges: Edges, outs: Lists, ins: Lists, v: Id, edges1: Edges,
                        vertices': Vertices, e: Id, top: nat)
    requires v in vertices && Inv(Entering(vertices, v, e), edges, outs, ins, 0, 0) && Below(edges, top)
    requires e in edges && edges[e].to == v && Listed(Entering(vertices, v, e), edges, outs, ins, e)
    requires IndexOf(ins[v], e) == 0
    requires TakenOut(edges, edges1, e)
    requires var from := edges[e].from;
      vertices' == vertices[from := vertices[from].(outEdges := OutHead(edges, vertices[from].outEdges, e))]
    ensures var edges' := edges1 - {e};
      && e in edges1 && edges1[e].arcs == edges[e].arcs
      && Inv(Entering(vertices', v, edges[e].inLink), edges', OutsWithout(edges, outs, e),
             InsWithout(edges, ins, e), 0, 0)
      && edges'.Keys == edges.Keys - {e} && Left(edges, edges')
      && Below(edges', top) && ArcTotal(edges', top) == ArcTotal(edges, top) - edges[e].arcs
  {
    hide Inv, ArcTotal, Below, Destroyed, OutsWithout, InsWithout;
    var vs, vs', edges' := Entering(vertices, v, e), Entering(vertices', v, edges[e].inLink), edges1 - {e};
    KeysNotNull(vs, edges, outs, ins, 0, 0);
    OnlyOut(edges, edges1, e);
    DestroyedLeaves(edges, edges', e, edges[e].outPrev, edges[e].outNext, 0, edges[e].inLink);
    assert forall u :: u in vs ==> DroppedHeads(vs, edges, vs', e, 0, u);
    hide TakenOut, Listed;
    EdgeDropped(vs, edges, outs, ins, vs', edges', e, 0);
    CountRemoved(edges, edges', e, top);
  }

  // One edge out of v has gone, no edge into it being left.
  lemma LeavingDeleted(vertices: Vertices, edges: Edges, outs: Lists, ins: Lists, v: Id, first: Id, edges1: Edges,
                       vertices': Vertices,
                       e: Id, prev: Id, top: nat)
    requires v in vertices && Inv(Leaving(vertices, v, e), edges, outs, ins, v, first) && Below(edges, top)
    requires v in outs && v in ins && outs[v] != [] && e == outs[v][0] && ins[v] == []
    requires e in edges && edges[e].from == v && edges[e].to != v
    requires Listed(Leaving(vertices, v, e), edges, outs, ins, e)
    requires prev == Nth(ins[edges[e].to], IndexOf(ins[edges[e].to], e) - 1) && TakenIn(edges, edges1, e, prev)
    requires var to := edges[e].to;
      vertices' == vertices[to := vertices[to].(inEdges := InHead(edges, vertices[to].inEdges, e, prev))]
    ensures var edges' := edges1 - {e};
      && e in edges1 && edges1[e].arcs == edges[e].arcs
      && Inv(Leaving(vertices', v, edges[e].outNext), edges', OutsWithout(edges, outs, e),
             InsWithout(edges, ins, e), v, e)
      && edges'.Keys == edges.Keys - {e} && Left(edges, edges')
      && Below(edges', top) && ArcTotal(edges', top) == ArcTotal(edges, top) - edges[e].arcs
  {
    hide Inv, ArcTotal, Below, Destroyed, OutsWithout, InsWithout;
    var vs, vs', edges' := Leaving(vertices, v, e), Leaving(vertices', v, edges[e].outNext), edges1 - {e};
    KeysNotNull(vs, edges, outs, ins, v, first);
    OnlyIn(edges, edges1, e, prev);
    DestroyedLeaves(edges, edges', e, 0, 0, prev, edges[e].inLink);
    assert forall u :: u in vs ==> DroppedInHead(vs, edges, vs', v, e, prev, u);
    hide TakenIn, Listed;
    OutEdgeDropped(vs, edges, outs, ins, v, first, vs', edges', e, prev);
    CountRemoved(edges, edges', e, top);
  }

  lemma TouchedNone(edges: Edges, v: Id)
    ensures GoneTouched(edges, edges, v)
  {}

  lemma TouchedGone(edges: Edges, edges': Edges, v: Id)
    requires GoneTouched(edges, edges', v) && forall x :: x in edges' ==> edges'[x].from != v && edges'[x].to != v
    ensures Left(edges, edges') && forall x :: x in edges ==> (x in edges' <==> edges[x].from != v && edges[x].to != v)
  {}

  // A vertex whose lists are empty has no edges.
  lemma NoneTouch(vertices: Vertices, edges: Edges, outs: Lists, ins: Lists, v: Id, first: Id)
    requires Inv(vertices, edges, outs, ins, v, first) && v in vertices && outs[v] == [] && ins[v] == []
    ensures forall x :: x in edges ==> edges[x].from != v && edges[x].to != v
  {
    forall x | x in edges
      ensures edges[x].from != v && edges[x].to != v
    {
      assert Listed(vertices, edges, outs, ins, x);
    }
  }

  // With no edge into v left, its in-list is that of no edge.
  lemma LeavingBegins(vertices: Vertices, edges: Edges, outs: Lists, ins: Lists, v: Id)
    requires v in vertices && Inv(Entering(vertices, v, 0), edges, outs, ins, 0, 0)
    ensures Inv(Leaving(vertices, v, vertices[v].outEdges), edges, outs, ins, v, 0)
  {
    hide OutList, InList;
    var vs, vs' := Entering(vertices, v, 0), Leaving(vertices, v, vertices[v].outEdges);
    assert vs == vs';
    forall u | u in vs'
      ensures ListsOf(vs', edges, outs, ins, v, 0, u)
    {
      assert ListsOf(vs, edges, outs, ins, 0, 0, u);
    }
    forall e | e in edges ensures Listed(vs', edges, outs, ins, e) { assert Listed(vs, edges, outs, ins, e); }
  }

  lemma InsShrink(edges: Edges, ins: Lists, v: Id, e: Id)
    requires e in edges && edges[e].to == v && v in ins && e in ins[v]
    ensures v in InsWithout(edges, ins, e) && |InsWithout(edges, ins, e)[v]| < |ins[v]|
  {}

  lemma OutsShrink(edges: Edges, outs: Lists, ins: Lists, v: Id, e: Id)
    requires e in edges && edges[e].from == v && edges[e].to != v && edges[e].to in ins && e in ins[edges[e].to]
    requires v in outs && e in outs[v] && v in ins
    ensures v in OutsWithout(edges, outs, e) && |OutsWithout(edges, outs, e)[v]| < |outs[v]|
    ensures v in InsWithout(edges, ins, e) && InsWithout(edges, ins, e)[v] == ins[v]
  {}

  // ---- Forgetting all delays -------------------------------------------------------------------

  // Only the places of the arrays may have changed.
  ghost predicate SameLinks(edges: Edges, edges': Edges) {
    edges'.Keys == edges.Keys && forall e :: e in edges ==> edges'[e] == edges[e].(arcDelays := edges'[e].arcDelays)
  }

  ghost predicate NoArcs(edges: Edges) {
    forall e :: e in edges ==> edges[e].arcs == 0
  }

  lemma WholeList(edges: Edges, v: Id, head: Id, s: seq<Id>, k: nat)
    requires OutList(edges, v, head, 0, s) && k <= |s| && Nth(s, k) == 0
    ensures s[..k] == s && forall e :: e in s ==> e in edges && edges[e].from == v
  {
    assert k < |s| ==> OutAt(edges, v, 0, s, k);
    forall e | e in s ensures e in edges && edges[e].from == v { assert OutAt(edges, v, 0, s, IndexOf(s, e)); }
  }

  ghost function OutEdgesOf(edges: Edges, v: Id): set<Id> {
    set e | e in edges && edges[e].from == v
  }

  lemma OutEdgesListed(vertices: Vertices, edges: Edges, outs: Lists, ins: Lists, v: Id)
    requires Inv(vertices, edges, outs, ins, 0, 0) && v in vertices
    ensures v in outs && forall e :: e in outs[v] <==> e in OutEdgesOf(edges, v)
  {
    assert ListsOf(vertices, edges, outs, ins, 0, 0, v);
    forall e
      ensures e in outs[v] <==> e in OutEdgesOf(edges, v)
    {
      ListMembers(vertices, edges, outs, ins, 0, 0, v, e);
    }
  }

  // Edge k of a list is a new one, followed by the next.
  lemma ListedNext(edges: Edges, v: Id, head: Id, s: seq<Id>, k: nat)
    requires OutList(edges, v, head, 0, s) && k < |s|
    ensures s[k] in edges && edges[s[k]].from == v && edges[s[k]].outNext == Nth(s, k + 1) && s[k] !in s[..k]
    ensures forall e :: e in s[..k + 1] <==> e in s[..k] || e == s[k]
  {
    assert OutAt(edges, v, 0, s, k);
  }

  lemma NotYet(order: seq<Id>, i: nat)
    requires Distinct(order) && i < |order|
    ensures order[i] !in order[..i] && forall v :: v in order[..i + 1] <==> v in order[..i] || v == order[i]
  {}

  // Going through the out-lists of all vertices finds every edge.
  lemma AllFound(vertices: Vertices, edges: Edges, outs: Lists, ins: Lists, order: seq<Id>, done: set<Id>)
    requires Inv(vertices, edges, outs, ins, 0, 0) && forall v :: v in vertices ==> v in order
    requires forall e :: e in done <==> e in edges && edges[e].from in order[..|order|]
    ensures done == edges.Keys
  {
    forall e | e in edges ensures e in done { assert Listed(vertices, edges, outs, ins, e); }
  }

  lemma OutListOf(vertices: Vertices, edges: Edges, outs: Lists, ins: Lists, v: Id)
    requires Inv(vertices, edges, outs, ins, 0, 0) && v in vertices
    ensures v in outs && OutList(edges, v, vertices[v].outEdges, 0, outs[v])
  {
    assert ListsOf(vertices, edges, outs, ins, 0, 0, v);
  }

  lemma SameLists(vertices: Vertices, edges: Edges, edges': Edges, outs: Lists, ins: Lists, e: Id, top: nat)
    requires e in edges && e in edges' && edges' == edges[e := edges[e].(arcDelays := edges'[e].arcDelays)]
    requires Inv(vertices, edges, outs, ins, 0, 0) && Below(edges, top)
    ensures Inv(vertices, edges', outs, ins, 0, 0) && Below(edges', top)
    ensures ArcTotal(edges', top) == ArcTotal(edges, top)
  {
    ArcTotalSame(edges, edges', top);
    forall v | v in vertices ensures ListsOf(vertices, edges', outs, ins, 0, 0, v) {
      assert ListsOf(vertices, edges, outs, ins, 0, 0, v);
      forall x | x in outs[v] || x in ins[v] ensures x in edges { ListMembers(vertices, edges, outs, ins, 0, 0, v, x); }
      hide OutList, InList, Inv;
      OutFrame(edges, edges', v, vertices[v].outEdges, 0, outs[v]);
      InFrame(edges, edges', v, vertices[v].inEdges, ins[v]);
    }
    forall x | x in edges'
      ensures Listed(vertices, edges', outs, ins, x)
    {
      assert Listed(vertices, edges, outs, ins, x);
    }
  }

  lemma RoomOf(apCount: nat, tables: seq<ArrayTable.Table>, edges: Edges, annotated: seq<bool>, done: set<Id>, e: Id)
    requires Delays(apCount, tables, edges, annotated, done) && e in done
    ensures HasRoom(edges[e], apCount, |annotated|)
  {}

  lemma NoRoomInNothing(edge: Edge, apCount: nat)
    requires edge.arcs > 0 && apCount > 0
    ensures !HasRoom(edge, apCount, 0)
  {
    IndexBelow(0, edge.arcDelays + edge.arcs, 0, apCount);
  }

  lemma StillNoneSet(was: seq<bool>, now: seq<bool>, cleared: Edge, edge: Edge, apCount: nat)
    requires OnlyClears(was, now, cleared, apCount) && NoneSet(was, edge, apCount)
    ensures NoneSet(now, edge, apCount)
  {}

  class Graph {
    var vertices: Vertices
    var edges: Edges
    var arcCount: int
    const haveArcDelays: bool
    var apCount: nat
    var arcDelays: seq<ArrayTable.Table>
    var annotated: seq<bool>
    ghost var outs: Lists
    ghost var ins: Lists
    ghost var top: nat

    constructor (haveArcDelays: bool, apCount: nat)
      ensures Valid() && this.apCount == apCount && this.haveArcDelays == haveArcDelays && vertices == map[]
      ensures edges == map[] && arcCount == 0
    {
      this.haveArcDelays, this.apCount := haveArcDelays, apCount;
      vertices, edges, arcCount, annotated := map[], map[], 0, [];
      arcDelays := if haveArcDelays then seq(apCount, i => ArrayTable.EMPTY) else [];
      outs, ins, top := map[], map[], 0;
    }

    // The lists are those of the records, and every arc is counted.
    ghost predicate Links()
      reads this
    {
      Inv(vertices, edges, outs, ins, 0, 0) && Below(edges, top) && arcCount == ArcTotal(edges, top)
    }

    ghost predicate Flags(done: set<Id>)
      reads this
    {
      if haveArcDelays then Delays(apCount, arcDelays, edges, annotated, done) else annotated == [] && arcDelays == []
    }

    ghost predicate Valid()
      reads this
    {
      Links() && Flags(edges.Keys)
    }

    // Flags are kept for the arcs of the live edges at the analysis points.
    ghost predicate HasFlag(e: Id, arc: nat, ap: nat)
      reads this
    {
      e in edges && arc < edges[e].arcs && ap < apCount
    }

    ghost predicate IsSet(e: Id, arc: nat, ap: nat)
      requires e in edges
      reads this
    {
      SetAt(annotated, edges[e], arc, ap, apCount)
    }

    // Every flag has a place of its own.
    lemma PlaceOfItsOwn(e: Id, arc: nat, ap: nat, e': Id, arc': nat, ap': nat)
      requires Valid() && haveArcDelays && HasFlag(e, arc, ap) && HasFlag(e', arc', ap')
      ensures FlagIndex(edges[e], arc, ap, apCount) < |annotated|
      ensures FlagIndex(edges[e], arc, ap, apCount) == FlagIndex(edges[e'], arc', ap', apCount)
              <==> (e, arc, ap) == (e', arc', ap')
    {
      hide Inv, Delays, ArcTotal;
      FlagInBounds(apCount, arcDelays, edges, annotated, edges.Keys, e, arc, ap);
      if (e, arc, ap) != (e', arc', ap') {
        FlagsDistinct(apCount, arcDelays, edges, annotated, edges.Keys, e, arc, ap, e', arc', ap');
      }
    }

    method MakeVertex(id: Id)
      requires Valid() && id != 0 && id !in vertices
      modifies this`vertices, this`outs, this`ins
      ensures Valid() && vertices == old(vertices)[id := Vertex(0, 0)]
      ensures outs == old(outs)[id := []] && ins == old(ins)[id := []]
    {
      hide OutList, InList, ArcTotal, Delays, Listed;
      ghost var vs, outs0, ins0 := vertices, outs, ins;
      vertices := vertices[id := Vertex(0, 0)];
      outs, ins := outs[id := []], ins[id := []];
      VertexAdded(vs, edges, outs0, ins0, id);
    }

    // id is what the edge table hands out.
    method MakeEdge(id: Id, from: Id, to: Id, arcs: ArcCount)
      requires Valid() && id != 0 && id !in edges && from in vertices && to in vertices
      modifies this
      ensures Valid() && apCount == old(apCount) && vertices.Keys == old(vertices).Keys
      ensures edges.Keys == old(edges).Keys + {id} && edges[id].from == from && edges[id].to == to
      ensures edges[id].arcs == arcs
      ensures forall e :: e in old(edges) ==> Kept(old(edges)[e], edges[e])
      ensures outs == old(outs)[from := [id] + old(outs)[from]] && ins == old(ins)[to := [id] + old(ins)[to]]
      ensures arcCount == old(arcCount) + arcs
      ensures haveArcDelays ==> NoneSet(annotated, edges[id], apCount)
      ensures if haveArcDelays then OnlyClears(old(annotated), annotated, edges[id], apCount)
              else annotated == old(annotated)
      ensures forall x, a: nat, p: nat :: HasFlag(x, a, p) ==>
        (IsSet(x, a, p) <==> x != id && SetAt(old(annotated), old(edges)[x], a, p, apCount))
    {
      hide Inv, ArcTotal, Delays, OnlyClears, NoneSet, SetAt;
      ghost var es, done := edges, edges.Keys;
      edges := edges[id := Edge(from, to, arcs, 0, 0, 0, 0)];
      NewEdgeDelays(apCount, arcDelays, es, edges, annotated, done, id);
      MakeEdgeArcDelays(id, done);
      arcCount := arcCount + arcs;
      ghost var es1 := edges;
      LinkEdge(id, es);
      SameDelays(apCount, arcDelays, es1, edges, annotated, edges.Keys);
      SameFlags(es1[id], edges[id], old(annotated), annotated, apCount);
      forall x, a: nat, p: nat | HasFlag(x, a, p)
        ensures IsSet(x, a, p) <==> x != id && SetAt(old(annotated), old(edges)[x], a, p, apCount)
      {
        if haveArcDelays {
          FlagAfterClears(apCount, arcDelays, edges, old(annotated), annotated, id, x, a, p);
          SameFlag(old(annotated), if x == id then edges[x] else es[x], edges[x], a, p, apCount);
        } else {
          NoFlagSet(edges[x], a, p, apCount);
          if x != id { NoFlagSet(es[x], a, p, apCount); }
        }
      }
    }

    // The new edge becomes the first of both lists; es are the edges before it.
    method LinkEdge(id: Id, ghost es: Edges)
      requires id in edges && id !in es && id != 0 && edges.Keys == es.Keys + {id}
      requires forall x :: x in es ==> edges[x] == es[x]
      requires edges[id].from in vertices && edges[id].to in vertices
      requires Inv(vertices, es, outs, ins, 0, 0) && Below(es, top) && arcCount == ArcTotal(es, top) + edges[id].arcs
      modifies this`edges, this`vertices, this`outs, this`ins, this`top
      ensures Links() && vertices.Keys == old(vertices).Keys && edges.Keys == old(edges).Keys
      ensures forall x :: x in edges ==> Kept(old(edges)[x], edges[x])
      ensures var from, to := edges[id].from, edges[id].to;
        outs == old(outs)[from := [id] + old(outs)[from]] && ins == old(ins)[to := [id] + old(ins)[to]]
    {
      hide Inv, Made, Below, ArcTotal, Kept;
      var from, to := edges[id].from, edges[id].to;
      InvKeys(vertices, es, outs, ins, 0, 0);
      if vertices[from].outEdges != 0 { HeadLive(vertices, es, outs, ins, from); }
      SetLinks(id, es);
      LinkedKeeps(old(vertices), es, outs, ins, vertices, edges, id, top);
      outs := outs[from := [id] + outs[from]];
      ins := ins[to := [id] + ins[to]];
      top := if top > id then top else id + 1;
    }

    method SetLinks(id: Id, ghost es: Edges)
      requires id in edges && id !in es && id != 0 && 0 !in es && edges.Keys == es.Keys + {id}
      requires forall x :: x in es ==> edges[x] == es[x]
      requires edges[id].from in vertices && edges[id].to in vertices
      requires vertices[edges[id].from].outEdges == 0 || vertices[edges[id].from].outEdges in es
      modifies this`edges, this`vertices
      ensures Made(old(vertices), es, vertices, edges, id) && Kept(old(edges)[id], edges[id])
    {
      var from, to := edges[id].from, edges[id].to;
      // In front of the out-list ...
      var next := vertices[from].outEdges;
      edges := edges[id := edges[id].(outNext := next, outPrev := 0)];
      if next != 0 {
        edges := edges[next := edges[next].(outPrev := id)];
      }
      vertices := vertices[from := vertices[from].(outEdges := id)];
      // ... and in front of the in-list.
      edges := edges[id := edges[id].(inLink := vertices[to].inEdges)];
      vertices := vertices[to := vertices[to].(inEdges := id)];
    }

    // ---- Deleting ------------------------------------------------------------------------------

    method DeleteOutEdge(v: Id, e: Id)
      requires e in edges && v in vertices && 0 !in edges
      requires (edges[e].outPrev == 0 || edges[e].outPrev in edges)
      requires (edges[e].outNext == 0 || edges[e].outNext in edges)
      modifies this`edges, this`vertices
      ensures TakenOut(old(edges), edges, e)
      ensures vertices
           == old(vertices)[v := old(vertices)[v].(outEdges := OutHead(old(edges), old(vertices)[v].outEdges, e))]
    {
      var next, prev := edges[e].outNext, edges[e].outPrev;
      if prev != 0 {
        edges := edges[prev := edges[prev].(outNext := next)];
      } else {
        vertices := vertices[v := vertices[v].(outEdges := next)];
      }
      if next != 0 {
        edges := edges[next := edges[next].(outPrev := prev)];
      }
    }

    // s is the in-list of v, which has to be searched for what comes before e.
    method DeleteInEdge(v: Id, e: Id, ghost s: seq<Id>) returns (ghost before: Id)
      requires v in vertices && InList(edges, v, vertices[v].inEdges, s) && e in s && 0 !in edges
      modifies this`edges, this`vertices
      ensures before == Nth(s, IndexOf(s, e) - 1) && TakenIn(old(edges), edges, e, before)
      ensures vertices
           == old(vertices)[v := old(vertices)[v].(inEdges := InHead(old(edges), old(vertices)[v].inEdges, e, before))]
    {
      var prev, i := 0, vertices[v].inEdges;
      ghost var j: int, k := 0, IndexOf(s, e);
      assert InAt(edges, v, s, k);
      while i != 0 && i != e
        invariant 0 <= j <= k && i == Nth(s, j) && prev == Nth(s, j - 1)
        decreases k - j
      {
        assert InAt(edges, v, s, j);
        prev := i;
        i := edges[i].inLink;
        j := j + 1;
      }
      assert InAt(edges, v, s, j);
      assert j == k;
      before := prev;
      if k > 0 { assert InAt(edges, v, s, k - 1); }
      if prev != 0 {
        edges := edges[prev := edges[prev].(inLink := edges[e].inLink)];
      } else {
        vertices := vertices[v := vertices[v].(inEdges := edges[e].inLink)];
      }
    }

    method DeleteEdge(e: Id)
      requires Valid() && e in edges
      modifies this`edges, this`vertices, this`arcCount, this`outs, this`ins
      ensures Valid() && edges.Keys == old(edges).Keys - {e} && Left(old(edges), edges)
      ensures vertices.Keys == old(vertices).Keys
      ensures old(edges[e].from in outs && e in outs[edges[e].from] && edges[e].to in ins && e in ins[edges[e].to])
      ensures outs == OutsWithout(old(edges), old(outs), e) && ins == InsWithout(old(edges), old(ins), e)
      ensures arcCount == old(arcCount) - old(edges)[e].arcs
    {
      hide Inv, ArcTotal, Delays, Below, InList, TakenOut, TakenIn, Left, OutsWithout, InsWithout, OutHead, InHead;
      ghost var es, vs := edges, vertices;
      var from, to := edges[e].from, edges[e].to;
      KeysNotNull(vs, es, outs, ins, 0, 0);
      GoneFrom(vs, es, outs, ins, 0, 0, e);
      LinksLive(vs, es, outs, ins, e);
      InListOf(vs, es, outs, ins, 0, 0, e);
      DeleteOutEdge(from, e);
      ghost var es1 := edges;
      TakenOutKeeps(es, es1, to, vs[to].inEdges, ins[to], e);
      ghost var prev := DeleteInEdge(to, e, ins[to]);
      DeletedKeeps(vs, es, outs, ins, es1, edges, vertices, e, prev, top);
      arcCount := arcCount - edges[e].arcs;
      edges := edges - {e};
      if haveArcDelays { FewerDelays(apCount, arcDelays, es, edges, annotated); }
      outs, ins := OutsWithout(es, outs, e), InsWithout(es, ins, e);
    }

    // The edges into and out of the vertex go with it, self-edges among them.
    method DeleteVertex(v: Id)
      requires Valid() && v in vertices
      modifies this`edges, this`vertices, this`arcCount, this`outs, this`ins
      ensures Valid() && vertices.Keys == old(vertices).Keys - {v} && Left(old(edges), edges)
      ensures forall x :: x in old(edges) ==> (x in edges <==> old(edges)[x].from != v && old(edges)[x].to != v)
    {
      hide Inv, ArcTotal, Delays, Below, GoneTouched;
      ghost var es := edges;
      TouchedNone(es, v);
      assert Entering(vertices, v, vertices[v].inEdges) == vertices;
      DeleteInEdges(v, es);
      DeleteOutEdges(v, es);
      ghost var first :| Inv(Leaving(vertices, v, 0), edges, outs, ins, v, first);
      NoneTouch(Leaving(vertices, v, 0), edges, outs, ins, v, first);
      VertexDropped(Leaving(vertices, v, 0), edges, outs, ins, v, first);
      assert Leaving(vertices, v, 0) - {v} == vertices - {v};
      vertices := vertices - {v};
      outs, ins := outs - {v}, ins - {v};
      TouchedGone(es, edges, v);
    }

    // First the edges into v go.
    method DeleteInEdges(v: Id, ghost es: Edges)
      requires Valid() && v in vertices && GoneTouched(es, edges, v)
      modifies this`edges, this`vertices, this`arcCount, this`outs, this`ins
      ensures v in vertices && vertices.Keys == old(vertices).Keys && GoneTouched(es, edges, v)
      ensures Inv(Entering(vertices, v, 0), edges, outs, ins, 0, 0) && v in ins && ins[v] == []
      ensures Below(edges, top) && arcCount == ArcTotal(edges, top) && Flags(edges.Keys)
    {
      hide Inv, ArcTotal, Delays, Below, GoneTouched, TakenOut, OutsWithout, InsWithout;
      hide OutHead, Left, Listed, InList, Entering;
      EnteringBegins(vertices, v);
      var edgeId := vertices[v].inEdges;
      EnteringHead(vertices, v, edgeId);
      FirstIn(Entering(vertices, v, edgeId), edges, outs, ins, 0, 0, v);
      while edgeId != 0
        invariant v in vertices && vertices.Keys == old(vertices).Keys && GoneTouched(es, edges, v)
        invariant Inv(Entering(vertices, v, edgeId), edges, outs, ins, 0, 0) && v in ins
        invariant (edgeId == 0 <==> ins[v] == [])
        invariant Below(edges, top) && arcCount == ArcTotal(edges, top) && Flags(edges.Keys)
        decreases if v in ins then |ins[v]| else 0
      {
        ghost var vs, es0 := Entering(vertices, v, edgeId), edges;
        var e := edgeId;
        EnteringHead(vertices, v, edgeId);
        FirstIn(vs, edges, outs, ins, 0, 0, v);
        KeysNotNull(vs, edges, outs, ins, 0, 0);
        LinksLive(vs, edges, outs, ins, e);
        InListOf(vs, edges, outs, ins, 0, 0, e);
        var nextId := edges[e].inLink;
        ghost var vs0 := vertices;
        DeleteOutEdge(edges[e].from, e);
        EnteringDeleted(vs0, es0, outs, ins, v, edges, vertices, e, top);
        arcCount := arcCount - edges[e].arcs;
        edges := edges - {e};
        if haveArcDelays { FewerDelays(apCount, arcDelays, es0, edges, annotated); }
        TouchedStep(es, es0, edges, v, e);
        InsShrink(es0, ins, v, e);
        outs, ins := OutsWithout(es0, outs, e), InsWithout(es0, ins, e);
        edgeId := nextId;
        EnteringHead(vertices, v, edgeId);
        FirstIn(Entering(vertices, v, edgeId), edges, outs, ins, 0, 0, v);
      }
    }

    // Then those out of v.
    method DeleteOutEdges(v: Id, ghost es: Edges)
      requires v in vertices && GoneTouched(es, edges, v)
      requires Inv(Entering(vertices, v, 0), edges, outs, ins, 0, 0) && v in ins && ins[v] == []
      requires Below(edges, top) && arcCount == ArcTotal(edges, top) && Flags(edges.Keys)
      modifies this`edges, this`vertices, this`arcCount, this`outs, this`ins
      ensures v in vertices && vertices.Keys == old(vertices).Keys && GoneTouched(es, edges, v)
      ensures exists first :: Inv(Leaving(vertices, v, 0), edges, outs, ins, v, first)
      ensures v in ins && v in outs && ins[v] == [] && outs[v] == []
      ensures Below(edges, top) && arcCount == ArcTotal(edges, top) && Flags(edges.Keys)
    {
      hide Inv, ArcTotal, Delays, Below, GoneTouched, TakenIn, OutsWithout, InsWithout, InHead, Left, Listed, InList;
      var edgeId := vertices[v].outEdges;
      ghost var first := 0;
      LeavingBegins(vertices, edges, outs, ins, v);
      FirstOut(Leaving(vertices, v, edgeId), edges, outs, ins, v, 0, v);
      while edgeId != 0
        invariant v in vertices && vertices.Keys == old(vertices).Keys && GoneTouched(es, edges, v)
        invariant Inv(Leaving(vertices, v, edgeId), edges, outs, ins, v, first) && v in ins && v in outs && ins[v] == []
        invariant edgeId == 0 <==> outs[v] == []
        invariant Below(edges, top) && arcCount == ArcTotal(edges, top) && Flags(edges.Keys)
        decreases if v in outs then |outs[v]| else 0
      {
        ghost var vs, es0 := Leaving(vertices, v, edgeId), edges;
        var e := edgeId;
        FirstOut(vs, edges, outs, ins, v, first, v);
        KeysNotNull(vs, edges, outs, ins, v, first);
        InListOf(vs, edges, outs, ins, v, first, e);
        var nextId := edges[e].outNext;
        var to := edges[e].to;
        assert to != v by { ListMembers(vs, edges, outs, ins, v, first, v, e); }
        ghost var vs0 := vertices;
        ghost var prev := DeleteInEdge(to, e, ins[to]);
        LeavingDeleted(vs0, es0, outs, ins, v, first, edges, vertices, e, prev, top);
        arcCount := arcCount - edges[e].arcs;
        edges := edges - {e};
        if haveArcDelays { FewerDelays(apCount, arcDelays, es0, edges, annotated); }
        TouchedStep(es, es0, edges, v, e);
        OutsShrink(es0, outs, ins, v, e);
        outs, ins := OutsWithout(es0, outs, e), InsWithout(es0, ins, e);
        edgeId, first := nextId, e;
        FirstOut(Leaving(vertices, v, edgeId), edges, outs, ins, v, first, v);
      }
    }

    // ---- Arc delay annotation ------------------------------------------------------------------

    // An array for the edge's arcs at every analysis point, and room for its flags.
    method MakeEdgeArcDelays(e: Id, ghost done: set<Id>)
      requires e in edges && e !in done && Flags(done)
      modifies this`edges, this`arcDelays, this`annotated
      ensures Flags(if haveArcDelays then done + {e} else done)
      ensures edges.Keys == old(edges).Keys && edges == old(edges)[e := old(edges)[e].(arcDelays := edges[e].arcDelays)]
      ensures haveArcDelays ==> NoneSet(annotated, edges[e], apCount)
      ensures if haveArcDelays then OnlyClears(old(annotated), annotated, edges[e], apCount)
              else edges == old(edges) && annotated == old(annotated)
    {
      hide Delays, OnlyClears, NoneSet, FlagsTo, ArrayTable.Make;
      if haveArcDelays {
        var arcs := edges[e].arcs;
        ghost var tables, flags := arcDelays, annotated;
        var arcId := MakeArrays(arcs, done);
        edges := edges[e := edges[e].(arcDelays := arcId)];
        EnsureRoom(e);
        DelaysMade(apCount, tables, arcDelays, old(edges), edges, flags, annotated, done, e, arcId);
        ghost var flags1 := annotated;
        var ok := RemoveDelayAnnotated(e);
        ClearedDelays(apCount, arcDelays, edges, flags1, annotated, done + {e});
        ClearsAfterGrowth(flags, flags1, annotated, edges[e], apCount);
      }
    }

    // An array from the table of every analysis point; they all start at the same id.
    method MakeArrays(arcs: nat, ghost done: set<Id>) returns (arcId: nat)
      requires Delays(apCount, arcDelays, edges, annotated, done)
      modifies this`arcDelays
      ensures |arcDelays| == |old(arcDelays)| == apCount
      ensures forall k :: 0 <= k < apCount ==> arcDelays[k] == ArrayTable.Make(old(arcDelays)[k], arcs).0
      ensures apCount > 0 ==> arcId == ArrayTable.Make(old(arcDelays)[0], arcs).1
    {
      hide ArrayTable.Make;
      arcId := 0;
      ghost var tables := arcDelays;
      for i := 0 to apCount
        invariant |arcDelays| == apCount
        invariant forall k :: 0 <= k < i ==> arcDelays[k] == ArrayTable.Make(tables[k], arcs).0
        invariant forall k :: i <= k < apCount ==> arcDelays[k] == tables[k]
        invariant i > 0 ==> arcId == ArrayTable.Make(tables[0], arcs).1
      {
        var (table, id) := ArrayTable.Make(arcDelays[i], arcs);
        arcDelays := arcDelays[i := table];
        arcId := id;
      }
    }

    // The flags of the edge get places, with some to spare.
    method EnsureRoom(e: Id)
      requires e in edges
      modifies this`annotated
      ensures HasRoom(edges[e], apCount, |annotated|) && |annotated| >= |old(annotated)|
      ensures forall i :: 0 <= i < |annotated| ==> annotated[i] == (i < |old(annotated)| && old(annotated)[i])
    {
      var maxAnnotIndex := (edges[e].arcDelays + edges[e].arcs) * apCount;
      if maxAnnotIndex >= |annotated| {
        var size := maxAnnotIndex * 6 / 5;
        annotated := Resized(annotated, size);
      }
    }

    // Fails when a flag has no place.
    method RemoveDelayAnnotated(e: Id) returns (ok: bool)
      requires e in edges
      modifies this`annotated
      ensures ok <==> edges[e].arcs == 0 || apCount == 0 || HasRoom(edges[e], apCount, |old(annotated)|)
      ensures |annotated| == |old(annotated)| && OnlyClears(old(annotated), annotated, edges[e], apCount)
      ensures ok && HasRoom(edges[e], apCount, |annotated|) ==> NoneSet(annotated, edges[e], apCount)
    {
      hide FlagIndex;
      var edge := edges[e];
      ghost var flags, lo := annotated, FlagsFrom(edge, apCount);
      for arc := 0 to edge.arcs
        invariant edges[e] == edge && ClearedFrom(flags, annotated, lo, FlagIndex(edge, arc, 0, apCount))
        invariant arc > 0 && apCount > 0 ==> FlagIndex(edge, arc, 0, apCount) <= |flags|
      {
        for ap := 0 to apCount
          invariant edges[e] == edge && ClearedFrom(flags, annotated, lo, FlagIndex(edge, arc, ap, apCount))
          invariant ap > 0 ==> FlagIndex(edge, arc, ap, apCount) <= |flags|
        {
          NextFlag(edge, arc, ap, apCount);
          FlagBetween(edge, arc, ap, apCount);
          ok := SetArcDelayAnnotated(e, arc, ap, false);
          if !ok { return; }
        }
        NextFlag(edge, arc, 0, apCount);
      }
      ok := true;
    }

    // One flag has been set, and no other has changed.
    ghost predicate OneSet(was: seq<bool>, e: Id, arc: nat, ap: nat, flag: bool)
      reads this
    {
      forall x, a: nat, p: nat :: HasFlag(x, a, p) ==>
        (IsSet(x, a, p) <==> if (x, a, p) == (e, arc, ap) then flag else SetAt(was, edges[x], a, p, apCount))
    }

    lemma OneFlagSet(e: Id, arc: nat, ap: nat, flag: bool)
      requires Valid() && haveArcDelays && HasFlag(e, arc, ap)
      ensures FlagIndex(edges[e], arc, ap, apCount) < |annotated|
      ensures var now := annotated[FlagIndex(edges[e], arc, ap, apCount) := flag];
        forall x, a: nat, p: nat :: HasFlag(x, a, p) ==>
          (SetAt(now, edges[x], a, p, apCount) <==> if (x, a, p) == (e, arc, ap) then flag else IsSet(x, a, p))
    {
      hide Valid, FlagIndex;
      PlaceOfItsOwn(e, arc, ap, e, arc, ap);
      forall x, a: nat, p: nat | HasFlag(x, a, p)
        ensures SetAt(annotated[FlagIndex(edges[e], arc, ap, apCount) := flag], edges[x], a, p, apCount)
                <==> if (x, a, p) == (e, arc, ap) then flag else IsSet(x, a, p)
      {
        PlaceOfItsOwn(x, a, p, e, arc, ap);
      }
    }

    method SetArcDelayAnnotated(e: Id, arc: nat, ap: nat, flag: bool) returns (ok: bool)
      requires e in edges
      modifies this`annotated
      ensures ok <==> FlagIndex(edges[e], arc, ap, apCount) < |old(annotated)|
      ensures annotated == if ok then old(annotated)[FlagIndex(edges[e], arc, ap, apCount) := flag] else old(annotated)
      ensures old(Valid()) ==> Valid()
      ensures old(Valid()) && haveArcDelays && HasFlag(e, arc, ap) ==> ok && OneSet(old(annotated), e, arc, ap, flag)
    {
      hide Inv, Delays, ArcTotal, FlagIndex;
      if Valid() && haveArcDelays && HasFlag(e, arc, ap) { OneFlagSet(e, arc, ap, flag); }
      if haveArcDelays && Valid() {
        ghost var index := FlagIndex(edges[e], arc, ap, apCount);
        if index < |annotated| {
          ClearedDelays(apCount, arcDelays, edges, annotated, annotated[index := flag], edges.Keys);
        }
      }
      var index := FlagIndex(edges[e], arc, ap, apCount);
      if index >= |annotated| { return false; }
      annotated := annotated[index := flag];
      return true;
    }

    method ArcDelayAnnotated(e: Id, arc: nat, ap: nat) returns (ok: bool, flag: bool)
      requires e in edges
      ensures ok <==> annotated == [] || FlagIndex(edges[e], arc, ap, apCount) < |annotated|
      ensures flag <==> annotated != [] && ok && annotated[FlagIndex(edges[e], arc, ap, apCount)]
    {
      if |annotated| > 0 {
        var index := FlagIndex(edges[e], arc, ap, apCount);
        if index >= |annotated| { return false, false; }
        return true, annotated[index];
      }
      return true, false;
    }

    // Any flag of the edge.
    method DelayAnnotated(e: Id) returns (ok: bool, flag: bool)
      requires e in edges && Valid()
      ensures ok && (flag <==> exists arc, ap :: 0 <= arc < edges[e].arcs && 0 <= ap < apCount && IsSet(e, arc, ap))
    {
      for arc := 0 to edges[e].arcs
        invariant forall a, p :: 0 <= a < arc && 0 <= p < apCount ==> !IsSet(e, a, p)
      {
        for ap := 0 to apCount
          invariant forall a, p :: 0 <= a < arc && 0 <= p < apCount ==> !IsSet(e, a, p)
          invariant forall p :: 0 <= p < ap ==> !IsSet(e, arc, p)
        {
          if haveArcDelays { FlagInBounds(apCount, arcDelays, edges, annotated, edges.Keys, e, arc, ap); }
          ok, flag := ArcDelayAnnotated(e, arc, ap);
          if flag {
            assert IsSet(e, arc, ap);
            return;
          }
        }
      }
      return true, false;
    }

    // ---- The number of analysis points -----------------------------------------------------------

    // Every flag of the edges in done is clear.
    ghost predicate NoneSetIn(done: set<Id>)
      reads this
    {
      forall e :: e in done ==> e in edges && NoneSet(annotated, edges[e], apCount)
    }

    // order is every vertex, as the vertex iterator visits them. It fails exactly
    // when arc delays are not kept but there are arcs to forget the flags of.
    method SetDelayCount(n: nat, order: seq<Id>) returns (ok: bool)
      requires Valid() && Distinct(order) && forall v :: v in order <==> v in vertices
      modifies this`edges, this`arcDelays, this`annotated, this`apCount
      ensures ok <==> n == old(apCount) || haveArcDelays || n == 0 || NoArcs(old(edges))
      ensures ok ==> Valid() && apCount == n
      ensures ok && n != old(apCount) ==> forall x, a: nat, p: nat :: HasFlag(x, a, p) ==> !IsSet(x, a, p)
      ensures ok && n == old(apCount) ==> annotated == old(annotated) && edges == old(edges)
      ensures SameLinks(old(edges), edges)
    {
      if n != apCount {
        arcDelays := if haveArcDelays then seq(n, i => ArrayTable.EMPTY) else [];
        apCount := n;
        ok := RemoveDelays(order);
        forall x, a: nat, p: nat | ok && HasFlag(x, a, p) ensures !IsSet(x, a, p) {
          if haveArcDelays {
            FlagNotSet(annotated, edges[x], a, p, apCount);
          } else {
            NoFlagSet(edges[x], a, p, apCount);
          }
        }
        return;
      }
      return true;
    }

    method ForgetDelays(e: Id, ghost done: set<Id>) returns (ok: bool)
      requires Links() && Flags(if haveArcDelays then done else {}) && e in edges && e !in done
      modifies this`edges, this`arcDelays, this`annotated
      ensures Links() && Flags(if haveArcDelays then done + {e} else {})
      ensures ok <==> haveArcDelays || apCount == 0 || old(edges)[e].arcs == 0
      ensures haveArcDelays && old(NoneSetIn(done)) ==> NoneSetIn(done + {e})
      ensures edges.Keys == old(edges).Keys && edges == old(edges)[e := old(edges)[e].(arcDelays := edges[e].arcDelays)]
    {
      hide Delays, Inv, ArcTotal, Below, NoneSet, HasRoom, OnlyClears;
      ghost var es, flags := edges, annotated;
      MakeEdgeArcDelays(e, if haveArcDelays then done else {});
      SameLists(vertices, es, edges, outs, ins, e, top);
      ghost var flags1 := annotated;
      if haveArcDelays { RoomOf(apCount, arcDelays, edges, annotated, done + {e}, e); }
      if edges[e].arcs > 0 && apCount > 0 { NoRoomInNothing(edges[e], apCount); }
      ok := RemoveDelayAnnotated(e);
      if haveArcDelays {
        ClearedDelays(apCount, arcDelays, edges, flags1, annotated, done + {e});
        forall x | x in done && x in edges && x != e && NoneSet(flags, edges[x], apCount)
          ensures NoneSet(annotated, edges[x], apCount)
        {
          StillNoneSet(flags, flags1, edges[e], edges[x], apCount);
          StillNoneSet(flags1, annotated, edges[e], edges[x], apCount);
        }
      }
    }

    method RemoveDelays(order: seq<Id>) returns (ok: bool)
      requires Links() && Flags({}) && Distinct(order) && forall v :: v in order <==> v in vertices
      modifies this`edges, this`arcDelays, this`annotated
      ensures ok <==> haveArcDelays || apCount == 0 || NoArcs(old(edges))
      ensures ok ==> Valid() && (haveArcDelays ==> NoneSetIn(edges.Keys))
      ensures SameLinks(old(edges), edges)
    {
      hide Delays, Inv, ArcTotal, Below, NoneSet, Distinct;
      ghost var es := edges;
      ghost var done: set<Id> := {};
      InvKeys(vertices, edges, outs, ins, 0, 0);
      for i := 0 to |order|
        invariant SameLinks(es, edges) && Links() && Flags(if haveArcDelays then done else {})
        invariant (haveArcDelays ==> NoneSetIn(done))
        invariant forall e :: e in done <==> e in es && es[e].from in order[..i]
        invariant haveArcDelays || apCount == 0 || forall e :: e in done ==> es[e].arcs == 0
      {
        NotYet(order, i);
        assert order[i] in order;
        ok := ForgetOutEdges(order[i], done, es);
        if !ok { return; }
        done := done + OutEdgesOf(es, order[i]);
      }
      AllFound(vertices, edges, outs, ins, order, done);
      ok := true;
    }

    // The out-edges of one vertex, one after the other.
    method ForgetOutEdges(v: Id, ghost done: set<Id>, ghost es: Edges) returns (ok: bool)
      requires v in vertices && SameLinks(es, edges) && Links() && Flags(if haveArcDelays then done else {})
      requires (haveArcDelays ==> NoneSetIn(done)) && forall e :: e in done ==> e in es && es[e].from != v
      modifies this`edges, this`arcDelays, this`annotated
      ensures SameLinks(es, edges)
      ensures ok ==> Links() && Flags(if haveArcDelays then done + OutEdgesOf(es, v) else {})
      ensures ok && haveArcDelays ==> NoneSetIn(done + OutEdgesOf(es, v))
      ensures ok <==> haveArcDelays || apCount == 0 || forall e :: e in OutEdgesOf(es, v) ==> es[e].arcs == 0
    {
      hide Delays, Inv, OutList, ArcTotal, Below, NoneSet;
      var edgeId := vertices[v].outEdges;
      ghost var k := 0;
      OutListOf(vertices, edges, outs, ins, v);
      ghost var s, now := outs[v], done;
      while edgeId != 0
        invariant SameLinks(es, edges) && Links() && Flags(if haveArcDelays then now else {})
        invariant (haveArcDelays ==> NoneSetIn(now))
        invariant 0 <= k <= |s| && edgeId == Nth(s, k) && forall e :: e in now <==> e in done || e in s[..k]
        invariant haveArcDelays || apCount == 0 || forall e :: e in s[..k] ==> e in es && es[e].arcs == 0
        decreases |s| - k
      {
        var e := edgeId;
        OutListOf(vertices, edges, outs, ins, v);
        ListedNext(edges, v, vertices[v].outEdges, s, k);
        edgeId := edges[e].outNext;
        ok := ForgetDelays(e, now);
        if !ok {
          assert e in OutEdgesOf(es, v);
          return;
        }
        now := now + {e};
        k := k + 1;
      }
      OutListOf(vertices, edges, outs, ins, v);
      WholeList(edges, v, vertices[v].outEdges, s, k);
      OutEdgesListed(vertices, edges, outs, ins, v);
      assert now == done + OutEdgesOf(es, v);
      ok := true;
    }
  }
}
