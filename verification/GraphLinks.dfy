// The edge lists of the timing graph, on values: the out-edges of a vertex are
// doubly linked, its in-edges singly, both through fields of the edges, which are
// addressed by id.
module GraphLinks {
  import opened Sequences

  type Id = nat

  datatype Vertex = Vertex(inEdges: Id, outEdges: Id)

  // No arc set takes a fifth arc.
  const MAX_ARCS := 4

  type ArcCount = n: nat | n <= MAX_ARCS

  // arcs is the number of timing arcs of the edge's arc set.
  datatype Edge = Edge(from: Id, to: Id, arcs: ArcCount, arcDelays: nat, outNext: Id, outPrev: Id, inLink: Id)

  type Vertices = map<Id, Vertex>
  type Edges = map<Id, Edge>
  type Lists = map<Id, seq<Id>>

  ghost function Nth(s: seq<Id>, k: int): Id {
    if 0 <= k < |s| then s[k] else 0
  }

  // ---- One list --------------------------------------------------------------------------

  ghost predicate OutAt(edges: Edges, v: Id, first: Id, s: seq<Id>, k: nat) {
    && k < |s| && s[k] != 0 && s[k] in edges && edges[s[k]].from == v
    && edges[s[k]].outNext == Nth(s, k + 1)
    && edges[s[k]].outPrev == if k == 0 then first else s[k - 1]
  }

  // s is the list of v's out-edges, entered at head; the first one links back to
  // first.
  ghost predicate OutList(edges: Edges, v: Id, head: Id, first: Id, s: seq<Id>) {
    head == Nth(s, 0) && Distinct(s) && forall k :: 0 <= k < |s| ==> OutAt(edges, v, first, s, k)
  }

  ghost predicate InAt(edges: Edges, v: Id, s: seq<Id>, k: nat) {
    && k < |s| && s[k] != 0 && s[k] in edges && edges[s[k]].to == v && edges[s[k]].inLink == Nth(s, k + 1)
  }

  ghost predicate InList(edges: Edges, v: Id, head: Id, s: seq<Id>) {
    head == Nth(s, 0) && Distinct(s) && forall k :: 0 <= k < |s| ==> InAt(edges, v, s, k)
  }

  lemma OutFrame(edges: Edges, edges': Edges, v: Id, head: Id, first: Id, s: seq<Id>)
    requires OutList(edges, v, head, first, s)
    requires forall e :: e in s ==> e in edges && e in edges' && edges'[e].from == edges[e].from
                                    && edges'[e].outNext == edges[e].outNext && edges'[e].outPrev == edges[e].outPrev
    ensures OutList(edges', v, head, first, s)
  {
    forall k | 0 <= k < |s| ensures OutAt(edges', v, first, s, k) { assert OutAt(edges, v, first, s, k); }
  }

  lemma InFrame(edges: Edges, edges': Edges, v: Id, head: Id, s: seq<Id>)
    requires InList(edges, v, head, s)
    requires forall e :: e in s ==>
      e in edges && e in edges' && edges'[e].to == edges[e].to && edges'[e].inLink == edges[e].inLink
    ensures InList(edges', v, head, s)
  {
    forall k | 0 <= k < |s| ensures InAt(edges', v, s, k) { assert InAt(edges, v, s, k); }
  }

  // A new first out-edge.
  lemma OutPushed(edges: Edges, edges': Edges, v: Id, head: Id, s: seq<Id>, e: Id)
    requires OutList(edges, v, head, 0, s) && e !in s && e != 0
    requires e in edges' && edges'[e].from == v && edges'[e].outNext == head && edges'[e].outPrev == 0
    requires forall x :: x in s ==>
      && x in edges && x in edges' && edges'[x].from == edges[x].from && edges'[x].outNext == edges[x].outNext
      && edges'[x].outPrev == if x == head then e else edges[x].outPrev
    ensures OutList(edges', v, e, 0, [e] + s)
  {
    var t := [e] + s;
    forall k | 0 <= k < |t| ensures OutAt(edges', v, 0, t, k) {
      if k > 0 {
        assert OutAt(edges, v, 0, s, k - 1) && t[k] == s[k - 1];
        assert t[k - 1] == if k == 1 then e else s[k - 2];
      }
    }
  }

  lemma InPushed(edges: Edges, edges': Edges, v: Id, head: Id, s: seq<Id>, e: Id)
    requires InList(edges, v, head, s) && e !in s && e != 0
    requires e in edges' && edges'[e].to == v && edges'[e].inLink == head
    requires forall x :: x in s ==>
      x in edges && x in edges' && edges'[x].to == edges[x].to && edges'[x].inLink == edges[x].inLink
    ensures InList(edges', v, e, [e] + s)
  {
    var t := [e] + s;
    forall k | 0 <= k < |t| ensures InAt(edges', v, t, k) {
      if k > 0 { assert InAt(edges, v, s, k - 1) && t[k] == s[k - 1]; }
    }
  }

  // prev and next are linked to each other.
  ghost predicate OutRelinked(edges: Edges, edges': Edges, x: Id, prev: Id, next: Id) {
    && x in edges && x in edges' && edges'[x].from == edges[x].from
    && edges'[x].outNext == (if x == prev then next else edges[x].outNext)
    && edges'[x].outPrev == (if x == next then prev else edges[x].outPrev)
  }

  ghost predicate InRelinked(edges: Edges, edges': Edges, x: Id, prev: Id, next: Id) {
    && x in edges && x in edges' && edges'[x].to == edges[x].to
    && edges'[x].inLink == (if x == prev then next else edges[x].inLink)
  }

  // Out-edge k is linked past. Its own links stay as they were.
  lemma OutUnlinked(edges: Edges, edges': Edges, v: Id, head: Id, head': Id, s: seq<Id>, k: nat)
    requires OutList(edges, v, head, 0, s) && k < |s|
    requires s[k] in edges && head' == if edges[s[k]].outPrev == 0 then edges[s[k]].outNext else head
    requires forall x :: x in s ==> OutRelinked(edges, edges', x, edges[s[k]].outPrev, edges[s[k]].outNext)
    ensures OutList(edges', v, head', 0, Without(s, k))
  {
    var t := Without(s, k);
    assert OutAt(edges, v, 0, s, k);
    if k > 0 { assert OutAt(edges, v, 0, s, k - 1); }
    forall i | 0 <= i < |t| ensures OutAt(edges', v, 0, t, i) {
      var j := if i < k then i else i + 1;
      assert t[i] == s[j] && s[j] in s && OutAt(edges, v, 0, s, j);
      assert OutRelinked(edges, edges', s[j], edges[s[k]].outPrev, edges[s[k]].outNext);
      assert Nth(t, i + 1) == if i + 1 == k then Nth(s, k + 1) else Nth(s, j + 1);
      if i > 0 { assert t[i - 1] == s[if i - 1 < k then i - 1 else i]; }
    }
  }

  lemma InUnlinked(edges: Edges, edges': Edges, v: Id, head: Id, head': Id, s: seq<Id>, k: nat)
    requires InList(edges, v, head, s) && k < |s|
    requires s[k] in edges && head' == if k == 0 then edges[s[k]].inLink else head
    requires forall x :: x in s ==> InRelinked(edges, edges', x, Nth(s, k - 1), edges[s[k]].inLink)
    ensures InList(edges', v, head', Without(s, k))
  {
    var t := Without(s, k);
    assert InAt(edges, v, s, k);
    forall i | 0 <= i < |t| ensures InAt(edges', v, t, i) {
      var j := if i < k then i else i + 1;
      assert t[i] == s[j] && s[j] in s && InAt(edges, v, s, j);
      assert InRelinked(edges, edges', s[j], Nth(s, k - 1), edges[s[k]].inLink);
      assert Nth(t, i + 1) == if i + 1 == k then Nth(s, k + 1) else Nth(s, j + 1);
    }
  }

  lemma OutTail(edges: Edges, v: Id, head: Id, first: Id, s: seq<Id>)
    requires OutList(edges, v, head, first, s) && s != [] && s[0] in edges
    ensures OutList(edges, v, edges[s[0]].outNext, s[0], s[1..])
  {
    assert OutAt(edges, v, first, s, 0);
    forall k | 0 <= k < |s[1..]| ensures OutAt(edges, v, s[0], s[1..], k) { assert OutAt(edges, v, first, s, k + 1); }
  }

  // ---- The whole graph ---------------------------------------------------------------------

  // Every vertex's lists hold exactly the live edges from and to it, once each.
  // While a vertex is being deleted its out-list has lost its first edge, which the
  // next one still links back to; dead is that vertex, or 0.
  ghost predicate ListsOf(vertices: Vertices, edges: Edges, outs: Lists, ins: Lists, dead: Id, first: Id, v: Id)
    requires v in vertices
  {
    && v in outs && v in ins
    && OutList(edges, v, vertices[v].outEdges, if v == dead then first else 0, outs[v])
    && InList(edges, v, vertices[v].inEdges, ins[v])
  }

  ghost predicate Listed(vertices: Vertices, edges: Edges, outs: Lists, ins: Lists, e: Id)
    requires e in edges
  {
    && edges[e].from in vertices && edges[e].from in outs && e in outs[edges[e].from]
    && edges[e].to in vertices && edges[e].to in ins && e in ins[edges[e].to]
  }

  ghost predicate Inv(vertices: Vertices, edges: Edges, outs: Lists, ins: Lists, dead: Id, first: Id) {
    && 0 !in vertices && 0 !in edges && outs.Keys == ins.Keys == vertices.Keys
    && (forall v :: v in vertices ==> ListsOf(vertices, edges, outs, ins, dead, first, v))
    && forall e :: e in edges ==> Listed(vertices, edges, outs, ins, e)
  }

  // The edges on v's lists are those that say so themselves.
  lemma ListMembers(vertices: Vertices, edges: Edges, outs: Lists, ins: Lists, dead: Id, first: Id, v: Id, e: Id)
    requires Inv(vertices, edges, outs, ins, dead, first) && v in vertices
    ensures e in outs[v] <==> e in edges && edges[e].from == v
    ensures e in ins[v] <==> e in edges && edges[e].to == v
  {
    assert ListsOf(vertices, edges, outs, ins, dead, first, v);
    if e in outs[v] {
      var k :| 0 <= k < |outs[v]| && outs[v][k] == e;
      assert OutAt(edges, v, if v == dead then first else 0, outs[v], k);
    }
    if e in ins[v] {
      var k :| 0 <= k < |ins[v]| && ins[v][k] == e;
      assert InAt(edges, v, ins[v], k);
    }
    if e in edges { assert Listed(vertices, edges, outs, ins, e); }
  }

  // ---- Making an edge ---------------------------------------------------------------------

  // What making edge e between from and to does to the records.
  ghost predicate Made(vertices: Vertices, edges: Edges, vertices': Vertices, edges': Edges, e: Id) {
    && e !in edges && e != 0 && e in edges' && edges'.Keys == edges.Keys + {e}
    && var from, to := edges'[e].from, edges'[e].to;
       && from in vertices && to in vertices && vertices'.Keys == vertices.Keys
       && edges'[e].outNext == vertices[from].outEdges && edges'[e].outPrev == 0
       && edges'[e].inLink == vertices[to].inEdges
       && (forall v :: v in vertices ==> vertices'[v].outEdges == (if v == from then e else vertices[v].outEdges)
                                         && vertices'[v].inEdges == (if v == to then e else vertices[v].inEdges))
       && forall x :: x in edges ==>
            && Kept(edges[x], edges'[x])
            && edges'[x].outNext == edges[x].outNext && edges'[x].inLink == edges[x].inLink
            && edges'[x].outPrev == if x == vertices[from].outEdges then e else edges[x].outPrev
  }

  // The parts of an edge that the lists do not use.
  ghost predicate Kept(x: Edge, y: Edge) {
    x.from == y.from && x.to == y.to && x.arcs == y.arcs && x.arcDelays == y.arcDelays
  }

  lemma MadeKeeps(vertices: Vertices, edges: Edges, outs: Lists, ins: Lists, vertices': Vertices, edges': Edges, e: Id)
    requires Inv(vertices, edges, outs, ins, 0, 0) && Made(vertices, edges, vertices', edges', e)
    ensures var from, to := edges'[e].from, edges'[e].to;
      Inv(vertices', edges', outs[from := [e] + outs[from]], ins[to := [e] + ins[to]], 0, 0)
  {
    hide OutList, InList;
    var from, to := edges'[e].from, edges'[e].to;
    var outs', ins' := outs[from := [e] + outs[from]], ins[to := [e] + ins[to]];
    forall v | v in vertices' ensures ListsOf(vertices', edges', outs', ins', 0, 0, v) {
      MadeOut(vertices, edges, outs, ins, vertices', edges', e, v);
      MadeIn(vertices, edges, outs, ins, vertices', edges', e, v);
    }
    forall x | x in edges' ensures Listed(vertices', edges', outs', ins', x) {
      if x != e { assert Listed(vertices, edges, outs, ins, x); }
    }
  }

  lemma MadeOut(vertices: Vertices, edges: Edges, outs: Lists, ins: Lists, vertices': Vertices, edges': Edges, e: Id,
                v: Id)
    requires Inv(vertices, edges, outs, ins, 0, 0) && Made(vertices, edges, vertices', edges', e) && v in vertices
    ensures OutList(edges', v, vertices'[v].outEdges, 0, if v == edges'[e].from then [e] + outs[v] else outs[v])
  {
    var from := edges'[e].from;
    assert ListsOf(vertices, edges, outs, ins, 0, 0, v) && ListsOf(vertices, edges, outs, ins, 0, 0, from);
    forall x | x in outs[v]
      ensures x in edges && edges[x].from == v
    {
      ListMembers(vertices, edges, outs, ins, 0, 0, v, x);
    }
    hide OutList, Inv, ListsOf;
    if v == from {
      OutPushed(edges, edges', v, vertices[v].outEdges, outs[v], e);
    } else {
      HeadIsMember(edges, from, vertices[from].outEdges, outs[from]);
      OutFrame(edges, edges', v, vertices[v].outEdges, 0, outs[v]);
    }
  }

  lemma HeadIsMember(edges: Edges, v: Id, head: Id, s: seq<Id>)
    requires OutList(edges, v, head, 0, s)
    ensures head in edges ==> edges[head].from == v || head == 0
  {
    if s != [] { assert OutAt(edges, v, 0, s, 0); }
  }

  lemma MadeIn(vertices: Vertices, edges: Edges, outs: Lists, ins: Lists, vertices': Vertices, edges': Edges, e: Id,
               v: Id)
    requires Inv(vertices, edges, outs, ins, 0, 0) && Made(vertices, edges, vertices', edges', e) && v in vertices
    ensures InList(edges', v, vertices'[v].inEdges, if v == edges'[e].to then [e] + ins[v] else ins[v])
  {
    assert ListsOf(vertices, edges, outs, ins, 0, 0, v);
    forall x | x in ins[v] ensures x in edges { ListMembers(vertices, edges, outs, ins, 0, 0, v, x); }
    hide InList, Inv, ListsOf;
    if v == edges'[e].to {
      InPushed(edges, edges', v, vertices[v].inEdges, ins[v], e);
    } else {
      InFrame(edges, edges', v, vertices[v].inEdges, ins[v]);
    }
  }

  // ---- Deleting an edge --------------------------------------------------------------------

  ghost function IndexOf(s: seq<Id>, e: Id): (k: nat)
    requires e in s
    ensures k < |s| && s[k] == e
  {
    var k :| 0 <= k < |s| && s[k] == e;
    k
  }

  // Edge e has been taken off both of its lists and destroyed; the lists may have
  // been those of a vertex that is itself being deleted, then only its head (and
  // what the first out-edge links back to) is right.
  ghost predicate Dropped(vertices: Vertices, edges: Edges, outs: Lists, ins: Lists, dead: Id,
                          vertices': Vertices, edges': Edges, outs': Lists, ins': Lists, first': Id, e: Id)
  {
    && e in edges && edges'.Keys == edges.Keys - {e} && vertices'.Keys == vertices.Keys
    && var from, to := edges[e].from, edges[e].to;
       && from in vertices && to in vertices && from in outs && to in ins && e in outs[from] && e in ins[to]
       && outs' == outs[from := Without(outs[from], IndexOf(outs[from], e))]
       && ins' == ins[to := Without(ins[to], IndexOf(ins[to], e))]
       && OutList(edges', from, vertices'[from].outEdges, if from == dead then first' else 0, outs'[from])
       && InList(edges', to, vertices'[to].inEdges, ins'[to])
       && (forall v :: v in vertices ==> (v != from ==> vertices'[v].outEdges == vertices[v].outEdges)
                                         && (v != to ==> vertices'[v].inEdges == vertices[v].inEdges))
       && forall x :: x in edges' ==> OffLists(edges[x], edges'[x], from, to)
  }

  // An edge that is on neither list has kept its links.
  ghost predicate OffLists(x: Edge, y: Edge, from: Id, to: Id) {
    && Kept(x, y) && (x.from != from ==> y.outNext == x.outNext && y.outPrev == x.outPrev)
    && (x.to != to ==> y.inLink == x.inLink)
  }

  lemma DroppedKeeps(vertices: Vertices, edges: Edges, outs: Lists, ins: Lists, dead: Id, first: Id,
                     vertices': Vertices, edges': Edges, outs': Lists, ins': Lists, first': Id, e: Id)
    requires Inv(vertices, edges, outs, ins, dead, first)
    requires Dropped(vertices, edges, outs, ins, dead, vertices', edges', outs', ins', first', e)
    requires edges[e].from == dead || first' == first
    ensures Inv(vertices', edges', outs', ins', dead, first')
  {
    hide OutList, InList, Without;
    forall v | v in vertices' ensures ListsOf(vertices', edges', outs', ins', dead, first', v) {
      DroppedLists(vertices, edges, outs, ins, dead, first, vertices', edges', outs', ins', first', e, v);
    }
    forall x | x in edges' ensures Listed(vertices', edges', outs', ins', x) {
      DroppedListed(vertices, edges, outs, ins, dead, first, vertices', edges', outs', ins', first', e, x);
    }
    hide Dropped, Listed, ListsOf;
  }

  lemma DroppedLists(vertices: Vertices, edges: Edges, outs: Lists, ins: Lists, dead: Id, first: Id,
                     vertices': Vertices, edges': Edges, outs': Lists, ins': Lists, first': Id, e: Id, v: Id)
    requires Inv(vertices, edges, outs, ins, dead, first)
    requires Dropped(vertices, edges, outs, ins, dead, vertices', edges', outs', ins', first', e)
    requires (edges[e].from == dead || first' == first) && v in vertices
    ensures ListsOf(vertices', edges', outs', ins', dead, first', v)
  {
    assert ListsOf(vertices, edges, outs, ins, dead, first, v);
    forall x ensures x in outs[v] <==> x in edges && edges[x].from == v
      ensures x in ins[v] <==> x in edges && edges[x].to == v
    {
      ListMembers(vertices, edges, outs, ins, dead, first, v, x);
    }
    hide OutList, InList, Inv;
    if v != edges[e].from {
      OutFrame(edges, edges', v, vertices[v].outEdges, if v == dead then first else 0, outs[v]);
    }
    if v != edges[e].to {
      InFrame(edges, edges', v, vertices[v].inEdges, ins[v]);
    }
  }

  lemma DroppedListed(vertices: Vertices, edges: Edges, outs: Lists, ins: Lists, dead: Id, first: Id,
                      vertices': Vertices, edges': Edges, outs': Lists, ins': Lists, first': Id, e: Id, x: Id)
    requires Inv(vertices, edges, outs, ins, dead, first)
    requires Dropped(vertices, edges, outs, ins, dead, vertices', edges', outs', ins', first', e)
    requires x in edges'
    ensures Listed(vertices', edges', outs', ins', x)
  {
    var from, to := edges[e].from, edges[e].to;
    assert Listed(vertices, edges, outs, ins, x);
    assert ListsOf(vertices, edges, outs, ins, dead, first, from);
    assert ListsOf(vertices, edges, outs, ins, dead, first, to);
    WithoutMembers(outs[from], IndexOf(outs[from], e));
    WithoutMembers(ins[to], IndexOf(ins[to], e));
    hide OutList, InList, Inv, Without, ListsOf;
  }

  // e has been taken off the out-list it is on.
  ghost predicate TakenOut(edges: Edges, edges': Edges, e: Id) {
    && e in edges && edges'.Keys == edges.Keys
    && var prev, next := edges[e].outPrev, edges[e].outNext;
       forall x :: x in edges ==> edges'[x] == edges[x].(outNext := if x == prev then next else edges[x].outNext,
                                                         outPrev := if x == next then prev else edges[x].outPrev)
  }

  ghost function OutHead(edges: Edges, head: Id, e: Id): Id
    requires e in edges
  {
    if edges[e].outPrev == 0 then edges[e].outNext else head
  }

  // e has been taken off the in-list it is on, after prev.
  ghost predicate TakenIn(edges: Edges, edges': Edges, e: Id, prev: Id) {
    && e in edges && edges'.Keys == edges.Keys
    && forall x :: x in edges ==>
         edges'[x] == edges[x].(inLink := if x == prev then edges[e].inLink else edges[x].inLink)
  }

  ghost function InHead(edges: Edges, head: Id, e: Id, prev: Id): Id
    requires e in edges
  {
    if prev == 0 then edges[e].inLink else head
  }

  lemma TakenOutList(edges: Edges, edges': Edges, v: Id, head: Id, s: seq<Id>, e: Id)
    requires OutList(edges, v, head, 0, s) && e in s && TakenOut(edges, edges', e)
    ensures OutList(edges', v, OutHead(edges, head, e), 0, Without(s, IndexOf(s, e)))
  {
    forall x | x in s ensures OutRelinked(edges, edges', x, edges[e].outPrev, edges[e].outNext) {
      assert OutAt(edges, v, 0, s, IndexOf(s, x));
    }
    hide OutList;
    OutUnlinked(edges, edges', v, head, OutHead(edges, head, e), s, IndexOf(s, e));
  }

  lemma TakenInList(edges: Edges, edges': Edges, v: Id, head: Id, s: seq<Id>, e: Id, prev: Id)
    requires InList(edges, v, head, s) && e in s && TakenIn(edges, edges', e, prev) && prev == Nth(s, IndexOf(s, e) - 1)
    ensures InList(edges', v, InHead(edges, head, e, prev), Without(s, IndexOf(s, e)))
  {
    var k := IndexOf(s, e);
    forall x | x in s ensures InRelinked(edges, edges', x, prev, edges[e].inLink) {
      assert InAt(edges, v, s, IndexOf(s, x));
    }
    assert prev == 0 <==> k == 0 by { if k > 0 { assert InAt(edges, v, s, k - 1); } }
    hide InList;
    InUnlinked(edges, edges', v, head, InHead(edges, head, e, prev), s, k);
  }

  // Changing in-links moves nothing on the out-lists, and the other way round;
  // neither does the loss of an edge that is not on the list.
  lemma OutSurvives(edges: Edges, edges': Edges, v: Id, head: Id, first: Id, s: seq<Id>, e: Id)
    requires OutList(edges, v, head, first, s) && e !in s && edges'.Keys == edges.Keys - {e}
    requires forall x :: x in edges' ==>
      edges'[x].from == edges[x].from && edges'[x].outNext == edges[x].outNext && edges'[x].outPrev == edges[x].outPrev
    ensures OutList(edges', v, head, first, s)
  {
    forall x | x in s ensures x in edges {
      var k := IndexOf(s, x);
      assert OutAt(edges, v, first, s, k);
    }
    OutFrame(edges, edges', v, head, first, s);
  }

  lemma InSurvives(edges: Edges, edges': Edges, v: Id, head: Id, s: seq<Id>, e: Id)
    requires InList(edges, v, head, s) && e !in s && edges'.Keys == edges.Keys - {e}
    requires forall x :: x in edges' ==> edges'[x].to == edges[x].to && edges'[x].inLink == edges[x].inLink
    ensures InList(edges', v, head, s)
  {
    forall x | x in s ensures x in edges {
      var k := IndexOf(s, x);
      assert InAt(edges, v, s, k);
    }
    InFrame(edges, edges', v, head, s);
  }

  // The ids that an edge's lists lose with it.
  ghost function OutsWithout(edges: Edges, outs: Lists, e: Id): Lists
    requires e in edges && edges[e].from in outs && e in outs[edges[e].from]
  {
    outs[edges[e].from := Without(outs[edges[e].from], IndexOf(outs[edges[e].from], e))]
  }

  ghost function InsWithout(edges: Edges, ins: Lists, e: Id): Lists
    requires e in edges && edges[e].to in ins && e in ins[edges[e].to]
  {
    ins[edges[e].to := Without(ins[edges[e].to], IndexOf(ins[edges[e].to], e))]
  }

  lemma GoneFrom(vertices: Vertices, edges: Edges, outs: Lists, ins: Lists, dead: Id, first: Id, e: Id)
    requires Inv(vertices, edges, outs, ins, dead, first) && e in edges
    ensures edges[e].from in vertices && edges[e].to in vertices && edges[e].from in outs && edges[e].to in ins
    ensures e in outs[edges[e].from] && e in ins[edges[e].to]
    ensures e !in OutsWithout(edges, outs, e)[edges[e].from] && e !in InsWithout(edges, ins, e)[edges[e].to]
  {
    assert Listed(vertices, edges, outs, ins, e);
    var from, to := edges[e].from, edges[e].to;
    assert ListsOf(vertices, edges, outs, ins, dead, first, from);
    assert ListsOf(vertices, edges, outs, ins, dead, first, to);
    WithoutMembers(outs[from], IndexOf(outs[from], e));
    WithoutMembers(ins[to], IndexOf(ins[to], e));
  }

  // What the records become when e is taken off its lists and destroyed.
  ghost predicate Destroyed(edges: Edges, edges': Edges, e: Id, outPrev: Id, outNext: Id, inPrev: Id, inLink: Id) {
    && e in edges && edges'.Keys == edges.Keys - {e}
    && forall x :: x in edges' ==>
         edges'[x] == edges[x].(outNext := if x == outPrev then outNext else edges[x].outNext,
                                outPrev := if x == outNext then outPrev else edges[x].outPrev,
                                inLink := if x == inPrev then inLink else edges[x].inLink)
  }

  lemma OutAfter(edges: Edges, edges': Edges, v: Id, head: Id, s: seq<Id>, e: Id, inPrev: Id)
    requires OutList(edges, v, head, 0, s) && e in s && e in edges
    requires Destroyed(edges, edges', e, edges[e].outPrev, edges[e].outNext, inPrev, edges[e].inLink)
    ensures OutList(edges', v, OutHead(edges, head, e), 0, Without(s, IndexOf(s, e)))
  {
    var edges1 :=
      map x | x in edges ::
        edges[x].(outNext := if x == edges[e].outPrev then edges[e].outNext else edges[x].outNext,
                  outPrev := if x == edges[e].outNext then edges[e].outPrev else edges[x].outPrev);
    TakenOutList(edges, edges1, v, head, s, e);
    WithoutMembers(s, IndexOf(s, e));
    hide OutList, Without;
    OutSurvives(edges1, edges', v, OutHead(edges, head, e), 0, Without(s, IndexOf(s, e)), e);
  }

  lemma InAfter(edges: Edges, edges': Edges, v: Id, head: Id, s: seq<Id>, e: Id, prev: Id, outPrev: Id, outNext: Id)
    requires InList(edges, v, head, s) && e in s && e in edges && prev == Nth(s, IndexOf(s, e) - 1)
    requires Destroyed(edges, edges', e, outPrev, outNext, prev, edges[e].inLink)
    ensures InList(edges', v, InHead(edges, head, e, prev), Without(s, IndexOf(s, e)))
  {
    var edges1 := map x | x in edges :: edges[x].(inLink := if x == prev then edges[e].inLink else edges[x].inLink);
    TakenInList(edges, edges1, v, head, s, e, prev);
    WithoutMembers(s, IndexOf(s, e));
    hide InList, Without;
    InSurvives(edges1, edges', v, InHead(edges, head, e, prev), Without(s, IndexOf(s, e)), e);
  }

  // Off both lists. In deleteVertex the in-list is the dying vertex's own and e its
  // first edge, so that only its head moves.
  lemma EdgeDropped(vertices: Vertices, edges: Edges, outs: Lists, ins: Lists, vertices': Vertices, edges': Edges,
                    e: Id, prev: Id)
    requires Inv(vertices, edges, outs, ins, 0, 0) && e in edges && Listed(vertices, edges, outs, ins, e)
    requires prev == Nth(ins[edges[e].to], IndexOf(ins[edges[e].to], e) - 1)
    requires Destroyed(edges, edges', e, edges[e].outPrev, edges[e].outNext, prev, edges[e].inLink)
    requires vertices'.Keys == vertices.Keys
    requires forall v :: v in vertices ==> DroppedHeads(vertices, edges, vertices', e, prev, v)
    ensures Inv(vertices', edges', OutsWithout(edges, outs, e), InsWithout(edges, ins, e), 0, 0)
  {
    var from, to := edges[e].from, edges[e].to;
    var outs', ins' := OutsWithout(edges, outs, e), InsWithout(edges, ins, e);
    assert ListsOf(vertices, edges, outs, ins, 0, 0, from) && ListsOf(vertices, edges, outs, ins, 0, 0, to);
    assert DroppedHeads(vertices, edges, vertices', e, prev, from);
    assert DroppedHeads(vertices, edges, vertices', e, prev, to);
    OutAfter(edges, edges', from, vertices[from].outEdges, outs[from], e, prev);
    InAfter(edges, edges', to, vertices[to].inEdges, ins[to], e, prev, edges[e].outPrev, edges[e].outNext);
    OffListsKept(vertices, edges, outs, ins, 0, 0, edges', e, edges[e].outPrev, edges[e].outNext, prev);
    hide OutList, InList, Inv, Without, ListsOf;
    DroppedKeeps(vertices, edges, outs, ins, 0, 0, vertices', edges', outs', ins', 0, e);
  }

  // The heads of the lists that lose e.
  ghost predicate DroppedHeads(vertices: Vertices, edges: Edges, vertices': Vertices, e: Id, prev: Id, v: Id)
    requires e in edges && v in vertices && v in vertices'
  {
    && vertices'[v].outEdges
       == (if v == edges[e].from then OutHead(edges, vertices[v].outEdges, e) else vertices[v].outEdges)
    && vertices'[v].inEdges
       == (if v == edges[e].to then InHead(edges, vertices[v].inEdges, e, prev) else vertices[v].inEdges)
  }

  // The neighbours of an edge on a list are edges of the same vertex.
  lemma OutNeighbours(edges: Edges, v: Id, head: Id, first: Id, s: seq<Id>, e: Id)
    requires OutList(edges, v, head, first, s) && e in s && 0 !in edges
    ensures e in edges && (edges[e].outNext in edges ==> edges[edges[e].outNext].from == v)
    ensures first == 0 && edges[e].outPrev in edges ==> edges[edges[e].outPrev].from == v
  {
    var k := IndexOf(s, e);
    assert OutAt(edges, v, first, s, k);
    if k + 1 < |s| { assert OutAt(edges, v, first, s, k + 1); }
    if k > 0 { assert OutAt(edges, v, first, s, k - 1); }
  }

  lemma InNeighbour(edges: Edges, v: Id, head: Id, s: seq<Id>, e: Id)
    requires InList(edges, v, head, s) && e in s && 0 !in edges
    ensures Nth(s, IndexOf(s, e) - 1) in edges ==> edges[Nth(s, IndexOf(s, e) - 1)].to == v
  {
    var k := IndexOf(s, e);
    if k > 0 { assert InAt(edges, v, s, k - 1); }
  }

  // An edge that shares neither list with e is not relinked.
  lemma OffListsKept(vertices: Vertices, edges: Edges, outs: Lists, ins: Lists, dead: Id, first: Id, edges': Edges,
                     e: Id,
                     outPrev: Id, outNext: Id, prev: Id)
    requires Inv(vertices, edges, outs, ins, dead, first) && e in edges && Listed(vertices, edges, outs, ins, e)
    requires Destroyed(edges, edges', e, outPrev, outNext, prev, edges[e].inLink)
    requires outPrev == outNext == 0
             || (outPrev == edges[e].outPrev && outNext == edges[e].outNext && edges[e].from != dead)
    requires prev == Nth(ins[edges[e].to], IndexOf(ins[edges[e].to], e) - 1)
    ensures forall x :: x in edges' ==> OffLists(edges[x], edges'[x], edges[e].from, edges[e].to)
  {
    var from, to := edges[e].from, edges[e].to;
    assert ListsOf(vertices, edges, outs, ins, dead, first, from);
    assert ListsOf(vertices, edges, outs, ins, dead, first, to);
    KeysNotNull(vertices, edges, outs, ins, dead, first);
    hide OutList, InList, Inv, Nth;
    OutNeighbours(edges, from, vertices[from].outEdges, if from == dead then first else 0, outs[from], e);
    InNeighbour(edges, to, vertices[to].inEdges, ins[to], e);
  }

  // The first out-edge of a dying vertex is taken off the in-list it is on.
  lemma OutEdgeDropped(vertices: Vertices, edges: Edges, outs: Lists, ins: Lists, dead: Id, first: Id,
                       vertices': Vertices, edges': Edges, e: Id, prev: Id)
    requires Inv(vertices, edges, outs, ins, dead, first) && dead in vertices && outs[dead] != [] && ins[dead] == []
    requires e == outs[dead][0] && e in edges && edges[e].from == dead && Listed(vertices, edges, outs, ins, e)
    requires prev == Nth(ins[edges[e].to], IndexOf(ins[edges[e].to], e) - 1)
    requires Destroyed(edges, edges', e, 0, 0, prev, edges[e].inLink)
    requires vertices'.Keys == vertices.Keys
    requires forall v :: v in vertices ==> DroppedInHead(vertices, edges, vertices', dead, e, prev, v)
    ensures Inv(vertices', edges', OutsWithout(edges, outs, e), InsWithout(edges, ins, e), dead, e)
  {
    var to, s := edges[e].to, outs[dead];
    var outs', ins' := OutsWithout(edges, outs, e), InsWithout(edges, ins, e);
    assert ListsOf(vertices, edges, outs, ins, dead, first, dead);
    assert ListsOf(vertices, edges, outs, ins, dead, first, to);
    assert DroppedInHead(vertices, edges, vertices', dead, e, prev, dead);
    assert DroppedInHead(vertices, edges, vertices', dead, e, prev, to);
    OutTail(edges, dead, vertices[dead].outEdges, first, s);
    FirstIndex(s);
    WithoutMembers(s, 0);
    assert Without(s, 0) == s[1..];
    OutSurvives(edges, edges', dead, edges[e].outNext, e, s[1..],
                e) by { KeysNotNull(vertices, edges, outs, ins, dead, first); }
    InAfter(edges, edges', to, vertices[to].inEdges, ins[to], e, prev, 0, 0);
    OffListsKept(vertices, edges, outs, ins, dead, first, edges', e, 0, 0, prev);
    hide OutList, InList, Inv, Without, ListsOf;
    DroppedKeeps(vertices, edges, outs, ins, dead, first, vertices', edges', outs', ins', e, e);
  }

  lemma KeysNotNull(vertices: Vertices, edges: Edges, outs: Lists, ins: Lists, dead: Id, first: Id)
    requires Inv(vertices, edges, outs, ins, dead, first)
    ensures 0 !in edges && 0 !in vertices
  {}

  ghost predicate DroppedInHead(vertices: Vertices, edges: Edges, vertices': Vertices, dead: Id, e: Id, prev: Id, v: Id)
    requires e in edges && v in vertices && v in vertices'
  {
    && vertices'[v].outEdges == (if v == dead then edges[e].outNext else vertices[v].outEdges)
    && vertices'[v].inEdges
       == (if v == edges[e].to then InHead(edges, vertices[v].inEdges, e, prev) else vertices[v].inEdges)
  }

  lemma FirstIndex(s: seq<Id>)
    requires Distinct(s) && s != []
    ensures IndexOf(s, s[0]) == 0
  {}

  // A vertex without edges can go.
  lemma VertexDropped(vertices: Vertices, edges: Edges, outs: Lists, ins: Lists, v: Id, first: Id)
    requires Inv(vertices, edges, outs, ins, v, first) && v in vertices && outs[v] == [] && ins[v] == []
    ensures Inv(vertices - {v}, edges, outs - {v}, ins - {v}, 0, 0)
  {
    hide OutList, InList;
    forall u | u in vertices - {v} ensures ListsOf(vertices - {v}, edges, outs - {v}, ins - {v}, 0, 0, u) {
      assert ListsOf(vertices, edges, outs, ins, v, first, u);
    }
    forall e | e in edges ensures Listed(vertices - {v}, edges, outs - {v}, ins - {v}, e) {
      assert Listed(vertices, edges, outs, ins, e);
    }
  }

  // ---- The arc count -------------------------------------------------------------------------

  // The arcs of all live edges with ids below top.
  ghost function ArcTotal(edges: Edges, top: nat): int {
    if top == 0 then 0 else ArcTotal(edges, top - 1) + if top - 1 in edges then edges[top - 1].arcs else 0
  }

  ghost predicate Below(edges: Edges, top: nat) {
    forall e :: e in edges ==> e < top
  }

  lemma {:induction false} ArcTotalSame(edges: Edges, edges': Edges, top: nat)
    requires forall e :: 0 <= e < top ==> (e in edges <==> e in edges')
    requires forall e :: 0 <= e < top && e in edges ==> edges'[e].arcs == edges[e].arcs
    ensures ArcTotal(edges', top) == ArcTotal(edges, top)
  {
    if top > 0 { ArcTotalSame(edges, edges', top - 1); }
  }

  lemma {:induction false} ArcTotalMore(edges: Edges, top: nat, top': nat)
    requires Below(edges, top) && top <= top'
    ensures ArcTotal(edges, top') == ArcTotal(edges, top)
    decreases top'
  {
    if top < top' { ArcTotalMore(edges, top, top' - 1); }
  }

  // One edge more.
  lemma {:induction false} ArcTotalAdded(edges: Edges, edges': Edges, e: Id, top: nat)
    requires e < top && e !in edges && e in edges'
    requires forall x :: 0 <= x < top && x != e ==> (x in edges <==> x in edges')
    requires forall x :: 0 <= x < top && x in edges ==> x in edges' && edges'[x].arcs == edges[x].arcs
    ensures ArcTotal(edges', top) == ArcTotal(edges, top) + edges'[e].arcs
  {
    if e == top - 1 { ArcTotalSame(edges, edges', top - 1); } else { ArcTotalAdded(edges, edges', e, top - 1); }
  }
}
