// The depth-first orientation of a resistor network. `Net` is the undirected
// network; `Dfs` is what the traversal has built at some moment; the lemmas say
// what each of its steps keeps, whatever loops, parallel resistors and
// self-loops the network has.
module TsGraph {

  // Resistor e joins points a[e] and b[e]; eV[p] lists the resistors at p.
  datatype Net = Net(pointN: nat, a: seq<int>, b: seq<int>, eV: seq<seq<int>>)

  ghost predicate WellFormed(g: Net) {
    && |g.a| == |g.b| && |g.eV| == g.pointN
    && (forall e :: 0 <= e < |g.a| ==> 0 <= g.a[e] < g.pointN && 0 <= g.b[e] < g.pointN)
    && (forall p, i, j :: 0 <= p < g.pointN && 0 <= i < j < |g.eV[p]| ==> g.eV[p][i] != g.eV[p][j])
    && (forall p, k :: 0 <= p < g.pointN && 0 <= k < |g.eV[p]| ==> Touches(g, g.eV[p][k], p))
    && (forall e :: 0 <= e < |g.a| ==> e in g.eV[g.a[e]] && e in g.eV[g.b[e]])
  }

  ghost predicate Touches(g: Net, e: int, p: int)
    requires |g.a| == |g.b|
  {
    0 <= e < |g.a| && (g.a[e] == p || g.b[e] == p)
  }

  // A frame of the stack: edge e, taken at position k of the list of point p.
  datatype Frame = Frame(e: int, p: int, k: nat)

  // from and to give every edge its present direction; ord lists the visited
  // points in order; done[p] counts the edges of p that have been dealt with.
  datatype Dfs = Dfs(from: seq<int>, to: seq<int>, ts: seq<int>, inEdge: seq<int>, ord: seq<int>,
                     done: seq<nat>, frames: seq<Frame>)

  ghost predicate Visited(s: Dfs, p: int) {
    0 <= p < |s.ts| && 0 <= s.ts[p] < |s.ord| && s.ord[s.ts[p]] == p
  }

  ghost predicate Sizes(g: Net, s: Dfs) {
    |s.from| == |s.to| == |g.a| == |g.b| && |s.ts| == |s.inEdge| == |s.done| == |g.eV| == g.pointN
  }

  // Every edge still joins its two points, one way round or the other.
  ghost predicate Directed(g: Net, s: Dfs)
    requires Sizes(g, s)
  {
    forall e :: 0 <= e < |g.a| ==>
      (s.from[e] == g.a[e] && s.to[e] == g.b[e]) || (s.from[e] == g.b[e] && s.to[e] == g.a[e])
  }

  ghost predicate Ordered(g: Net, drv: int, s: Dfs)
    requires Sizes(g, s)
  {
    && |s.ord| > 0 && s.ord[0] == drv
    && forall i :: 0 <= i < |s.ord| ==> 0 <= s.ord[i] < g.pointN && s.ts[s.ord[i]] == i
  }

  // Point number i > 0 was entered by an edge from a lower-numbered point.
  ghost predicate Entered(g: Net, s: Dfs, i: int)
    requires Sizes(g, s) && 0 < i < |s.ord| && 0 <= s.ord[i] < g.pointN
  {
    var e := s.inEdge[s.ord[i]];
    0 <= e < |g.a| && s.to[e] == s.ord[i] && Visited(s, s.from[e]) && s.ts[s.from[e]] < i
  }

  // ... which has been dealt with at that point.
  ghost predicate EntryDone(g: Net, s: Dfs, i: int)
    requires Sizes(g, s) && 0 < i < |s.ord| && 0 <= s.ord[i] < g.pointN
    requires Entered(g, s, i)
  {
    var e := s.inEdge[s.ord[i]];
    var p := s.from[e];
    forall k :: 0 <= k < |g.eV[p]| && g.eV[p][k] == e ==> k < s.done[p]
  }

  ghost predicate TreeEdges(g: Net, s: Dfs)
    requires Sizes(g, s)
  {
    forall i :: 0 < i < |s.ord| ==> 0 <= s.ord[i] < g.pointN && Entered(g, s, i) && EntryDone(g, s, i)
  }

  ghost predicate FrameOk(g: Net, s: Dfs, f: Frame)
    requires Sizes(g, s)
  {
    Visited(s, f.p) && f.k < |g.eV[f.p]| && g.eV[f.p][f.k] == f.e && 0 <= f.e < |g.a| && s.from[f.e] == f.p
  }

  // The point of frame i was entered by the edge of the frame below.
  ghost predicate Linked(drv: int, s: Dfs, i: int)
    requires 0 < i < |s.frames|
  {
    var e, p := s.frames[i - 1].e, s.frames[i].p;
    0 <= p < |s.inEdge| && 0 <= e < |s.to| && s.inEdge[p] == e && s.to[e] == p && p != drv
  }

  // The stack is a path of the tree from the driver. Below the top every edge
  // has been followed; the top one has too unless it is `pending`.
  ghost predicate Stack(g: Net, drv: int, s: Dfs, pending: bool)
    requires Sizes(g, s)
  {
    && (forall i :: 0 <= i < |s.frames| ==> FrameOk(g, s, s.frames[i]))
    && (|s.frames| > 0 ==> s.frames[0].p == drv)
    && (forall i :: 0 < i < |s.frames| ==> Linked(drv, s, i))
    && (forall i :: 0 <= i < |s.frames| ==>
          s.done[s.frames[i].p] == if pending && i == |s.frames| - 1 then s.frames[i].k else s.frames[i].k + 1)
  }

  ghost predicate OnStack(s: Dfs, p: int) {
    exists i :: 0 <= i < |s.frames| && s.frames[i].p == p
  }

  // Both ends of an edge that has been dealt with are visited. A visited point that
  // is off the stack has been dealt with completely.
  ghost predicate PointProgress(g: Net, s: Dfs, p: int)
    requires Sizes(g, s) && 0 <= p < g.pointN
  {
    && s.done[p] <= |g.eV[p]|
    && (!Visited(s, p) ==> s.done[p] == 0)
    && forall k :: 0 <= k < s.done[p] ==> Seen(g, s, g.eV[p][k])
  }

  ghost predicate Seen(g: Net, s: Dfs, e: int)
    requires Sizes(g, s)
  {
    0 <= e < |g.a| && Visited(s, g.a[e]) && Visited(s, g.b[e])
  }

  ghost predicate Progress(g: Net, s: Dfs)
    requires Sizes(g, s)
  {
    forall p :: 0 <= p < g.pointN ==> PointProgress(g, s, p)
  }

  // ... and a visited point off the stack has been dealt with completely.
  ghost predicate Complete(g: Net, s: Dfs, p: int)
    requires Sizes(g, s) && 0 <= p < g.pointN
  {
    Visited(s, p) && !OnStack(s, p) ==> s.done[p] == |g.eV[p]|
  }

  ghost predicate Common(g: Net, drv: int, s: Dfs, pending: bool) {
    && WellFormed(g) && Sizes(g, s) && Directed(g, s) && Ordered(g, drv, s) && TreeEdges(g, s)
    && Stack(g, drv, s, pending) && Progress(g, s)
  }

  // Between two steps. If `pending`, the edge on top has yet to be looked at.
  ghost predicate Inv(g: Net, drv: int, s: Dfs, pending: bool) {
    && Common(g, drv, s, pending)
    && (forall p :: 0 <= p < g.pointN ==> Complete(g, s, p))
    && (pending ==> |s.frames| > 0)
  }

  // Scanning the edges of point cur, which the edge on top leads to.
  ghost predicate Scanning(g: Net, drv: int, s: Dfs, cur: int) {
    && Common(g, drv, s, false)
    && (forall p :: 0 <= p < g.pointN && p != cur ==> Complete(g, s, p))
    && Visited(s, cur) && !OnStack(s, cur)
    && (|s.frames| == 0 ==> cur == drv)
    && (|s.frames| > 0 ==> s.inEdge[cur] == Top(s).e && s.to[Top(s).e] == cur && cur != drv)
  }

  // ---- The steps -------------------------------------------------------------

  // s' has the tree of s and maybe more: every tree edge of s still enters the
  // same point from the same side.
  ghost predicate TreeKept(s: Dfs, s': Dfs) {
    && s.ord <= s'.ord && |s'.from| == |s.from| && |s'.to| == |s.to| && |s'.inEdge| == |s.inEdge|
    && forall i :: 0 < i < |s.ord| ==> EntryKept(s, s', s.ord[i])
  }

  ghost predicate EntryKept(s: Dfs, s': Dfs, p: int) {
    0 <= p < |s.inEdge| <= |s'.inEdge| && s'.inEdge[p] == s.inEdge[p]
    && var e := s.inEdge[p];
       0 <= e < |s.from| && e < |s.to| && e < |s'.from| && e < |s'.to| && s'.from[e] == s.from[e] && s'.to[e] == s.to[e]
  }

  lemma TreeKeptTransitive(a: Dfs, b: Dfs, c: Dfs)
    requires TreeKept(a, b) && TreeKept(b, c)
    ensures TreeKept(a, c)
  {
    forall i | 0 < i < |a.ord| ensures EntryKept(a, c, a.ord[i]) {
      assert EntryKept(a, b, a.ord[i]) && b.ord[i] == a.ord[i] && EntryKept(b, c, b.ord[i]);
    }
  }

  lemma TreeKeptSame(g: Net, s: Dfs, s': Dfs)
    requires Sizes(g, s) && TreeEdges(g, s)
    requires s'.ord == s.ord && s'.inEdge == s.inEdge && s'.from == s.from && s'.to == s.to
    ensures TreeKept(s, s')
  {
    forall i | 0 < i < |s.ord| ensures EntryKept(s, s', s.ord[i]) { assert Entered(g, s, i); }
  }

  function Orient(s: Dfs, p: int, e: int): Dfs
    requires 0 <= e < |s.from| == |s.to|
  {
    if s.from[e] != p then s.(to := s.to[e := s.from[e]], from := s.from[e := p]) else s
  }

  // The edge on top leads to a point already visited.
  ghost function Close(s: Dfs): Dfs
    requires |s.frames| > 0 && 0 <= s.frames[|s.frames| - 1].p < |s.done|
  {
    var f := s.frames[|s.frames| - 1];
    s.(done := s.done[f.p := f.k + 1])
  }

  // The edge on top leads to a new point q.
  ghost function Visit(s: Dfs, q: int): Dfs
    requires |s.frames| > 0 && 0 <= s.frames[|s.frames| - 1].p < |s.done|
    requires 0 <= q < |s.ts| == |s.inEdge|
  {
    var f := s.frames[|s.frames| - 1];
    s.(ord := s.ord + [q], ts := s.ts[q := |s.ord|], inEdge := s.inEdge[q := f.e], done := s.done[f.p := f.k + 1])
  }

  // Position k of point p goes on the stack.
  ghost function Push(g: Net, s: Dfs, p: int, k: nat): Dfs
    requires 0 <= p < |g.eV| && k < |g.eV[p]| && 0 <= p < |s.done|
    requires 0 <= g.eV[p][k] < |s.from| == |s.to|
  {
    var e := g.eV[p][k];
    Orient(s, p, e).(done := s.done[p := k], frames := s.frames + [Frame(e, p, k)])
  }

  ghost function Pop(s: Dfs): Dfs
    requires |s.frames| > 0
  {
    s.(frames := s.frames[..|s.frames| - 1])
  }

  ghost function Done(s: Dfs, p: int, k: nat): Dfs
    requires 0 <= p < |s.done|
  {
    s.(done := s.done[p := k])
  }

  ghost function Top(s: Dfs): Frame
    requires |s.frames| > 0
  {
    s.frames[|s.frames| - 1]
  }

  lemma StackIncreases(g: Net, drv: int, s: Dfs, pending: bool, i: nat, j: nat)
    requires Common(g, drv, s, pending) && i < j < |s.frames|
    ensures s.ts[s.frames[i].p] < s.ts[s.frames[j].p]
    decreases j
  {
    hide WellFormed, Progress, EntryDone, Directed;
    assert FrameOk(g, s, s.frames[j]) && FrameOk(g, s, s.frames[j - 1]) && Linked(drv, s, j);
    assert Entered(g, s, s.ts[s.frames[j].p]);
    if i < j - 1 { StackIncreases(g, drv, s, pending, i, j - 1); }
  }

  // ... so neither a point nor an edge is on the stack twice.
  lemma StackDistinct(g: Net, drv: int, s: Dfs, pending: bool)
    requires Common(g, drv, s, pending)
    ensures forall i, j :: 0 <= i < |s.frames| && 0 <= j < |s.frames| && i != j ==>
      s.frames[i].p != s.frames[j].p && s.frames[i].e != s.frames[j].e
  {
    hide WellFormed, Progress, TreeEdges, Directed;
    forall i, j | 0 <= i < |s.frames| && 0 <= j < |s.frames| && i != j
      ensures s.frames[i].p != s.frames[j].p && s.frames[i].e != s.frames[j].e
    {
      assert FrameOk(g, s, s.frames[i]) && FrameOk(g, s, s.frames[j]);
      if i < j { StackIncreases(g, drv, s, pending, i, j); } else { StackIncreases(g, drv, s, pending, j, i); }
    }
  }

  // Visiting no point and moving no edge, with `done` not reduced, keeps the tree.
  lemma TreeEdgesSame(g: Net, s: Dfs, s': Dfs)
    requires Sizes(g, s) && Sizes(g, s') && TreeEdges(g, s)
    requires s'.ord == s.ord && s'.ts == s.ts && s'.inEdge == s.inEdge && s'.from == s.from && s'.to == s.to
    requires forall p :: 0 <= p < g.pointN ==> s'.done[p] >= s.done[p]
    ensures TreeEdges(g, s')
  {
    forall i | 0 < i < |s'.ord| ensures 0 <= s'.ord[i] < g.pointN && Entered(g, s', i) && EntryDone(g, s', i) {
      assert Entered(g, s, i) && EntryDone(g, s, i);
    }
  }

  lemma StackPrefix(g: Net, drv: int, s: Dfs, s': Dfs, m: nat)
    requires Sizes(g, s) && Sizes(g, s') && Stack(g, drv, s, false) && m <= |s.frames| && s'.frames == s.frames[..m]
    requires s'.ord == s.ord && s'.ts == s.ts && s'.inEdge == s.inEdge && s'.from == s.from && s'.to == s.to
    requires forall i :: 0 <= i < m ==> 0 <= s.frames[i].p < g.pointN && s'.done[s.frames[i].p] == s.done[s.frames[i].p]
    ensures Stack(g, drv, s', false)
  {
    forall i | 0 <= i < m ensures FrameOk(g, s', s'.frames[i]) { assert FrameOk(g, s, s.frames[i]); }
    forall i | 0 < i < m ensures Linked(drv, s', i) { assert Linked(drv, s, i); }
  }

  lemma SeenSame(g: Net, s: Dfs, s': Dfs, p: int)
    requires Sizes(g, s) && Sizes(g, s') && 0 <= p < g.pointN && s'.ord == s.ord && s'.ts == s.ts
    ensures Visited(s, p) == Visited(s', p)
    ensures forall e :: Seen(g, s, e) ==> Seen(g, s', e)
  {}

  // Dealing with one more edge of p whose ends are both visited.
  lemma ProgressOne(g: Net, s: Dfs, p: int)
    requires Sizes(g, s) && Progress(g, s) && 0 <= p < g.pointN && Visited(s, p)
    requires s.done[p] < |g.eV[p]| && Seen(g, s, g.eV[p][s.done[p]])
    ensures Progress(g, Done(s, p, s.done[p] + 1))
  {
    var s' := Done(s, p, s.done[p] + 1);
    forall q | 0 <= q < g.pointN ensures PointProgress(g, s', q) {
      assert PointProgress(g, s, q);
      SeenSame(g, s, s', q);
    }
  }

  lemma CloseKeeps(g: Net, drv: int, s: Dfs)
    requires Inv(g, drv, s, true) && Visited(s, s.to[Top(s).e])
    ensures Inv(g, drv, Close(s), false)
  {
    var s', f := Close(s), Top(s);
    StackDistinct(g, drv, s, true);
    TreeEdgesSame(g, s, s');
    assert FrameOk(g, s, f) && Seen(g, s, f.e);
    ProgressOne(g, s, f.p);
    CloseStack(g, drv, s);
  }

  lemma CloseStack(g: Net, drv: int, s: Dfs)
    requires Inv(g, drv, s, true) && Visited(s, s.to[Top(s).e])
    ensures Stack(g, drv, Close(s), false)
    ensures forall p :: 0 <= p < g.pointN ==> Complete(g, Close(s), p)
  {
    StackDistinct(g, drv, s, true);
    FramePoints(g, drv, s, true);
    hide WellFormed, Progress, TreeEdges, Directed, Ordered, Complete, Stack;
    ClosedFrames(g, drv, s);
    CloseComplete(g, drv, s);
  }

  lemma ClosedFrames(g: Net, drv: int, s: Dfs)
    requires Sizes(g, s) && Stack(g, drv, s, true) && |s.frames| > 0 && 0 <= Top(s).p < |s.done|
    requires forall i :: 0 <= i < |s.frames| - 1 ==> s.frames[i].p != Top(s).p
    ensures Stack(g, drv, Close(s), false)
  {
    var s' := Close(s);
    forall i | 0 <= i < |s'.frames| ensures FrameOk(g, s', s'.frames[i]) { assert FrameOk(g, s, s.frames[i]); }
    forall i | 0 < i < |s'.frames| ensures Linked(drv, s', i) { assert Linked(drv, s, i); }
  }

  lemma CloseComplete(g: Net, drv: int, s: Dfs)
    requires Inv(g, drv, s, true) && Visited(s, s.to[Top(s).e])
    ensures 0 <= Top(s).p < |s.done| && forall p :: 0 <= p < g.pointN ==> Complete(g, Close(s), p)
  {
    FramePoints(g, drv, s, true);
    hide WellFormed, Progress, TreeEdges, Directed, Ordered, Stack;
    var s' := Close(s);
    forall p | 0 <= p < g.pointN ensures Complete(g, s', p) {
      assert Complete(g, s, p) && Visited(s, p) == Visited(s', p) && OnStack(s, p) == OnStack(s', p);
    }
  }

  lemma FramePoints(g: Net, drv: int, s: Dfs, pending: bool)
    requires Sizes(g, s) && Stack(g, drv, s, pending)
    ensures forall i :: 0 <= i < |s.frames| ==> FrameOk(g, s, s.frames[i]) && 0 <= s.frames[i].p < g.pointN
  {}

  // The top frame is taken off: its point is scanned on.
  lemma PopKeeps(g: Net, drv: int, s: Dfs)
    requires Inv(g, drv, s, false) && |s.frames| > 0
    ensures Scanning(g, drv, Pop(s), Top(s).p)
    ensures Pop(s).done[Top(s).p] == Top(s).k + 1
  {
    hide WellFormed, TreeEdges, Progress, Complete;
    StackDistinct(g, drv, s, false);
    FramePoints(g, drv, s, false);
    assert FrameOk(g, s, Top(s));
    var m := |s.frames| - 1;
    if m > 0 { assert Linked(drv, s, m); }
    TreeEdgesSame(g, s, Pop(s));
    StackPrefix(g, drv, s, Pop(s), m);
    PopProgress(g, s);
  }

  lemma PopProgress(g: Net, s: Dfs)
    requires Sizes(g, s) && Progress(g, s) && |s.frames| > 0
    requires forall p :: 0 <= p < g.pointN ==> Complete(g, s, p)
    ensures Progress(g, Pop(s)) && forall p :: 0 <= p < g.pointN && p != Top(s).p ==> Complete(g, Pop(s), p)
  {
    var s' := Pop(s);
    forall p | 0 <= p < g.pointN ensures PointProgress(g, s', p) && (p != Top(s).p ==> Complete(g, s', p)) {
      assert PointProgress(g, s, p) && Complete(g, s, p);
      SeenSame(g, s, s', p);
      if OnStack(s, p) && p != Top(s).p {
        var i :| 0 <= i < |s.frames| && s.frames[i].p == p;
        assert s'.frames[i].p == p;
      }
    }
  }

  // An edge of the scanned point whose ends are both visited is passed over.
  lemma SkipKeeps(g: Net, drv: int, s: Dfs, cur: int)
    requires Scanning(g, drv, s, cur)
    requires s.done[cur] < |g.eV[cur]| && Seen(g, s, g.eV[cur][s.done[cur]])
    ensures Scanning(g, drv, Done(s, cur, s.done[cur] + 1), cur)
  {
    hide WellFormed, TreeEdges, Stack, Progress, Complete, OnStack;
    var s' := Done(s, cur, s.done[cur] + 1);
    TreeEdgesSame(g, s, s');
    ProgressOne(g, s, cur);
    FramePoints(g, drv, s, false);
    NotOnStack(s, cur);
    StackPrefix(g, drv, s, s', |s.frames|);
    SkipComplete(g, s, cur, s.done[cur] + 1);
  }

  lemma NotOnStack(s: Dfs, p: int)
    requires !OnStack(s, p)
    ensures forall i :: 0 <= i < |s.frames| ==> s.frames[i].p != p
  {}

  lemma SkipComplete(g: Net, s: Dfs, cur: int, k: nat)
    requires Sizes(g, s) && 0 <= cur < g.pointN && !OnStack(s, cur)
    requires forall p :: 0 <= p < g.pointN && p != cur ==> Complete(g, s, p)
    ensures forall p :: 0 <= p < g.pointN && p != cur ==> Complete(g, Done(s, cur, k), p)
    ensures !OnStack(Done(s, cur, k), cur)
  {
    forall p | 0 <= p < g.pointN && p != cur ensures Complete(g, Done(s, cur, k), p) {
      assert Complete(g, s, p) && OnStack(s, p) == OnStack(Done(s, cur, k), p);
    }
  }

  // A point with no edge left is done.
  lemma FinishKeeps(g: Net, drv: int, s: Dfs, cur: int)
    requires Scanning(g, drv, s, cur) && s.done[cur] == |g.eV[cur]|
    ensures Inv(g, drv, s, false)
  {}

  // An edge that is not the one cur was entered by is not a tree edge.
  lemma NotTreeEdge(g: Net, drv: int, s: Dfs, cur: int, i: int)
    requires Scanning(g, drv, s, cur) && s.done[cur] < |g.eV[cur]|
    requires |s.frames| > 0 ==> g.eV[cur][s.done[cur]] != Top(s).e
    requires 0 < i < |s.ord|
    ensures s.inEdge[s.ord[i]] != g.eV[cur][s.done[cur]]
  {
    hide Stack, Progress, Complete;
    assert Entered(g, s, i) && EntryDone(g, s, i);
    assert Touches(g, g.eV[cur][s.done[cur]], cur);
  }

  // The next edge of cur goes on the stack, directed away from cur.
  lemma PushKeeps(g: Net, drv: int, s: Dfs, cur: int)
    requires Scanning(g, drv, s, cur) && s.done[cur] < |g.eV[cur]|
    requires |s.frames| > 0 ==> g.eV[cur][s.done[cur]] != Top(s).e
    ensures Touches(g, g.eV[cur][s.done[cur]], cur)
    ensures Inv(g, drv, Push(g, s, cur, s.done[cur]), true)
    ensures TreeKept(s, Push(g, s, cur, s.done[cur]))
  {
    var k := s.done[cur];
    assert Touches(g, g.eV[cur][k], cur);
    PushTree(g, drv, s, cur);
    PushOffStack(g, drv, s, cur);
    hide WellFormed, TreeEdges, Stack, Progress, Complete;
    PushStack(g, drv, s, cur, k);
    PushProgress(g, s, cur, k);
    assert Push(g, s, cur, k).done == s.done;
  }

  lemma PushTree(g: Net, drv: int, s: Dfs, cur: int)
    requires Scanning(g, drv, s, cur) && s.done[cur] < |g.eV[cur]|
    requires |s.frames| > 0 ==> g.eV[cur][s.done[cur]] != Top(s).e
    requires Touches(g, g.eV[cur][s.done[cur]], cur)
    ensures TreeEdges(g, Push(g, s, cur, s.done[cur])) && Directed(g, Push(g, s, cur, s.done[cur]))
    ensures TreeKept(s, Push(g, s, cur, s.done[cur]))
  {
    hide WellFormed, Stack, Progress, Complete, TreeKept;
    var s' := Push(g, s, cur, s.done[cur]);
    assert s'.done == s.done;
    forall i | 0 < i < |s'.ord| ensures 0 <= s'.ord[i] < g.pointN && Entered(g, s', i) && EntryDone(g, s', i) {
      assert Entered(g, s, i) && EntryDone(g, s, i);
      NotTreeEdge(g, drv, s, cur, i);
    }
    PushKeepsTree(g, drv, s, cur);
  }

  lemma PushKeepsTree(g: Net, drv: int, s: Dfs, cur: int)
    requires Scanning(g, drv, s, cur) && s.done[cur] < |g.eV[cur]|
    requires |s.frames| > 0 ==> g.eV[cur][s.done[cur]] != Top(s).e
    requires Touches(g, g.eV[cur][s.done[cur]], cur)
    ensures TreeKept(s, Push(g, s, cur, s.done[cur]))
  {
    hide WellFormed, Stack, Progress, Complete, EntryDone, Directed;
    var s' := Push(g, s, cur, s.done[cur]);
    forall i | 0 < i < |s.ord| ensures EntryKept(s, s', s.ord[i]) {
      assert Entered(g, s, i);
      NotTreeEdge(g, drv, s, cur, i);
    }
  }

  // The edge that is pushed is on no frame yet.
  lemma PushOffStack(g: Net, drv: int, s: Dfs, cur: int)
    requires Scanning(g, drv, s, cur) && s.done[cur] < |g.eV[cur]|
    requires |s.frames| > 0 ==> g.eV[cur][s.done[cur]] != Top(s).e
    ensures forall i :: 0 <= i < |s.frames| ==> s.frames[i].e != g.eV[cur][s.done[cur]]
  {
    FramePoints(g, drv, s, false);
    forall i | 0 <= i < |s.frames| ensures s.frames[i].e != g.eV[cur][s.done[cur]] {
      if i < |s.frames| - 1 {
        assert FrameOk(g, s, s.frames[i + 1]) && Linked(drv, s, i + 1);
        hide WellFormed, TreeEdges, Stack, Progress, Complete;
        NotTreeEdge(g, drv, s, cur, s.ts[s.frames[i + 1].p]);
      }
    }
  }

  lemma PushStack(g: Net, drv: int, s: Dfs, cur: int, k: nat)
    requires Sizes(g, s) && Stack(g, drv, s, false) && Visited(s, cur) && !OnStack(s, cur) && k < |g.eV[cur]|
    requires 0 <= g.eV[cur][k] < |g.a|
    requires forall i :: 0 <= i < |s.frames| ==> s.frames[i].e != g.eV[cur][k]
    requires |s.frames| == 0 ==> cur == drv
    requires |s.frames| > 0 ==> s.inEdge[cur] == Top(s).e && s.to[Top(s).e] == cur && cur != drv
    ensures Stack(g, drv, Push(g, s, cur, k), true)
  {
    var e, m := g.eV[cur][k], |s.frames|;
    var s' := Push(g, s, cur, k);
    NotOnStack(s, cur);
    FramePoints(g, drv, s, false);
    forall i | 0 <= i < |s'.frames| ensures FrameOk(g, s', s'.frames[i]) {
      if i < m { assert FrameOk(g, s, s.frames[i]); }
    }
    forall i | 0 < i < |s'.frames| ensures Linked(drv, s', i) {
      if i < m { assert Linked(drv, s, i) && FrameOk(g, s, s.frames[i - 1]); }
    }
  }

  lemma PushProgress(g: Net, s: Dfs, cur: int, k: nat)
    requires Sizes(g, s) && Progress(g, s) && 0 <= cur < g.pointN && k == s.done[cur] < |g.eV[cur]|
    requires 0 <= g.eV[cur][k] < |g.a|
    requires forall p :: 0 <= p < g.pointN && p != cur ==> Complete(g, s, p)
    ensures Progress(g, Push(g, s, cur, k)) && forall p :: 0 <= p < g.pointN ==> Complete(g, Push(g, s, cur, k), p)
  {
    var s' := Push(g, s, cur, k);
    forall p | 0 <= p < g.pointN ensures PointProgress(g, s', p) && Complete(g, s', p) {
      assert PointProgress(g, s, p) && (p != cur ==> Complete(g, s, p));
      SeenSame(g, s, s', p);
      if OnStack(s, p) {
        var i :| 0 <= i < |s.frames| && s.frames[i].p == p;
        assert s'.frames[i].p == p;
      }
      if p == cur { assert s'.frames[|s.frames|].p == p; }
    }
  }

  // The edge on top leads to a new point, which is scanned next.
  lemma VisitKeeps(g: Net, drv: int, s: Dfs)
    requires Inv(g, drv, s, true) && !Visited(s, s.to[Top(s).e])
    ensures 0 <= s.to[Top(s).e] < g.pointN
    ensures Scanning(g, drv, Visit(s, s.to[Top(s).e]), s.to[Top(s).e])
    ensures Visit(s, s.to[Top(s).e]).done[s.to[Top(s).e]] == 0
    ensures TreeKept(s, Visit(s, s.to[Top(s).e]))
  {
    hide WellFormed, TreeEdges, Progress;
    StackDistinct(g, drv, s, true);
    FramePoints(g, drv, s, true);
    var f := Top(s);
    var q := s.to[f.e];
    assert FrameOk(g, s, f);
    EndInRange(g, s, f.e);
    VisitedAfter(g, drv, s, q);
    VisitTree(g, drv, s);
    NothingDone(g, s, q);
    PendingDone(g, drv, s);
    VisitProgress(g, s, q);
    VisitStack(g, drv, s, q);
    hide Stack, Complete, FrameOk;
  }

  lemma EndInRange(g: Net, s: Dfs, e: int)
    requires WellFormed(g) && Sizes(g, s) && Directed(g, s) && 0 <= e < |g.a|
    ensures 0 <= s.to[e] < g.pointN
  {}

  lemma NothingDone(g: Net, s: Dfs, q: int)
    requires Sizes(g, s) && Progress(g, s) && 0 <= q < g.pointN && !Visited(s, q)
    ensures s.done[q] == 0
  {
    assert PointProgress(g, s, q);
  }

  lemma VisitStack(g: Net, drv: int, s: Dfs, q: int)
    requires Sizes(g, s) && Stack(g, drv, s, true) && |s.frames| > 0
    requires forall i :: 0 <= i < |s.frames| ==> FrameOk(g, s, s.frames[i])
    requires forall i, j :: 0 <= i < j < |s.frames| ==> s.frames[i].p != s.frames[j].p
    requires 0 <= q < g.pointN && !Visited(s, q)
    requires forall p :: Visited(Visit(s, q), p) <==> Visited(s, p) || p == q
    ensures Stack(g, drv, Visit(s, q), false) && !OnStack(Visit(s, q), q)
  {
    var s' := Visit(s, q);
    forall i | 0 < i < |s'.frames| ensures Linked(drv, s', i) {
      assert Linked(drv, s, i) && FrameOk(g, s, s.frames[i]);
    }
    forall i | 0 <= i < |s'.frames| ensures FrameOk(g, s', s'.frames[i]) { assert FrameOk(g, s, s.frames[i]); }
  }

  lemma VisitedAfter(g: Net, drv: int, s: Dfs, q: int)
    requires Sizes(g, s) && Ordered(g, drv, s) && |s.frames| > 0 && 0 <= Top(s).p < g.pointN
    requires 0 <= q < g.pointN && !Visited(s, q)
    ensures forall p :: Visited(Visit(s, q), p) <==> Visited(s, p) || p == q
    ensures Ordered(g, drv, Visit(s, q))
  {
    forall i | 0 <= i < |s.ord| ensures s.ord[i] != q {}
  }

  lemma VisitTree(g: Net, drv: int, s: Dfs)
    requires Inv(g, drv, s, true) && !Visited(s, s.to[Top(s).e])
    requires 0 <= Top(s).p < g.pointN && 0 <= s.to[Top(s).e] < g.pointN && FrameOk(g, s, Top(s))
    ensures TreeEdges(g, Visit(s, s.to[Top(s).e])) && TreeKept(s, Visit(s, s.to[Top(s).e]))
  {
    hide Stack, Progress, Complete, Directed, TreeKept;
    var f := Top(s);
    var q := s.to[f.e];
    var s' := Visit(s, q);
    VisitedAfter(g, drv, s, q);
    assert s.done[f.p] <= f.k + 1 by { PendingDone(g, drv, s); }
    forall i | 0 < i < |s'.ord| ensures 0 <= s'.ord[i] < g.pointN && Entered(g, s', i) && EntryDone(g, s', i) {
      if i < |s.ord| {
        assert Entered(g, s, i) && EntryDone(g, s, i);
      } else {
        forall k | 0 <= k < |g.eV[f.p]| && g.eV[f.p][k] == f.e ensures k == f.k {}
      }
    }
    VisitKeepsTree(g, drv, s);
  }

  lemma VisitKeepsTree(g: Net, drv: int, s: Dfs)
    requires Inv(g, drv, s, true) && !Visited(s, s.to[Top(s).e])
    requires 0 <= Top(s).p < g.pointN && 0 <= s.to[Top(s).e] < g.pointN && FrameOk(g, s, Top(s))
    ensures TreeKept(s, Visit(s, s.to[Top(s).e]))
  {
    hide Stack, Progress, Complete, Directed, EntryDone, WellFormed;
    var s' := Visit(s, s.to[Top(s).e]);
    forall i | 0 < i < |s.ord| ensures EntryKept(s, s', s.ord[i]) { assert Entered(g, s, i); }
  }

  lemma PendingDone(g: Net, drv: int, s: Dfs)
    requires Sizes(g, s) && Stack(g, drv, s, true) && |s.frames| > 0 && 0 <= Top(s).p < g.pointN
    ensures s.done[Top(s).p] == Top(s).k
  {}

  lemma VisitProgress(g: Net, s: Dfs, q: int)
    requires Sizes(g, s) && Progress(g, s) && |s.frames| > 0 && FrameOk(g, s, Top(s)) && s.done[Top(s).p] == Top(s).k
    requires 0 <= q < g.pointN && !Visited(s, q) && {g.a[Top(s).e], g.b[Top(s).e]} == {Top(s).p, q}
    requires forall p :: 0 <= p < g.pointN ==> Complete(g, s, p)
    requires forall p :: Visited(Visit(s, q), p) <==> Visited(s, p) || p == q
    ensures Progress(g, Visit(s, q)) && forall p :: 0 <= p < g.pointN && p != q ==> Complete(g, Visit(s, q), p)
  {
    var s', f := Visit(s, q), Top(s);
    assert OnStack(s, f.p);
    forall p | 0 <= p < g.pointN ensures PointProgress(g, s', p) && (p != q ==> Complete(g, s', p)) {
      assert PointProgress(g, s, p) && Complete(g, s, p) && OnStack(s, p) == OnStack(s', p);
      forall k | 0 <= k < s'.done[p] ensures Seen(g, s', g.eV[p][k]) {
        if p != f.p || k < f.k {
          assert Seen(g, s, g.eV[p][k]);
        } else {
          assert g.eV[p][k] == f.e && g.a[f.e] in {f.p, q} && g.b[f.e] in {f.p, q};
        }
      }
    }
  }

  // At the start only the driver is visited, and is about to be scanned.
  lemma InitKeeps(g: Net, drv: int, s: Dfs)
    requires WellFormed(g) && Sizes(g, s) && Directed(g, s) && 0 <= drv < g.pointN
    requires s.ord == [drv] && s.ts[drv] == 0 && s.frames == []
    requires forall p :: 0 <= p < g.pointN ==> s.done[p] == 0
    ensures Scanning(g, drv, s, drv)
  {}

  // ---- How much is left --------------------------------------------------------

  // The edges that the first n points have yet to deal with.
  ghost function Left(g: Net, done: seq<nat>, n: nat): int
    requires n <= |done| == |g.eV|
  {
    if n == 0 then 0 else Left(g, done, n - 1) + |g.eV[n - 1]| - done[n - 1]
  }

  lemma {:induction false} LeftNonNeg(g: Net, done: seq<nat>, n: nat)
    requires n <= |done| == |g.eV|
    requires forall p :: 0 <= p < n ==> done[p] <= |g.eV[p]|
    ensures Left(g, done, n) >= 0
  {
    if n > 0 { LeftNonNeg(g, done, n - 1); }
  }

  lemma {:induction false} LeftUpdate(g: Net, done: seq<nat>, p: nat, k: nat, n: nat)
    requires p < |done| == |g.eV| && n <= |done|
    ensures Left(g, done[p := k], n) == Left(g, done, n) - if p < n then k - done[p] else 0
  {
    if n > 0 { LeftUpdate(g, done, p, k, n - 1); }
  }

  // ---- What is reached -----------------------------------------------------------

  ghost function Other(g: Net, e: int, p: int): int
    requires |g.a| == |g.b| && Touches(g, e, p)
  {
    if g.a[e] == p then g.b[e] else g.a[e]
  }

  // The edges es lead from x to y.
  ghost predicate Walk(g: Net, x: int, es: seq<int>, y: int)
    requires |g.a| == |g.b|
    decreases |es|
  {
    if es == [] then x == y else Touches(g, es[0], x) && Walk(g, Other(g, es[0], x), es[1..], y)
  }

  ghost predicate Reachable(g: Net, x: int, y: int)
    requires |g.a| == |g.b|
  {
    exists es :: Walk(g, x, es, y)
  }

  lemma {:induction false} WalkOn(g: Net, x: int, es: seq<int>, y: int, e: int)
    requires |g.a| == |g.b| && Walk(g, x, es, y) && Touches(g, e, y)
    ensures Walk(g, x, es + [e], Other(g, e, y))
    decreases |es|
  {
    if es == [] {
      assert (es + [e])[1..] == [];
    } else {
      WalkOn(g, Other(g, es[0], x), es[1..], y, e);
      assert (es + [e])[1..] == es[1..] + [e];
    }
  }

  lemma {:induction false} OrderedReachable(g: Net, drv: int, s: Dfs, i: nat)
    requires Common(g, drv, s, false) && i < |s.ord|
    ensures Reachable(g, drv, s.ord[i])
    decreases i
  {
    if i == 0 {
      assert Walk(g, drv, [], drv);
    } else {
      hide WellFormed, Progress, Stack;
      assert Entered(g, s, i);
      var e := s.inEdge[s.ord[i]];
      OrderedReachable(g, drv, s, s.ts[s.from[e]]);
      var es :| Walk(g, drv, es, s.from[e]);
      WalkOn(g, drv, es, s.from[e], e);
      assert Other(g, e, s.from[e]) == s.ord[i];
    }
  }

  // With the stack empty, the visited points are closed under the edges.
  lemma {:induction false} WalkVisited(g: Net, drv: int, s: Dfs, x: int, es: seq<int>, y: int)
    requires Inv(g, drv, s, false) && s.frames == [] && Visited(s, x) && Walk(g, x, es, y)
    ensures Visited(s, y)
    decreases |es|
  {
    if es != [] {
      assert PointProgress(g, s, x) && Complete(g, s, x) && !OnStack(s, x);
      assert es[0] in g.eV[x];
      var k :| 0 <= k < |g.eV[x]| && g.eV[x][k] == es[0];
      assert Seen(g, s, g.eV[x][k]);
      WalkVisited(g, drv, s, Other(g, es[0], x), es[1..], y);
    }
  }

  // When the traversal ends it has visited exactly the points that the driver
  // reaches.
  lemma VisitedIffReachable(g: Net, drv: int, s: Dfs, p: int)
    requires Inv(g, drv, s, false) && s.frames == []
    ensures Visited(s, p) <==> Reachable(g, drv, p)
  {
    if Visited(s, p) { OrderedReachable(g, drv, s, s.ts[p]); }
    if Reachable(g, drv, p) {
      var es :| Walk(g, drv, es, p);
      assert Visited(s, drv);
      WalkVisited(g, drv, s, drv, es, p);
    }
  }

  // A stack of distinct edges is no longer than the list of edges.
  lemma {:induction false} DistinctBounded(xs: seq<int>, n: nat)
    requires forall i :: 0 <= i < |xs| ==> 0 <= xs[i] < n
    requires forall i, j :: 0 <= i < j < |xs| ==> xs[i] != xs[j]
    ensures |xs| <= n
  {
    if xs != [] {
      assert 0 <= xs[0] < n;
      if i :| 0 <= i < |xs| && xs[i] == n - 1 {
        DistinctBounded(xs[..i] + xs[i + 1..], n - 1);
      } else {
        DistinctBounded(xs, n - 1);
      }
    }
  }

  // ---- The traversal -----------------------------------------------------------

  // xs lists edges below n that touch p, in increasing order.
  ghost predicate Listed(from: seq<int>, to: seq<int>, xs: seq<int>, p: int, n: nat)
    requires n <= |from| == |to|
  {
    && (forall k :: 0 <= k < |xs| ==> 0 <= xs[k] < n && (from[xs[k]] == p || to[xs[k]] == p))
    && forall i, j :: 0 <= i < j < |xs| ==> xs[i] < xs[j]
  }

  // The first n edges are listed, and nothing else.
  ghost predicate AllListed(from: seq<int>, to: seq<int>, eV: seq<seq<int>>, n: nat) {
    && n <= |from| == |to|
    && (forall p :: 0 <= p < |eV| ==> Listed(from, to, eV[p], p, n))
    && forall d :: 0 <= d < n ==> 0 <= from[d] < |eV| && 0 <= to[d] < |eV| && d in eV[from[d]] && d in eV[to[d]]
  }

  lemma ListEdge(from: seq<int>, to: seq<int>, eV: seq<seq<int>>, e: nat)
    requires e < |from| && AllListed(from, to, eV, e) && 0 <= from[e] < |eV| && 0 <= to[e] < |eV|
    ensures var V := eV[from[e] := eV[from[e]] + [e]];
      AllListed(from, to, if to[e] != from[e] then V[to[e] := V[to[e]] + [e]] else V, e + 1)
  {
    var p, q := from[e], to[e];
    var V := eV[p := eV[p] + [e]];
    var V' := if q != p then V[q := V[q] + [e]] else V;
    hide Listed;
    assert V'[p] == eV[p] + [e] && V'[q] == eV[q] + [e];
    forall x | 0 <= x < |V'| ensures Listed(from, to, V'[x], x, e + 1) {
      ListedNext(from, to, eV[x], x, e);
    }
    forall d | 0 <= d < e + 1 ensures d in V'[from[d]] && d in V'[to[d]] {
      InExtended(eV, V', p, q, e, from[d], d);
      InExtended(eV, V', p, q, e, to[d], d);
    }
  }

  lemma ListedNext(from: seq<int>, to: seq<int>, xs: seq<int>, p: int, e: nat)
    requires e < |from| == |to| && Listed(from, to, xs, p, e)
    ensures Listed(from, to, xs, p, e + 1)
    ensures from[e] == p || to[e] == p ==> Listed(from, to, xs + [e], p, e + 1)
  {}

  lemma InExtended(eV: seq<seq<int>>, eV': seq<seq<int>>, p: int, q: int, e: int, x: int, d: int)
    requires |eV'| == |eV| && 0 <= x < |eV|
    requires forall y :: 0 <= y < |eV| ==> eV'[y] == if y == p || y == q then eV[y] + [e] else eV[y]
    requires d in eV[x] || (d == e && (x == p || x == q))
    ensures d in eV'[x]
  {
    if d !in eV[x] { assert eV'[x][|eV[x]|] == e; }
  }

  class TsWork {
    const pointN: nat
    const edgeN: nat
    var eV: seq<seq<int>>
    const from: array<int>
    const to: array<int>
    const visited: array<bool>
    const ts: array<int>
    const inEdge: array<int>
    const pordV: array<int>
    const stackV: array<int>
    var ordN: nat
    var stackN: int
    var loop: bool

    constructor (pointN: nat, edgeN: nat)
      ensures this.pointN == pointN && this.edgeN == edgeN && Buffers()
      ensures fresh(from) && fresh(to) && fresh(visited) && fresh(ts) && fresh(inEdge) && fresh(pordV) && fresh(stackV)
    {
      this.pointN, this.edgeN := pointN, edgeN;
      from, to, stackV := new int[edgeN], new int[edgeN], new int[edgeN];
      visited := new bool[pointN];
      ts, inEdge, pordV := new int[pointN], new int[pointN], new int[pointN];
      eV, ordN, stackN, loop := [], 0, 0, false;
    }

    ghost predicate Buffers() {
      && from.Length == to.Length == stackV.Length == edgeN
      && visited.Length == ts.Length == inEdge.Length == pordV.Length == pointN
      && from != to && from != ts && from != inEdge && from != pordV && from != stackV
      && to != ts && to != inEdge && to != pordV && to != stackV
      && ts != inEdge && ts != pordV && ts != stackV
      && inEdge != pordV && inEdge != stackV && pordV != stackV
    }

    // The arrays hold the state s.
    ghost predicate Holds(g: Net, s: Dfs)
      requires Buffers()
      reads this, from, to, visited, ts, inEdge, pordV, stackV
    {
      && g.pointN == pointN && |g.a| == edgeN && g.eV == eV
      && from[..] == s.from && to[..] == s.to && ts[..] == s.ts && inEdge[..] == s.inEdge
      && 0 <= ordN <= pointN && pordV[..ordN] == s.ord
      && (forall p :: 0 <= p < pointN ==> (visited[p] <==> Visited(s, p)))
      && stackN == |s.frames| <= edgeN
      && forall i :: 0 <= i < stackN ==> stackV[i] == s.frames[i].e
    }

    method FindEdge(p: int, e: int, ghost g: Net, ghost k0: nat) returns (k: nat)
      requires WellFormed(g) && g.eV == eV && 0 <= p < |eV| && k0 < |eV[p]| && eV[p][k0] == e
      ensures k == k0
    {
      k := 0;
      while k < |eV[p]| && eV[p][k] != e
        invariant k <= k0
      {
        k := k + 1;
      }
    }

    // Directs edge e away from p.
    method OrientEdge(p: int, e: int)
      requires Buffers() && 0 <= e < edgeN
      modifies from, to
      ensures from[..] == (if old(from[e]) != p then old(from[..])[e := p] else old(from[..]))
      ensures to[..] == (if old(from[e]) != p then old(to[..])[e := old(from[e])] else old(to[..]))
    {
      if from[e] != p {
        to[e] := from[e];
        from[e] := p;
      }
    }

    // Puts edge k of cur on the stack.
    method PushEdge(cur: int, k: nat, ghost g: Net, ghost drv: int, ghost s: Dfs) returns (ghost s': Dfs)
      requires Buffers() && Holds(g, s) && Scanning(g, drv, s, cur)
      requires k == s.done[cur] < |eV[cur]| && (|s.frames| > 0 ==> eV[cur][k] != Top(s).e)
      modifies this`stackN, from, to, stackV
      ensures Holds(g, s') && Inv(g, drv, s', true) && s'.done == s.done && s'.ord == s.ord
      ensures stackN > 0 && Remaining(g, s') == Remaining(g, s) && TreeKept(s, s')
    {
      hide Scanning, Inv, Touches, Visited, TreeKept;
      ScanningFacts(g, drv, s, cur);
      var e := eV[cur][k];
      PushKeeps(g, drv, s, cur);
      PushSame(g, s, cur, k);
      s' := Push(g, s, cur, k);
      StackFits(g, drv, s');
      OrientEdge(cur, e);
      stackV[stackN] := e;
      stackN := stackN + 1;
    }

    // The next position of p to try from k on; the edge p was entered by is
    // passed over. k == |eV[p]| if there is none.
    method NextEdge(p: int, k0: nat, ghost g: Net, ghost drv: int, ghost s: Dfs) returns (k: nat, ghost s': Dfs)
      requires Buffers() && Holds(g, s) && Scanning(g, drv, s, p) && k0 == s.done[p]
      ensures Holds(g, s') && Scanning(g, drv, s', p) && s'.ord == s.ord && Remaining(g, s') <= Remaining(g, s)
      ensures TreeKept(s, s') && k == s'.done[p] <= |eV[p]| && s'.frames == s.frames
      ensures k < |eV[p]| && |s.frames| > 0 ==> eV[p][k] != Top(s).e
    {
      hide Scanning, Visited, Remaining, Done, TreeKept;
      ScanningFacts(g, drv, s, p);
      k, s' := k0, s;
      SameTree(g, drv, s, p, s);
      if k >= |eV[p]| { return; }
      var e := eV[p][k];
      if stackN > 0 && e == stackV[stackN - 1] {
        IncomingSeen(g, drv, s, p);
        SkipKeeps(g, drv, s, p);
        DoneSame(g, s, p);
        s' := Done(s, p, s.done[p] + 1);
        SameTree(g, drv, s, p, s');
        ScanningFacts(g, drv, s', p);
        k := k + 1;
        if k < |eV[p]| { assert eV[p][k - 1] != eV[p][k]; }
      }
    }

    // Takes frames off the stack until a point has another edge to try, and puts
    // that edge on.
    method Ascend(ghost g: Net, ghost drv: int, ghost s: Dfs) returns (ghost s': Dfs)
      requires Buffers() && Holds(g, s) && Inv(g, drv, s, false)
      modifies this`stackN, from, to, stackV
      ensures Holds(g, s') && Inv(g, drv, s', stackN > 0) && s'.ord == s.ord && Remaining(g, s') <= Remaining(g, s)
      ensures TreeKept(s, s')
    {
      hide Inv, Scanning, Visited, Remaining, Done, WellFormed, TreeKept;
      s' := s;
      InvSameTree(g, drv, s, false, s);
      while stackN > 0
        invariant Holds(g, s') && Inv(g, drv, s', false) && s'.ord == s.ord && Remaining(g, s') <= Remaining(g, s)
        invariant TreeKept(s, s')
        decreases stackN
      {
        ghost var f := Top(s');
        InvFacts(g, drv, s', false);
        PopKeeps(g, drv, s');
        PopSame(g, s');
        InvSameTree(g, drv, s', false, Pop(s'));
        TreeKeptTransitive(s, s', Pop(s'));
        s' := Pop(s');
        stackN := stackN - 1;
        var e := stackV[stackN];
        var p := from[e];
        var k := FindEdge(p, e, g, f.k);
        ghost var s0 := s';
        k, s' := NextEdge(p, k + 1, g, drv, s');
        TreeKeptTransitive(s, s0, s');
        if k >= |eV[p]| {
          FinishKeeps(g, drv, s', p);
          continue;
        }
        s0 := s';
        s' := PushEdge(p, k, g, drv, s');
        TreeKeptTransitive(s, s0, s');
        return;
      }
    }

    // Enters the new point q by the edge on top.
    method VisitPoint(q: int, ghost g: Net, ghost drv: int, ghost s: Dfs) returns (ghost s': Dfs)
      requires Buffers() && Holds(g, s) && Inv(g, drv, s, true)
      requires q == s.to[Top(s).e] && 0 <= q < pointN && !visited[q]
      modifies this`ordN, visited, ts, inEdge, pordV
      ensures Holds(g, s') && Scanning(g, drv, s', q) && s'.done[q] == 0
      ensures s'.frames == s.frames && |s'.ord| == |s.ord| + 1 && Remaining(g, s') == Remaining(g, s) - 1
      ensures TreeKept(s, s')
    {
      hide Inv, Scanning, Visited, Remaining, WellFormed, TreeKept;
      InvFacts(g, drv, s, true);
      VisitKeeps(g, drv, s);
      VisitSame(g, drv, s, q);
      s' := Visit(s, q);
      OrderFits(g, drv, s', q);
      visited[q] := true;
      ts[q] := ordN;
      pordV[ordN] := q;
      ordN := ordN + 1;
      inEdge[q] := stackV[stackN - 1];
    }

    // One step of the traversal: the edge on top is looked at. No tree edge is
    // turned round again.
    method Step(ghost g: Net, ghost drv: int, ghost s: Dfs) returns (ghost s': Dfs)
      requires Buffers() && Holds(g, s) && Inv(g, drv, s, true)
      modifies this`stackN, this`ordN, this`loop, from, to, visited, ts, inEdge, pordV, stackV
      ensures Holds(g, s') && Inv(g, drv, s', stackN > 0) && Remaining(g, s') < Remaining(g, s)
      ensures TreeKept(s, s')
    {
      hide Inv, Scanning, Visited, Remaining, WellFormed, TreeKept;
      InvFacts(g, drv, s, true);
      var e := stackV[stackN - 1];
      var q := to[e];
      if visited[q] {
        if to[e] != from[e] { loop := true; }
        CloseKeeps(g, drv, s);
        CloseSame(g, drv, s);
        InvSameTree(g, drv, s, true, Close(s));
        s' := Close(s);
      } else {
        s' := VisitPoint(q, g, drv, s);
        ScanningFacts(g, drv, s', q);
        ghost var s0 := s';
        if |eV[q]| > 1 {
          var k;
          k, s' := FirstEdge(q, e, g, drv, s');
          TreeKeptTransitive(s, s0, s');
          s0 := s';
          s' := PushEdge(q, k, g, drv, s');
          TreeKeptTransitive(s, s0, s');
          return;
        }
        OnlyEdge(g, drv, s', q);
        DoneSame(g, s', q);
        SameTree(g, drv, s', q, Done(s', q, 1));
        TreeKeptTransitive(s, s', Done(s', q, 1));
        s' := Done(s', q, 1);
      }
      ghost var s1 := s';
      s' := Ascend(g, drv, s');
      TreeKeptTransitive(s, s1, s');
    }

    // The first edge of the new point q that is not e, the one it was entered by.
    method FirstEdge(q: int, e: int, ghost g: Net, ghost drv: int, ghost s: Dfs) returns (k: nat, ghost s': Dfs)
      requires Buffers() && Holds(g, s) && Scanning(g, drv, s, q) && 0 <= q < |eV| && |eV[q]| > 1
      requires |s.frames| > 0 && e == Top(s).e && 0 <= q < |s.done| && s.done[q] == 0
      ensures Holds(g, s') && Scanning(g, drv, s', q) && s'.ord == s.ord && Remaining(g, s') <= Remaining(g, s)
      ensures s'.frames == s.frames && k == s'.done[q] < |eV[q]| && eV[q][k] != e && TreeKept(s, s')
      ensures forall i :: 0 <= i < k ==> eV[q][i] == e
    {
      hide Scanning, Visited, Remaining, Done, TreeKept;
      ScanningFacts(g, drv, s, q);
      assert eV[q][0] != eV[q][1];
      k := 0;
      while k < |eV[q]| && eV[q][k] == e
        invariant k <= 1 && forall i :: 0 <= i < k ==> eV[q][i] == e
      {
        k := k + 1;
      }
      s' := s;
      SameTree(g, drv, s, q, s);
      if k == 1 {
        IncomingSeen(g, drv, s, q);
        SkipKeeps(g, drv, s, q);
        DoneSame(g, s, q);
        s' := Done(s, q, s.done[q] + 1);
        SameTree(g, drv, s, q, s');
      }
    }

    // The list of resistors at every point, in order; one that joins a point to
    // itself is listed there once.
    method LoadAdjacency()
      requires Buffers()
      requires forall e :: 0 <= e < edgeN ==> 0 <= from[e] < pointN && 0 <= to[e] < pointN
      modifies this`eV
      ensures WellFormed(Net(pointN, from[..], to[..], eV))
    {
      ghost var F, T := from[..], to[..];
      eV := seq(pointN, p => []);
      for e := 0 to edgeN
        invariant |eV| == pointN
        invariant AllListed(F, T, eV, e)
      {
        ListEdge(F, T, eV, e);
        eV := eV[from[e] := eV[from[e]] + [e]];
        if to[e] != from[e] { eV := eV[to[e] := eV[to[e]] + [e]]; }
      }
      assert forall p :: 0 <= p < pointN ==> Listed(F, T, eV[p], p, edgeN);
    }

    // Nothing but the driver is visited.
    method Start(drv: int, ghost g: Net) returns (ghost s: Dfs)
      requires Buffers() && WellFormed(g) && g.pointN == pointN && |g.a| == edgeN && g.eV == eV
      requires from[..] == g.a && to[..] == g.b && 0 <= drv < pointN
      modifies this`stackN, this`ordN, this`loop, visited, ts, inEdge, pordV
      ensures Holds(g, s) && Scanning(g, drv, s, drv) && s.done[drv] == 0 && s.frames == []
    {
      hide Scanning;
      loop := false;
      for p := 0 to pointN
        invariant forall q :: 0 <= q < p ==> !visited[q]
      {
        visited[p] := false;
      }
      visited[drv] := true;
      inEdge[drv] := -1;
      ts[drv] := 0;
      pordV[0] := drv;
      ordN := 1;
      stackN := 0;
      s := Dfs(from[..], to[..], ts[..], inEdge[..], [drv], seq(pointN, p => 0), []);
      assert pordV[..1] == [drv];
      assert s.from == g.a && s.to == g.b;
      InitKeeps(g, drv, s);
    }

    // Orients the network as a tree from the driver. The driver has a resistor.
    method MakeRcmodelDfs(drv: int, ghost g: Net) returns (ghost s: Dfs)
      requires Buffers() && WellFormed(g) && g.pointN == pointN && |g.a| == edgeN && g.eV == eV
      requires from[..] == g.a && to[..] == g.b
      requires 0 <= drv < pointN && |eV[drv]| > 0
      modifies this`stackN, this`ordN, this`loop, from, to, visited, ts, inEdge, pordV, stackV
      ensures Holds(g, s) && Inv(g, drv, s, false) && s.frames == []
      ensures forall p :: 0 <= p < pointN ==> (visited[p] <==> Reachable(g, drv, p))
      ensures 0 < ordN <= pointN && pordV[0] == drv
      ensures forall i :: 0 <= i < ordN ==> 0 <= pordV[i] < pointN && visited[pordV[i]] && ts[pordV[i]] == i
      ensures forall p :: 0 <= p < pointN && visited[p] ==> 0 <= ts[p] < ordN && pordV[ts[p]] == p
      ensures forall i :: 0 < i < ordN ==> TreeEdge(g, pordV[i])
    {
      hide Inv, Scanning, Visited, Remaining, WellFormed, Reachable;
      s := Start(drv, g);
      s := PushEdge(drv, 0, g, drv, s);
      while stackN > 0
        invariant Holds(g, s) && Inv(g, drv, s, stackN > 0)
        decreases Remaining(g, s)
      {
        RemainingNonNeg(g, drv, s, true);
        s := Step(g, drv, s);
      }
      ReadBack(g, drv, s);
    }

    lemma ReadBack(g: Net, drv: int, s: Dfs)
      requires Buffers() && Holds(g, s) && Inv(g, drv, s, false) && s.frames == []
      ensures |g.a| == |g.b| == edgeN
      ensures forall p :: 0 <= p < pointN ==> (visited[p] <==> Reachable(g, drv, p))
      ensures 0 < ordN <= pointN && pordV[0] == drv
      ensures forall i :: 0 <= i < ordN ==> 0 <= pordV[i] < pointN && visited[pordV[i]] && ts[pordV[i]] == i
      ensures forall p :: 0 <= p < pointN && visited[p] ==> 0 <= ts[p] < ordN && pordV[ts[p]] == p
      ensures forall i :: 0 < i < ordN ==> TreeEdge(g, pordV[i])
    {
      hide WellFormed, TreeEdges, Progress, Complete, Stack;
      FinalTree(g, drv, s);
      assert forall i :: 0 <= i < ordN ==> pordV[i] == s.ord[i];
      forall p | 0 <= p < pointN ensures visited[p] <==> Reachable(g, drv, p) { VisitedIffReachable(g, drv, s, p); }
    }

    // Point p was entered from a point with a smaller number, by an edge that
    // still leads to it.
    ghost predicate TreeEdge(g: Net, p: int)
      requires Buffers() && |g.a| == |g.b| == edgeN
      reads from, to, inEdge, ts, visited
    {
      && 0 <= p < pointN && 0 <= inEdge[p] < edgeN && Touches(g, inEdge[p], p)
      && to[inEdge[p]] == p && 0 <= from[inEdge[p]] < pointN && from[inEdge[p]] == Other(g, inEdge[p], p)
      && visited[from[inEdge[p]]] && 0 <= ts[from[inEdge[p]]] < ts[p]
    }
  }

  ghost function Remaining(g: Net, s: Dfs): int
  {
    if |s.done| == |g.eV| then Left(g, s.done, |g.eV|) else 0
  }

  lemma SameTree(g: Net, drv: int, s: Dfs, cur: int, s': Dfs)
    requires Scanning(g, drv, s, cur)
    requires s'.ord == s.ord && s'.inEdge == s.inEdge && s'.from == s.from && s'.to == s.to
    ensures TreeKept(s, s')
  {
    TreeKeptSame(g, s, s');
  }

  lemma InvSameTree(g: Net, drv: int, s: Dfs, pending: bool, s': Dfs)
    requires Inv(g, drv, s, pending)
    requires s'.ord == s.ord && s'.inEdge == s.inEdge && s'.from == s.from && s'.to == s.to
    ensures TreeKept(s, s')
  {
    TreeKeptSame(g, s, s');
  }

  lemma RemainingNonNeg(g: Net, drv: int, s: Dfs, pending: bool)
    requires Inv(g, drv, s, pending)
    ensures Remaining(g, s) >= 0
  {
    forall p | 0 <= p < g.pointN ensures s.done[p] <= |g.eV[p]| { assert PointProgress(g, s, p); }
    LeftNonNeg(g, s.done, |g.eV|);
  }

  lemma VisitSame(g: Net, drv: int, s: Dfs, q: int)
    requires Inv(g, drv, s, true) && 0 <= q < g.pointN && !Visited(s, q) && 0 <= Top(s).p < g.pointN
    ensures Remaining(g, Visit(s, q)) == Remaining(g, s) - 1
    ensures forall p :: Visited(Visit(s, q), p) <==> Visited(s, p) || p == q
  {
    hide WellFormed, TreeEdges;
    VisitedAfter(g, drv, s, q);
    PendingDone(g, drv, s);
    LeftUpdate(g, s.done, Top(s).p, Top(s).k + 1, |g.eV|);
  }

  lemma CloseSame(g: Net, drv: int, s: Dfs)
    requires Inv(g, drv, s, true) && 0 <= Top(s).p < g.pointN
    ensures Remaining(g, Close(s)) == Remaining(g, s) - 1
    ensures forall p :: Visited(Close(s), p) == Visited(s, p)
  {
    PendingDone(g, drv, s);
    LeftUpdate(g, s.done, Top(s).p, Top(s).k + 1, |g.eV|);
  }

  lemma OrderFits(g: Net, drv: int, s: Dfs, cur: int)
    requires Scanning(g, drv, s, cur)
    ensures |s.ord| <= g.pointN
  {
    DistinctBounded(s.ord, g.pointN);
  }

  // A new point with one edge is done at once.
  lemma OnlyEdge(g: Net, drv: int, s: Dfs, q: int)
    requires Scanning(g, drv, s, q) && |s.frames| > 0 && 0 <= q < g.pointN && s.done[q] == 0 && |g.eV[q]| <= 1
    ensures Inv(g, drv, Done(s, q, 1), false)
  {
    hide TreeEdges, Progress, Complete;
    FramePoints(g, drv, s, false);
    assert FrameOk(g, s, Top(s)) && Top(s).e in g.eV[q];
    IncomingSeen(g, drv, s, q);
    SkipKeeps(g, drv, s, q);
    FinishKeeps(g, drv, Done(s, q, 1), q);
  }

  lemma FinalTree(g: Net, drv: int, s: Dfs)
    requires Inv(g, drv, s, false)
    ensures forall i :: 0 <= i < |s.ord| ==> 0 <= s.ord[i] < g.pointN && Visited(s, s.ord[i]) && s.ts[s.ord[i]] == i
    ensures |s.ord| > 0 && s.ord[0] == drv
    ensures forall i :: 0 < i < |s.ord| ==>
      Entered(g, s, i) && s.from[s.inEdge[s.ord[i]]] == Other(g, s.inEdge[s.ord[i]], s.ord[i])
  {
    forall i | 0 < i < |s.ord|
      ensures Entered(g, s, i) && s.from[s.inEdge[s.ord[i]]] == Other(g, s.inEdge[s.ord[i]], s.ord[i])
    {
      assert Entered(g, s, i);
    }
  }

  lemma InvFacts(g: Net, drv: int, s: Dfs, pending: bool)
    requires Inv(g, drv, s, pending)
    ensures WellFormed(g) && Sizes(g, s) && (pending ==> |s.frames| > 0)
    ensures forall i :: 0 <= i < |s.frames| ==> var f := s.frames[i];
      0 <= f.e < |g.a| && 0 <= f.p < g.pointN && s.from[f.e] == f.p && f.k < |g.eV[f.p]| && g.eV[f.p][f.k] == f.e
      && 0 <= s.to[f.e] < g.pointN
  {
    FramePoints(g, drv, s, pending);
  }

  lemma PopSame(g: Net, s: Dfs)
    requires |s.frames| > 0 && |s.done| == |g.eV|
    ensures Remaining(g, Pop(s)) == Remaining(g, s) && forall p :: Visited(Pop(s), p) == Visited(s, p)
  {}

  lemma DoneSame(g: Net, s: Dfs, p: int)
    requires 0 <= p < |s.done| == |g.eV|
    ensures var s' := Done(s, p, s.done[p] + 1);
      Remaining(g, s') == Remaining(g, s) - 1 && (forall q :: Visited(s', q) == Visited(s, q))
      && s' == s.(done := s.done[p := s.done[p] + 1])
  {
    LeftUpdate(g, s.done, p, s.done[p] + 1, |g.eV|);
  }

  // Both ends of the edge that cur was entered by are visited.
  lemma IncomingSeen(g: Net, drv: int, s: Dfs, cur: int)
    requires Scanning(g, drv, s, cur) && |s.frames| > 0
    ensures Seen(g, s, Top(s).e)
  {
    FramePoints(g, drv, s, false);
    assert FrameOk(g, s, Top(s));
  }

  lemma ScanningFacts(g: Net, drv: int, s: Dfs, cur: int)
    requires Scanning(g, drv, s, cur)
    ensures WellFormed(g) && Sizes(g, s) && 0 <= cur < g.pointN && s.done[cur] <= |g.eV[cur]|
    ensures forall k :: 0 <= k < |g.eV[cur]| ==> 0 <= g.eV[cur][k] < |g.a|
  {
    assert PointProgress(g, s, cur);
    forall k | 0 <= k < |g.eV[cur]| ensures 0 <= g.eV[cur][k] < |g.a| { assert Touches(g, g.eV[cur][k], cur); }
  }

  lemma PushSame(g: Net, s: Dfs, cur: int, k: nat)
    requires Sizes(g, s) && 0 <= cur < g.pointN && k == s.done[cur] < |g.eV[cur]| && 0 <= g.eV[cur][k] < |g.a|
    ensures var s' := Push(g, s, cur, k); s'.done == s.done && forall p :: Visited(s', p) == Visited(s, p)
  {}

  lemma StackFits(g: Net, drv: int, s: Dfs)
    requires Inv(g, drv, s, true)
    ensures |s.frames| <= |g.a|
  {
    StackDistinct(g, drv, s, true);
    FramePoints(g, drv, s, true);
    DistinctBounded(seq(|s.frames|, i requires 0 <= i < |s.frames| => s.frames[i].e), |g.a|);
  }
}
