/**
 * What the HeavyLightDecomposition object guarantees: lca and distance are
 * always defined (the chain walk terminates, even on a forest); on a
 * connected graph the DFS arrays form a rooted tree with at most one heavy
 * child per vertex, so lca is the lowest common ancestor and distance the
 * number of tree edges between the two vertices. With the line
 * `isHeavy[1] = true`, a four-vertex tree already gets a wrong distance.
 */
module HldProperties {
  import opened Adjacency
  import opened HldDfs
  import opened HldChains
  import opened HldTree
  import opened HldBuild

  /** The head of a visited vertex's chain is a visited, non-heavy vertex at most as deep. */
  lemma {:induction false} HeadVisited(t: HldState, x: int)
    requires Hung(t) && HeadsFollow(t) && 0 <= x < Size(t) && t.visited[x]
    ensures 0 <= t.head[x] < Size(t) && t.visited[t.head[x]] && !t.heavy[t.head[x]]
    ensures t.depth[t.head[x]] <= t.depth[x]
    decreases t.depth[x]
  {
    assert HeadRule(t, t.head, x);
    if t.heavy[x] {
      HeadVisited(t, t.parent[x]);
    }
  }

  /** lca's chain walk is defined on every built object, as written or not, connected or not. */
  lemma DecomposedWalkable(g: TreeGraph, h: Hld, asWritten: bool)
    requires WellFormed(g) && Decomposed(g, h, asWritten)
    ensures Walkable(RootingOf(h), h.state.head)
  {
    var t := h.state;
    var r := RootingOf(h);
    forall x | 0 <= x < Size(t)
      ensures WalkOk(r, t.head, x)
    {
      if t.visited[x] {
        HeadVisited(t, x);
      }
    }
  }

  /** The visited vertices are closed under the edges. */
  lemma VisitedClosed(g: TreeGraph, h: Hld, asWritten: bool)
    requires WellFormed(g) && Decomposed(g, h, asWritten)
    ensures ClosedUnder(g, h.state.visited)
  {
    var t := h.state;
    var a := h.arcs;
    forall k | 0 <= k < |g.edges|
      ensures t.visited[g.edges[k].source] == t.visited[g.edges[k].target]
    {
      var u := g.edges[k].source;
      var w := g.edges[k].target;
      PairEnds(g.edges, k);
      BuildChains(g.numVertices, g.edges, u, 2 * k);
      BuildChains(g.numVertices, g.edges, w, 2 * k + 1);
      assert a.to[2 * k] == w && a.to[2 * k + 1] == u;
    }
  }

  /** On a connected graph the DFS from vertex 0 visits every vertex. */
  lemma ConnectedVisited(g: TreeGraph, h: Hld, asWritten: bool)
    requires WellFormed(g) && Decomposed(g, h, asWritten) && Connected(g)
    ensures forall v :: 0 <= v < g.numVertices ==> h.state.visited[v]
  {
    VisitedClosed(g, h, asWritten);
  }

  /** With every vertex visited, parent and depth form a tree rooted at 0 and the heads follow the head rule. */
  lemma StateRooted(t: HldState)
    requires Hung(t) && HeadsFollow(t) && forall v :: 0 <= v < Size(t) ==> t.visited[v]
    ensures Rooted(Rooting(t.parent, t.depth)) && HeadsOk(Rooting(t.parent, t.depth), t.heavy, t.head)
  {
    var r := Rooting(t.parent, t.depth);
    forall v | 0 <= v < Size(t)
      ensures 0 <= t.head[v] < Size(t) && t.head[v] == (if t.heavy[v] then t.head[r.parent[v]] else v)
    {
      HeadVisited(t, v);
      assert HeadRule(t, t.head, v);
    }
  }

  /**
   * No vertex has two heavy children: two children each holding half of the
   * parent's subtree would leave no room for the parent itself. A forced
   * vertex 1 keeps this only when no sibling of it is heavy.
   */
  lemma StateUniqueHeavy(t: HldState, forced: bool)
    requires Hung(t) && Counts(t) && HeavyMarks(t, forced) && forall v :: 0 <= v < Size(t) ==> t.visited[v]
    requires forced ==> ForcedAlone(t)
    ensures UniqueHeavy(Rooting(t.parent, t.depth), t.heavy)
  {
    var n := Size(t);
    forall u, w | 0 < u < n && 0 < w < n && t.heavy[u] && t.heavy[w] && t.parent[u] == t.parent[w]
      ensures u == w
    {
      if u != w && !(forced && (u == 1 || w == 1)) {
        var p := t.parent[u];
        forall c | 0 <= c < n
          ensures Term(t, p, c) >= 0
        {
        }
        assert Term(t, p, u) == t.numNodes[u] && Term(t, p, w) == t.numNodes[w];
        ChildSumTwo(t, p, u, w, n);
      }
    }
  }

  /**
   * With every vertex visited, parent and depth form a tree rooted at 0 and
   * the heads follow the head rule; without a forced heavy vertex, or with
   * one that has no heavy sibling, no vertex has two heavy children.
   */
  lemma DecomposedTree(g: TreeGraph, h: Hld, asWritten: bool)
    requires WellFormed(g) && Decomposed(g, h, asWritten) && (asWritten ==> ForcedAlone(h.state))
    requires forall v :: 0 <= v < g.numVertices ==> h.state.visited[v]
    ensures Rooted(RootingOf(h)) && HeadsOk(RootingOf(h), h.state.heavy, h.state.head)
    ensures UniqueHeavy(RootingOf(h), h.state.heavy)
  {
    StateRooted(h.state);
    StateUniqueHeavy(h.state, asWritten);
  }

  /**
   * On a connected graph, the object built without the forced heavy vertex
   * answers lca(x, y) with the lowest common ancestor of x and y in the DFS
   * tree (whose every edge is an edge of the graph), and distance(x, y) with
   * the number of tree edges on the path through it: symmetric, 0 exactly
   * from a vertex to itself, depth[y] from the root. The object built as
   * written does the same when no sibling of vertex 1 is heavy.
   */
  lemma DistanceCorrect(g: TreeGraph, h: Hld, asWritten: bool, x: int, y: int)
    requires WellFormed(g) && Decomposed(g, h, asWritten) && Connected(g)
    requires asWritten ==> ForcedAlone(h.state)
    requires 0 <= x < g.numVertices && 0 <= y < g.numVertices
    ensures Walkable(RootingOf(h), h.state.head)
    ensures var r := RootingOf(h); var z := Lca(r, h.state.head, x, y);
      && Rooted(r) && IsLca(r, z, x, y)
      && Distance(r, h.state.head, x, y) == (r.depth[x] - r.depth[z]) + (r.depth[y] - r.depth[z])
    ensures var r := RootingOf(h);
      && Distance(r, h.state.head, x, y) == Distance(r, h.state.head, y, x)
      && Distance(r, h.state.head, x, y) >= 0
      && (Distance(r, h.state.head, x, y) == 0 <==> x == y)
      && Distance(r, h.state.head, 0, y) == r.depth[y]
  {
    ConnectedVisited(g, h, asWritten);
    DecomposedTree(g, h, asWritten);
    var r := RootingOf(h);
    LcaCorrect(r, h.state.heavy, h.state.head, x, y);
    DistanceFacts(r, h.state.heavy, h.state.head, x, y, Lca(r, h.state.head, x, y));
  }

  // ---------------------------------------------------------------------
  // The four-vertex tree 0-1, 0-2, 2-3.
  // ---------------------------------------------------------------------

  function Sample(): TreeGraph {
    TreeGraph(4, [Ends(0, 1), Ends(0, 2), Ends(2, 3)])
  }

  lemma SampleConnected(g: TreeGraph)
    requires g == Sample()
    ensures WellFormed(g) && Connected(g)
  {
    forall b: seq<bool> | |b| == 4 && b[0] && ClosedUnder(g, b)
      ensures forall v :: 0 <= v < 4 ==> b[v]
    {
      assert b[g.edges[0].source] == b[g.edges[0].target];
      assert b[g.edges[1].source] == b[g.edges[1].target];
      assert b[g.edges[2].source] == b[g.edges[2].target];
    }
  }

  /** Each visited non-root vertex is the head of an edge whose tail is its parent. */
  lemma ParentEdge(g: TreeGraph, a: Arcs, t: HldState, x: int) returns (e: nat)
    requires WellFormed(g) && a == Build(g.numVertices, g.edges) && Hung(t) && Spans(a, t)
    requires 0 < x < Size(t) && t.visited[x]
    ensures e < 2 * |g.edges| && Tail(g.edges, e) == t.parent[x] && Head(g.edges, e) == x
  {
    var p := t.parent[x];
    assert HasArc(a, p, x);
    var e' :| 0 <= e' < |a.to| && e' in Chain(a, p) && a.to[e'] == x;
    BuildChains(g.numVertices, g.edges, p, e');
    e := e';
  }

  /** In the sample, the tails of the arcs into x: the only candidates for x's parent. */
  lemma SampleParents(g: TreeGraph, t: HldState, x: int, e: nat)
    requires g == Sample() && Sized(t) && 0 < x < Size(t)
    requires e < 2 * |g.edges| && Tail(g.edges, e) == t.parent[x] && Head(g.edges, e) == x
    ensures x == 1 ==> t.parent[x] == 0
    ensures x == 2 ==> t.parent[x] == 0 || t.parent[x] == 3
    ensures x == 3 ==> t.parent[x] == 2
  {
    assert e == 0 || e == 1 || e == 2 || e == 3 || e == 4 || e == 5;
  }

  /** ChildSum over four vertices, spelled out. */
  lemma ChildSumFour(t: HldState, x: int)
    requires Sized(t) && Size(t) == 4
    ensures ChildSum(t, x, 4) == Term(t, x, 0) + Term(t, x, 1) + Term(t, x, 2) + Term(t, x, 3)
  {
    assert ChildSum(t, x, 1) == Term(t, x, 0);
    assert ChildSum(t, x, 2) == ChildSum(t, x, 1) + Term(t, x, 1);
    assert ChildSum(t, x, 3) == ChildSum(t, x, 2) + Term(t, x, 2);
  }

  /** Parent candidates 0 for 1, 0 or 3 for 2, and 2 for 3 leave only the tree 0 -> {1, 2}, 2 -> 3. */
  lemma SampleTree(t: HldState)
    requires Hung(t) && Size(t) == 4 && forall v :: 0 <= v < 4 ==> t.visited[v]
    requires t.parent[1] == 0 && (t.parent[2] == 0 || t.parent[2] == 3) && t.parent[3] == 2
    ensures t.visited == [true, true, true, true]
    ensures t.parent == [-1, 0, 0, 2] && t.depth == [0, 1, 1, 2]
  {
    assert t.parent[2] == 0;
  }

  /** A tree 0 -> {1, 2}, 2 -> 3 has subtree sizes 4, 1, 2, 1. */
  lemma SampleSizes(t: HldState)
    requires Hung(t) && Size(t) == 4 && Counts(t) && t.visited == [true, true, true, true]
    requires t.parent == [-1, 0, 0, 2]
    ensures t.numNodes == [4, 1, 2, 1]
  {
    ChildSumFour(t, 0);
    ChildSumFour(t, 1);
    ChildSumFour(t, 2);
    ChildSumFour(t, 3);
    assert t.numNodes[3] == 1 && t.numNodes[1] == 1;
  }

  /** Every object built from the sample visits all four vertices, with the parent candidates above. */
  lemma SampleVisits(g: TreeGraph, h: Hld, asWritten: bool)
    requires g == Sample() && WellFormed(g) && Decomposed(g, h, asWritten)
    ensures forall v :: 0 <= v < 4 ==> h.state.visited[v]
    ensures h.state.parent[1] == 0 && (h.state.parent[2] == 0 || h.state.parent[2] == 3) && h.state.parent[3] == 2
  {
    var t := h.state;
    SampleConnected(g);
    ConnectedVisited(g, h, asWritten);
    var e1 := ParentEdge(g, h.arcs, t, 1);
    var e2 := ParentEdge(g, h.arcs, t, 2);
    var e3 := ParentEdge(g, h.arcs, t, 3);
    SampleParents(g, t, 1, e1);
    SampleParents(g, t, 2, e2);
    SampleParents(g, t, 3, e3);
  }

  /** Every object built from the sample has the DFS tree 0 -> {1, 2}, 2 -> 3 with subtree sizes 4, 1, 2, 1. */
  lemma SampleShape(g: TreeGraph, h: Hld, asWritten: bool)
    requires g == Sample() && WellFormed(g) && Decomposed(g, h, asWritten)
    ensures var t := h.state;
      && t.visited == [true, true, true, true]
      && t.parent == [-1, 0, 0, 2] && t.depth == [0, 1, 1, 2] && t.numNodes == [4, 1, 2, 1]
  {
    SampleVisits(g, h, asWritten);
    SampleTree(h.state);
    SampleSizes(h.state);
  }

  /**
   * On the sample's DFS tree vertices 2 and 3 are heavy (each holds half of its parent's
   * subtree) and vertex 1 is heavy only when forced; so 2 joins the root's
   * chain, and 1 joins it exactly when forced.
   */
  lemma SampleHeads(t: HldState, forced: bool)
    requires Hung(t) && HeavyMarks(t, forced) && HeadsFollow(t)
    requires t.visited == [true, true, true, true]
    requires t.parent == [-1, 0, 0, 2] && t.depth == [0, 1, 1, 2] && t.numNodes == [4, 1, 2, 1]
    ensures Rooted(Rooting(t.parent, t.depth))
    ensures t.heavy[1] == forced && t.heavy[2] && t.heavy[3]
    ensures t.head[0] == 0 && t.head[1] == (if forced then 0 else 1) && t.head[2] == 0
  {
    assert HeadRule(t, t.head, 0) && HeadRule(t, t.head, 1) && HeadRule(t, t.head, 2);
  }

  /**
   * As written: vertex 1 is forced heavy and vertex 2 holds half of the root's
   * subtree, so both children of the root join its chain; lca(1, 2) = 2 and
   * distance(1, 2) = 0 although 1 and 2 are two tree edges apart.
   */
  lemma AsWrittenSampleDistance(g: TreeGraph, h: Hld)
    requires g == Sample() && WellFormed(g) && Decomposed(g, h, true)
    ensures Walkable(RootingOf(h), h.state.head) && Rooted(RootingOf(h))
    ensures h.state.heavy[1] && h.state.heavy[2] && !UniqueHeavy(RootingOf(h), h.state.heavy)
    ensures Lca(RootingOf(h), h.state.head, 1, 2) == 2
    ensures Distance(RootingOf(h), h.state.head, 1, 2) == 0
  {
    SampleShape(g, h, true);
    DecomposedWalkable(g, h, true);
    SampleHeads(h.state, true);
  }

  /** Without the forced line: lca(1, 2) = 0 and distance(1, 2) = 2. */
  lemma CorrectedSampleDistance(g: TreeGraph, h: Hld)
    requires g == Sample() && WellFormed(g) && Decomposed(g, h, false)
    ensures Walkable(RootingOf(h), h.state.head)
    ensures Lca(RootingOf(h), h.state.head, 1, 2) == 0
    ensures Distance(RootingOf(h), h.state.head, 1, 2) == 2
  {
    SampleShape(g, h, false);
    DecomposedWalkable(g, h, false);
    SampleHeads(h.state, false);
    assert Lca(RootingOf(h), h.state.head, 0, 2) == 0;
  }

  /**
   * Both constructors accept the sample (a connected graph with n - 1 edges);
   * distance(1, 2) is 0 as written and 2 without the forced line.
   */
  method SampleRun() returns (asWritten: int, corrected: int)
    ensures asWritten == 0 && corrected == 2
  {
    var g := Sample();
    SampleConnected(g);
    var r1 := ConstructAsWritten(g);
    var r2 := Construct(g);
    AsWrittenSampleDistance(g, r1.value);
    CorrectedSampleDistance(g, r2.value);
    asWritten := Distance(RootingOf(r1.value), r1.value.state.head, 1, 2);
    corrected := Distance(RootingOf(r2.value), r2.value.state.head, 1, 2);
  }
}
