/**
 * The HeavyLightDecomposition object: its constructor (arc arrays, the tree
 * check, `DFS(0, 0)`, `parent[0] = -1`, `computeChainHeads(0)`) and the
 * distance query, with the proof that for a connected graph the query
 * returns the number of tree edges between two vertices.
 *
 * The constructor as written also executes `isHeavy[1] = true` between the
 * two passes. ConstructAsWritten models that line; Construct leaves it out,
 * and AsWrittenSampleDistance / CorrectedSampleDistance show on a four-vertex
 * tree that the line makes distance wrong.
 */
module HldBuild {
  import opened Wrappers
  import opened Adjacency
  import opened HldDfs
  import opened HldChains
  import opened HldIsTree
  import opened HldTree
  import opened HldForest

  /** An undirected graph on the vertex IDs 0..numVertices-1 with its edges in iteration order. */
  datatype TreeGraph = TreeGraph(numVertices: nat, edges: seq<Ends>)

  /** Every edge joins two vertices of the graph. */
  predicate WellFormed(g: TreeGraph) {
    EndsIn(g.numVertices, g.edges)
  }

  /** The built object: the arc arrays and the per-vertex arrays. */
  datatype Hld = Hld(arcs: Arcs, state: HldState)

  function RootingOf(h: Hld): Rooting {
    Rooting(h.state.parent, h.state.depth)
  }

  /** b is closed under the edges: both ends of every edge are in b or neither is. */
  predicate ClosedUnder(g: TreeGraph, b: seq<bool>)
    requires WellFormed(g) && |b| == g.numVertices
  {
    forall k :: 0 <= k < |g.edges| ==> b[g.edges[k].source] == b[g.edges[k].target]
  }

  /** Every vertex is reachable from vertex 0: the only edge-closed set holding 0 is everything. */
  ghost predicate Connected(g: TreeGraph)
    requires WellFormed(g)
  {
    forall b: seq<bool> :: |b| == g.numVertices && g.numVertices > 0 && b[0] && ClosedUnder(g, b) ==>
      forall v :: 0 <= v < g.numVertices ==> b[v]
  }

  /** The edges with an end outside T. */
  function Leaving(edges: seq<Ends>, T: set<int>): set<int> {
    set k | 0 <= k < |edges| && !(edges[k].source in T && edges[k].target in T)
  }

  /** The integers 0..m-1. */
  function Upto(m: nat): (r: set<int>)
    ensures forall k :: k in r <==> 0 <= k < m
  {
    if m == 0 then {} else Upto(m - 1) + {m - 1}
  }

  lemma {:induction false} UptoSize(m: nat)
    ensures |Upto(m)| == m
  {
    if m > 0 {
      UptoSize(m - 1);
    }
  }

  /** Every edge is within T or leaves it. */
  lemma SplitEdges(edges: seq<Ends>, T: set<int>)
    ensures |Within(edges, T)| + |Leaving(edges, T)| == |edges|
  {
    assert Within(edges, T) + Leaving(edges, T) == Upto(|edges|);
    assert Within(edges, T) * Leaving(edges, T) == {};
    UptoSize(|edges|);
  }

  /** A vertex outside a set of fewer than n vertices. */
  lemma Outsider(n: nat, T: set<int>) returns (u: int)
    requires Among(n, T)
    ensures |T| <= n
    ensures |T| < n ==> 0 <= u < n && u !in T
  {
    assert T <= Upto(n);
    UptoSize(n);
    assert |Upto(n) - T| == n - |T|;
    u := 0;
    if |T| < n {
      u := Pick(Upto(n) - T);
    }
  }

  /** In a connected graph, some edge joins a nonempty proper subset T to the rest. */
  lemma Crossing(g: TreeGraph, T: set<int>, u: int) returns (k: int)
    requires WellFormed(g) && Connected(g) && Among(g.numVertices, T) && T != {}
    requires 0 <= u < g.numVertices && u !in T
    ensures 0 <= k < |g.edges| && k in Leaving(g.edges, T)
    ensures g.edges[k].source in T || g.edges[k].target in T
  {
    var n := g.numVertices;
    var x := Pick(T);
    var b := if 0 in T then seq(n, i => i in T) else seq(n, i => i !in T);
    assert !b[u] || !b[x];
    assert !ClosedUnder(g, b);
    k :| 0 <= k < |g.edges| && b[g.edges[k].source] != b[g.edges[k].target];
  }

  /**
   * In a connected graph at least n - |T| edges leave a nonempty T: add the
   * vertices outside T one at a time, each across an edge that leaves the
   * set before it and not the set after.
   */
  lemma {:induction false} LeavingBound(g: TreeGraph, T: set<int>)
    requires WellFormed(g) && Connected(g) && Among(g.numVertices, T) && T != {}
    ensures |Leaving(g.edges, T)| >= g.numVertices - |T|
    decreases g.numVertices - |T|
  {
    var n := g.numVertices;
    var u := Outsider(n, T);
    if |T| < n {
      var k := Crossing(g, T, u);
      var w := if g.edges[k].source in T then g.edges[k].target else g.edges[k].source;
      var T' := T + {w};
      assert w !in T && |T'| == |T| + 1;
      LeavingBound(g, T');
      var L, L' := Leaving(g.edges, T), Leaving(g.edges, T');
      assert k !in L';
      assert L' <= L - {k};
      assert |L - {k}| == |L| - 1;
      assert |L'| <= |L - {k}| by {
        assert L - {k} == L' + ((L - {k}) - L');
      }
    }
  }

  /** A forest with a vertex has at most n - 1 edges: the set of all vertices spans them all. */
  lemma ForestEdges(n: nat, edges: seq<Ends>)
    requires EndsIn(n, edges) && n > 0 && Forest(n, edges)
    ensures |edges| <= n - 1
  {
    var all := Upto(n);
    UptoSize(n);
    UptoSize(|edges|);
    assert 0 in all && Among(n, all);
    assert Within(edges, all) == Upto(|edges|);
    assert |Within(edges, all)| < |all|;
  }

  /** A connected graph with a vertex is a forest exactly when it has n - 1 edges. */
  lemma ConnectedForest(g: TreeGraph)
    requires WellFormed(g) && Connected(g) && g.numVertices > 0
    ensures Forest(g.numVertices, g.edges) <==> |g.edges| == g.numVertices - 1
  {
    var n := g.numVertices;
    LeavingBound(g, {0});
    SplitEdges(g.edges, {0});
    if Forest(n, g.edges) {
      ForestEdges(n, g.edges);
    }
    if |g.edges| == n - 1 {
      forall S | S != {} && Among(n, S)
        ensures |Within(g.edges, S)| < |S|
      {
        LeavingBound(g, S);
        SplitEdges(g.edges, S);
      }
    }
  }

  /** numNodes of a visited vertex is 1 plus the numNodes of its children (so at least 1). */
  ghost predicate Counts(t: HldState)
    requires Sized(t)
  {
    forall x :: 0 <= x < Size(t) && t.visited[x] ==>
      t.numNodes[x] == 1 + ChildSum(t, x, Size(t)) && t.numNodes[x] >= 1
  }

  /**
   * A visited non-root vertex is heavy iff it holds at least half of its
   * parent's subtree; with forced, vertex 1 is heavy whatever its size.
   */
  ghost predicate HeavyMarks(t: HldState, forced: bool)
    requires Hung(t)
  {
    forall x :: 0 < x < Size(t) ==>
      t.heavy[x] == ((forced && x == 1) || (t.visited[x] && 2 * t.numNodes[x] >= t.numNodes[t.parent[x]]))
  }

  /** Vertex 1, when there is one, has no heavy sibling. */
  ghost predicate ForcedAlone(t: HldState)
    requires Sized(t)
  {
    Size(t) > 1 ==> forall w :: 0 < w < Size(t) && w != 1 && t.heavy[w] ==> t.parent[w] != t.parent[1]
  }

  /** Unvisited vertices keep the zeros the arrays were allocated with. */
  ghost predicate Zeros(t: HldState)
    requires Sized(t)
  {
    forall x :: 0 <= x < Size(t) && !t.visited[x] ==>
      t.depth[x] == 0 && t.parent[x] == 0 && t.numNodes[x] == 0 && t.head[x] == 0
  }

  /** Every visited vertex follows the chain-head rule. */
  ghost predicate HeadsFollow(t: HldState)
    requires Hung(t)
  {
    forall x :: 0 <= x < Size(t) && t.visited[x] ==> HeadRule(t, t.head, x)
  }

  /**
   * The arrays after `DFS(0, 0); parent[0] = -1`: the DFS tree of vertex 0's
   * component sits in the graph, subtree sizes and heavy marks are as DFS
   * computes them, and unvisited vertices are untouched.
   */
  ghost predicate Prepared(g: TreeGraph, a: Arcs, t: HldState)
    requires WellFormed(g)
  {
    && a == Build(g.numVertices, g.edges)
    && Hung(t) && Size(t) == g.numVertices && Spans(a, t)
    && Counts(t) && HeavyMarks(t, false) && Zeros(t)
  }

  /**
   * The finished object: as Prepared, with vertex 1 forced heavy when
   * asWritten, and chain heads following the head rule on the visited
   * vertices.
   */
  ghost predicate Decomposed(g: TreeGraph, h: Hld, asWritten: bool)
    requires WellFormed(g)
  {
    var t := h.state;
    && h.arcs == Build(g.numVertices, g.edges)
    && Hung(t) && Size(t) == g.numVertices && Spans(h.arcs, t)
    && Counts(t) && HeavyMarks(t, asWritten) && Zeros(t) && HeadsFollow(t)
  }

  /** A graph without self-loops has no arc from the root back to the root. */
  lemma NoRootLoopBuilt(n: nat, edges: seq<Ends>)
    requires EndsIn(n, edges) && forall k :: 0 <= k < |edges| ==> !SelfLoop(edges, k)
    ensures NoRootLoop(Build(n, edges))
  {
    var a := Build(n, edges);
    if n > 0 && HasArc(a, 0, 0) {
      var e :| 0 <= e < |a.to| && e in Chain(a, 0) && a.to[e] == 0;
      BuildChains(n, edges, 0, e);
      Half(e / 2);
      assert SelfLoop(edges, e / 2);
    }
  }

  /** The DFS tree with the root's parent set to -1 is Hung. */
  lemma DfsHung(s0: HldState, s: HldState, t: HldState)
    requires Sized(s0) && Sized(s) && Size(s0) == Size(s) > 0
    requires forall x :: 0 <= x < Size(s0) ==> !s0.visited[x] && Blank(s0, x)
    requires Framed(s0, s) && AtStart(s0, s, 0, 0)
    requires forall x :: 0 <= x < Size(s) && New(s0, s, x) && x != 0 ==>
      && 0 <= s.parent[x] < Size(s) && New(s0, s, s.parent[x])
      && s.depth[x] == s.depth[s.parent[x]] + 1 && s.depth[x] > s.depth[0]
    requires t == s.(parent := s.parent[0 := -1])
    ensures Hung(t) && Zeros(t)
  {
    forall x | 0 <= x < Size(t)
      ensures t.depth[x] >= 0
    {
      if !New(s0, s, x) {
        assert Same(s0, s, x);
      }
    }
    forall x | 0 <= x < Size(t) && !t.visited[x]
      ensures t.depth[x] == 0 && t.parent[x] == 0 && t.numNodes[x] == 0 && t.head[x] == 0
    {
      assert Same(s0, s, x);
    }
  }

  /** The DFS tree sits in the graph. */
  lemma DfsSpans(a: Arcs, s0: HldState, s: HldState, t: HldState)
    requires WellLinked(a) && Sized(s0) && Sized(s) && Size(s0) == Size(s) == |a.firstEdge| > 0
    requires forall x :: 0 <= x < Size(s0) ==> !s0.visited[x]
    requires Linked(a, s0, s, 0) && Closed(a, s0, s, 0) && Scanned(a, s, Chain(a, 0), |Chain(a, 0)|)
    requires t == s.(parent := s.parent[0 := -1]) && Hung(t)
    ensures Spans(a, t)
  {
    forall x, e | 0 <= x < Size(t) && t.visited[x] && e in Chain(a, x) && 0 <= e < |a.to|
      ensures t.visited[a.to[e]]
    {
      if x == 0 {
        var ch := Chain(a, 0);
        var i :| 0 <= i < |ch| && ch[i] == e;
      }
    }
  }

  /** Subtree sizes and heavy marks survive `parent[0] = -1`: the root is nobody's child. */
  lemma DfsCounts(s0: HldState, s: HldState, t: HldState)
    requires Sized(s0) && Sized(s) && Size(s0) == Size(s) > 0
    requires forall x :: 0 <= x < Size(s0) ==> !s0.visited[x] && Blank(s0, x)
    requires Framed(s0, s) && Counted(s0, s) && Heavies(s0, s, 0, true)
    requires t == s.(parent := s.parent[0 := -1]) && Hung(t)
    ensures Counts(t) && HeavyMarks(t, false)
  {
    forall x | 0 < x < Size(t) && !t.visited[x]
      ensures !t.heavy[x]
    {
      assert Same(s0, s, x);
    }
    forall x | 0 <= x < Size(t) && t.visited[x]
      ensures t.numNodes[x] == 1 + ChildSum(t, x, Size(t)) && t.numNodes[x] >= 1
    {
      ChildSumShift(s, t, x, 0, Size(t));
    }
  }

  /** The state DFS(0, 0) leaves, with parent[0] set to -1, is Prepared. */
  lemma DfsPrepared(g: TreeGraph, a: Arcs, s: HldState, t: HldState)
    requires WellFormed(g) && a == Build(g.numVertices, g.edges) && g.numVertices > 0
    requires Pre(a, Initial(g.numVertices), 0, 0) && Explored(a, Initial(g.numVertices), s, 0, 0)
    requires t == s.(parent := s.parent[0 := -1])
    ensures Prepared(g, a, t)
  {
    var s0 := Initial(g.numVertices);
    DfsHung(s0, s, t);
    DfsSpans(a, s0, s, t);
    DfsCounts(s0, s, t);
  }

  /** Marking the DFS tree's arrays: `DFS(0, 0); parent[0] = -1`. */
  method Prepare(g: TreeGraph, a: Arcs) returns (t: HldState)
    requires WellFormed(g) && a == Build(g.numVertices, g.edges) && g.numVertices > 0
    requires forall k :: 0 <= k < |g.edges| ==> !SelfLoop(g.edges, k)
    ensures Prepared(g, a, t)
  {
    var n := g.numVertices;
    NoRootLoopBuilt(n, g.edges);
    var s := Dfs(a, Initial(n), 0, 0);
    t := s.(parent := s.parent[0 := -1]);
    DfsPrepared(g, a, s, t);
  }

  /** Forcing vertex 1 heavy keeps the tree shape. */
  lemma ForceKeepsShape(a: Arcs, t: HldState, t1: HldState)
    requires Hung(t) && Spans(a, t) && Size(t) > 1 && Counts(t) && Zeros(t)
    requires t1 == t.(heavy := t.heavy[1 := true])
    ensures Hung(t1) && Spans(a, t1) && Counts(t1) && Zeros(t1)
  {
    forall x | 0 <= x < Size(t1) && t1.visited[x]
      ensures t1.numNodes[x] == 1 + ChildSum(t1, x, Size(t1)) && t1.numNodes[x] >= 1
    {
      ChildSumShift(t, t1, x, -1, Size(t));
    }
  }

  /** computeChainHeads(0) resolves the head of every visited vertex. */
  lemma HeadsDecomposed(t1: HldState, head: seq<int>)
    requires Hung(t1) && |head| == Size(t1) && Zeros(t1)
    requires forall x :: 0 <= x < Size(t1) ==>
      if Under(t1, 0, x) then HeadRule(t1, head, x) else head[x] == t1.head[x]
    ensures Hung(t1.(head := head)) && HeadsFollow(t1.(head := head)) && Zeros(t1.(head := head))
  {
    var t2 := t1.(head := head);
    forall x | 0 <= x < Size(t1) && t1.visited[x]
      ensures HeadRule(t2, head, x)
    {
      UnderRoot(t1, x);
    }
    forall x | 0 <= x < Size(t1) && !t1.visited[x]
      ensures head[x] == 0
    {
      assert !Under(t1, 0, x);
    }
  }

  /** Replacing the heads leaves every other part of the object's description intact. */
  lemma HeadsKeep(a: Arcs, t1: HldState, head: seq<int>, forced: bool)
    requires Hung(t1) && |head| == Size(t1) && Spans(a, t1) && Counts(t1) && HeavyMarks(t1, forced)
    ensures var t2 := t1.(head := head);
      Hung(t2) && Spans(a, t2) && Counts(t2) && HeavyMarks(t2, forced)
  {
    var t2 := t1.(head := head);
    forall x | 0 <= x < Size(t2) && t2.visited[x]
      ensures t2.numNodes[x] == 1 + ChildSum(t2, x, Size(t2)) && t2.numNodes[x] >= 1
    {
      ChildSumShift(t1, t2, x, -1, Size(t1));
    }
  }

  /**
   * The constructor, without `isHeavy[1] = true`: build the arc arrays,
   * reject a graph that fails the tree check, run the two passes. A graph
   * without vertices fails as HeavyLightDecomposition does, on DFS(0)'s index 0.
   */
  method Construct(g: TreeGraph) returns (r: Result<Hld, string>)
    requires WellFormed(g)
    ensures g.numVertices == 0 ==> r.Failure?
    ensures (exists k :: 0 <= k < |g.edges| && SelfLoop(g.edges, k)) ==> r.Failure?
    ensures 0 < g.numVertices <= |g.edges| ==> r.Failure?
    ensures r.Success? ==> Decomposed(g, r.value, false)
    ensures r.Success? <==> 0 < g.numVertices && Forest(g.numVertices, g.edges)
    ensures Connected(g) ==> (r.Success? <==> 0 < g.numVertices && |g.edges| == g.numVertices - 1)
  {
    if Connected(g) && g.numVertices > 0 {
      ConnectedForest(g);
    }
    var n := g.numVertices;
    var a := Build(n, g.edges);
    var ok := IsTree(n, g.edges, a);
    if !ok {
      return Failure("graph is not a tree");
    }
    if n == 0 {
      return Failure("index 0 out of bounds");
    }
    var t := Prepare(g, a);
    var head := ChainHeads(a, t, t.head, 0);
    HeadsDecomposed(t, head);
    HeadsKeep(a, t, head, false);
    return Success(Hld(a, t.(head := head)));
  }

  /** The constructor as written: as Construct, plus `isHeavy[1] = true` before computeChainHeads(0). */
  method ConstructAsWritten(g: TreeGraph) returns (r: Result<Hld, string>)
    requires WellFormed(g)
    ensures g.numVertices <= 1 ==> r.Failure?
    ensures (exists k :: 0 <= k < |g.edges| && SelfLoop(g.edges, k)) ==> r.Failure?
    ensures 0 < g.numVertices <= |g.edges| ==> r.Failure?
    ensures r.Success? ==> Decomposed(g, r.value, true)
    ensures r.Success? <==> 1 < g.numVertices && Forest(g.numVertices, g.edges)
    ensures Connected(g) ==> (r.Success? <==> 1 < g.numVertices && |g.edges| == g.numVertices - 1)
  {
    if Connected(g) && g.numVertices > 0 {
      ConnectedForest(g);
    }
    var n := g.numVertices;
    var a := Build(n, g.edges);
    var ok := IsTree(n, g.edges, a);
    if !ok {
      return Failure("graph is not a tree");
    }
    if n == 0 {
      return Failure("index 0 out of bounds");
    }
    var t := Prepare(g, a);
    if n < 2 {
      return Failure("index 1 out of bounds");
    }
    var t1 := t.(heavy := t.heavy[1 := true]);
    ForceKeepsShape(a, t, t1);
    assert HeavyMarks(t1, true);
    var head := ChainHeads(a, t1, t1.head, 0);
    HeadsDecomposed(t1, head);
    HeadsKeep(a, t1, head, true);
    return Success(Hld(a, t1.(head := head)));
  }
}
