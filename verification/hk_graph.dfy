/**
 * The GraphInner of HopcroftKarpSimple: the n vertices carry the IDs 1..n
 * and ID 0 is the NULL sentinel. Every vertex keeps the list of its
 * neighbours and, in lockstep, the input edge each entry came from; every
 * input edge is entered in both directions.
 */
module HkGraph {
  import opened Wrappers
  import opened Adjacency

  /** The ID no vertex carries; in match[] it means "unmatched". */
  const NULL: int := 0

  /** The layer of a vertex no alternating path has reached. */
  const INF: int := 100000000

  /**
   * adj[x] lists the neighbours of x (`graph.edges[x]` in HopcroftKarpSimple), orig[x][j]
   * the index of the input edge behind adj[x][j] (`edgesOrig[x]`).
   */
  datatype GraphInner = GraphInner(adj: seq<seq<int>>, orig: seq<seq<nat>>)

  /** `getNumVertices`: the number of slots, NULL's included. */
  function NumVertices(g: GraphInner): nat {
    |g.adj|
  }

  /** The two list arrays have equal shape. */
  predicate Lockstep(g: GraphInner) {
    |g.orig| == |g.adj| && forall x :: 0 <= x < |g.adj| ==> |g.orig[x]| == |g.adj[x]|
  }

  /** `new GraphInner(vertices)`: one empty list per vertex plus one for NULL. */
  function NewInner(vertices: nat): (g: GraphInner)
    ensures NumVertices(g) == vertices + 1 && Lockstep(g)
    ensures forall x :: 0 <= x < NumVertices(g) ==> g.adj[x] == [] && g.orig[x] == []
  {
    GraphInner(seq(vertices + 1, _ => []), seq(vertices + 1, _ => []))
  }

  /**
   * `addEdge(from, to, edge)`: both ends must be vertex IDs (not NULL, not
   * beyond the last slot); then `to` and `edge` are appended to from's lists
   * and nothing else changes.
   */
  function AddEdge(g: GraphInner, from: int, to: int, e: nat): (r: Result<GraphInner, string>)
    requires Lockstep(g)
    ensures r.Success? <==> 0 < from < NumVertices(g) && 0 < to < NumVertices(g)
    ensures r.Success? ==>
      && Lockstep(r.value) && NumVertices(r.value) == NumVertices(g)
      && r.value.adj[from] == g.adj[from] + [to] && r.value.orig[from] == g.orig[from] + [e]
      && forall x :: 0 <= x < NumVertices(g) && x != from ==> r.value.adj[x] == g.adj[x] && r.value.orig[x] == g.orig[x]
  {
    if from <= 0 || from >= |g.adj| || to <= 0 || to >= |g.adj| then
      Failure("ArrayIndexOutOfBoundsException")
    else
      Success(GraphInner(g.adj[from := g.adj[from] + [to]], g.orig[from := g.orig[from] + [e]]))
  }

  /** Every endpoint is one of the IDs 1..n. */
  predicate IdsIn(n: nat, edges: seq<Ends>) {
    forall k :: 0 <= k < |edges| ==> 1 <= edges[k].source <= n && 1 <= edges[k].target <= n
  }

  /** Edge e joins x and y, in either direction. */
  predicate Joins(e: Ends, x: int, y: int) {
    (e.source == x && e.target == y) || (e.source == y && e.target == x)
  }

  /** The constructor's edge loop: edge k is added as source -> target, then as target -> source. */
  function InnerOf(n: nat, edges: seq<Ends>): (g: GraphInner)
    requires IdsIn(n, edges)
    ensures Lockstep(g) && NumVertices(g) == n + 1
    decreases |edges|
  {
    if edges == [] then NewInner(n)
    else
      var k := |edges| - 1;
      var g0 := InnerOf(n, edges[..k]);
      var u := edges[k].source;
      var v := edges[k].target;
      AddEdge(AddEdge(g0, u, v, k).value, v, u, k).value
  }

  /** Every list entry is a vertex ID (never NULL) and names an input edge joining the two. */
  predicate Sound(n: nat, edges: seq<Ends>, g: GraphInner)
    requires Lockstep(g) && NumVertices(g) == n + 1
  {
    forall x, j :: 0 <= x <= n && 0 <= j < |g.adj[x]| ==>
      && 1 <= g.adj[x][j] <= n && g.orig[x][j] < |edges|
      && Joins(edges[g.orig[x][j]], x, g.adj[x][j])
  }

  /** Every input edge appears in the lists of both of its ends. */
  predicate Complete(n: nat, edges: seq<Ends>, g: GraphInner)
    requires IdsIn(n, edges) && Lockstep(g) && NumVertices(g) == n + 1
  {
    forall k :: 0 <= k < |edges| ==>
      edges[k].target in g.adj[edges[k].source] && edges[k].source in g.adj[edges[k].target]
  }

  /** The lists InnerOf builds are exactly the input edges, in both directions. */
  lemma {:induction false} InnerFacts(n: nat, edges: seq<Ends>)
    requires IdsIn(n, edges)
    ensures var g := InnerOf(n, edges);
      g.adj[NULL] == [] && Sound(n, edges, g) && Complete(n, edges, g)
    decreases |edges|
  {
    if edges != [] {
      var k := |edges| - 1;
      InnerFacts(n, edges[..k]);
      var g0 := InnerOf(n, edges[..k]);
      var u := edges[k].source;
      var v := edges[k].target;
      var g1 := AddEdge(g0, u, v, k).value;
      SoundStep(n, edges, g0, g1, AddEdge(g1, v, u, k).value);
      CompleteStep(n, edges, g0, g1, AddEdge(g1, v, u, k).value);
    }
  }

  /** Adding the last edge in both directions keeps every entry sound. */
  lemma SoundStep(n: nat, edges: seq<Ends>, g0: GraphInner, g1: GraphInner, g: GraphInner)
    requires IdsIn(n, edges) && |edges| > 0
    requires Lockstep(g0) && NumVertices(g0) == n + 1 && Sound(n, edges[..|edges| - 1], g0)
    requires AddEdge(g0, edges[|edges| - 1].source, edges[|edges| - 1].target, |edges| - 1) == Success(g1)
    requires AddEdge(g1, edges[|edges| - 1].target, edges[|edges| - 1].source, |edges| - 1) == Success(g)
    ensures Sound(n, edges, g)
  {
    var k := |edges| - 1;
    var u := edges[k].source;
    var v := edges[k].target;
    forall x, j | 0 <= x <= n && 0 <= j < |g.adj[x]|
      ensures 1 <= g.adj[x][j] <= n && g.orig[x][j] < |edges| && Joins(edges[g.orig[x][j]], x, g.adj[x][j])
    {
      if j < |g0.adj[x]| {
        assert g.adj[x][j] == g0.adj[x][j] && g.orig[x][j] == g0.orig[x][j];
        assert edges[g0.orig[x][j]] == edges[..k][g0.orig[x][j]];
      } else if x == v && j == |g.adj[x]| - 1 {
      } else {
        assert x == u && j == |g0.adj[x]|;
      }
    }
  }

  /** Adding the last edge in both directions keeps every edge listed at both ends. */
  lemma CompleteStep(n: nat, edges: seq<Ends>, g0: GraphInner, g1: GraphInner, g: GraphInner)
    requires IdsIn(n, edges) && |edges| > 0
    requires Lockstep(g0) && NumVertices(g0) == n + 1 && Complete(n, edges[..|edges| - 1], g0)
    requires AddEdge(g0, edges[|edges| - 1].source, edges[|edges| - 1].target, |edges| - 1) == Success(g1)
    requires AddEdge(g1, edges[|edges| - 1].target, edges[|edges| - 1].source, |edges| - 1) == Success(g)
    ensures g.adj[NULL] == g0.adj[NULL] && Complete(n, edges, g)
  {
    var k := |edges| - 1;
    var u := edges[k].source;
    var v := edges[k].target;
    forall x, y | 0 <= x <= n && y in g0.adj[x]
      ensures y in g.adj[x]
    {
      InPrefix(g0.adj[x], g1.adj[x], y);
      InPrefix(g1.adj[x], g.adj[x], y);
    }
    forall i | 0 <= i < |edges|
      ensures edges[i].target in g.adj[edges[i].source] && edges[i].source in g.adj[edges[i].target]
    {
      if i < k {
        assert edges[..k][i] == edges[i];
      } else {
        assert g.adj[v][|g.adj[v]| - 1] == u;
        assert g1.adj[u][|g1.adj[u]| - 1] == v;
        InPrefix(g1.adj[u], g.adj[u], v);
      }
    }
  }

  /** A list only grows at its end, so earlier members stay members. */
  lemma InPrefix(s: seq<int>, t: seq<int>, y: int)
    requires |s| <= |t| && s == t[..|s|] && y in s
    ensures y in t
  {
    var j :| 0 <= j < |s| && s[j] == y;
    assert t[j] == y;
  }

  /** The lists as the algorithms use them: NULL has none, every entry is a vertex ID. */
  predicate WellFormed(g: GraphInner) {
    && Lockstep(g) && |g.adj| > 0 && g.adj[NULL] == []
    && forall x, j :: 0 <= x < |g.adj| && 0 <= j < |g.adj[x]| ==> 0 < g.adj[x][j] < |g.adj|
  }

  /** y is a neighbour of x exactly when x is a neighbour of y. */
  predicate Symmetric(g: GraphInner) {
    forall x, j :: 0 <= x < |g.adj| && 0 <= j < |g.adj[x]| && 0 <= g.adj[x][j] < |g.adj| ==>
      x in g.adj[g.adj[x][j]]
  }

  /** Every edge joins a left vertex to a vertex that is not left. */
  predicate Bipartite(left: seq<int>, edges: seq<Ends>) {
    forall k :: 0 <= k < |edges| ==> (edges[k].source in left) != (edges[k].target in left)
  }

  /** Every list entry lies on the other side from its owner. */
  predicate Sided(g: GraphInner, left: seq<int>) {
    forall x, j :: 0 <= x < |g.adj| && 0 <= j < |g.adj[x]| ==> (x in left) != (g.adj[x][j] in left)
  }

  /** The built lists are well formed and symmetric, and bipartite input makes them sided. */
  lemma InnerShape(n: nat, edges: seq<Ends>, left: seq<int>)
    requires IdsIn(n, edges)
    ensures WellFormed(InnerOf(n, edges)) && Symmetric(InnerOf(n, edges))
    ensures Bipartite(left, edges) ==> Sided(InnerOf(n, edges), left)
  {
    var g := InnerOf(n, edges);
    InnerFacts(n, edges);
    forall x, j | 0 <= x < |g.adj| && 0 <= j < |g.adj[x]| && 0 <= g.adj[x][j] < |g.adj|
      ensures x in g.adj[g.adj[x][j]]
    {
      var k := g.orig[x][j];
      assert Joins(edges[k], x, g.adj[x][j]);
    }
    if Bipartite(left, edges) {
      forall x, j | 0 <= x < |g.adj| && 0 <= j < |g.adj[x]|
        ensures (x in left) != (g.adj[x][j] in left)
      {
        var k := g.orig[x][j];
        assert Joins(edges[k], x, g.adj[x][j]);
      }
    }
  }
}
