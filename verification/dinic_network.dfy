/**
 * The flow network of DinicMaximumFlow.Network: the paired arc arrays plus a
 * capacity and a flow per arc. As in DinicMaximumFlow, BOTH arcs of an input edge
 * get the edge's capacity, so the residual network is undirected.
 */
module DinicNetwork {
  import opened Adjacency

  /** An input edge of the directed graph: endpoints and weight (capacity). */
  datatype WeightedEdge = WeightedEdge(source: int, target: int, weight: real)

  /** The graph snapshot: vertices 0..numVertices-1, edges in iteration order. */
  datatype FlowGraph = FlowGraph(numVertices: nat, edges: seq<WeightedEdge>)

  datatype Network = Network(arcs: Arcs, capacity: seq<real>, flow: seq<real>)

  function EndsOf(edges: seq<WeightedEdge>): (r: seq<Ends>)
    ensures |r| == |edges|
    ensures forall k :: 0 <= k < |edges| ==> r[k] == Ends(edges[k].source, edges[k].target)
  {
    if edges == [] then []
    else EndsOf(edges[..|edges| - 1]) + [Ends(edges[|edges| - 1].source, edges[|edges| - 1].target)]
  }

  /** Every edge joins two vertices of the graph (the vertex-to-ID map covers them). */
  predicate WellFormed(g: FlowGraph) {
    EndsIn(g.numVertices, EndsOf(g.edges))
  }

  function NumVertices(net: Network): nat { |net.arcs.firstEdge| }

  /**
   * Structural invariant of a network: well-linked arcs, one capacity and one
   * flow per arc, equal capacities on companions, and every arc on v's list
   * has tail v (its companion points back to v).
   */
  ghost predicate Valid(net: Network) {
    && WellLinked(net.arcs)
    && |net.capacity| == |net.arcs.to| && |net.flow| == |net.arcs.to|
    && (forall e :: 0 <= e < |net.capacity| ==> net.capacity[e] == net.capacity[Companion(e)])
    && (forall v: nat, e: int {:trigger e in Chain(net.arcs, v)} :: v < NumVertices(net) && e in Chain(net.arcs, v) ==>
          0 <= e < |net.arcs.to| && net.arcs.to[Companion(e)] == v)
  }

  /** The vertex arc e leaves. */
  function ArcTail(net: Network, e: nat): (t: int)
    requires Valid(net) && e < |net.arcs.to|
    ensures Companion(e) < |net.arcs.to| && t == net.arcs.to[Companion(e)]
  {
    CompanionBelow(e, |net.arcs.to|);
    net.arcs.to[Companion(e)]
  }

  /** Every arc lies on the list of its tail (the converse of Valid's last clause). */
  ghost predicate ArcsListed(net: Network)
    requires Valid(net)
  {
    forall e :: 0 <= e < |net.arcs.to| ==> e in Chain(net.arcs, ArcTail(net, e))
  }

  /** The network built from a graph lists every arc. */
  lemma NewNetworkListed(g: FlowGraph)
    requires WellFormed(g)
    ensures ArcsListed(NewNetwork(g))
  {
    var net := NewNetwork(g);
    var ends := EndsOf(g.edges);
    forall e | 0 <= e < |net.arcs.to|
      ensures e in Chain(net.arcs, ArcTail(net, e))
    {
      BuildChains(g.numVertices, ends, ArcTail(net, e), e);
    }
  }

  function MaxR(a: real, b: real): real { if a < b then b else a }

  /**
   * Flow invariant kept by every push: flows are antisymmetric on companion
   * arcs and no arc carries more than its capacity (or 0 when a capacity
   * within -epsilon of zero is negative).
   */
  ghost predicate FlowOk(net: Network, flow: seq<real>)
    requires Valid(net)
  {
    && |flow| == |net.arcs.to|
    && forall e :: 0 <= e < |flow| ==>
         flow[e] <= MaxR(net.capacity[e], 0.0) && flow[e] == -flow[Companion(e)]
  }

  /** Sum of the flow on the arcs 0..m-1 whose tail is x. */
  function OutSum(to: seq<int>, flow: seq<real>, x: int, m: nat): real
    requires m <= |flow| && |flow| == |to| && |to| % 2 == 0
  {
    if m == 0 then 0.0
    else
      var e := m - 1;
      OutSum(to, flow, x, e) + (if to[Companion(e)] == x then flow[e] else 0.0)
  }

  /** Net flow leaving x: the sum of the flow on all arcs whose tail is x. */
  function NetOut(net: Network, flow: seq<real>, x: int): real
    requires |flow| == |net.arcs.to| && |net.arcs.to| % 2 == 0
  {
    OutSum(net.arcs.to, flow, x, |flow|)
  }

  /** Adding d to the flow of one arc changes only its tail's net out-flow, by d. */
  lemma {:induction false} OutSumUpdate(to: seq<int>, flow: seq<real>, x: int, m: nat, e: nat, d: real)
    requires m <= |flow| && |flow| == |to| && |to| % 2 == 0 && e < |flow|
    ensures OutSum(to, flow[e := flow[e] + d], x, m)
         == OutSum(to, flow, x, m) + (if e < m && to[Companion(e)] == x then d else 0.0)
  {
    if m > 0 {
      OutSumUpdate(to, flow, x, m - 1, e, d);
    }
  }

  /** The all-zero flow leaves every vertex with net out-flow 0. */
  lemma {:induction false} OutSumZero(to: seq<int>, flow: seq<real>, x: int, m: nat)
    requires m <= |flow| && |flow| == |to| && |to| % 2 == 0
    requires forall e :: 0 <= e < |flow| ==> flow[e] == 0.0
    ensures OutSum(to, flow, x, m) == 0.0
  {
    if m > 0 {
      OutSumZero(to, flow, x, m - 1);
    }
  }

  /** `Network(graph)`: arcs 2k/2k+1 for edge k, both with capacity weight_k and flow 0. */
  function NewNetwork(g: FlowGraph): (net: Network)
    requires WellFormed(g)
    ensures Valid(net) && NumVertices(net) == g.numVertices
    ensures |net.arcs.to| == 2 * |g.edges|
    ensures forall k :: 0 <= k < |g.edges| ==>
      && net.arcs.to[2 * k] == g.edges[k].target && net.arcs.to[2 * k + 1] == g.edges[k].source
      && net.capacity[2 * k] == g.edges[k].weight && net.capacity[2 * k + 1] == g.edges[k].weight
    ensures forall e :: 0 <= e < |net.flow| ==> net.flow[e] == 0.0
  {
    var a := Build(g.numVertices, EndsOf(g.edges));
    var cap := ArcCapacities(g.edges);
    var flow := Zeros(2 * |g.edges|);
    PairCapacities(g.edges);
    NewNetworkTails(g, a);
    ValidIntro(a, cap, flow);
    NewNetworkPairs(g, a, cap);
    Network(a, cap, flow)
  }

  /** n zero flows. */
  function Zeros(n: nat): (z: seq<real>)
    ensures |z| == n && forall e :: 0 <= e < n ==> z[e] == 0.0
  {
    if n == 0 then [] else Zeros(n - 1) + [0.0]
  }

  /** Valid from its clauses. */
  lemma ValidIntro(a: Arcs, cap: seq<real>, flow: seq<real>)
    requires WellLinked(a) && |cap| == |a.to| && |flow| == |a.to|
    requires forall e :: 0 <= e < |cap| ==> Companion(e) < |cap| && cap[e] == cap[Companion(e)]
    requires forall v: nat, e: int {:trigger e in Chain(a, v)} :: v < |a.firstEdge| && e in Chain(a, v) ==>
          0 <= e < |a.to| && a.to[Companion(e)] == v
    ensures Valid(Network(a, cap, flow))
  {
  }

  /** Every arc on v's list of the built arcs leaves v. */
  lemma NewNetworkTails(g: FlowGraph, a: Arcs)
    requires WellFormed(g) && a == Build(g.numVertices, EndsOf(g.edges))
    ensures forall v: nat, e: int {:trigger e in Chain(a, v)} :: v < |a.firstEdge| && e in Chain(a, v) ==>
          0 <= e < |a.to| && a.to[Companion(e)] == v
  {
    BuildTails(g.numVertices, EndsOf(g.edges), a);
  }

  /** Arcs 2k and 2k+1 carry edge k's ends and weight. */
  lemma NewNetworkPairs(g: FlowGraph, a: Arcs, cap: seq<real>)
    requires WellFormed(g) && a == Build(g.numVertices, EndsOf(g.edges)) && cap == ArcCapacities(g.edges)
    ensures forall k :: 0 <= k < |g.edges| ==>
      && a.to[2 * k] == g.edges[k].target && a.to[2 * k + 1] == g.edges[k].source
      && cap[2 * k] == g.edges[k].weight && cap[2 * k + 1] == g.edges[k].weight
  {
    forall k | 0 <= k < |g.edges|
      ensures && a.to[2 * k] == g.edges[k].target && a.to[2 * k + 1] == g.edges[k].source
              && cap[2 * k] == g.edges[k].weight && cap[2 * k + 1] == g.edges[k].weight
    {
      PairEnds(EndsOf(g.edges), k);
    }
  }

  /** One capacity per arc: both arcs of edge k carry weight_k. */
  function ArcCapacities(edges: seq<WeightedEdge>): (cap: seq<real>)
    ensures |cap| == 2 * |edges|
    ensures forall k :: 0 <= k < |edges| ==> cap[2 * k] == edges[k].weight && cap[2 * k + 1] == edges[k].weight
  {
    if edges == [] then []
    else ArcCapacities(edges[..|edges| - 1]) + [edges[|edges| - 1].weight, edges[|edges| - 1].weight]
  }

  /** Companion arcs have equal capacities. */
  lemma PairCapacities(edges: seq<WeightedEdge>)
    ensures var cap := ArcCapacities(edges);
      forall e :: 0 <= e < |cap| ==> Companion(e) < |cap| && cap[e] == cap[Companion(e)]
  {
    var cap := ArcCapacities(edges);
    forall e | 0 <= e < |cap|
      ensures Companion(e) < |cap| && cap[e] == cap[Companion(e)]
    {
      CompanionBelow(e, |cap|);
      var k := e / 2;
      assert e == 2 * k || e == 2 * k + 1;
      assert Companion(e) == 2 * k || Companion(e) == 2 * k + 1;
    }
  }

  /** The all-zero flow of a fresh network satisfies the flow invariant. */
  lemma ZeroFlowOk(net: Network)
    requires Valid(net)
    requires forall e :: 0 <= e < |net.flow| ==> net.flow[e] == 0.0
    ensures FlowOk(net, net.flow)
  {
  }
}
