/**
 * Properties of a finished DinicMaximumFlow run: the cut certificate left by
 * the last layering, the per-vertex balance of the reported edge flows, and
 * the undirected reading of capacities on a three-edge network.
 */
module DinicProperties {
  import opened Wrappers
  import opened Adjacency
  import opened DinicNetwork
  import opened DinicLayering
  import opened DinicBlocking
  import opened DinicSolver

  /**
   * When the last layering leaves the sink unlabelled, the labelled vertices
   * form a cut that every arc leaving it saturates: no flow can be added.
   */
  lemma SaturatedCut(net: Network, flow: seq<real>, dist: seq<int>, source: nat, sink: nat, e: nat)
    requires Valid(net) && ArcsListed(net) && |flow| == |net.arcs.to| && |dist| == NumVertices(net)
    requires source < |dist| && sink < |dist| && dist[sink] == -1
    requires Layered(net, flow, dist, source, sink)
    requires e < |flow| && dist[ArcTail(net, e)] != -1 && dist[net.arcs.to[e]] == -1
    ensures flow[e] >= net.capacity[e]
  {
    var u: nat := ArcTail(net, e);
    assert e in Chain(net.arcs, u);
    assert Expanded(net, flow, dist, u);
  }

  /** A solver's network lists every arc, since its arcs are those built from its graph. */
  lemma SolverListed(s: Solver)
    requires SolverOk(s)
    ensures ArcsListed(s.net)
  {
    NewNetworkListed(s.graph);
    var built := NewNetwork(s.graph);
    forall e | 0 <= e < |s.net.arcs.to|
      ensures e in Chain(s.net.arcs, ArcTail(s.net, e))
    {
      assert ArcTail(s.net, e) == ArcTail(built, e);
    }
  }

  /**
   * The balance the test computes for vertex x from the reported edge flows
   * f: flow on edges entering x minus flow on edges leaving x.
   */
  function Balance(edges: seq<WeightedEdge>, f: seq<real>, x: int, m: nat): real
    requires m <= |edges| && m <= |f|
  {
    if m == 0 then 0.0
    else
      var k := m - 1;
      Balance(edges, f, x, k) + (if edges[k].target == x then f[k] else 0.0) - (if edges[k].source == x then f[k] else 0.0)
  }

  /** The first m edges' balance is minus the net out-flow over their 2m arcs. */
  lemma {:induction false} BalanceOutSum(edges: seq<WeightedEdge>, to: seq<int>, flow: seq<real>, x: int, m: nat)
    requires |to| == 2 * |edges| && |flow| == |to| && m <= |edges|
    requires forall k :: 0 <= k < |edges| ==> to[2 * k] == edges[k].target && to[2 * k + 1] == edges[k].source
    requires forall k :: 0 <= k < |edges| ==> flow[2 * k + 1] == -flow[2 * k]
    ensures Balance(edges, ForwardFlows(flow, |edges|), x, m) == -OutSum(to, flow, x, 2 * m)
  {
    if m > 0 {
      var k := m - 1;
      BalanceOutSum(edges, to, flow, x, k);
      Half(k);
      assert Companion(2 * k) == 2 * k + 1 && Companion(2 * k + 1) == 2 * k;
      assert OutSum(to, flow, x, 2 * m) == OutSum(to, flow, x, 2 * k + 1)
        + (if edges[k].target == x then flow[2 * k + 1] else 0.0);
    }
  }

  /** The reported flows balance at x to minus the net out-flow of x. */
  lemma ReportedBalance(s: Solver, x: int)
    requires SolverOk(s) && s.maximumFlow.Some?
    ensures var f := GetMaximumFlow(s).value;
      Balance(s.graph.edges, f, x, |f|) == -NetOut(s.net, s.net.flow, x)
  {
    var edges := s.graph.edges;
    var to := s.net.arcs.to;
    var flow := s.net.flow;
    assert forall k :: 0 <= k < |edges| ==> to[2 * k] == edges[k].target && to[2 * k + 1] == edges[k].source;
    forall k | 0 <= k < |edges|
      ensures flow[2 * k + 1] == -flow[2 * k]
    {
      Half(k);
      assert Companion(2 * k) == 2 * k + 1;
    }
    BalanceOutSum(edges, to, flow, x, |edges|);
  }

  /**
   * The test's balance check after the first calculation on a fresh solver:
   * the source loses the value, the sink gains it, every other vertex is
   * balanced.
   */
  lemma FirstRunBalance(s0: Solver, s1: Solver, source: int, sink: int, x: int)
    requires SolverOk(s1) && s0.net.arcs.to == s1.net.arcs.to && |s0.net.flow| == |s1.net.flow|
    requires forall e :: 0 <= e < |s0.net.flow| ==> s0.net.flow[e] == 0.0
    requires s1.maximumFlow.Some? && source != sink
    requires Sends(s0.net, s0.net.flow, s1.net.flow, source, sink, s1.maximumFlow.value)
    ensures var f := GetMaximumFlow(s1).value;
      var v := s1.maximumFlow.value;
      Balance(s1.graph.edges, f, x, |f|) == (if x == source then -v else if x == sink then v else 0.0)
  {
    ReportedBalance(s1, x);
    FirstRunNetOut(s0.net, s1.net, s0.net.flow, s1.net.flow, source, sink, s1.maximumFlow.value, x);
  }

  /** From all-zero flows, a run that sends v leaves net out-flow v at the source and -v at the sink. */
  lemma FirstRunNetOut(n0: Network, n1: Network, f0: seq<real>, f1: seq<real>, source: int, sink: int, v: real, x: int)
    requires n0.arcs.to == n1.arcs.to && |f0| == |n0.arcs.to| && |f1| == |f0| && |f0| % 2 == 0
    requires forall e :: 0 <= e < |f0| ==> f0[e] == 0.0
    requires Sends(n0, f0, f1, source, sink, v)
    ensures NetOut(n1, f1, x) == (if x == source then v else 0.0) - (if x == sink then v else 0.0)
  {
    OutSumZero(n0.arcs.to, f0, x, |f0|);
    assert NetOut(n0, f0, x) == 0.0;
    assert NetOut(n0, f1, x) == (if x == source then v else 0.0) - (if x == sink then v else 0.0);
  }

  /**
   * s -> b, a -> b, a -> t with unit capacities (s, b, a, t = 0, 1, 2, 3).
   * There is no directed path from s to t, yet the reverse arc of a -> b has
   * capacity 1 as well, so s -> b -> a -> t is a residual path.
   */
  predicate ThreeEdges(g: FlowGraph) {
    && g.numVertices == 4 && |g.edges| == 3
    && g.edges[0] == WeightedEdge(0, 1, 1.0) && g.edges[1] == WeightedEdge(2, 1, 1.0)
    && g.edges[2] == WeightedEdge(2, 3, 1.0)
  }

  /** The arcs and capacities the constructor builds for ThreeEdges. */
  ghost predicate ThreeEdgesArcs(net: Network) {
    && |net.arcs.firstEdge| == 4 && |net.arcs.to| == 6 && |net.capacity| == 6
    && net.arcs.to[0] == 1 && net.arcs.to[1] == 0 && net.arcs.to[2] == 1
    && net.arcs.to[3] == 2 && net.arcs.to[4] == 3 && net.arcs.to[5] == 2
    && forall e :: 0 <= e < 6 ==> net.capacity[e] == 1.0
  }

  lemma ThreeEdgesShape(g: FlowGraph, net: Network)
    requires ThreeEdges(g) && WellFormed(g) && net == NewNetwork(g)
    ensures ThreeEdgesArcs(net)
  {
    EdgeArcs(g, net, 0);
    EdgeArcs(g, net, 1);
    EdgeArcs(g, net, 2);
    forall e | 0 <= e < 6
      ensures net.capacity[e] == 1.0
    {
      assert e == 0 || e == 1 || e == 2 || e == 3 || e == 4 || e == 5;
    }
  }

  /** The two arcs the constructor builds for edge k. */
  lemma EdgeArcs(g: FlowGraph, net: Network, k: int)
    requires WellFormed(g) && net == NewNetwork(g) && 0 <= k < |g.edges|
    ensures |net.arcs.to| == 2 * |g.edges| && |net.capacity| == 2 * |g.edges| && |net.arcs.firstEdge| == g.numVertices
    ensures net.arcs.to[2 * k] == g.edges[k].target && net.arcs.to[2 * k + 1] == g.edges[k].source
    ensures net.capacity[2 * k] == g.edges[k].weight && net.capacity[2 * k + 1] == g.edges[k].weight
  {
  }

  /** Net out-flows of the six arcs of ThreeEdges. */
  lemma ThreeEdgesNetOut(net: Network, flow: seq<real>)
    requires ThreeEdgesArcs(net) && |flow| == 6
    ensures NetOut(net, flow, 0) == flow[0]
    ensures NetOut(net, flow, 1) == flow[1] + flow[3]
    ensures NetOut(net, flow, 2) == flow[2] + flow[4]
  {
    var to := net.arcs.to;
    forall x
      ensures OutSum(to, flow, x, 6) == (if x == 0 then flow[0] else 0.0) + (if x == 1 then flow[1] + flow[3] else 0.0)
        + (if x == 2 then flow[2] + flow[4] else 0.0) + (if x == 3 then flow[5] else 0.0)
    {
      assert OutSum(to, flow, x, 1) == (if x == 0 then flow[0] else 0.0);
      assert OutSum(to, flow, x, 2) == OutSum(to, flow, x, 1) + (if x == 1 then flow[1] else 0.0);
      assert OutSum(to, flow, x, 3) == OutSum(to, flow, x, 2) + (if x == 2 then flow[2] else 0.0);
      assert OutSum(to, flow, x, 4) == OutSum(to, flow, x, 3) + (if x == 1 then flow[3] else 0.0);
      assert OutSum(to, flow, x, 5) == OutSum(to, flow, x, 4) + (if x == 2 then flow[4] else 0.0);
      assert OutSum(to, flow, x, 6) == OutSum(to, flow, x, 5) + (if x == 3 then flow[5] else 0.0);
    }
  }

  /**
   * On ThreeEdges, any flow that balances at a and b and leaves t unreachable
   * from s sends exactly 1 unit, and edge a -> b (arc 2) carries -1: the flow
   * runs backwards through it.
   */
  lemma ThreeEdgesCut(net: Network, flow: seq<real>, value: real)
    requires ThreeEdgesArcs(net) && Valid(net) && ArcsListed(net) && FlowOk(net, flow)
    requires NetOut(net, flow, 0) == value && NetOut(net, flow, 1) == 0.0 && NetOut(net, flow, 2) == 0.0
    requires SinkCut(net, flow, 0, 3)
    ensures value == 1.0 && flow[2] == -1.0
  {
    ThreeEdgesNetOut(net, flow);
    assert Companion(0) == 1 && Companion(2) == 3 && Companion(4) == 5;
    assert flow[1] == -flow[0] && flow[3] == -flow[2] && flow[5] == -flow[4];
    assert flow[0] <= 1.0 && flow[3] <= 1.0 && flow[4] <= 1.0;
    var dist: seq<int> :| |dist| == 4 && dist[3] == -1 && Layered(net, flow, dist, 0, 3);
    ThreeEdgesSaturated(net, flow, dist);
  }

  /** Some arc of the path s -> b -> a -> t is saturated when t is unreachable. */
  lemma ThreeEdgesSaturated(net: Network, flow: seq<real>, dist: seq<int>)
    requires ThreeEdgesArcs(net) && Valid(net) && ArcsListed(net)
    requires |flow| == |net.arcs.to| && |dist| == 4 && dist[3] == -1
    requires Layered(net, flow, dist, 0, 3)
    ensures flow[0] >= 1.0 || flow[3] >= 1.0 || flow[4] >= 1.0
  {
    assert Companion(0) == 1 && Companion(3) == 2 && Companion(4) == 5;
    assert ArcTail(net, 0) == 0 && ArcTail(net, 3) == 1 && ArcTail(net, 4) == 2;
    assert 0 in Chain(net.arcs, 0) && 3 in Chain(net.arcs, 1) && 4 in Chain(net.arcs, 2);
    assert Expanded(net, flow, dist, 0);
    assert flow[0] < 1.0 ==> dist[1] != -1;
    assert dist[1] != -1 ==> Expanded(net, flow, dist, 1);
    assert dist[1] != -1 && flow[3] < 1.0 ==> dist[2] != -1;
    assert dist[2] != -1 ==> Expanded(net, flow, dist, 2);
  }

  /**
   * A completed calculateMaximumFlow(s, t) on a fresh solver for ThreeEdges
   * reports the value 1 and the flow -1 on edge a -> b, where the directed
   * maximum flow is 0.
   */
  lemma ThreeEdgesRun(s0: Solver, s1: Solver)
    requires SolverOk(s1) && ThreeEdges(s1.graph) && s1.maximumFlow.Some?
    requires s0.net.arcs.to == s1.net.arcs.to && |s0.net.flow| == |s1.net.flow|
    requires forall e :: 0 <= e < |s0.net.flow| ==> s0.net.flow[e] == 0.0
    requires Sends(s0.net, s0.net.flow, s1.net.flow, 0, 3, s1.maximumFlow.value)
    requires SinkCut(s1.net, s1.net.flow, 0, 3)
    ensures s1.maximumFlow == Some(1.0)
    ensures GetMaximumFlow(s1).value[1] == -1.0
  {
    var v := s1.maximumFlow.value;
    forall x
      ensures NetOut(s1.net, s1.net.flow, x) == (if x == 0 then v else 0.0) - (if x == 3 then v else 0.0)
    {
      OutSumZero(s0.net.arcs.to, s0.net.flow, x, |s0.net.flow|);
      assert NetOut(s0.net, s1.net.flow, x) == NetOut(s1.net, s1.net.flow, x);
    }
    var built := NewNetwork(s1.graph);
    ThreeEdgesShape(s1.graph, built);
    assert ThreeEdgesArcs(s1.net);
    SolverListed(s1);
    ThreeEdgesCut(s1.net, s1.net.flow, v);
  }

  /**
   * A completed run on a graph without edges reports 0: with no arcs, no
   * vertex has any net out-flow to gain.
   */
  lemma NoEdgesRun(s0: Solver, s1: Solver, source: int, sink: int)
    requires SolverOk(s1) && |s1.graph.edges| == 0 && s1.maximumFlow.Some? && source != sink
    requires s0.net.arcs.to == s1.net.arcs.to && |s0.net.flow| == |s1.net.flow|
    requires Sends(s0.net, s0.net.flow, s1.net.flow, source, sink, s1.maximumFlow.value)
    ensures s1.maximumFlow == Some(0.0)
  {
    assert |s1.net.flow| == 0;
    assert NetOut(s0.net, s1.net.flow, source) == 0.0 && NetOut(s0.net, s0.net.flow, source) == 0.0;
  }

  /**
   * 1 -> 2, 1 -> 3, 2 -> 4 and 3 -> 4 with capacity 10^9 and 2 -> 3 with
   * capacity 1, the vertices numbered 0..3 in the order 1, 2, 3, 4.
   */
  predicate FiveEdges(g: FlowGraph) {
    && g.numVertices == 4 && |g.edges| == 5
    && g.edges[0] == WeightedEdge(0, 1, 1000000000.0) && g.edges[1] == WeightedEdge(0, 2, 1000000000.0)
    && g.edges[2] == WeightedEdge(1, 2, 1.0) && g.edges[3] == WeightedEdge(1, 3, 1000000000.0)
    && g.edges[4] == WeightedEdge(2, 3, 1000000000.0)
  }

  /** The arcs and capacities the constructor builds for FiveEdges. */
  ghost predicate FiveEdgesArcs(net: Network) {
    && |net.arcs.firstEdge| == 4 && |net.arcs.to| == 10 && |net.capacity| == 10
    && net.arcs.to[0] == 1 && net.arcs.to[1] == 0 && net.arcs.to[2] == 2 && net.arcs.to[3] == 0
    && net.arcs.to[4] == 2 && net.arcs.to[5] == 1 && net.arcs.to[6] == 3 && net.arcs.to[7] == 1
    && net.arcs.to[8] == 3 && net.arcs.to[9] == 2
    && net.capacity[0] == 1000000000.0 && net.capacity[2] == 1000000000.0 && net.capacity[4] == 1.0
    && net.capacity[5] == 1.0 && net.capacity[6] == 1000000000.0 && net.capacity[8] == 1000000000.0
  }

  lemma FiveEdgesShape(g: FlowGraph, net: Network)
    requires FiveEdges(g) && WellFormed(g) && net == NewNetwork(g)
    ensures FiveEdgesArcs(net)
  {
    EdgeArcs(g, net, 0);
    EdgeArcs(g, net, 1);
    EdgeArcs(g, net, 2);
    EdgeArcs(g, net, 3);
    EdgeArcs(g, net, 4);
  }

  /** Net out-flows of the ten arcs of FiveEdges. */
  lemma FiveEdgesNetOut(net: Network, flow: seq<real>)
    requires FiveEdgesArcs(net) && |flow| == 10
    ensures NetOut(net, flow, 0) == flow[0] + flow[2]
    ensures NetOut(net, flow, 1) == flow[1] + flow[4] + flow[6]
    ensures NetOut(net, flow, 2) == flow[3] + flow[5] + flow[8]
  {
    var to := net.arcs.to;
    assert Companion(0) == 1 && Companion(1) == 0 && Companion(2) == 3 && Companion(3) == 2;
    assert Companion(4) == 5 && Companion(5) == 4 && Companion(6) == 7 && Companion(7) == 6;
    assert Companion(8) == 9 && Companion(9) == 8;
    forall x | 0 <= x < 3
      ensures OutSum(to, flow, x, 10) == (if x == 0 then flow[0] + flow[2] else 0.0)
        + (if x == 1 then flow[1] + flow[4] + flow[6] else 0.0) + (if x == 2 then flow[3] + flow[5] + flow[8] else 0.0)
    {
      assert OutSum(to, flow, x, 1) == (if x == 0 then flow[0] else 0.0);
      assert OutSum(to, flow, x, 2) == OutSum(to, flow, x, 1) + (if x == 1 then flow[1] else 0.0);
      assert OutSum(to, flow, x, 3) == OutSum(to, flow, x, 2) + (if x == 0 then flow[2] else 0.0);
      assert OutSum(to, flow, x, 4) == OutSum(to, flow, x, 3) + (if x == 2 then flow[3] else 0.0);
      assert OutSum(to, flow, x, 5) == OutSum(to, flow, x, 4) + (if x == 1 then flow[4] else 0.0);
      assert OutSum(to, flow, x, 6) == OutSum(to, flow, x, 5) + (if x == 2 then flow[5] else 0.0);
      assert OutSum(to, flow, x, 7) == OutSum(to, flow, x, 6) + (if x == 1 then flow[6] else 0.0);
      assert OutSum(to, flow, x, 8) == OutSum(to, flow, x, 7);
      assert OutSum(to, flow, x, 9) == OutSum(to, flow, x, 8) + (if x == 2 then flow[8] else 0.0);
      assert OutSum(to, flow, x, 10) == OutSum(to, flow, x, 9);
    }
  }

  /**
   * On FiveEdges, any flow that balances at vertices 1 and 2 and leaves 3
   * unreachable from 0 sends exactly 2 * 10^9, the value the test expects:
   * the only cuts not crossed by a residual arc are the two of capacity
   * 2 * 10^9.
   */
  lemma FiveEdgesCut(net: Network, flow: seq<real>, value: real)
    requires FiveEdgesArcs(net) && Valid(net) && ArcsListed(net) && FlowOk(net, flow)
    requires NetOut(net, flow, 0) == value && NetOut(net, flow, 1) == 0.0 && NetOut(net, flow, 2) == 0.0
    requires SinkCut(net, flow, 0, 3)
    ensures value == 2000000000.0
  {
    FiveEdgesNetOut(net, flow);
    assert Companion(0) == 1 && Companion(2) == 3 && Companion(4) == 5 && Companion(6) == 7 && Companion(8) == 9;
    assert flow[1] == -flow[0] && flow[3] == -flow[2] && flow[5] == -flow[4];
    assert flow[0] <= 1000000000.0 && flow[2] <= 1000000000.0;
    var dist: seq<int> :| |dist| == 4 && dist[3] == -1 && Layered(net, flow, dist, 0, 3);
    FiveEdgesSaturated(net, flow, dist);
  }

  /** Which arcs a layering that misses vertex 3 finds saturated, by the labels of vertices 1 and 2. */
  lemma FiveEdgesSaturated(net: Network, flow: seq<real>, dist: seq<int>)
    requires FiveEdgesArcs(net) && Valid(net) && ArcsListed(net)
    requires |flow| == |net.arcs.to| && |dist| == 4 && dist[3] == -1
    requires Layered(net, flow, dist, 0, 3)
    ensures dist[1] == -1 ==> flow[0] >= 1000000000.0
    ensures dist[2] == -1 ==> flow[2] >= 1000000000.0
    ensures dist[1] != -1 ==> flow[6] >= 1000000000.0 && (dist[2] == -1 ==> flow[4] >= 1.0)
    ensures dist[2] != -1 ==> flow[8] >= 1000000000.0 && (dist[1] == -1 ==> flow[5] >= 1.0)
  {
    assert Companion(0) == 1 && Companion(2) == 3 && Companion(4) == 5 && Companion(5) == 4;
    assert Companion(6) == 7 && Companion(8) == 9;
    assert ArcTail(net, 0) == 0 && ArcTail(net, 2) == 0 && ArcTail(net, 4) == 1;
    assert ArcTail(net, 5) == 2 && ArcTail(net, 6) == 1 && ArcTail(net, 8) == 2;
    assert 0 in Chain(net.arcs, 0) && 2 in Chain(net.arcs, 0);
    assert 4 in Chain(net.arcs, 1) && 6 in Chain(net.arcs, 1);
    assert 5 in Chain(net.arcs, 2) && 8 in Chain(net.arcs, 2);
    assert Expanded(net, flow, dist, 0);
    assert dist[1] != -1 ==> Expanded(net, flow, dist, 1);
    assert dist[2] != -1 ==> Expanded(net, flow, dist, 2);
  }

  /**
   * A completed calculateMaximumFlow(1, 4) on a fresh solver for FiveEdges
   * reports 2 * 10^9.
   */
  lemma FiveEdgesRun(s0: Solver, s1: Solver)
    requires SolverOk(s1) && FiveEdges(s1.graph) && s1.maximumFlow.Some?
    requires s0.net.arcs.to == s1.net.arcs.to && |s0.net.flow| == |s1.net.flow|
    requires forall e :: 0 <= e < |s0.net.flow| ==> s0.net.flow[e] == 0.0
    requires Sends(s0.net, s0.net.flow, s1.net.flow, 0, 3, s1.maximumFlow.value)
    requires SinkCut(s1.net, s1.net.flow, 0, 3)
    ensures s1.maximumFlow == Some(2000000000.0)
  {
    var v := s1.maximumFlow.value;
    forall x
      ensures NetOut(s1.net, s1.net.flow, x) == (if x == 0 then v else 0.0) - (if x == 3 then v else 0.0)
    {
      OutSumZero(s0.net.arcs.to, s0.net.flow, x, |s0.net.flow|);
      assert NetOut(s0.net, s1.net.flow, x) == NetOut(s1.net, s1.net.flow, x);
    }
    var built := NewNetwork(s1.graph);
    FiveEdgesShape(s1.graph, built);
    assert FiveEdgesArcs(s1.net);
    SolverListed(s1);
    FiveEdgesCut(s1.net, s1.net.flow, v);
  }
}
