/**
 * The DinicMaximumFlow object: construction with input validation, the
 * phase loop of calculateMaximumFlow, and the accessors.
 */
module DinicSolver {
  import opened Wrappers
  import opened Adjacency
  import opened DinicNetwork
  import opened DinicLayering
  import opened DinicBlocking

  /** `INF`, the bottleneck bound every search starts from. */
  const INF: real := 1000000000000.0
  /** `DEFAULT_EPSILON`. */
  const DEFAULT_EPSILON: real := 0.000000001

  /** The exceptions construction and calculateMaximumFlow throw. */
  datatype DinicError = NullNetwork | InvalidEpsilon | InvalidCapacity | InvalidSource | InvalidSink | SourceEqualsSink

  /**
   * flow' differs from flow by `value` units sent from source to sink: the
   * net out-flow rises by value at the source, falls by value at the sink and
   * is unchanged everywhere else.
   */
  ghost predicate Sends(net: Network, flow: seq<real>, flow': seq<real>, source: int, sink: int, value: real)
    requires |flow| == |net.arcs.to| && |flow'| == |net.arcs.to| && |net.arcs.to| % 2 == 0
  {
    forall x :: NetOut(net, flow', x) ==
                NetOut(net, flow, x) + (if x == source then value else 0.0) - (if x == sink then value else 0.0)
  }

  lemma SendsRefl(net: Network, flow: seq<real>, source: int, sink: int)
    requires |flow| == |net.arcs.to| && |net.arcs.to| % 2 == 0
    ensures Sends(net, flow, flow, source, sink, 0.0)
  {
  }

  lemma SendsTrans(net: Network, f0: seq<real>, f1: seq<real>, f2: seq<real>, source: int, sink: int, a: real, b: real)
    requires |f0| == |net.arcs.to| && |f1| == |net.arcs.to| && |f2| == |net.arcs.to| && |net.arcs.to| % 2 == 0
    requires Sends(net, f0, f1, source, sink, a) && Sends(net, f1, f2, source, sink, b)
    ensures Sends(net, f0, f2, source, sink, a + b)
  {
  }

  /** The sink is unreachable in the residual network of flow: a cut certificate. */
  ghost predicate SinkCut(net: Network, flow: seq<real>, source: nat, sink: nat)
    requires Valid(net) && |flow| == |net.arcs.to|
    requires source < NumVertices(net) && sink < NumVertices(net)
  {
    exists dist: seq<int> :: |dist| == NumVertices(net) && dist[sink] == -1 && Layered(net, flow, dist, source, sink)
  }

  /** Every cursor starts at the head of its list. */
  lemma FirstEdgeCursors(net: Network)
    requires Valid(net)
    ensures CursorsOn(net, net.arcs.firstEdge)
  {
    forall x: nat | x < NumVertices(net)
      ensures OnChain(net.arcs, x, net.arcs.firstEdge[x])
    {
      if net.arcs.firstEdge[x] != -1 {
        assert Chain(net.arcs, x)[0] == net.arcs.firstEdge[x];
      }
    }
  }

  /**
   * The `while (true)` loop of calculateMaximumFlow: layer the residual
   * network, stop when the sink is unreachable, otherwise reset the cursors
   * and push paths until one carries no more than epsilon. Every layering
   * and every search spends one unit of fuel; `complete` is false only when
   * the fuel ran out first.
   */
  method Calculate(net: Network, source: nat, sink: nat, epsilon: real, fuel: nat)
    returns (value: real, flow: seq<real>, complete: bool)
    requires Valid(net) && FlowOk(net, net.flow)
    requires source < NumVertices(net) && sink < NumVertices(net) && source != sink
    ensures value >= 0.0 && FlowOk(net, flow)
    ensures Sends(net, net.flow, flow, source, sink, value)
    ensures complete ==> SinkCut(net, flow, source, sink)
  {
    value, flow, complete := 0.0, net.flow, false;
    SendsRefl(net, net.flow, source, sink);
    var left := fuel;
    while left > 0
      invariant value >= 0.0 && FlowOk(net, flow) && Sends(net, net.flow, flow, source, sink, value)
      decreases left
    {
      left := left - 1;
      var dist := PartitionGraph(net, flow, source, sink);
      if dist[sink] == -1 {
        return value, flow, true;
      }
      var cur := net.arcs.firstEdge;
      FirstEdgeCursors(net);
      var delta := 0.0;
      ghost var flow0 := flow;
      delta, flow, cur := FindDeltaFlow(net, dist, flow, cur, source, sink, INF);
      SendsTrans(net, net.flow, flow0, flow, source, sink, value, delta);
      value := value + delta;
      while delta > epsilon && left > 0
        invariant value >= 0.0 && FlowOk(net, flow) && Sends(net, net.flow, flow, source, sink, value)
        invariant CursorsOn(net, cur)
        decreases left
      {
        left := left - 1;
        flow0 := flow;
        var cur0 := cur;
        delta, flow, cur := FindDeltaFlow(net, dist, flow, cur, source, sink, INF);
        SendsTrans(net, net.flow, flow0, flow, source, sink, value, delta);
        value := value + delta;
      }
    }
  }

  /** The solver object: the input graph, its network, epsilon and the last result. */
  datatype Solver = Solver(graph: FlowGraph, net: Network, epsilon: real,
                           maximumFlow: Option<real>, currentSource: int, currentSink: int)

  /**
   * What every solver satisfies: its network is the one built from its graph
   * (up to the current flow), the flow keeps the flow invariant, epsilon is
   * positive, and either no calculation has happened (no value, both
   * vertices -1) or the last one recorded a value and two distinct vertices.
   */
  ghost predicate SolverOk(s: Solver) {
    && WellFormed(s.graph) && s.epsilon > 0.0
    && s.net.arcs == NewNetwork(s.graph).arcs && s.net.capacity == NewNetwork(s.graph).capacity
    && Valid(s.net) && FlowOk(s.net, s.net.flow)
    && (s.maximumFlow.None? <==> s.currentSource == -1)
    && (s.maximumFlow.None? <==> s.currentSink == -1)
    && (s.maximumFlow.Some? ==>
          0 <= s.currentSource < s.graph.numVertices && 0 <= s.currentSink < s.graph.numVertices
          && s.currentSource != s.currentSink)
  }

  /** Some edge weight is below -epsilon. */
  predicate NegativeCapacity(g: FlowGraph, epsilon: real) {
    exists k :: 0 <= k < |g.edges| && g.edges[k].weight < -epsilon
  }

  /**
   * The constructor: null graph, then non-positive epsilon, then any weight
   * below -epsilon are rejected in that order; otherwise the network is
   * built with zero flow and no result.
   */
  function Construct(g: Option<FlowGraph>, epsilon: real): (r: Result<Solver, DinicError>)
    requires g.Some? ==> WellFormed(g.value)
    ensures g.None? ==> r == Failure(NullNetwork)
    ensures g.Some? && epsilon <= 0.0 ==> r == Failure(InvalidEpsilon)
    ensures g.Some? && epsilon > 0.0 ==> (r.Failure? <==> NegativeCapacity(g.value, epsilon))
    ensures g.Some? && epsilon > 0.0 && r.Failure? ==> r.error == InvalidCapacity
    ensures r.Success? ==>
      && SolverOk(r.value) && r.value.graph == g.value && r.value.epsilon == epsilon
      && r.value.maximumFlow.None?
      && forall e :: 0 <= e < |r.value.net.flow| ==> r.value.net.flow[e] == 0.0
  {
    if g.None? then Failure(NullNetwork)
    else if epsilon <= 0.0 then Failure(InvalidEpsilon)
    else if NegativeCapacity(g.value, epsilon) then Failure(InvalidCapacity)
    else
      var net := NewNetwork(g.value);
      ZeroFlowOk(net);
      Success(Solver(g.value, net, epsilon, None, -1, -1))
  }

  /** The one-argument constructor: DEFAULT_EPSILON. */
  function ConstructDefault(g: Option<FlowGraph>): (r: Result<Solver, DinicError>)
    requires g.Some? ==> WellFormed(g.value)
    ensures r == Construct(g, DEFAULT_EPSILON)
    ensures g.Some? ==> (r.Success? <==> !NegativeCapacity(g.value, DEFAULT_EPSILON))
  {
    Construct(g, DEFAULT_EPSILON)
  }

  /** A vertex argument: present (not null) and known to the network. */
  predicate Known(s: Solver, v: Option<int>) {
    v.Some? && 0 <= v.value < NumVertices(s.net)
  }

  /**
   * calculateMaximumFlow: validates source, then sink, then distinctness,
   * before touching any state; on success records the vertices and the value
   * of the flow sent from source to sink on top of the flow left by earlier
   * calls (arc flows are not reset).
   */
  method CalculateMaximumFlow(s: Solver, source: Option<int>, sink: Option<int>, fuel: nat)
    returns (r: Result<Solver, DinicError>, complete: bool)
    requires SolverOk(s)
    ensures !Known(s, source) ==> r == Failure(InvalidSource)
    ensures Known(s, source) && !Known(s, sink) ==> r == Failure(InvalidSink)
    ensures Known(s, source) && Known(s, sink) && source == sink ==> r == Failure(SourceEqualsSink)
    ensures r.Success? <==> Known(s, source) && Known(s, sink) && source != sink
    ensures r.Success? ==>
      && SolverOk(r.value)
      && r.value.graph == s.graph && r.value.epsilon == s.epsilon
      && r.value.currentSource == source.value && r.value.currentSink == sink.value
      && r.value.maximumFlow.Some? && r.value.maximumFlow.value >= 0.0
      && Sends(s.net, s.net.flow, r.value.net.flow, source.value, sink.value, r.value.maximumFlow.value)
    ensures r.Success? && complete ==> SinkCut(s.net, r.value.net.flow, source.value, sink.value)
  {
    if !Known(s, source) {
      return Failure(InvalidSource), false;
    }
    if !Known(s, sink) {
      return Failure(InvalidSink), false;
    }
    if source == sink {
      return Failure(SourceEqualsSink), false;
    }
    var value, flow;
    value, flow, complete := Calculate(s.net, source.value, sink.value, s.epsilon, fuel);
    var s' := Solver(s.graph, Network(s.net.arcs, s.net.capacity, flow), s.epsilon, Some(value), source.value, sink.value);
    Recorded(s, s');
    r := Success(s');
  }

  /** The solver state calculateMaximumFlow leaves behind. */
  lemma Recorded(s: Solver, s': Solver)
    requires SolverOk(s) && s'.graph == s.graph && s'.epsilon == s.epsilon
    requires s'.net.arcs == s.net.arcs && s'.net.capacity == s.net.capacity
    requires FlowOk(s.net, s'.net.flow) && s'.maximumFlow.Some?
    requires 0 <= s'.currentSource < NumVertices(s.net) && 0 <= s'.currentSink < NumVertices(s.net)
    requires s'.currentSource != s'.currentSink
    ensures SolverOk(s')
  {
    assert s'.net == Network(s.net.arcs, s.net.capacity, s'.net.flow);
    assert Valid(s'.net);
    assert FlowOk(s'.net, s'.net.flow);
  }

  /** getMaximumFlowValue. */
  function GetMaximumFlowValue(s: Solver): (r: Option<real>)
    requires SolverOk(s)
    ensures r.None? <==> s.currentSource == -1
  {
    s.maximumFlow
  }

  /** getCurrentSource: null until the first calculation. */
  function GetCurrentSource(s: Solver): (r: Option<int>)
    requires SolverOk(s)
    ensures r.None? <==> s.maximumFlow.None?
    ensures r.Some? ==> r.value == s.currentSource && 0 <= r.value < s.graph.numVertices
  {
    if s.currentSource == -1 then None else Some(s.currentSource)
  }

  /** getCurrentSink: null until the first calculation. */
  function GetCurrentSink(s: Solver): (r: Option<int>)
    requires SolverOk(s)
    ensures r.None? <==> s.maximumFlow.None?
    ensures r.Some? ==> r.value == s.currentSink && 0 <= r.value < s.graph.numVertices
  {
    if s.currentSink == -1 then None else Some(s.currentSink)
  }

  /** The flow of every input edge: that of its forward arc 2k. */
  function ForwardFlows(flow: seq<real>, m: nat): (f: seq<real>)
    requires 2 * m <= |flow|
    ensures |f| == m && forall k :: 0 <= k < m ==> f[k] == flow[2 * k]
  {
    if m == 0 then [] else ForwardFlows(flow, m - 1) + [flow[2 * (m - 1)]]
  }

  /**
   * getMaximumFlow: null until the first calculation, then one flow value
   * per input edge, the flow of its forward arc, bounded in absolute value by the edge's capacity (or 0
   * for a capacity within epsilon below 0), hence at most weight + epsilon.
   */
  function GetMaximumFlow(s: Solver): (r: Option<seq<real>>)
    requires SolverOk(s)
    ensures r.None? <==> s.maximumFlow.None?
    ensures r.Some? ==> |r.value| == |s.graph.edges|
    ensures r.Some? ==> forall k :: 0 <= k < |r.value| ==> r.value[k] == s.net.flow[2 * k]
    ensures r.Some? ==> forall k :: 0 <= k < |r.value| ==>
      var w := s.graph.edges[k].weight;
      -MaxR(w, 0.0) <= r.value[k] <= MaxR(w, 0.0)
  {
    if s.maximumFlow.None? then None
    else
      ForwardFlowBounds(s);
      Some(ForwardFlows(s.net.flow, |s.graph.edges|))
  }

  /** Both arcs of edge k carry at most MaxR(weight_k, 0), and their flows are opposite. */
  lemma ForwardFlowBounds(s: Solver)
    requires SolverOk(s)
    ensures 2 * |s.graph.edges| == |s.net.flow|
    ensures forall k :: 0 <= k < |s.graph.edges| ==>
      var w := s.graph.edges[k].weight;
      -MaxR(w, 0.0) <= s.net.flow[2 * k] <= MaxR(w, 0.0)
  {
    var g := s.graph;
    forall k | 0 <= k < |g.edges|
      ensures var w := g.edges[k].weight;
        -MaxR(w, 0.0) <= s.net.flow[2 * k] <= MaxR(w, 0.0)
    {
      Half(k);
      assert Companion(2 * k) == 2 * k + 1;
      assert s.net.capacity[2 * k] == g.edges[k].weight && s.net.capacity[2 * k + 1] == g.edges[k].weight;
    }
  }
}
