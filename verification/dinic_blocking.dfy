/**
 * `findDeltaFlow` of DinicMaximumFlow: one depth-first search along
 * admissible arcs of the current layering, with per-vertex cursors into the
 * arc lists, pushing the bottleneck residual capacity along the path found.
 */
module DinicBlocking {
  import opened Adjacency
  import opened DinicNetwork

  function MinR(a: real, b: real): real { if a < b then a else b }

  /** Push d units along arc e: `flow[e] += d; flow[e^1] -= d`. */
  function Push(flow: seq<real>, e: nat, d: real): seq<real>
    requires e < |flow| && |flow| % 2 == 0
  {
    CompanionBelow(e, |flow|);
    var f1 := flow[e := flow[e] + d];
    f1[Companion(e) := f1[Companion(e)] + -d]
  }

  /**
   * A push of 0 < d <= capacity[e] - flow[e] keeps the flow invariant, and
   * moves d units of net out-flow from the head of e to its tail.
   */
  lemma PushFacts(net: Network, flow: seq<real>, e: nat, d: real)
    requires Valid(net) && FlowOk(net, flow) && e < |flow|
    requires 0.0 < d <= net.capacity[e] - flow[e]
    ensures FlowOk(net, Push(flow, e, d))
    ensures forall x :: NetOut(net, Push(flow, e, d), x) ==
                        NetOut(net, flow, x) + (if x == ArcTail(net, e) then d else 0.0) - (if x == net.arcs.to[e] then d else 0.0)
  {
    var to := net.arcs.to;
    var c := Companion(e);
    CompanionBelow(e, |to|);
    var f1 := flow[e := flow[e] + d];
    var f2 := f1[c := f1[c] + -d];
    assert Push(flow, e, d) == f2;
    forall x
      ensures NetOut(net, f2, x)
        == NetOut(net, flow, x) + (if x == ArcTail(net, e) then d else 0.0) - (if x == to[e] then d else 0.0)
    {
      OutSumUpdate(to, flow, x, |flow|, e, d);
      OutSumUpdate(to, f1, x, |flow|, c, -d);
    }
    forall f | 0 <= f < |f2|
      ensures f2[f] <= MaxR(net.capacity[f], 0.0) && f2[f] == -f2[Companion(f)]
    {
      CompanionBelow(f, |to|);
      if f != e && f != c {
        assert Companion(f) != e && Companion(f) != c;
      }
    }
  }

  /** Every cursor is an arc of its vertex's list, or -1. */
  ghost predicate CursorsOn(net: Network, cur: seq<int>)
    requires Valid(net)
  {
    |cur| == NumVertices(net) && forall x: nat :: x < |cur| ==> OnChain(net.arcs, x, cur[x])
  }

  /** Every cursor of cur' is that of cur or further down the same list. */
  ghost predicate Advanced(net: Network, cur: seq<int>, cur': seq<int>)
    requires Valid(net)
  {
    && CursorsOn(net, cur) && CursorsOn(net, cur')
    && forall x: nat :: x < |cur| ==> Forward(net.arcs, cur[x], cur'[x])
  }

  lemma AdvancedRefl(net: Network, cur: seq<int>)
    requires Valid(net) && CursorsOn(net, cur)
    ensures Advanced(net, cur, cur)
  {
    forall x: nat | x < |cur|
      ensures Forward(net.arcs, cur[x], cur[x])
    {
      if cur[x] != -1 {
        assert ChainFrom(net.arcs, cur[x])[0] == cur[x];
      }
    }
  }

  lemma AdvancedTrans(net: Network, c0: seq<int>, c1: seq<int>, c2: seq<int>)
    requires Valid(net) && Advanced(net, c0, c1) && Advanced(net, c1, c2)
    ensures Advanced(net, c0, c2)
  {
    forall x: nat | x < |c0|
      ensures Forward(net.arcs, c0[x], c2[x])
    {
      ForwardTransitive(net.arcs, c0[x], c1[x], c2[x]);
    }
  }

  /** The arc after e on a list is further down that list. */
  lemma NextForward(a: Arcs, e: int)
    requires WellLinked(a) && 0 <= e < |a.to|
    ensures Forward(a, e, a.next[e])
  {
    assert ChainFrom(a, e) == [e] + ChainFrom(a, a.next[e]);
    if a.next[e] != -1 {
      assert ChainFrom(a, a.next[e])[0] == a.next[e];
    }
  }

  /** Setting the cursor of v to an arc of v's list past cur[v]. */
  lemma SetCursor(net: Network, cur: seq<int>, cur': seq<int>, v: nat, e: int)
    requires Valid(net) && Advanced(net, cur, cur') && v < |cur|
    requires -1 <= e < |net.arcs.to| && OnChain(net.arcs, v, e) && Forward(net.arcs, cur[v], e)
    ensures Advanced(net, cur, cur'[v := e])
  {
  }

  /** The cursor step `e = next[e], currFirstEdge[v] = e` of findDeltaFlow's loop. */
  lemma CursorStep(net: Network, cur: seq<int>, cur': seq<int>, v: nat, e: int)
    requires Valid(net) && Advanced(net, cur, cur') && v < |cur| && 0 <= e < |net.arcs.to|
    requires OnChain(net.arcs, v, e) && Forward(net.arcs, cur[v], e)
    ensures var e' := net.arcs.next[e];
      && Advanced(net, cur, cur'[v := e'])
      && OnChain(net.arcs, v, e') && Forward(net.arcs, cur[v], e')
  {
    var a := net.arcs;
    NextForward(a, e);
    ForwardTransitive(a, cur[v], e, a.next[e]);
    OnChainForward(a, v, e, a.next[e]);
    SetCursor(net, cur, cur', v, a.next[e]);
  }

  /**
   * flow' is flow plus delta units pushed from v to the sink: it keeps the
   * flow invariant, the net out-flow rises by delta at v and falls by delta at
   * the sink and nowhere else, and no arc leaving a vertex of a lower layer
   * than v changes.
   */
  ghost predicate Pushed(net: Network, dist: seq<int>, flow: seq<real>, flow': seq<real>, v: int, sink: int, delta: real)
    requires Valid(net) && |dist| == NumVertices(net) && |flow| == |net.arcs.to|
    requires 0 <= v < |dist|
  {
    && FlowOk(net, flow')
    && (forall x :: NetOut(net, flow', x) ==
                   NetOut(net, flow, x) + (if x == v then delta else 0.0) - (if x == sink then delta else 0.0))
    && (forall f :: 0 <= f < |flow| && dist[ArcTail(net, f)] < dist[v] ==> flow'[f] == flow[f])
  }

  /** Pushing nothing, or pushing from the sink to itself, changes nothing. */
  lemma PushedNothing(net: Network, dist: seq<int>, flow: seq<real>, v: nat, sink: nat, delta: real)
    requires Valid(net) && FlowOk(net, flow) && |dist| == NumVertices(net) && v < |dist|
    requires delta == 0.0 || v == sink
    ensures Pushed(net, dist, flow, flow, v, sink, delta)
  {
  }

  /**
   * Extending the path found from w = to[e] by the admissible arc e out of v:
   * pushing d on e completes a push of d from v to the sink.
   */
  lemma PushStep(net: Network, dist: seq<int>, flow: seq<real>, v: nat, sink: nat, minFlow: real,
                 e: nat, d: real, flow1: seq<real>)
    requires Valid(net) && FlowOk(net, flow)
    requires |dist| == NumVertices(net) && v < |dist| && e < |flow| && e in Chain(net.arcs, v)
    requires flow[e] < net.capacity[e] && dist[net.arcs.to[e]] == dist[v] + 1
    requires 0.0 < d <= MinR(net.capacity[e] - flow[e], minFlow)
    requires Pushed(net, dist, flow, flow1, net.arcs.to[e], sink, d)
    ensures Pushed(net, dist, flow, Push(flow1, e, d), v, sink, d)
  {
    assert ArcTail(net, e) == v;
    assert flow1[e] == flow[e];
    PushFacts(net, flow1, e, d);
    CompanionBelow(e, |flow|);
    assert ArcTail(net, Companion(e)) == net.arcs.to[e];
  }

  /**
   * The DFS of findDeltaFlow from v. Returns the amount delta pushed along
   * one admissible path from v to the sink (minFlow when v is the sink, 0
   * when no path is found), with the new flow and cursors.
   */
  method FindDeltaFlow(net: Network, dist: seq<int>, flow: seq<real>, cur: seq<int>,
                       v: nat, sink: nat, minFlow: real)
    returns (delta: real, flow': seq<real>, cur': seq<int>)
    requires Valid(net) && FlowOk(net, flow) && CursorsOn(net, cur)
    requires |dist| == NumVertices(net) && v < |dist| && sink < |dist| && dist[v] >= 0
    requires minFlow > 0.0
    ensures 0.0 <= delta <= minFlow && (v == sink ==> delta == minFlow)
    ensures delta == 0.0 ==> flow' == flow
    ensures Pushed(net, dist, flow, flow', v, sink, delta)
    ensures Advanced(net, cur, cur')
    decreases MaxEntry(dist) - dist[v]
  {
    AdvancedRefl(net, cur);
    if v == sink {
      PushedNothing(net, dist, flow, v, sink, minFlow);
      return minFlow, flow, cur;
    }
    var arcs := net.arcs;
    cur' := cur;
    var e := cur[v];
    while e >= 0
      invariant Advanced(net, cur, cur') && cur'[v] == e
      invariant OnChain(arcs, v, e) && Forward(arcs, cur[v], e)
      decreases e + 1
    {
      assert e in Chain(arcs, v);
      var w := arcs.to[e];
      if flow[e] < net.capacity[e] && dist[w] == dist[v] + 1 {
        var newMin := MinR(net.capacity[e] - flow[e], minFlow);
        var d, flow1, cur1 := FindDeltaFlow(net, dist, flow, cur', w, sink, newMin);
        AdvancedTrans(net, cur, cur', cur1);
        if d > 0.0 {
          PushStep(net, dist, flow, v, sink, minFlow, e, d, flow1);
          return d, Push(flow1, e, d), cur1;
        }
        cur' := cur1;
      }
      CursorStep(net, cur, cur', v, e);
      e := arcs.next[e];
      cur' := cur'[v := e];
    }
    PushedNothing(net, dist, flow, v, sink, 0.0);
    return 0.0, flow, cur';
  }
}
