/**
 * `partitionGraph` of DinicMaximumFlow: breadth-first layering of the
 * residual network from the source; the sink is labelled but never expanded.
 */
module DinicLayering {
  import opened Adjacency
  import opened DinicNetwork

  /** Number of -1 ("unreached") entries. */
  function CountUnreached(s: seq<int>): nat {
    if |s| == 0 then 0 else CountUnreached(s[..|s| - 1]) + (if s[|s| - 1] == -1 then 1 else 0)
  }

  /** Labelling one unreached entry lowers the count by one. */
  lemma {:induction false} CountUnreachedUpdate(s: seq<int>, i: nat, x: int)
    requires i < |s| && s[i] == -1 && x != -1
    ensures CountUnreached(s[i := x]) == CountUnreached(s) - 1
    decreases |s|
  {
    var t := s[i := x];
    var j := |s| - 1;
    if i < j {
      assert t[..j] == s[..j][i := x];
      CountUnreachedUpdate(s[..j], i, x);
    } else {
      assert t[..j] == s[..j];
    }
  }

  /**
   * Arc e labels v: it enters v, has residual capacity, and leaves a labelled
   * vertex other than the sink whose layer is one less than v's.
   */
  ghost predicate LayerStep(net: Network, flow: seq<real>, dist: seq<int>, sink: int, e: int, v: int)
    requires Valid(net) && |flow| == |net.arcs.to| && |dist| == NumVertices(net)
  {
    && 0 <= e < |net.arcs.to|
    && Companion(e) < |net.arcs.to|
    && net.arcs.to[e] == v
    && flow[e] < net.capacity[e]
    && var u := net.arcs.to[Companion(e)];
       u != sink && dist[u] >= 0 && dist[v] == dist[u] + 1
  }

  /** Every residual arc leaving u reaches a labelled vertex at most one layer deeper. */
  ghost predicate Expanded(net: Network, flow: seq<real>, dist: seq<int>, u: nat)
    requires Valid(net) && |flow| == |net.arcs.to| && |dist| == NumVertices(net) && u < NumVertices(net)
  {
    forall e :: e in Chain(net.arcs, u) && flow[e] < net.capacity[e] ==>
      dist[net.arcs.to[e]] != -1 && dist[net.arcs.to[e]] <= dist[u] + 1
  }

  /**
   * What partitionGraph leaves in dist: the source has layer 0, every other
   * labelled vertex got its layer through a LayerStep, and the labelled set is
   * closed under residual arcs leaving labelled vertices other than the sink.
   */
  ghost predicate Layered(net: Network, flow: seq<real>, dist: seq<int>, source: nat, sink: nat)
    requires Valid(net) && |flow| == |net.arcs.to| && |dist| == NumVertices(net)
    requires source < NumVertices(net)
  {
    && dist[source] == 0
    && (forall v :: 0 <= v < |dist| ==> dist[v] >= -1)
    && (forall v :: 0 <= v < |dist| && v != source && dist[v] != -1 ==>
          exists e :: LayerStep(net, flow, dist, sink, e, v))
    && (forall u: nat :: u < |dist| && dist[u] != -1 && u != sink ==> Expanded(net, flow, dist, u))
  }

  /** Every residual arc among arcs reaches a labelled vertex of layer at most bound. */
  ghost predicate Closed(net: Network, flow: seq<real>, dist: seq<int>, arcs: seq<int>, bound: int)
    requires Valid(net) && |flow| == |net.arcs.to| && |dist| == NumVertices(net)
  {
    forall f :: f in arcs && 0 <= f < |flow| && flow[f] < net.capacity[f] ==>
      dist[net.arcs.to[f]] != -1 && dist[net.arcs.to[f]] <= bound
  }

  lemma ClosedExtend(net: Network, flow: seq<real>, dist: seq<int>, arcs: seq<int>, e: nat, bound: int)
    requires Valid(net) && |flow| == |net.arcs.to| && |dist| == NumVertices(net) && e < |flow|
    requires Closed(net, flow, dist, arcs, bound)
    requires flow[e] < net.capacity[e] ==> dist[net.arcs.to[e]] != -1 && dist[net.arcs.to[e]] <= bound
    ensures Closed(net, flow, dist, arcs + [e], bound)
  {
  }

  lemma ClosedStable(net: Network, flow: seq<real>, dist: seq<int>, dist': seq<int>, arcs: seq<int>, bound: int)
    requires Valid(net) && |flow| == |net.arcs.to| && |dist| == NumVertices(net)
    requires Extends(dist, dist') && Closed(net, flow, dist, arcs, bound)
    ensures Closed(net, flow, dist', arcs, bound)
  {
  }

  /** dist' only labels vertices dist left unlabelled. */
  ghost predicate Extends(dist: seq<int>, dist': seq<int>) {
    |dist'| == |dist| && forall x :: 0 <= x < |dist| && dist[x] != -1 ==> dist'[x] == dist[x]
  }

  /** Labelling more vertices keeps earlier layer steps valid. */
  lemma LayerStepStable(net: Network, flow: seq<real>, dist: seq<int>, dist': seq<int>, sink: int, e: int, v: int)
    requires Valid(net) && |flow| == |net.arcs.to| && |dist| == NumVertices(net)
    requires Extends(dist, dist')
    requires LayerStep(net, flow, dist, sink, e, v)
    ensures LayerStep(net, flow, dist', sink, e, v)
  {
  }

  /** Labelling more vertices keeps an expanded vertex expanded. */
  lemma ExpandedStable(net: Network, flow: seq<real>, dist: seq<int>, dist': seq<int>, u: nat)
    requires Valid(net) && |flow| == |net.arcs.to| && |dist| == NumVertices(net) && u < NumVertices(net)
    requires Extends(dist, dist') && dist[u] != -1
    requires Expanded(net, flow, dist, u)
    ensures Expanded(net, flow, dist', u)
  {
  }

  /** The queue after labelling v: v joins it unless it is the sink. */
  function Enqueue(q: seq<nat>, v: int, sink: int): seq<nat>
    requires v >= 0
  {
    if v != sink then q + [v as nat] else q
  }

  /**
   * What scanning the list of one vertex does to the BFS state (dist, q, via):
   * it only labels unlabelled vertices, with layer b, each through a
   * LayerStep recorded in via; it appends exactly the newly labelled vertices
   * other than the sink to the queue.
   */
  ghost predicate Grown(net: Network, flow: seq<real>, sink: nat, b: int,
                        dist: seq<int>, q: seq<nat>, via: seq<int>,
                        dist': seq<int>, q': seq<nat>, via': seq<int>)
    requires Valid(net) && |flow| == |net.arcs.to| && |dist| == NumVertices(net)
  {
    && Extends(dist, dist') && |via| == |dist| && |via'| == |dist|
    && (forall x :: 0 <= x < |dist| ==> -1 <= dist'[x] <= b)
    && |q| <= |q'| && q'[..|q|] == q
    && (forall i :: |q| <= i < |q'| ==> q'[i] < |dist| && q'[i] != sink && dist'[q'[i]] == b)
    && (forall x :: 0 <= x < |dist| && dist[x] == -1 && dist'[x] != -1 ==>
          dist'[x] == b && (x in q' || x == sink) && LayerStep(net, flow, dist', sink, via'[x], x))
    && (forall x :: 0 <= x < |dist| && dist[x] != -1 ==> via'[x] == via[x])
    && CountUnreached(dist') <= CountUnreached(dist)
    && (|q'| > |q| ==> CountUnreached(dist') < CountUnreached(dist))
  }

  lemma GrownRefl(net: Network, flow: seq<real>, sink: nat, b: int, dist: seq<int>, q: seq<nat>, via: seq<int>)
    requires Valid(net) && |flow| == |net.arcs.to| && |dist| == NumVertices(net) && |via| == |dist|
    requires forall x :: 0 <= x < |dist| ==> -1 <= dist[x] <= b
    ensures Grown(net, flow, sink, b, dist, q, via, dist, q, via)
  {
    assert q[..|q|] == q;
  }

  /** Labelling the head v of a residual arc e leaving u with layer b = dist[u] + 1. */
  lemma GrownLabel(net: Network, flow: seq<real>, sink: nat, b: int,
                   dist: seq<int>, q: seq<nat>, via: seq<int>,
                   dist1: seq<int>, q1: seq<nat>, via1: seq<int>, u: nat, e: int)
    requires Valid(net) && |flow| == |net.arcs.to| && |dist| == NumVertices(net) && u < |dist|
    requires Grown(net, flow, sink, b, dist, q, via, dist1, q1, via1)
    requires e in Chain(net.arcs, u) && u != sink && dist1[u] == b - 1 >= 0
    requires 0 <= e < |flow| && flow[e] < net.capacity[e] && dist1[net.arcs.to[e]] == -1
    ensures var v := net.arcs.to[e];
      && Extends(dist1, dist1[v := b])
      && Grown(net, flow, sink, b, dist, q, via,
               dist1[v := b], Enqueue(q1, v, sink), via1[v := e])
  {
    var v := net.arcs.to[e];
    var dist2, q2, via2 := dist1[v := b], Enqueue(q1, v, sink), via1[v := e];
    CountUnreachedUpdate(dist1, v, b);
    LabelQueue(dist1, q, q1, sink, b, v);
    NewLabelSteps(net, flow, sink, b, dist, dist1, q1, via1, u, e);
    assert dist[v] == -1;
    GrownIntro(net, flow, sink, b, dist, q, via, dist2, q2, via2);
  }

  /** Queueing a vertex newly labelled b keeps the queue's tail labelled b. */
  lemma LabelQueue(dist1: seq<int>, q: seq<nat>, q1: seq<nat>, sink: nat, b: int, v: nat)
    requires v < |dist1| && |q| <= |q1| && q1[..|q|] == q
    requires forall i :: |q| <= i < |q1| ==> q1[i] < |dist1| && q1[i] != sink && dist1[q1[i]] == b
    ensures var dist2, q2 := dist1[v := b], Enqueue(q1, v, sink);
      && |q| <= |q2| && q2[..|q|] == q
      && forall i :: |q| <= i < |q2| ==> q2[i] < |dist1| && q2[i] != sink && dist2[q2[i]] == b
  {
    var dist2, q2 := dist1[v := b], Enqueue(q1, v, sink);
    assert q2[..|q|] == q by {
      assert q2[..|q1|] == q1;
    }
    forall i | |q| <= i < |q2|
      ensures q2[i] < |dist1| && q2[i] != sink && dist2[q2[i]] == b
    {
      if i < |q1| {
        assert q2[i] == q1[i];
      }
    }
  }

  /** Grown from its clauses. */
  lemma GrownIntro(net: Network, flow: seq<real>, sink: nat, b: int,
                   dist: seq<int>, q: seq<nat>, via: seq<int>,
                   dist': seq<int>, q': seq<nat>, via': seq<int>)
    requires Valid(net) && |flow| == |net.arcs.to| && |dist| == NumVertices(net)
    requires Extends(dist, dist') && |via| == |dist| && |via'| == |dist|
    requires forall x :: 0 <= x < |dist| ==> -1 <= dist'[x] <= b
    requires |q| <= |q'| && q'[..|q|] == q
    requires forall i :: |q| <= i < |q'| ==> q'[i] < |dist| && q'[i] != sink && dist'[q'[i]] == b
    requires forall x :: 0 <= x < |dist| && dist[x] == -1 && dist'[x] != -1 ==>
          dist'[x] == b && (x in q' || x == sink) && LayerStep(net, flow, dist', sink, via'[x], x)
    requires forall x :: 0 <= x < |dist| && dist[x] != -1 ==> via'[x] == via[x]
    requires CountUnreached(dist') <= CountUnreached(dist)
    requires |q'| > |q| ==> CountUnreached(dist') < CountUnreached(dist)
    ensures Grown(net, flow, sink, b, dist, q, via, dist', q', via')
  {
  }

  /** The layer-step part of GrownLabel. */
  lemma NewLabelSteps(net: Network, flow: seq<real>, sink: nat, b: int,
                      dist: seq<int>, dist1: seq<int>, q1: seq<nat>, via1: seq<int>, u: nat, e: int)
    requires Valid(net) && |flow| == |net.arcs.to| && |dist| == NumVertices(net) && u < |dist|
    requires Extends(dist, dist1) && |via1| == |dist|
    requires forall x :: 0 <= x < |dist| && dist[x] == -1 && dist1[x] != -1 ==>
      dist1[x] == b && (x in q1 || x == sink) && LayerStep(net, flow, dist1, sink, via1[x], x)
    requires e in Chain(net.arcs, u) && u != sink && dist1[u] == b - 1 >= 0
    requires 0 <= e < |flow| && flow[e] < net.capacity[e] && dist1[net.arcs.to[e]] == -1
    ensures var v := net.arcs.to[e];
      var dist2, q2, via2 := dist1[v := b], Enqueue(q1, v, sink), via1[v := e];
      forall x :: 0 <= x < |dist| && dist[x] == -1 && dist2[x] != -1 ==>
        dist2[x] == b && (x in q2 || x == sink) && LayerStep(net, flow, dist2, sink, via2[x], x)
  {
    var v := net.arcs.to[e];
    var dist2, q2, via2 := dist1[v := b], Enqueue(q1, v, sink), via1[v := e];
    CompanionBelow(e, |net.arcs.to|);
    assert net.arcs.to[Companion(e)] == u;
    forall x | 0 <= x < |dist| && dist[x] == -1 && dist2[x] != -1
      ensures dist2[x] == b && (x in q2 || x == sink) && LayerStep(net, flow, dist2, sink, via2[x], x)
    {
      if x != v {
        LayerStepStable(net, flow, dist1, dist2, sink, via1[x], x);
      } else if v != sink {
        assert q2[|q2| - 1] == v;
      }
    }
  }

  /**
   * The invariant of the scan of u's list: the arcs ch[..k] before cursor e
   * are done, and the state grew from (dist, q, via) by labelling with b.
   */
  ghost predicate ScanInv(net: Network, flow: seq<real>, sink: nat, u: nat, b: int,
                          dist: seq<int>, q: seq<nat>, via: seq<int>, k: nat, e: int,
                          dist': seq<int>, q': seq<nat>, via': seq<int>)
    requires Valid(net) && |flow| == |net.arcs.to| && |dist| == NumVertices(net) && u < |dist|
  {
    && -1 <= e < |net.arcs.to|
    && k <= |Chain(net.arcs, u)| && Chain(net.arcs, u)[k..] == ChainFrom(net.arcs, e)
    && Grown(net, flow, sink, b, dist, q, via, dist', q', via')
    && dist'[u] == b - 1
    && Closed(net, flow, dist', Chain(net.arcs, u)[..k], b)
  }

  /** Handling arc e, labelling its head when `hit` holds, keeps ScanInv. */
  lemma ScanStep(net: Network, flow: seq<real>, sink: nat, u: nat, b: int,
                 dist: seq<int>, q: seq<nat>, via: seq<int>, k: nat, e: int,
                 dist': seq<int>, q': seq<nat>, via': seq<int>, hit: bool)
    requires Valid(net) && |flow| == |net.arcs.to| && |dist| == NumVertices(net) && u < |dist|
    requires u != sink && b >= 1
    requires ScanInv(net, flow, sink, u, b, dist, q, via, k, e, dist', q', via') && e >= 0
    requires hit == (flow[e] < net.capacity[e] && dist'[net.arcs.to[e]] == -1)
    ensures var v := net.arcs.to[e];
      ScanInv(net, flow, sink, u, b, dist, q, via, k + 1, net.arcs.next[e],
              if hit then dist'[v := b] else dist',
              if hit then Enqueue(q', v, sink) else q',
              if hit then via'[v := e] else via')
  {
    var ch := Chain(net.arcs, u);
    ChainWalk(net.arcs, ch, k, e);
    var v := net.arcs.to[e];
    var dist2 := if hit then dist'[v := b] else dist';
    if hit {
      GrownLabel(net, flow, sink, b, dist, q, via, dist', q', via', u, e);
    }
    ClosedStable(net, flow, dist', dist2, ch[..k], b);
    ClosedExtend(net, flow, dist2, ch[..k], e, b);
  }

  /**
   * One iteration of the BFS loop: scan the list of the dequeued vertex u,
   * label every unlabelled head of a residual arc with layer dist[u] + 1, and
   * enqueue it unless it is the sink.
   */
  method ExpandVertex(net: Network, flow: seq<real>, dist: seq<int>, q: seq<nat>, u: nat, sink: nat,
                      ghost via: seq<int>)
    returns (dist': seq<int>, q': seq<nat>, ghost via': seq<int>)
    requires Valid(net) && |flow| == |net.arcs.to| && |dist| == NumVertices(net) && |via| == |dist|
    requires u < |dist| && u != sink && dist[u] >= 0
    requires forall x :: 0 <= x < |dist| ==> -1 <= dist[x] <= dist[u] + 1
    ensures Grown(net, flow, sink, dist[u] + 1, dist, q, via, dist', q', via')
    ensures Expanded(net, flow, dist', u)
  {
    var arcs := net.arcs;
    var b := dist[u] + 1;
    dist', q', via' := dist, q, via;
    GrownRefl(net, flow, sink, b, dist, q, via);
    ghost var k := 0;
    var e := arcs.firstEdge[u];
    while e >= 0
      invariant ScanInv(net, flow, sink, u, b, dist, q, via, k, e, dist', q', via')
      decreases e + 1
    {
      var v := arcs.to[e];
      var hit := flow[e] < net.capacity[e] && dist'[v] == -1;
      ScanStep(net, flow, sink, u, b, dist, q, via, k, e, dist', q', via', hit);
      if hit {
        dist', q', via' := dist'[v := b], Enqueue(q', v, sink), via'[v := e];
      }
      e := arcs.next[e];
      k := k + 1;
    }
    assert Chain(arcs, u)[..k] == Chain(arcs, u);
  }

  /**
   * The BFS queue: vertices other than the sink, labelled with layer cur or
   * cur + 1, in non-decreasing layer order.
   */
  ghost predicate QueueOk(dist: seq<int>, q: seq<nat>, sink: nat, cur: int) {
    && (forall i :: 0 <= i < |q| ==> q[i] < |dist| && q[i] != sink && cur <= dist[q[i]] <= cur + 1)
    && (forall i, j :: 0 <= i < j < |q| ==> dist[q[i]] <= dist[q[j]])
  }

  lemma QueuePop(dist: seq<int>, q: seq<nat>, sink: nat, cur: int)
    requires QueueOk(dist, q, sink, cur) && |q| > 0
    ensures cur <= dist[q[0]] <= cur + 1
    ensures QueueOk(dist, q[1..], sink, dist[q[0]])
  {
    forall i | 0 <= i < |q[1..]|
      ensures dist[q[0]] <= dist[q[1..][i]]
    {
      assert q[1..][i] == q[i + 1];
    }
  }

  lemma QueueGrow(dist: seq<int>, dist': seq<int>, q: seq<nat>, q': seq<nat>, sink: nat, cur: int)
    requires QueueOk(dist, q, sink, cur) && Extends(dist, dist') && cur >= 0
    requires |q| <= |q'| && q'[..|q|] == q
    requires forall i :: |q| <= i < |q'| ==> q'[i] < |dist| && q'[i] != sink && dist'[q'[i]] == cur + 1
    ensures QueueOk(dist', q', sink, cur)
  {
    forall i | 0 <= i < |q|
      ensures q'[i] == q[i] && dist'[q'[i]] == dist[q[i]]
    {
      assert q'[..|q|][i] == q[i];
    }
  }

  /** The invariant of partitionGraph's BFS loop. */
  ghost predicate BfsInv(net: Network, flow: seq<real>, source: nat, sink: nat,
                         dist: seq<int>, q: seq<nat>, cur: int, done: set<nat>, via: seq<int>)
    requires Valid(net) && |flow| == |net.arcs.to|
  {
    && |dist| == NumVertices(net) && |via| == |dist| && cur >= 0
    && source < |dist| && dist[source] == 0
    && QueueOk(dist, q, sink, cur)
    && (forall v :: 0 <= v < |dist| ==> -1 <= dist[v] <= cur + 1)
    && (forall v :: 0 <= v < |dist| && dist[v] != -1 ==> v in done || v in q || v == sink)
    && (forall w :: w in done ==> w < |dist| && w != sink && 0 <= dist[w] <= cur && Expanded(net, flow, dist, w))
    && (forall v :: 0 <= v < |dist| && v != source && dist[v] != -1 ==> LayerStep(net, flow, dist, sink, via[v], v))
  }

  lemma BfsInit(net: Network, flow: seq<real>, source: nat, sink: nat)
    requires Valid(net) && |flow| == |net.arcs.to|
    requires source < NumVertices(net) && sink < NumVertices(net) && source != sink
    ensures var n := NumVertices(net);
      BfsInv(net, flow, source, sink, Fill(n, -1)[source := 0], [source], 0, {}, Fill(n, -1))
  {
  }

  /** The head of the queue can be expanded. */
  lemma BfsPop(net: Network, flow: seq<real>, source: nat, sink: nat,
               dist: seq<int>, q: seq<nat>, cur: int, done: set<nat>, via: seq<int>)
    requires Valid(net) && |flow| == |net.arcs.to|
    requires BfsInv(net, flow, source, sink, dist, q, cur, done, via) && |q| > 0
    ensures q[0] < |dist| && q[0] != sink && cur <= dist[q[0]]
    ensures forall x :: 0 <= x < |dist| ==> -1 <= dist[x] <= dist[q[0]] + 1
  {
  }

  lemma BfsStep(net: Network, flow: seq<real>, source: nat, sink: nat,
                dist: seq<int>, q: seq<nat>, cur: int, done: set<nat>, via: seq<int>,
                dist': seq<int>, q': seq<nat>, via': seq<int>)
    requires Valid(net) && |flow| == |net.arcs.to|
    requires BfsInv(net, flow, source, sink, dist, q, cur, done, via) && |q| > 0
    requires q[0] < |dist| && dist[q[0]] >= 0
    requires Grown(net, flow, sink, dist[q[0]] + 1, dist, q[1..], via, dist', q', via')
    requires Expanded(net, flow, dist', q[0])
    ensures BfsInv(net, flow, source, sink, dist', q', dist[q[0]], done + {q[0]}, via')
  {
    var u := q[0];
    var c := dist[u];
    QueuePop(dist, q, sink, cur);
    QueueGrow(dist, dist', q[1..], q', sink, c);
    BfsStepDone(net, flow, sink, dist, dist', done, u, c);
    BfsStepVia(net, flow, source, sink, dist, via, dist', via');
    BfsStepCovered(net, flow, sink, dist, q, done, dist', q');
  }

  /** Expanded vertices stay expanded and the head of the queue joins them. */
  lemma BfsStepDone(net: Network, flow: seq<real>, sink: nat, dist: seq<int>, dist': seq<int>,
                    done: set<nat>, u: nat, c: int)
    requires Valid(net) && |flow| == |net.arcs.to| && |dist| == NumVertices(net)
    requires Extends(dist, dist') && u < |dist| && u != sink && dist[u] == c >= 0
    requires forall w :: w in done ==> w < |dist| && w != sink && 0 <= dist[w] <= c && Expanded(net, flow, dist, w)
    requires Expanded(net, flow, dist', u)
    ensures forall w :: w in done + {u} ==>
              w < |dist| && w != sink && 0 <= dist'[w] <= c && Expanded(net, flow, dist', w)
  {
    forall w | w in done + {u}
      ensures w < |dist| && w != sink && 0 <= dist'[w] <= c && Expanded(net, flow, dist', w)
    {
      if w != u {
        ExpandedStable(net, flow, dist, dist', w);
      }
    }
  }

  /** Layer steps recorded before the scan still hold after it. */
  lemma BfsStepVia(net: Network, flow: seq<real>, source: nat, sink: nat, dist: seq<int>,
                   via: seq<int>, dist': seq<int>, via': seq<int>)
    requires Valid(net) && |flow| == |net.arcs.to| && |dist| == NumVertices(net)
    requires Extends(dist, dist') && |via| == |dist| && |via'| == |dist|
    requires forall v :: 0 <= v < |dist| && v != source && dist[v] != -1 ==> LayerStep(net, flow, dist, sink, via[v], v)
    requires forall x :: 0 <= x < |dist| && dist[x] == -1 && dist'[x] != -1 ==> LayerStep(net, flow, dist', sink, via'[x], x)
    requires forall x :: 0 <= x < |dist| && dist[x] != -1 ==> via'[x] == via[x]
    ensures forall v :: 0 <= v < |dist| && v != source && dist'[v] != -1 ==> LayerStep(net, flow, dist', sink, via'[v], v)
  {
    forall v | 0 <= v < |dist| && v != source && dist'[v] != -1
      ensures LayerStep(net, flow, dist', sink, via'[v], v)
    {
      if dist[v] != -1 {
        LayerStepStable(net, flow, dist, dist', sink, via[v], v);
      }
    }
  }

  /** Every labelled vertex is expanded, queued or the sink. */
  lemma BfsStepCovered(net: Network, flow: seq<real>, sink: nat, dist: seq<int>, q: seq<nat>,
                       done: set<nat>, dist': seq<int>, q': seq<nat>)
    requires Valid(net) && |flow| == |net.arcs.to| && |dist| == NumVertices(net) && |q| > 0
    requires forall v :: 0 <= v < |dist| && dist[v] != -1 ==> v in done || v in q || v == sink
    requires Extends(dist, dist') && |q[1..]| <= |q'| && q'[..|q[1..]|] == q[1..]
    requires forall x :: 0 <= x < |dist| && dist[x] == -1 && dist'[x] != -1 ==> x in q' || x == sink
    ensures forall v :: 0 <= v < |dist| && dist'[v] != -1 ==> v in done + {q[0]} || v in q' || v == sink
  {
    forall v | 0 <= v < |dist| && dist'[v] != -1
      ensures v in done + {q[0]} || v in q' || v == sink
    {
      if dist[v] != -1 && v in q[1..] {
        var i :| 0 <= i < |q[1..]| && q[1..][i] == v;
        assert q'[..|q[1..]|][i] == v;
      }
    }
  }

  lemma BfsFinal(net: Network, flow: seq<real>, source: nat, sink: nat,
                 dist: seq<int>, cur: int, done: set<nat>, via: seq<int>)
    requires Valid(net) && |flow| == |net.arcs.to| && sink < NumVertices(net)
    requires BfsInv(net, flow, source, sink, dist, [], cur, done, via)
    ensures Layered(net, flow, dist, source, sink)
  {
    forall v | 0 <= v < |dist| && v != source && dist[v] != -1
      ensures exists e :: LayerStep(net, flow, dist, sink, e, v)
    {
      assert LayerStep(net, flow, dist, sink, via[v], v);
    }
  }

  /** The BFS layering of the residual network from the source vertex, as partitionGraph computes it. */
  method PartitionGraph(net: Network, flow: seq<real>, source: nat, sink: nat) returns (dist: seq<int>)
    requires Valid(net) && |flow| == |net.arcs.to|
    requires source < NumVertices(net) && sink < NumVertices(net) && source != sink
    ensures |dist| == NumVertices(net)
    ensures Layered(net, flow, dist, source, sink)
  {
    var n := NumVertices(net);
    dist := Fill(n, -1)[source := 0];
    var q := [source];
    ghost var cur := 0;
    ghost var done: set<nat> := {};
    ghost var via: seq<int> := Fill(n, -1);
    BfsInit(net, flow, source, sink);
    while |q| > 0
      invariant BfsInv(net, flow, source, sink, dist, q, cur, done, via)
      decreases CountUnreached(dist), |q|
    {
      BfsPop(net, flow, source, sink, dist, q, cur, done, via);
      var u := q[0];
      var dist', q', via' := ExpandVertex(net, flow, dist, q[1..], u, sink, via);
      BfsStep(net, flow, source, sink, dist, q, cur, done, via, dist', q', via');
      cur, done := dist[u], done + {u};
      dist, q, via := dist', q', via';
    }
    BfsFinal(net, flow, source, sink, dist, cur, done, via);
  }
}
