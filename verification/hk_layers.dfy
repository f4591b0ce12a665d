/**
 * `partitionGraph` of HopcroftKarpSimple: a breadth-first search over
 * alternating paths. Free left vertices start at layer 0; a vertex v at a
 * finite layer passes layer[v] + 1 on to the partner match[w] of each
 * neighbour w whose partner still has layer INF. NULL, the partner of every
 * free vertex, is dequeued but never expanded; a finite layer[NULL] means
 * some alternating path ends at a free vertex.
 */
module HkLayers {
  import opened HkGraph

  /** match[]: one entry per slot, each a slot, and NULL unmatched. */
  predicate Slots(g: GraphInner, m: seq<int>) {
    |m| == |g.adj| > 0 && m[NULL] == NULL && forall x :: 0 <= x < |m| ==> 0 <= m[x] < |m|
  }

  /** layer[]: one entry per slot, each between 0 and INF. */
  predicate Layers(g: GraphInner, l: seq<int>) {
    |l| == |g.adj| && forall x :: 0 <= x < |l| ==> 0 <= l[x] <= INF
  }

  /** partitionleft[] holds vertex IDs. */
  predicate LeftIds(g: GraphInner, left: seq<int>) {
    forall i :: 0 <= i < |left| ==> 0 < left[i] < |g.adj|
  }

  /** The number of INF entries. */
  function CountInf(l: seq<int>): (c: nat)
    ensures c <= |l|
  {
    if l == [] then 0 else CountInf(l[..|l| - 1]) + (if l[|l| - 1] == INF then 1 else 0)
  }

  /** Giving an INF entry a finite layer removes one INF. */
  lemma {:induction false} CountInfSet(l: seq<int>, x: int, k: int)
    requires 0 <= x < |l| && l[x] == INF && k != INF
    ensures CountInf(l[x := k]) == CountInf(l) - 1
    decreases |l|
  {
    var n := |l| - 1;
    if x < n {
      CountInfSet(l[..n], x, k);
      assert l[x := k][..n] == l[..n][x := k];
    } else {
      assert l[x := k][..n] == l[..n];
    }
  }

  /** One finite entry leaves fewer INF entries than slots. */
  lemma {:induction false} CountInfBelow(l: seq<int>, x: int)
    requires 0 <= x < |l| && l[x] != INF
    ensures CountInf(l) < |l|
    decreases |l|
  {
    if x < |l| - 1 {
      CountInfBelow(l[..|l| - 1], x);
    }
  }

  /**
   * The layers the search starts from: free left vertices 0, matched left
   * vertices and NULL INF, every other entry as it was.
   */
  function Reset(l: seq<int>, left: seq<int>, m: seq<int>): seq<int>
    requires |m| == |l|
  {
    seq(|l|, x requires 0 <= x < |l| =>
      if x == NULL then INF else if x in left then (if m[x] == NULL then 0 else INF) else l[x])
  }

  /** A free left vertex: queued by the setup loop. */
  predicate Seeded(left: seq<int>, m: seq<int>, x: int)
    requires 0 <= x < |m|
  {
    x in left && m[x] == NULL
  }

  /** A vertex the search gave a finite layer (queued by the search loop). */
  predicate Reached(l1: seq<int>, l: seq<int>, x: int)
    requires 0 <= x < |l1| == |l|
  {
    l1[x] == INF && l[x] != INF
  }

  /** A vertex that entered the queue. */
  predicate Touched(left: seq<int>, m: seq<int>, l1: seq<int>, l: seq<int>, x: int)
    requires 0 <= x < |m| == |l1| == |l|
  {
    Seeded(left, m, x) || Reached(l1, l, x)
  }

  /** Every neighbour's partner of v has a finite layer: v has been expanded. */
  predicate Expanded(g: GraphInner, m: seq<int>, l: seq<int>, v: int)
    requires WellFormed(g) && Slots(g, m) && |l| == |m| && 0 <= v < |m|
  {
    forall j :: 0 <= j < |g.adj[v]| ==> l[m[g.adj[v][j]]] != INF
  }

  /** x got its layer from the j-th neighbour of a queued vertex v: one more than v's. */
  predicate Derived(g: GraphInner, left: seq<int>, m: seq<int>, l1: seq<int>, l: seq<int>, x: int, v: int, j: int)
    requires WellFormed(g) && Slots(g, m) && |l1| == |l| == |m| && 0 <= x < |m|
  {
    && l1[x] == INF && 0 < v < |m| && 0 <= j < |g.adj[v]| && m[g.adj[v][j]] == x
    && Touched(left, m, l1, l, v) && l[v] != INF && l[x] == l[v] + 1
  }

  /**
   * The search state apart from expansion: every queued vertex entered the
   * queue, every vertex that should have entered it did, the queued ones not
   * yet dequeued sit below the bound that keeps layer + 1 short of INF, and
   * every changed layer is derived.
   */
  ghost predicate Core(g: GraphInner, left: seq<int>, m: seq<int>, l1: seq<int>, l: seq<int>,
                       q: seq<int>, head: nat, pv: seq<int>, pj: seq<int>)
    requires WellFormed(g) && Slots(g, m)
  {
    && Layers(g, l) && |l1| == |l| && |pv| == |l| && |pj| == |l| && head <= |q|
    && (forall j :: 0 <= j < |q| ==> 0 <= q[j] < |l| && Touched(left, m, l1, l, q[j]))
    && (forall x :: 0 <= x < |l| && Touched(left, m, l1, l, x) ==> x in q)
    && (forall j :: head <= j < |q| ==> l[q[j]] != INF && l[q[j]] < |l| - CountInf(l))
    && (forall x :: 0 <= x < |l| && l[x] != l1[x] ==> Derived(g, left, m, l1, l, x, pv[x], pj[x]))
  }

  /** The first k queued vertices are NULL or expanded. */
  ghost predicate ExpandedUpTo(g: GraphInner, m: seq<int>, l: seq<int>, q: seq<int>, k: nat)
    requires WellFormed(g) && Slots(g, m) && |l| == |m|
  {
    k <= |q| && forall j :: 0 <= j < k ==> 0 <= q[j] < |m| && (q[j] == NULL || Expanded(g, m, l, q[j]))
  }

  /** Inside the expansion of v: the neighbours before the i-th have partners with finite layers. */
  ghost predicate Expanding(g: GraphInner, m: seq<int>, l: seq<int>, v: int, i: nat)
    requires WellFormed(g) && Slots(g, m) && |l| == |m| && 0 <= v < |m|
  {
    && i <= |g.adj[v]| && v != NULL && l[v] != INF && l[v] < |l| - CountInf(l)
    && forall k :: 0 <= k < i ==> l[m[g.adj[v][k]]] != INF
  }

  /** Handing layer[v] + 1 to the partner u of v's i-th neighbour keeps the search state. */
  lemma SetLayer(g: GraphInner, left: seq<int>, m: seq<int>, l1: seq<int>, l: seq<int>,
                 q: seq<int>, head: nat, pv: seq<int>, pj: seq<int>, v: int, i: nat)
    requires WellFormed(g) && |g.adj| < INF && Slots(g, m)
    requires 0 < head && Core(g, left, m, l1, l, q, head, pv, pj) && ExpandedUpTo(g, m, l, q, head - 1)
    requires q[head - 1] == v && Expanding(g, m, l, v, i) && i < |g.adj[v]|
    requires l[m[g.adj[v][i]]] == INF
    ensures var u := m[g.adj[v][i]];
      var l' := l[u := l[v] + 1];
      && l[v] + 1 != INF && CountInf(l') == CountInf(l) - 1
      && Core(g, left, m, l1, l', q + [u], head, pv[u := v], pj[u := i])
      && ExpandedUpTo(g, m, l', q + [u], head - 1) && Expanding(g, m, l', v, i + 1)
  {
    var u := m[g.adj[v][i]];
    CountInfSet(l, u, l[v] + 1);
    SetLayerCore(g, left, m, l1, l, q, head, pv, pj, v, i);
    SetLayerExpanding(g, m, l, q, head, v, i);
  }

  /** The search-state half of SetLayer. */
  lemma SetLayerCore(g: GraphInner, left: seq<int>, m: seq<int>, l1: seq<int>, l: seq<int>,
                     q: seq<int>, head: nat, pv: seq<int>, pj: seq<int>, v: int, i: nat)
    requires WellFormed(g) && |g.adj| < INF && Slots(g, m)
    requires 0 < head && Core(g, left, m, l1, l, q, head, pv, pj)
    requires q[head - 1] == v && Expanding(g, m, l, v, i) && i < |g.adj[v]|
    requires l[m[g.adj[v][i]]] == INF
    ensures var u := m[g.adj[v][i]];
      Core(g, left, m, l1, l[u := l[v] + 1], q + [u], head, pv[u := v], pj[u := i])
  {
    var u := m[g.adj[v][i]];
    var l' := l[u := l[v] + 1];
    CountInfSet(l, u, l[v] + 1);
    assert Touched(left, m, l1, l, v) by {
      var j :| 0 <= j < |q| && q[j] == v;
    }
    assert l1[u] == INF;
    SetLayerTouched(left, m, l1, l, q, u, l[v] + 1);
    SetLayerDerived(g, left, m, l1, l, pv, pj, v, i);
    SetLayerQueue(left, m, l1, l, q, head, u, l[v] + 1);
  }

  /** The queue with u appended: every entry touched, the pending ones still under the bound. */
  lemma SetLayerQueue(left: seq<int>, m: seq<int>, l1: seq<int>, l: seq<int>, q: seq<int>, head: nat, u: int, k: int)
    requires |m| == |l1| == |l| && 0 <= u < |l| && l[u] == INF && l1[u] == INF && k != INF && 0 <= k
    requires head <= |q| && k < |l| - CountInf(l) + 1
    requires forall j :: 0 <= j < |q| ==> 0 <= q[j] < |l| && Touched(left, m, l1, l, q[j])
    requires forall j :: head <= j < |q| ==> l[q[j]] != INF && l[q[j]] < |l| - CountInf(l)
    ensures var l' := l[u := k]; var q' := q + [u];
      && CountInf(l') == CountInf(l) - 1
      && (forall j :: 0 <= j < |q'| ==> 0 <= q'[j] < |l'| && Touched(left, m, l1, l', q'[j]))
      && (forall j :: head <= j < |q'| ==> l'[q'[j]] != INF && l'[q'[j]] < |l'| - CountInf(l'))
  {
    var l' := l[u := k];
    var q' := q + [u];
    CountInfSet(l, u, k);
    forall j | 0 <= j < |q'|
      ensures 0 <= q'[j] < |l'| && Touched(left, m, l1, l', q'[j])
    {
      if j < |q| {
        assert q'[j] == q[j] && Touched(left, m, l1, l, q[j]);
      }
    }
    forall j | head <= j < |q'|
      ensures l'[q'[j]] != INF && l'[q'[j]] < |l'| - CountInf(l')
    {
      if j < |q| {
        assert q'[j] == q[j];
      }
    }
  }

  /** Giving u a finite layer and queueing it keeps every touched vertex queued. */
  lemma SetLayerTouched(left: seq<int>, m: seq<int>, l1: seq<int>, l: seq<int>, q: seq<int>, u: int, k: int)
    requires |m| == |l1| == |l| && 0 <= u < |l|
    requires forall x :: 0 <= x < |l| && Touched(left, m, l1, l, x) ==> x in q
    ensures forall x :: 0 <= x < |l| && Touched(left, m, l1, l[u := k], x) ==> x in q + [u]
  {
    forall x | 0 <= x < |l| && Touched(left, m, l1, l[u := k], x)
      ensures x in q + [u]
    {
      if x != u {
        assert Touched(left, m, l1, l, x);
      }
    }
  }

  /** u's new layer is derived from v through its i-th neighbour; the older derivations stand. */
  lemma SetLayerDerived(g: GraphInner, left: seq<int>, m: seq<int>, l1: seq<int>, l: seq<int>,
                        pv: seq<int>, pj: seq<int>, v: int, i: nat)
    requires WellFormed(g) && Slots(g, m) && |l1| == |l| == |m| && |pv| == |l| && |pj| == |l|
    requires 0 < v < |m| && i < |g.adj[v]| && Touched(left, m, l1, l, v) && l[v] != INF && l[v] + 1 != INF
    requires var u := m[g.adj[v][i]]; l[u] == INF && l1[u] == INF
    requires forall x :: 0 <= x < |l| && l[x] != l1[x] ==> Derived(g, left, m, l1, l, x, pv[x], pj[x])
    ensures var u := m[g.adj[v][i]];
      var l' := l[u := l[v] + 1];
      forall x :: 0 <= x < |l| && l'[x] != l1[x] ==> Derived(g, left, m, l1, l', x, pv[u := v][x], pj[u := i][x])
  {
    var u := m[g.adj[v][i]];
    var l' := l[u := l[v] + 1];
    forall x | 0 <= x < |l| && l'[x] != l1[x]
      ensures Derived(g, left, m, l1, l', x, pv[u := v][x], pj[u := i][x])
    {
      if x != u {
        assert Derived(g, left, m, l1, l, x, pv[x], pj[x]);
      }
    }
  }

  /** The expansion half of SetLayer: finite layers stay finite, so expansion progress is kept. */
  lemma SetLayerExpanding(g: GraphInner, m: seq<int>, l: seq<int>, q: seq<int>, head: nat, v: int, i: nat)
    requires WellFormed(g) && |g.adj| < INF && Slots(g, m) && Layers(g, l) && 0 < head <= |q|
    requires ExpandedUpTo(g, m, l, q, head - 1)
    requires 0 <= v < |m| && Expanding(g, m, l, v, i) && i < |g.adj[v]|
    requires l[m[g.adj[v][i]]] == INF
    ensures var u := m[g.adj[v][i]];
      var l' := l[u := l[v] + 1];
      ExpandedUpTo(g, m, l', q + [u], head - 1) && Expanding(g, m, l', v, i + 1)
  {
    var u := m[g.adj[v][i]];
    CountInfSet(l, u, l[v] + 1);
  }

  /** Dequeuing v: the rest of the queue keeps its bound and v's expansion starts. */
  lemma Dequeue(g: GraphInner, left: seq<int>, m: seq<int>, l1: seq<int>, l: seq<int>,
                q: seq<int>, head: nat, pv: seq<int>, pj: seq<int>)
    requires WellFormed(g) && Slots(g, m)
    requires Core(g, left, m, l1, l, q, head, pv, pj) && ExpandedUpTo(g, m, l, q, head) && head < |q|
    ensures Core(g, left, m, l1, l, q, head + 1, pv, pj)
    ensures q[head] == NULL ==> ExpandedUpTo(g, m, l, q, head + 1)
    ensures q[head] != NULL ==> Expanding(g, m, l, q[head], 0)
  {
  }

  /** With all of v's neighbours done, v counts as expanded. */
  lemma ExpandDone(g: GraphInner, m: seq<int>, l: seq<int>, q: seq<int>, head: nat, v: int)
    requires WellFormed(g) && Slots(g, m) && |l| == |m| && 0 < head <= |q| && q[head - 1] == v
    requires 0 <= v < |m| && ExpandedUpTo(g, m, l, q, head - 1) && Expanding(g, m, l, v, |g.adj[v]|)
    ensures ExpandedUpTo(g, m, l, q, head)
  {
  }

  /** With the queue exhausted, every vertex that entered it other than NULL is expanded. */
  lemma SearchDone(g: GraphInner, left: seq<int>, m: seq<int>, l1: seq<int>, l: seq<int>,
                   q: seq<int>, pv: seq<int>, pj: seq<int>)
    requires WellFormed(g) && Slots(g, m)
    requires Core(g, left, m, l1, l, q, |q|, pv, pj) && ExpandedUpTo(g, m, l, q, |q|)
    ensures forall v :: 0 < v < |l| && Touched(left, m, l1, l, v) ==> Expanded(g, m, l, v)
  {
    forall v | 0 < v < |l| && Touched(left, m, l1, l, v)
      ensures Expanded(g, m, l, v)
    {
      var j :| 0 <= j < |q| && q[j] == v;
    }
  }

  /** The setup loop's layers and queue after the first i left vertices. */
  ghost predicate Seeding(left: seq<int>, m: seq<int>, l0: seq<int>, l: seq<int>, q: seq<int>, i: nat)
    requires |m| == |l0|
  {
    && i <= |left| && |l| == |l0|
    && (forall x :: 0 <= x < |l| ==>
          l[x] == (if x in left[..i] then (if m[x] == NULL then 0 else INF) else l0[x]))
    && (forall j :: 0 <= j < |q| ==> q[j] in left[..i] && 0 <= q[j] < |m| && m[q[j]] == NULL)
    && (forall x :: x in left[..i] && 0 <= x < |m| && m[x] == NULL ==> x in q)
  }

  /** The setup loop's step for the i-th left vertex. */
  lemma SeedStep(left: seq<int>, m: seq<int>, l0: seq<int>, l: seq<int>, q: seq<int>, i: nat)
    requires |m| == |l0| && Seeding(left, m, l0, l, q, i) && i < |left| && 0 <= left[i] < |m|
    ensures var v := left[i];
      if m[v] == NULL then Seeding(left, m, l0, l[v := 0], q + [v], i + 1)
      else Seeding(left, m, l0, l[v := INF], q, i + 1)
  {
    assert left[..i + 1] == left[..i] + [left[i]];
  }

  /** With every left vertex seeded and NULL at INF, the layers are Reset's and the search state holds. */
  lemma SeedDone(g: GraphInner, left: seq<int>, m: seq<int>, l0: seq<int>, l: seq<int>, q: seq<int>)
    requires WellFormed(g) && Slots(g, m) && Layers(g, l0) && LeftIds(g, left)
    requires Seeding(left, m, l0, l, q, |left|)
    ensures var l' := l[NULL := INF]; var z := seq(|l|, _ => 0);
      l' == Reset(l0, left, m) && Core(g, left, m, l', l', q, 0, z, z) && ExpandedUpTo(g, m, l', q, 0)
  {
    assert left[..|left|] == left;
    var l' := l[NULL := INF];
    forall i | 0 <= i < |left|
      ensures left[i] != NULL
    {
    }
    assert l' == Reset(l0, left, m);
    forall j | 0 <= j < |q|
      ensures l'[q[j]] != INF && l'[q[j]] < |l'| - CountInf(l')
    {
      CountInfBelow(l', q[j]);
    }
  }

  /** The setup loop: free left vertices at layer 0 and queued, matched ones INF, then NULL INF. */
  method SeedQueue(g: GraphInner, left: seq<int>, m: seq<int>, l0: seq<int>) returns (l: seq<int>, q: seq<int>)
    requires WellFormed(g) && LeftIds(g, left) && Slots(g, m) && Layers(g, l0)
    ensures var z := seq(|l|, _ => 0);
      l == Reset(l0, left, m) && Core(g, left, m, l, l, q, 0, z, z) && ExpandedUpTo(g, m, l, q, 0)
  {
    q := [];
    l := l0;
    var i := 0;
    while i < |left|
      invariant Seeding(left, m, l0, l, q, i)
    {
      SeedStep(left, m, l0, l, q, i);
      var v := left[i];
      if m[v] == NULL {
        l := l[v := 0];
        q := q + [v];
      } else {
        l := l[v := INF];
      }
      i := i + 1;
    }
    SeedDone(g, left, m, l0, l, q);
    l := l[NULL := INF];
  }

  /**
   * The inner loop for a dequeued vertex v: every neighbour's partner still
   * at INF gets layer[v] + 1 and is queued; each one queued removes one INF.
   */
  method ExpandVertex(g: GraphInner, left: seq<int>, m: seq<int>, ghost l1: seq<int>, l0: seq<int>, q0: seq<int>,
                      ghost head: nat, ghost pv0: seq<int>, ghost pj0: seq<int>, v: int)
    returns (l: seq<int>, q: seq<int>, ghost pv: seq<int>, ghost pj: seq<int>)
    requires WellFormed(g) && |g.adj| < INF && Slots(g, m)
    requires 0 < head && Core(g, left, m, l1, l0, q0, head, pv0, pj0) && ExpandedUpTo(g, m, l0, q0, head - 1)
    requires q0[head - 1] == v && Expanding(g, m, l0, v, 0)
    ensures Core(g, left, m, l1, l, q, head, pv, pj) && ExpandedUpTo(g, m, l, q, head)
    ensures |q0| <= |q| && |q| + CountInf(l) == |q0| + CountInf(l0)
  {
    l, q, pv, pj := l0, q0, pv0, pj0;
    var k := 0;
    while k < |g.adj[v]|
      invariant Core(g, left, m, l1, l, q, head, pv, pj) && ExpandedUpTo(g, m, l, q, head - 1)
      invariant q[head - 1] == v && Expanding(g, m, l, v, k)
      invariant |q0| <= |q| && |q| + CountInf(l) == |q0| + CountInf(l0)
    {
      var u := m[g.adj[v][k]];
      if l[u] == INF {
        SetLayer(g, left, m, l1, l, q, head, pv, pj, v, k);
        l := l[u := l[v] + 1];
        q := q + [u];
        pv := pv[u := v];
        pj := pj[u := k];
      }
      k := k + 1;
    }
    ExpandDone(g, m, l, q, head, v);
  }

  /**
   * `partitionGraph()`. On return the layers are Reset's except for entries
   * that were INF there and got layer[v] + 1 from a queued vertex v through
   * one of v's neighbours; every queued vertex other than NULL has been
   * expanded; the result says whether NULL got a finite layer.
   */
  method PartitionGraph(g: GraphInner, left: seq<int>, m: seq<int>, l0: seq<int>)
    returns (ok: bool, l: seq<int>, ghost pv: seq<int>, ghost pj: seq<int>)
    requires WellFormed(g) && |g.adj| < INF && LeftIds(g, left) && Slots(g, m) && Layers(g, l0)
    ensures Layers(g, l) && |pv| == |l| && |pj| == |l|
    ensures ok <==> l[NULL] != INF
    ensures forall i :: 0 <= i < |left| && m[left[i]] == NULL ==> l[left[i]] == 0
    ensures forall x :: 0 <= x < |l| && l[x] != Reset(l0, left, m)[x] ==>
      Derived(g, left, m, Reset(l0, left, m), l, x, pv[x], pj[x])
    ensures forall v :: 0 < v < |l| && Touched(left, m, Reset(l0, left, m), l, v) ==> Expanded(g, m, l, v)
  {
    var q;
    l, q := SeedQueue(g, left, m, l0);
    ghost var l1 := l;
    pv := seq(|l|, _ => 0);
    pj := seq(|l|, _ => 0);
    var head := 0;
    while head < |q|
      invariant Core(g, left, m, l1, l, q, head, pv, pj) && ExpandedUpTo(g, m, l, q, head)
      decreases CountInf(l), |q| - head
    {
      var v := q[head];
      Dequeue(g, left, m, l1, l, q, head, pv, pj);
      head := head + 1;
      if v != NULL {
        l, q, pv, pj := ExpandVertex(g, left, m, l1, l, q, head, pv, pj, v);
      }
    }
    SearchDone(g, left, m, l1, l, q, pv, pj);
    FreeLeftZero(g, left, m, l1, l, q, pv, pj);
    ok := l[NULL] != INF;
  }

  /** Free left vertices keep the layer 0 Reset gave them. */
  lemma FreeLeftZero(g: GraphInner, left: seq<int>, m: seq<int>, l1: seq<int>, l: seq<int>,
                     q: seq<int>, pv: seq<int>, pj: seq<int>)
    requires WellFormed(g) && Slots(g, m) && LeftIds(g, left) && Core(g, left, m, l1, l, q, |q|, pv, pj)
    requires forall i :: 0 <= i < |left| && m[left[i]] == NULL ==> l1[left[i]] == 0
    ensures forall i :: 0 <= i < |left| && m[left[i]] == NULL ==> l[left[i]] == 0
  {
    forall i | 0 <= i < |left| && m[left[i]] == NULL
      ensures l[left[i]] == 0
    {
      assert l1[left[i]] != INF;
    }
  }
}
