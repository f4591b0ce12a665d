/**
 * `isTree` of HeavyLightDecomposition: a stack-based search from every
 * unmarked vertex that fails as soon as one popped vertex sees more than one
 * already-marked neighbour (counted per arc).
 *
 * What is proved: a graph passes exactly when it is a forest (no cycle, no
 * parallel edges, no self-loop), through the marking order kept beside the
 * search (see HldMarks). Also proved by counting: a graph that passes has
 * no self-loop and, when it has a vertex, at most n - 1 edges. Every arc
 * is scanned once, and each scan either marks a new vertex or is counted
 * at its popped vertex, where at most one is allowed; so
 * 2|E| = counts + marks - starts <= n + n - 1.
 */
module HldIsTree {
  import opened Adjacency
  import opened HldDfs
  import opened HldForest
  import opened HldMarks

  /** Edge k joins a vertex to itself. */
  predicate SelfLoop(edges: seq<Ends>, k: int)
    requires 0 <= k < |edges|
  {
    edges[k].source == edges[k].target
  }

  /** Marking v takes it out of the unmarked count, if it was in it. */
  lemma {:induction false} UnvisitedMark(b: seq<bool>, v: int, m: nat)
    requires 0 <= v < |b| && m <= |b|
    ensures Unvisited(b[v := true], m) == Unvisited(b, m) - (if v < m && !b[v] then 1 else 0)
  {
    if m > 0 {
      UnvisitedMark(b, v, m - 1);
    }
  }

  lemma {:induction false} UnvisitedBounds(b: seq<bool>, m: nat)
    requires m <= |b|
    ensures 0 <= Unvisited(b, m) <= m
    ensures (forall x :: 0 <= x < m ==> b[x]) ==> Unvisited(b, m) == 0
    ensures (forall x :: 0 <= x < m ==> !b[x]) ==> Unvisited(b, m) == m
  {
    if m > 0 {
      UnvisitedBounds(b, m - 1);
    }
  }

  /** Total length of the lists of the vertices x < m with done[x]. */
  ghost function ArcCount(a: Arcs, done: seq<bool>, m: nat): int
    requires WellLinked(a) && |done| == |a.firstEdge| && m <= |done|
  {
    if m == 0 then 0 else ArcCount(a, done, m - 1) + (if done[m - 1] then |Chain(a, m - 1)| else 0)
  }

  lemma {:induction false} ArcCountMark(a: Arcs, done: seq<bool>, v: int, m: nat)
    requires WellLinked(a) && |done| == |a.firstEdge| && m <= |done| && 0 <= v < |done|
    ensures ArcCount(a, done[v := true], m) ==
            ArcCount(a, done, m) + (if v < m && !done[v] then |Chain(a, v)| else 0)
  {
    if m > 0 {
      ArcCountMark(a, done, v, m - 1);
    }
  }

  lemma {:induction false} ArcCountNone(a: Arcs, done: seq<bool>, m: nat)
    requires WellLinked(a) && |done| == |a.firstEdge| && m <= |done|
    requires forall x :: 0 <= x < |done| ==> !done[x]
    ensures ArcCount(a, done, m) == 0
  {
    if m > 0 {
      ArcCountNone(a, done, m - 1);
    }
  }

  lemma {:induction false} ArcCountEmpty(n: nat, done: seq<bool>, m: nat)
    requires |done| == n && m <= n
    ensures ArcCount(Empty(n), done, m) == 0
  {
    if m > 0 {
      ArcCountEmpty(n, done, m - 1);
    }
  }

  /** One `add` puts one arc on u's list and one on w's. */
  lemma {:induction false} ArcCountAdd(a: Arcs, u: nat, w: nat, done: seq<bool>, m: nat)
    requires WellLinked(a) && u < |a.firstEdge| && w < |a.firstEdge|
    requires |done| == |a.firstEdge| && m <= |done|
    ensures ArcCount(Add(a, u, w), done, m) ==
            ArcCount(a, done, m) + (if u < m && done[u] then 1 else 0) + (if w < m && done[w] then 1 else 0)
  {
    if m > 0 {
      ArcCountAdd(a, u, w, done, m - 1);
      AddChains(a, u, w, m - 1);
    }
  }

  /** With every vertex done, the lists hold all 2|edges| arcs between them. */
  lemma {:induction false} ArcCountBuild(n: nat, edges: seq<Ends>, done: seq<bool>)
    requires EndsIn(n, edges) && |done| == n && forall x :: 0 <= x < n ==> done[x]
    ensures ArcCount(Build(n, edges), done, n) == 2 * |edges|
    decreases |edges|
  {
    if edges == [] {
      ArcCountEmpty(n, done, n);
    } else {
      var k := |edges| - 1;
      var pre := edges[..k];
      assert EndsIn(n, pre);
      var a0 := Build(n, pre);
      assert Build(n, edges) == Add(a0, edges[k].source, edges[k].target);
      ArcCountBuild(n, pre, done);
      ArcCountAdd(a0, edges[k].source, edges[k].target, done, n);
    }
  }

  /** Number of the first k arcs of ch that lead back to v. */
  function Loops(to: seq<int>, ch: seq<int>, v: int, k: nat): nat
    requires k <= |ch| && forall i :: 0 <= i < |ch| ==> 0 <= ch[i] < |to|
  {
    if k == 0 then 0 else Loops(to, ch, v, k - 1) + (if to[ch[k - 1]] == v then 1 else 0)
  }

  /** Two distinct arcs of ch leading to v make Loops at least 2. */
  lemma {:induction false} LoopsTwo(to: seq<int>, ch: seq<int>, v: int, i: int, j: int, k: nat)
    requires k <= |ch| && forall i :: 0 <= i < |ch| ==> 0 <= ch[i] < |to|
    requires 0 <= i < j < k && to[ch[i]] == v && to[ch[j]] == v
    ensures Loops(to, ch, v, k) >= 2
  {
    if j < k - 1 {
      LoopsTwo(to, ch, v, i, j, k - 1);
    } else {
      LoopsAtLeast(to, ch, v, i, k - 1);
    }
  }

  lemma {:induction false} LoopsAtLeast(to: seq<int>, ch: seq<int>, v: int, i: int, k: nat)
    requires k <= |ch| && forall i :: 0 <= i < |ch| ==> 0 <= ch[i] < |to|
    requires 0 <= i < k && to[ch[i]] == v
    ensures Loops(to, ch, v, k) >= 1
  {
    if i < k - 1 {
      LoopsAtLeast(to, ch, v, i, k - 1);
    }
  }

  /** No arc of v's list leads back to v. */
  ghost predicate NoLoopAt(a: Arcs, v: int)
    requires WellLinked(a) && 0 <= v < |a.firstEdge|
  {
    forall e :: e in Chain(a, v) && 0 <= e < |a.to| ==> a.to[e] != v
  }

  /** Every vertex whose list holds at most one arc back to itself has no self-loop. */
  ghost predicate LoopsBarred(a: Arcs)
    requires WellLinked(a)
  {
    forall v :: 0 <= v < |a.firstEdge| && Loops(a.to, Chain(a, v), v, |Chain(a, v)|) <= 1 ==> NoLoopAt(a, v)
  }

  /** The built arcs bar loops: see NoLoopFromCount. */
  lemma BuiltBarsLoops(n: nat, edges: seq<Ends>)
    requires EndsIn(n, edges)
    ensures LoopsBarred(Build(n, edges))
  {
    var a := Build(n, edges);
    forall v | 0 <= v < n && Loops(a.to, Chain(a, v), v, |Chain(a, v)|) <= 1
      ensures NoLoopAt(a, v)
    {
      NoLoopFromCount(n, edges, v);
    }
  }

  /** A self-loop puts both of its arcs on its vertex's list, so at most one such arc means none. */
  lemma NoLoopFromCount(n: nat, edges: seq<Ends>, v: int)
    requires EndsIn(n, edges) && 0 <= v < n
    requires var a := Build(n, edges); Loops(a.to, Chain(a, v), v, |Chain(a, v)|) <= 1
    ensures NoLoopAt(Build(n, edges), v)
  {
    var a := Build(n, edges);
    var ch := Chain(a, v);
    forall e | e in ch && 0 <= e < |a.to|
      ensures a.to[e] != v
    {
      if a.to[e] == v {
        BuildChains(n, edges, v, e);
        var c := Companion(e);
        CompanionBelow(e, |a.to|);
        HeadOfCompanion(edges, c);
        BuildChains(n, edges, v, c);
        var i :| 0 <= i < |ch| && ch[i] == e;
        var j :| 0 <= j < |ch| && ch[j] == c;
        if i < j {
          LoopsTwo(a.to, ch, v, i, j, |ch|);
        } else {
          LoopsTwo(a.to, ch, v, j, i, |ch|);
        }
      }
    }
  }

  /** The ghost bookkeeping of the search. */
  datatype Tally = Tally(done: seq<bool>, scanned: int, counts: int, starts: int)

  /** The stack holds distinct marked vertices not yet done. */
  ghost predicate StackOk(n: nat, vis: seq<bool>, stack: seq<int>, done: seq<bool>)
    requires |vis| == n && |done| == n
  {
    && (forall j :: 0 <= j < |stack| ==> 0 <= stack[j] < n && vis[stack[j]] && !done[stack[j]])
    && (forall j1, j2 :: 0 <= j1 < j2 < |stack| ==> stack[j1] != stack[j2])
  }

  /**
   * Invariant of the search between two pops: done vertices are marked, a
   * marked vertex not done is on the stack, the arcs scanned are those of the
   * done vertices, each scan marked a vertex or was counted, each done
   * vertex was counted at most once, and no done vertex has a self-loop.
   */
  ghost predicate SearchInv(a: Arcs, vis: seq<bool>, stack: seq<int>, t: Tally)
    requires WellLinked(a)
  {
    var n := |a.firstEdge|;
    && |vis| == n && |t.done| == n && StackOk(n, vis, stack, t.done)
    && (forall x :: 0 <= x < n && t.done[x] ==> vis[x])
    && (forall x :: 0 <= x < n && vis[x] && !t.done[x] ==> x in stack)
    && t.scanned == ArcCount(a, t.done, n)
    && t.scanned == t.counts + (n - Unvisited(vis, n)) - t.starts
    && 0 <= t.counts <= n - Unvisited(t.done, n)
    && (forall x :: 0 <= x < n && t.done[x] ==> NoLoopAt(a, x))
  }

  /** The vertices pushed on top of stack0 during one scan: distinct, newly marked. */
  ghost predicate Pushed(n: nat, vis0: seq<bool>, stack0: seq<int>, vis: seq<bool>, stack: seq<int>)
    requires |vis0| == n && |vis| == n
  {
    && |stack0| <= |stack| && stack[..|stack0|] == stack0
    && (forall x :: 0 <= x < n && vis0[x] ==> vis[x])
    && (forall x :: 0 <= x < n && vis[x] && !vis0[x] ==> x in stack[|stack0|..])
    && (forall j :: |stack0| <= j < |stack| ==> 0 <= stack[j] < n && !vis0[stack[j]] && vis[stack[j]])
    && (forall j1, j2 :: |stack0| <= j1 < j2 < |stack| ==> stack[j1] != stack[j2])
  }

  /**
   * Invariant of the arc loop of the popped vertex v after the first k arcs
   * ch[..k] of its list: each arc marked a vertex or was counted, and every
   * arc back to v was counted.
   */
  ghost predicate ScanInv(a: Arcs, v: int, ch: seq<int>, vis0: seq<bool>, stack0: seq<int>,
                          vis: seq<bool>, stack: seq<int>, count: int, k: nat)
    requires WellLinked(a) && 0 <= v < |a.firstEdge| && ch == Chain(a, v)
  {
    var n := |a.firstEdge|;
    && |vis0| == n && |vis| == n && k <= |ch|
    && Pushed(n, vis0, stack0, vis, stack)
    && Unvisited(vis0, n) - Unvisited(vis, n) == k - count
    && count >= Loops(a.to, ch, v, k)
  }

  /** The arc ch[k] leads to the unmarked w, which is marked and pushed. */
  lemma ScanMark(a: Arcs, v: int, ch: seq<int>, vis0: seq<bool>, stack0: seq<int>,
                 vis: seq<bool>, stack: seq<int>, count: int, k: nat)
    requires WellLinked(a) && 0 <= v < |a.firstEdge| && ch == Chain(a, v)
    requires ScanInv(a, v, ch, vis0, stack0, vis, stack, count, k) && k < |ch|
    requires vis0[v] && !vis[a.to[ch[k]]]
    ensures var w := a.to[ch[k]];
      ScanInv(a, v, ch, vis0, stack0, vis[w := true], stack + [w], count, k + 1)
  {
    var n := |a.firstEdge|;
    var w := a.to[ch[k]];
    var stack' := stack + [w];
    UnvisitedMark(vis, w, n);
    assert stack'[..|stack0|] == stack0 by {
      assert stack'[..|stack|] == stack;
    }
    assert stack'[|stack0|..] == stack[|stack0|..] + [w];
  }

  /** The arc ch[k] leads to a marked vertex and is counted. */
  lemma ScanCount(a: Arcs, v: int, ch: seq<int>, vis0: seq<bool>, stack0: seq<int>,
                  vis: seq<bool>, stack: seq<int>, count: int, k: nat)
    requires WellLinked(a) && 0 <= v < |a.firstEdge| && ch == Chain(a, v)
    requires ScanInv(a, v, ch, vis0, stack0, vis, stack, count, k) && k < |ch|
    requires vis[a.to[ch[k]]]
    ensures ScanInv(a, v, ch, vis0, stack0, vis, stack, count + 1, k + 1)
  {
  }

  /**
   * The arc loop of isTree for the popped vertex v: mark and push every
   * unmarked neighbour, count the arcs to marked ones.
   */
  method ScanVertex(a: Arcs, v: int, vis0: seq<bool>, stack0: seq<int>, ghost done: seq<bool>, ghost mk0: Marks)
    returns (vis: seq<bool>, stack: seq<int>, count: int, ghost mk: Marks, ghost extra: int)
    requires WellLinked(a) && 0 <= v < |a.firstEdge| && |vis0| == |a.firstEdge| && vis0[v]
    requires Paired(a) && MarkState(a, vis0, done, mk0, -1) && v in mk0.cur && !done[v]
    ensures ScanInv(a, v, Chain(a, v), vis0, stack0, vis, stack, count, |Chain(a, v)|)
    ensures ScanMarks(a, v, Chain(a, v), |Chain(a, v)|, vis0, vis, done, mk, count, extra)
    ensures mk0.cur <= mk.cur
  {
    vis, stack, count := vis0, stack0, 0;
    mk, extra := mk0, -1;
    ghost var ch := Chain(a, v);
    ghost var k := 0;
    ScanStart(a, v, vis0, done, mk0);
    var e := a.firstEdge[v];
    while e >= 0
      invariant -1 <= e < |a.to| && k <= |ch| && ch[k..] == ChainFrom(a, e)
      invariant ScanInv(a, v, ch, vis0, stack0, vis, stack, count, k)
      invariant ScanMarks(a, v, ch, k, vis0, vis, done, mk, count, extra) && mk0.cur <= mk.cur
      decreases e + 1
    {
      ChainWalk(a, ch, k, e);
      var w := a.to[e];
      if !vis[w] {
        ScanMark(a, v, ch, vis0, stack0, vis, stack, count, k);
        ScanMarkStep(a, v, ch, k, vis0, vis, done, mk, count, extra);
        vis := vis[w := true];
        stack := stack + [w];
        mk := MarkVia(mk, w, e);
      } else {
        ScanCount(a, v, ch, vis0, stack0, vis, stack, count, k);
        ScanCountStep(a, v, ch, k, vis0, vis, done, mk, count, extra);
        if extra < 0 && !(mk.mark[v] >= 0 && e == Companion(mk.mark[v])) {
          extra := e;
        }
        count := count + 1;
      }
      k := k + 1;
      e := a.next[e];
    }
  }

  /** The stack facts after popping v, scanning it and marking it done. */
  lemma PopStack(n: nat, vis0: seq<bool>, stack: seq<int>, done0: seq<bool>, v: int,
                 vis: seq<bool>, stack1: seq<int>)
    requires |vis0| == n && |done0| == n && |vis| == n && StackOk(n, vis0, stack, done0) && |stack| > 0
    requires v == stack[|stack| - 1]
    requires forall x :: 0 <= x < n && vis0[x] && !done0[x] ==> x in stack
    requires forall x :: 0 <= x < n && done0[x] ==> vis0[x]
    requires Pushed(n, vis0, stack[..|stack| - 1], vis, stack1)
    ensures StackOk(n, vis, stack1, done0[v := true])
    ensures forall x :: 0 <= x < n && vis[x] && !done0[v := true][x] ==> x in stack1
  {
    PopStackOk(n, vis0, stack, done0, v, vis, stack1);
    PopStackCovers(n, vis0, stack, done0, v, vis, stack1);
  }

  /** The stack after the pop and the pushes holds distinct marked vertices, none done. */
  lemma PopStackOk(n: nat, vis0: seq<bool>, stack: seq<int>, done0: seq<bool>, v: int,
                   vis: seq<bool>, stack1: seq<int>)
    requires |vis0| == n && |done0| == n && |vis| == n && StackOk(n, vis0, stack, done0) && |stack| > 0
    requires v == stack[|stack| - 1]
    requires forall x :: 0 <= x < n && done0[x] ==> vis0[x]
    requires Pushed(n, vis0, stack[..|stack| - 1], vis, stack1)
    ensures StackOk(n, vis, stack1, done0[v := true])
  {
    var stack0 := stack[..|stack| - 1];
    var done := done0[v := true];
    forall j | 0 <= j < |stack1|
      ensures 0 <= stack1[j] < n && vis[stack1[j]] && !done[stack1[j]]
    {
      if j < |stack0| {
        assert stack1[j] == stack0[j] == stack[j];
      }
    }
    forall j1, j2 | 0 <= j1 < j2 < |stack1|
      ensures stack1[j1] != stack1[j2]
    {
      if j2 < |stack0| {
        assert stack1[j1] == stack[j1] && stack1[j2] == stack[j2];
      } else if j1 < |stack0| {
        assert stack1[j1] == stack[j1];
      }
    }
  }

  /** Every marked vertex not yet done is on the stack after the pop and the pushes. */
  lemma PopStackCovers(n: nat, vis0: seq<bool>, stack: seq<int>, done0: seq<bool>, v: int,
                       vis: seq<bool>, stack1: seq<int>)
    requires |vis0| == n && |done0| == n && |vis| == n && |stack| > 0
    requires v == stack[|stack| - 1] && 0 <= v < n
    requires forall x :: 0 <= x < n && vis0[x] && !done0[x] ==> x in stack
    requires Pushed(n, vis0, stack[..|stack| - 1], vis, stack1)
    ensures forall x :: 0 <= x < n && vis[x] && !done0[v := true][x] ==> x in stack1
  {
    var stack0 := stack[..|stack| - 1];
    var done := done0[v := true];
    forall x | 0 <= x < n && vis[x] && !done[x]
      ensures x in stack1
    {
      if vis0[x] {
        var j :| 0 <= j < |stack| && stack[j] == x;
        assert j < |stack0| && stack1[j] == x;
      } else {
        var j :| 0 <= j < |stack1[|stack0|..]| && stack1[|stack0|..][j] == x;
        assert stack1[|stack0| + j] == x;
      }
    }
  }


  /** Popping v, scanning it with a count of at most 1, and marking it done keeps the search invariant. */
  lemma PopStep(a: Arcs, vis0: seq<bool>, stack: seq<int>, t: Tally,
                v: int, vis: seq<bool>, stack1: seq<int>, count: int)
    requires WellLinked(a) && SearchInv(a, vis0, stack, t) && |stack| > 0
    requires v == stack[|stack| - 1] && 0 <= v < |a.firstEdge|
    requires ScanInv(a, v, Chain(a, v), vis0, stack[..|stack| - 1], vis, stack1, count, |Chain(a, v)|)
    requires count <= 1 && NoLoopAt(a, v)
    ensures SearchInv(a, vis, stack1, Tally(t.done[v := true], t.scanned + |Chain(a, v)|, t.counts + count, t.starts))
    ensures Unvisited(t.done[v := true], |a.firstEdge|) < Unvisited(t.done, |a.firstEdge|)
  {
    var n := |a.firstEdge|;
    UnvisitedMark(t.done, v, n);
    ArcCountMark(a, t.done, v, n);
    PopStack(n, vis0, stack, t.done, v, vis, stack1);
  }

  /**
   * The stack loop of isTree from the marked vertices on stack0: returns
   * cycle = true as soon as a popped vertex counts two marked neighbours.
   */
  method Explore(a: Arcs, vis0: seq<bool>, stack0: seq<int>, ghost t0: Tally, ghost mk0: Marks)
    returns (vis: seq<bool>, cycle: bool, ghost t: Tally, ghost mk: Marks, ghost C: set<int>)
    requires WellLinked(a) && LoopsBarred(a) && Paired(a) && SearchInv(a, vis0, stack0, t0)
    requires MarkState(a, vis0, t0.done, mk0, -1) && forall j :: 0 <= j < |stack0| ==> stack0[j] in mk0.cur
    ensures !cycle ==> SearchInv(a, vis, [], t) && t.starts == t0.starts
    ensures !cycle ==> forall x :: 0 <= x < |a.firstEdge| && vis0[x] ==> vis[x]
    ensures !cycle ==> MarkState(a, vis, t.done, mk, -1)
    ensures cycle ==> Dense(a, C)
  {
    vis, t, mk, C := vis0, t0, mk0, {};
    var stack := stack0;
    while |stack| > 0
      invariant SearchInv(a, vis, stack, t) && t.starts == t0.starts
      invariant forall x :: 0 <= x < |a.firstEdge| && vis0[x] ==> vis[x]
      invariant MarkState(a, vis, t.done, mk, -1) && forall j :: 0 <= j < |stack| ==> stack[j] in mk.cur
      decreases Unvisited(t.done, |a.firstEdge|)
    {
      var v := stack[|stack| - 1];
      ghost var extra;
      ghost var mk1;
      var vis1, stack1, count;
      vis1, stack1, count, mk1, extra := ScanVertex(a, v, vis, stack[..|stack| - 1], t.done, mk);
      if count > 1 {
        DenseAt(a, v, vis, vis1, t.done, mk1, count, extra);
        return vis1, true, t, mk1, mk1.cur;
      }
      PopStep(a, vis, stack, t, v, vis1, stack1, count);
      PopMarks(a, v, vis, vis1, t.done, mk1, count, extra);
      StackInCur(a, v, vis, stack, vis1, stack1, t.done, mk, mk1, count, extra);
      t := Tally(t.done[v := true], t.scanned + |Chain(a, v)|, t.counts + count, t.starts);
      vis, stack, mk := vis1, stack1, mk1;
    }
    return vis, false, t, mk, C;
  }

  /** After the pop and the pushes, the stack still holds members of the current search only. */
  lemma StackInCur(a: Arcs, v: int, vis0: seq<bool>, stack: seq<int>, vis: seq<bool>, stack1: seq<int>,
                   done: seq<bool>, mk0: Marks, mk: Marks, count: int, extra: int)
    requires WellLinked(a) && 0 <= v < |a.firstEdge| && |stack| > 0 && |vis0| == |a.firstEdge|
    requires forall j :: 0 <= j < |stack| ==> stack[j] in mk0.cur
    requires ScanMarks(a, v, Chain(a, v), |Chain(a, v)|, vis0, vis, done, mk, count, extra)
    requires Pushed(|a.firstEdge|, vis0, stack[..|stack| - 1], vis, stack1)
    requires mk0.cur <= mk.cur
    ensures forall j :: 0 <= j < |stack1| ==> stack1[j] in mk.cur
  {
    var stack0 := stack[..|stack| - 1];
    forall j | 0 <= j < |stack1|
      ensures stack1[j] in mk.cur
    {
      if j < |stack0| {
        assert stack1[j] == stack0[j] == stack[j];
      }
    }
  }

  /** Marking the start vertex i and pushing it keeps the search invariant. */
  lemma StartStep(a: Arcs, vis: seq<bool>, t: Tally, i: int)
    requires WellLinked(a) && SearchInv(a, vis, [], t) && 0 <= i < |a.firstEdge| && !vis[i]
    ensures SearchInv(a, vis[i := true], [i], t.(starts := t.starts + 1))
  {
    UnvisitedMark(vis, i, |a.firstEdge|);
  }

  /** A search started from the unmarked vertex i: marks i and keeps every earlier mark. */
  method StartSearch(a: Arcs, vis0: seq<bool>, ghost t0: Tally, i: int, ghost mk0: Marks)
    returns (vis: seq<bool>, cycle: bool, ghost t: Tally, ghost mk: Marks, ghost C: set<int>)
    requires WellLinked(a) && LoopsBarred(a) && Paired(a) && SearchInv(a, vis0, [], t0)
    requires Between(a, vis0, t0.done, mk0)
    requires 0 <= i < |a.firstEdge| && !vis0[i]
    ensures !cycle ==> SearchInv(a, vis, [], t) && t.starts == t0.starts + 1
    ensures !cycle ==> vis[i] && forall x :: 0 <= x < |a.firstEdge| && vis0[x] ==> vis[x]
    ensures !cycle ==> Between(a, vis, t.done, mk)
    ensures cycle ==> Dense(a, C)
  {
    StartStep(a, vis0, t0, i);
    StartMarks(a, vis0, t0.done, mk0, i);
    vis, cycle, t, mk, C := Explore(a, vis0[i := true], [i], t0.(starts := t0.starts + 1), StartAt(mk0, i));
    if !cycle {
      EndMarks(a, vis, t.done, mk);
    }
  }

  /** At the end: all done, so every arc was scanned, which bounds the edge count. */
  lemma Finish(n: nat, edges: seq<Ends>, vis: seq<bool>, t: Tally)
    requires EndsIn(n, edges) && SearchInv(Build(n, edges), vis, [], t)
    requires forall x :: 0 <= x < n ==> vis[x]
    requires n > 0 ==> t.starts >= 1
    ensures forall k :: 0 <= k < |edges| ==> !SelfLoop(edges, k)
    ensures n > 0 ==> |edges| <= n - 1
  {
    var a := Build(n, edges);
    assert forall x :: 0 <= x < n ==> t.done[x];
    ArcCountBuild(n, edges, t.done);
    UnvisitedBounds(vis, n);
    UnvisitedBounds(t.done, n);
    forall k | 0 <= k < |edges|
      ensures !SelfLoop(edges, k)
    {
      var u := edges[k].source;
      PairEnds(edges, k);
      BuildChains(n, edges, u, 2 * k);
      assert NoLoopAt(a, u);
    }
  }

  /**
   * `isTree()`: true when no search step meets two marked neighbours. A graph
   * that passes has no self-loop and, if it has a vertex, at most n - 1
   * edges; with every vertex reachable from vertex 0 it is therefore a tree.
   */
  method IsTree(n: nat, edges: seq<Ends>, a: Arcs) returns (ok: bool)
    requires EndsIn(n, edges) && a == Build(n, edges)
    ensures ok <==> Forest(n, edges)
    ensures ok ==> forall k :: 0 <= k < |edges| ==> !SelfLoop(edges, k)
    ensures ok && n > 0 ==> |edges| <= n - 1
  {
    BuiltBarsLoops(n, edges);
    BuiltPaired(n, edges);
    var vis;
    ghost var t, mk, C;
    ok, vis, t, mk, C := Sweep(a);
    if ok {
      Finish(n, edges, vis, t);
      PassedForest(n, edges, vis, t, mk);
    } else {
      BuiltWithin(n, edges, C);
    }
  }

  /** A graph every search passed is a forest: every set of vertices spans fewer edges than it has. */
  lemma PassedForest(n: nat, edges: seq<Ends>, vis: seq<bool>, t: Tally, mk: Marks)
    requires EndsIn(n, edges) && Paired(Build(n, edges)) && SearchInv(Build(n, edges), vis, [], t)
    requires forall x :: 0 <= x < n ==> vis[x]
    requires Between(Build(n, edges), vis, t.done, mk)
    ensures Forest(n, edges)
  {
    var a := Build(n, edges);
    assert NoLoops(a) by {
      forall x, e | 0 <= x < n && e in Chain(a, x) && 0 <= e < |a.to|
        ensures a.to[e] != x
      {
        assert NoLoopAt(a, x);
      }
    }
    forall S | S != {} && Among(n, S)
      ensures |Within(edges, S)| < |S|
    {
      ForestMarks(a, vis, t.done, mk, S);
      BuiltWithin(n, edges, S);
    }
  }

  /**
   * The outer loop of isTree: start a search from every vertex still
   * unmarked; stop with false at the first cycle.
   */
  method Sweep(a: Arcs) returns (ok: bool, vis: seq<bool>, ghost t: Tally, ghost mk: Marks, ghost C: set<int>)
    requires WellLinked(a) && LoopsBarred(a) && Paired(a)
    ensures ok ==> SearchInv(a, vis, [], t) && forall x :: 0 <= x < |a.firstEdge| ==> vis[x]
    ensures ok && |a.firstEdge| > 0 ==> t.starts >= 1
    ensures ok ==> Between(a, vis, t.done, mk)
    ensures !ok ==> Dense(a, C)
  {
    var n := |a.firstEdge|;
    vis := Falses(n);
    t := Tally(Falses(n), 0, 0, 0);
    mk, C := Marks(Fill(n, -1), Fill(n, 0), 0, {}, -1), {};
    UnvisitedBounds(vis, n);
    ArcCountNone(a, t.done, n);
    assert Between(a, vis, t.done, mk);
    var i := 0;
    while i < n
      invariant 0 <= i <= n && SearchInv(a, vis, [], t)
      invariant forall j :: 0 <= j < i ==> vis[j]
      invariant t.starts >= 1 || forall x :: 0 <= x < n ==> !vis[x]
      invariant t.starts >= 0
      invariant Between(a, vis, t.done, mk)
    {
      if !vis[i] {
        var cycle;
        vis, cycle, t, mk, C := StartSearch(a, vis, t, i, mk);
        if cycle {
          return false, vis, t, mk, C;
        }
      }
      i := i + 1;
    }
    return true, vis, t, mk, C;
  }
}
