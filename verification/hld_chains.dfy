/**
 * The second pass of HeavyLightDecomposition, `computeChainHeads`: from the
 * root down the DFS tree, a heavy vertex takes its parent's chain head and
 * every other vertex heads its own chain.
 */
module HldChains {
  import opened Adjacency
  import opened HldDfs

  /**
   * The arrays after `DFS(0, 0); parent[0] = -1`, as seen from the visited
   * vertices: the root 0 is visited, at depth 0, with parent -1 and not
   * heavy; every other visited vertex lies one level below a visited parent.
   */
  ghost predicate Hung(t: HldState) {
    && Sized(t) && Size(t) > 0
    && t.visited[0] && t.parent[0] == -1 && t.depth[0] == 0 && !t.heavy[0]
    && (forall x :: 0 <= x < Size(t) ==> t.depth[x] >= 0)
    && (forall x :: 0 <= x < Size(t) && t.visited[x] && x != 0 ==>
          0 <= t.parent[x] < Size(t) && t.visited[t.parent[x]] && t.depth[x] == t.depth[t.parent[x]] + 1)
  }

  /**
   * The tree sits in the graph: each visited non-root vertex is reached from
   * its parent by an arc, and every neighbour of a visited vertex is visited.
   */
  ghost predicate Spans(a: Arcs, t: HldState)
    requires Hung(t)
  {
    && WellLinked(a) && Size(t) == |a.firstEdge|
    && (forall x :: 0 <= x < Size(t) && t.visited[x] && x != 0 ==> HasArc(a, t.parent[x], x))
    && (forall x, e :: 0 <= x < Size(t) && t.visited[x] && e in Chain(a, x) && 0 <= e < |a.to| ==>
          t.visited[a.to[e]])
  }

  /** x lies in the subtree of v: x is visited, and climbing parents from x reaches v. */
  ghost predicate Under(t: HldState, v: int, x: int)
    requires Hung(t) && 0 <= v < Size(t) && 0 <= x < Size(t)
    decreases t.depth[x]
  {
    t.visited[x] && (x == v || (x != 0 && t.depth[x] > t.depth[v] && Under(t, v, t.parent[x])))
  }

  /** The chain-head rule at a visited vertex x. */
  ghost predicate HeadRule(t: HldState, head: seq<int>, x: int)
    requires Hung(t) && |head| == Size(t) && 0 <= x < Size(t) && t.visited[x]
  {
    head[x] == (if t.heavy[x] then head[t.parent[x]] else x)
  }

  lemma {:induction false} UnderDepth(t: HldState, v: int, x: int)
    requires Hung(t) && 0 <= v < Size(t) && 0 <= x < Size(t) && Under(t, v, x)
    ensures t.visited[v] && t.depth[x] >= t.depth[v]
    decreases t.depth[x]
  {
    if x != v {
      UnderDepth(t, v, t.parent[x]);
    }
  }

  /** Subtrees of distinct vertices of equal depth are disjoint. */
  lemma {:induction false} UnderDisjoint(t: HldState, c1: int, c2: int, x: int)
    requires Hung(t) && 0 <= c1 < Size(t) && 0 <= c2 < Size(t) && 0 <= x < Size(t)
    requires t.depth[c1] == t.depth[c2] && Under(t, c1, x) && Under(t, c2, x)
    ensures c1 == c2
    decreases t.depth[x]
  {
    if x != c1 && x != c2 {
      UnderDisjoint(t, c1, c2, t.parent[x]);
    }
  }

  /** The subtree of a child of v lies inside the subtree of v. */
  lemma {:induction false} UnderParent(t: HldState, v: int, c: int, x: int)
    requires Hung(t) && 0 <= c < Size(t) && 0 <= x < Size(t)
    requires t.visited[c] && c != 0 && t.parent[c] == v && Under(t, c, x)
    ensures Under(t, v, x)
    decreases t.depth[x]
  {
    if x == c {
      assert Under(t, v, v);
    } else {
      UnderParent(t, v, c, t.parent[x]);
      UnderDepth(t, c, t.parent[x]);
    }
  }

  /** A proper descendant x of v lies below some child of v. */
  lemma {:induction false} TopChild(t: HldState, v: int, x: int) returns (c: int)
    requires Hung(t) && 0 <= v < Size(t) && 0 <= x < Size(t) && Under(t, v, x) && x != v
    ensures 0 <= c < Size(t) && t.visited[c] && c != 0 && t.parent[c] == v && Under(t, c, x)
    decreases t.depth[x]
  {
    var p := t.parent[x];
    if p == v {
      c := x;
    } else {
      c := TopChild(t, v, p);
      UnderDepth(t, c, p);
    }
  }

  /** Every visited vertex lies in the root's subtree. */
  lemma {:induction false} UnderRoot(t: HldState, x: int)
    requires Hung(t) && 0 <= x < Size(t) && t.visited[x]
    ensures Under(t, 0, x)
    decreases t.depth[x]
  {
    if x != 0 {
      UnderRoot(t, t.parent[x]);
    }
  }

  /**
   * Loop invariant of computeChainHeads(v) after the first k arcs ch[..k]:
   * v's head is h, nothing outside v's subtree has changed, the children
   * already recursed into (done) have their whole subtrees resolved, and
   * every child met so far is among them.
   */
  ghost predicate HeadsInv(a: Arcs, t: HldState, head0: seq<int>, head: seq<int>, v: int, h: int,
                           ch: seq<int>, k: nat, done: set<int>)
    requires Hung(t) && Spans(a, t) && |head0| == Size(t) && 0 <= v < Size(t)
  {
    && |head| == Size(t) && head[v] == h && k <= |ch|
    && (forall x :: 0 <= x < Size(t) && !Under(t, v, x) ==> head[x] == head0[x])
    && (forall c :: c in done ==> 0 <= c < Size(t) && t.visited[c] && c != 0 && t.parent[c] == v)
    && (forall c, x :: c in done && 0 <= c < Size(t) && 0 <= x < Size(t) && Under(t, c, x) ==>
          HeadRule(t, head, x))
    && (forall i :: 0 <= i < k ==> 0 <= ch[i] < |a.to| && (t.parent[a.to[ch[i]]] == v ==> a.to[ch[i]] in done))
  }

  /** After recursing into the child w = to[ch[k]], the invariant holds for k + 1 with w done. */
  lemma ChildHeads(a: Arcs, t: HldState, head0: seq<int>, head: seq<int>, head1: seq<int>, v: int, h: int,
                   ch: seq<int>, k: nat, done: set<int>, w: int)
    requires Hung(t) && Spans(a, t) && |head0| == Size(t) && 0 <= v < Size(t)
    requires HeadsInv(a, t, head0, head, v, h, ch, k, done)
    requires k < |ch| && 0 <= ch[k] < |a.to| && w == a.to[ch[k]]
    requires 0 <= w < Size(t) && t.visited[w] && w != 0 && t.parent[w] == v
    requires |head1| == Size(t)
    requires forall x :: 0 <= x < Size(t) ==>
      if Under(t, w, x) then HeadRule(t, head1, x) else head1[x] == head[x]
    ensures HeadsInv(a, t, head0, head1, v, h, ch, k + 1, done + {w})
  {
    if Under(t, w, v) {
      UnderDepth(t, w, v);
    }
    ChildOutside(t, head0, head, head1, v, w);
    ChildRules(t, head, head1, v, done, w);
  }

  /** Outside v's subtree the recursion into the child w changes nothing. */
  lemma ChildOutside(t: HldState, head0: seq<int>, head: seq<int>, head1: seq<int>, v: int, w: int)
    requires Hung(t) && |head0| == Size(t) && |head| == Size(t) && |head1| == Size(t) && 0 <= v < Size(t)
    requires 0 <= w < Size(t) && t.visited[w] && w != 0 && t.parent[w] == v
    requires forall x :: 0 <= x < Size(t) && !Under(t, v, x) ==> head[x] == head0[x]
    requires forall x :: 0 <= x < Size(t) && !Under(t, w, x) ==> head1[x] == head[x]
    ensures forall x :: 0 <= x < Size(t) && !Under(t, v, x) ==> head1[x] == head0[x]
  {
    forall x | 0 <= x < Size(t) && !Under(t, v, x)
      ensures head1[x] == head0[x]
    {
      if Under(t, w, x) {
        UnderParent(t, v, w, x);
      }
    }
  }

  /** The subtrees of the children done before w keep the head rule, and w's subtree now has it. */
  lemma ChildRules(t: HldState, head: seq<int>, head1: seq<int>, v: int, done: set<int>, w: int)
    requires Hung(t) && |head| == Size(t) && |head1| == Size(t) && 0 <= v < Size(t)
    requires 0 <= w < Size(t) && t.visited[w] && w != 0 && t.parent[w] == v
    requires forall c :: c in done ==> 0 <= c < Size(t) && t.visited[c] && c != 0 && t.parent[c] == v
    requires forall c, x :: c in done && 0 <= c < Size(t) && 0 <= x < Size(t) && Under(t, c, x) ==>
      HeadRule(t, head, x)
    requires forall x :: 0 <= x < Size(t) ==>
      if Under(t, w, x) then HeadRule(t, head1, x) else head1[x] == head[x]
    ensures forall c, x :: c in done + {w} && 0 <= c < Size(t) && 0 <= x < Size(t) && Under(t, c, x) ==>
      HeadRule(t, head1, x)
  {
    forall c, x | c in done + {w} && 0 <= c < Size(t) && 0 <= x < Size(t) && Under(t, c, x)
      ensures HeadRule(t, head1, x)
    {
      if c != w {
        if Under(t, w, x) {
          UnderDisjoint(t, c, w, x);
        }
        if t.heavy[x] {
          var p := t.parent[x];
          if x != c {
            if Under(t, w, p) {
              UnderDisjoint(t, c, w, p);
            }
          } else if Under(t, w, p) {
            UnderDepth(t, w, p);
          }
        }
      }
    }
  }

  /** With every arc of v scanned, the whole subtree of v follows the head rule. */
  lemma HeadsDone(a: Arcs, t: HldState, head0: seq<int>, head: seq<int>, v: int, ch: seq<int>, done: set<int>)
    requires Hung(t) && Spans(a, t) && |head0| == Size(t) && 0 <= v < Size(t) && t.visited[v]
    requires ch == Chain(a, v)
    requires HeadsInv(a, t, head0, head, v, if t.heavy[v] then head0[t.parent[v]] else v, ch, |ch|, done)
    ensures forall x :: 0 <= x < Size(t) ==>
      if Under(t, v, x) then HeadRule(t, head, x) else head[x] == head0[x]
  {
    forall x | 0 <= x < Size(t) && Under(t, v, x)
      ensures HeadRule(t, head, x)
    {
      if x == v {
        if t.heavy[v] {
          var p := t.parent[v];
          if Under(t, v, p) {
            UnderDepth(t, v, p);
          }
        }
      } else {
        var c := TopChild(t, v, x);
        assert HasArc(a, v, c);
        var e :| 0 <= e < |a.to| && e in Chain(a, v) && a.to[e] == c;
        var i :| 0 <= i < |ch| && ch[i] == e;
        assert c in done;
      }
    }
  }

  /** Before the arc loop: only v's own head is set. */
  lemma HeadsStart(a: Arcs, t: HldState, head0: seq<int>, v: int, h: int)
    requires Hung(t) && Spans(a, t) && |head0| == Size(t) && 0 <= v < Size(t) && t.visited[v]
    ensures HeadsInv(a, t, head0, head0[v := h], v, h, Chain(a, v), 0, {})
  {
    assert Under(t, v, v);
  }

  /** An arc whose head is not a child of v leaves the invariant as it is. */
  lemma HeadsSkip(a: Arcs, t: HldState, head0: seq<int>, head: seq<int>, v: int, h: int,
                  ch: seq<int>, k: nat, done: set<int>)
    requires Hung(t) && Spans(a, t) && |head0| == Size(t) && 0 <= v < Size(t)
    requires HeadsInv(a, t, head0, head, v, h, ch, k, done)
    requires k < |ch| && 0 <= ch[k] < |a.to| && 0 <= a.to[ch[k]] < Size(t) && t.parent[a.to[ch[k]]] != v
    ensures HeadsInv(a, t, head0, head, v, h, ch, k + 1, done)
  {
  }

  /** The head w of an arc of the visited vertex v with parent[w] == v is a visited child one level down. */
  lemma ChildOf(a: Arcs, t: HldState, v: int, ch: seq<int>, k: nat, w: int)
    requires Hung(t) && Spans(a, t) && 0 <= v < Size(t) && t.visited[v] && ch == Chain(a, v)
    requires k < |ch| && 0 <= ch[k] < |a.to| && w == a.to[ch[k]] && t.parent[w] == v
    ensures 0 <= w < Size(t) && t.visited[w] && w != 0 && t.depth[w] == t.depth[v] + 1
  {
    assert ch[k] in Chain(a, v);
  }

  /**
   * `computeChainHeads(v)`: set v's head by the head rule, then recurse into
   * every neighbour w with parent[w] == v. On return every vertex of v's
   * subtree follows the head rule and every other entry is as before.
   */
  method ChainHeads(a: Arcs, t: HldState, head0: seq<int>, v: int) returns (head: seq<int>)
    requires Hung(t) && Spans(a, t) && |head0| == Size(t) && 0 <= v < Size(t) && t.visited[v]
    ensures |head| == Size(t)
    ensures forall x :: 0 <= x < Size(t) ==>
      if Under(t, v, x) then HeadRule(t, head, x) else head[x] == head0[x]
    decreases MaxEntry(t.depth) - t.depth[v]
  {
    var h := if t.heavy[v] then head0[t.parent[v]] else v;
    head := head0[v := h];
    ghost var ch := Chain(a, v);
    ghost var k := 0;
    ghost var done: set<int> := {};
    HeadsStart(a, t, head0, v, h);
    var e := a.firstEdge[v];
    while e >= 0
      invariant -1 <= e < |a.to| && k <= |ch| && ch[k..] == ChainFrom(a, e)
      invariant HeadsInv(a, t, head0, head, v, h, ch, k, done)
      decreases e + 1
    {
      ChainWalk(a, ch, k, e);
      var w := a.to[e];
      if v == t.parent[w] {
        ChildOf(a, t, v, ch, k, w);
        var head1 := ChainHeads(a, t, head, w);
        ChildHeads(a, t, head0, head, head1, v, h, ch, k, done, w);
        head := head1;
        done := done + {w};
      } else {
        HeadsSkip(a, t, head0, head, v, h, ch, k, done);
      }
      k := k + 1;
      e := a.next[e];
    }
    HeadsDone(a, t, head0, head, v, ch, done);
  }
}
