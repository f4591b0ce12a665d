/**
 * The first pass of HeavyLightDecomposition: the recursive `DFS` from the
 * root that fills isVisited, depth, numNodes and (after each child returns)
 * parent, then marks the heavy children of the vertex it finishes.
 */
module HldDfs {
  import opened Adjacency

  /** The per-vertex arrays of the decomposition. */
  datatype HldState = HldState(visited: seq<bool>, depth: seq<int>, parent: seq<int>,
                               numNodes: seq<int>, heavy: seq<bool>, head: seq<int>)

  function Size(s: HldState): nat { |s.visited| }

  predicate Sized(s: HldState) {
    var n := |s.visited|;
    |s.depth| == n && |s.parent| == n && |s.numNodes| == n && |s.heavy| == n && |s.head| == n
  }

  /** n copies of false. */
  function Falses(n: nat): (b: seq<bool>)
    ensures |b| == n && forall i :: 0 <= i < n ==> !b[i]
  {
    if n == 0 then [] else Falses(n - 1) + [false]
  }

  /** The state of a vertex that DFS has not reached: Java's zero-initialised array entries. */
  predicate Blank(s: HldState, c: int)
    requires Sized(s) && 0 <= c < Size(s)
  {
    s.depth[c] == 0 && s.parent[c] == 0 && s.numNodes[c] == 0 && !s.heavy[c] && s.head[c] == 0
  }

  /** The freshly allocated arrays: nothing visited, every entry 0 or false. */
  function Initial(n: nat): (s: HldState)
    ensures Sized(s) && Size(s) == n
    ensures forall c :: 0 <= c < n ==> !s.visited[c] && Blank(s, c)
  {
    HldState(Falses(n), Fill(n, 0), Fill(n, 0), Fill(n, 0), Falses(n), Fill(n, 0))
  }

  /** Number of unvisited vertices among 0..m-1; the DFS recursion measure. */
  function Unvisited(b: seq<bool>, m: nat): nat
    requires m <= |b|
  {
    if m == 0 then 0 else Unvisited(b, m - 1) + (if b[m - 1] then 0 else 1)
  }

  /** Visiting more vertices, v among them, leaves fewer unvisited. */
  lemma {:induction false} UnvisitedDrop(b: seq<bool>, b': seq<bool>, v: int, m: nat)
    requires |b| == |b'| && m <= |b|
    requires forall c :: 0 <= c < |b| && b[c] ==> b'[c]
    requires 0 <= v < |b| && !b[v] && b'[v]
    ensures Unvisited(b', m) <= Unvisited(b, m)
    ensures v < m ==> Unvisited(b', m) < Unvisited(b, m)
  {
    if m > 0 {
      UnvisitedDrop(b, b', v, m - 1);
    }
  }

  /** Some arc of u's list leads to w. */
  ghost predicate HasArc(a: Arcs, u: int, w: int)
    requires WellLinked(a) && 0 <= u < |a.firstEdge|
  {
    exists e :: 0 <= e < |a.to| && e in Chain(a, u) && a.to[e] == w
  }

  /** No arc of the root's list leads back to the root. */
  ghost predicate NoRootLoop(a: Arcs)
    requires WellLinked(a)
  {
    |a.firstEdge| > 0 ==> !HasArc(a, 0, 0)
  }

  /** numNodes[c] when c is a visited non-root vertex whose parent is x, else 0. */
  function Term(s: HldState, x: int, c: int): int
    requires Sized(s) && 0 <= c < Size(s)
  {
    if c != 0 && s.visited[c] && s.parent[c] == x then s.numNodes[c] else 0
  }

  /** Sum of numNodes over the visited children of x among 0..m-1. */
  function ChildSum(s: HldState, x: int, m: nat): int
    requires Sized(s) && m <= Size(s)
  {
    if m == 0 then 0 else ChildSum(s, x, m - 1) + Term(s, x, m - 1)
  }

  /** Two states whose terms for x agree except at w have child sums that differ by w's terms. */
  lemma {:induction false} ChildSumShift(s: HldState, s': HldState, x: int, w: int, m: nat)
    requires Sized(s) && Sized(s') && Size(s) == Size(s') && m <= Size(s)
    requires forall c :: 0 <= c < m && c != w ==> Term(s', x, c) == Term(s, x, c)
    ensures ChildSum(s', x, m) == ChildSum(s, x, m) + (if 0 <= w < m then Term(s', x, w) - Term(s, x, w) else 0)
  {
    if m > 0 {
      ChildSumShift(s, s', x, w, m - 1);
    }
  }

  /** All terms zero: the child sum is zero. */
  lemma {:induction false} ChildSumZero(s: HldState, x: int, m: nat)
    requires Sized(s) && m <= Size(s)
    requires forall c :: 0 <= c < m ==> Term(s, x, c) == 0
    ensures ChildSum(s, x, m) == 0
  {
    if m > 0 {
      ChildSumZero(s, x, m - 1);
    }
  }

  /** With nonnegative terms, the child sum is at least the terms of two distinct children. */
  lemma {:induction false} ChildSumTwo(s: HldState, x: int, c1: int, c2: int, m: nat)
    requires Sized(s) && m <= Size(s)
    requires forall c :: 0 <= c < m ==> Term(s, x, c) >= 0
    requires 0 <= c1 < m && 0 <= c2 < m && c1 != c2
    ensures ChildSum(s, x, m) >= Term(s, x, c1) + Term(s, x, c2)
  {
    if c1 == m - 1 || c2 == m - 1 {
      ChildSumOne(s, x, if c1 == m - 1 then c2 else c1, m - 1);
    } else {
      ChildSumTwo(s, x, c1, c2, m - 1);
    }
  }

  /** With nonnegative terms, the child sum is at least any one term. */
  lemma {:induction false} ChildSumOne(s: HldState, x: int, c1: int, m: nat)
    requires Sized(s) && m <= Size(s)
    requires forall c :: 0 <= c < m ==> Term(s, x, c) >= 0
    requires 0 <= c1 < m
    ensures ChildSum(s, x, m) >= Term(s, x, c1)
  {
    ChildSumNonneg(s, x, m - 1);
    if c1 < m - 1 {
      ChildSumOne(s, x, c1, m - 1);
    }
  }

  lemma {:induction false} ChildSumNonneg(s: HldState, x: int, m: nat)
    requires Sized(s) && m <= Size(s)
    requires forall c :: 0 <= c < m ==> Term(s, x, c) >= 0
    ensures ChildSum(s, x, m) >= 0
  {
    if m > 0 {
      ChildSumNonneg(s, x, m - 1);
    }
  }

  // ---------------------------------------------------------------------
  // The facts DFS(v, d) establishes about the vertices it visits. s0 is the
  // state on entry, s a later state; New(c) holds for the vertices visited
  // in between.
  // ---------------------------------------------------------------------

  ghost predicate New(s0: HldState, s: HldState, c: int)
    requires Sized(s0) && Sized(s) && Size(s0) == Size(s) && 0 <= c < Size(s)
  {
    s.visited[c] && !s0.visited[c]
  }

  predicate Same(s0: HldState, s: HldState, c: int)
    requires Sized(s0) && Sized(s) && Size(s0) == Size(s) && 0 <= c < Size(s)
  {
    && s0.visited[c] == s.visited[c] && s0.depth[c] == s.depth[c] && s0.parent[c] == s.parent[c]
    && s0.numNodes[c] == s.numNodes[c] && s0.heavy[c] == s.heavy[c] && s0.head[c] == s.head[c]
  }

  /** Unvisited vertices are blank; a visited vertex's parent entry is a visited vertex. */
  ghost predicate Clean(s: HldState)
    requires Sized(s)
  {
    forall c :: 0 <= c < Size(s) ==>
      if s.visited[c] then 0 <= s.parent[c] < Size(s) && s.visited[s.parent[c]] else Blank(s, c)
  }

  /** Visiting only adds vertices, and nothing changes outside the new ones. */
  ghost predicate Framed(s0: HldState, s: HldState)
    requires Sized(s0) && Sized(s) && Size(s0) == Size(s)
  {
    && (forall c :: 0 <= c < Size(s) && s0.visited[c] ==> s.visited[c])
    && (forall c :: 0 <= c < Size(s) && !New(s0, s, c) ==> Same(s0, s, c))
  }

  /** v itself: visited, at depth d, parent entry untouched, not heavy, heading its own chain. */
  ghost predicate AtStart(s0: HldState, s: HldState, v: int, d: int)
    requires Sized(s0) && Sized(s) && Size(s0) == Size(s) && 0 <= v < Size(s)
  {
    New(s0, s, v) && s.depth[v] == d && s.parent[v] == s0.parent[v] && !s.heavy[v] && s.head[v] == v
  }

  /**
   * Every other new vertex x is a non-root vertex below v whose parent is a new
   * vertex one level higher up, joined to x by an arc.
   */
  ghost predicate Linked(a: Arcs, s0: HldState, s: HldState, v: int)
    requires WellLinked(a) && Sized(s0) && Sized(s) && Size(s0) == Size(s) && Size(s) == |a.firstEdge|
    requires 0 <= v < Size(s)
  {
    forall x :: 0 <= x < Size(s) && New(s0, s, x) && x != v ==>
      && x != 0 && 0 <= s.parent[x] < Size(s) && New(s0, s, s.parent[x])
      && s.depth[x] == s.depth[s.parent[x]] + 1 && s.depth[x] > s.depth[v]
      && HasArc(a, s.parent[x], x)
  }

  /** numNodes of every new vertex is 1 plus the numNodes of its children. */
  ghost predicate Counted(s0: HldState, s: HldState)
    requires Sized(s0) && Sized(s) && Size(s0) == Size(s)
  {
    forall x :: 0 <= x < Size(s) && New(s0, s, x) ==>
      s.numNodes[x] == 1 + ChildSum(s, x, Size(s)) && s.numNodes[x] >= 1
  }

  /**
   * A new vertex x other than v is heavy iff 2 numNodes[x] >= numNodes[parent[x]];
   * until v's own heavy pass has run (decided), v's children are not heavy yet.
   */
  ghost predicate Heavies(s0: HldState, s: HldState, v: int, decided: bool)
    requires Sized(s0) && Sized(s) && Size(s0) == Size(s)
  {
    forall x :: 0 <= x < Size(s) && New(s0, s, x) && x != v && 0 <= s.parent[x] < Size(s) ==>
      s.heavy[x] == ((decided || s.parent[x] != v) && 2 * s.numNodes[x] >= s.numNodes[s.parent[x]])
  }

  /** Every neighbour of a new vertex other than v is visited. */
  ghost predicate Closed(a: Arcs, s0: HldState, s: HldState, v: int)
    requires WellLinked(a) && Sized(s0) && Sized(s) && Size(s0) == Size(s) && Size(s) == |a.firstEdge|
  {
    forall x, e :: 0 <= x < Size(s) && New(s0, s, x) && x != v && e in Chain(a, x) && 0 <= e < |a.to| ==>
      s.visited[a.to[e]]
  }

  /** The first k arcs of ch lead to visited vertices. */
  ghost predicate Scanned(a: Arcs, s: HldState, ch: seq<int>, k: nat)
    requires Sized(s) && Size(s) == |a.firstEdge|
  {
    k <= |ch| && forall i :: 0 <= i < k ==> 0 <= ch[i] < |a.to| && 0 <= a.to[ch[i]] < Size(s) && s.visited[a.to[ch[i]]]
  }

  /** What the caller of DFS(v, d) guarantees. */
  ghost predicate Pre(a: Arcs, s0: HldState, v: int, d: int) {
    && WellLinked(a) && Sized(s0) && Size(s0) == |a.firstEdge| && NoRootLoop(a)
    && 0 <= v < Size(s0) && !s0.visited[v] && Clean(s0)
    && (v == 0 || s0.visited[0]) && d >= 0
  }

  /** The loop invariant of DFS(v, d) after scanning the first k arcs ch[..k] of v's list. */
  ghost predicate Grown(a: Arcs, s0: HldState, s: HldState, v: int, d: int, ch: seq<int>, k: nat, decided: bool)
    requires Pre(a, s0, v, d)
  {
    && Sized(s) && Size(s) == Size(s0) && Framed(s0, s) && Clean(s) && AtStart(s0, s, v, d)
    && Linked(a, s0, s, v) && Counted(s0, s) && Heavies(s0, s, v, decided)
    && Closed(a, s0, s, v) && Scanned(a, s, ch, k)
  }

  /** DFS(v, d) has finished: every arc of v scanned, v's heavy child chosen. */
  ghost predicate Explored(a: Arcs, s0: HldState, s: HldState, v: int, d: int)
    requires Pre(a, s0, v, d)
  {
    Grown(a, s0, s, v, d, Chain(a, v), |Chain(a, v)|, true)
  }

  /** Entering DFS(v, d): `isVisited[v] = true; depth[v] = d; numNodes[v] = 1; chainHead[v] = v`. */
  function Mark(s0: HldState, v: int, d: int): (s: HldState)
    requires Sized(s0) && 0 <= v < Size(s0)
    ensures Sized(s) && Size(s) == Size(s0)
  {
    s0.(visited := s0.visited[v := true], depth := s0.depth[v := d],
        numNodes := s0.numNodes[v := 1], head := s0.head[v := v])
  }

  /** Right after marking v, no arc is scanned and v has no children yet. */
  lemma StartFacts(a: Arcs, s0: HldState, v: int, d: int)
    requires Pre(a, s0, v, d)
    ensures Grown(a, s0, Mark(s0, v, d), v, d, Chain(a, v), 0, false)
  {
    MarkOnlyV(s0, v, d);
    MarkClean(s0, v, d);
    MarkCounted(s0, v, d);
  }

  /** Marking v makes v the only new vertex and changes nothing elsewhere. */
  lemma MarkOnlyV(s0: HldState, v: int, d: int)
    requires Sized(s0) && 0 <= v < Size(s0) && !s0.visited[v]
    ensures var s := Mark(s0, v, d);
      && Framed(s0, s) && New(s0, s, v)
      && forall c :: 0 <= c < Size(s) && New(s0, s, c) ==> c == v
  {
  }

  /** Marking v keeps every visited vertex's parent entry visited: v's is 0, and 0 is visited. */
  lemma MarkClean(s0: HldState, v: int, d: int)
    requires Sized(s0) && 0 <= v < Size(s0) && !s0.visited[v] && Clean(s0) && (v == 0 || s0.visited[0])
    ensures Clean(Mark(s0, v, d))
  {
    var s := Mark(s0, v, d);
    forall c | 0 <= c < Size(s)
      ensures if s.visited[c] then 0 <= s.parent[c] < Size(s) && s.visited[s.parent[c]] else Blank(s, c)
    {
      if c == v {
        assert Blank(s0, v);
      } else {
        assert s.visited[c] == s0.visited[c];
      }
    }
  }

  /** The freshly marked v has numNodes 1 and no visited children. */
  lemma MarkCounted(s0: HldState, v: int, d: int)
    requires Sized(s0) && 0 <= v < Size(s0) && !s0.visited[v] && Clean(s0)
    ensures Counted(s0, Mark(s0, v, d))
  {
    var s := Mark(s0, v, d);
    var n := Size(s);
    forall c | 0 <= c < n
      ensures Term(s, v, c) == 0
    {
      if c != 0 && s.visited[c] && c != v {
        assert s0.visited[c];
      }
    }
    ChildSumZero(s, v, n);
    MarkOnlyV(s0, v, d);
  }

  /** The state around one recursive call DFS(w, d + 1) made while scanning arc ch[k] of v. */
  ghost predicate ChildCtx(a: Arcs, s0: HldState, s: HldState, s1: HldState, s2: HldState,
                           v: int, d: int, ch: seq<int>, k: nat, w: int)
  {
    && Pre(a, s0, v, d) && Grown(a, s0, s, v, d, ch, k, false) && ch == Chain(a, v)
    && k < |ch| && 0 <= ch[k] < |a.to| && w == a.to[ch[k]]
    && Pre(a, s, w, d + 1) && Explored(a, s, s1, w, d + 1)
    && s2 == s1.(parent := s1.parent[w := v], numNodes := s1.numNodes[v := s1.numNodes[v] + s1.numNodes[w]])
  }

  /** The caller of DFS(w, d + 1) meets its precondition. */
  lemma ChildPre(a: Arcs, s0: HldState, s: HldState, v: int, d: int, ch: seq<int>, k: nat, w: int)
    requires Pre(a, s0, v, d) && Grown(a, s0, s, v, d, ch, k, false)
    requires 0 <= w < Size(s) && !s.visited[w]
    ensures Pre(a, s, w, d + 1)
    ensures Unvisited(s.visited, Size(s)) < Unvisited(s0.visited, Size(s0))
  {
    if v != 0 {
      assert s.visited[0];
    }
    UnvisitedDrop(s0.visited, s.visited, v, Size(s));
  }

  lemma StepFramed(a: Arcs, s0: HldState, s: HldState, s1: HldState, s2: HldState,
                   v: int, d: int, ch: seq<int>, k: nat, w: int)
    requires ChildCtx(a, s0, s, s1, s2, v, d, ch, k, w)
    ensures Framed(s0, s2)
  {
    var n := Size(s);
    forall c | 0 <= c < n && !New(s0, s2, c)
      ensures Same(s0, s2, c)
    {
      assert c != v && c != w;
      assert Same(s1, s2, c);
      if s.visited[c] {
        assert s0.visited[c];
      }
      assert !New(s, s1, c);
      assert Same(s, s1, c);
      assert !New(s0, s, c);
    }
  }

  lemma StepClean(a: Arcs, s0: HldState, s: HldState, s1: HldState, s2: HldState,
                  v: int, d: int, ch: seq<int>, k: nat, w: int)
    requires ChildCtx(a, s0, s, s1, s2, v, d, ch, k, w)
    ensures Clean(s2) && AtStart(s0, s2, v, d)
  {
    var n := Size(s);
    assert !New(s, s1, v);
    forall c | 0 <= c < n
      ensures if s2.visited[c] then 0 <= s2.parent[c] < n && s2.visited[s2.parent[c]] else Blank(s2, c)
    {
      if c != w && c != v {
        assert Same(s1, s2, c);
      }
    }
  }

  lemma StepLinked(a: Arcs, s0: HldState, s: HldState, s1: HldState, s2: HldState,
                   v: int, d: int, ch: seq<int>, k: nat, w: int)
    requires ChildCtx(a, s0, s, s1, s2, v, d, ch, k, w)
    ensures Linked(a, s0, s2, v)
  {
    var n := Size(s);
    assert !New(s, s1, v);
    forall x | 0 <= x < n && New(s0, s2, x) && x != v
      ensures && x != 0 && 0 <= s2.parent[x] < n && New(s0, s2, s2.parent[x])
              && s2.depth[x] == s2.depth[s2.parent[x]] + 1 && s2.depth[x] > s2.depth[v]
              && HasArc(a, s2.parent[x], x)
    {
      if x == w {
        assert ch[k] in Chain(a, v);
      } else if New(s, s1, x) {
        assert !s.visited[s1.parent[x]];
      } else {
        assert New(s0, s, x);
        assert !New(s, s1, s.parent[x]);
      }
    }
  }

  /** Every vertex that DFS(w) visited other than w has its parent among them; w's parent entry is untouched. */
  ghost predicate HangsBelow(s: HldState, s1: HldState, w: int)
    requires Sized(s) && Sized(s1) && Size(s1) == Size(s) && 0 <= w < Size(s)
  {
    && s1.parent[w] == s.parent[w]
    && forall c :: 0 <= c < Size(s) && New(s, s1, c) && c != w ==> 0 <= s1.parent[c] < Size(s) && New(s, s1, s1.parent[c])
  }

  /**
   * `parent[w] = v` and a new numNodes[v] leave the child sum of any x other
   * than v alone when neither w's nor v's old parent entry is x.
   */
  lemma UpdateKeepsSum(s1: HldState, s2: HldState, v: int, w: int, x: int)
    requires Sized(s1) && 0 <= v < Size(s1) && 0 <= w < Size(s1)
    requires s2 == s1.(parent := s1.parent[w := v], numNodes := s2.numNodes) && |s2.numNodes| == Size(s1)
    requires forall c :: 0 <= c < Size(s1) && c != v ==> s2.numNodes[c] == s1.numNodes[c]
    requires x != v && s1.parent[w] != x && s1.parent[v] != x
    ensures ChildSum(s2, x, Size(s2)) == ChildSum(s1, x, Size(s1))
  {
    forall c | 0 <= c < Size(s1)
      ensures Term(s2, x, c) == Term(s1, x, c)
    {
    }
    ChildSumShift(s1, s2, x, Size(s1), Size(s1));
  }

  /**
   * DFS(w) leaves the child sum of an older vertex x alone: the vertices it
   * visits hang below w, whose own parent entry is not x.
   */
  lemma InnerKeepsSum(s: HldState, s1: HldState, w: int, x: int)
    requires Sized(s) && Sized(s1) && Size(s1) == Size(s) && 0 <= w < Size(s) && Framed(s, s1) && HangsBelow(s, s1, w)
    requires 0 <= x < Size(s) && !New(s, s1, x) && s1.parent[w] != x
    ensures ChildSum(s1, x, Size(s1)) == ChildSum(s, x, Size(s))
  {
    forall c | 0 <= c < Size(s)
      ensures Term(s1, x, c) == Term(s, x, c)
    {
      if !New(s, s1, c) {
        assert Same(s, s1, c);
      }
    }
    ChildSumShift(s, s1, x, Size(s), Size(s));
  }

  /** After DFS(w) and `parent[w] = v`, v's child sum has grown by numNodes[w]. */
  lemma ParentGainsChild(s: HldState, s1: HldState, s2: HldState, v: int, w: int)
    requires Sized(s) && Sized(s1) && Size(s1) == Size(s) && 0 <= w < Size(s) && Framed(s, s1) && HangsBelow(s, s1, w)
    requires 0 <= w < Size(s) && !s.visited[w] && s1.visited[w]
    requires 0 <= v < Size(s) && s.visited[v] && s.parent[v] == 0 && w != 0
    requires s2 == s1.(parent := s1.parent[w := v], numNodes := s2.numNodes) && |s2.numNodes| == Size(s1)
    requires forall c :: 0 <= c < Size(s1) && c != v ==> s2.numNodes[c] == s1.numNodes[c]
    ensures ChildSum(s2, v, Size(s2)) == ChildSum(s, v, Size(s)) + s1.numNodes[w]
  {
    assert !New(s, s1, v);
    forall c | 0 <= c < Size(s) && c != w
      ensures Term(s2, v, c) == Term(s, v, c)
    {
      if !New(s, s1, c) {
        assert Same(s, s1, c);
      }
    }
    ChildSumShift(s, s2, v, w, Size(s));
  }

  /** The update after DFS(w) keeps numNodes right for the vertices DFS(w) visited. */
  lemma CountedInner(s: HldState, s1: HldState, s2: HldState, v: int, w: int)
    requires Sized(s) && Sized(s1) && Size(s1) == Size(s) && Counted(s, s1)
    requires 0 <= v < Size(s) && 0 <= w < Size(s) && s.visited[0] && s.visited[v]
    requires s1.parent[w] == 0 && s1.parent[v] == 0
    requires s2 == s1.(parent := s1.parent[w := v], numNodes := s1.numNodes[v := s1.numNodes[v] + s1.numNodes[w]])
    ensures forall x :: 0 <= x < Size(s) && New(s, s1, x) ==>
      s2.numNodes[x] == 1 + ChildSum(s2, x, Size(s2)) && s2.numNodes[x] >= 1
  {
    forall x | 0 <= x < Size(s) && New(s, s1, x)
      ensures s2.numNodes[x] == 1 + ChildSum(s2, x, Size(s2)) && s2.numNodes[x] >= 1
    {
      UpdateKeepsSum(s1, s2, v, w, x);
    }
  }

  /** DFS(w) and the update after it keep numNodes right for the vertices visited before. */
  lemma CountedOuter(s0: HldState, s: HldState, s1: HldState, s2: HldState, v: int, w: int)
    requires Sized(s0) && Size(s0) == Size(s) && Sized(s) && Sized(s1) && Size(s1) == Size(s)
    requires Counted(s0, s) && 0 <= w < Size(s) && Framed(s, s1) && HangsBelow(s, s1, w)
    requires forall x :: 0 <= x < Size(s) && New(s0, s, x) && x != v ==> x != 0
    requires 0 <= v < Size(s) && s.visited[v] && s1.parent[v] == 0 && s1.parent[w] == 0
    requires s2 == s1.(parent := s1.parent[w := v], numNodes := s1.numNodes[v := s1.numNodes[v] + s1.numNodes[w]])
    ensures forall x :: 0 <= x < Size(s) && New(s0, s, x) && x != v ==>
      s2.numNodes[x] == 1 + ChildSum(s2, x, Size(s2)) && s2.numNodes[x] >= 1
  {
    assert !New(s, s1, v);
    forall x | 0 <= x < Size(s) && New(s0, s, x) && x != v
      ensures s2.numNodes[x] == 1 + ChildSum(s2, x, Size(s2)) && s2.numNodes[x] >= 1
    {
      assert !New(s, s1, x) && Same(s, s1, x);
      InnerKeepsSum(s, s1, w, x);
      UpdateKeepsSum(s1, s2, v, w, x);
    }
  }

  /** The facts about one child step that the subtree-size bookkeeping needs. */
  ghost predicate CountCtx(s0: HldState, s: HldState, s1: HldState, s2: HldState, v: int, w: int)
  {
    && Sized(s0) && Sized(s) && Sized(s1) && Size(s0) == Size(s) && Size(s1) == Size(s)
    && 0 <= v < Size(s) && 0 <= w < Size(s) && w != 0 && v != w
    && s.visited[0] && s.visited[v] && !s.visited[w] && s1.visited[w]
    && s.parent[v] == 0 && s1.parent[v] == 0 && s1.parent[w] == 0 && New(s0, s, v)
    && Counted(s0, s) && Counted(s, s1) && Framed(s, s1) && HangsBelow(s, s1, w)
    && (forall c :: 0 <= c < Size(s) && s0.visited[c] ==> s.visited[c])
    && (forall x :: 0 <= x < Size(s) && New(s0, s, x) && x != v ==> x != 0)
    && s2 == s1.(parent := s1.parent[w := v], numNodes := s1.numNodes[v := s1.numNodes[v] + s1.numNodes[w]])
  }

  lemma CountCtxOf(a: Arcs, s0: HldState, s: HldState, s1: HldState, s2: HldState,
                   v: int, d: int, ch: seq<int>, k: nat, w: int)
    requires ChildCtx(a, s0, s, s1, s2, v, d, ch, k, w)
    ensures CountCtx(s0, s, s1, s2, v, w)
  {
    assert !New(s, s1, v);
    assert s.parent[w] == 0 && s0.parent[v] == 0;
    assert HangsBelow(s, s1, w);
    assert forall x :: 0 <= x < Size(s) && New(s0, s, x) && x != v ==> x != 0;
  }

  lemma StepCounted(s0: HldState, s: HldState, s1: HldState, s2: HldState, v: int, w: int)
    requires CountCtx(s0, s, s1, s2, v, w)
    ensures Counted(s0, s2)
  {
    assert !New(s, s1, v);
    CountedInner(s, s1, s2, v, w);
    CountedOuter(s0, s, s1, s2, v, w);
    ParentGainsChild(s, s1, s2, v, w);
  }

  lemma StepHeavies(a: Arcs, s0: HldState, s: HldState, s1: HldState, s2: HldState,
                    v: int, d: int, ch: seq<int>, k: nat, w: int)
    requires ChildCtx(a, s0, s, s1, s2, v, d, ch, k, w)
    ensures Heavies(s0, s2, v, false)
  {
    var n := Size(s);
    assert !New(s, s1, v);
    forall x | 0 <= x < n && New(s0, s2, x) && x != v && 0 <= s2.parent[x] < n
      ensures s2.heavy[x] == (s2.parent[x] != v && 2 * s2.numNodes[x] >= s2.numNodes[s2.parent[x]])
    {
      if x != w && New(s, s1, x) {
        assert New(s, s1, s1.parent[x]);
      } else if x != w {
        assert New(s0, s, x);
        assert !New(s, s1, s.parent[x]);
      }
    }
  }

  lemma StepClosed(a: Arcs, s0: HldState, s: HldState, s1: HldState, s2: HldState,
                   v: int, d: int, ch: seq<int>, k: nat, w: int)
    requires ChildCtx(a, s0, s, s1, s2, v, d, ch, k, w)
    ensures Closed(a, s0, s2, v) && Scanned(a, s2, ch, k + 1)
  {
    var n := Size(s);
    forall x, e | 0 <= x < n && New(s0, s2, x) && x != v && e in Chain(a, x) && 0 <= e < |a.to|
      ensures s2.visited[a.to[e]]
    {
      if x == w {
        var cw := Chain(a, w);
        var i :| 0 <= i < |cw| && cw[i] == e;
        assert s1.visited[a.to[cw[i]]];
      }
    }
  }

  /** After DFS(w, d + 1) returns: `parent[w] = v; numNodes[v] += numNodes[w]`. */
  lemma ChildStep(a: Arcs, s0: HldState, s: HldState, s1: HldState, s2: HldState,
                  v: int, d: int, ch: seq<int>, k: nat, w: int)
    requires ChildCtx(a, s0, s, s1, s2, v, d, ch, k, w)
    ensures Grown(a, s0, s2, v, d, ch, k + 1, false)
  {
    StepFramed(a, s0, s, s1, s2, v, d, ch, k, w);
    StepClean(a, s0, s, s1, s2, v, d, ch, k, w);
    StepLinked(a, s0, s, s1, s2, v, d, ch, k, w);
    CountCtxOf(a, s0, s, s1, s2, v, d, ch, k, w);
    StepCounted(s0, s, s1, s2, v, w);
    StepHeavies(a, s0, s, s1, s2, v, d, ch, k, w);
    StepClosed(a, s0, s, s1, s2, v, d, ch, k, w);
  }

  /** After an arc whose head w is already visited: nothing to do but move on. */
  lemma SkipStep(a: Arcs, s0: HldState, s: HldState, v: int, d: int, ch: seq<int>, k: nat)
    requires Pre(a, s0, v, d) && Grown(a, s0, s, v, d, ch, k, false)
    requires k < |ch| && 0 <= ch[k] < |a.to| && s.visited[a.to[ch[k]]]
    ensures Grown(a, s0, s, v, d, ch, k + 1, false)
  {
  }

  /**
   * The heavy pass of DFS(v) so far: starting from sL, only heavy entries
   * change, only to true and only for children c of v with
   * 2 numNodes[c] >= numNodes[v]; every such child reached through the first
   * k arcs is marked.
   */
  ghost predicate HeavyInv(a: Arcs, s0: HldState, sL: HldState, s: HldState, v: int, d: int, ch: seq<int>, k: nat)
    requires Pre(a, s0, v, d) && Grown(a, s0, sL, v, d, ch, |ch|, false)
  {
    && s.visited == sL.visited && s.depth == sL.depth && s.parent == sL.parent
    && s.numNodes == sL.numNodes && s.head == sL.head && |s.heavy| == |sL.heavy| && k <= |ch|
    && (forall c :: 0 <= c < Size(sL) && s.heavy[c] != sL.heavy[c] ==>
          s.heavy[c] && New(s0, sL, c) && c != v && sL.parent[c] == v && 2 * sL.numNodes[c] >= sL.numNodes[v])
    && (forall i :: 0 <= i < k && sL.parent[a.to[ch[i]]] == v && 2 * sL.numNodes[a.to[ch[i]]] >= sL.numNodes[v] ==>
          s.heavy[a.to[ch[i]]])
  }

  /** A visited vertex whose parent entry is a new vertex is new itself. */
  lemma ParentNew(s0: HldState, s: HldState, p: int, c: int)
    requires Sized(s0) && Sized(s) && Size(s0) == Size(s) && Framed(s0, s) && Clean(s0)
    requires 0 <= p < Size(s) && New(s0, s, p) && 0 <= c < Size(s) && s.visited[c] && s.parent[c] == p
    ensures New(s0, s, c)
  {
  }

  /** A neighbour w of v whose parent entry is v is one of the new vertices, and not v itself. */
  lemma ChildIsNew(a: Arcs, s0: HldState, sL: HldState, v: int, d: int, ch: seq<int>, k: nat)
    requires Pre(a, s0, v, d) && Grown(a, s0, sL, v, d, ch, |ch|, false) && ch == Chain(a, v)
    requires k < |ch| && sL.parent[a.to[ch[k]]] == v
    ensures New(s0, sL, a.to[ch[k]]) && a.to[ch[k]] != v
  {
    var w := a.to[ch[k]];
    assert sL.visited[w];
    ParentNew(s0, sL, v, w);
    assert ch[k] in Chain(a, v);
    assert sL.parent[v] == 0;
  }

  /** One iteration of the heavy pass over arc ch[k]. */
  lemma HeavyStep(a: Arcs, s0: HldState, sL: HldState, s: HldState, v: int, d: int, ch: seq<int>, k: nat)
    requires Pre(a, s0, v, d) && Grown(a, s0, sL, v, d, ch, |ch|, false) && ch == Chain(a, v)
    requires HeavyInv(a, s0, sL, s, v, d, ch, k) && k < |ch|
    ensures var w := a.to[ch[k]];
      var s' := if s.parent[w] == v && 2 * s.numNodes[w] >= s.numNodes[v] then s.(heavy := s.heavy[w := true]) else s;
      HeavyInv(a, s0, sL, s', v, d, ch, k + 1)
  {
    var w := a.to[ch[k]];
    if sL.parent[w] == v {
      ChildIsNew(a, s0, sL, v, d, ch, k);
    }
    var s' := if s.parent[w] == v && 2 * s.numNodes[w] >= s.numNodes[v] then s.(heavy := s.heavy[w := true]) else s;
    forall c | 0 <= c < Size(sL) && s'.heavy[c] != sL.heavy[c]
      ensures s'.heavy[c] && New(s0, sL, c) && c != v && sL.parent[c] == v && 2 * sL.numNodes[c] >= sL.numNodes[v]
    {
      if c != w {
        assert s'.heavy[c] == s.heavy[c];
      }
    }
  }

  lemma HeavyDoneFrame(a: Arcs, s0: HldState, sL: HldState, s: HldState, v: int, d: int, ch: seq<int>)
    requires Pre(a, s0, v, d) && Grown(a, s0, sL, v, d, ch, |ch|, false)
    requires HeavyInv(a, s0, sL, s, v, d, ch, |ch|)
    ensures Sized(s) && Size(s) == Size(s0) && Framed(s0, s) && Clean(s) && AtStart(s0, s, v, d)
  {
    forall c | 0 <= c < Size(s) && !New(s0, s, c)
      ensures Same(s0, s, c)
    {
      assert Same(s0, sL, c);
    }
  }

  lemma HeavyDoneCounted(a: Arcs, s0: HldState, sL: HldState, s: HldState, v: int, d: int, ch: seq<int>)
    requires Pre(a, s0, v, d) && Grown(a, s0, sL, v, d, ch, |ch|, false)
    requires HeavyInv(a, s0, sL, s, v, d, ch, |ch|)
    ensures Sized(s) && Counted(s0, s)
  {
    var n := Size(s);
    forall x | 0 <= x < n
      ensures ChildSum(s, x, n) == ChildSum(sL, x, n)
    {
      ChildSumShift(sL, s, x, n, n);
    }
  }

  lemma HeavyDoneHeavies(a: Arcs, s0: HldState, sL: HldState, s: HldState, v: int, d: int, ch: seq<int>)
    requires Pre(a, s0, v, d) && Grown(a, s0, sL, v, d, ch, |ch|, false) && ch == Chain(a, v)
    requires HeavyInv(a, s0, sL, s, v, d, ch, |ch|)
    ensures Sized(s) && Heavies(s0, s, v, true)
  {
    var n := Size(s);
    forall x | 0 <= x < n && New(s0, s, x) && x != v && s.parent[x] == v
      ensures s.heavy[x] == (2 * s.numNodes[x] >= s.numNodes[v])
    {
      assert HasArc(a, v, x);
      var e :| 0 <= e < |a.to| && e in Chain(a, v) && a.to[e] == x;
      var i :| 0 <= i < |ch| && ch[i] == e;
    }
  }

  lemma HeavyDoneRest(a: Arcs, s0: HldState, sL: HldState, s: HldState, v: int, d: int, ch: seq<int>)
    requires Pre(a, s0, v, d) && Grown(a, s0, sL, v, d, ch, |ch|, false)
    requires HeavyInv(a, s0, sL, s, v, d, ch, |ch|)
    ensures Sized(s) && Linked(a, s0, s, v) && Closed(a, s0, s, v) && Scanned(a, s, ch, |ch|)
  {
    ShapeKeeps(a, s0, sL, s, v, ch, |ch|);
  }

  /** Linked, Closed and Scanned look only at visited, depth and parent, which the heavy pass keeps. */
  lemma ShapeKeeps(a: Arcs, s0: HldState, sL: HldState, s: HldState, v: int, ch: seq<int>, k: nat)
    requires WellLinked(a) && Sized(s0) && Sized(sL) && Sized(s) && Size(s0) == Size(sL) == Size(s)
    requires Size(s) == |a.firstEdge| && 0 <= v < Size(s)
    requires s.visited == sL.visited && s.depth == sL.depth && s.parent == sL.parent
    requires Linked(a, s0, sL, v) && Closed(a, s0, sL, v) && Scanned(a, sL, ch, k)
    ensures Linked(a, s0, s, v) && Closed(a, s0, s, v) && Scanned(a, s, ch, k)
  {
    assert forall x :: 0 <= x < Size(s) ==> New(s0, s, x) == New(s0, sL, x);
  }

  /** The finished heavy pass establishes Explored. */
  lemma HeavyDone(a: Arcs, s0: HldState, sL: HldState, s: HldState, v: int, d: int, ch: seq<int>)
    requires Pre(a, s0, v, d) && Grown(a, s0, sL, v, d, ch, |ch|, false) && ch == Chain(a, v)
    requires HeavyInv(a, s0, sL, s, v, d, ch, |ch|)
    ensures Explored(a, s0, s, v, d)
  {
    HeavyDoneFrame(a, s0, sL, s, v, d, ch);
    HeavyDoneCounted(a, s0, sL, s, v, d, ch);
    HeavyDoneHeavies(a, s0, sL, s, v, d, ch);
    HeavyDoneRest(a, s0, sL, s, v, d, ch);
  }

  /**
   * `DFS(v, d)`: mark v, recurse into every unvisited neighbour w (then
   * `parent[w] = v; numNodes[v] += numNodes[w]`), and finally mark heavy each
   * child c of v with 2 numNodes[c] >= numNodes[v].
   */
  method Dfs(a: Arcs, s0: HldState, v: int, d: int) returns (s: HldState)
    requires Pre(a, s0, v, d)
    ensures Explored(a, s0, s, v, d)
    decreases Unvisited(s0.visited, Size(s0)), 1
  {
    s := Mark(s0, v, d);
    StartFacts(a, s0, v, d);
    UnvisitedDrop(s0.visited, s.visited, v, Size(s));
    s := VisitChildren(a, s0, s, v, d);
    s := MarkHeavy(a, s0, s, v, d);
  }

  /** The first loop of DFS(v, d): recurse into the unvisited neighbours of v. */
  method VisitChildren(a: Arcs, s0: HldState, sM: HldState, v: int, d: int) returns (s: HldState)
    requires Pre(a, s0, v, d) && Grown(a, s0, sM, v, d, Chain(a, v), 0, false)
    ensures Grown(a, s0, s, v, d, Chain(a, v), |Chain(a, v)|, false)
    decreases Unvisited(sM.visited, Size(sM)) + 1, 0
  {
    s := sM;
    ghost var ch := Chain(a, v);
    ghost var k := 0;
    var e := a.firstEdge[v];
    while e >= 0
      invariant -1 <= e < |a.to| && k <= |ch| && ch[k..] == ChainFrom(a, e)
      invariant Grown(a, s0, s, v, d, ch, k, false)
      invariant Unvisited(s.visited, Size(s)) <= Unvisited(sM.visited, Size(sM))
      decreases e + 1
    {
      ChainWalk(a, ch, k, e);
      var w := a.to[e];
      if !s.visited[w] {
        ChildPre(a, s0, s, v, d, ch, k, w);
        var s1 := Dfs(a, s, w, d + 1);
        var s2 := s1.(parent := s1.parent[w := v], numNodes := s1.numNodes[v := s1.numNodes[v] + s1.numNodes[w]]);
        ChildStep(a, s0, s, s1, s2, v, d, ch, k, w);
        UnvisitedDrop(s.visited, s2.visited, w, Size(s));
        s := s2;
      } else {
        SkipStep(a, s0, s, v, d, ch, k);
      }
      k := k + 1;
      e := a.next[e];
    }
  }

  /** The second loop of DFS(v, d): `isHeavy[c] = true` for each child c with 2 numNodes[c] >= numNodes[v]. */
  method MarkHeavy(a: Arcs, s0: HldState, sL: HldState, v: int, d: int) returns (s: HldState)
    requires Pre(a, s0, v, d) && Grown(a, s0, sL, v, d, Chain(a, v), |Chain(a, v)|, false)
    ensures Explored(a, s0, s, v, d)
  {
    s := sL;
    ghost var ch := Chain(a, v);
    ghost var k := 0;
    var e := a.firstEdge[v];
    while e >= 0
      invariant -1 <= e < |a.to| && k <= |ch| && ch[k..] == ChainFrom(a, e)
      invariant HeavyInv(a, s0, sL, s, v, d, ch, k)
      decreases e + 1
    {
      ChainWalk(a, ch, k, e);
      HeavyStep(a, s0, sL, s, v, d, ch, k);
      var w := a.to[e];
      if s.parent[w] == v && 2 * s.numNodes[w] >= s.numNodes[v] {
        s := s.(heavy := s.heavy[w := true]);
      }
      k := k + 1;
      e := a.next[e];
    }
    HeavyDone(a, s0, sL, s, v, d, ch);
  }
}
