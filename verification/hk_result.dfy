/**
 * The public face of HopcroftKarpSimple: the constructor that numbers the
 * vertices, collects the left IDs, builds the lists and runs maxMatching;
 * `getMatching`, which turns match[] back into input edges; and `getSize`.
 */
module HkResult {
  import opened Wrappers
  import opened Adjacency
  import opened HkGraph
  import opened HkLayers
  import opened HkAugment
  import opened HkMatching

  /** The object's fields after construction; `done` says whether the last phase found nothing. */
  datatype Hk = Hk(g: GraphInner, left: seq<int>, m: seq<int>, l: seq<int>, matching: int, done: bool)

  /** What the constructor leaves behind for the input edges. */
  predicate Valid(h: Hk, edges: seq<Ends>) {
    && Prepared(h.g, h.left) && LeftIds(h.g, h.left) && |h.g.adj| < INF
    && Sound(NumVertices(h.g) - 1, edges, h.g)
    && Matching(h.g, h.m) && Layers(h.g, h.l) && Counted(h.left, h.m, h.matching)
  }

  /** Both ends of the edge are matched to each other. */
  predicate MatchedEdge(m: seq<int>, e: Ends) {
    0 <= e.source < |m| && 0 <= e.target < |m| && m[e.source] == e.target && m[e.target] == e.source
  }

  /** The smaller end of an edge. */
  function Low(e: Ends): int {
    if e.source <= e.target then e.source else e.target
  }

  /** The vertices below i matched to a vertex at or above themselves: one per matched pair. */
  function LowerBelow(m: seq<int>, i: int): set<int> {
    set x | 0 < x < i && x < |m| && m[x] >= x
  }

  /** The matched vertices whose partner is smaller. */
  function Upper(m: seq<int>): set<int> {
    set x | 0 < x < |m| && m[x] != NULL && m[x] < x
  }

  /** An injective map keeps the number of elements of a below k. */
  lemma {:induction false} MapCardBelow(m: seq<int>, a: set<int>, k: nat)
    requires forall x :: x in a ==> 0 <= x < |m|
    requires forall x, y :: x in a && y in a && m[x] == m[y] ==> x == y
    requires k <= |m|
    ensures |(set x | x in a && x < k :: m[x])| == |set x | x in a && x < k|
    decreases k
  {
    if k == 0 {
      assert (set x | x in a && x < k) == {};
    } else {
      MapCardBelow(m, a, k - 1);
      MapCardStep(m, a, k - 1);
    }
  }

  /** Adding j to the elements below j adds m[j], which is new, to their image. */
  lemma MapCardStep(m: seq<int>, a: set<int>, j: nat)
    requires forall x :: x in a ==> 0 <= x < |m|
    requires forall x, y :: x in a && y in a && m[x] == m[y] ==> x == y
    requires j < |m|
    requires |(set x | x in a && x < j :: m[x])| == |set x | x in a && x < j|
    ensures |(set x | x in a && x < j + 1 :: m[x])| == |set x | x in a && x < j + 1|
  {
    var img := set x | x in a && x < j :: m[x];
    assert (set x | x in a && x < j + 1) == (set x | x in a && x < j) + (if j in a then {j} else {});
    assert (set x | x in a && x < j + 1 :: m[x]) == img + (if j in a then {m[j]} else {});
    if j in a {
      assert m[j] !in img;
      assert j !in (set x | x in a && x < j);
    }
  }

  /** An injective map keeps the number of elements. */
  lemma MapCard(m: seq<int>, a: set<int>)
    requires forall x :: x in a ==> 0 <= x < |m|
    requires forall x, y :: x in a && y in a && m[x] == m[y] ==> x == y
    ensures |(set x | x in a :: m[x])| == |a|
  {
    MapCardBelow(m, a, |m|);
    assert (set x | x in a && x < |m|) == a;
    assert (set x | x in a && x < |m| :: m[x]) == (set x | x in a :: m[x]);
  }

  /** No vertex is its own partner: it would have to be its own neighbour, on both sides at once. */
  lemma NotSelf(g: GraphInner, left: seq<int>, m: seq<int>, x: int)
    requires Prepared(g, left) && Matching(g, m) && 0 < x < |m| && m[x] != NULL
    ensures m[x] != x
  {
    var j :| 0 <= j < |g.adj[x]| && g.adj[x][j] == m[x];
  }

  /** The partners of the smaller ends are exactly the larger ends. */
  lemma UpperImage(g: GraphInner, left: seq<int>, m: seq<int>)
    requires Prepared(g, left) && Matching(g, m)
    ensures (set x | x in LowerBelow(m, |m|) :: m[x]) == Upper(m)
  {
    var lower := LowerBelow(m, |m|);
    forall y | y in Upper(m)
      ensures y in (set x | x in lower :: m[x])
    {
      assert m[y] in lower && m[m[y]] == y;
    }
    forall x | x in lower
      ensures m[x] in Upper(m)
    {
      NotSelf(g, left, m, x);
    }
  }

  /** Each matched pair has one smaller end, so the pairs are half the matched vertices. */
  lemma LowerHalf(g: GraphInner, left: seq<int>, m: seq<int>)
    requires Prepared(g, left) && Matching(g, m)
    ensures 2 * |LowerBelow(m, |m|)| == |MatchedSet(m)|
  {
    var lower := LowerBelow(m, |m|);
    LowerInjective(g, left, m);
    MapCard(m, lower);
    UpperImage(g, left, m);
    MatchedSplit(g, left, m);
  }

  /** Distinct smaller ends have distinct partners. */
  lemma LowerInjective(g: GraphInner, left: seq<int>, m: seq<int>)
    requires Prepared(g, left) && Matching(g, m)
    ensures forall x :: x in LowerBelow(m, |m|) ==> 0 <= x < |m|
    ensures forall x, y :: x in LowerBelow(m, |m|) && y in LowerBelow(m, |m|) && m[x] == m[y] ==> x == y
  {
    var lower := LowerBelow(m, |m|);
    forall x, y | x in lower && y in lower && m[x] == m[y]
      ensures x == y
    {
      assert m[m[x]] == x && m[m[y]] == y;
    }
  }

  /** Every matched vertex is a smaller end or a larger end. */
  lemma MatchedSplit(g: GraphInner, left: seq<int>, m: seq<int>)
    requires Prepared(g, left) && Matching(g, m)
    ensures MatchedSet(m) == LowerBelow(m, |m|) + Upper(m)
  {
    var lower := LowerBelow(m, |m|);
    forall x | x in MatchedSet(m)
      ensures x in lower || x in Upper(m)
    {
      if x != NULL {
        NotSelf(g, left, m, x);
      }
    }
  }

  /** j is the first position of s holding x. */
  predicate FirstAt(s: seq<int>, x: int, j: int) {
    0 <= j < |s| && s[j] == x && forall k :: 0 <= k < j ==> s[k] != x
  }

  /** The first index of x in s, or |s| when x does not occur. */
  method FirstIndex(s: seq<int>, x: int) returns (j: nat)
    ensures j <= |s| && (j < |s| <==> x in s)
    ensures x in s ==> FirstAt(s, x, j)
  {
    j := 0;
    while j < |s| && s[j] != x
      invariant j <= |s| && forall k :: 0 <= k < j ==> s[k] != x
    {
      j := j + 1;
    }
  }

  /** The edge behind the first entry of x's list naming x's partner is in r. */
  predicate Covers(g: GraphInner, m: seq<int>, r: set<nat>, x: int)
    requires Lockstep(g) && |m| == |g.adj| && 0 <= x < |m|
  {
    exists j :: 0 <= j < |g.adj[x]| && FirstAt(g.adj[x], m[x], j) && g.orig[x][j] in r
  }

  /**
   * The edges emitted for the vertices below i: each joins a matched pair
   * whose smaller end is below i, no two share that smaller end, and every
   * vertex x below i matched to a vertex at or above x contributes the edge
   * behind the first entry of its list naming the partner.
   */
  predicate Emitted(g: GraphInner, m: seq<int>, edges: seq<Ends>, r: set<nat>, i: int)
    requires Lockstep(g) && |m| == |g.adj|
  {
    && (forall k :: k in r ==> k < |edges| && MatchedEdge(m, edges[k]) && Low(edges[k]) < i)
    && (forall k1, k2 :: k1 in r && k2 in r && Low(edges[k1]) == Low(edges[k2]) ==> k1 == k2)
    && (forall x :: 0 < x < i && x < |m| && m[x] >= x ==> Covers(g, m, r, x))
    && |r| == |LowerBelow(m, i)|
  }

  /** Emitting the edge k behind the first entry j of i's list naming its partner, which is at least i. */
  lemma EmitStep(g: GraphInner, m: seq<int>, edges: seq<Ends>, r: set<nat>, i: int, j: int)
    requires Lockstep(g) && |m| == |g.adj| && 0 < i < |m| && Emitted(g, m, edges, r, i)
    requires i <= m[i] < |m| && m[m[i]] == i && 0 <= j < |g.adj[i]| && FirstAt(g.adj[i], m[i], j)
    requires g.orig[i][j] < |edges| && Joins(edges[g.orig[i][j]], i, m[i])
    ensures Emitted(g, m, edges, r + {g.orig[i][j]}, i + 1)
  {
    var k := g.orig[i][j];
    var r' := r + {k};
    assert Low(edges[k]) == i;
    assert k !in r;
    LowerStep(m, i);
    forall x | 0 < x < i + 1 && x < |m| && m[x] >= x
      ensures Covers(g, m, r', x)
    {
      if x == i {
        assert g.orig[x][j] in r';
      } else {
        CoversGrow(g, m, r, r', x);
      }
    }
  }

  /** Covers survives adding edges. */
  lemma CoversGrow(g: GraphInner, m: seq<int>, r: set<nat>, r': set<nat>, x: int)
    requires Lockstep(g) && |m| == |g.adj| && 0 <= x < |m| && r <= r' && Covers(g, m, r, x)
    ensures Covers(g, m, r', x)
  {
    var j :| 0 <= j < |g.adj[x]| && FirstAt(g.adj[x], m[x], j) && g.orig[x][j] in r;
    assert g.orig[x][j] in r';
  }

  /**
   * Every vertex i whose partner is at least i has the partner in its list,
   * every entry naming the partner comes from an input edge joining the
   * two, and the partner points back.
   */
  predicate Recoverable(g: GraphInner, m: seq<int>, edges: seq<Ends>)
    requires Lockstep(g) && |m| == |g.adj|
  {
    && (forall i :: 0 < i < |m| && m[i] >= i ==> m[i] in g.adj[i])
    && (forall i, j :: 0 < i < |m| && 0 <= j < |g.adj[i]| && g.adj[i][j] == m[i] && m[i] >= i ==>
          m[i] < |m| && m[m[i]] == i && g.orig[i][j] < |edges| && Joins(edges[g.orig[i][j]], i, m[i]))
  }

  /** A valid object's match[] can be turned back into input edges. */
  lemma ValidRecoverable(h: Hk, edges: seq<Ends>)
    requires Valid(h, edges)
    ensures Recoverable(h.g, h.m, edges)
  {
  }

  /** Skipping i, whose partner is smaller. */
  lemma SkipStep(g: GraphInner, m: seq<int>, edges: seq<Ends>, r: set<nat>, i: int)
    requires Lockstep(g) && |m| == |g.adj| && 0 < i < |m| && Emitted(g, m, edges, r, i) && m[i] < i
    ensures Emitted(g, m, edges, r, i + 1)
  {
    LowerStep(m, i);
  }

  /** Moving past i adds i to the smaller ends exactly when its partner is at least i. */
  lemma LowerStep(m: seq<int>, i: int)
    requires 0 < i < |m|
    ensures LowerBelow(m, i + 1) == LowerBelow(m, i) + (if m[i] >= i then {i} else {})
  {
  }

  /** Two edges that join matched pairs and have different smaller ends share no vertex. */
  lemma PairsApart(m: seq<int>, e1: Ends, e2: Ends)
    requires MatchedEdge(m, e1) && MatchedEdge(m, e2) && Low(e1) != Low(e2)
    ensures e1.source != e2.source && e1.source != e2.target
    ensures e1.target != e2.source && e1.target != e2.target
  {
  }

  /**
   * `getMatching()`: for every vertex i whose partner is at least i, the
   * input edge behind the first entry of i's list naming the partner. Every
   * edge returned joins two vertices matched to each other, no two of them
   * share a vertex, every matched vertex lies on one of them, and their
   * number is `getSize()`.
   */
  method GetMatching(h: Hk, ghost edges: seq<Ends>) returns (r: set<nat>)
    requires Valid(h, edges)
    ensures forall k :: k in r ==> k < |edges| && MatchedEdge(h.m, edges[k])
    ensures forall k1, k2 :: k1 in r && k2 in r && k1 != k2 ==>
      edges[k1].source != edges[k2].source && edges[k1].source != edges[k2].target &&
      edges[k1].target != edges[k2].source && edges[k1].target != edges[k2].target
    ensures forall x :: 0 < x < |h.m| && h.m[x] != NULL ==>
      exists k :: k in r && (edges[k].source == x || edges[k].target == x)
    ensures forall x :: 0 < x < |h.m| && h.m[x] >= x ==> Covers(h.g, h.m, r, x)
    ensures |r| == GetSize(h, edges)
  {
    ValidRecoverable(h, edges);
    r := EmitPairs(h.g, h.m, edges);
    LowerHalf(h.g, h.left, h.m);
    forall k1, k2 | k1 in r && k2 in r && k1 != k2
      ensures edges[k1].source != edges[k2].source && edges[k1].source != edges[k2].target
      ensures edges[k1].target != edges[k2].source && edges[k1].target != edges[k2].target
    {
      PairsApart(h.m, edges[k1], edges[k2]);
    }
    forall x | 0 < x < |h.m| && h.m[x] != NULL
      ensures exists k :: k in r && (edges[k].source == x || edges[k].target == x)
    {
      var y := if h.m[x] >= x then x else h.m[x];
      assert Covers(h.g, h.m, r, y);
      var j :| 0 <= j < |h.g.adj[y]| && FirstAt(h.g.adj[y], h.m[y], j) && h.g.orig[y][j] in r;
      var k := h.g.orig[y][j];
      assert Joins(edges[k], y, h.m[y]);
    }
  }

  /** The loop of `getMatching()` over the vertices 1..n. */
  method EmitPairs(g: GraphInner, m: seq<int>, ghost edges: seq<Ends>) returns (r: set<nat>)
    requires Lockstep(g) && 0 < |m| == |g.adj| && Recoverable(g, m, edges)
    ensures Emitted(g, m, edges, r, |m|)
  {
    r := {};
    var i := 1;
    assert LowerBelow(m, 1) == {};
    while i < |m|
      invariant 1 <= i <= |m| && Emitted(g, m, edges, r, i)
    {
      if m[i] < i {
        SkipStep(g, m, edges, r, i);
      } else {
        var j := FirstIndex(g.adj[i], m[i]);
        if j < |g.adj[i]| {
          EmitStep(g, m, edges, r, i, j);
          r := r + {g.orig[i][j]};
        }
      }
      i := i + 1;
    }
  }

  /** `getSize()`: the number of matched pairs, at most the number of left vertices. */
  function GetSize(h: Hk, edges: seq<Ends>): (s: int)
    requires Valid(h, edges)
    ensures 2 * s == |MatchedSet(h.m)| && 0 <= s <= |h.left|
  {
    CountedHalf(h.left, h.m, h.matching);
    LeftBound(h.left, h.m);
    h.matching
  }

  /** Some left entry names no vertex of the graph. */
  predicate StrayLeft(n: nat, left: seq<int>) {
    exists i :: 0 <= i < |left| && !(1 <= left[i] <= n)
  }

  /**
   * `new HopcroftKarpSimple(graph, partitionL)` on vertices 1..n, with the
   * left vertices given by their IDs. A left vertex outside the graph makes
   * the ID lookup yield null, which fails when stored into the int array.
   * Otherwise the lists are InnerOf's, match[] and layer[] start at zero,
   * and maxMatching runs for at most `fuel` phases.
   */
  method Construct(n: nat, edges: seq<Ends>, left: seq<int>, fuel: nat) returns (r: Result<Hk, string>)
    requires IdsIn(n, edges) && Bipartite(left, edges) && n + 1 < INF
    ensures r.Failure? <==> StrayLeft(n, left)
    ensures r.Success? ==> r.value.g == InnerOf(n, edges) && r.value.left == left && Valid(r.value, edges)
    ensures r.Success? && r.value.done ==> NoAugmentingPath(r.value.g, left, r.value.m)
  {
    var ok := LeftInGraph(n, left);
    if !ok {
      return Failure("NullPointerException");
    }
    var g := InnerOf(n, edges);
    Built(n, edges, left);
    var h := Run(g, left, edges, fuel);
    r := Success(h);
  }

  /** The constructor's loop over partitionL: every left vertex must have an ID. */
  method LeftInGraph(n: nat, left: seq<int>) returns (ok: bool)
    ensures ok <==> !StrayLeft(n, left)
    ensures ok ==> forall k :: 0 <= k < |left| ==> 1 <= left[k] <= n
  {
    var i := 0;
    while i < |left|
      invariant 0 <= i <= |left| && forall k :: 0 <= k < i ==> 1 <= left[k] <= n
    {
      if !(1 <= left[i] <= n) {
        return false;
      }
      i := i + 1;
    }
    return true;
  }

  /** For bipartite input with every left ID in the graph, the built lists meet what maxMatching needs. */
  lemma Built(n: nat, edges: seq<Ends>, left: seq<int>)
    requires IdsIn(n, edges) && Bipartite(left, edges) && n + 1 < INF
    requires forall k :: 0 <= k < |left| ==> 1 <= left[k] <= n
    ensures var g := InnerOf(n, edges);
      Prepared(g, left) && LeftIds(g, left) && |g.adj| < INF && Sound(NumVertices(g) - 1, edges, g)
  {
    InnerShape(n, edges, left);
    InnerFacts(n, edges);
  }

  /** The constructor's last steps: match[] and layer[] start as zeros and maxMatching runs. */
  method Run(g: GraphInner, left: seq<int>, ghost edges: seq<Ends>, fuel: nat) returns (h: Hk)
    requires Prepared(g, left) && LeftIds(g, left) && |g.adj| < INF && Sound(NumVertices(g) - 1, edges, g)
    ensures h.g == g && h.left == left && Valid(h, edges)
    ensures h.done ==> NoAugmentingPath(g, left, h.m)
  {
    var m, l, matching, done := MaxMatching(g, left, seq(|g.adj|, _ => 0), fuel);
    h := Hk(g, left, m, l, matching, done);
  }
}
