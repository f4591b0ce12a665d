/**
 * `matchVertex` of HopcroftKarpSimple: a depth-first search along the
 * layers, from a vertex v to the partner of one of its neighbours w lying
 * exactly one layer deeper. When the search below succeeds, w is rematched
 * to v on the way back; a vertex whose every try fails is given layer INF so
 * that later searches in the same phase skip it.
 */
module HkAugment {
  import opened HkGraph
  import opened HkLayers

  /** Partners are mutual at every vertex other than p. */
  predicate MutualBut(m: seq<int>, p: int)
    requires forall x :: 0 <= x < |m| ==> 0 <= m[x] < |m|
  {
    forall x :: 0 <= x < |m| && x != p && m[x] != NULL ==> m[m[x]] == x
  }

  /** Every vertex is matched along one of its own edges. */
  predicate OnEdges(g: GraphInner, m: seq<int>)
    requires |m| == |g.adj|
  {
    forall x :: 0 <= x < |m| && m[x] != NULL ==> m[x] in g.adj[x]
  }

  /** match[] describes a matching of the graph: NULL stays unmatched, partners are mutual and adjacent. */
  predicate Matching(g: GraphInner, m: seq<int>) {
    Slots(g, m) && MutualBut(m, NULL) && OnEdges(g, m)
  }

  /** The graph facts the search relies on: lists well formed, symmetric and sided. */
  predicate Prepared(g: GraphInner, left: seq<int>) {
    WellFormed(g) && Symmetric(g) && Sided(g, left)
  }

  /**
   * The state after a successful search from v, whose partner was p: v has a
   * new partner, every pair is mutual again except that p (if any) still
   * points to v, and the matched vertices are the old ones plus v and one
   * free vertex `end` that is not left.
   */
  predicate Augmented(g: GraphInner, left: seq<int>, m0: seq<int>, m: seq<int>, v: int, end: int)
    requires Slots(g, m0) && 0 < v < |m0|
  {
    var p := m0[v];
    && Slots(g, m) && OnEdges(g, m) && MutualBut(m, p)
    && m[v] != NULL && m[v] != p && (p != NULL ==> m[p] == v)
    && 0 < end < |m| && end !in left && m0[end] == NULL
    && forall x :: 0 <= x < |m| ==> ((m[x] != NULL) <==> (m0[x] != NULL || x == v || x == end))
  }

  /**
   * Which entries a search from a vertex at layer k may rewrite: a left
   * vertex at layer k or deeper, or a vertex that is not left and was free
   * or matched to such a left vertex.
   */
  predicate Movable(left: seq<int>, m0: seq<int>, l0: seq<int>, k: int, x: int)
    requires |l0| == |m0| && 0 <= x < |m0| && 0 <= m0[x] < |m0|
  {
    if x in left then k <= l0[x] else m0[x] == NULL || k <= l0[m0[x]]
  }

  /** The neighbour w of a left vertex v is not left, and w's partner, if any, is left. */
  lemma Sides(g: GraphInner, left: seq<int>, m: seq<int>, v: int, i: int)
    requires Prepared(g, left) && Matching(g, m) && 0 <= v < |m| && v in left && 0 <= i < |g.adj[v]|
    ensures g.adj[v][i] !in left && (m[g.adj[v][i]] != NULL ==> m[g.adj[v][i]] in left)
    ensures m[v] != NULL ==> m[v] !in left
  {
    var w := g.adj[v][i];
    if m[w] != NULL {
      var j :| 0 <= j < |g.adj[w]| && g.adj[w][j] == m[w];
    }
    if m[v] != NULL {
      var j :| 0 <= j < |g.adj[v]| && g.adj[v][j] == m[v];
    }
  }

  /** Rematching v to a free neighbour w. */
  lemma AugmentDirect(g: GraphInner, left: seq<int>, m0: seq<int>, v: int, i: int)
    requires Prepared(g, left) && Matching(g, m0) && 0 < v < |m0| && v in left && 0 <= i < |g.adj[v]|
    requires m0[g.adj[v][i]] == NULL
    ensures var w := g.adj[v][i];
      Augmented(g, left, m0, m0[w := v][v := w], v, w)
  {
    var w := g.adj[v][i];
    var p := m0[v];
    var m := m0[w := v][v := w];
    Sides(g, left, m0, v, i);
    if p != NULL {
      var j :| 0 <= j < |g.adj[v]| && g.adj[v][j] == p;
      Sides(g, left, m0, v, j);
    }
    assert v in g.adj[w];
    forall x | 0 <= x < |m| && x != p && m[x] != NULL
      ensures m[m[x]] == x
    {
      if x != v && x != w {
        assert m[x] == m0[x] && m0[m0[x]] == x;
      }
    }
  }

  /**
   * Rematching v to a neighbour w whose old partner u has just been
   * rematched by a successful search from u that left v and v's partner alone.
   */
  lemma AugmentChain(g: GraphInner, left: seq<int>, m0: seq<int>, m1: seq<int>, v: int, i: int, end: int)
    requires Prepared(g, left) && Matching(g, m0) && 0 < v < |m0| && v in left && 0 <= i < |g.adj[v]|
    requires var u := m0[g.adj[v][i]]; u != NULL && u != v && Augmented(g, left, m0, m1, u, end)
    requires m1[v] == m0[v] && (m0[v] != NULL ==> m1[m0[v]] == v)
    ensures var w := g.adj[v][i];
      Augmented(g, left, m0, m1[w := v][v := w], v, end)
  {
    var w := g.adj[v][i];
    var u := m0[w];
    var p := m0[v];
    var m := m1[w := v][v := w];
    Sides(g, left, m0, v, i);
    assert m0[u] == w;
    assert v in g.adj[w];
    if p != NULL {
      assert m0[p] == v;
    }
    assert p != v && p != w;
    ChainEdges(g, m1, v, w);
    ChainMutual(m1, v, w, u, p);
    ChainMatched(m0, m1, v, w, u, end);
    ChainAssemble(g, left, m0, m, v, w, p, end);
  }

  /** Handing w to v keeps every entry in range and every pair on an edge. */
  lemma ChainEdges(g: GraphInner, m1: seq<int>, v: int, w: int)
    requires Slots(g, m1) && OnEdges(g, m1) && 0 < v < |m1| && 0 < w < |m1| && w in g.adj[v] && v in g.adj[w]
    ensures var m := m1[w := v][v := w];
      Slots(g, m) && OnEdges(g, m)
  {
  }

  /** The pieces of Augmented for v, which took w and whose old partner p still points to it. */
  lemma ChainAssemble(g: GraphInner, left: seq<int>, m0: seq<int>, m: seq<int>, v: int, w: int, p: int, end: int)
    requires Slots(g, m0) && 0 < v < |m0| && p == m0[v]
    requires Slots(g, m) && OnEdges(g, m) && MutualBut(m, p)
    requires m[v] == w && w != NULL && w != p && (p != NULL ==> m[p] == v)
    requires 0 < end < |m| && end !in left && m0[end] == NULL
    requires forall x :: 0 <= x < |m| ==> ((m[x] != NULL) <==> (m0[x] != NULL || x == v || x == end))
    ensures Augmented(g, left, m0, m, v, end)
  {
  }

  /** Handing w to v after u's search matches the vertices matched before, plus v and u's free end. */
  lemma ChainMatched(m0: seq<int>, m1: seq<int>, v: int, w: int, u: int, end: int)
    requires |m1| == |m0| && 0 < v < |m0| && 0 < w < |m0| && 0 <= u < |m0| && v != w && u != NULL && m0[w] == u && m0[u] == w
    requires forall x :: 0 <= x < |m1| ==> ((m1[x] != NULL) <==> (m0[x] != NULL || x == u || x == end))
    ensures var m := m1[w := v][v := w];
      forall x :: 0 <= x < |m| ==> ((m[x] != NULL) <==> (m0[x] != NULL || x == v || x == end))
  {
    var m := m1[w := v][v := w];
    forall x | 0 <= x < |m|
      ensures (m[x] != NULL) <==> (m0[x] != NULL || x == v || x == end)
    {
      if x != v && x != w {
        assert m[x] == m1[x];
      }
    }
  }

  /** After u took a new partner and w is handed to v, all pairs are mutual again except at v's old partner p. */
  lemma ChainMutual(m1: seq<int>, v: int, w: int, u: int, p: int)
    requires forall x :: 0 <= x < |m1| ==> 0 <= m1[x] < |m1|
    requires 0 <= v < |m1| && 0 <= w < |m1| && 0 <= u < |m1| && v != w && w != p
    requires MutualBut(m1, w) && m1[w] == u && m1[u] != w && m1[v] == p
    ensures var m := m1[w := v][v := w];
      MutualBut(m, p)
  {
    var m := m1[w := v][v := w];
    forall x | 0 <= x < |m| && x != p && m[x] != NULL
      ensures m[m[x]] == x
    {
      if x != v && x != w {
        assert m[x] == m1[x] && m1[m1[x]] == x;
      }
    }
  }

  /** The failed and successful tries of a child u one layer below v only deepen layers below v. */
  lemma ChildLayers(l0: seq<int>, lc: seq<int>, l1: seq<int>, v: int, u: int)
    requires |l0| == |lc| == |l1| && 0 <= v < |l0| && 0 <= u < |l0|
    requires lc[v] == l0[v] && lc[u] == l0[v] + 1
    requires forall x :: 0 <= x < |l0| ==> lc[x] == l0[x] || lc[x] == INF
    requires forall x :: 0 <= x < |l0| && lc[x] != l0[x] ==> l0[v] < l0[x]
    requires forall x :: 0 <= x < |l0| ==> l1[x] == lc[x] || l1[x] == INF
    requires forall x :: 0 <= x < |l0| && l1[x] != lc[x] ==> lc[u] <= lc[x]
    ensures l1[v] == l0[v]
    ensures forall x :: 0 <= x < |l0| ==> l1[x] == l0[x] || l1[x] == INF
    ensures forall x :: 0 <= x < |l0| && l1[x] != l0[x] ==> l0[v] < l0[x]
  {
  }

  /** What a successful child u may have rewritten, v may have rewritten; v and its partner are untouched. */
  lemma ChildMoves(g: GraphInner, left: seq<int>, m0: seq<int>, m1: seq<int>, l0: seq<int>, lc: seq<int>, v: int, u: int)
    requires Slots(g, m0) && |m1| == |m0| && |l0| == |lc| == |m0| && 0 < v < |m0| && 0 <= u < |m0| && v in left
    requires MutualBut(m0, NULL) && (m0[v] != NULL ==> m0[v] !in left)
    requires lc[v] == l0[v] && lc[u] == l0[v] + 1
    requires forall x :: 0 <= x < |l0| && lc[x] != l0[x] ==> l0[v] < l0[x]
    requires forall x :: 0 <= x < |m0| && m1[x] != m0[x] ==> Movable(left, m0, lc, lc[u], x)
    ensures m1[v] == m0[v] && (m0[v] != NULL ==> m1[m0[v]] == v)
    ensures forall x :: 0 <= x < |m0| && m1[x] != m0[x] ==> Movable(left, m0, l0, l0[v], x)
  {
    if m0[v] != NULL {
      assert m0[m0[v]] == v;
    }
    forall x | 0 <= x < |m0| && m1[x] != m0[x]
      ensures Movable(left, m0, l0, l0[v], x)
    {
      assert Movable(left, m0, lc, lc[u], x);
    }
  }

  /**
   * `matchVertex(v)`. NULL succeeds at once and changes nothing. Otherwise
   * the neighbours w of v are tried in order, each only when the partner of w
   * lies exactly one layer below v; the first successful try rematches v and
   * w and returns true. On failure nothing is rematched and v gets layer INF.
   * Layers only ever turn INF, and only at v's layer or deeper; matches change
   * only where a search from v's layer may reach.
   */
  method MatchVertex(g: GraphInner, ghost left: seq<int>, m0: seq<int>, l0: seq<int>, v: int)
    returns (ok: bool, m: seq<int>, l: seq<int>, ghost end: int)
    requires Prepared(g, left) && Matching(g, m0) && Layers(g, l0) && 0 <= v < |m0|
    requires v != NULL ==> v in left
    ensures Layers(g, l) && |m| == |m0|
    ensures forall x :: 0 <= x < |l| ==> l[x] == l0[x] || l[x] == INF
    ensures forall x :: 0 <= x < |l| && l[x] != l0[x] ==> l0[v] <= l0[x]
    ensures forall x :: 0 <= x < |m| && m[x] != m0[x] ==> Movable(left, m0, l0, l0[v], x)
    ensures v == NULL ==> ok && m == m0 && l == l0
    ensures !ok ==> m == m0 && l[v] == INF
    ensures ok ==> l[v] == l0[v]
    ensures ok && v != NULL ==> Augmented(g, left, m0, m, v, end) && l[m0[m[v]]] == l0[v] + 1
    decreases INF - l0[v]
  {
    if v == NULL {
      return true, m0, l0, NULL;
    }
    m, l, end := m0, l0, NULL;
    var i := 0;
    while i < |g.adj[v]|
      invariant 0 <= i <= |g.adj[v]| && m == m0 && Layers(g, l) && l[v] == l0[v]
      invariant forall x :: 0 <= x < |l| ==> l[x] == l0[x] || l[x] == INF
      invariant forall x :: 0 <= x < |l| && l[x] != l0[x] ==> l0[v] < l0[x]
    {
      var w := g.adj[v][i];
      var u := m[w];
      if l[u] == l[v] + 1 {
        Sides(g, left, m0, v, i);
        var okc, m1, l1, end1 := MatchVertex(g, left, m, l, u);
        ChildLayers(l0, l, l1, v, u);
        if okc {
          ChildMoves(g, left, m0, m1, l0, l, v, u);
          if u == NULL {
            AugmentDirect(g, left, m0, v, i);
            end := w;
          } else {
            AugmentChain(g, left, m0, m1, v, i, end1);
            end := end1;
          }
          m := m1[w := v][v := w];
          l := l1;
          ok := true;
          return;
        }
        l := l1;
      }
      i := i + 1;
    }
    l := l[v := INF];
    ok := false;
  }
}
