/**
 * The rooted tree that HeavyLightDecomposition's DFS leaves in parent[] and
 * depth[], its heavy paths (isHeavy[], chainHead[]) and the chain-jumping
 * lowest-common-ancestor query.
 */
module HldTree {

  /** parent[] and depth[] of a tree rooted at vertex 0. */
  datatype Rooting = Rooting(parent: seq<int>, depth: seq<int>)

  /**
   * A tree rooted at 0: the root has parent -1 and depth 0, every other
   * vertex has a parent one level higher up.
   */
  ghost predicate Rooted(r: Rooting) {
    && |r.parent| == |r.depth| > 0
    && r.parent[0] == -1 && r.depth[0] == 0
    && (forall v :: 0 <= v < |r.depth| ==> r.depth[v] >= 0)
    && (forall v :: 0 < v < |r.parent| ==> 0 <= r.parent[v] < |r.parent| && r.depth[v] == r.depth[r.parent[v]] + 1)
  }

  /** Only the root has depth 0. */
  lemma DepthZero(r: Rooting, v: int)
    requires Rooted(r) && 0 <= v < |r.depth|
    ensures r.depth[v] == 0 <==> v == 0
  {
    if v != 0 {
      assert r.depth[r.parent[v]] >= 0;
    }
  }

  /** The ancestor of v at depth d, found by following parent links. */
  ghost function Up(r: Rooting, v: int, d: int): (a: int)
    requires Rooted(r) && 0 <= v < |r.depth| && 0 <= d <= r.depth[v]
    ensures 0 <= a < |r.depth| && r.depth[a] == d
    decreases r.depth[v] - d
  {
    if r.depth[v] == d then v
    else
      DepthZero(r, v);
      Up(r, r.parent[v], d)
  }

  /** a is v or lies on the path from v up to the root. */
  ghost predicate IsAnc(r: Rooting, a: int, v: int)
    requires Rooted(r)
  {
    0 <= a < |r.depth| && 0 <= v < |r.depth| && 0 <= r.depth[a] <= r.depth[v] && Up(r, v, r.depth[a]) == a
  }

  /** Climbing to depth d1 and then to d2 is climbing to d2. */
  lemma {:induction false} UpUp(r: Rooting, v: int, d1: int, d2: int)
    requires Rooted(r) && 0 <= v < |r.depth| && 0 <= d2 <= d1 <= r.depth[v]
    ensures Up(r, Up(r, v, d1), d2) == Up(r, v, d2)
    decreases r.depth[v] - d1
  {
    if r.depth[v] != d1 {
      DepthZero(r, v);
      UpUp(r, r.parent[v], d1, d2);
    }
  }

  lemma AncRefl(r: Rooting, v: int)
    requires Rooted(r) && 0 <= v < |r.depth|
    ensures IsAnc(r, v, v)
  {
  }

  lemma AncTrans(r: Rooting, a: int, b: int, c: int)
    requires Rooted(r) && IsAnc(r, a, b) && IsAnc(r, b, c)
    ensures IsAnc(r, a, c)
  {
    UpUp(r, c, r.depth[b], r.depth[a]);
  }

  /** The parent of v is an ancestor of v, and so is every other proper ancestor. */
  lemma AncParent(r: Rooting, v: int)
    requires Rooted(r) && 0 < v < |r.depth|
    ensures IsAnc(r, r.parent[v], v)
    ensures forall a :: IsAnc(r, a, v) && a != v ==> IsAnc(r, a, r.parent[v])
  {
    DepthZero(r, v);
  }

  /** Two ancestors of the same vertex lie on one path: the shallower is an ancestor of the other. */
  lemma AncComparable(r: Rooting, a: int, b: int, v: int)
    requires Rooted(r) && IsAnc(r, a, v) && IsAnc(r, b, v) && r.depth[a] <= r.depth[b]
    ensures IsAnc(r, a, b)
  {
    UpUp(r, v, r.depth[b], r.depth[a]);
  }

  /** An ancestor at the same depth is the vertex itself. */
  lemma AncSameDepth(r: Rooting, a: int, v: int)
    requires Rooted(r) && IsAnc(r, a, v) && r.depth[a] == r.depth[v]
    ensures a == v
  {
  }

  /** The root is an ancestor of every vertex. */
  lemma RootAnc(r: Rooting, v: int)
    requires Rooted(r) && 0 <= v < |r.depth|
    ensures IsAnc(r, 0, v)
  {
    DepthZero(r, Up(r, v, 0));
  }

  /**
   * computeChainHeads' result: the root is not heavy, a heavy vertex continues
   * the chain of its parent, any other vertex starts its own chain.
   */
  ghost predicate HeadsOk(r: Rooting, heavy: seq<bool>, head: seq<int>)
    requires Rooted(r)
  {
    && |heavy| == |r.depth| && |head| == |r.depth| && !heavy[0]
    && forall v :: 0 <= v < |head| ==>
         0 <= head[v] < |head| && head[v] == (if heavy[v] then head[r.parent[v]] else v)
  }

  /** Each vertex has at most one heavy child. */
  ghost predicate UniqueHeavy(r: Rooting, heavy: seq<bool>)
    requires Rooted(r) && |heavy| == |r.depth|
  {
    forall u, w :: 0 < u < |heavy| && 0 < w < |heavy| && heavy[u] && heavy[w] && r.parent[u] == r.parent[w] ==> u == w
  }

  /** The head of v's chain is an ancestor of v and is not heavy itself. */
  lemma {:induction false} HeadAnc(r: Rooting, heavy: seq<bool>, head: seq<int>, v: int)
    requires Rooted(r) && HeadsOk(r, heavy, head) && 0 <= v < |head|
    ensures IsAnc(r, head[v], v) && !heavy[head[v]]
    decreases r.depth[v]
  {
    if heavy[v] {
      DepthZero(r, v);
      HeadAnc(r, heavy, head, r.parent[v]);
      AncParent(r, v);
      AncTrans(r, head[v], r.parent[v], v);
    }
  }

  /** Every vertex strictly between the head of v's chain and v, and v itself, is heavy and on that chain. */
  lemma {:induction false} ChainBelow(r: Rooting, heavy: seq<bool>, head: seq<int>, w: int, v: int)
    requires Rooted(r) && HeadsOk(r, heavy, head) && 0 <= v < |head|
    requires IsAnc(r, w, v) && r.depth[w] > r.depth[head[v]]
    ensures heavy[w] && head[w] == head[v]
    decreases r.depth[v]
  {
    HeadAnc(r, heavy, head, v);
    if w != v {
      assert heavy[v];
      DepthZero(r, v);
      AncParent(r, v);
      ChainBelow(r, heavy, head, w, r.parent[v]);
    }
  }

  /**
   * What the chain-jumping walk needs to terminate: every chain head is at most
   * as deep as its vertex, only the root is a head at depth 0, and the parent
   * of any other head lies one level higher up. This also holds for a forest,
   * where vertices outside the root's component keep depth 0 and head 0.
   */
  ghost predicate Walkable(r: Rooting, head: seq<int>) {
    && |r.parent| == |r.depth| == |head| > 0 && r.depth[0] == 0
    && forall x :: 0 <= x < |head| ==> WalkOk(r, head, x)
  }

  ghost predicate WalkOk(r: Rooting, head: seq<int>, x: int)
    requires |r.parent| == |r.depth| == |head| && 0 <= x < |head|
  {
    var h := head[x];
    && 0 <= h < |head| && 0 <= r.depth[h] <= r.depth[x] && (r.depth[h] == 0 ==> h == 0)
    && (h != 0 ==> 0 <= r.parent[h] < |head| && 0 <= r.depth[r.parent[h]] < r.depth[h])
  }

  /** A rooted tree with consistent chain heads is walkable. */
  lemma HeadsOkWalkable(r: Rooting, heavy: seq<bool>, head: seq<int>)
    requires Rooted(r) && HeadsOk(r, heavy, head)
    ensures Walkable(r, head)
  {
    forall x | 0 <= x < |head|
      ensures WalkOk(r, head, x)
    {
      HeadAnc(r, heavy, head, x);
      DepthZero(r, head[x]);
    }
  }

  /**
   * `lca(x, y)`: while the chain heads differ, move the vertex whose head is
   * deeper to the parent of its head; then return the shallower vertex.
   */
  function Lca(r: Rooting, head: seq<int>, x: int, y: int): (z: int)
    requires Walkable(r, head) && 0 <= x < |head| && 0 <= y < |head|
    ensures 0 <= z < |head|
    decreases r.depth[x] + r.depth[y]
  {
    assert WalkOk(r, head, x) && WalkOk(r, head, y);
    if head[x] == head[y] then
      (if r.depth[x] < r.depth[y] then x else y)
    else if r.depth[head[x]] < r.depth[head[y]] then
      Lca(r, head, x, r.parent[head[y]])
    else
      Lca(r, head, r.parent[head[x]], y)
  }

  /**
   * Moving y to the parent of its chain head keeps the common ancestors of
   * x and y, when x's chain head is shallower and differs from y's.
   */
  lemma JumpKeepsCommon(r: Rooting, heavy: seq<bool>, head: seq<int>, x: int, y: int, c: int)
    requires Rooted(r) && HeadsOk(r, heavy, head) && 0 <= x < |head| && 0 <= y < |head|
    requires head[x] != head[y] && r.depth[head[x]] <= r.depth[head[y]]
    requires IsAnc(r, c, x)
    ensures head[y] != 0
    ensures IsAnc(r, c, y) <==> IsAnc(r, c, r.parent[head[y]])
  {
    var hx, hy := head[x], head[y];
    HeadAnc(r, heavy, head, x);
    HeadAnc(r, heavy, head, y);
    DepthZero(r, hx);
    DepthZero(r, hy);
    AncParent(r, hy);
    if IsAnc(r, c, r.parent[hy]) {
      AncTrans(r, c, r.parent[hy], hy);
      AncTrans(r, c, hy, y);
    }
    if IsAnc(r, c, y) {
      if r.depth[c] < r.depth[hy] {
        AncComparable(r, c, hy, y);
      } else {
        AncComparable(r, hy, c, y);
        AncTrans(r, hy, c, x);
        if r.depth[hx] == r.depth[hy] {
          AncComparable(r, hx, hy, x);
          AncSameDepth(r, hx, hy);
        } else {
          ChainBelow(r, heavy, head, hy, x);
        }
        assert false;
      }
    }
  }

  /** Every common ancestor of x and y is an ancestor of what lca returns. */
  lemma {:induction false} LcaBelowCommon(r: Rooting, heavy: seq<bool>, head: seq<int>, x: int, y: int, c: int)
    requires Rooted(r) && HeadsOk(r, heavy, head) && Walkable(r, head) && 0 <= x < |head| && 0 <= y < |head|
    requires IsAnc(r, c, x) && IsAnc(r, c, y)
    ensures IsAnc(r, c, Lca(r, head, x, y))
    decreases r.depth[x] + r.depth[y]
  {
    HeadAnc(r, heavy, head, x);
    HeadAnc(r, heavy, head, y);
    if head[x] == head[y] {
    } else if r.depth[head[x]] < r.depth[head[y]] {
      JumpKeepsCommon(r, heavy, head, x, y, c);
      LcaBelowCommon(r, heavy, head, x, r.parent[head[y]], c);
    } else {
      JumpKeepsCommon(r, heavy, head, y, x, c);
      LcaBelowCommon(r, heavy, head, r.parent[head[x]], y, c);
    }
  }

  /** With at most one heavy child per vertex, two vertices with one chain head lie on one path. */
  lemma {:induction false} SameHeadComparable(r: Rooting, heavy: seq<bool>, head: seq<int>, x: int, y: int)
    requires Rooted(r) && HeadsOk(r, heavy, head) && UniqueHeavy(r, heavy)
    requires 0 <= x < |head| && 0 <= y < |head| && head[x] == head[y] && r.depth[x] <= r.depth[y]
    ensures IsAnc(r, x, y)
    decreases r.depth[x] + r.depth[y]
  {
    var h := head[y];
    HeadAnc(r, heavy, head, x);
    HeadAnc(r, heavy, head, y);
    if y == h {
      AncSameDepth(r, h, x);
    } else {
      assert heavy[y];
      DepthZero(r, y);
      AncParent(r, y);
      var py := r.parent[y];
      if r.depth[x] == r.depth[y] {
        assert x != h;
        assert heavy[x];
        DepthZero(r, x);
        var px := r.parent[x];
        SameHeadComparable(r, heavy, head, px, py);
        AncSameDepth(r, px, py);
      } else {
        SameHeadComparable(r, heavy, head, x, py);
        AncTrans(r, x, py, y);
      }
    }
  }

  /** With at most one heavy child per vertex, lca returns a common ancestor of x and y. */
  lemma {:induction false} LcaIsCommon(r: Rooting, heavy: seq<bool>, head: seq<int>, x: int, y: int)
    requires Rooted(r) && HeadsOk(r, heavy, head) && UniqueHeavy(r, heavy) && Walkable(r, head)
    requires 0 <= x < |head| && 0 <= y < |head|
    ensures IsAnc(r, Lca(r, head, x, y), x) && IsAnc(r, Lca(r, head, x, y), y)
    decreases r.depth[x] + r.depth[y]
  {
    HeadAnc(r, heavy, head, x);
    HeadAnc(r, heavy, head, y);
    if head[x] == head[y] {
      AncRefl(r, x);
      AncRefl(r, y);
      if r.depth[x] < r.depth[y] {
        SameHeadComparable(r, heavy, head, x, y);
      } else {
        SameHeadComparable(r, heavy, head, y, x);
      }
    } else if r.depth[head[x]] < r.depth[head[y]] {
      DepthZero(r, head[y]);
      var y' := r.parent[head[y]];
      LcaIsCommon(r, heavy, head, x, y');
      AncParent(r, head[y]);
      AncTrans(r, Lca(r, head, x, y'), y', head[y]);
      AncTrans(r, Lca(r, head, x, y'), head[y], y);
    } else {
      DepthZero(r, head[x]);
      DepthZero(r, head[y]);
      var x' := r.parent[head[x]];
      LcaIsCommon(r, heavy, head, x', y);
      AncParent(r, head[x]);
      AncTrans(r, Lca(r, head, x', y), x', head[x]);
      AncTrans(r, Lca(r, head, x', y), head[x], x);
    }
  }

  /** z is the lowest common ancestor of x and y. */
  ghost predicate IsLca(r: Rooting, z: int, x: int, y: int)
    requires Rooted(r)
  {
    && IsAnc(r, z, x) && IsAnc(r, z, y)
    && forall c :: IsAnc(r, c, x) && IsAnc(r, c, y) ==> IsAnc(r, c, z)
  }

  /** With at most one heavy child per vertex, lca is the lowest common ancestor. */
  lemma LcaCorrect(r: Rooting, heavy: seq<bool>, head: seq<int>, x: int, y: int)
    requires Rooted(r) && HeadsOk(r, heavy, head) && UniqueHeavy(r, heavy)
    requires 0 <= x < |head| && 0 <= y < |head|
    ensures Walkable(r, head) && IsLca(r, Lca(r, head, x, y), x, y)
  {
    HeadsOkWalkable(r, heavy, head);
    LcaIsCommon(r, heavy, head, x, y);
    forall c | IsAnc(r, c, x) && IsAnc(r, c, y)
      ensures IsAnc(r, c, Lca(r, head, x, y))
    {
      LcaBelowCommon(r, heavy, head, x, y, c);
    }
  }

  /** The lowest common ancestor is unique. */
  lemma LcaUnique(r: Rooting, z1: int, z2: int, x: int, y: int)
    requires Rooted(r) && IsLca(r, z1, x, y) && IsLca(r, z2, x, y)
    ensures z1 == z2
  {
    assert IsAnc(r, z1, z2) && IsAnc(r, z2, z1);
    AncSameDepth(r, z1, z2);
  }

  /** `distance(x, y)`: depth[x] + depth[y] - 2 depth[lca(x, y)]. */
  function Distance(r: Rooting, head: seq<int>, x: int, y: int): int
    requires Walkable(r, head) && 0 <= x < |head| && 0 <= y < |head|
  {
    r.depth[x] + r.depth[y] - 2 * r.depth[Lca(r, head, x, y)]
  }

  /**
   * With at most one heavy child per vertex, distance is the number of tree
   * edges between x and y through their lowest common ancestor z: it is
   * symmetric, zero exactly from a vertex to itself, and depth[v] from the root.
   */
  lemma DistanceFacts(r: Rooting, heavy: seq<bool>, head: seq<int>, x: int, y: int, z: int)
    requires Rooted(r) && HeadsOk(r, heavy, head) && UniqueHeavy(r, heavy)
    requires 0 <= x < |head| && 0 <= y < |head| && IsLca(r, z, x, y)
    ensures Walkable(r, head)
    ensures Distance(r, head, x, y) == (r.depth[x] - r.depth[z]) + (r.depth[y] - r.depth[z])
    ensures Distance(r, head, x, y) == Distance(r, head, y, x)
    ensures Distance(r, head, x, y) >= 0
    ensures Distance(r, head, x, y) == 0 <==> x == y
    ensures Distance(r, head, 0, y) == r.depth[y]
  {
    LcaCorrect(r, heavy, head, x, y);
    LcaCorrect(r, heavy, head, y, x);
    LcaUnique(r, Lca(r, head, x, y), z, x, y);
    LcaUnique(r, Lca(r, head, y, x), z, x, y);
    if r.depth[x] == r.depth[z] && r.depth[y] == r.depth[z] {
      AncSameDepth(r, z, x);
      AncSameDepth(r, z, y);
    }
    LcaCorrect(r, heavy, head, 0, y);
    RootAnc(r, y);
    var z0 := Lca(r, head, 0, y);
    DepthZero(r, z0);
  }
}
