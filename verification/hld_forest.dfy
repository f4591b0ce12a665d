/**
 * Forests, stated by counting: a graph is a forest when every nonempty set
 * of vertices spans fewer edges than it has vertices. A cycle, a pair of
 * parallel edges and a self-loop each give a set that spans as many edges
 * as it has vertices, so this is the graph without any of them. The module
 * also holds the counting facts the tree check's proof uses.
 */
module HldForest {
  import opened Adjacency

  /** The edges with both ends in S. */
  function Within(edges: seq<Ends>, S: set<int>): set<int> {
    set k | 0 <= k < |edges| && edges[k].source in S && edges[k].target in S
  }

  /** S is a set of vertices of a graph with n vertices. */
  predicate Among(n: nat, S: set<int>) {
    forall x :: x in S ==> 0 <= x < n
  }

  /** Every nonempty set of vertices spans fewer edges than it has vertices. */
  ghost predicate Forest(n: nat, edges: seq<Ends>) {
    forall S: set<int> :: S != {} && Among(n, S) ==> |Within(edges, S)| < |S|
  }

  /** The vertex arc e leaves. */
  function TailOf(a: Arcs, e: nat): (t: int)
    requires WellLinked(a) && e < |a.to|
    ensures Companion(e) < |a.to| && t == a.to[Companion(e)] && 0 <= t < |a.firstEdge|
  {
    CompanionBelow(e, |a.to|);
    a.to[Companion(e)]
  }

  /** Every arc lies on the list of the vertex it leaves, and on no other list. */
  ghost predicate Paired(a: Arcs)
    requires WellLinked(a)
  {
    && (forall e :: 0 <= e < |a.to| ==> e in Chain(a, TailOf(a, e)))
    && (forall v, e :: 0 <= v < |a.firstEdge| && e in Chain(a, v) ==> 0 <= e < |a.to| && TailOf(a, e) == v)
  }

  /** The built arcs are paired: see BuildChains. */
  lemma BuiltPaired(n: nat, edges: seq<Ends>)
    requires EndsIn(n, edges)
    ensures Paired(Build(n, edges))
  {
    var a := Build(n, edges);
    forall e | 0 <= e < |a.to|
      ensures e in Chain(a, TailOf(a, e))
    {
      BuildChains(n, edges, TailOf(a, e), e);
    }
    forall v, e | 0 <= v < n && e in Chain(a, v)
      ensures 0 <= e < |a.to| && TailOf(a, e) == v
    {
      BuildChains(n, edges, v, e);
    }
  }

  /** The arc pairs (input edges) whose two arcs both enter S. */
  function PairsWithin(a: Arcs, S: set<int>): set<int>
    requires WellLinked(a)
  {
    set q | 0 <= q < |a.to| / 2 && a.to[2 * q] in S && a.to[2 * q + 1] in S
  }

  /** S is a nonempty set of vertices spanning at least as many pairs as it has vertices. */
  ghost predicate Dense(a: Arcs, S: set<int>)
    requires WellLinked(a)
  {
    S != {} && Among(|a.firstEdge|, S) && |S| <= |PairsWithin(a, S)|
  }

  /** For the built arcs, the pairs within S are the edges within S. */
  lemma BuiltWithin(n: nat, edges: seq<Ends>, S: set<int>)
    requires EndsIn(n, edges)
    ensures PairsWithin(Build(n, edges), S) == Within(edges, S)
  {
    var a := Build(n, edges);
    Half(|edges|);
    forall q
      ensures q in PairsWithin(a, S) <==> q in Within(edges, S)
    {
      if 0 <= q < |edges| {
        PairEnds(edges, q);
        assert a.to[2 * q] == Head(edges, 2 * q);
        assert a.to[2 * q + 1] == Head(edges, 2 * q + 1);
      }
    }
  }

  /** The pair of arc e joins the two ends of e. */
  lemma PairOf(a: Arcs, e: nat)
    requires WellLinked(a) && e < |a.to|
    ensures 2 * (e / 2) + 1 < |a.to|
    ensures (a.to[2 * (e / 2)] == a.to[e] && a.to[2 * (e / 2) + 1] == TailOf(a, e))
         || (a.to[2 * (e / 2)] == TailOf(a, e) && a.to[2 * (e / 2) + 1] == a.to[e])
  {
  }

  /** Two arcs that are neither equal nor companions belong to different pairs. */
  lemma PairDiffer(e1: nat, e2: nat)
    requires e1 != e2 && e1 != Companion(e2)
    ensures e1 / 2 != e2 / 2
  {
  }

  /** A set with no element is empty. */
  lemma NoneIn(A: set<int>)
    requires forall y :: y !in A
    ensures A == {}
  {
    assert forall y :: y in A <==> y in {};
  }

  /** An element of a nonempty set. */
  lemma Pick(A: set<int>) returns (x: int)
    requires A != {}
    ensures x in A
  {
    if forall y :: y !in A {
      NoneIn(A);
    }
    x :| x in A;
  }

  /** An injective map from A into B: A has at most as many elements as B. */
  lemma InjectionBound(A: set<int>, B: set<int>, f: int -> int)
    requires forall x :: x in A ==> f(x) in B
    requires forall x, y :: x in A && y in A && f(x) == f(y) ==> x == y
    ensures |A| <= |B|
    decreases |A|
  {
    if A != {} {
      var x := Pick(A);
      var A' := A - {x};
      var B' := B - {f(x)};
      forall y | y in A'
        ensures f(y) in B'
      {
      }
      InjectionBound(A', B', f);
    }
  }

  /** A nonempty finite set has an element of least weight. */
  lemma MinBy(S: set<int>, w: seq<int>) returns (m: int)
    requires S != {} && forall x :: x in S ==> 0 <= x < |w|
    ensures m in S && forall x :: x in S ==> w[m] <= w[x]
    decreases |S|
  {
    var x := Pick(S);
    if S == {x} {
      m := x;
    } else {
      var m' := MinBy(S - {x}, w);
      m := if w[x] < w[m'] then x else m';
    }
  }
}
