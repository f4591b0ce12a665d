/**
 * The array adjacency representation shared by the max-flow solver and the
 * heavy-light decomposition: every input edge k becomes the two arcs 2k
 * (source -> target) and 2k+1 (target -> source), each prepended to the
 * singly linked list of its tail vertex through firstEdge/next.
 */
module Adjacency {

  /** Endpoints of one input edge, already renumbered to dense vertex IDs. */
  datatype Ends = Ends(source: int, target: int)

  /**
   * firstEdge[v] is the newest arc leaving v, next[e] the arc after e in the
   * same list and to[e] the head of e; -1 stands for "no arc".
   */
  datatype Arcs = Arcs(firstEdge: seq<int>, next: seq<int>, to: seq<int>)

  /** Every endpoint names one of the n vertices. */
  predicate EndsIn(n: nat, edges: seq<Ends>) {
    forall k :: 0 <= k < |edges| ==> 0 <= edges[k].source < n && 0 <= edges[k].target < n
  }

  /** The companion of arc e, written `e ^ 1` in both Java classes. */
  function Companion(e: nat): (c: nat)
    ensures c / 2 == e / 2 && c % 2 != e % 2
  {
    if e % 2 == 0 then e + 1 else e - 1
  }

  /** The companion of an arc among an even number of arcs is one of them. */
  lemma CompanionBelow(e: nat, m: nat)
    requires m % 2 == 0 && e < m
    ensures Companion(e) < m && Companion(Companion(e)) == e
  {
  }

  /** Tail of arc e as the construction defines it (arc 2k leaves source_k). */
  function Tail(edges: seq<Ends>, e: nat): int
    requires e < 2 * |edges|
  {
    if e % 2 == 0 then edges[e / 2].source else edges[e / 2].target
  }

  /** Head of arc e as the construction defines it (arc 2k enters target_k). */
  function Head(edges: seq<Ends>, e: nat): int
    requires e < 2 * |edges|
  {
    if e % 2 == 0 then edges[e / 2].target else edges[e / 2].source
  }

  /**
   * Shape facts the traversals rely on: arcs come in pairs, every link points
   * to an existing arc or -1, and every `next` link points to an OLDER arc,
   * which is what makes every list finite.
   */
  ghost predicate WellLinked(a: Arcs) {
    && |a.next| == |a.to|
    && |a.to| % 2 == 0
    && (forall v :: 0 <= v < |a.firstEdge| ==> -1 <= a.firstEdge[v] < |a.to|)
    && (forall e :: 0 <= e < |a.next| ==> -1 <= a.next[e] < e)
    && (forall e :: 0 <= e < |a.to| ==> 0 <= a.to[e] < |a.firstEdge|)
  }

  /** The arcs met by following `next` from e until -1. */
  ghost function ChainFrom(a: Arcs, e: int): (c: seq<int>)
    requires WellLinked(a) && -1 <= e < |a.to|
    ensures forall i :: 0 <= i < |c| ==> 0 <= c[i] <= e
    ensures forall i, j :: 0 <= i < j < |c| ==> c[i] > c[j]
    ensures e >= 0 ==> |c| > 0 && c[0] == e
    decreases e + 1
  {
    if e < 0 then [] else [e] + ChainFrom(a, a.next[e])
  }

  /** The list of arcs leaving v, newest first. */
  ghost function Chain(a: Arcs, v: nat): seq<int>
    requires WellLinked(a) && v < |a.firstEdge|
  {
    ChainFrom(a, a.firstEdge[v])
  }

  /** The cursor c (an arc or -1) lies on the list of v. */
  ghost predicate OnChain(a: Arcs, v: nat, c: int)
    requires WellLinked(a) && v < |a.firstEdge|
  {
    c == -1 || c in Chain(a, v)
  }

  /** The cursor c' is c or lies further down the same list (or is -1). */
  ghost predicate Forward(a: Arcs, c: int, c': int)
    requires WellLinked(a) && -1 <= c < |a.to|
  {
    c' == -1 || c' in ChainFrom(a, c)
  }

  /**
   * One step of walking a list: if ch[k..] is the walk from arc e, then e is
   * ch[k] and the rest of the walk starts at next[e].
   */
  lemma ChainWalk(a: Arcs, ch: seq<int>, k: nat, e: int)
    requires WellLinked(a) && 0 <= e < |a.to|
    requires k <= |ch| && ch[k..] == ChainFrom(a, e)
    ensures k < |ch| && ch[k] == e && e in ch
    ensures ch[k + 1..] == ChainFrom(a, a.next[e])
    ensures ch[..k + 1] == ch[..k] + [e]
  {
    assert ChainFrom(a, e) == [e] + ChainFrom(a, a.next[e]);
    assert ch[k + 1..] == ch[k..][1..];
  }

  /** Following the list from b, itself reached from x, stays within the list from x. */
  lemma {:induction false} ChainFromTransitive(a: Arcs, x: int, b: int, c: int)
    requires WellLinked(a) && -1 <= x < |a.to| && -1 <= b < |a.to|
    requires b in ChainFrom(a, x) && c in ChainFrom(a, b)
    ensures c in ChainFrom(a, x)
    decreases x + 1
  {
    if b != x {
      ChainFromTransitive(a, a.next[x], b, c);
    }
  }

  /** Forward is transitive: cursors only ever move down the list. */
  lemma ForwardTransitive(a: Arcs, x: int, b: int, c: int)
    requires WellLinked(a) && -1 <= x < |a.to| && -1 <= b < |a.to|
    requires Forward(a, x, b) && Forward(a, b, c)
    ensures Forward(a, x, c)
  {
    if c != -1 {
      assert b != -1;
      ChainFromTransitive(a, x, b, c);
    }
  }

  /** A cursor on v's list that moves forward stays on v's list. */
  lemma OnChainForward(a: Arcs, v: nat, c: int, c': int)
    requires WellLinked(a) && v < |a.firstEdge| && -1 <= c < |a.to|
    requires OnChain(a, v, c) && Forward(a, c, c')
    ensures OnChain(a, v, c')
  {
    if c' != -1 {
      ChainFromTransitive(a, a.firstEdge[v], c, c');
    }
  }

  /** The largest entry of dist (0 when empty): a bound on every entry, used as a recursion measure. */
  function MaxEntry(dist: seq<int>): (m: int)
    ensures forall i :: 0 <= i < |dist| ==> dist[i] <= m
  {
    if |dist| == 0 then 0
    else
      var m := MaxEntry(dist[..|dist| - 1]);
      var x := dist[|dist| - 1];
      assert forall i :: 0 <= i < |dist| - 1 ==> dist[i] == dist[..|dist| - 1][i];
      if x < m then m else x
  }

  /** n copies of x. */
  function Fill(n: nat, x: int): (s: seq<int>)
    ensures |s| == n && forall i :: 0 <= i < n ==> s[i] == x
  {
    if n == 0 then [] else Fill(n - 1, x) + [x]
  }

  /** n vertices, no arcs: every list is empty. */
  function Empty(n: nat): (a: Arcs)
    ensures WellLinked(a) && |a.firstEdge| == n && |a.to| == 0
    ensures forall v :: 0 <= v < n ==> Chain(a, v) == []
  {
    Arcs(Fill(n, -1), [], [])
  }

  /**
   * The `add` step: arc k = |to| goes u -> v and is prepended to u's list, then
   * arc k+1 goes v -> u and is prepended to v's list.
   */
  function Add(a: Arcs, u: nat, v: nat): (r: Arcs)
    requires WellLinked(a) && u < |a.firstEdge| && v < |a.firstEdge|
    ensures WellLinked(r)
    ensures |r.firstEdge| == |a.firstEdge| && |r.to| == |a.to| + 2
    ensures r.to[..|a.to|] == a.to && r.next[..|a.next|] == a.next
    ensures r.to[|a.to|] == v && r.to[|a.to| + 1] == u
  {
    var k := |a.to|;
    var f1 := a.firstEdge[u := k];
    Arcs(f1[v := k + 1], a.next + [a.firstEdge[u], f1[v]], a.to + [v, u])
  }

  /** Integer halving facts for the two arcs of pair k. */
  lemma Half(k: nat)
    ensures (2 * k) / 2 == k && (2 * k + 1) / 2 == k && (2 * k) % 2 == 0 && (2 * k + 1) % 2 == 1
  {
  }

  /** Arc 2k enters target_k and leaves source_k; arc 2k+1 the other way round. */
  lemma PairEnds(edges: seq<Ends>, k: nat)
    requires k < |edges|
    ensures Head(edges, 2 * k) == edges[k].target && Tail(edges, 2 * k) == edges[k].source
    ensures Head(edges, 2 * k + 1) == edges[k].source && Tail(edges, 2 * k + 1) == edges[k].target
  {
    Half(k);
  }

  /** Head of an arc's companion is the arc's tail. */
  lemma HeadOfCompanion(edges: seq<Ends>, e: nat)
    requires e < 2 * |edges|
    ensures Companion(e) < 2 * |edges| && Head(edges, Companion(e)) == Tail(edges, e)
  {
  }

  /** The arc arrays built from the input edges in order. */
  function Build(n: nat, edges: seq<Ends>): (a: Arcs)
    requires EndsIn(n, edges)
    ensures WellLinked(a) && |a.firstEdge| == n && |a.to| == 2 * |edges|
    ensures forall e :: 0 <= e < |a.to| ==> a.to[e] == Head(edges, e)
    ensures forall e :: 0 <= e < |a.to| ==> a.to[Companion(e)] == Tail(edges, e)
    decreases |edges|
  {
    if edges == [] then Empty(n)
    else
      var k := |edges| - 1;
      var a0 := Build(n, edges[..k]);
      var r := Add(a0, edges[k].source, edges[k].target);
      BuildStep(edges, a0, r);
      r
  }

  /** The induction step behind Build's postconditions. */
  lemma BuildStep(edges: seq<Ends>, a0: Arcs, r: Arcs)
    requires |edges| > 0
    requires |a0.to| == 2 * (|edges| - 1) && |r.to| == |a0.to| + 2
    requires forall e :: 0 <= e < |a0.to| ==> a0.to[e] == Head(edges[..|edges| - 1], e)
    requires r.to[..|a0.to|] == a0.to
    requires r.to[|a0.to|] == edges[|edges| - 1].target && r.to[|a0.to| + 1] == edges[|edges| - 1].source
    ensures forall e :: 0 <= e < |r.to| ==> r.to[e] == Head(edges, e)
    ensures forall e :: 0 <= e < |r.to| ==> r.to[Companion(e)] == Tail(edges, e)
  {
    var k := |edges| - 1;
    forall e | 0 <= e < |r.to|
      ensures r.to[e] == Head(edges, e)
    {
      if e < 2 * k {
        assert r.to[e] == r.to[..|a0.to|][e];
        assert Head(edges, e) == Head(edges[..k], e);
      }
    }
    forall e | 0 <= e < |r.to|
      ensures r.to[Companion(e)] == Tail(edges, e)
    {
      HeadOfCompanion(edges, e);
    }
  }

  /** Lists depend only on the arcs they pass through, so appending arcs leaves old lists alone. */
  lemma {:induction false} ChainFromExtend(a: Arcs, b: Arcs, e: int)
    requires WellLinked(a) && WellLinked(b) && |a.to| <= |b.to|
    requires b.next[..|a.next|] == a.next
    requires -1 <= e < |a.to|
    ensures ChainFrom(b, e) == ChainFrom(a, e)
    decreases e + 1
  {
    if e >= 0 {
      assert b.next[e] == b.next[..|a.next|][e];
      ChainFromExtend(a, b, a.next[e]);
    }
  }

  /** How one `add` changes the lists: only u's and v's lists grow, at their front. */
  lemma AddChains(a: Arcs, u: nat, v: nat, x: nat)
    requires WellLinked(a) && u < |a.firstEdge| && v < |a.firstEdge| && x < |a.firstEdge|
    ensures var k := |a.to|; var r := Add(a, u, v);
      Chain(r, x) ==
        (if x == u && x == v then [k + 1, k] + Chain(a, x)
         else if x == u then [k] + Chain(a, x)
         else if x == v then [k + 1] + Chain(a, x)
         else Chain(a, x))
  {
    var k := |a.to|;
    var r := Add(a, u, v);
    assert r.next[k] == a.firstEdge[u];
    ChainFromExtend(a, r, a.firstEdge[x]);
    ChainFromExtend(a, r, a.firstEdge[u]);
    ChainFromExtend(a, r, a.firstEdge[v]);
    assert ChainFrom(r, k) == [k] + Chain(a, u);
    if x == u && x == v {
      assert r.next[k + 1] == k;
      assert Chain(r, x) == [k + 1] + ChainFrom(r, k);
    } else if x == v {
      assert r.next[k + 1] == a.firstEdge[v];
      assert Chain(r, x) == [k + 1] + ChainFrom(r, a.firstEdge[v]);
    } else if x == u {
      assert Chain(r, x) == ChainFrom(r, k);
    } else {
      assert r.firstEdge[x] == a.firstEdge[x];
    }
  }

  /** Membership form of AddChains. */
  lemma AddMembership(a: Arcs, u: nat, w: nat, v: nat, e: int)
    requires WellLinked(a) && u < |a.firstEdge| && w < |a.firstEdge| && v < |a.firstEdge|
    ensures e in Chain(Add(a, u, w), v) <==>
      e in Chain(a, v) || (e == |a.to| && v == u) || (e == |a.to| + 1 && v == w)
  {
    AddChains(a, u, w, v);
    var k := |a.to|;
    var c0 := Chain(a, v);
    var c := Chain(Add(a, u, w), v);
    if v == u && v == w {
      ConsMembership([k + 1, k], c0, e);
    } else if v == u {
      ConsMembership([k], c0, e);
    } else if v == w {
      ConsMembership([k + 1], c0, e);
    }
  }

  /** Membership in a concatenation. */
  lemma ConsMembership(p: seq<int>, c: seq<int>, e: int)
    ensures e in p + c <==> e in p || e in c
  {
  }

  /**
   * After construction every arc lies on exactly one list, its tail's: the
   * list of v holds exactly the arcs whose tail is v (and, being strictly
   * decreasing, holds each of them once).
   */
  lemma {:induction false} BuildChains(n: nat, edges: seq<Ends>, v: nat, e: int)
    requires EndsIn(n, edges) && v < n
    ensures e in Chain(Build(n, edges), v) <==> 0 <= e < 2 * |edges| && Tail(edges, e) == v
    decreases |edges|
  {
    if edges != [] {
      var k := |edges| - 1;
      var pre := edges[..k];
      assert EndsIn(n, pre);
      var a0 := Build(n, pre);
      assert Build(n, edges) == Add(a0, edges[k].source, edges[k].target);
      AddMembership(a0, edges[k].source, edges[k].target, v, e);
      BuildChains(n, pre, v, e);
      TailPrefix(edges, e);
    }
  }

  /** Tails of the old arcs are unchanged by one more edge, and the new pair's tails are its ends. */
  lemma TailPrefix(edges: seq<Ends>, e: int)
    requires |edges| > 0
    ensures var k := |edges| - 1;
      && (0 <= e < 2 * k ==> Tail(edges, e) == Tail(edges[..k], e))
      && (e == 2 * k ==> Tail(edges, e) == edges[k].source)
      && (e == 2 * k + 1 ==> Tail(edges, e) == edges[k].target)
  {
    var k := |edges| - 1;
    Half(k);
    if 0 <= e < 2 * k {
      assert e / 2 < k;
    }
  }

  /** Every arc on v's list of the built arcs leaves v: its companion enters v. */
  lemma BuildTails(n: nat, edges: seq<Ends>, a: Arcs)
    requires EndsIn(n, edges) && a == Build(n, edges)
    ensures forall v: nat, e: int {:trigger e in Chain(a, v)} :: v < n && e in Chain(a, v) ==>
      0 <= e < |a.to| && a.to[Companion(e)] == v
  {
    assert WellLinked(a) && |a.firstEdge| == n;
    forall v: nat, e: int | v < n && e in Chain(a, v)
      ensures 0 <= e < |a.to| && a.to[Companion(e)] == v
    {
      BuildTail(n, edges, a, v, e);
    }
  }

  /** One arc of BuildTails. */
  lemma BuildTail(n: nat, edges: seq<Ends>, a: Arcs, v: nat, e: int)
    requires EndsIn(n, edges) && a == Build(n, edges) && v < n && e in Chain(a, v)
    ensures 0 <= e < |a.to| && a.to[Companion(e)] == v
  {
    BuildChains(n, edges, v, e);
    assert 0 <= e < 2 * |edges| && Tail(edges, e) == v;
  }
}
