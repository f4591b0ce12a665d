/**
 * `maxMatching` of HopcroftKarpSimple: clear match[], then repeat phases
 * (layer the graph, then try every free left vertex once) until the
 * layering no longer reaches NULL, i.e. no free vertex lies at the end of
 * an alternating path.
 */
module HkMatching {
  import opened HkGraph
  import opened HkLayers
  import opened HkAugment

  /** The matched vertices. */
  function MatchedSet(m: seq<int>): set<int> {
    set x | 0 <= x < |m| && m[x] != NULL
  }

  /** The matched left vertices. */
  function MatchedLeft(left: seq<int>, m: seq<int>): set<int> {
    set x | 0 <= x < |m| && m[x] != NULL && x in left
  }

  /** The matched vertices that are not left. */
  function MatchedRight(left: seq<int>, m: seq<int>): set<int> {
    set x | 0 <= x < |m| && m[x] != NULL && x !in left
  }

  /** `matching` counts the matched left vertices and, equally, the matched right ones. */
  predicate Counted(left: seq<int>, m: seq<int>, matching: int) {
    |MatchedLeft(left, m)| == matching && |MatchedRight(left, m)| == matching
  }

  /** A successful search from a free left vertex v matches v and one free right vertex more. */
  lemma Grow(g: GraphInner, left: seq<int>, m0: seq<int>, m: seq<int>, v: int, end: int)
    requires Matching(g, m0) && 0 < v < |m0| && v in left && m0[v] == NULL
    requires Augmented(g, left, m0, m, v, end)
    ensures Matching(g, m)
    ensures v !in MatchedLeft(left, m0) && MatchedLeft(left, m) == MatchedLeft(left, m0) + {v}
    ensures end !in MatchedRight(left, m0) && MatchedRight(left, m) == MatchedRight(left, m0) + {end}
  {
  }

  /** Matched vertices are left or right, so `matching` is half their number. */
  lemma CountedHalf(left: seq<int>, m: seq<int>, matching: int)
    requires Counted(left, m, matching)
    ensures 2 * matching == |MatchedSet(m)|
  {
    assert MatchedSet(m) == MatchedLeft(left, m) + MatchedRight(left, m);
  }

  /** A sequence has at most as many distinct members as entries. */
  lemma {:induction false} Members(s: seq<int>)
    ensures |set x | x in s| <= |s|
  {
    if s != [] {
      var t := s[..|s| - 1];
      Members(t);
      assert (set x | x in s) == (set x | x in t) + {s[|s| - 1]};
    }
  }

  /** At most |left| left vertices can be matched. */
  lemma LeftBound(left: seq<int>, m: seq<int>)
    ensures |MatchedLeft(left, m)| <= |left|
  {
    var all := set x | x in left;
    Members(left);
    assert all == MatchedLeft(left, m) + (all - MatchedLeft(left, m));
  }

  /**
   * One phase's second half: every left vertex, in order, that is free when
   * its turn comes is searched from, and each success counts one more pair.
   */
  method Phase(g: GraphInner, left: seq<int>, m0: seq<int>, l0: seq<int>, matching0: int)
    returns (m: seq<int>, l: seq<int>, matching: int)
    requires Prepared(g, left) && LeftIds(g, left) && Matching(g, m0) && Layers(g, l0)
    requires Counted(left, m0, matching0)
    ensures Matching(g, m) && Layers(g, l) && Counted(left, m, matching)
    ensures matching0 <= matching && (matching == matching0 ==> m == m0)
  {
    m, l, matching := m0, l0, matching0;
    var i := 0;
    while i < |left|
      invariant 0 <= i <= |left| && Matching(g, m) && Layers(g, l) && Counted(left, m, matching)
      invariant matching0 <= matching && (matching == matching0 ==> m == m0)
    {
      var v := left[i];
      if m[v] == NULL {
        m, l, matching := Attempt(g, left, m, l, matching, v);
      }
      i := i + 1;
    }
  }

  /** One turn of the phase: a search from the free left vertex v, counted when it succeeds. */
  method Attempt(g: GraphInner, left: seq<int>, m0: seq<int>, l0: seq<int>, matching0: int, v: int)
    returns (m: seq<int>, l: seq<int>, matching: int)
    requires Prepared(g, left) && LeftIds(g, left) && Matching(g, m0) && Layers(g, l0)
    requires Counted(left, m0, matching0) && v in left && m0[v] == NULL
    ensures Matching(g, m) && Layers(g, l) && Counted(left, m, matching)
    ensures matching0 <= matching && (matching == matching0 ==> m == m0)
  {
    var ok;
    ghost var end;
    ok, m, l, end := MatchVertex(g, left, m0, l0, v);
    matching := matching0;
    if ok {
      Grow(g, left, m0, m, v, end);
      matching := matching + 1;
    }
  }

  /**
   * An alternating walk from the free left vertex us[0] to the free vertex
   * ws[last]: each ws[i] is a neighbour of us[i], and each ws[i] before the
   * last is matched to us[i + 1]. Flipping a simple one grows the matching.
   */
  predicate AugmentingPath(g: GraphInner, left: seq<int>, m: seq<int>, us: seq<int>, ws: seq<int>)
    requires Slots(g, m)
  {
    && |us| == |ws| > 0
    && (forall i :: 0 <= i < |us| ==> 0 < us[i] < |m| && us[i] in left && 0 <= ws[i] < |m| && ws[i] in g.adj[us[i]])
    && m[us[0]] == NULL
    && (forall i :: 0 <= i < |us| - 1 ==> m[ws[i]] == us[i + 1])
    && m[ws[|ws| - 1]] == NULL
  }

  /** No alternating walk joins two free vertices (Berge's condition for a maximum matching). */
  ghost predicate NoAugmentingPath(g: GraphInner, left: seq<int>, m: seq<int>)
    requires Slots(g, m)
  {
    forall us, ws :: !AugmentingPath(g, left, m, us, ws)
  }

  /** The facts `partitionGraph` establishes about the layers l it computes from l0. */
  predicate Layered(g: GraphInner, left: seq<int>, m: seq<int>, l0: seq<int>, l: seq<int>)
    requires WellFormed(g) && LeftIds(g, left) && Slots(g, m) && |l0| == |m| && |l| == |m|
  {
    && (forall i :: 0 <= i < |left| && m[left[i]] == NULL ==> l[left[i]] == 0)
    && (forall v :: 0 < v < |l| && Touched(left, m, Reset(l0, left, m), l, v) ==> Expanded(g, m, l, v))
  }

  /** Along an alternating walk every left vertex, and the partner of the vertex after it, has a finite layer. */
  lemma {:induction false} WalkLayers(g: GraphInner, left: seq<int>, m: seq<int>, l0: seq<int>, l: seq<int>,
                                      us: seq<int>, ws: seq<int>, k: nat)
    requires WellFormed(g) && LeftIds(g, left) && Slots(g, m) && |l0| == |m| && |l| == |m|
    requires Layered(g, left, m, l0, l) && AugmentingPath(g, left, m, us, ws) && k < |us|
    ensures l[us[k]] != INF && l[m[ws[k]]] != INF
    decreases k
  {
    var u := us[k];
    if k == 0 {
      var i :| 0 <= i < |left| && left[i] == u;
    } else {
      WalkLayers(g, left, m, l0, l, us, ws, k - 1);
    }
    assert Touched(left, m, Reset(l0, left, m), l, u);
    var j :| 0 <= j < |g.adj[u]| && g.adj[u][j] == ws[k];
  }

  /** When `partitionGraph` leaves NULL at INF, no augmenting walk exists. */
  lemma StuckNoPath(g: GraphInner, left: seq<int>, m: seq<int>, l0: seq<int>, l: seq<int>)
    requires WellFormed(g) && LeftIds(g, left) && Slots(g, m) && |l0| == |m| && |l| == |m|
    requires Layered(g, left, m, l0, l) && l[NULL] == INF
    ensures NoAugmentingPath(g, left, m)
  {
    forall us, ws | AugmentingPath(g, left, m, us, ws)
      ensures false
    {
      WalkLayers(g, left, m, l0, l, us, ws, |us| - 1);
    }
  }

  /**
   * `maxMatching()`, with at most `fuel` phases. match[] is cleared first,
   * whatever it held, and `matching` restarts at 0. The result is a matching
   * along graph edges whose size is `matching`, half the number of matched
   * vertices and at most |left|; `done` reports that the last layering
   * missed NULL, and then no augmenting walk is left.
   */
  method MaxMatching(g: GraphInner, left: seq<int>, l0: seq<int>, fuel: nat)
    returns (m: seq<int>, l: seq<int>, matching: int, done: bool)
    requires Prepared(g, left) && LeftIds(g, left) && |g.adj| < INF && Layers(g, l0)
    ensures Matching(g, m) && Layers(g, l) && Counted(left, m, matching)
    ensures 2 * matching == |MatchedSet(m)| && 0 <= matching <= |left|
    ensures done ==> NoAugmentingPath(g, left, m)
  {
    m := seq(|g.adj|, _ => NULL);
    matching := 0;
    assert MatchedLeft(left, m) == {} && MatchedRight(left, m) == {};
    l, done := l0, false;
    var k := 0;
    while k < fuel && !done
      invariant Matching(g, m) && Layers(g, l) && Counted(left, m, matching)
      invariant done ==> NoAugmentingPath(g, left, m)
      decreases fuel - k
    {
      var ok, l1, pv, pj := PartitionGraph(g, left, m, l);
      if !ok {
        StuckNoPath(g, left, m, l, l1);
        done := true;
        l := l1;
      } else {
        m, l, matching := Phase(g, left, m, l1, matching);
      }
      k := k + 1;
    }
    CountedHalf(left, m, matching);
    LeftBound(left, m);
  }
}
