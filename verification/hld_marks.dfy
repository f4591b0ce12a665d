/**
 * The order in which `isTree` marks vertices, kept as ghost state beside the
 * search. Every vertex but a search's start is marked through one arc,
 * whose other end was marked earlier. Those marking arcs make the
 * search forest. When the search passes, every input edge is one of them, so a
 * set S of vertices spans at most |S| - 1 edges: the earliest member of S
 * is not the marked end of any of them. When the search fails, the
 * vertices of the current search span at least as many edges as they
 * hold: each member but the start has its marking edge, and the start
 * is paid for by the extra arc that failed the count.
 */
module HldMarks {
  import opened Adjacency
  import opened HldForest

  /**
   * mark[x]: the arc through which x was marked (negative for a start);
   * time[x]: when x was marked; cur: the vertices of the current search;
   * root: its start.
   */
  datatype Marks = Marks(mark: seq<int>, time: seq<int>, clock: int, cur: set<int>, root: int)

  /** The marks after marking w through the arc e. */
  function MarkVia(mk: Marks, w: int, e: int): Marks
    requires 0 <= w < |mk.mark| && |mk.time| == |mk.mark|
  {
    mk.(mark := mk.mark[w := e], time := mk.time[w := mk.clock], clock := mk.clock + 1, cur := mk.cur + {w})
  }

  /** The marks after starting a new search at i. */
  function StartAt(mk: Marks, i: int): Marks
    requires 0 <= i < |mk.mark| && |mk.time| == |mk.mark|
  {
    Marks(mk.mark[i := -1], mk.time[i := mk.clock], mk.clock + 1, {i}, i)
  }

  ghost predicate Sized(a: Arcs, vis: seq<bool>, done: seq<bool>, mk: Marks) {
    && WellLinked(a) && |vis| == |a.firstEdge| && |done| == |vis|
    && |mk.mark| == |vis| && |mk.time| == |vis|
  }

  /** The vertex that marked x. */
  function Marker(a: Arcs, mk: Marks, x: int): int
    requires WellLinked(a) && 0 <= x < |mk.mark| && 0 <= mk.mark[x] < |a.to|
  {
    TailOf(a, mk.mark[x])
  }

  /** x was marked through the arc mark[x], which leaves a vertex marked before x. */
  ghost predicate MarkedVia(a: Arcs, vis: seq<bool>, done: seq<bool>, mk: Marks, x: int)
    requires Sized(a, vis, done, mk) && 0 <= x < |vis|
  {
    && 0 <= mk.mark[x] < |a.to| && a.to[mk.mark[x]] == x
    && vis[Marker(a, mk, x)] && mk.time[Marker(a, mk, x)] < mk.time[x]
  }

  /**
   * Done vertices are marked, marked vertices carry times before the
   * clock, and each one marked
   * through an arc was marked by a done vertex, or by v while v is scanned.
   */
  ghost predicate Timed(a: Arcs, vis: seq<bool>, done: seq<bool>, mk: Marks, v: int)
    requires Sized(a, vis, done, mk)
  {
    && 0 <= mk.clock
    && (forall x :: 0 <= x < |vis| && done[x] ==> vis[x])
    && (forall x :: 0 <= x < |vis| && vis[x] ==> 0 <= mk.time[x] < mk.clock)
    && (forall x :: 0 <= x < |vis| && vis[x] && mk.mark[x] >= 0 ==>
          MarkedVia(a, vis, done, mk, x) && (done[Marker(a, mk, x)] || Marker(a, mk, x) == v))
  }

  /**
   * The current search: its start carries no marking arc, every other
   * member was marked by a member, and while the start is not done every
   * other member was marked by the start.
   */
  ghost predicate Current(a: Arcs, vis: seq<bool>, done: seq<bool>, mk: Marks)
    requires Sized(a, vis, done, mk)
  {
    && 0 <= mk.root < |vis| && mk.root in mk.cur && mk.mark[mk.root] < 0
    && (forall x :: x in mk.cur ==> 0 <= x < |vis| && vis[x])
    && (forall x :: x in mk.cur && x != mk.root ==> 0 <= mk.mark[x] < |a.to| && Marker(a, mk, x) in mk.cur)
    && (!done[mk.root] ==> forall x :: x in mk.cur && x != mk.root ==> Marker(a, mk, x) == mk.root)
  }

  /** Vertices of earlier searches are done and have no arc into the current one. */
  ghost predicate Outside(a: Arcs, vis: seq<bool>, done: seq<bool>, mk: Marks)
    requires Sized(a, vis, done, mk)
  {
    forall x :: 0 <= x < |vis| && vis[x] && x !in mk.cur ==>
      done[x] && forall e :: e in Chain(a, x) && 0 <= e < |a.to| ==> a.to[e] !in mk.cur
  }

  /**
   * How the arc e of x is paid for: it marked its head, or it is the
   * companion of the arc that marked x, or x is a start and the head is x
   * itself or was marked by x.
   */
  ghost predicate Sorted(a: Arcs, mk: Marks, x: int, e: int)
    requires WellLinked(a) && |mk.mark| == |a.firstEdge| && 0 <= x < |mk.mark| && 0 <= e < |a.to|
  {
    var y := a.to[e];
    || mk.mark[y] == e
    || (mk.mark[x] >= 0 && e == Companion(mk.mark[x]))
    || (mk.mark[x] < 0 && (y == x || (0 <= mk.mark[y] < |a.to| && Marker(a, mk, y) == x)))
  }

  /** Every arc of a done vertex leads to a marked vertex and is paid for. */
  ghost predicate Settled(a: Arcs, vis: seq<bool>, done: seq<bool>, mk: Marks)
    requires Sized(a, vis, done, mk)
  {
    forall x, e :: 0 <= x < |vis| && done[x] && e in Chain(a, x) && 0 <= e < |a.to| ==>
      vis[a.to[e]] && Sorted(a, mk, x, e)
  }

  /** The marks during a search, with v the vertex under scan (or -1 between scans). */
  ghost predicate MarkState(a: Arcs, vis: seq<bool>, done: seq<bool>, mk: Marks, v: int) {
    && Sized(a, vis, done, mk) && Timed(a, vis, done, mk, v) && Current(a, vis, done, mk)
    && Outside(a, vis, done, mk) && Settled(a, vis, done, mk)
  }

  /** The marks between two searches: every marked vertex is done. */
  ghost predicate Between(a: Arcs, vis: seq<bool>, done: seq<bool>, mk: Marks) {
    && Sized(a, vis, done, mk) && Timed(a, vis, done, mk, -1) && Settled(a, vis, done, mk)
    && (forall x :: 0 <= x < |vis| && vis[x] ==> done[x])
  }

  /** No arc of any list leads back to its own vertex. */
  ghost predicate NoLoops(a: Arcs)
    requires WellLinked(a)
  {
    forall x, e :: 0 <= x < |a.firstEdge| && e in Chain(a, x) && 0 <= e < |a.to| ==> a.to[e] != x
  }

  /** The frame of one scan of v after the first k arcs ch[..k] of its list. */
  ghost predicate ScanShape(a: Arcs, v: int, ch: seq<int>, k: nat, vis0: seq<bool>,
                            vis: seq<bool>, done: seq<bool>, mk: Marks)
  {
    Sized(a, vis, done, mk) && 0 <= v < |vis| && ch == Chain(a, v) && k <= |ch| && |vis0| == |vis|
  }

  /**
   * v is a member of the current search, not done; the marks made before
   * the scan were made by done vertices; those made during it are members
   * made through the arcs already scanned.
   */
  ghost predicate ScanBase(a: Arcs, v: int, ch: seq<int>, k: nat, vis0: seq<bool>,
                           vis: seq<bool>, done: seq<bool>, mk: Marks)
    requires ScanShape(a, v, ch, k, vis0, vis, done, mk)
  {
    && vis0[v] && v in mk.cur && !done[v]
    && (forall x :: 0 <= x < |vis| && vis0[x] ==> vis[x])
    && (forall x :: 0 <= x < |vis| && vis0[x] && mk.mark[x] >= 0 ==>
          0 <= mk.mark[x] < |a.to| && done[Marker(a, mk, x)])
    && (forall x :: 0 <= x < |vis| && vis[x] && !vis0[x] ==>
          x in mk.cur && 0 <= mk.mark[x] && mk.mark[x] in ch[..k])
  }

  /** Every arc scanned leads to a marked vertex and is paid for, unless an extra arc was counted. */
  ghost predicate ScanSorted(a: Arcs, v: int, ch: seq<int>, k: nat, vis0: seq<bool>,
                             vis: seq<bool>, done: seq<bool>, mk: Marks, extra: int)
    requires ScanShape(a, v, ch, k, vis0, vis, done, mk)
  {
    forall j :: 0 <= j < k ==> vis[a.to[ch[j]]] && (Sorted(a, mk, v, ch[j]) || (mk.mark[v] >= 0 && extra >= 0))
  }

  /**
   * The count so far: the companion of v's marking arc once it is
   * scanned, and at least one more once an extra arc is recorded.
   */
  ghost predicate Counted(a: Arcs, v: int, ch: seq<int>, k: nat, vis0: seq<bool>,
                          vis: seq<bool>, done: seq<bool>, mk: Marks, count: int, extra: int)
    requires ScanShape(a, v, ch, k, vis0, vis, done, mk)
  {
    var seen := if mk.mark[v] >= 0 && Companion(mk.mark[v]) in ch[..k] then 1 else 0;
    && (extra < 0 ==> count == seen)
    && (extra >= 0 ==> count >= seen + 1)
  }

  /**
   * The extra arc: a scanned arc of v into the current search that is
   * neither the companion of v's marking arc nor any vertex's marking arc.
   */
  ghost predicate Extra(a: Arcs, v: int, ch: seq<int>, k: nat, vis0: seq<bool>,
                        vis: seq<bool>, done: seq<bool>, mk: Marks, extra: int)
    requires ScanShape(a, v, ch, k, vis0, vis, done, mk)
  {
    && extra in ch[..k] && 0 <= extra < |a.to| && a.to[extra] in mk.cur
    && (mk.mark[v] >= 0 ==> extra != Companion(mk.mark[v]))
    && (forall y :: 0 <= y < |vis| && vis[y] ==> mk.mark[y] != extra)
  }

  /** The marks during the scan of v. */
  ghost predicate ScanMarks(a: Arcs, v: int, ch: seq<int>, k: nat, vis0: seq<bool>,
                            vis: seq<bool>, done: seq<bool>, mk: Marks, count: int, extra: int)
  {
    && ScanShape(a, v, ch, k, vis0, vis, done, mk)
    && MarkState(a, vis, done, mk, v)
    && ScanBase(a, v, ch, k, vis0, vis, done, mk)
    && ScanSorted(a, v, ch, k, vis0, vis, done, mk, extra)
    && Counted(a, v, ch, k, vis0, vis, done, mk, count, extra)
    && (extra >= 0 ==> Extra(a, v, ch, k, vis0, vis, done, mk, extra))
  }

  /** mk' agrees with mk on every vertex marked in vis, and vis' marks at least those. */
  ghost predicate Agree(vis: seq<bool>, mk: Marks, vis': seq<bool>, mk': Marks) {
    && |vis'| == |vis| && |mk.mark| == |vis| && |mk.time| == |vis| && |mk'.mark| == |vis| && |mk'.time| == |vis|
    && forall x :: 0 <= x < |vis| && vis[x] ==> vis'[x] && mk'.mark[x] == mk.mark[x] && mk'.time[x] == mk.time[x]
  }

  /** The arcs of a list are distinct: ch[k] is not among the arcs before it. */
  lemma ChainFresh(a: Arcs, v: int, k: nat)
    requires WellLinked(a) && 0 <= v < |a.firstEdge| && k < |Chain(a, v)|
    ensures Chain(a, v)[k] !in Chain(a, v)[..k]
  {
    var ch := Chain(a, v);
    forall i | 0 <= i < k
      ensures ch[..k][i] != ch[k]
    {
      assert ch[i] > ch[k];
    }
  }

  lemma PrefixGrow(ch: seq<int>, k: nat, x: int)
    requires k < |ch|
    ensures x in ch[..k + 1] <==> x in ch[..k] || x == ch[k]
  {
    assert ch[..k + 1] == ch[..k] + [ch[k]];
  }

  lemma PrefixIn(ch: seq<int>, k: nat, x: int)
    requires k <= |ch| && x in ch[..k]
    ensures x in ch
  {
    var i :| 0 <= i < k && ch[..k][i] == x;
    assert ch[i] == x;
  }

  /** The companion of an arc leads back to the arc's tail. */
  lemma CompanionTail(a: Arcs, e: nat)
    requires WellLinked(a) && e < |a.to|
    ensures Companion(e) < |a.to| && Companion(Companion(e)) == e
    ensures TailOf(a, Companion(e)) == a.to[e] && a.to[Companion(e)] == TailOf(a, e)
  {
    CompanionBelow(e, |a.to|);
  }

  /** Agreeing marks keep a vertex's marking arc. */
  lemma MarkedKeep(a: Arcs, vis: seq<bool>, done: seq<bool>, mk: Marks,
                   vis': seq<bool>, done': seq<bool>, mk': Marks, x: int)
    requires Sized(a, vis, done, mk) && Sized(a, vis', done', mk') && Agree(vis, mk, vis', mk')
    requires 0 <= x < |vis| && vis[x] && MarkedVia(a, vis, done, mk, x)
    ensures MarkedVia(a, vis', done', mk', x) && Marker(a, mk', x) == Marker(a, mk, x)
  {
  }

  /** Agreeing marks keep every done vertex's arcs paid for. */
  lemma SettledKeep(a: Arcs, vis: seq<bool>, done: seq<bool>, mk: Marks, vis': seq<bool>, mk': Marks)
    requires Sized(a, vis, done, mk) && Sized(a, vis', done, mk') && Agree(vis, mk, vis', mk')
    requires Settled(a, vis, done, mk) && forall x :: 0 <= x < |vis| && done[x] ==> vis[x]
    ensures Settled(a, vis', done, mk')
  {
    forall x, e | 0 <= x < |vis'| && done[x] && e in Chain(a, x) && 0 <= e < |a.to|
      ensures vis'[a.to[e]] && Sorted(a, mk', x, e)
    {
      assert vis[a.to[e]] && Sorted(a, mk, x, e);
    }
  }

  /** A scan begins with nothing counted and no extra arc. */
  lemma ScanStart(a: Arcs, v: int, vis0: seq<bool>, done: seq<bool>, mk: Marks)
    requires MarkState(a, vis0, done, mk, -1) && 0 <= v < |vis0|
    requires vis0[v] && v in mk.cur && !done[v]
    ensures ScanMarks(a, v, Chain(a, v), 0, vis0, vis0, done, mk, 0, -1)
  {
  }

  /** When v is scanned and is not the start, the start is done. */
  lemma RootDone(a: Arcs, v: int, ch: seq<int>, k: nat, vis0: seq<bool>,
                 vis: seq<bool>, done: seq<bool>, mk: Marks)
    requires ScanShape(a, v, ch, k, vis0, vis, done, mk)
    requires Current(a, vis, done, mk) && ScanBase(a, v, ch, k, vis0, vis, done, mk)
    ensures v != mk.root ==> done[mk.root]
  {
  }

  /** An arc of v to a marked vertex leads into the current search. */
  lemma HeadInCur(a: Arcs, vis: seq<bool>, done: seq<bool>, mk: Marks, v: int, e: int)
    requires MarkState(a, vis, done, mk, v) && Paired(a)
    requires 0 <= v < |vis| && v in mk.cur && 0 <= e < |a.to| && TailOf(a, e) == v && vis[a.to[e]]
    ensures a.to[e] in mk.cur
  {
    CompanionTail(a, e);
    assert Companion(e) in Chain(a, a.to[e]);
  }

  /** No vertex was marked through the arc ch[k] before it is scanned. */
  lemma NotYetMarking(a: Arcs, v: int, ch: seq<int>, k: nat, vis0: seq<bool>,
                      vis: seq<bool>, done: seq<bool>, mk: Marks)
    requires ScanShape(a, v, ch, k, vis0, vis, done, mk) && k < |ch| && Paired(a)
    requires MarkState(a, vis, done, mk, v) && ScanBase(a, v, ch, k, vis0, vis, done, mk)
    ensures forall y :: 0 <= y < |vis| && vis[y] ==> mk.mark[y] != ch[k]
  {
    ChainFresh(a, v, k);
    assert ch[k] in Chain(a, v);
  }

  /** Marking the unmarked head of the arc e of v keeps the times and marking arcs. */
  lemma TimedMark(a: Arcs, vis: seq<bool>, done: seq<bool>, mk: Marks, v: int, e: int)
    requires Sized(a, vis, done, mk) && Timed(a, vis, done, mk, v)
    requires 0 <= v < |vis| && vis[v] && 0 <= e < |a.to| && TailOf(a, e) == v && !vis[a.to[e]]
    ensures Timed(a, vis[a.to[e] := true], done, MarkVia(mk, a.to[e], e), v)
  {
    var w := a.to[e];
    var vis', mk' := vis[w := true], MarkVia(mk, w, e);
    assert Sized(a, vis', done, mk');
    assert Agree(vis, mk, vis', mk');
    forall x | 0 <= x < |vis'| && vis'[x] && mk'.mark[x] >= 0
      ensures MarkedVia(a, vis', done, mk', x) && (done[Marker(a, mk', x)] || Marker(a, mk', x) == v)
    {
      if x != w {
        MarkedKeep(a, vis, done, mk, vis', done, mk', x);
      }
    }
  }

  /** Marking the unmarked head of the arc e of the member v makes it a member marked by v. */
  lemma CurrentMark(a: Arcs, vis: seq<bool>, done: seq<bool>, mk: Marks, v: int, e: int)
    requires Sized(a, vis, done, mk) && Current(a, vis, done, mk)
    requires 0 <= v < |vis| && v in mk.cur && 0 <= e < |a.to| && TailOf(a, e) == v && !vis[a.to[e]]
    requires !done[mk.root] ==> v == mk.root
    ensures Current(a, vis[a.to[e] := true], done, MarkVia(mk, a.to[e], e))
  {
    var w := a.to[e];
    var vis', mk' := vis[w := true], MarkVia(mk, w, e);
    assert Sized(a, vis', done, mk');
    forall x | x in mk'.cur && x != mk'.root
      ensures 0 <= mk'.mark[x] < |a.to| && Marker(a, mk', x) in mk'.cur
      ensures !done[mk'.root] ==> Marker(a, mk', x) == mk'.root
    {
      if x != w {
        assert Marker(a, mk', x) == Marker(a, mk, x);
      }
    }
  }

  /** Marking an unmarked vertex keeps earlier searches closed off. */
  lemma OutsideMark(a: Arcs, vis: seq<bool>, done: seq<bool>, mk: Marks, w: int, e: int)
    requires Sized(a, vis, done, mk) && Outside(a, vis, done, mk) && Settled(a, vis, done, mk)
    requires 0 <= w < |vis| && !vis[w]
    ensures Outside(a, vis[w := true], done, MarkVia(mk, w, e))
  {
    var vis', mk' := vis[w := true], MarkVia(mk, w, e);
    assert Sized(a, vis', done, mk');
    forall x | 0 <= x < |vis'| && vis'[x] && x !in mk'.cur
      ensures done[x] && forall f :: f in Chain(a, x) && 0 <= f < |a.to| ==> a.to[f] !in mk'.cur
    {
      forall f | f in Chain(a, x) && 0 <= f < |a.to|
        ensures a.to[f] != w
      {
        assert vis[a.to[f]];
      }
    }
  }

  /** Marking through ch[k] keeps the facts about the scan's own marks. */
  lemma ScanBaseMark(a: Arcs, v: int, ch: seq<int>, k: nat, vis0: seq<bool>,
                     vis: seq<bool>, done: seq<bool>, mk: Marks)
    requires ScanShape(a, v, ch, k, vis0, vis, done, mk) && ScanBase(a, v, ch, k, vis0, vis, done, mk)
    requires k < |ch| && !vis[a.to[ch[k]]]
    ensures var w := a.to[ch[k]];
      ScanShape(a, v, ch, k + 1, vis0, vis[w := true], done, MarkVia(mk, w, ch[k]))
      && ScanBase(a, v, ch, k + 1, vis0, vis[w := true], done, MarkVia(mk, w, ch[k]))
  {
    var w := a.to[ch[k]];
    var vis', mk' := vis[w := true], MarkVia(mk, w, ch[k]);
    assert ScanShape(a, v, ch, k + 1, vis0, vis', done, mk');
    forall x | 0 <= x < |vis'| && vis0[x] && mk'.mark[x] >= 0
      ensures 0 <= mk'.mark[x] < |a.to| && done[Marker(a, mk', x)]
    {
      assert mk'.mark[x] == mk.mark[x];
    }
    forall x | 0 <= x < |vis'| && vis'[x] && !vis0[x]
      ensures x in mk'.cur && 0 <= mk'.mark[x] && mk'.mark[x] in ch[..k + 1]
    {
      PrefixGrow(ch, k, mk'.mark[x]);
    }
  }

  /** Marking through ch[k] keeps the scanned arcs paid for, and pays for ch[k]. */
  lemma ScanSortedMark(a: Arcs, v: int, ch: seq<int>, k: nat, vis0: seq<bool>,
                       vis: seq<bool>, done: seq<bool>, mk: Marks, extra: int)
    requires ScanShape(a, v, ch, k, vis0, vis, done, mk) && ScanSorted(a, v, ch, k, vis0, vis, done, mk, extra)
    requires k < |ch| && !vis[a.to[ch[k]]] && vis[v]
    ensures var w := a.to[ch[k]];
      ScanShape(a, v, ch, k + 1, vis0, vis[w := true], done, MarkVia(mk, w, ch[k]))
      && ScanSorted(a, v, ch, k + 1, vis0, vis[w := true], done, MarkVia(mk, w, ch[k]), extra)
  {
    var w := a.to[ch[k]];
    var vis', mk' := vis[w := true], MarkVia(mk, w, ch[k]);
    assert ScanShape(a, v, ch, k + 1, vis0, vis', done, mk');
    forall j | 0 <= j < k + 1
      ensures vis'[a.to[ch[j]]] && (Sorted(a, mk', v, ch[j]) || (mk'.mark[v] >= 0 && extra >= 0))
    {
      if j < k {
        assert vis[a.to[ch[j]]] && (Sorted(a, mk, v, ch[j]) || (mk.mark[v] >= 0 && extra >= 0));
      }
    }
  }

  /** Marking through ch[k] leaves the count as it is: ch[k] is not the companion of v's marking arc. */
  lemma ScanMarkCount(a: Arcs, v: int, ch: seq<int>, k: nat, vis0: seq<bool>,
                      vis: seq<bool>, done: seq<bool>, mk: Marks, count: int, extra: int)
    requires ScanShape(a, v, ch, k, vis0, vis, done, mk) && Timed(a, vis, done, mk, v)
    requires Counted(a, v, ch, k, vis0, vis, done, mk, count, extra)
    requires k < |ch| && !vis[a.to[ch[k]]] && vis[v]
    ensures var w := a.to[ch[k]];
      ScanShape(a, v, ch, k + 1, vis0, vis[w := true], done, MarkVia(mk, w, ch[k]))
      && Counted(a, v, ch, k + 1, vis0, vis[w := true], done, MarkVia(mk, w, ch[k]), count, extra)
  {
    var w := a.to[ch[k]];
    var vis', mk' := vis[w := true], MarkVia(mk, w, ch[k]);
    assert ScanShape(a, v, ch, k + 1, vis0, vis', done, mk');
    if mk.mark[v] >= 0 {
      assert MarkedVia(a, vis, done, mk, v);
      var m := mk.mark[v];
      CompanionTail(a, m);
      PrefixGrow(ch, k, Companion(m));
      assert Companion(m) != ch[k] by {
        assert a.to[Companion(m)] == Marker(a, mk, v);
      }
    }
  }

  /** Marking through ch[k] keeps the extra arc: ch[k] is not it. */
  lemma ExtraMark(a: Arcs, v: int, ch: seq<int>, k: nat, vis0: seq<bool>,
                  vis: seq<bool>, done: seq<bool>, mk: Marks, extra: int)
    requires ScanShape(a, v, ch, k, vis0, vis, done, mk) && Extra(a, v, ch, k, vis0, vis, done, mk, extra)
    requires k < |ch| && !vis[a.to[ch[k]]] && vis[v]
    ensures var w := a.to[ch[k]];
      ScanShape(a, v, ch, k + 1, vis0, vis[w := true], done, MarkVia(mk, w, ch[k]))
      && Extra(a, v, ch, k + 1, vis0, vis[w := true], done, MarkVia(mk, w, ch[k]), extra)
  {
    var w := a.to[ch[k]];
    var vis', mk' := vis[w := true], MarkVia(mk, w, ch[k]);
    assert ScanShape(a, v, ch, k + 1, vis0, vis', done, mk');
    ChainFresh(a, v, k);
    PrefixGrow(ch, k, extra);
  }

  /** Marking through the arc ch[k] of v keeps the marks of the search. */
  lemma ScanMarkState(a: Arcs, v: int, ch: seq<int>, k: nat, vis0: seq<bool>,
                      vis: seq<bool>, done: seq<bool>, mk: Marks)
    requires ScanShape(a, v, ch, k, vis0, vis, done, mk) && Paired(a)
    requires MarkState(a, vis, done, mk, v) && ScanBase(a, v, ch, k, vis0, vis, done, mk)
    requires k < |ch| && !vis[a.to[ch[k]]]
    ensures MarkState(a, vis[a.to[ch[k]] := true], done, MarkVia(mk, a.to[ch[k]], ch[k]), v)
  {
    var e := ch[k];
    var w := a.to[e];
    var vis', mk' := vis[w := true], MarkVia(mk, w, e);
    assert e in Chain(a, v);
    RootDone(a, v, ch, k, vis0, vis, done, mk);
    TimedMark(a, vis, done, mk, v, e);
    CurrentMark(a, vis, done, mk, v, e);
    OutsideMark(a, vis, done, mk, w, e);
    assert Sized(a, vis', done, mk') && Agree(vis, mk, vis', mk');
    SettledKeep(a, vis, done, mk, vis', mk');
  }

  /** Scanning the arc ch[k] to the unmarked w: w is marked through it and joins the search. */
  lemma ScanMarkStep(a: Arcs, v: int, ch: seq<int>, k: nat, vis0: seq<bool>,
                     vis: seq<bool>, done: seq<bool>, mk: Marks, count: int, extra: int)
    requires ScanMarks(a, v, ch, k, vis0, vis, done, mk, count, extra) && Paired(a)
    requires k < |ch| && !vis[a.to[ch[k]]]
    ensures var w := a.to[ch[k]];
      ScanMarks(a, v, ch, k + 1, vis0, vis[w := true], done, MarkVia(mk, w, ch[k]), count, extra)
  {
    ScanMarkState(a, v, ch, k, vis0, vis, done, mk);
    ScanBaseMark(a, v, ch, k, vis0, vis, done, mk);
    ScanSortedMark(a, v, ch, k, vis0, vis, done, mk, extra);
    ScanMarkCount(a, v, ch, k, vis0, vis, done, mk, count, extra);
    if extra >= 0 {
      ExtraMark(a, v, ch, k, vis0, vis, done, mk, extra);
    }
  }

  /** Scanning the arc ch[k] to a marked vertex: it is counted, and recorded as extra unless paid for. */
  lemma ScanCountStep(a: Arcs, v: int, ch: seq<int>, k: nat, vis0: seq<bool>,
                      vis: seq<bool>, done: seq<bool>, mk: Marks, count: int, extra: int)
    requires ScanMarks(a, v, ch, k, vis0, vis, done, mk, count, extra) && Paired(a)
    requires k < |ch| && vis[a.to[ch[k]]]
    ensures var extra' := if extra < 0 && !(mk.mark[v] >= 0 && ch[k] == Companion(mk.mark[v])) then ch[k] else extra;
      ScanMarks(a, v, ch, k + 1, vis0, vis, done, mk, count + 1, extra')
  {
    var e := ch[k];
    var z := a.to[e];
    var extra' := if extra < 0 && !(mk.mark[v] >= 0 && e == Companion(mk.mark[v])) then e else extra;
    assert e in Chain(a, v);
    HeadInCur(a, vis, done, mk, v, e);
    ChainFresh(a, v, k);
    forall x | 0 <= x < |vis| && vis[x] && !vis0[x]
      ensures mk.mark[x] in ch[..k + 1]
    {
      PrefixGrow(ch, k, mk.mark[x]);
    }
    assert ScanBase(a, v, ch, k + 1, vis0, vis, done, mk);
    RootDone(a, v, ch, k, vis0, vis, done, mk);
    assert mk.mark[v] < 0 ==> Sorted(a, mk, v, e);
    assert ScanSorted(a, v, ch, k + 1, vis0, vis, done, mk, extra');
    if mk.mark[v] >= 0 {
      PrefixGrow(ch, k, Companion(mk.mark[v]));
    }
    if extra' == e && extra < 0 {
      NotYetMarking(a, v, ch, k, vis0, vis, done, mk);
      PrefixGrow(ch, k, e);
    } else if extra >= 0 {
      PrefixGrow(ch, k, extra);
    }
  }

  /** After the whole list with a count of at most 1, every arc of v is paid for. */
  lemma PopSorted(a: Arcs, v: int, vis0: seq<bool>, vis: seq<bool>, done: seq<bool>,
                  mk: Marks, count: int, extra: int, e: int)
    requires WellLinked(a) && 0 <= v < |a.firstEdge|
    requires ScanMarks(a, v, Chain(a, v), |Chain(a, v)|, vis0, vis, done, mk, count, extra) && Paired(a)
    requires count <= 1 && e in Chain(a, v) && 0 <= e < |a.to|
    ensures vis[a.to[e]] && Sorted(a, mk, v, e)
  {
    var ch := Chain(a, v);
    assert ch[..|ch|] == ch;
    if mk.mark[v] >= 0 {
      assert MarkedVia(a, vis, done, mk, v);
      CompanionTail(a, mk.mark[v]);
      assert Companion(mk.mark[v]) in ch;
    }
    var j :| 0 <= j < |ch| && ch[j] == e;
  }

  /** Marking v done after its scan keeps the times, the current search and the earlier ones. */
  lemma PopKeeps(a: Arcs, v: int, vis0: seq<bool>, vis: seq<bool>, done: seq<bool>, mk: Marks)
    requires WellLinked(a) && 0 <= v < |a.firstEdge|
    requires ScanShape(a, v, Chain(a, v), |Chain(a, v)|, vis0, vis, done, mk)
    requires MarkState(a, vis, done, mk, v) && ScanBase(a, v, Chain(a, v), |Chain(a, v)|, vis0, vis, done, mk)
    ensures Sized(a, vis, done[v := true], mk) && Timed(a, vis, done[v := true], mk, -1)
    ensures Current(a, vis, done[v := true], mk) && Outside(a, vis, done[v := true], mk)
  {
    var done' := done[v := true];
    RootDone(a, v, Chain(a, v), |Chain(a, v)|, vis0, vis, done, mk);
    assert Sized(a, vis, done', mk);
    assert Timed(a, vis, done', mk, -1);
  }

  /** After the whole list with a count of at most 1, v is done and the marks hold between scans. */
  lemma PopMarks(a: Arcs, v: int, vis0: seq<bool>, vis: seq<bool>, done: seq<bool>,
                 mk: Marks, count: int, extra: int)
    requires WellLinked(a) && 0 <= v < |a.firstEdge|
    requires ScanMarks(a, v, Chain(a, v), |Chain(a, v)|, vis0, vis, done, mk, count, extra) && Paired(a)
    requires count <= 1
    ensures MarkState(a, vis, done[v := true], mk, -1)
  {
    PopKeeps(a, v, vis0, vis, done, mk);
    forall e | e in Chain(a, v) && 0 <= e < |a.to|
      ensures vis[a.to[e]] && Sorted(a, mk, v, e)
    {
      PopSorted(a, v, vis0, vis, done, mk, count, extra, e);
    }
    SettledPop(a, v, vis, done, mk);
  }

  /** Once every arc of v is paid for, v may join the done vertices. */
  lemma SettledPop(a: Arcs, v: int, vis: seq<bool>, done: seq<bool>, mk: Marks)
    requires Sized(a, vis, done, mk) && 0 <= v < |vis| && Settled(a, vis, done, mk)
    requires forall e :: e in Chain(a, v) && 0 <= e < |a.to| ==> vis[a.to[e]] && Sorted(a, mk, v, e)
    ensures Sized(a, vis, done[v := true], mk) && Settled(a, vis, done[v := true], mk)
  {
  }

  /** The pair of the arc e has both ends in C when the head and the tail of e are in C. */
  lemma PairInside(a: Arcs, C: set<int>, e: nat)
    requires WellLinked(a) && e < |a.to| && a.to[e] in C && TailOf(a, e) in C
    ensures e / 2 in PairsWithin(a, C)
  {
    PairOf(a, e);
  }

  /** The edge a member y of a failed search is charged to: the extra arc's pair for the start, its marking pair otherwise. */
  function Charge(mk: Marks, root: int, extra: int, y: int): int {
    if y == root then extra / 2 else if 0 <= y < |mk.mark| then mk.mark[y] / 2 else 0
  }

  /**
   * The facts about a failed search C with start root that the count
   * needs: each other member has its marking arc inside C, from a member
   * marked earlier, and the extra arc is inside C and is no member's
   * marking arc nor the companion of one.
   */
  ghost predicate Failing(a: Arcs, mk: Marks, C: set<int>, root: int, extra: int) {
    && WellLinked(a) && |mk.mark| == |a.firstEdge| && |mk.time| == |a.firstEdge|
    && root in C && Among(|a.firstEdge|, C)
    && (forall y :: y in C && y != root ==>
          0 <= mk.mark[y] < |a.to| && a.to[mk.mark[y]] == y && Marker(a, mk, y) in C
          && mk.time[Marker(a, mk, y)] < mk.time[y])
    && 0 <= extra < |a.to| && a.to[extra] in C && TailOf(a, extra) in C
    && (forall y :: y in C ==> mk.mark[y] != extra)
    && (forall y :: y in C && y != root ==> mk.mark[y] != Companion(extra))
  }

  /** Every member of a failed search is charged to an edge inside it. */
  lemma ChargeInside(a: Arcs, mk: Marks, C: set<int>, root: int, extra: int, y: int)
    requires Failing(a, mk, C, root, extra) && y in C
    ensures Charge(mk, root, extra, y) in PairsWithin(a, C)
  {
    if y == root {
      PairInside(a, C, extra);
    } else {
      PairInside(a, C, mk.mark[y]);
    }
  }

  /** Distinct members of a failed search are charged to distinct edges. */
  lemma ChargeApart(a: Arcs, mk: Marks, C: set<int>, root: int, extra: int, y1: int, y2: int)
    requires Failing(a, mk, C, root, extra) && y1 in C && y2 in C && y1 != y2
    ensures Charge(mk, root, extra, y1) != Charge(mk, root, extra, y2)
  {
    if y1 != root && y2 != root {
      var e1, e2 := mk.mark[y1], mk.mark[y2];
      CompanionTail(a, e1);
      CompanionTail(a, e2);
      PairDiffer(e1, e2);
    } else {
      var y := if y1 == root then y2 else y1;
      CompanionTail(a, extra);
      PairDiffer(extra, mk.mark[y]);
    }
  }

  lemma ChargesInside(a: Arcs, mk: Marks, C: set<int>, root: int, extra: int)
    requires Failing(a, mk, C, root, extra)
    ensures forall y :: y in C ==> Charge(mk, root, extra, y) in PairsWithin(a, C)
  {
    forall y | y in C
      ensures Charge(mk, root, extra, y) in PairsWithin(a, C)
    {
      ChargeInside(a, mk, C, root, extra, y);
    }
  }

  lemma ChargesApart(a: Arcs, mk: Marks, C: set<int>, root: int, extra: int)
    requires Failing(a, mk, C, root, extra)
    ensures forall y1, y2 :: y1 in C && y2 in C && Charge(mk, root, extra, y1) == Charge(mk, root, extra, y2) ==> y1 == y2
  {
    forall y1, y2 | y1 in C && y2 in C && y1 != y2
      ensures Charge(mk, root, extra, y1) != Charge(mk, root, extra, y2)
    {
      ChargeApart(a, mk, C, root, extra, y1, y2);
    }
  }

  /** A failed search C spans at least |C| pairs: the charges map C one-to-one into its pairs. */
  lemma DenseCore(a: Arcs, mk: Marks, C: set<int>, root: int, extra: int)
    requires WellLinked(a)
    requires forall y :: y in C ==> Charge(mk, root, extra, y) in PairsWithin(a, C)
    requires forall y1, y2 :: y1 in C && y2 in C && Charge(mk, root, extra, y1) == Charge(mk, root, extra, y2) ==> y1 == y2
    ensures |C| <= |PairsWithin(a, C)|
  {
    InjectionBound(C, PairsWithin(a, C), y => Charge(mk, root, extra, y));
  }

  /** A failed search is dense. */
  lemma FailingDense(a: Arcs, mk: Marks, C: set<int>, root: int, extra: int)
    requires Failing(a, mk, C, root, extra)
    ensures Dense(a, C)
  {
    ChargesInside(a, mk, C, root, extra);
    ChargesApart(a, mk, C, root, extra);
    DenseCore(a, mk, C, root, extra);
  }

  /** A count of two or more: the current search spans at least as many edges as it has vertices. */
  lemma DenseAt(a: Arcs, v: int, vis0: seq<bool>, vis: seq<bool>, done: seq<bool>,
                mk: Marks, count: int, extra: int)
    requires WellLinked(a) && 0 <= v < |a.firstEdge|
    requires ScanMarks(a, v, Chain(a, v), |Chain(a, v)|, vis0, vis, done, mk, count, extra) && Paired(a)
    requires count >= 2
    ensures Dense(a, mk.cur)
  {
    var ch := Chain(a, v);
    assert extra >= 0;
    PrefixIn(ch, |ch|, extra);
    assert TailOf(a, extra) == v;
    forall y | y in mk.cur && y != mk.root
      ensures 0 <= mk.mark[y] < |a.to| && a.to[mk.mark[y]] == y && Marker(a, mk, y) in mk.cur
      ensures mk.time[Marker(a, mk, y)] < mk.time[y]
    {
      assert MarkedVia(a, vis, done, mk, y);
    }
    CompanionTail(a, extra);
    assert Failing(a, mk, mk.cur, mk.root, extra);
    FailingDense(a, mk, mk.cur, mk.root, extra);
  }

  /** A new search at the unmarked i keeps the times and marking arcs. */
  lemma StartTimed(a: Arcs, vis: seq<bool>, done: seq<bool>, mk: Marks, i: int)
    requires Between(a, vis, done, mk) && 0 <= i < |vis| && !vis[i]
    ensures Sized(a, vis[i := true], done, StartAt(mk, i))
    ensures Timed(a, vis[i := true], done, StartAt(mk, i), -1)
  {
    var vis', mk' := vis[i := true], StartAt(mk, i);
    assert Sized(a, vis', done, mk');
    assert Agree(vis, mk, vis', mk');
    forall x | 0 <= x < |vis'| && vis'[x] && mk'.mark[x] >= 0
      ensures MarkedVia(a, vis', done, mk', x) && done[Marker(a, mk', x)]
    {
      MarkedKeep(a, vis, done, mk, vis', done, mk', x);
    }
  }

  /** A new search at the unmarked i: i is its start and its only member. */
  lemma StartMarks(a: Arcs, vis: seq<bool>, done: seq<bool>, mk: Marks, i: int)
    requires Between(a, vis, done, mk) && 0 <= i < |vis| && !vis[i]
    ensures MarkState(a, vis[i := true], done, StartAt(mk, i), -1)
  {
    var vis', mk' := vis[i := true], StartAt(mk, i);
    StartTimed(a, vis, done, mk, i);
    assert Current(a, vis', done, mk');
    forall x | 0 <= x < |vis'| && vis'[x] && x !in mk'.cur
      ensures done[x] && forall f :: f in Chain(a, x) && 0 <= f < |a.to| ==> a.to[f] !in mk'.cur
    {
      forall f | f in Chain(a, x) && 0 <= f < |a.to|
        ensures a.to[f] != i
      {
        assert vis[a.to[f]];
      }
    }
    assert Agree(vis, mk, vis', mk');
    SettledKeep(a, vis, done, mk, vis', mk');
  }

  /** A finished search: back between searches. */
  lemma EndMarks(a: Arcs, vis: seq<bool>, done: seq<bool>, mk: Marks)
    requires MarkState(a, vis, done, mk, -1)
    requires forall x :: 0 <= x < |vis| && vis[x] ==> done[x]
    ensures Between(a, vis, done, mk)
  {
  }

  /** With every vertex done and no loops, every pair has an arc that marked its head. */
  lemma PairMarked(a: Arcs, vis: seq<bool>, done: seq<bool>, mk: Marks, q: int)
    requires Between(a, vis, done, mk) && Paired(a) && NoLoops(a)
    requires forall x :: 0 <= x < |vis| ==> vis[x]
    requires 0 <= q < |a.to| / 2
    ensures 2 * q + 1 < |a.to|
    ensures mk.mark[a.to[2 * q]] == 2 * q || mk.mark[a.to[2 * q + 1]] == 2 * q + 1
  {
    var e, c := 2 * q, 2 * q + 1;
    Half(q);
    CompanionTail(a, e);
    assert Companion(e) == c;
    var x, y := a.to[c], a.to[e];
    assert TailOf(a, e) == x && TailOf(a, c) == y;
    assert e in Chain(a, x) && c in Chain(a, y);
    assert Sorted(a, mk, x, e) && Sorted(a, mk, y, c);
  }

  /** The end of the pair q that was marked through it, when the arc 2q did not mark its head. */
  function Deep(a: Arcs, mk: Marks, q: int): int
    requires WellLinked(a) && |mk.mark| == |a.firstEdge| && 0 <= q && 2 * q + 1 < |a.to|
  {
    if mk.mark[a.to[2 * q]] == 2 * q then a.to[2 * q] else a.to[2 * q + 1]
  }

  /** The deep end of the pair q was marked through it by its other end, earlier. */
  lemma DeepMarked(a: Arcs, vis: seq<bool>, done: seq<bool>, mk: Marks, q: int)
    requires Between(a, vis, done, mk) && Paired(a) && NoLoops(a)
    requires forall x :: 0 <= x < |vis| ==> vis[x]
    requires 0 <= q < |a.to| / 2
    ensures 2 * q + 1 < |a.to|
    ensures var y := Deep(a, mk, q);
      && 0 <= y < |vis| && 0 <= mk.mark[y] < |a.to| && mk.mark[y] / 2 == q
      && MarkedVia(a, vis, done, mk, y)
      && ((y == a.to[2 * q] && Marker(a, mk, y) == a.to[2 * q + 1])
          || (y == a.to[2 * q + 1] && Marker(a, mk, y) == a.to[2 * q]))
  {
    PairMarked(a, vis, done, mk, q);
    Half(q);
    var d := if mk.mark[a.to[2 * q]] == 2 * q then 2 * q else 2 * q + 1;
    CompanionTail(a, d);
    PairOf(a, d);
    assert MarkedVia(a, vis, done, mk, a.to[d]);
  }

  /** A pair within S is charged to a member of S that is not its earliest-marked member m. */
  lemma DeepInside(a: Arcs, vis: seq<bool>, done: seq<bool>, mk: Marks, S: set<int>, m: int, q: int)
    requires Between(a, vis, done, mk) && Paired(a) && NoLoops(a)
    requires forall x :: 0 <= x < |vis| ==> vis[x]
    requires m in S && Among(|vis|, S) && forall x :: x in S ==> mk.time[m] <= mk.time[x]
    requires q in PairsWithin(a, S)
    ensures 2 * q + 1 < |a.to| && Deep(a, mk, q) in S - {m}
  {
    DeepMarked(a, vis, done, mk, q);
  }

  /**
   * With every vertex done: a nonempty set S spans fewer pairs than it has
   * vertices, since each pair within S is charged to its marked end, and
   * the earliest-marked member of S is charged nothing.
   */
  lemma ForestMarks(a: Arcs, vis: seq<bool>, done: seq<bool>, mk: Marks, S: set<int>)
    requires Between(a, vis, done, mk) && Paired(a) && NoLoops(a)
    requires forall x :: 0 <= x < |vis| ==> vis[x]
    requires S != {} && Among(|vis|, S)
    ensures |PairsWithin(a, S)| < |S|
  {
    var m := MinBy(S, mk.time);
    var P := PairsWithin(a, S);
    var f := q => if 0 <= q && 2 * q + 1 < |a.to| then Deep(a, mk, q) else 0;
    forall q | q in P
      ensures f(q) in S - {m}
    {
      DeepInside(a, vis, done, mk, S, m, q);
    }
    forall q1, q2 | q1 in P && q2 in P && f(q1) == f(q2)
      ensures q1 == q2
    {
      DeepMarked(a, vis, done, mk, q1);
      DeepMarked(a, vis, done, mk, q2);
    }
    InjectionBound(P, S - {m}, f);
  }
}
