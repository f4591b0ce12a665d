# Three jgrapht graph algorithms in Dafny

This project models three array-based graph algorithms of jgrapht and proves properties of them.

- **`DinicMaximumFlow`** computes a maximum flow with Dinic's algorithm. It renumbers the vertices 0..n-1 and stores the network as paired arcs: arc 2k follows input edge k and arc 2k+1 runs against it. The arcs of a vertex are linked through `firstEdge`/`next`/`to`. Each phase has two parts:
  - a BFS layering, `partitionGraph`;
  - a blocking-flow DFS, `findDeltaFlow`, with a per-vertex current-arc cursor.

  The model keeps DinicMaximumFlow's capacity on the reverse arc: it gets `c`, not 0. The residual network is therefore undirected, and the value computed is the undirected maximum flow (see `DinicProperties.ThreeEdgesRun`).
- **`HeavyLightDecomposition`** answers distance queries on a tree. It builds the same paired-arc lists and rejects graphs that fail `isTree`. It then runs two passes from vertex 0:
  - `DFS` fills depth, parent, subtree size and the heavy-child marks;
  - `computeChainHeads` fills the chain heads.

  `lca` and `distance` then walk chain heads.
- **`HopcroftKarpSimple`** computes a maximum bipartite matching. It numbers the vertices 1..n, and ID 0 is the `NULL` sentinel. Each vertex keeps a neighbour list plus the input edge behind each entry. Each phase does two things:
  - an alternating BFS, `partitionGraph`, assigns layers;
  - a layered DFS, `matchVertex`, is run from every free left vertex and rematches `match[]` on success.

  `getMatching` and `getSize` read the result.

The models take several shortcuts:
- Integer vertex IDs stand in for Java vertex objects, and a sequence of endpoint pairs stands in for the edge set.
- Capacities and flows are Dafny `real`s.
- Every mutable array becomes a sequence that methods take and return.
- Exceptions become `Result`/`Option` values.

The modules are:
- `Wrappers`: `Option` and `Result`.
- `Adjacency`: the paired-arc lists that Dinic and HLD share.
- `DinicNetwork`, `DinicLayering`, `DinicBlocking`, `DinicSolver` and `DinicProperties`.
- `HldDfs`, `HldChains`, `HldForest`, `HldMarks`, `HldIsTree`, `HldTree`, `HldBuild` and `HldProperties`. `HldForest` defines forests by counting, and `HldMarks` holds the marking order behind the proof that `isTree` accepts exactly the forests.
- `HkGraph`, `HkLayers`, `HkAugment`, `HkMatching` and `HkResult`.

## Model

| member | source | states |
|---|---|---|
| Adjacency.Companion | jgrapht-core/src/main/java/org/jgrapht/alg/DinicMaximumFlow.java:148-151 | `getBackwardEdge(e) = e ^ 1`: the companion lies in the same arc pair (same `e / 2`) and has the other parity. |
| Adjacency.CompanionBelow | jgrapht-core/src/main/java/org/jgrapht/alg/DinicMaximumFlow.java:148-151 | With an even number of arcs, the companion of an arc is an arc, and taking the companion twice gives the arc back. |
| Adjacency.Add | jgrapht-core/src/main/java/org/jgrapht/alg/DinicMaximumFlow.java:127-142 | `add(u, v)` appends two arcs, the first to v and the second to u. Earlier arcs and their links are unchanged, and the lists stay acyclic. |
| Adjacency.AddChains | jgrapht-core/src/main/java/org/jgrapht/alg/DinicMaximumFlow.java:127-142 | After `add(u, v)`, u's list has the new arc 2k in front and v's list has 2k+1 in front. For a self-loop both are in front, 2k+1 first. Every other list is unchanged. |
| Adjacency.ChainFrom | jgrapht-core/src/main/java/org/jgrapht/alg/DinicMaximumFlow.java:131-132 | A list walked from arc e starts with e and visits arcs below e in strictly decreasing order, so it is finite and ends at -1. |
| Adjacency.Build | jgrapht-core/src/main/java/org/jgrapht/alg/DinicMaximumFlow.java:97-121 | The construction loop gives one list head per vertex and 2·|E| arcs. Arc e leads to its head, and its companion leads to its tail. |
| Adjacency.BuildChains | jgrapht-core/src/main/java/org/jgrapht/alg/DinicMaximumFlow.java:97-121 | After construction, arc e is on v's list exactly when e is one of the 2·|E| arcs and v is its tail. So every arc is on exactly one list. |
| Adjacency.BuildTails | jgrapht-core/src/main/java/org/jgrapht/alg/DinicMaximumFlow.java:127-142 | Every arc on v's list has a companion that leads back to v. |
| DinicNetwork.NewNetwork | jgrapht-core/src/main/java/org/jgrapht/alg/DinicMaximumFlow.java:78-121 | The network built from a graph is well linked and has 2·|E| arcs. Arcs 2k and 2k+1 lead to edge k's target and source, and both carry edge k's weight as capacity. Every flow is 0. |
| DinicNetwork.PairCapacities | jgrapht-core/src/main/java/org/jgrapht/alg/DinicMaximumFlow.java:136-137 | Companion arcs have equal capacity, because the reverse arc also gets capacity `c`. |
| DinicNetwork.NewNetworkListed | jgrapht-core/src/main/java/org/jgrapht/alg/DinicMaximumFlow.java:97-121 | Every arc of the built network lies on its tail's list. |
| DinicNetwork.ZeroFlowOk | jgrapht-core/src/main/java/org/jgrapht/alg/DinicMaximumFlow.java:127-142 | The all-zero flow respects every capacity and is antisymmetric on companion arcs. |
| DinicNetwork.OutSumUpdate | jgrapht-core/src/main/java/org/jgrapht/alg/DinicMaximumFlow.java:370-371 | Adding d to one arc's flow changes the net out-flow of that arc's tail by d and leaves every other vertex's unchanged. |
| DinicLayering.PartitionGraph | jgrapht-core/src/main/java/org/jgrapht/alg/DinicMaximumFlow.java:330-353 | `dist[source] = 0` and other entries are -1 or more. Every other labelled vertex got `dist[u] + 1` through a residual arc from a labelled vertex u that is not the sink. Every residual arc leaving a labelled non-sink vertex reaches a labelled vertex at most one layer deeper. |
| DinicBlocking.FindDeltaFlow | jgrapht-core/src/main/java/org/jgrapht/alg/DinicMaximumFlow.java:358-377 | Returns `0 <= delta <= minFlowOnPath`, and exactly `minFlowOnPath` at the sink. For `delta = 0` the flow is unchanged. Otherwise the capacity bounds and antisymmetry still hold, the net out-flow rises by delta at v and falls by delta at the sink and nowhere else, and arcs leaving shallower vertices are untouched. Every cursor stays on its list or at -1 and only moves forward. |
| DinicBlocking.CursorStep | jgrapht-core/src/main/java/org/jgrapht/alg/DinicMaximumFlow.java:364 | Stepping v's cursor from e to `next[e]` keeps it on v's list and no earlier than where it stood when the search entered v. |
| DinicBlocking.PushStep | jgrapht-core/src/main/java/org/jgrapht/alg/DinicMaximumFlow.java:366-372 | Pushing d along a layered residual arc e from v keeps the flow invariant and extends the child's push from `to[e]` into a push from v. |
| DinicSolver.Calculate | jgrapht-core/src/main/java/org/jgrapht/alg/DinicMaximumFlow.java:236-257 | The phase loop returns a value of at least 0. The flow keeps the invariant, and its net out-flow differs from the starting flow by exactly the value at source and sink and nowhere else. When the loop stops because the sink is unreachable, a layering leaving the sink at -1 exists. |
| DinicSolver.SendsTrans | jgrapht-core/src/main/java/org/jgrapht/alg/DinicMaximumFlow.java:252-256 | Two successive sends from source to sink of a and b amount to one send of a + b, which is why `maximumFlow += deltaFlow` tracks the flow. |
| DinicSolver.Construct | jgrapht-core/src/main/java/org/jgrapht/alg/DinicMaximumFlow.java:194-214 | The checks run in order: a null graph, then `epsilon <= 0`, then some weight `< -epsilon`. Construction fails exactly when one of them applies, with that exception. Otherwise the network is built from the graph with zero flow and no result yet. |
| DinicSolver.ConstructDefault | jgrapht-core/src/main/java/org/jgrapht/alg/DinicMaximumFlow.java:189-192 | The one-argument constructor is the two-argument one with `DEFAULT_EPSILON`. It succeeds exactly when no weight is below -`DEFAULT_EPSILON`. |
| DinicSolver.CalculateMaximumFlow | jgrapht-core/src/main/java/org/jgrapht/alg/DinicMaximumFlow.java:219-258 | Fails with no change on an invalid source, then an invalid sink, then source = sink, and succeeds exactly otherwise. A success records the two vertices and a value of at least 0, and that value is what the new arc flows send beyond the flows left by earlier calls. |
| DinicSolver.GetMaximumFlowValue | jgrapht-core/src/main/java/org/jgrapht/alg/DinicMaximumFlow.java:267-270 | null exactly while no calculation has happened (current source still -1). |
| DinicSolver.GetCurrentSource | jgrapht-core/src/main/java/org/jgrapht/alg/DinicMaximumFlow.java:301-307 | null exactly before the first calculation; afterwards the recorded source, a vertex of the graph. |
| DinicSolver.GetCurrentSink | jgrapht-core/src/main/java/org/jgrapht/alg/DinicMaximumFlow.java:315-321 | null exactly before the first calculation; afterwards the recorded sink, a vertex of the graph. |
| DinicSolver.GetMaximumFlow | jgrapht-core/src/main/java/org/jgrapht/alg/DinicMaximumFlow.java:279-293 | null exactly before the first calculation. Afterwards there is one value per input edge, the flow of its forward arc 2k, and it lies between -max(w, 0) and max(w, 0). |
| DinicSolver.ForwardFlowBounds | jgrapht-core/src/main/java/org/jgrapht/alg/DinicMaximumFlow.java:136-137 | Because the reverse arc also has capacity w, the flow on a forward arc is bounded by max(w, 0) from above and by -max(w, 0) from below. It is not bounded by 0. |
| DinicProperties.SaturatedCut | jgrapht-core/src/main/java/org/jgrapht/alg/DinicMaximumFlow.java:241-243 | When the final layering leaves the sink at -1, every arc from a labelled vertex to an unlabelled one is saturated. |
| DinicProperties.ReportedBalance | jgrapht-core/src/test/java/org/jgrapht/alg/DinicMaximumFlowTest.java:195-218 | The balance the test computes from the reported edge flows (in minus out) is minus the net out-flow of the vertex's arcs. |
| DinicProperties.FirstRunBalance | jgrapht-core/src/test/java/org/jgrapht/alg/DinicMaximumFlowTest.java:195-218 | After a calculation from zero flow, that balance is -value at the source, value at the sink and 0 elsewhere, as the test asserts. |
| DinicProperties.ThreeEdgesCut | jgrapht-core/src/main/java/org/jgrapht/alg/DinicMaximumFlow.java:136-137 | For edges s→b, a→b, a→t, any invariant-respecting flow that balances at a and b and leaves the sink unreachable sends exactly 1 and puts -1 on a→b. |
| DinicProperties.NoEdgesRun | jgrapht-core/src/test/java/org/jgrapht/alg/DinicMaximumFlowTest.java:109-115 | On a network with no edges, a completed calculation between two distinct vertices reports 0.0, as the test expects. |
| DinicProperties.FiveEdgesCut | jgrapht-core/src/test/java/org/jgrapht/alg/DinicMaximumFlowTest.java:130-138 | On the test's five-edge network 1→2, 1→3, 2→4, 3→4 (capacity 10^9) and 2→3 (capacity 1), a balanced flow that leaves vertex 4 unreachable from vertex 1 has value 2·10^9. |
| DinicProperties.FiveEdgesRun | jgrapht-core/src/test/java/org/jgrapht/alg/DinicMaximumFlowTest.java:130-138 | A completed first run on that network reports 2000000000.0, as the test expects. |
| DinicProperties.ThreeEdgesRun | jgrapht-core/src/main/java/org/jgrapht/alg/DinicMaximumFlow.java:136-137 | A completed first run on s→b, a→b, a→t reports 1.0 with flow -1 on a→b. That is the undirected maximum flow, while the directed maximum flow is 0. |
| HldIsTree.IsTree | jgrapht-core/src/main/java/org/jgrapht/alg/HeavyLightDecomposition.java:174-209 | The check passes exactly when the graph is a forest: every nonempty set S of vertices spans fewer than \|S\| edges, so there is no cycle, no pair of parallel edges and no self-loop. A graph that passes has at most n - 1 edges when n > 0. |
| HldIsTree.PassedForest | jgrapht-core/src/main/java/org/jgrapht/alg/HeavyLightDecomposition.java:176-208 | When every vertex has been searched and no pop counted more than one marked neighbour, every nonempty vertex set spans fewer edges than it has vertices. |
| HldMarks.ForestMarks | jgrapht-core/src/main/java/org/jgrapht/alg/HeavyLightDecomposition.java:186-205 | Every arc scanned by a finished search is the marking arc of its head, the return arc of its tail's marking arc, or an arc to a vertex the tail marked. So each edge inside a vertex set S can be charged to its deeper end, the earliest-marked member of S is never charged, and S spans fewer than \|S\| edges. |
| HldMarks.DenseAt | jgrapht-core/src/main/java/org/jgrapht/alg/HeavyLightDecomposition.java:190-203 | A pop that counts more than one marked neighbour leaves a current search C that spans at least \|C\| edges: the marking edges of its members plus one edge that is none of them. So the `return false` happens only on a graph that is not a forest. |
| HldMarks.PopMarks | jgrapht-core/src/main/java/org/jgrapht/alg/HeavyLightDecomposition.java:186-201 | A pop that counts at most one marked neighbour leaves every arc of the popped vertex accounted for by the marking order. |
| HldMarks.ScanMarkStep | jgrapht-core/src/main/java/org/jgrapht/alg/HeavyLightDecomposition.java:193-195 | Marking and pushing an unmarked neighbour records the arc as that neighbour's marking arc, at the next time stamp, inside the current search. |
| HldMarks.ScanCountStep | jgrapht-core/src/main/java/org/jgrapht/alg/HeavyLightDecomposition.java:196-198 | Counting an arc to a marked vertex keeps the count honest: the return arc of the vertex's own marking arc adds 1, and the first other counted arc is recorded as an extra arc into the current search that is no vertex's marking arc. So a count above 1 always comes with an extra arc. |
| HldForest.BuiltWithin | jgrapht-core/src/main/java/org/jgrapht/alg/HeavyLightDecomposition.java:119-138 | The arc pairs built from the edges whose two arcs both enter S are exactly the input edges with both ends in S. |
| HldIsTree.Explore | jgrapht-core/src/main/java/org/jgrapht/alg/HeavyLightDecomposition.java:186-205 | The stack loop either reports a cycle or empties the stack. It keeps the search invariant (each scanned arc either marked a vertex or was counted at its popped vertex) and marks only more vertices. |
| HldIsTree.ScanVertex | jgrapht-core/src/main/java/org/jgrapht/alg/HeavyLightDecomposition.java:190-199 | Scanning a popped vertex marks and pushes each unmarked neighbour once and counts every other arc, including every arc back to the vertex itself. |
| HldDfs.Dfs | jgrapht-core/src/main/java/org/jgrapht/alg/HeavyLightDecomposition.java:214-241 | `DFS(v, d)` marks v at depth d as its own chain head. Each newly visited vertex is a child one level below a new parent, joined by an arc. `numNodes` is 1 plus the children's sizes. A new child is heavy iff 2·numNodes[c] ≥ numNodes[parent]. All neighbours of new vertices are visited, and nothing else changes. |
| HldDfs.VisitChildren | jgrapht-core/src/main/java/org/jgrapht/alg/HeavyLightDecomposition.java:221-229 | After the first arc loop every arc of v leads to a visited vertex, the subtree sizes are summed, and v's own children are not yet marked heavy. |
| HldDfs.MarkHeavy | jgrapht-core/src/main/java/org/jgrapht/alg/HeavyLightDecomposition.java:231-240 | The second arc loop marks exactly the children c of v with 2·numNodes[c] ≥ numNodes[v]. |
| HldChains.ChainHeads | jgrapht-core/src/main/java/org/jgrapht/alg/HeavyLightDecomposition.java:248-262 | `computeChainHeads(v)` makes every vertex of v's subtree follow the head rule: a heavy vertex gets its parent's head and any other vertex heads its own chain. Heads outside the subtree are unchanged. |
| HldTree.LcaCorrect | jgrapht-core/src/main/java/org/jgrapht/alg/HeavyLightDecomposition.java:267-282 | On a rooted tree whose heads follow the head rule and which has at most one heavy child per vertex, the chain walk terminates and returns the lowest common ancestor. |
| HldTree.DistanceFacts | jgrapht-core/src/main/java/org/jgrapht/alg/HeavyLightDecomposition.java:163-168 | Under the same conditions, `distance(x, y)` is the number of tree edges from x up to the lowest common ancestor and down to y. It is symmetric, non-negative, zero exactly when x = y, and `depth[y]` from the root. |
| HldBuild.Prepare | jgrapht-core/src/main/java/org/jgrapht/alg/HeavyLightDecomposition.java:145-155 | After `DFS(0, 0); parent[0] = -1`, the visited vertices form a tree rooted at 0 inside the graph. Subtree sizes and heavy marks are as the DFS defines them, and unvisited vertices keep their zeros. |
| HldBuild.Construct | jgrapht-core/src/main/java/org/jgrapht/alg/HeavyLightDecomposition.java:89-158 | The constructor without line 156. It succeeds exactly when the graph has a vertex and is a forest, and on a connected graph exactly when it has n - 1 edges. It fails on an empty graph, on any self-loop and on n ≤ \|E\|. On success the arrays are as Prepare leaves them and every visited vertex follows the head rule. |
| HldBuild.ConnectedForest | jgrapht-core/src/main/java/org/jgrapht/alg/HeavyLightDecomposition.java:174-209 | A connected graph with a vertex is a forest, the graphs `isTree` accepts, exactly when it has n - 1 edges. |
| HldBuild.LeavingBound | jgrapht-core/src/main/java/org/jgrapht/alg/HeavyLightDecomposition.java:174-209 | In a connected graph at least n - \|T\| edges have an end outside a nonempty vertex set T, because every vertex can be reached from T. |
| HldBuild.ConstructAsWritten | jgrapht-core/src/main/java/org/jgrapht/alg/HeavyLightDecomposition.java:89-158 | The constructor as written. It succeeds exactly when the graph has at least two vertices and is a forest, and on a connected graph exactly when it also has n - 1 edges. A one-vertex graph fails with index 1 out of bounds. On success vertex 1 is heavy whatever its size. |
| HldBuild.ForceKeepsShape | jgrapht-core/src/main/java/org/jgrapht/alg/HeavyLightDecomposition.java:156 | Forcing vertex 1 heavy changes no depth, parent or subtree size. |
| HldBuild.HeadsDecomposed | jgrapht-core/src/main/java/org/jgrapht/alg/HeavyLightDecomposition.java:157 | `computeChainHeads(0)` covers every visited vertex, because all visited vertices lie in the root's subtree. |
| HldProperties.DecomposedWalkable | jgrapht-core/src/main/java/org/jgrapht/alg/HeavyLightDecomposition.java:267-282 | On every built object, as written or not and connected or not, each chain head is a visited non-heavy ancestor at most as deep. So `lca` is always defined. |
| HldProperties.ConnectedVisited | jgrapht-core/src/main/java/org/jgrapht/alg/HeavyLightDecomposition.java:214-229 | On a connected graph the DFS from vertex 0 visits every vertex. |
| HldProperties.StateUniqueHeavy | jgrapht-core/src/main/java/org/jgrapht/alg/HeavyLightDecomposition.java:231-240 | No vertex has two heavy children, since two halves would leave no room for the parent. With the forced vertex 1 this holds only if no sibling of 1 is heavy. |
| HldProperties.DecomposedTree | jgrapht-core/src/main/java/org/jgrapht/alg/HeavyLightDecomposition.java:145-157 | With every vertex visited, parent and depth form a tree rooted at 0 whose heads follow the head rule, with at most one heavy child per vertex. |
| HldProperties.DistanceCorrect | jgrapht-core/src/main/java/org/jgrapht/alg/HeavyLightDecomposition.java:163-168 | On a connected graph, `lca` is the lowest common ancestor in the DFS tree and `distance` the number of tree edges between the two vertices. This holds without line 156, and with it when vertex 1 has no heavy sibling. |
| HldProperties.SampleHeads | jgrapht-core/src/main/java/org/jgrapht/alg/HeavyLightDecomposition.java:248-262 | On the tree 0-1, 0-2, 2-3, vertex 2 is heavy. Vertex 1 is heavy exactly when forced, and its chain head is then 0 instead of 1. |
| HldProperties.AsWrittenSampleDistance | jgrapht-core/src/main/java/org/jgrapht/alg/HeavyLightDecomposition.java:156 | As written, 1 and 2 are both heavy children of 0 on that tree, so `lca(1, 2) = 2` and `distance(1, 2) = 0`. |
| HldProperties.CorrectedSampleDistance | jgrapht-core/src/main/java/org/jgrapht/alg/HeavyLightDecomposition.java:163-168 | Without line 156, `lca(1, 2) = 0` and `distance(1, 2) = 2` on that tree. |
| HldProperties.SampleRun | jgrapht-core/src/main/java/org/jgrapht/alg/HeavyLightDecomposition.java:156-168 | Both constructors accept the tree 0-1, 0-2, 2-3. `distance(1, 2)` is 0 as written and 2 without line 156. |
| HkGraph.NewInner | jgrapht-core/src/main/java/org/jgrapht/alg/HopcroftKarpSimple.java:39-52 | `new GraphInner(n)` has n + 1 slots, all lists empty and in lockstep. `getNumVertices` is n + 1. |
| HkGraph.AddEdge | jgrapht-core/src/main/java/org/jgrapht/alg/HopcroftKarpSimple.java:54-64 | Throws `ArrayIndexOutOfBoundsException` unless `0 < from, to < n + 1`. Otherwise it appends `to` and the edge to from's two lists in lockstep and changes nothing else. |
| HkGraph.InnerFacts | jgrapht-core/src/main/java/org/jgrapht/alg/HopcroftKarpSimple.java:130-138 | After the edge loop, NULL has no list entries. Every entry is a vertex ID naming an input edge that joins its two ends, and every input edge is listed at both ends. |
| HkGraph.InnerShape | jgrapht-core/src/main/java/org/jgrapht/alg/HopcroftKarpSimple.java:130-138 | The built lists are symmetric. When every edge joins a left vertex to a non-left one, every list entry lies on the other side from its owner. |
| HkLayers.PartitionGraph | jgrapht-core/src/main/java/org/jgrapht/alg/HopcroftKarpSimple.java:209-244 | Returns true iff `layer[NULL]` is finite. Free left vertices get layer 0. Matched left vertices and NULL start at INF, and every layer that changes afterwards is one more than the layer of a queued vertex whose neighbour's partner it is. Every queued vertex other than NULL has been expanded: all its neighbours' partners have finite layers. |
| HkLayers.SeedQueue | jgrapht-core/src/main/java/org/jgrapht/alg/HopcroftKarpSimple.java:211-223 | The setup loop queues exactly the free left vertices at layer 0. It sets matched left vertices and NULL to INF and leaves other entries alone. |
| HkLayers.ExpandVertex | jgrapht-core/src/main/java/org/jgrapht/alg/HopcroftKarpSimple.java:232-240 | Expanding v gives every neighbour's partner still at INF the layer `layer[v] + 1` and queues it. Each vertex queued removes one INF, which bounds the search. |
| HkAugment.MatchVertex | jgrapht-core/src/main/java/org/jgrapht/alg/HopcroftKarpSimple.java:251-269 | `matchVertex(NULL)` is true and changes nothing. On failure `match` is unchanged and `layer[v] = INF`. On success v gets a new partner w whose old partner sat one layer deeper. The matching stays mutual except at v's old partner. Exactly v and one free non-left vertex become newly matched. Layers only turn INF, and only at v's layer or deeper. |
| HkAugment.AugmentDirect | jgrapht-core/src/main/java/org/jgrapht/alg/HopcroftKarpSimple.java:258-261 | Rematching v to a free neighbour w matches exactly v and w in addition, along an edge. |
| HkAugment.AugmentChain | jgrapht-core/src/main/java/org/jgrapht/alg/HopcroftKarpSimple.java:258-261 | Handing w to v after a successful search from w's old partner extends that search's augmentation by v. |
| HkMatching.Grow | jgrapht-core/src/main/java/org/jgrapht/alg/HopcroftKarpSimple.java:160-165 | A successful search from a free left vertex keeps a matching along graph edges and adds one matched left vertex (v) and one matched right vertex. |
| HkMatching.Phase | jgrapht-core/src/main/java/org/jgrapht/alg/HopcroftKarpSimple.java:160-165 | The loop over `partitionleft` keeps `match[]` a mutual matching along edges. It keeps `matching` equal to the number of matched left vertices and to the number of matched right vertices. `matching` never decreases, and `match[]` is unchanged if it stays equal. |
| HkMatching.CountedHalf | jgrapht-core/src/main/java/org/jgrapht/alg/HopcroftKarpSimple.java:195-198 | `getSize()` is half the number of vertices whose `match` is not NULL. |
| HkMatching.LeftBound | jgrapht-core/src/main/java/org/jgrapht/alg/HopcroftKarpSimple.java:195-198 | At most `partitionL.size()` left vertices are matched. |
| HkMatching.StuckNoPath | jgrapht-core/src/main/java/org/jgrapht/alg/HopcroftKarpSimple.java:153-157 | When `partitionGraph` returns false, no alternating walk joins a free left vertex to a free vertex, which is Berge's condition for a maximum matching. |
| HkMatching.MaxMatching | jgrapht-core/src/main/java/org/jgrapht/alg/HopcroftKarpSimple.java:146-167 | The method first clears `match[]` and sets `matching` to 0. It leaves a mutual matching along edges with `matching` matched left and right vertices, so `2·matching` matched vertices and `matching ≤ partitionL.size()`. A run that stops on `partitionGraph` returning false leaves no augmenting walk. |
| HkResult.GetMatching | jgrapht-core/src/main/java/org/jgrapht/alg/HopcroftKarpSimple.java:172-190 | Every edge returned joins two vertices matched to each other, and no two returned edges share a vertex. Every matched vertex is an end of a returned edge. For each pair the edge returned is the one behind the first entry of the smaller end's list that names the partner. Their number equals `getSize()`. |
| HkResult.EmitPairs | jgrapht-core/src/main/java/org/jgrapht/alg/HopcroftKarpSimple.java:175-187 | Every emitted edge joins a matched pair, and no two emitted edges have the same smaller end. For every vertex at or below its partner, the edge behind the first entry of its list naming the partner is emitted. The number emitted equals the number of such vertices. |
| HkResult.LowerHalf | jgrapht-core/src/main/java/org/jgrapht/alg/HopcroftKarpSimple.java:176-178 | The vertices at or below their partner are exactly half the matched vertices, since NULL partners are never at or above a vertex ID. |
| HkResult.FirstIndex | jgrapht-core/src/main/java/org/jgrapht/alg/HopcroftKarpSimple.java:180-186 | The inner loop stops below the list's length exactly when the partner is on the list. It then stops at a position naming the partner, with every earlier entry naming another vertex. |
| HkResult.GetSize | jgrapht-core/src/main/java/org/jgrapht/alg/HopcroftKarpSimple.java:195-198 | `getSize()` is half the number of matched vertices and lies between 0 and the number of left vertices. |
| HkResult.LeftInGraph | jgrapht-core/src/main/java/org/jgrapht/alg/HopcroftKarpSimple.java:120-128 | The left-partition loop succeeds exactly when every left vertex has an ID in 1..n. |
| HkResult.Built | jgrapht-core/src/main/java/org/jgrapht/alg/HopcroftKarpSimple.java:130-138 | For bipartite input, the constructed lists are well formed, symmetric, sided and sound with respect to the input edges. |
| HkResult.Run | jgrapht-core/src/main/java/org/jgrapht/alg/HopcroftKarpSimple.java:107-140 | With `match[]` and `layer[]` allocated as zeros, `maxMatching()` leaves a valid object. If its last phase found nothing, no augmenting walk remains. |
| HkResult.Construct | jgrapht-core/src/main/java/org/jgrapht/alg/HopcroftKarpSimple.java:99-141 | The constructor fails, with the null unboxing of a missing ID, exactly when some left vertex is not a vertex of the graph. Otherwise the lists are those of the edge loop and the object is valid. |

## Left out

- Vertex and edge objects, the `HashMap` ID conversions and `Set` iteration order: vertices are their IDs and edges come as a sequence in iteration order. `partitionL` is a sequence and may repeat an ID where a `Set` would not.
- Java `double` rounding: capacities and flows are exact `real`s. `INF = 1e12` and `DEFAULT_EPSILON` are `real` constants.
- `Collections.unmodifiableMap`/`unmodifiableSet`: the results are immutable values. `getMaximumFlow` returns a sequence indexed by edge, and `getMatching` returns the set of edge indices.
- DinicSolver.Calculate: the `while (true)` phase loop runs on a `fuel` budget, which counts each layering and each `findDeltaFlow` call. Its termination is not proved. When the fuel runs out, `complete` is false and only the flow facts hold, not the cut certificate.
- HkMatching.MaxMatching: the `while (true)` phase loop runs on a `fuel` budget. Progress from phase to phase is not proved, and `done` reports whether the loop stopped as HopcroftKarpSimple does.
- DinicSolver.Calculate: maximality of the value is not proved, and the directed maximum flow is not computed by this code at all (see `DinicProperties.ThreeEdgesRun`). What is proved is the residual cut certificate `SinkCut` on completion.
- HkMatching.StuckNoPath: states Berge's condition (no augmenting walk). The theorem that this makes the matching maximum is not proved.
- DinicSolver.GetMaximumFlow: the bounds are ±max(w, 0) and not the test's `flow ≥ -ε`. The reverse arc has capacity w, so a forward flow can go down to -w, and the test's lower bound holds only on its own instances.
- DinicProperties: the test's nine-edge network (expected 2) and ten-edge network (expected 4.0) are not evaluated. Each needs an argument over the layerings of eight vertices, and the general cut certificate plus the five-edge and no-edge instances cover the same code paths.
- HldProperties.DistanceCorrect: stated only for connected graphs. `isTree` does not check connectivity, and the DFS covers only vertex 0's component.
- HldProperties.DistanceCorrect: the 13-vertex tree of `HeavyLightDecompositionTest` is not evaluated. The general lemma covers it without line 156, and with line 156 it needs the condition that vertex 1 has no heavy sibling, which is not evaluated for that tree.
- HkResult.Construct: requires every edge to join a left vertex to a non-left one. HopcroftKarpSimple never checks this, and `matchVertex` relies on it.
- HkResult.Construct: requires n + 1 < INF, so that the layers, bounded by the number of slots, never reach the INF sentinel.
- HkAugment.MatchVertex, HldDfs.Dfs, DinicBlocking.FindDeltaFlow: the recursion has unbounded depth, whereas the JVM stack would overflow on deep inputs.
- The O(log n) bound on chain crossings in `lca` and the running-time bounds of all three algorithms.
- `RandomGraphGeneratorTest` exercises a random generator and an isomorphism check that are not part of this model.

## Findings

| source | as written | input that shows it | evidently intended | confidence | as-written member | corrected member |
|---|---|---|---|---|---|---|
| jgrapht-core/src/main/java/org/jgrapht/alg/HeavyLightDecomposition.java:156 | `isHeavy[1] = true` marks vertex 1 heavy whatever its subtree size, after `DFS` has already chosen the heavy children | the tree with vertices 0..3 and edges 0-1, 0-2, 2-3: vertices 1 and 2 are both heavy children of 0, `lca(1, 2)` returns 2 and `distance(1, 2)` returns 0 instead of 2; a one-vertex graph indexes `isHeavy[1]` out of bounds | no forced mark: a child is heavy only when it holds at least half of its parent's subtree, so each vertex has at most one heavy child and `distance` is the tree distance | high; not executed | HldBuild.ConstructAsWritten, HldProperties.AsWrittenSampleDistance | HldBuild.Construct, HldProperties.CorrectedSampleDistance, HldProperties.DistanceCorrect |
