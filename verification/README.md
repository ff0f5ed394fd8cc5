# Verified model of the vector indexes and graph algorithms

This project models the two algorithmic cores of the repository in Dafny and proves what they promise.

**Vector search** (`sqlite-vec/sqlite-vec.c`)

- *Chunked exact search.* Rows live in fixed-size chunks with validity bitmaps, and a text column keeps a view per slot
  and a side table for long texts. Inserts, deletes and updates are proved to keep table and column well formed and in
  step over every run, the slot of every new row is stated over the chunks alone, and the chunk-by-chunk query is proved
  to return the same answer as a scan of the abstract table, with rowid lists, partition keys and text constraints and
  the exact order of ties (`Bitmaps`, `Chunks`, `ChunkSearch`, `ChunkStore`, `ChunkQuery`, `ChunkOrder`, `ChunkKnn`,
  `TextMetadata`, `TextTables`).
- *KD-tree* with tombstones and partial rebuilds: order, exact counts, balance and contents over every run of insertions
  and deletions; exactness of the pruned search, with the exact condition under which pruning is sound for each metric;
  the search step by step on all data; the exact condition under which deletion removes its row; the split axis of every
  node and the exact condition for a rebuild; and the dump's round trip
  (`KDTree`, `KDRuns`, `KDAxes`, `KDSearch`, `KDTrace`, `KDMetrics`, `KDHeap`, `KDIndex`, `KDFile`).
- *IVF*: k-means training never raises the cost when it assigns by Euclidean order, and for L1 exactly in one dimension;
  lists conserve entries, every entry sits with a nearest centroid, and the bounded heap's full and not-full cases are
  told apart. A table with an index beside it is proved to answer like the table as long as the two are in step, with
  the exact condition for each operation to keep them so (`KMeans`, `KMeansRun`, `KMeansMetrics`, `BoundedHeap`,
  `HeapOrder`, `IVFSearch`, `IVFIndex`, `IVFRuns`, `IVFRising`, `IndexedTables`, `IndexedRuns`).
- *HNSW*: the bounded-degree layered graph is kept by every add, delete and update, the greedy descents terminate, and
  the search is stated from its first node through every level to the breadth-first collection on the ground, which
  determines the hits it sorts (`HNSW`, `HNSWDescent`, `HNSWCollect`, `HNSWRun`).

**Graph algorithms** (`sqlite-graph/src`)

- Tarjan's strongly connected components (`Tarjan`, `TarjanRun`), Dijkstra's shortest paths with its heap and hash table
  (`PriorityQueue`, `DistanceMap`, `Dijkstra`, `DijkstraRun`), breadth-first and depth-first traversal with the linked
  queue and the visited set (`Traversal`, `BreadthOrder`, `DepthFirst`, `DepthOrder`, `TraversalRun`), both with
  the order of the list, and PageRank, its total and when it settles (`PageRank`, `PageRankStops`, `PageRankRun`).

`Graphs`, `Vectors`, `TopK`, `Rows`, `ScanOrder`, `Sequences` and `Reals` hold what these share: the edge table and its
walks, points and metrics, the meaning of "the k nearest", breadth-first order, and the brute-force scan that index
searches are compared with.

Each algorithm comes in two layers. One layer states the invariant and proves, as lemmas over values, that every step
keeps it and what it implies at the end. The other is the imperative code, with the source's loops, arrays, linked nodes
and in-place updates, proved step by step against the first.

SQLite tables are sequences and maps, distances, weights and ranks are reals, and a metric is a parameter. Random draws
(levels, reseeds) are parameters too.

## Where the code does not do what one would expect

- The KD-tree prunes by comparing a squared gap with stored distances, while the L2 distance is a square root
  (`sqlite-vec/sqlite-vec.c:12431`, `sqlite-vec/sqlite-vec.c:392`). `KDMetrics.L2ExactIff` and `KDMetrics.L1ExactIff` give
  the exact condition: searches over data within g of the query on every axis are all exact if and only if g is at most 1.
  `KDMetrics.WitnessReached` builds a failing tree by three insertions.
- KD-tree deletion stops at the first node holding the id, even a tombstone. `KDRuns.DeleteExactIff` gives the exact
  condition, and `KDRuns.DeleteAfterUpdateFails` a run after which an updated and deleted row is still there.
- K-means with L1 assignment can raise its cost: `KMeansMetrics.L1NeverRisesIff` says it never does exactly in one
  dimension. `IVFRising.IndexTrainingRises` is 1024 insertions into an index that train it so.
- The IVF result heap is only ordered once full, so short results come back unordered: `BoundedHeap.AscendingIff`.
- An IVF update writes into the new list without growing it and loses the row exactly when that list is full:
  `IVFIndex.IVF.Update`, with the run `IVFRuns.UpdateLosesRow`.
- An IVF insertion whose training fails reports an error with the row already buffered. `IVFIndex.IVF.Insert` gives the
  exact condition, and that it never holds while marks belong to inserted rows: only direct calls of the index functions
  reach it, as in `IVFRuns.TrainingFails`.
- A row marked deleted before training is flushed into the lists with the others: `IVFRuns.DeletedReturns`.
- Deleting from a table with a trained IVF index takes the number of the list the row was in for an error code, so that
  only rows of list 0 can be deleted; for the others the statement fails after their entry is gone. Before training no
  row but row 0 can be deleted, and row 0 is never taken out of the index. `IndexedTables.IndexedTable.Delete` and
  `IndexedTables.IndexedTable.DeleteEarly` give the exact conditions, `IndexedRuns.DeleteBreaksStep` a run.
- Before training an update addresses the buffer by rowid: `IndexedTables.IndexedTable.UpdateEarly` says exactly when this
  is right, and `IndexedRuns.UpdateHitsOther` writes another row's vector.
- A reinserting HNSW update marks the old node deleted before the add can fail, and loses the row exactly when the index
  is full: `HNSWRun.Index.Update`, with the run `HNSWRun.FullUpdateLoses`.
- An HNSW search looks for a live node only from the entry on and dereferences a missing node when there is none, which
  `HNSWRun.Index.Search` reports as `Missing` exactly in that case. `HNSWRun.StrandedRow` reaches it with a live row left.
- A depth-limited depth-first search can miss near nodes: a node first listed just above the limit is marked and never
  expanded, even when a shorter way leads to it. `DepthFirst.CompleteIff` gives the exact limits that are safe.
- Rows at the same distance come back in the order of their chunks, but within a chunk from the last slot to the first:
  `ChunkKnn.Knn`.
- A KD-tree rebuild below the root starts the cycle of axes at 0 whatever the depth: `KDAxes.BuiltShape`,
  `KDAxes.InsertAxes`.
- The text filters compare with `strncmp`, which stops at a NUL: `TextMetadata.EqualityIff` gives the exact search texts
  for which they mean equality.
- PageRank hands nothing on from nodes without out-edges: `PageRank.MassKeptIff`. Undamped it may never settle and stop
  only at the iteration limit: `PageRankStops.StopsIff`.

## Model

| member | source | states |
|---|---|---|
| TarjanRun.GetNodeIndex | sqlite-graph/src/graph-advanced.c:116-135 | Binary search over the registered ids finds the position of an id exactly when it is registered, and gives -1 otherwise. |
| Tarjan.PushKeepsInv | sqlite-graph/src/graph-advanced.c:155-165 | Numbering and pushing an undiscovered node that every open node reaches keeps the invariant of the search (stack order, chain of reachability, roots, finished components) and shrinks the undiscovered set by that node. |
| Tarjan.ScanVisited | sqlite-graph/src/graph-advanced.c:172-186 | Following a row to an already numbered node, lowering the low-link only when it is on the stack, keeps the scan invariant of the open node. |
| Tarjan.ScanChild | sqlite-graph/src/graph-advanced.c:172-186 | Following a row to an undiscovered node and returning from the recursive call, with the low-link lowered to the child's, keeps the scan invariant of the open node. |
| Tarjan.LeaveInner | sqlite-graph/src/graph-advanced.c:189-227 | A node whose low-link stays below its number may be closed without emitting: everything above it on the stack still reaches an older open node. |
| Tarjan.RootClosed | sqlite-graph/src/graph-advanced.c:189-227 | When low-link equals number, no row leads from the stack segment above the node to anything that is not in the segment or already emitted. |
| Tarjan.SegmentReachesRoot | sqlite-graph/src/graph-advanced.c:189-227 | Every node of that segment reaches the node that closes it. |
| Tarjan.SegmentIsComponent | sqlite-graph/src/graph-advanced.c:189-227 | A closed, mutually reachable stack segment is one strongly connected component: exactly the nodes mutually reachable with its members. |
| Tarjan.LeaveRoot | sqlite-graph/src/graph-advanced.c:189-227 | Popping the segment and emitting it keeps the invariant, so every emitted list is a component and the lists are disjoint. |
| Tarjan.AllNumberedIsPartition | sqlite-graph/src/graph-advanced.c:265-275 | Once every node is numbered the emitted lists are all components, in reverse topological order, and the stack is empty. |
| TarjanRun.TarjanState.Enter | sqlite-graph/src/graph-advanced.c:155-165 | Assigns the next number and low-link and pushes the node; the new snapshot is exactly the pushed state. |
| TarjanRun.TarjanState.EmitComponent | sqlite-graph/src/graph-advanced.c:189-227 | The pop loop removes exactly the segment down to the root, clears its on-stack marks and appends its ids as one list. |
| TarjanRun.TarjanState.ScanRow | sqlite-graph/src/graph-advanced.c:172-186 | One successor row handled in place refines one step of the scan; numbering and emitted lists only grow. |
| TarjanRun.TarjanState.StrongConnect | sqlite-graph/src/graph-advanced.c:147-228 | A call on an undiscovered node ends in a state where the node is numbered, the stack above the caller's is accounted for by the returned low-link, and earlier numbers and low-links are untouched. |
| TarjanRun.StronglyConnectedComponents | sqlite-graph/src/graph-advanced.c:230-316 | The emitted lists are exactly the strongly connected components of the registered graph, each node in one, and no list reaches a later one: they come in reverse topological order. |
| PriorityQueue.RootIsLeast | sqlite-graph/src/graph-algo.c:193-217 | In a heap-ordered array the root is no farther than any entry. |
| PriorityQueue.MinQueue.BubbleUp | sqlite-graph/src/graph-algo.c:124-130 | Restores heap order from one too-small entry and permutes nothing away. |
| PriorityQueue.MinQueue.BubbleDown | sqlite-graph/src/graph-algo.c:135-153 | Restores heap order from one too-large entry and permutes nothing away. |
| PriorityQueue.MinQueue.Insert | sqlite-graph/src/graph-algo.c:160-187 | Adds one entry to the multiset of queued entries, growing the array when full, and keeps heap order. |
| PriorityQueue.MinQueue.ExtractMin | sqlite-graph/src/graph-algo.c:193-217 | Removes one entry of least distance from the multiset, or reports an empty queue. |
| DistanceMap.WriteChain | sqlite-graph/src/graph-algo.c:298-326 | Replacing in or prepending to one bucket's chain updates that key and no other, given the table's hashing invariant. |
| DistanceMap.DistMap.Set | sqlite-graph/src/graph-algo.c:298-326 | The chained hash table represents a map and setting updates exactly one key. |
| DistanceMap.DistMap.Get | sqlite-graph/src/graph-algo.c:332-343 | Looks up the represented map; an absent key is infinitely far. |
| DistanceMap.DistMap.GetPredecessor | sqlite-graph/src/graph-algo.c:349-361 | Looks up the recorded predecessor in the represented map, -1 when absent. |
| Dijkstra.Settle | sqlite-graph/src/graph-algo.c:415-434 | Extracting a fresh entry of least distance settles its node for good: it was not settled before, and the search invariant holds with its rows pending. |
| Dijkstra.DropStale | sqlite-graph/src/graph-algo.c:425-427 | An entry larger than its node's label can be dropped: the invariant needs no entry for it. |
| Dijkstra.RelaxStep | sqlite-graph/src/graph-algo.c:434-452 | Relaxing a row that improves its target keeps the invariant. |
| Dijkstra.RelaxSkip | sqlite-graph/src/graph-algo.c:434-452 | Passing over a row that does not improve its target keeps the invariant. |
| Dijkstra.WalkBound | sqlite-graph/src/graph-algo.c:405-455 | Every walk from a settled node either ends at a settled node whose label is within its weight, or passes a labelled, unsettled node no farther than its weight. |
| Dijkstra.ExtractedIsOptimal | sqlite-graph/src/graph-algo.c:405-425 | The label of the extracted node is at most the weight of every walk from the start to it. |
| Dijkstra.ExhaustedIsOptimal | sqlite-graph/src/graph-algo.c:405-455 | When the queue is empty, every reachable node is labelled and every label is at most the weight of every walk. |
| Dijkstra.PredecessorRank | sqlite-graph/src/graph-algo.c:465-482 | A labelled node's predecessor was settled strictly earlier, so following predecessors ends at the start. |
| DijkstraRun.RelaxRows | sqlite-graph/src/graph-algo.c:434-453 | Relaxing all rows of the node extracted last discharges every pending row. |
| DijkstraRun.Round | sqlite-graph/src/graph-algo.c:415-454 | Each pass of the loop either answers, drops one entry, or settles one node never settled before. |
| DijkstraRun.Search | sqlite-graph/src/graph-algo.c:405-455 | The loop terminates despite zero-weight cycles and stale entries; it ends with the end node labelled exactly when reachable, by a lower bound of all walks, each node's rows relaxed at most once. |
| DijkstraRun.LabelledIsReached | sqlite-graph/src/graph-algo.c:405-455 | Every labelled node is reachable from the start, by following predecessors back. |
| DijkstraRun.CountPath | sqlite-graph/src/graph-algo.c:465-469 | The first predecessor walk terminates, and the walked nodes are a real start-to-end path of exactly the end's label. |
| DijkstraRun.ReadPath | sqlite-graph/src/graph-algo.c:477-482 | The second predecessor walk fills the array with exactly that path. |
| DijkstraRun.ShortestPath | sqlite-graph/src/graph-algo.c:368-522 | With non-negative ids and weights the result is a real start-to-end path whose weight is the minimum over all walks, and not-found is returned exactly when the end is unreachable. |
| TraversalRun.Queue.Enqueue | sqlite-graph/src/graph-util.c:43-55 | The linked queue, read from head to tail, grows by one id at the end. |
| TraversalRun.Queue.Dequeue | sqlite-graph/src/graph-util.c:57-65 | The linked queue loses its first id, or is reported empty; the tail is reset with the head. |
| TraversalRun.VisitedSet.Add | sqlite-graph/src/graph-traverse.c:75-95 | The listed ids grow by one at the end, the array doubling when full. |
| TraversalRun.VisitedSet.Contains | sqlite-graph/src/graph-traverse.c:102-117 | Linear search answers membership exactly. |
| Traversal.AllSeen | sqlite-graph/src/graph-traverse.c:284-346 | Once every expandable node has been expanded, every walk within the limit ends at a node recorded at no greater depth. |
| Traversal.ExhaustedIsBreadthFirst | sqlite-graph/src/graph-traverse.c:241-360 | When the queue runs empty, the visited list starts at the start, has no repeats, holds exactly the nodes within the limit, and its recorded depths are the shortest distances in non-decreasing order. |
| Traversal.WithinIsReach | sqlite-graph/src/graph-traverse.c:241-360 | With a negative limit the nodes within the limit are the reachable ones. |
| TraversalRun.FollowRows | sqlite-graph/src/graph-traverse.c:300-346 | Following the rows of a dequeued node visits each new target once, in the next layer, and completes the node's expansion. |
| TraversalRun.BFS | sqlite-graph/src/graph-traverse.c:241-373 | The start first, every node within the limit once, in order of shortest distance, and among these in the order of the rows that first lead to the nodes, which determines the list. |
| TraversalRun.DFSRec | sqlite-graph/src/graph-traverse.c:185-239 | A call lists exactly what the specified exploration lists from there. |
| TraversalRun.DFS | sqlite-graph/src/graph-traverse.c:136-239 | The list is the depth-first listing of table, start and limit: every next node comes by the first row to an unlisted node of the deepest open node that still has one and may be followed, and at the end none has. Depths are walks below the limit and every row of a node less than one below it leads to a listed node; without a limit, or with one of at least the number of reachable nodes, exactly the reachable nodes. An unknown start is reported. |
| PageRank.FlowConserved | sqlite-graph/src/graph-algo.c:605-614 | What all nodes hand along their rows is exactly what arrives at all nodes. |
| PageRank.StepMass | sqlite-graph/src/graph-algo.c:598-614 | One iteration leaves a total of 1 - damping plus damping times the rank held by nodes with out-edges. |
| PageRank.RunMass | sqlite-graph/src/graph-algo.c:585-628 | After every number of iterations ranks are non-negative and their total lies in [1 - damping, 1], being exactly 1 when every node has an out-edge. |
| PageRank.MassKeptIff | sqlite-graph/src/graph-algo.c:598-628 | After every iteration from the first on, the total is 1 if and only if every node has an out-edge or damping is zero. |
| PageRankRun.Distribute | sqlite-graph/src/graph-algo.c:601-614 | The in-place accumulation over all rows computes one iteration. |
| PageRankRun.TakeOver | sqlite-graph/src/graph-algo.c:617-623 | The ranks are copied over, and the result is the largest change of a slot: some slot changes by it and none by more. |
| PageRankRun.Run | sqlite-graph/src/graph-algo.c:545-628 | The ranks after the first iteration in which every slot changes by less than epsilon, or after the iteration limit; with damping below 1 and epsilon above 0 the number of iterations is bounded by those two alone. The total is between 1 - damping and 1, and 1 without dead ends. An empty graph has no ranks. |
| TopK.TopKMerge | sqlite-vec/sqlite-vec.c:7233-7277 | The k nearest of two k-nearest lists are the k nearest of both candidate sets together. |
| TopK.TopKReplace | sqlite-vec/sqlite-vec.c:12372-12399 | When full, replacing a farthest kept hit by a closer one keeps a k-nearest selection. |
| TopK.TopKPrune | sqlite-vec/sqlite-vec.c:12401-12435 | When full, candidates no closer than the kept ones may be skipped altogether. |
| TopK.SortedPrefixAnswers | sqlite-vec/sqlite-vec.c:12858-12876 | The first k of a sorted list are its k nearest in ascending order. |
| Rows.Contains | sqlite-vec/sqlite-vec.c:4206-4215 | Binary search in a sorted rowid list answers membership exactly. |
| KDTree.RebuildCorrect | sqlite-vec/sqlite-vec.c:12528-12582 | Rebuilding a well-formed subtree keeps exactly its live rows and gives an ordered, exactly counted, balanced tree without tombstones. |
| KDTree.InsertCorrect | sqlite-vec/sqlite-vec.c:12277-12315 | An insertion, with all rebuilds on the way up, adds exactly one live row and keeps order on every stored axis, exact counts and balance. |
| KDTree.DeleteCorrect | sqlite-vec/sqlite-vec.c:12473-12500 | A deletion keeps order, exact counts and balance, and leaves exactly the rows not cut by the first node holding the id on each branch. |
| KDTree.ExactCounts | sqlite-vec/sqlite-vec.c:12584-12589 | Cached sizes and tombstone counts that are exact at every node equal the numbers of stored and dead rows of the whole subtree. |
| KDRuns.HeightBound | sqlite-vec/sqlite-vec.c:12591-12608 | Balance at every node makes the height logarithmic: 4^(h-1) <= 3^(h-1) * size. |
| KDRuns.MostlyLive | sqlite-vec/sqlite-vec.c:12603-12608 | At least 7/10 of the stored rows are live. |
| KDRuns.RunKeepsGood | sqlite-vec/sqlite-vec.c:12317-12327 | Every sequence of insertions and deletions keeps the tree ordered, exactly counted and balanced. |
| KDRuns.RunIsBalanced | sqlite-vec/sqlite-vec.c:12461-12500 | After every run both the height bound and the live fraction hold. |
| KDRuns.DeleteExactIff | sqlite-vec/sqlite-vec.c:12473-12500 | A deletion removes exactly the rows of its id if and only if no live row of the id lies below another node holding it. |
| KDRuns.UniqueNotShadowed | sqlite-vec/sqlite-vec.c:12473-12500 | With distinct stored ids, tombstones included, nothing is shadowed, so deletion is exact. |
| KDRuns.RunContents | sqlite-vec/sqlite-vec.c:12317-12327 | After a run in which no inserted id was stored at the time, as a row or a tombstone, the live rows are exactly those of the abstract replay of the run. |
| KDRuns.DeleteAfterUpdateFails | sqlite-vec/sqlite-vec.c:12448-12459 | A run of four insertions from the empty tree, an update of row 1 and its deletion, after which the updated row is still live although the replay has none. |
| KDSearch.CandidatesAreScan | sqlite-vec/sqlite-vec.c:12401-12435 | The hits of the live, filter-passing nodes are the scan of the tree's rows. |
| KDSearch.SearchTopK | sqlite-vec/sqlite-vec.c:12401-12435 | On an ordered tree whose distances dominate squared axis gaps, the pruned search keeps a k nearest of everything offered and visited or pruned. |
| KDSearch.NearestIsExact | sqlite-vec/sqlite-vec.c:12437-12446 | Under the same condition the search returns min(k, n) of the n live, filter-passing rows, none omitted being closer. |
| KDMetrics.SquaredL2Exact | sqlite-vec/sqlite-vec.c:12424-12434 | With squared distances the pruned search is exact on all data. |
| KDMetrics.L2ExactIff | sqlite-vec/sqlite-vec.c:12424-12434 | With L2 distances the search is exact on all data whose coordinates lie within g of the query's if and only if g <= 1, over all well-formed trees and equally over the trees runs produce. |
| KDMetrics.L1ExactIff | sqlite-vec/sqlite-vec.c:12424-12434 | The same for L1 distances. |
| KDMetrics.WitnessFails | sqlite-vec/sqlite-vec.c:12424-12434 | For every g > 1 a three-node tree within g of the query loses its second nearest row. |
| KDHeap.KDNode.PullUp | sqlite-vec/sqlite-vec.c:12584-12589 | Recomputes both counts from the children and changes nothing else. |
| KDHeap.BuildBalanced | sqlite-vec/sqlite-vec.c:12528-12549 | The nodes built from a range of the array form a fresh tree built from a sorted arrangement of exactly those rows. |
| KDHeap.CollectValidNodes | sqlite-vec/sqlite-vec.c:12568-12582 | Writes the live rows in order into the array from the given position. |
| KDHeap.RebuildSubtree | sqlite-vec/sqlite-vec.c:12551-12566 | The new nodes are a rebuild of the old subtree's live rows. |
| KDHeap.InsertRec | sqlite-vec/sqlite-vec.c:12277-12315 | The pointer version refines insertion: the returned nodes hold an insertion of the row into the old tree and are reachable from old or fresh nodes only. |
| KDHeap.DeleteRec | sqlite-vec/sqlite-vec.c:12473-12500 | The pointer version refines deletion on both branches. |
| KDIndex.TopkInsert | sqlite-vec/sqlite-vec.c:12372-12399 | The slot arrays after an offer hold what the specification of an offer says. |
| KDIndex.SearchRec | sqlite-vec/sqlite-vec.c:12401-12435 | The recursion over nodes computes the specified pruned search. |
| KDIndex.KDTreeIndex.Insert | sqlite-vec/sqlite-vec.c:12317-12327 | One step of a run: exactly one row is added to the live rows and the index invariant is kept. |
| KDIndex.KDTreeIndex.Delete | sqlite-vec/sqlite-vec.c:12461-12471 | An error on an empty tree; otherwise one step of a run, removing exactly the rows of the id if and only if none is shadowed. |
| KDIndex.KDTreeIndex.TopK | sqlite-vec/sqlite-vec.c:12437-12446 | The slots are those of the search taken step by step: nodes are met before their near side, a far side is dropped exactly when all slots are taken by hits no farther than the squared gap, and a closer hit replaces the first farthest. When distances dominate squared gaps they are the k nearest. |
| KDFile.ReadWrite | sqlite-vec/sqlite-vec.c:13477-13535 | Reading a written tree gives back the same tree, tombstones and counts included, and leaves the rest of the file unread. |
| KDFile.WriteInjective | sqlite-vec/sqlite-vec.c:13477-13501 | Different trees never have the same dump. |
| KMeans.AssignImproves | sqlite-vec/sqlite-vec.c:13120-13135 | Relabelling every point with a closest centroid does not raise the total squared distance when the metric orders points as Euclid does. |
| KMeans.MeanIsBest | sqlite-vec/sqlite-vec.c:13150-13157 | No point has a smaller sum of squared distances to a cluster than its mean. |
| KMeans.MoveImproves | sqlite-vec/sqlite-vec.c:13150-13163 | Replacing one centroid by the mean of its points, or by anything when it has none, does not raise the cost. |
| KMeansRun.CollectValid | sqlite-vec/sqlite-vec.c:13087-13106 | Gathers the points not marked deleted, in order. |
| KMeansRun.AssignLabels | sqlite-vec/sqlite-vec.c:13120-13135 | Labels every point with the first closest centroid. |
| KMeansRun.UpdateCentroids | sqlite-vec/sqlite-vec.c:13137-13163 | Every used centroid becomes the mean of its points and every empty one a training point. |
| KMeansRun.Iterate | sqlite-vec/sqlite-vec.c:13118-13164 | The labels and centroids left are those of one iteration: closest assignment to the old centroids, then means and reseeds. |
| KMeansRun.Train | sqlite-vec/sqlite-vec.c:13069-13173 | Training fails exactly without valid points or iterations, leaving the centroids alone; otherwise the centroids are the last of a run of that many iterations over the valid points. |
| BoundedHeap.SiftRestores | sqlite-vec/sqlite-vec.c:13270-13284 | A sift repairs the heap order broken at one position. |
| BoundedHeap.PushKeepsOk | sqlite-vec/sqlite-vec.c:13262-13312 | The slots stay unordered and complete until full, then a max-heap of a k nearest selection. |
| BoundedHeap.DrainAscends | sqlite-vec/sqlite-vec.c:13318-13341 | Heapsort extraction of a max-heap gives ascending order. |
| BoundedHeap.OutputCorrect | sqlite-vec/sqlite-vec.c:13245-13347 | With at least k candidates the output is their k nearest ascending, otherwise a rearrangement of all. |
| BoundedHeap.AscendingIff | sqlite-vec/sqlite-vec.c:13262-13347 | Ascending output for every candidate list of length n is guaranteed if and only if n >= k or n <= 1. |
| BoundedHeap.NotFullMisorders | sqlite-vec/sqlite-vec.c:13262-13347 | With fewer than k candidates the first one is returned last, so any farther one is out of order. |
| IVFSearch.ProbeAllIsScan | sqlite-vec/sqlite-vec.c:13227-13260 | Probing at least as many lists as there are finds exactly what a scan of every stored entry finds, whatever the order of the lists. |
| IVFSearch.SelectNprobe | sqlite-vec/sqlite-vec.c:13195-13225 | The partial selection sort names min(nprobe, n) distinct lists in ascending centroid distance, none of the others being closer. |
| IVFSearch.SiftDown | sqlite-vec/sqlite-vec.c:13297-13310 | The in-place sift computes the specified sift of the used cells and leaves the others alone. |
| IVFSearch.ScanList | sqlite-vec/sqlite-vec.c:13250-13313 | Scanning a list pushes exactly its filter-passing rows into the slots. |
| IVFSearch.DrainHeap | sqlite-vec/sqlite-vec.c:13318-13341 | The in-place heapsort reads the slots out as specified. |
| IVFSearch.Search | sqlite-vec/sqlite-vec.c:13227-13353 | The result is the k nearest of the probed lists' passing rows, ascending when at least k pass; otherwise all of them, in the order in which heapsort reads an unordered array out. |
| IVFIndex.TotalIsAllRows | sqlite-vec/sqlite-vec.c:13227-13260 | The multiset of all lists is what a scan of every list reads. |
| IVFIndex.IVF.AddVector | sqlite-vec/sqlite-vec.c:13175-13193 | Appends the row to the list of the first closest centroid, doubling that list's capacity when full; every row stays in a closest centroid's list. |
| IVFIndex.IVF.AddToTrain | sqlite-vec/sqlite-vec.c:13355-13366 | Buffers the row, or reports a full buffer unchanged. |
| IVFIndex.IVF.TrainAndFlush | sqlite-vec/sqlite-vec.c:13368-13390 | It fails exactly when no buffered row is valid, changing nothing; otherwise the centroids are those of a training run and the lists hold exactly the buffered rows in order, each with a closest centroid. |
| IVFIndex.IVF.Insert | sqlite-vec/sqlite-vec.c:10530-10558 | Every outcome: a full buffer refuses and changes nothing, a row is buffered, the row that fills the buffer trains and flushes it, and a trained index adds the row. Training fails, with the row already buffered, if and only if all 1024 positions are marked deleted, which cannot be while every mark belongs to a row inserted before. |
| IVFIndex.IVF.Delete | sqlite-vec/sqlite-vec.c:13404-13426 | Once trained, takes out the first entry of the id in the first list that holds it and reports that list, or -1 exactly when no list holds it. |
| IVFIndex.IVF.Update | sqlite-vec/sqlite-vec.c:13449-13475 | A stored row is kept, in the list of the closest centroid, if and only if that list has room once the old entry is out; otherwise it is refused and the row is gone. |
| IVFIndex.IVF.Search | sqlite-vec/sqlite-vec.c:13227-13353 | The query on the index answers from the lists of the nearest centroids, in the order stated for the search. |
| Bitmaps.GetPut | sqlite-vec/sqlite-vec.c:7315-7330 | Setting one position changes that position and no other. |
| Bitmaps.GetAnd | sqlite-vec/sqlite-vec.c:7306-7313 | The in-place conjunction is positionwise. |
| Chunks.PicksAnswer | sqlite-vec/sqlite-vec.c:7354-7390 | Picking repeated minima among marked positions gives an ascending k nearest of them. |
| ChunkSearch.MinIdx | sqlite-vec/sqlite-vec.c:7354-7390 | The loop picks up to k distinct marked positions in ascending distance, ties from the back of the chunk, before all others, and all of them when fewer are marked. |
| ChunkSearch.MergeTakeAnswers | sqlite-vec/sqlite-vec.c:7233-7277 | The first k of the merge of two ascending lists are the ascending k nearest of both together. |
| ChunkSearch.MergeSortedLists | sqlite-vec/sqlite-vec.c:7233-7277 | The in-place merge, reading the chunk through the picked positions, computes that list. |
| ChunkStore.BitIffOneRow | sqlite-vec/sqlite-vec.c:9732-9887 | In a well-formed store a validity bit is set exactly when exactly one row maps to the slot. |
| ChunkStore.WriteRow | sqlite-vec/sqlite-vec.c:9941-10070 | Writing a new row to a free slot of a chunk with its key keeps the store well formed and adds exactly that row. |
| ChunkStore.ClearRow | sqlite-vec/sqlite-vec.c:10592-10659 | Clearing a row's bit and position keeps the store well formed and removes exactly that row. |
| ChunkStore.RewriteRow | sqlite-vec/sqlite-vec.c:10941-11025 | Rewriting a row's vector in its slot changes that row's vector and nothing else. |
| ChunkStore.FirstFree | sqlite-vec/sqlite-vec.c:9801-9814 | Finds the first clear bit, skipping full bytes, or reports that all are set. |
| ChunkStore.VecTable.LatestChunk | sqlite-vec/sqlite-vec.c:5215-5298 | Finds the last chunk whose partition key matches; NULL matches nothing. |
| ChunkStore.VecTable.NextAvailable | sqlite-vec/sqlite-vec.c:9732-9887 | The lowest free slot of the last chunk with the key, leaving the chunks alone; a chunk is opened, and its first slot given, exactly when no chunk has the key or the last one has no free slot. |
| ChunkStore.VecTable.Insert | sqlite-vec/sqlite-vec.c:9941-10070 | A used rowid is a constraint error and changes nothing; otherwise exactly that row is added with its key and vector, at the lowest free slot of the last chunk with the key, or the first slot of a chunk opened because there is none; no chunk changes its key. |
| ChunkStore.VecTable.Delete | sqlite-vec/sqlite-vec.c:10817-10868 | Removes exactly the row, or reports it missing; the store stays well formed. |
| ChunkStore.VecTable.UpdateVector | sqlite-vec/sqlite-vec.c:10941-11025 | Replaces exactly the row's vector, or reports it missing; the store stays well formed. |
| ChunkKnn.MaskChunk | sqlite-vec/sqlite-vec.c:8396-8450 | The candidate bitmap marks exactly the valid slots whose rowid is listed and whose metadata bits are all set. |
| ChunkKnn.ScanChunk | sqlite-vec/sqlite-vec.c:8316-8550 | One pass of the chunk loop turns the answer for the chunks seen so far into the answer for one more, tie order included. |
| ChunkKnn.KnnChunks | sqlite-vec/sqlite-vec.c:8316-8550 | After all chunks the running list is the ascending k nearest of every wanted slot of every read chunk, ties to earlier chunks and within a chunk to later slots. |
| ChunkQuery.TableIsBruteForce | sqlite-vec/sqlite-vec.c:8316-8550 | The wanted slots of a well-formed store yield every asked-for row exactly once and nothing else. |
| ChunkKnn.Knn | sqlite-vec/sqlite-vec.c:8181-8580 | The chunked query returns the ascending k nearest of the abstract table's rows that pass the partition, rowid and metadata constraints; among rows at the same distance those of earlier chunks come first and within a chunk the later slots. |
| TextMetadata.StrNCmpZero | sqlite-vec/sqlite-vec.c:7600-7641 | Compares up to a NUL or the given length, whichever comes first. |
| TextMetadata.TwoTiers | sqlite-vec/sqlite-vec.c:7600-7641 | The view decides short texts, and a mismatch of the view decides long ones. |
| TextMetadata.EqualityIff | sqlite-vec/sqlite-vec.c:7600-7641 | The filters mean equality with a search text for every stored text if and only if the search text has no NUL before its last byte. |
| TextMetadata.NulFreeMeaning | sqlite-vec/sqlite-vec.c:7600-7911 | For NUL-free texts the tests are plain equality and membership. |
| TextMetadata.LongIffView | sqlite-vec/sqlite-vec.c:10166-10241 | The side table has a row exactly when the view's length exceeds 12. |
| TextMetadata.TextColumn.Write | sqlite-vec/sqlite-vec.c:10166-10241 | Inserts and updates keep both tiers in step: the column afterwards holds exactly the new text for the row, and the statement chosen for the side table always fits what it holds. |
| TextMetadata.TextColumn.Clear | sqlite-vec/sqlite-vec.c:10764-10804 | Deleting blanks the view and drops a long text, leaving the other rows as they were. |
| TextMetadata.TextColumn.FilterText | sqlite-vec/sqlite-vec.c:7600-7686 | The EQ and NE bitmaps of a chunk agree on every live slot with the comparison of full texts, and no lookup in the side table fails. |
| TextMetadata.TextColumn.FilterTextIn | sqlite-vec/sqlite-vec.c:7840-7911 | The IN bitmap agrees on every live slot with membership among the search texts. |
| HNSW.LinkOne | sqlite-vec/sqlite-vec.c:12692-12696 | Connecting a pair both ways appends to each list that has room and touches no other list. |
| HNSW.LinkedKeepsGraph | sqlite-vec/sqlite-vec.c:12776-12782 | Linking an unlinked node with distinct nodes that reach the level keeps every list at most 16 distinct valid other ids on its level, and every link returned unless the other list is full. |
| HNSW.Nearest16Choosable | sqlite-vec/sqlite-vec.c:12753-12782 | A list of nearest candidates names distinct other nodes that reach the level. |
| HNSW.CloserShrinks | sqlite-vec/sqlite-vec.c:12726-12740 | A move to a closer node strictly shrinks the set of nodes closer than the current one, which bounds the descent. |
| HNSWRun.ExchangeSort | sqlite-vec/sqlite-vec.c:12858-12872 | The exchange sort orders by distance and permutes. |
| HNSWRun.GreedyLevel | sqlite-vec/sqlite-vec.c:12804-12824 | The descent on a level takes exactly the stops of the scan, each move to the first closer live neighbour with the neighbour index running on, a new pass after every pass that moved, and ends where a whole pass finds nothing closer, no farther than it began. |
| HNSWRun.ChooseNearest | sqlite-vec/sqlite-vec.c:12746-12776 | The chosen list is the ids of the ascending 16 nearest live nodes that reach the level. |
| HNSWRun.Index.LinkLevel | sqlite-vec/sqlite-vec.c:12744-12783 | One level's linking gives the new node its nearest list and each of those nodes a link back where there is room, keeping the graph well formed. |
| HNSWRun.Index.Add | sqlite-vec/sqlite-vec.c:12698-12792 | A full index refuses; otherwise the lists change by exactly the new node's nearest lists and their returns, one live row is added, and the entry node stays on the top level. |
| HNSWRun.Index.Delete | sqlite-vec/sqlite-vec.c:12879-12891 | The first live node of the id becomes a tombstone, exactly when there is one, and the graph and the entry are kept. |
| HNSWRun.Index.Update | sqlite-vec/sqlite-vec.c:12893-12915 | The first live node of the id is overwritten in place, or marked deleted and the vector added as a new node with exactly the links of an add; a reinserting update of a full index stops after the mark and loses the row. |
| HNSWCollect.VisitNeighbours | sqlite-vec/sqlite-vec.c:12846-12854 | The live neighbours not yet queued are queued in list order, once each, and the queue never exceeds the number of nodes. |
| HNSWCollect.CollectFrom | sqlite-vec/sqlite-vec.c:12826-12855 | The collected hits are those of nodes in breadth-first order through live ground-level links, all of them unless ef were found, and nothing is visited after the last one needed. |
| HNSWRun.Index.FirstLive | sqlite-vec/sqlite-vec.c:12796-12801 | Finds the first live node at or after the entry, and runs off the nodes if and only if there is none. |
| HNSWRun.Index.Search | sqlite-vec/sqlite-vec.c:12794-12876 | There is an answer if and only if some node at or after the entry is live; the search comes down from the first such node through every level from the top to 1, each by its own descent, and the answer is the ascending topk nearest of the hits collected from there. |
| DepthFirst.ExploreNear | sqlite-graph/src/graph-traverse.c:197-203 | Every node a call adds to the list is reached from the start by a walk shorter than the limit. |
| DepthFirst.AmpleIsReach | sqlite-graph/src/graph-traverse.c:185-239 | Without a limit, or with one of at least the number of reachable nodes, the search lists exactly the reachable nodes: a call the limit cuts off finds every one already listed. |
| DepthFirst.CompleteIff | sqlite-graph/src/graph-traverse.c:197-203 | Among all tables and starts from which at most n nodes are reachable, a limited search always lists exactly the nodes fewer than the limit edges away if and only if the limit is negative, at most 2, or at least n. |
| DepthFirst.ShortcutMisses | sqlite-graph/src/graph-traverse.c:197-203 | For every limit of at least 3, a chain with a shortcut whose last node is two edges away and is not listed, because its predecessor was first listed just above the limit and is never expanded. |
| KMeansMetrics.L2NeverRises | sqlite-vec/sqlite-vec.c:13118-13164 | With L2 or squared L2 assignment no training run on any data raises the cost. |
| KMeansMetrics.L1NeverRisesIff | sqlite-vec/sqlite-vec.c:13118-13164 | With L1 assignment no training run on any data raises the cost if and only if there is at most one dimension. |
| KMeansMetrics.RisingRun | sqlite-vec/sqlite-vec.c:13118-13164 | In two or more dimensions five points whose L1 training, seeded with the first two, is the stated pair of iterations. |
| KMeansMetrics.RisingCosts | sqlite-vec/sqlite-vec.c:13118-13164 | The cost of those iterations goes from 18 to 22.75. |
| KDRuns.FreshIsNew | sqlite-vec/sqlite-vec.c:12317-12327 | A run that inserts no id twice never inserts an id that is stored. |
| KDMetrics.WitnessReached | sqlite-vec/sqlite-vec.c:12424-12434 | Three insertions into the empty tree build the tree whose search fails. |
| IVFRuns.TrainedToSites | sqlite-vec/sqlite-vec.c:13108-13164 | Training on the 1024 buffered rows of the example keeps the first two of its 32 centroids at the two sites, whatever points empty clusters are reseeded with. |
| IVFRuns.UpdateLosesRow | sqlite-vec/sqlite-vec.c:13449-13475 | With any metric that is the gap on one axis, as L1 and L2 are, 1024 insertions into a new index of 32 lists and one update, after which the update is refused and row 1 is in no list. |
| ChunkStore.RoomIsFree | sqlite-vec/sqlite-vec.c:9732-9887 | The next slot of a partition exists once a needed chunk is opened, is free and lies in a chunk with the key. |
| TextMetadata.TextColumn.AddChunk | sqlite-vec/sqlite-vec.c:5653-5695 | A new chunk brings blank views and changes no row's text. |
| TextTables.MeetsNulFree | sqlite-vec/sqlite-vec.c:7600-7911 | With NUL-free search texts the constraints are equality, inequality and membership. |
| TextTables.MasksMeanText | sqlite-vec/sqlite-vec.c:8415-8450 | Bitmaps filtered per chunk and constraint mean all constraints on every live slot of the table. |
| TextTables.TextTable.Insert | sqlite-vec/sqlite-vec.c:9941-10070 | One new row with its vector and text, a new chunk bringing views with it; table and column hold the same rows in the same slots afterwards, the new one in the slot stated for the table. |
| TextTables.TextTable.UpdateVector | sqlite-vec/sqlite-vec.c:11102-11128 | A new vector for one row; every text stays. |
| TextTables.TextTable.UpdateText | sqlite-vec/sqlite-vec.c:11086-11099 | A new text for one row; every vector stays. |
| TextTables.TextTable.Delete | sqlite-vec/sqlite-vec.c:10817-10880 | One row leaves table and column. |
| TextTables.TextTable.KnnWhereText | sqlite-vec/sqlite-vec.c:8181-8580 | On a table built by these operations, a query with any number of EQ, NE and IN constraints returns the ascending k nearest of exactly the asked-for rows whose full text meets them all. |
| HNSWRun.StrandedRow | sqlite-vec/sqlite-vec.c:12794-12801 | Two adds and a delete after which a row is live, there is room left, and no search finds a node to start from. |
| HNSWRun.FullUpdateLoses | sqlite-vec/sqlite-vec.c:12893-12915 | An index of capacity 1 whose only row is updated with reinsertion and is gone. |
| IVFIndex.IVF.MarkDeleted | sqlite-vec/sqlite-vec.c:13396-13400 | Before training a deletion sets the mark at position rowid - 1 and nothing else; a caller that deletes only buffered rows keeps every mark on a buffered row. |
| IVFIndex.IVF.UpdateBuffered | sqlite-vec/sqlite-vec.c:13434-13447 | Before training an update overwrites the vector at position rowid - 1, whichever row is there, and takes the mark off. |
| IVFIndex.ValidIff | sqlite-vec/sqlite-vec.c:13087-13106 | A full buffer has no valid point if and only if every position is marked. |
| IVFIndex.HeldLeavesOne | sqlite-vec/sqlite-vec.c:13396-13400 | As long as the buffer has room and every mark belongs to a buffered row, some position is unmarked, by counting. |
| IVFRuns.Fill | sqlite-vec/sqlite-vec.c:10530-10558 | 1024 insertions of any rows into a new index train it on them, and the lists hold exactly these rows. |
| IVFRuns.TrainingFails | sqlite-vec/sqlite-vec.c:13368-13372 | 1024 marks set by direct calls and 1024 insertions, the last of which reports an error with its row buffered. |
| IVFRuns.DeletedReturns | sqlite-vec/sqlite-vec.c:13378-13386 | A row deleted before training is in the lists again after the flush. |
| IVFRising.TrainingRises | sqlite-vec/sqlite-vec.c:13118-13164 | Every L1 training of a 32-list index on the stated 1024 rows, in two or more dimensions and for all reseeds, costs 3564 after its first iteration and 4504.5 after its second. |
| IVFRising.IndexTrainingRises | sqlite-vec/sqlite-vec.c:13368-13390 | The 1024 insertions themselves: the index they train went through a rising pair of iterations. |
| PageRankStops.StepShrinks | sqlite-graph/src/graph-algo.c:598-614 | One iteration shrinks the summed difference of any two rank vectors by the damping factor. |
| PageRankStops.StillAfter | sqlite-graph/src/graph-algo.c:598-628 | With damping below 1 every iteration past a number that depends on damping and epsilon alone changes no entry by epsilon or more, on every graph. |
| PageRankStops.SwingNeverStill | sqlite-graph/src/graph-algo.c:598-628 | A graph of three nodes on which an undamped run never settles. |
| PageRankStops.StopsIff | sqlite-graph/src/graph-algo.c:598-628 | For damping from 0 to 1, runs with epsilon above 0 settle on every graph if and only if damping is below 1. |
| IndexedTables.VictimIsRow | sqlite-vec/sqlite-vec.c:13404-13426 | In step, a row of the table is in some list and an index deletion would take out exactly its entry. |
| IndexedTables.IndexedTable.Insert | sqlite-vec/sqlite-vec.c:10525-10558 | A used rowid is a constraint error that changes neither side; otherwise the row is added to both and they stay in step, training included. |
| IndexedTables.IndexedTable.Delete | sqlite-vec/sqlite-vec.c:10886-10908 | Once trained, the list number is returned as a status: table and index stay in step if and only if the row is absent, or its id is not 0 and its entry is in list 0; otherwise the index entry is gone and the statement fails, or, for id 0, the entry is left behind. |
| IndexedTables.IndexedTable.DeleteEarly | sqlite-vec/sqlite-vec.c:10886-10908 | Before training every deletion of a row but row 0 fails with -2 and leaves table and buffer in step; row 0 leaves the table and stays in the index. |
| IndexedTables.IndexedTable.UpdateVector | sqlite-vec/sqlite-vec.c:11125-11148 | The table always takes the new vector; the index stays in step if and only if the closest centroid's list has room once the old entry is out. |
| IndexedTables.IndexedTable.UpdateEarly | sqlite-vec/sqlite-vec.c:11125-11148 | Before training the two stay in step if and only if the row sits at position rowid - 1 of the buffer, or the new vector changes neither it nor the row that does. |
| IndexedTables.ScanIsTable | sqlite-vec/sqlite-vec.c:13227-13260 | A scan of an index in step finds one hit for every row of the table that passes the filter. |
| IndexedTables.IndexedTable.SearchAll | sqlite-vec/sqlite-vec.c:13227-13353 | In step, a search that probes every list returns the k nearest of the table's rows that pass the filter, ascending when at least k pass. |
| IndexedRuns.DeleteBreaksStep | sqlite-vec/sqlite-vec.c:10886-10908 | 1024 table insertions and a deletion of row 2 that fails with code 1: the table keeps the row and the index does not. |
| IndexedRuns.UpdateHitsOther | sqlite-vec/sqlite-vec.c:11125-11148 | Rows 2 and 1 inserted in that order and an update of row 1 that writes row 2's vector in the index. |
| KDAxes.BuiltShape | sqlite-vec/sqlite-vec.c:12528-12549 | A subtree built at a depth splits, j levels down, on axis (depth + j) mod dims, and its left child holds half of the other nodes, rounded up. |
| KDAxes.InsertPlainIff | sqlite-vec/sqlite-vec.c:12277-12315 | An insertion is a new leaf where the comparisons lead, on the axis of its depth, and nothing else if and only if no subtree of more than 2 nodes then has a child over 3/4 of them and none has over 3/10 tombstones. |
| KDAxes.DeletePlainIff | sqlite-vec/sqlite-vec.c:12473-12500 | A deletion is marks on the topmost holders and nothing else if and only if these leave the tree even in that sense. |
| KDAxes.InsertAt | sqlite-vec/sqlite-vec.c:12277-12315 | At each node on the way up the subtree is kept if the counts at its top are even, and otherwise rebuilt from its live rows with axes from 0 on. |
| KDAxes.DeleteAt | sqlite-vec/sqlite-vec.c:12473-12500 | The same for a deletion, at the node that holds the id and at every node above. |
| KDAxes.InsertAxes | sqlite-vec/sqlite-vec.c:12277-12315 | After an insertion every subtree has been rebuilt with axes from 0 on, or is a new leaf on the axis of its depth, or keeps its top node and axis. |
| KDAxes.DeleteAxes | sqlite-vec/sqlite-vec.c:12473-12500 | After a deletion every subtree has been rebuilt with axes from 0 on, or keeps its top node and axis. |
| KDAxes.QuietRunAxes | sqlite-vec/sqlite-vec.c:12277-12315 | In a run without rebuilds every node at depth d splits on axis d mod dims. |
| KDTrace.NearestEnds | sqlite-vec/sqlite-vec.c:12401-12446 | The recursive search ends with the slots that the steps of the search end with. |
| KDTrace.SearchUnique | sqlite-vec/sqlite-vec.c:12401-12446 | A tree and a query determine the slots, their order included. |
| KDFile.DumpLayout | sqlite-vec/sqlite-vec.c:13477-13501 | Where marker, numbers, coordinates and the two subtrees stand in a dump. |
| DepthOrder.DepthFirstIff | sqlite-graph/src/graph-traverse.c:185-239 | A list is what the search produces if and only if it is a depth-first listing in that sense. |
| DepthOrder.DepthUnique | sqlite-graph/src/graph-traverse.c:185-239 | Table, start and limit determine the listing. |
| DepthOrder.OrderCovers | sqlite-graph/src/graph-traverse.c:197-231 | In a depth-first listing depths are walks below the limit, and every row of a node less than one below it leads to a listed node. |
| BreadthOrder.BreadthUnique | sqlite-graph/src/graph-traverse.c:241-345 | Table, start and limit determine a list in breadth-first order. |
| HNSWDescent.DescentCloser | sqlite-vec/sqlite-vec.c:12804-12824 | Every move of a descent is along a live link of its level to a strictly closer node. |
| HNSWDescent.DescendsUnique | sqlite-vec/sqlite-vec.c:12804-12824 | A start determines where the descent of a level ends. |
| HNSWDescent.LevelsUnique | sqlite-vec/sqlite-vec.c:12804-12824 | The node the search starts from determines the point of every level. |
| HNSWCollect.GroundUnique | sqlite-vec/sqlite-vec.c:12826-12855 | The queue of a collection is determined by its first node. |
| HNSWCollect.CollectedAre | sqlite-vec/sqlite-vec.c:12835-12844 | The hits are those of the live nodes that pass the filter and of no others, in the order of the queue. |
| HeapOrder.ShortOutput | sqlite-vec/sqlite-vec.c:13318-13341 | With fewer than k candidates the output is read out of the candidates as they came: each time the root goes out, the last one takes its place and slides down past every farther child. |
| HeapOrder.SiftSlides | sqlite-vec/sqlite-vec.c:13270-13284 | A sift moves one hit down the path of farther children, left on ties, lifts those it passes by one and leaves all others. |
| HeapOrder.ReadOutUnique | sqlite-vec/sqlite-vec.c:13318-13341 | The slots determine the output. |
| ChunkOrder.FoldSlots | sqlite-vec/sqlite-vec.c:7233-7277 | The merge of the running list with a chunk's minima is the running list of one chunk more, tie order included. |
| ChunkStore.SlotGoesTo | sqlite-vec/sqlite-vec.c:9732-9887 | The slot for the next row of a partition, over the chunks alone: the lowest free one of its last chunk, or a new chunk's first exactly when there is no such chunk or it is full. |
| PageRank.RankArrives | sqlite-graph/src/graph-algo.c:598-614 | A node's new rank is the base plus damping times the sum, over the rows that lead to it, of the source's rank over the number of rows leaving the source. |
| IVFIndex.CapIsLeast | sqlite-vec/sqlite-vec.c:12980-12999 | The capacity of a list grown to n entries is 128 times the least power of two with which they fit. |
| Graphs.RowsInOrder | sqlite-graph/src/graph-traverse.c:222-227 | The rows of a node are those at its positions in the table, each once and in table order. |
| KMeans.IterationImproves | sqlite-vec/sqlite-vec.c:13118-13164 | One iteration never costs more than any labelling of the centroids it starts from, when the metric orders points as Euclid does. |
| KMeans.RunImproves | sqlite-vec/sqlite-vec.c:13118-13164 | Over every run of iterations the total squared distance of the valid points to their centroids never increases. |
| KMeansRun.SeedCentroids | sqlite-vec/sqlite-vec.c:13108-13115 | The first centroids are the valid points in turn. |
| PageRankRun.OutDegrees | sqlite-graph/src/graph-algo.c:590-595 | Each slot holds the number of rows leaving its node. |

## Left out

- SQLite plumbing: statements, blob handles, virtual table registration, error strings, mutexes and result formatting; a path or component is a list of ids rather than text.
- Allocation failure: every allocation succeeds, except that the fixed capacities the code checks itself are modelled.
- Floating point: rounding, NaN, overflow and the FLT_MAX and DBL_MAX sentinels; an infinite distance is a value of its own, and the thresholds 0.75 and 0.3 are the exact fractions 3/4 and 3/10.
- Machine integers: ids and counts are unbounded, including rowids passed through `int` parameters.
- Distance kernels: metrics are functions on points; only L2, squared L2 and L1 are given a meaning. Cosine and Hamming distances are arbitrary metrics here.
- Sorting of rows in a KD-tree rebuild: `qsort` may order equal keys in any way, so a rebuild is a relation that holds for every arrangement.
- KD-tree `kdtree_find_min` and printing: never called by the index.
- `kdtree_update` as a method of its own: it is a deletion followed by an insertion, and runs are made of those.
- KD-tree dumps that were cut short or are not dumps: the reader then fills fields with whatever memory held; the model calls such input torn.
- HNSW and IVF dumps: they add only more record formats.
- IVF deletes and updates before training with ids outside 1 to 1024: they write outside the buffer.
- IVF searches before training, and tables with a KD-tree or HNSW index beside them.
- SQLite's statement rollback: taken to restore the tables of a failed statement; it cannot restore an index in memory.
- HNSW after a missing node: what the process does once it dereferences one is not modelled; the search stops there.
- HNSW recall: how good the collected neighbourhood is for the query is not promised by the code.
- DijkstraRun.ShortestPath: asks for non-negative ids and weights; -1 is the code's marker for "no predecessor".
- PageRankRun.Run: asks that node ids are 1..n and edges join them, since ids index the arrays.
- Tarjan's node map: the registered id list is taken sorted without repeats, as the query that builds it returns it.
- Text comparisons GT, GE, LT and LE, and integer, float and boolean metadata: the former do not follow plain string order, the latter are one comparison per slot.
- Query planning, hybrid filtering without the pre-filter, and auxiliary columns.
- The LRU cache, the parallel scheduler, compression, bulk loading, JSON and Cypher parts of the graph extension.
