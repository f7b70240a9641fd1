# A verified model of NeuralDB

NeuralDB is a small vector database: an approximate nearest-neighbour index (a layered
navigable graph, HNSW, after arXiv:1603.09320), a brute-force index, a disk-backed vector
store with a page cache, a write-ahead log, and vectorised distance kernels. This project
models the five of them in Dafny and proves what they promise. `dafny verify dfyconfig.toml`
checks everything.

## How the model is built

**The HNSW index.** Module `Hnsw` describes the index as a value and every operation as a
relation between values: relations, because `std::sort` leaves the order of equally similar
nodes open, so a theorem about the relation covers every outcome. The random level of a new
node is a parameter, and similarity is an arbitrary function into the reals. Each neighbour
list carries a history, `offered`: everything the list was ever offered, kept or pruned. Class
`HnswIndex.HNSWIndex` has the source's fields and methods, loops and heaps; each method is
proved to make exactly the corresponding step. `search_layer_`, with its generation-tagged
visited buffer (16-bit tag, wrap-around, growth), is proved to compute the pure beam search of
module `BeamSearch`, about which the search theorems are stated.

* Single turns of the beam search (`BeamSteps`) and the way of a search or an insertion through the
  layers (`HnswPaths`) are told in terms of similarities, ids and links alone.
* Sequential runs (`HnswTheorems`, `HnswExact`, `HnswDeletion`): every list is a best selection of
  everything it was offered, and the offers of each layer form a symmetric, connected graph. In
  every index, pruned or not, a wide search answers exactly the live slots that layer 0 connects
  to the node where the descent lands; so it scores like the brute-force index if and only if
  those are all live slots. A search of any width answers the best of the live slots it looks at,
  and no live layer-0 neighbour of an answer that was left out is better than any answer. Up to
  `2M + 1` slots all live slots are connected. With cosine similarity, and for every `M` up to
  2^29 - 2, a run of `2M + 2` insertions of float vectors loses its last slot: no search finds it
  (`HnswLost`, `LostCosine`).
* Concurrent runs (`Concurrent`): any number of inserting threads, one step per lock region,
  interleaved freely with deletions. The safety invariant holds in every reachable state, no
  thread ever gets stuck, nothing that was stored is lost, and as long as no new insertion arrives
  every insertion completes within a number of regions that the starting state determines
  (`Completion`). When insertions do not
  overlap, the step system leaves behind exactly the states of sequential runs: each of its
  executions is a run (`Serial`), and each run is the history of some execution (`Schedules`).
  When they do, a slot can be lost that no sequential run of that size loses (`Overlap`).

**Heaps** are lists in priority order; the order is strict (ties go to the smaller id), as it
is for the source's pairs.

**Files** are byte sequences. `IndexFile` is the format of the index file, `Wal` that of the
log, `PageLayout` and `Paged` the page file and its cache; `Formats` says byte by byte what stands
where. Floats are carried around as their
32-bit patterns; `Floats` says which numbers the patterns stand for.

**Clients** (`Client`) drive the objects as the repository's tests do: both indexes through the same
history, saving and loading, compacting, filtering, and recovering both from a torn log.

**Kernels** compute over exact reals, with the square root passed in as any function that
squares back to its argument; the shuffles of the lane reduction are modelled lane by lane.

## Where the code does less than one might expect

Each of these is proved: that the promise fails, and the exact condition under which it holds; for
overlapping insertions the condition is that of the single lock region at fault.

* HNSW search is as good as a scan only where layer 0 connects all live slots to the landing node
  (`HnswTheorems.MatchesFlatIffReached`); one slot more than `2M + 1` can already be lost, with
  cosine similarity and whatever the query (`LostCosine.BoundIsTight`, `Client.LostSlotShown`).
* Where insertions overlap, writing a new node's list of a layer drops the links other threads have
  made from it in the meantime, unless the node chose them too (`Overlap.WriteListKeepsIff`). Three
  completed insertions can so leave behind a live slot that no search for any query answers, for
  every configuration with `M` at least 1 (`Overlap.OverlapLosesSlot`); with cosine similarity two
  orthogonal vectors are enough (`Overlap.CosineLosesSlot`). Without overlap three slots are always
  all found (`Serial.SerialisedIsRun`, `HnswTheorems.SmallRunsMatchFlat`).
* For `k <= 0` HNSW search never meets its stopping test and returns every live candidate,
  while the brute-force index returns nothing for `k = 0` (`HnswTheorems.ZeroMatchesFlatIff`).
* Deleting an id that was inserted twice tombstones only its first slot: `is_deleted` holds and
  search may still answer the id. Over all beams and all `k`, no search for a query answers a
  deleted id if and only if none of the slots it can reach repeats an earlier slot's id that was
  deleted (`HnswDeletion.RunPromiseHoldsIff`); ids that were never both inserted twice and deleted
  are safe in every search (`HnswDeletion.TombstonesHold`); `Client.DuplicateIdShown` shows one that is not.
* A page read before the file covers it is cached as zeros and stays so until it is evicted or
  pushed to, even when a later push covers it: a read is right if and only if the page's last load
  found it covered, or the vector is zero (`Paged.ReadBackIffLoadedCovered`, `Paged.StaleBufferShown`).
  Where vectors fill their pages to the last byte a covered page is never stale (`PageTrace.ExactFitNeverStale`).
* Reopening a page file forgets the vectors of its last page unless that page is full to the
  last byte (`PageLayout.ReopenKeepsCountIff`); all others read back, whatever is pushed and read
  from then on (`Paged.PagedVectorStore.Get`).
* Replaying a log with the default arguments, without a delete callback, brings every deleted vector
  back: the rebuilt flat index is the logged one if and only if nothing in it was deleted
  (`Wal.RecoveryWithoutDeletes`).
* A log record whose vector or metadata length does not fit 32 bits cannot be read back
  (`Wal.ReadBackIffFits`), and an index file restores its index if and only if all sizes fit
  (`HnswStorage.RestoresIffWidthsFit`); neither writer checks.
* A beam width of zero or less works like one (`BeamSearch.GreedyLocalMaximum`).

## Model

| member | source | states |
|---|---|---|
| VisitedBuffer.VisitedBuffer.Begin | src/hnsw.cpp:172-178 | a search starts with the empty set and room for every node, after any number of earlier searches, through growth (to 10000 more than needed) and 16-bit tag wrap-around |
| VisitedBuffer.VisitedBuffer.Mark | src/hnsw.cpp:191-209 | marking adds exactly that node to the set |
| VisitedBuffer.VisitedBuffer.IsMarked | src/hnsw.cpp:208-208 | the tag comparison is set membership |
| Ranking.SortDescending | src/hnsw.cpp:237-237 | sorting by descending score yields a descending rearrangement |
| LayerSearch.Drain | src/hnsw.cpp:225-228 | emptying the result heap and sorting gives a descending rearrangement of it |
| LayerSearch.OfferNeighbours | src/hnsw.cpp:207-222 | the inner loop over the neighbours does to heaps and buffer what the pure step does to heaps and a set |
| LayerSearch.SearchOneLayer | src/hnsw.cpp:168-229 | heaps plus tagged buffer compute the pure beam search, up to the order of equal scores; the loop terminates |
| BeamSearch.Turn | src/hnsw.cpp:193-223 | each turn shrinks the unseen nodes, or leaves them and shrinks the queue |
| BeamSearch.OnTrackTurn | src/hnsw.cpp:193-223 | the loop's intermediate states lead to one final result, which is on the heap when the loop stops |
| BeamSearch.BeamClosure | src/hnsw.cpp:193-228 | result: min(width, visited) distinct reachable nodes, descending, none of the other visited nodes better, and each link of a returned node is visited, so it is returned or no better than the worst returned |
| BeamSearch.VisitsEnough | src/hnsw.cpp:193-223 | a search visits more nodes than its beam is wide, or exactly all it can reach |
| BeamSearch.ReachabilityExact | src/hnsw.cpp:193-228 | a beam as wide as the reachable set returns exactly that set, best first; the early exit loses nothing |
| BeamSearch.GreedyLocalMaximum | src/hnsw.cpp:63-66 | width one or less: a single node, no worse than the entry, with no better link |
| BeamSearch.BestBeatsEntry | src/hnsw.cpp:186-228 | at any width the best result is no worse than the entry |
| BeamSearch.SearchStaysWithin | src/hnsw.cpp:201-222 | the search never leaves a closed set it starts in |
| BeamSteps.TurnTakesBest | src/hnsw.cpp:193-223 | a turn takes the most similar queued node, of equally similar ones that with the smallest id, sees exactly its links, and drops nothing else from the queue |
| BeamSteps.NewcomerAdmittedIff | src/hnsw.cpp:215-221 | a newly seen node is queued and kept if and only if fewer results than the beam is wide are held or it beats the worst of them strictly; what it displaces is the worst, of equally bad ones the largest id |
| BeamSteps.OfferedInOrder | src/hnsw.cpp:207-222 | neighbours are offered in list order, each to the heaps the ones before it left |
| BeamSteps.StopsIff | src/hnsw.cpp:193-199 | the loop stops if and only if nothing is queued, or the results are full and everything queued is strictly less similar than all of them |
| BeamSteps.GreedyMovesUp | src/hnsw.cpp:63-66 | a greedy search stays at its entry unless it finds something strictly more similar |
| HnswIndex.SelectNeighbours | src/hnsw.cpp:233-241 | returns the first M of some descending order of the candidates |
| HnswLists.SelectIsTop | src/hnsw.cpp:233-241 | the selection is a best selection of the candidates, filled up to M |
| HnswLists.PrunedIsTop | src/hnsw.cpp:84-94 | pushing a newcomer and pruning keeps a list a best selection of all it was offered |
| HnswLists.TopOfGrown | src/hnsw.cpp:84-94 | the best of a pool's best and a newcomer are the best of the grown pool |
| HnswLists.BackLinkList | src/hnsw.cpp:83-94 | a back-link is put last on a list with room; a list that holds M links (2M on layer 0) keeps that many of them and the newcomer |
| HnswInvariant.BackLinkKeeps | src/hnsw.cpp:78-95 | one back-link keeps the lists in order, changes only that list, and never needs the resize |
| HnswInvariant.BackLinksKeep | src/hnsw.cpp:78-95 | the back-link loop offers the new node to exactly its neighbours |
| HnswInsert.FirstList | src/hnsw.cpp:70-76 | a new node's list is a non-empty best selection, at most M, of other nodes of the layer |
| HnswInsert.LinkLayerKeeps | src/hnsw.cpp:68-97 | linking one layer keeps every list sound and the layer symmetric and connected, and the next entry lies on the layer |
| HnswInsert.LinkLayersKeep | src/hnsw.cpp:68-97 | the same for all layers from the top one down |
| HnswInsert.DescendWithin | src/hnsw.cpp:63-66 | the greedy descent stays among the nodes of each layer |
| HnswRuns.InsertKeeps | src/hnsw.cpp:33-106 | an insertion keeps the whole index invariant and appends one slot with the given data and height |
| HnswRuns.DeleteKeeps | src/hnsw.cpp:115-125 | a deletion keeps the whole index invariant |
| HnswRuns.RunKeeps | src/hnsw.cpp:33-125 | the invariant holds after every run |
| HnswTheorems.GraphWellFormed | src/hnsw.cpp:38-105 | every run: arrays of one length, lists without loops or duplicates, in range, on their layer, at most M long (2M on layer 0); a tallest entry point; no empty layer-0 list with two or more slots |
| HnswTheorems.PruningHistory | src/hnsw.cpp:73-95 | every run: each list holds the best of all it was ever offered, all of it or exactly M (2M on layer 0); offers are mutual and connect each layer |
| HnswTheorems.EntryIsFirstTallest | src/hnsw.cpp:100-105 | every run: the entry point is the earliest of the tallest nodes |
| HnswTheorems.StepKeepsSlots | src/hnsw.cpp:37-53 | no operation changes a stored vector, id, metadata or height, or clears a tombstone |
| HnswTheorems.RunsAgree | src/hnsw.cpp:33-125 | after the same operations both indexes hold the same slots and deletion flags |
| HnswTheorems.MatchesFlatIffReached | src/hnsw.cpp:245-283 | for every run and every beam wide enough for what it reaches: both searches give the same scores for all k of at least 1 if and only if layer 0 connects every live slot to the landing node |
| HnswTheorems.ZeroMatchesFlatIff | src/hnsw.cpp:275-279 | for k = 0 flat search is empty, and HNSW agrees if and only if it reaches nothing live |
| HnswTheorems.MatchesFlatUntilPruned | src/hnsw.cpp:245-283 | corollary: while nothing was pruned and ef covers the slots, the scores agree if and only if k is at least 1 or nothing is live |
| HnswTheorems.SmallRunsMatchFlat | src/hnsw.cpp:86-87 | every run of up to 2M + 1 slots is in that regime, with layer 0 symmetric and connected |
| HnswLost.LastSlotLost | src/hnsw.cpp:86-94 | for any similarity: after 2M + 2 insertions of vectors that make earlier ones more similar than later ones, the last slot is live and no search reaches it |
| HnswLost.LastSlotMissed | src/hnsw.cpp:86-94 | and then even the widest search does not always match a scan |
| LostCosine.SpokesEarlierCloser | kernels/cosine_avx2.cpp:24-52 | cosine similarity orders the spokes that way: vectors with a component of their own and a falling first component, for any square root |
| LostCosine.CosineLosesLast | src/hnsw.cpp:86-94 | with cosine similarity, for every M and every such list of 2M + 2 float vectors: the last slot is live and no search for any query reaches it |
| LostCosine.BoundIsTight | src/hnsw.cpp:86-94 | so 2M + 1 slots is the best possible bound for exactness with cosine similarity |
| HnswDeletion.RunIds | src/hnsw.cpp:43-43 | the slots' ids are those of the accepted insertions, in order |
| HnswDeletion.RunFirstsOnly | src/hnsw.cpp:115-125 | only the first slot of an id is ever tombstoned |
| HnswDeletion.DeletedIff | src/hnsw.cpp:115-135 | is_deleted holds of exactly the ids deleted after an insertion |
| HnswDeletion.ShadowedIff | src/hnsw.cpp:115-135 | an id has a later slot that search may answer although deleted exactly when it was inserted twice and deleted after an insertion |
| HnswDeletion.AnsweredShadow | src/hnsw.cpp:271-281 | in every search an answer carries a deleted id exactly when its slot repeats a deleted earlier slot's id |
| HnswDeletion.NoShadowNoDeletedId | src/hnsw.cpp:271-281 | while no such slot can be reached, no search answers a deleted id, whatever ef and k |
| HnswDeletion.TombstonesHold | src/hnsw.cpp:115-135 | where no id was both inserted twice and deleted after an insertion, no search answers a deleted id |
| HnswDeletion.AnswersDistinct | src/hnsw.cpp:245-283 | with each id inserted at most once no id is answered twice; descending; at most k |
| HnswDeletion.DeletedIdAnsweredIffShadowed | src/hnsw.cpp:117-123 | an exhaustive search answers a deleted id if and only if it can reach such a slot |
| HnswDeletion.PromiseHoldsIff | src/hnsw.cpp:115-135 | over every beam and every k, no search for a query answers a deleted id if and only if it can reach no such slot |
| HnswDeletion.RunPromiseHoldsIff | src/hnsw.cpp:115-135 | the same in terms of the operations of the run |
| HnswSearch.DescentImproves | src/hnsw.cpp:265-268 | the layered descent never lowers the similarity of the current entry |
| HnswSearch.CollectTakesLive | src/hnsw.cpp:271-281 | the collecting loop returns the first k live candidates, or all of them when k is not positive |
| HnswExact.SearchSound | src/hnsw.cpp:245-283 | every answer of every search is a live slot reachable on layer 0 from the landing node, with its own similarity, each slot once, descending, at most k |
| HnswExact.AnswersAreLocallyBest | src/hnsw.cpp:245-283 | for every index, beam and k: of the live slots looked at none left out beats an answer; the layer-0 links of an answer lead to answers, deleted slots, or slots no better than any answer; more slots are looked at than the beam is wide, or all that can be reached |
| HnswExact.DescentLands | src/hnsw.cpp:265-268 | the descent always lands on the same node, however ties are sorted |
| HnswExact.AnswersAreTheReached | src/hnsw.cpp:245-283 | in every index, a wide search's scores are the first k of the ranking of exactly the live slots reachable from the landing node |
| HnswExact.ExactIffReached | src/hnsw.cpp:245-283 | a wide search is exact for every k of at least 1 if and only if every live slot is reachable |
| HnswExact.NothingAnsweredIff | src/hnsw.cpp:275-279 | a search without a limit answers nothing if and only if it reaches nothing live |
| HnswExact.SmallIndexUnpruned | src/hnsw.cpp:86-87 | up to 2M + 1 slots no layer-0 list has lost a link |
| HnswExact.WideSearchFindsReached | src/hnsw.cpp:269-269 | a wide layer-0 search returns exactly the reachable slots with their scores |
| HnswExact.UnprunedAllReached | src/hnsw.cpp:86-94 | while no layer-0 link was pruned every slot is reachable, wherever the search enters |
| HnswExact.ExactUntilPruned | src/hnsw.cpp:245-283 | so then the scores are the first k of the ranking of the live vectors, whether or not the entry point is deleted |
| HnswPaths.ReachedFromEntry | src/hnsw.cpp:254-269 | what a search can reach: with a live entry point, what layer 0 connects to where the descent from it lands; with a deleted one the same from the least live slot; with none live, nothing |
| HnswPaths.SearchPath | src/hnsw.cpp:254-281 | every search: from the entry point, or the least live slot if that is deleted, each layer above 0 is taken to a node its links cannot improve on, and the answers, at most as many as the beam is wide, are connected to the last of these; where nothing is deleted there is an answer, the best at least as similar as the entry point |
| HnswPaths.LinkLayerFills | src/hnsw.cpp:68-97 | linking one layer gives the new node as many of the nodes it can reach as fit, M at most, the best of them when the construction beam covers them; the next layer is entered at the most similar one found |
| HnswPaths.InsertPath | src/hnsw.cpp:55-97 | a whole insertion, for every drawn level: a greedy path from the entry point down to the layers of the new node, and on each of those such a list, entered where the layer above ended |
| HnswIndex.HNSWIndex.constructor | src/hnsw.cpp:16-20 | a new index is empty, and satisfies the invariant when M is at least 1 |
| HnswIndex.HNSWIndex.SetEfSearch | include/hnsw.hpp:57-57 | only the search width changes; the index stays valid |
| HnswIndex.HNSWIndex.SearchOnLayer | src/hnsw.cpp:168-229 | a layer search on the object is a possible result of the relation |
| HnswIndex.HNSWIndex.GreedyDescent | src/hnsw.cpp:63-66 | the descent loop, shared by insert and search, makes the descent relation |
| HnswIndex.HNSWIndex.AppendSlot | src/hnsw.cpp:37-53 | the first lock region appends exactly one unlinked slot |
| HnswIndex.HNSWIndex.AddBackLink | src/hnsw.cpp:78-95 | one back-link region makes the back-link relation: the new node is put last on a list with room; a list of M links (2M on layer 0) keeps that many |
| HnswIndex.HNSWIndex.LinkOnLayer | src/hnsw.cpp:68-97 | search, selection, list and back-links of one layer |
| HnswIndex.HNSWIndex.LinkOnLayers | src/hnsw.cpp:68-97 | the loop over the layers |
| HnswIndex.HNSWIndex.ConnectSlot | src/hnsw.cpp:55-105 | descent, linking and the entry-point update complete the insertion |
| HnswIndex.HNSWIndex.Insert | src/hnsw.cpp:33-111 | rejects a wrong dimension unchanged; otherwise makes an insertion step and keeps the invariant |
| HnswIndex.HNSWIndex.DeleteVector | src/hnsw.cpp:115-125 | makes a deletion step; an unknown id changes nothing |
| HnswIndex.HNSWIndex.IsDeletedId | src/hnsw.cpp:127-135 | reports the tombstone of the first slot with the id |
| HnswIndex.HNSWIndex.LiveSize | src/hnsw.cpp:137-142 | counts the slots without a tombstone |
| HnswIndex.HNSWIndex.FindStart | src/hnsw.cpp:250-262 | a search starts at the entry point, or at the first live slot if that is deleted, or nowhere |
| HnswIndex.HNSWIndex.Search | src/hnsw.cpp:245-288 | fails for a wrong dimension; otherwise returns a possible answer of the relation, at most as many as the beam is wide, and where nothing is deleted one at least as similar as the entry point; changes nothing but the visited buffer |
| HnswIndex.HNSWIndex.CollectLive | src/hnsw.cpp:271-282 | the loop computes the specified collection |
| HnswIndex.HNSWIndex.Save | src/hnsw.cpp:292-327 | writes exactly the index file, which starts with the magic number and version 2 |
| HnswIndex.HNSWIndex.Load | src/hnsw.cpp:329-370 | replaces every field by a complete file's content; a file of four bytes or more that does not start with 20 42 44 4E fails and changes nothing; a file before version 2 leaves the deletion flags as they were, so none in a new index; nothing is promised of a file that ends early |
| HnswIndex.HNSWIndex.Compact | src/hnsw.cpp:144-164 | the file holds a well-formed index of the live slots in order, with layers from the draws; the index stays as it is; the log is empty |
| HnswIndex.HNSWIndex.CopyLive | src/hnsw.cpp:147-157 | inserting the live slots in order yields exactly the survivors |
| Tombstones.Pack | src/hnsw.cpp:310-315 | unpacking the packed 64-bit words gives the flags back |
| Tombstones.OnlyThatFlag | src/hnsw.cpp:314-314 | setting one bit changes no other flag |
| Codec.ManyReadBack | src/hnsw.cpp:301-323 | if each item reads back, so does the concatenation, consuming exactly its bytes |
| Codec.TextReadsBack | src/hnsw.cpp:303-307 | a length-prefixed string reads back, whatever follows it |
| Codec.NodeReadsBack | src/hnsw.cpp:316-323 | a node's nested lists read back, whatever follows them |
| Codec.ReadItems | src/hnsw.cpp:343-347 | a reading loop computes the pure reader, running out of bytes included |
| IndexFile.LoadUndoesSave | src/hnsw.cpp:329-370 | load after save restores every field and consumes exactly the file, when sizes fit their fields |
| IndexFile.RefusedIff | src/hnsw.cpp:334-334 | a file is refused for its magic number if and only if it has four bytes and they are not 20 42 44 4E |
| IndexFile.OldFileLoads | src/hnsw.cpp:349-357 | loading a file of the first version restores every field but the deletion flags, which stay those of the loading index |
| HnswStorage.WidthsSuffice | src/hnsw.cpp:316-323 | for a well-formed index the widths a caller can see imply those inside the graph |
| IndexFile.DecodedFits | src/hnsw.cpp:343-368 | a file can only yield metadata and links that fit their 32-bit fields |
| Formats.Le32Bytes | src/hnsw.cpp:296-299 | words are stored least significant byte first |
| Formats.Le64Bytes | src/hnsw.cpp:299-299 | a long word is its lower half, then its upper half |
| Formats.FixedBytes | src/hnsw.cpp:297-309 | offsets of magic number, version 2, dimension, count, top layer and entry point in a saved file, and the file's length |
| Formats.SlotBytes | src/hnsw.cpp:301-323 | offsets of the id, vector, metadata and node of every slot in a saved file |
| Formats.FlagBits | src/hnsw.cpp:311-315 | the deletion flag of slot i is bit i % 64 of long word i / 64 |
| Formats.FlagWordBytes | src/hnsw.cpp:311-315 | offsets of these long words in a saved file |
| Formats.TextBytes | src/hnsw.cpp:303-307 | a metadata string is its length, then its bytes |
| Formats.ListBytes | src/hnsw.cpp:320-322 | a neighbour list is its length and its ids in order, four bytes each |
| Formats.NodeBytes | src/hnsw.cpp:316-323 | a node is its number of layers, then its lists from layer 0 up |
| HnswStorage.SaveLoadRoundTrip | src/hnsw.cpp:292-370 | load after save restores a well-formed index entirely, consuming exactly the file |
| HnswStorage.RestoresIffWidthsFit | src/hnsw.cpp:292-370 | load after save restores a well-formed index if and only if its sizes fit their fields |
| HnswStorage.SurvivorWidths | src/hnsw.cpp:144-157 | a compacted index fits if the original and the drawn layers do |
| HnswStorage.SurvivorsRankAlike | src/hnsw.cpp:144-157 | rebuilding from the live slots changes no ranking |
| HnswStorage.CompactedFileLoads | src/hnsw.cpp:144-164 | loading the compacted file gives the live ids, vectors and metadata in order, no tombstone, a well-formed graph and the same rankings |
| Concurrent.NoInterference | src/hnsw.cpp:37-105 | a region of one thread never invalidates what another thread holds |
| Concurrent.BackLinkFits | src/hnsw.cpp:78-95 | in any interleaving a back-link never needs the resize and keeps the list within its cap: the newcomer goes last on a list with room, and a list of M links (2M on layer 0) keeps that many |
| Concurrent.ThreadStepKeeps | src/hnsw.cpp:33-106 | every region keeps the shared state in order and only lets it grow |
| Concurrent.ExecutionKeeps | src/hnsw.cpp:33-125 | every reachable state of every interleaving satisfies the invariant |
| Concurrent.NothingLost | src/hnsw.cpp:37-105 | later states only extend earlier ones: no stored vector, id, metadata, height or tombstone is lost |
| Concurrent.ConcurrentSafety | src/hnsw.cpp:33-106 | every reachable state: arrays of one length, links in range and on their layer, lists at most M long (2M on layer 0), entry point of exactly max layer + 1 layers, taller nodes still in flight |
| Concurrent.QuiescentIndex | src/hnsw.cpp:37-105 | with no insertion in flight the entry is tallest and slots correspond one to one to finished insertions, each holding its own data |
| Concurrent.BufferOutgrown | src/hnsw.cpp:175-209 | a concurrent search looks only at existing slots, and at one past its visited buffer only after more slots were added since it began than the buffer had room for |
| Concurrent.NeverStuck | src/hnsw.cpp:55-105 | an unfinished insertion can always take its next region |
| Serial.StepProgress | src/hnsw.cpp:33-106 | each region of an undisturbed thread carries the sequential insertion on |
| Serial.SerialisedIsRun | src/hnsw.cpp:33-125 | where insertions do not overlap, the step system's states are those of the run of its completed operations |
| Schedules.Inserts | src/hnsw.cpp:33-106 | a thread alone can turn the index into any result the sequential insertion allows |
| Schedules.RunIsScheduled | src/hnsw.cpp:33-125 | conversely, every run is what some execution without overlap completes |
| Overlap.WriteListKeepsIff | src/hnsw.cpp:73-76 | the region that writes a new node's list loses a link if and only if the list already held one that was not chosen |
| Overlap.ThirdInserts | src/hnsw.cpp:55-97 | while the second node is linked on layer 1 only, an insertion that lands on it links to it on layer 0 |
| Overlap.SecondFinishes | src/hnsw.cpp:73-105 | the second insertion then writes its list over that link and completes |
| Overlap.OverlapLosesSlot | src/hnsw.cpp:73-76 | an interleaving of three insertions completes and leaves three live slots of which no search, for any query, width or k, answers the third, whenever that is more similar to the second than to the first |
| Overlap.CosineLosesSlot | src/hnsw.cpp:73-76 | the same with cosine similarity and two orthogonal vectors, for any square root |
| Completion.StepCosts | src/hnsw.cpp:33-106 | every region takes something off the thread's remaining work: unseen nodes, queued candidates, pending links, back-links, layers |
| Completion.InsertionsComplete | src/hnsw.cpp:33-106 | while no insertion arrives, the threads of any interleaving take at most a number of regions fixed by the starting state, and stop only when every insertion is done |
| Flat.PartialSort | src/vector_store.cpp:57-58 | the first entries are in order and none of the rest beats them |
| Flat.FrontIsTop | src/vector_store.cpp:56-66 | copying until the first bottom entry gives the first k of the ranking of the kept vectors |
| FlatTop.TopKIff | src/vector_store.cpp:56-67 | the first k of the ranking of the wanted vectors, said without sorting: k at most of them, each once, best first, and one left out only if k others are answered, none of them worse; both directions |
| FlatIndex.TakeTop | src/vector_store.cpp:56-67 | the shared tail returns min(k, kept) different kept vectors, best first, none of the others better |
| FlatIndex.FlatIndex.Insert | src/vector_store.cpp:14-26 | rejects a wrong dimension; otherwise appends a live vector |
| FlatIndex.FlatIndex.DeleteVector | src/vector_store.cpp:28-32 | flags the first vector with the id; an unknown id changes nothing |
| FlatIndex.FlatIndex.Compact | src/vector_store.cpp:34-39 | keeps exactly the live vectors, in order |
| FlatIndex.FlatIndex.Search | src/vector_store.cpp:41-73 | fails for a wrong dimension; otherwise an exact top-k of the live vectors: none left out unless k others are answered, none worse |
| FlatIndex.FlatIndex.SearchFiltered | src/vector_store.cpp:75-105 | an exact top-k, in the same sense, of the live vectors whose metadata passes |
| FlatIndex.CompactKeepsSearches | src/vector_store.cpp:34-39 | compaction leaves the score sequence of every later search unchanged |
| FlatIndex.FilteredIsRebuilt | src/vector_store.cpp:75-105 | a filtered search scores like a plain one on an index of only the live matching vectors |
| Wal.ReadBackIffFits | src/wal.cpp:18-42 | a record reads back unchanged if and only if its lengths fit 32 bits |
| Wal.WholeRecordsMeaning | src/wal.cpp:50-76 | how many records lie wholly inside a prefix of the log |
| Wal.DeletesOnlyDropped | src/wal.cpp:71-75 | whatever bytes are replayed: without a delete callback the deletes are left out, and nothing else |
| Wal.OtherKindsSkipped | src/wal.cpp:71-75 | a whole record of a kind other than 1 and 2 causes no callback and hides none behind it |
| Wal.InsertsCounted | src/wal.cpp:71-75 | the inserts among the logged entries: each as often as it was logged, and nothing else |
| Formats.InsertRecordBytes | src/wal.cpp:18-30 | every field of an insert record at its offset; kind 1 |
| Formats.DeleteRecordBytes | src/wal.cpp:32-42 | every field of a delete record at its offset; kind 2 |
| Wal.TornTail | src/wal.cpp:50-76 | replaying any byte prefix makes the callbacks of exactly the records wholly inside it, in order; without a delete callback, of exactly the inserts among them |
| Wal.WholeLog | src/wal.cpp:44-78 | an undamaged log replays completely, with or without a delete callback |
| Wal.ReplayRepeatsOps | src/wal.cpp:44-78 | on whatever index the callbacks of a torn log are made, they repeat exactly the completely logged operations, in order |
| Wal.RecoveryReplaysPrefix | src/wal.cpp:44-78 | a flat index rebuilt from a torn log is the one after the last completely logged operation |
| Wal.RecoveryWithoutDeletes | include/wal.hpp:33-34 | a flat index rebuilt with the default arguments holds every completely logged vector undeleted, and is the logged one if and only if that has no deleted vector |
| Wal.WAL.AppendInsert | src/wal.cpp:18-30 | appends one insert record |
| Wal.WAL.AppendDelete | src/wal.cpp:32-42 | appends one delete record |
| Wal.WAL.ReadRecord | src/wal.cpp:52-69 | field-by-field reading parses the record, or stops where the source breaks |
| Wal.WAL.Replay | src/wal.cpp:44-78 | the loop makes the callbacks of all whole records up to the first torn one; without a delete callback, those of the inserts among them |
| Wal.WAL.Checkpoint | src/wal.cpp:80-85 | the log is empty and replays to nothing |
| Lru.OrderBounded | src/paged_index.cpp:119-217 | for every trace the order list has no duplicates and stays within the capacity |
| Lru.OneAccess | src/paged_index.cpp:100-217 | for every trace: a read puts its page first, and a missing page costs the last one only when the cache is full; a push takes out its page and nothing else |
| Lru.StackInclusion | src/paged_index.cpp:119-217 | for the same trace the smaller cache's order is a prefix of the larger one's |
| Lru.LargerCacheMissesLess | src/paged_index.cpp:119-217 | a larger budget never causes more misses |
| PageLayout.SlotInsidePage | src/paged_index.cpp:15-17 | a slot lies behind its page's header and inside its page |
| PageLayout.SlotsDisjoint | src/paged_index.cpp:68-76 | slot byte ranges are disjoint and in slot order |
| PageLayout.PushStaysOnPage | src/paged_index.cpp:91-98 | a push onto any file leaves every other page as it was |
| PageLayout.PushAppends | src/paged_index.cpp:91-98 | a push at the end keeps every byte the file held and puts the vector last |
| PageLayout.PushKeepsFile | src/paged_index.cpp:68-98 | after a push the file holds all pushed vectors, on pages headed by their numbers |
| PageLayout.PushKeepsStored | src/paged_index.cpp:68-98 | a push into a file that holds more than the count says keeps all counted vectors and stores its own |
| Formats.PageFileBytes | src/paged_index.cpp:15-98 | in a file of pages every vector and every page number at its offset: pages of 4096 bytes, headers of 8 |
| PageLayout.CoveredPagesStay | src/paged_index.cpp:68-98 | pushing at the end never writes a page the file already covers |
| PageLayout.MappedPageReads | src/paged_index.cpp:197-217 | a slot read through a mapped page is the vector pushed at it |
| PageLayout.ZeroPageReads | src/paged_index.cpp:152-154 | a slot read through a zero buffer is the zero vector |
| PageLayout.ReopenKeepsCountIff | src/paged_index.cpp:44-46 | reopening keeps the count if and only if the store is empty or its last page is full to the last byte |
| PageLayout.ReopenedCount | src/paged_index.cpp:43-46 | after reopening n pushed vectors the count is the vectors per page times n / perPage where vectors fill their pages to the last byte, times (n - 1) / perPage where not |
| PageLayout.CountedIsCovered | src/paged_index.cpp:43-46 | every slot a reopened store counts lies on a page the file covers |
| PageTrace.LengthFromEmpty | src/paged_index.cpp:74-96 | a store filled from empty is as long as its last vector reaches |
| PageTrace.OpenedPagesServed | src/paged_index.cpp:152-162 | for every history, every cached copy of a page the file covered when it was opened is the file's |
| PageTrace.ExactFitNeverStale | src/paged_index.cpp:152-162 | where vectors fill their pages to the last byte, every cached copy of a covered page is the file's, for every history |
| PageTrace.StaleWithoutFit | src/paged_index.cpp:100-115 | with one vector per page, push, read, push leaves a covered page cached as zeros |
| Paged.ReadBackIffMapped | src/paged_index.cpp:152-162 | a read is right if and only if the page is mapped or the vector is zero |
| Paged.ReadBackIffLoadedCovered | src/paged_index.cpp:152-162 | from the history: right if and only if the page's last load found it covered by the pushes made up to then, or the vector is zero |
| Paged.SameSize | src/paged_index.cpp:122-123 | order list and page map always have the same size |
| Paged.PagedVectorStore.constructor | src/paged_index.cpp:11-48 | capacity of at least one page; the count is the whole pages'; the counted slots hold the vectors pushed before the file was closed |
| Paged.Open | src/paged_index.cpp:15-19 | a dimension is refused if and only if its vector does not fit a page |
| Paged.PagedVectorStore.Push | src/paged_index.cpp:68-117 | appends to the file, on a reopened store over what it no longer counts; keeps the counted vectors; drops only its own page from the cache, keeps every cached page equal to the file |
| Paged.PagedVectorStore.EvictLru | src/paged_index.cpp:170-195 | drops exactly the least recently used page |
| Paged.PagedVectorStore.LoadPage | src/paged_index.cpp:119-168 | brings the page to the front, mapped if and only if the file covers it, evicting only when full |
| Paged.PagedVectorStore.Get | src/paged_index.cpp:197-217 | returns the vector pushed at the slot, before or after reopening, if and only if its page is file-backed or the vector is zero; pages the file covered when opened always are; the order follows the access trace |
| Paged.LargerBudgetLoadsLess | src/paged_index.cpp:22-23 | two stores with the same history: the larger budget caches a superset and loaded no more pages |
| Paged.ExactFitServesFile | src/paged_index.cpp:152-162 | in an exact-fit store a cached covered page is the file's |
| Paged.ZeroBufferShown | src/paged_index.cpp:152-154 | a vector just pushed onto a fresh store reads back as zeros |
| Paged.StaleBufferShown | src/paged_index.cpp:100-115 | and stays so after a later push has covered its page |
| InnerProduct.CauchySchwarz | kernels/cosine_naive.cpp:7-19 | the squared dot product is at most the product of the norms |
| InnerProduct.DotWithAxis | kernels/cosine_naive.cpp:8-14 | the inner product with a unit vector along an axis is that component |
| InnerProduct.CosineBounded | kernels/cosine_naive.cpp:7-19 | cosine similarity lies in [-1, 1] and is symmetric |
| InnerProduct.SelfSimilarity | kernels/cosine_naive.cpp:16-18 | self-similarity is 1 if the squared length is at least 1e-12, and 0 if not |
| InnerProduct.FullSimilarityIff | kernels/cosine_naive.cpp:16-18 | similarity is 1 if and only if the vectors have the same direction |
| InnerProduct.ScalingKeepsCosine | kernels/cosine_naive.cpp:16-18 | scaling a vector by any positive factor leaves its similarity to any other as it is, while both products of lengths are at least 1e-12 |
| InnerProduct.L2Expansion | kernels/l2_avx2.cpp:20-40 | squared distance is both norms less twice the dot product |
| InnerProduct.L2IsDistance | kernels/cosine_naive.cpp:21-28 | squared distance is symmetric, non-negative, and zero only between equal vectors |
| InnerProduct.UnitVectorsAgree | kernels/cosine_naive.cpp:7-28 | on unit vectors, squared distance is 2 - 2 cosine |
| Kernels.Hsum256 | kernels/cosine_avx2.cpp:11-22 | the shuffle-and-add reduction is the sum of the eight lanes |
| Kernels.Vaddvq | kernels/cosine_neon.cpp:27-29 | the four-lane reduction is the sum of the lanes |
| Kernels.StridedStep | kernels/cosine_avx2.cpp:30-36 | for any lane count, one strided step carries the lanes' total from the first i products to the first i + width |
| Kernels.CosineNaive | kernels/cosine_naive.cpp:7-19 | the scalar loop computes the guarded cosine: the dot product over the product of the lengths, 0 where that product is below 1e-12 |
| Kernels.L2Naive | kernels/cosine_naive.cpp:21-28 | the scalar loop computes squared distance |
| Kernels.CosineAvx2 | kernels/cosine_avx2.cpp:24-52 | eight lanes, reduction and tail compute the same cosine, with the same guard |
| Kernels.L2Avx2 | kernels/l2_avx2.cpp:20-40 | eight lanes, reduction and tail compute the same distance |
| Kernels.CosineNeon | kernels/cosine_neon.cpp:12-41 | four lanes, reduction and tail compute the same cosine, with the same guard |
| Kernels.L2Neon | kernels/l2_neon.cpp:11-29 | four lanes, reduction and tail compute the same distance |
| Client.Replay | tests/test_deletes.cpp:88-107 | the objects, driven by any list of operations, make a run and its brute-force counterpart |
| Client.SearchBoth | tests/test_deletes.cpp:109-131 | up to 2M + 1 slots both objects answer with the same scores |
| Client.SaveThenLoad | tests/test_hnsw.cpp:126-149 | saving one object and loading into another makes their states equal |
| Client.CompactThenLoad | tests/test_deletes.cpp:135-168 | where the original and the drawn layers fit the file, compacting and loading gives a well-formed object of exactly the live slots with the same rankings, an empty log and an unchanged original |
| Client.LogThenRecover | src/wal.cpp:18-78 | entries appended, the tail cut anywhere, the rest replayed into both objects: the HNSW index is at the end of a run of the completely logged operations, the flat index is after them |
| Client.SearchAroundCompaction | tests/test_deletes.cpp:43-58 | searches before and after compacting the object score alike |
| Client.FilteredAgainstRebuilt | tests/test_filter.cpp:91-131 | a filtered search scores like a plain one on an object rebuilt from the matching live vectors |
| Client.LostSlotShown | src/hnsw.cpp:86-94 | with cosine similarity, for every M up to 2^29 - 2 and every query: after 2M + 2 insertions into both objects the scan answers all, the widest HNSW search misses the last |
| Client.DuplicateIdShown | src/hnsw.cpp:115-135 | id 7 inserted twice and deleted: reported deleted, still answered |

## Left out

- Rounding, NaN and infinities: similarity is an exact real, and `Floats.Value` gives patterns that stand for no number the value 0; the infinity that marks deleted entries in the brute-force index is a separate bottom value.
- The random number generator: the level is any natural number.
- HnswIndex.HNSWIndex.constructor: with M below 1 no list can hold a link, and nothing is promised beyond the empty index.
- `std::sort`, `std::partial_sort` and heap internals: they are specified by order and content; ties may fall either way.
- The flat float buffer `raw_vectors_`: modelled as a sequence of vectors, each of the index's dimension; slot numbers beyond 32 bits are not modelled.
- HnswTheorems.MatchesFlatIffReached: k is a natural number, because the brute-force search has no defined result for negative k; what a beam narrower than the reachable set answers is stated by `HnswExact.AnswersAreLocallyBest`, not by an equality with the scan.
- Concurrent.ConcurrentSafety: no claim about duplicates, loops or pruning history under interleaving: the pruning history is false there, as `Overlap.OverlapLosesSlot` shows, and which overlapping runs keep it is not characterised beyond the single region of `Overlap.WriteListKeepsIff`.
- Concurrent searches and saves: only insertions and deletions are threads of the step system; the per-thread tagged buffer is a mathematical set there, and `Concurrent.BufferOutgrown` says when the buffer would be too short for it.
- HnswIndex.HNSWIndex.Load: on a file that ends early the source carries on with half-read fields; nothing is promised. The history of the loaded links is not in the file and is named by the caller.
- HnswStorage.RestoresIffWidthsFit: for fewer than 2^32 slots, since slot numbers have 32 bits.
- HnswIndex.HNSWIndex.Compact: the random levels of the rebuilt index come from a function passed in.
- Log files that cannot be opened, and appending behind a torn record: replay gives no way to find the next record.
- Paged.PagedVectorStore.Get: the result is the vector, not a pointer into a page that a later eviction may unmap.
- Paged.PagedVectorStore.constructor: of a file that was not filled by pushes alone only the count is stated.
- The mutexes of the page cache, `fsync`, freeing of mappings, the Windows branch and failed system calls.
- `PagedIndex` (src/paged_index.cpp:219-252): the combination of store and graph index.
- `src/filter.cpp`: a filter is any predicate on metadata.
- `src/storage.cpp`, `src/distance.cpp`, `src/cli.cpp`, `python/bindings.cpp`, benchmarks and scripts: dispatch, I/O and measurement.
- OpenMP scheduling of the brute-force scan: its iterations write separate entries.
- Recall percentages and latency.
