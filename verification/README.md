# DBX and Jurix: a verified model

DBX is a multi-tenant database engine in Go with a vector index, a key-value
store and a control plane that places tenants on a node. Jurix is a legal
workspace in Python that keeps its members and its evidence journal on top of it.
This project models the parts of both whose correctness spans many functions or
whole runs, and proves what they promise.

| file | component |
|---|---|
| `Heap`, `Sorting`, `LayerSearch`, `HnswGraph`, `HnswShards` | the HNSW graph: layer search, insertion, search, rebuilding in shards |
| `VectorGraphs`, `ShardMerge` | an index with its eight graphs: what add, delete, compact and open do to them, and the merged search |
| `VectorTable`, `VectorIndex`, `MigrationLog`, `LastRecord`, `Recovery` | the memory-mapped vector index, its shadow migration under log replay, which record decides a row, and when recovery gets through |
| `ScalarQuantization`, `Cosine` | SQ8 rows and their similarity |
| `KeyExpiry`, `Glob` | the sharded key-value store with its expiry heaps, and `KEYS` patterns |
| `SortedSet`, `HashRing`, `Resp`, `RespGrammar` | sorted sets, consistent hashing, the RESP command parser and the grammar it accepts |
| `Placement`, `PlacementPorts`, `PlacementQuotas`, `PlacementRuns`, `Manager`, `SupportWake` | tenants, ports, directories, engines and quotas; the support wake protocol |
| `FirmMembership`, `LoginThrottle`, `EvidenceJournal` | Jurix firms, login throttling, the activity journal |

State that the code updates in place is a class whose methods are proved against a
pure step function; the theorems about runs are about that step function. Scores,
vectors and times are reals, bytes and strings are sequences, hash functions,
similarity, MACs and the level of a row are arbitrary functions given as parameters.
Every operation that holds a lock from beginning to end is one step; the support wake
protocol is modelled section by section and interleaved.

What a run leads to is told from its operations alone:

- an id's vector is that of the last record taken that names it in the table now live (`LastRecord.RowOfLastRecord`), and a search returns only ids whose last record adds them (`VectorGraphs.ShardedIndex.SearchAfter`);
- the quotas that starts reserved for tenants still present add up to at most 70% of the budget (`PlacementQuotas.AdmissionLaw`);
- a role comes from founding the firm, from an open invitation that carries it, or from an active admin (`FirmMembership.EveryRoleGranted`), and an invitation lets in once (`FirmMembership.UsedOnce`);
- journal and records are those of a plain log in which an offer is taken exactly when it extends every list (`EvidenceJournal.RunAmountsTo`);
- a login is refused exactly after ten failures in one window, for 900 seconds (`LoginThrottle.RefusedIff`), and a wake exactly within five minutes of a reservation that was not withdrawn (`SupportWake.RefusedIff`);
- the command reader yields a value exactly for the texts that a grammar gives it (`RespGrammar.CommandIff`).

Where the code does less than one would expect, the model keeps the code and states
exactly when the property holds:

- a glob pattern is decided correctly for every pattern exactly when the subject has no `*` (`Glob.CorrectIffNoStar`);
- a log replayed after any number of crashes is refused nothing exactly when every vector added before its first promotion has the dimension the index now has (`VectorRecovery.RecoveryRestores`); adding, migrating to another dimension and crashing gets stuck (`VectorRecovery.RecoveryRefused`);
- shards find rows by a fast score and the answer is ranked by a final one; whatever the two scores, the answer is the best k of all rows considered exactly when no shard has more accepted rows than it is asked for (`ShardMerge.TwoScoresIff`), so with ten rows asked for an SQ8 search can miss the best row (`ShardMerge.RescoringMisses`, `Cosine.ScoresDisagree`); with one score, as for float32 rows, it also suffices, and otherwise is needed, that each shard is asked for at least k (`ShardMerge.OneScoreIff`), which holds exactly unless rows may be dropped and k is over 256 (`ShardMerge.RetrieveCovers`, `ShardMerge.CappedMisses`);
- reaping is exact exactly while every deadline is scheduled (`KeyExpiry.ExactIffComplete`), and `INCR` keeps that exactly unless the key has a deadline (`KeyExpiry.KVStore.Incr`);
- two tenants come to share a directory exactly when a tenant is provisioned whose default directory is already held (`Placement.RunDirs`), and a promote, a delete and a provision get there (`PlacementRuns.DirectoryShared`);
- a port is held twice exactly when a provision hands out one that is held or one port for two uses (`PlacementPorts.RunPorts`), and about a thousand tenants that come and go get there (`PlacementRuns.PortShared`);
- replica links stay inverse exactly when no delete ends early between two removals (`Placement.RunLinks`), as one can (`PlacementRuns.ReplicaStranded`);
- a hibernated tenant gets a live engine in exactly two ways (`PlacementRuns.RunAsleep`), both reachable (`PlacementRuns.HibernatedRuns`, `PlacementRuns.UnsavedWakeMarks`), and a live engine escapes memory admission in exactly one (`PlacementRuns.RunCovered`);
- the order in which nodes join a hash ring matters exactly when their points collide (`HashRing.OrderMattersIffCollision`);
- a journal rolled back together with its old head verifies (`EvidenceJournal.RollbackVerifies`), so the head is what protects it.

`dafny verify dfyconfig.toml` checks everything.

## Model

| member | source | states |
|---|---|---|
| `BinaryHeap.SiftUp` | internal/engine/hnsw.go:393-402 | a heap that is right except above one place becomes a heap of the same elements |
| `BinaryHeap.SiftDown` | internal/engine/hnsw.go:404-421 | a heap that is right except below its root becomes a heap of the same elements |
| `BinaryHeap.Push` | internal/engine/hnsw.go:376-379 | the heap order holds and exactly one element was added |
| `BinaryHeap.Pop` | internal/engine/hnsw.go:381-391 | the element taken is least among all, the rest is a heap of the others |
| `BinaryHeap.RootIsLeast` | internal/engine/hnsw.go:393-421 | parent order alone makes the root least among all elements |
| `Sorting.SortBy` | internal/orchestrator/hashring.go:35-47 | the result is sorted by the key and a permutation of the input |
| `LayerSearch.SearchScratch.Reset` | internal/engine/hnsw.go:117-135 | after a reset nothing counts as visited, also when the stamp wraps around |
| `LayerSearch.SearchScratch.Mark` | internal/engine/hnsw.go:137-158 | marking reports whether the row was marked before and adds exactly that row to the marked set; negative ids always count as seen |
| `LayerSearch.Offer` | internal/engine/hnsw.go:535-543 | a scored row enters both heaps or is rejected so that the kept rows stay the ef best of all scored rows |
| `LayerSearch.Expand` | internal/engine/hnsw.go:527-544 | after an expansion every neighbour of the current row has been scored, and only reachable rows have |
| `LayerSearch.Seed` | internal/engine/hnsw.go:508-516 | the usable entry points, each once, are scored, kept and queued |
| `LayerSearch.Trim` | internal/engine/hnsw.go:517-519 | at most ef rows are kept and they are the best of the entry points |
| `LayerSearch.Explore` | internal/engine/hnsw.go:521-545 | the loop ends, and then every kept row has had all its neighbours scored |
| `LayerSearch.Drain` | internal/engine/hnsw.go:547-557 | the result holds exactly the kept rows that pass the filter, distinct, best first |
| `LayerSearch.SearchLayer` | internal/engine/hnsw.go:504-558 | on any graph the search ends with exactly the ef best of the rows it scored, closed under neighbours; with ef at least the number of reachable rows it returns all of them; results are distinct, filtered and in descending order |
| `LayerSearch.PushKeepsBest` | internal/engine/hnsw.go:536-541 | pushing an improving row keeps the kept rows best among all scored ones |
| `LayerSearch.SearchEnds` | internal/engine/hnsw.go:521-526 | stopping at a candidate worse than the worst kept row leaves no kept row unexpanded |
| `LayerSearch.KeptAreBest` | internal/engine/hnsw.go:521-557 | the kept rows are the ef best of the scored rows and closed under neighbours |
| `LayerSearch.ClosedHoldsReachable` | internal/engine/hnsw.go:504-558 | a set holding the entry points and closed under edges holds every reachable row |
| `LayerSearch.SearchIsExhaustive` | internal/engine/hnsw.go:504-558 | with room for every reachable row the search returns exactly the reachable rows |
| `HnswGraph.SearchPosition` | internal/engine/hnsw.go:329-332 | in an ordered list the binary search finds the place that keeps descending similarity |
| `HnswGraph.InsertNeighbor` | internal/engine/hnsw.go:320-343 | on any list: no new self edge, no repetition added, length within the limit, rows dropped only from a full list; on an ordered list it stays ordered, the candidate is in or was crowded out by closer ones, and dropped neighbours are no closer than any that stayed |
| `HnswGraph.SelectClosest` | internal/engine/hnsw.go:345-367 | the chosen neighbours are the best of the candidates other than the row itself, distinct, best first, fewer than the limit only if there are no more, and the first candidate comes first |
| `HnswGraph.ReachStaysOnLayer` | internal/engine/hnsw.go:504-558 | in a valid graph a search on a layer only ever reaches rows that exist on that layer, and never the row being inserted |
| `HnswGraph.WithEdgesOk` | internal/engine/hnsw_persist.go:121-158 | replacing one adjacency list by an admissible one keeps every condition of the validity check, and order and absence of repetitions where they held |
| `HnswGraph.Link` | internal/engine/hnsw.go:212-230 | linking one layer keeps the check and gives the row its chosen edges; other lists gain at most the row and lose rows only when full; if the lists were ordered they stay so, lose their farthest rows, and each neighbour links back or has 64 (above the base layer 16) closer rows |
| `HnswGraph.Neighbours` | internal/engine/hnsw.go:200-211 | a search for neighbours never comes back empty, only finds rows of that layer, and finds exactly the best of the reachable rows it scored |
| `HnswGraph.Descend` | internal/engine/hnsw.go:191-197 | the descent ends at a row of the layer where linking starts: the entry point, or a row none of whose neighbours on the last layer passed is closer |
| `HnswGraph.LinkLayers` | internal/engine/hnsw.go:200-235 | all layers from the shared top down to the base are linked, each to the nearest rows a search from the nearest row of the layer above keeps |
| `HnswGraph.LinkingStep` | internal/engine/hnsw.go:200-235 | linking one more layer keeps what the layers above have established |
| `HnswGraph.ChoosingStep` | internal/engine/hnsw.go:200-235 | linking a layer leaves the layers below as they were, gives the row the 32 nearest of 200 kept (16 of 16 above the base layer), and costs other rows only their farthest neighbours |
| `HnswGraph.LinksToNearest` | internal/engine/hnsw.go:200-216 | while no more rows can be reached than a search keeps, a new row is linked to the nearest of all reachable rows |
| `HnswGraph.KeptIsLocalBest` | internal/engine/hnsw.go:191-197 | a search that keeps one row ends at a row none of whose neighbours scores better |
| `HnswGraph.AddEmptyLayers` | internal/engine/hnsw.go:237-242 | layers above the old top get empty lists and no edge changes |
| `HnswGraph.AttachAndLink` | internal/engine/hnsw.go:169-247 | the new row is attached, linked on each shared layer with at least one edge, and nothing else changed |
| `HnswGraph.InsertKeepsCheck` | internal/engine/hnsw_persist.go:121-158 | a linked row leaves a graph that passes the validity check for one row more, with the entry point on the top layer |
| `HnswGraph.Graph.Insert` | internal/engine/hnsw.go:160-247 | inserting a fresh row keeps the validity check and the entry point on top, whatever the order of the lists; on each layer it shares the row is linked to the 32 (above the base layer 16) nearest rows its search kept, starting from where the descent ended; lists without repetitions or in order stay so, and then its neighbours link back or are full of closer rows |
| `HnswGraph.Graph.Search` | internal/engine/hnsw.go:269-309 | the answer is the exact top k, filtered, of the pool the base search kept from the entry point or a local best of layer 1; the pool is everything reachable when that fits the breadth asked for, or else configured, or else 80, or k |
| `HnswGraph.CutIsTopK` | internal/engine/hnsw.go:303-308 | cutting a descending list of distinct rows to k leaves the k best |
| `HnswShards.ExpectedSizesAddUp` | internal/engine/vector.go:196-222 | the expected shard sizes add up to the row count |
| `HnswShards.TotalSoFar` | internal/engine/vector.go:196-205 | the first shards hold their even share plus the remainder so far |
| `HnswShards.AddRow` | internal/engine/vector.go:234-241 | the next row of a shard leaves a graph that passes the check for its larger share |
| `HnswShards.BuildShard` | internal/engine/vector.go:229-242 | a rebuilt shard passes the check for exactly its stored rows, holds exactly these, ordered, with its entry point on top |
| `HnswShards.SharesAreValid` | internal/engine/vector.go:203-222 | eight graphs with their shares pass the check on loaded shards |
| `HnswShards.RebuildGraph` | internal/engine/vector.go:225-245 | rebuilt graphs hold exactly the rows the file holds, and pass the check for the counted rows exactly when the file holds them all |
| `VectorGraphs.AllStored` | internal/engine/vector.go:145-152 | an index never counts more rows than its file holds |
| `VectorGraphs.FillShard` | internal/engine/vector.go:971-983 | inserting a range of new rows gives one shard exactly its share of them |
| `VectorGraphs.ShardedIndex.constructor` | internal/engine/vector.go:168-178 | an opened index has graphs that pass the check for its row count |
| `VectorGraphs.ShardedIndex.Rebuild` | internal/engine/vector.go:225-245 | rebuilding from a valid index always yields graphs that pass the check for its row count, all lists ordered |
| `VectorGraphs.ShardedIndex.InsertRows` | internal/engine/vector.go:966-987 | inserting the rows an index has gained brings the graphs up to its row count |
| `VectorGraphs.ShardedIndex.Add` | internal/engine/vector.go:799-874 | after an add, refused or not, the live map is as specified and the graphs pass the check for the row count |
| `VectorGraphs.ShardedIndex.AddBatch` | internal/engine/vector.go:877-988 | the same for a batch, whose new rows are spread over the shards |
| `VectorGraphs.ShardedIndex.Del` | internal/engine/vector.go:1064-1086 | a delete leaves graphs that still pass the check, the dead row included |
| `VectorGraphs.ShardedIndex.Compact` | internal/engine/vector.go:1124-1178 | a compaction keeps the live map and leaves graphs that pass the check for the remaining rows |
| `VectorGraphs.RowsSpreadOut` | internal/engine/vector.go:189-194 | row number r is in graph r modulo 8 and in no other |
| `VectorGraphs.ShardedIndex.Replay` | internal/engine/vector.go:799-1178 | any sequence of adds, batches, deletes and compactions leaves the live map of the log machine and valid graphs |
| `ShardMerge.RetrieveCovers` | internal/engine/vector.go:1248-1262 | at least k rows are asked of each shard exactly unless rows may be dropped and k is over 256 |
| `ShardMerge.RetrieveIs` | internal/engine/vector.go:1248-1262 | ten rows or k are asked of each shard, and where rows may be dropped eight times k between 32 and 256 |
| `ShardMerge.MergedTopK` | internal/engine/vector.go:1298-1331 | found and ranked by one score, as for float32 rows, and asked for at least k rows each, the best k of what the shards return are the best k of everything they considered, minimum score included |
| `ShardMerge.RescoredTopK` | internal/engine/vector.go:1294-1331 | whatever the fast and the final score, the answer is the best k by the final one of everything considered if no shard has more accepted rows than it is asked for |
| `ShardMerge.TwoScoresIff` | internal/engine/vector.go:1270-1331 | for all pairs of scores at once that condition is also necessary |
| `ShardMerge.OneScoreIff` | internal/engine/vector.go:1270-1331 | with one score the exact condition is that each shard is asked for at least k rows or has no more than it is asked for |
| `ShardMerge.RescoringMisses` | internal/engine/vector.go:1298-1304 | for every k, with eight shards and nothing dropped, some pair of scores makes the search miss a row its shard held back |
| `Cosine.ScoresDisagree` | internal/engine/hnsw.go:572-603 | a query and two SQ8 rows that the quantized and the float score rank in opposite order |
| `ShardMerge.LeftOutBeaten` | internal/engine/vector.go:1294-1331 | with one score a row its shard held back is beaten by k rows that came in |
| `ShardMerge.CappedMisses` | internal/engine/vector.go:1254-1262 | with eight shards, a minimum score and k over 256 each shard is asked for 256 rows, and even with one score the search can miss a row |
| `VectorGraphs.PickBest` | internal/engine/vector.go:1309-1329 | walking down a sorted list with repetitions gives the k best good rows, each once |
| `VectorGraphs.Rescore` | internal/engine/vector.go:1294-1307 | the rows found are kept, scored anew and sorted best first |
| `VectorGraphs.ShardedIndex.AskShards` | internal/engine/vector.go:1270-1293 | every shard returns the exact top rows of its pool, which is everything reachable when the breadth allows it |
| `VectorGraphs.ShardedIndex.Search` | internal/engine/vector.go:1208-1332 | refuses exactly a query of another dimension; every hit is a live id that passes the filter, is not excluded and scores at least the minimum, with its final score; hits are the exact best k by the final score among all rows the shards returned, best first; and among all rows they considered if no shard has more accepted rows than asked for, or the scores agree and each is asked for at least k |
| `VectorGraphs.AcceptedIff` | internal/engine/vector.go:1237-1246 | a row is accepted exactly when it is stored, its id is live, and neither filter nor exclusion keeps it out |
| `VectorGraphs.ShardedIndex.SearchAfter` | internal/engine/vector.go:1208-1332 | after any commands a search returns an id only if the last command taken that names it adds it, or none names it and it was there: from its delete until it is added again no search returns it |
| `VectorTable.WithRowAt` | internal/engine/vector_encoding.go:51-59 | writing a row changes the bytes of that row and of no other |
| `VectorTable.GrownTable` | internal/engine/vector.go:368-405 | growing the mapped bytes keeps every stored row |
| `VectorTable.AppendedTable` | internal/engine/vector.go:846-857 | appending a new id adds exactly its row to the live map, keeps idMap and idList inverse and live rows at odd generations |
| `VectorTable.OverwrittenTable` | internal/engine/vector.go:837-857 | overwriting or reviving an id changes exactly its row in the live map |
| `VectorTable.DeletedTable` | internal/engine/vector.go:1074-1079 | a tombstone removes exactly one id from the live map and makes its generation even |
| `VectorTable.KeptAt` | internal/engine/vector.go:1139-1148 | a live row lands at the number of live rows before it |
| `VectorTable.KeptFrom` | internal/engine/vector.go:1139-1148 | every row after compaction comes from a live row before it |
| `VectorTable.CompactedTable` | internal/engine/vector.go:1134-1163 | moving the live rows up leaves the live map and generation parity unchanged |
| `VectorIndexing.VectorIndex.EnsureCapacity` | internal/engine/vector.go:368-405 | the mapping is large enough and no row changed |
| `VectorIndexing.VectorIndex.Upsert` | internal/engine/vector.go:837-857 | the id's row becomes exactly the encoded vector and no other row of the live map changes; arrays and map stay consistent |
| `VectorIndexing.VectorIndex.Add` | internal/engine/vector.go:814-873 | accepts exactly a valid vector of the index dimension, and then the id's row is exactly the encoded vector |
| `VectorIndexing.VectorIndex.AddBatch` | internal/engine/vector.go:908-965 | an accepted batch equals the fold of single adds: each id has the last vector given for it, encoded; a refused one changes nothing |
| `VectorIndexing.VectorIndex.Del` | internal/engine/vector.go:1064-1086 | reports whether the id was live and removes exactly it |
| `VectorIndexing.VectorIndex.CollectLiving` | internal/engine/vector.go:1139-1148 | collects ids, generations and rows of exactly the live entries, in order, and counts the dead ones |
| `VectorIndexing.VectorIndex.Replace` | internal/engine/vector.go:1152-1162 | writing the collected rows from the front gives a compacted index |
| `VectorIndexing.VectorIndex.Compact` | internal/engine/vector.go:1124-1178 | the live map is unchanged, order and generations of live rows are kept, nothing dead remains, and the result is the number of dead rows |
| `VectorIndexing.VectorIndex.StartMigration` | internal/engine/vector_migration.go:21-55 | takes the start step of the migration machine |
| `VectorIndexing.VectorIndex.InsertShadowVector` | internal/engine/vector_migration.go:57-111 | takes the shadow-add step; accepts exactly valid vectors of the shadow dimension while migrating |
| `VectorIndexing.VectorIndex.ShadowUpsert` | internal/engine/vector_migration.go:72-97 | sets one row of the shadow to exactly the encoded vector and leaves no tombstones |
| `VectorIndexing.VectorIndex.SwapMigration` | internal/engine/vector_migration.go:113-172 | takes the swap step: the shadow becomes the index exactly when it holds rows |
| `VectorIndexing.VectorIndex.CancelMigration` | internal/engine/vector_migration.go:174-199 | takes the cancel step |
| `VectorIndexing.VectorStore.GetOrCreate` | internal/engine/vector.go:580-607 | a missing index is created empty, an existing one is kept |
| `VectorIndexing.VectorStore.VAdd` | internal/engine/vector.go:799-874 | takes the add step of the log machine: accepted exactly for an id of at most 512 characters and a vector of at most 4096 coordinates and the right dimension, and then the id's row is the encoded vector; no other row changes |
| `VectorIndexing.VectorStore.VAddBatch` | internal/engine/vector.go:877-988 | takes the batch step of the log machine: accepted exactly when empty or well-formed, and then each id's row is the last vector given for it, encoded; no other row changes |
| `VectorIndexing.VectorStore.VDel` | internal/engine/vector.go:1064-1086 | takes the delete step of the log machine: exactly that id has no row afterwards; reports whether it was live |
| `VectorIndexing.VectorStore.VCompact` | internal/engine/vector.go:1124-1178 | leaves live table and shadow alone; returns the number of dead rows |
| `VectorIndexing.VectorStore.VMigrateStart` | internal/engine/vector.go:453-460 | refused exactly for an unknown encoding or rows without bytes; the same migration goes on with its rows, another begins with none; the live table stays |
| `VectorIndexing.VectorStore.VMigrateAdd` | internal/engine/vector.go:463-473 | accepted exactly for a valid vector of the shadow dimension while migrating, and then the shadow's row is the encoded vector; the live table stays |
| `VectorIndexing.VectorStore.VMigrateSwap` | internal/engine/vector.go:476-486 | the shadow becomes the live table; refused exactly without an index or for an empty shadow; nothing happens without a migration |
| `VectorIndexing.VectorStore.VMigrateCancel` | internal/engine/vector.go:489-499 | the shadow is gone and the live table stays; refused exactly without an index |
| `VectorIndexing.VectorStore.Replay` | internal/engine/vector_migration.go:21-199 | the imperative index after any commands is the log machine after them, every id with the row of its last record |
| `VectorIndexing.VectorStore.Recover` | internal/persistence/recovery.go:79-90 | the replay loop gets through exactly when no record is refused, and then has run the whole log |
| `VectorIndexing.VectorStore.RunCrashRecover` | internal/persistence/recovery.go:79-90 | the imperative index run on part of a log, crashed and recovered holds the live contents of one clean run whenever recovery gets through, which it does exactly when the log adds no vector of another dimension before its first promotion |
| `VectorRecovery.ReplayTakenIff` | internal/persistence/recovery.go:79-168 | for every log that was taken once and every crash in it, rows not yet listed on disk lost or not: the whole log is taken again exactly when every vector added before its first promotion has the dimension the index has after the crash |
| `VectorRecovery.RecoveryRestores` | internal/persistence/recovery.go:79-168 | after any number of crashed recoveries the next one gets through under exactly this condition, and then restores the live rows, dimension and encoding |
| `VectorRecovery.RecoversBeforePromotion` | internal/persistence/recovery.go:79-168 | if no attempt so far reached a promotion the next recovery gets through |
| `VectorRecovery.RecoveryRefused` | internal/persistence/recovery.go:124-132 | add a vector, migrate to another dimension, crash: the log was taken, its replay is not |
| `VectorRecovery.SameAnswer` | internal/engine/vector_migration.go:21-199 | a record once taken is refused from a state with the same shadow exactly when it adds vectors of another dimension |
| `MigrationLog.CrashReplay` | internal/engine/vector_migration.go:21-199 | for every log and every prefix, refused commands changing nothing: running the prefix, losing the shadow and any rows the prefix touched, and running the whole log gives the same live rows, dimension and encoding as running the log once |
| `MigrationLog.RepeatedCrashReplay` | internal/engine/vector_migration.go:21-199 | the same for any number of such crashes at any points |
| `MigrationLog.CrashIsOne` | internal/engine/vector.go:290-293 | a crash that loses only the shadow is among the crashes considered |
| `MigrationLog.StepShadow` | internal/engine/vector_migration.go:21-199 | what happens to the shadow, and whether a swap promotes it, depends on the shadow alone |
| `MigrationLog.StepFrame` | internal/engine/vector.go:799-1086 | a step that neither names an id nor promotes leaves that id's row alone |
| `MigrationLog.StepDecides` | internal/engine/vector.go:799-1086 | a step that names an id decides its row whatever was stored before |
| `MigrationLog.PutAllDecides` | internal/engine/vector.go:908-965 | a batch decides the row of every id in it, the last occurrence winning |
| `MigrationLog.CaughtUpStep` | internal/engine/vector_migration.go:21-199 | the replay stays in step with the clean run on every id already replayed |
| `MigrationLog.RunShape` | internal/engine/vector.go:580-607 | dimension and encoding are fixed from the first creation until a promotion |
| `LastRecord.RowOfLastRecord` | internal/engine/vector_migration.go:21-199 | after any log, refused commands and promotions included, the live row of an id is the encoded vector of the last record taken that names it in the table now live, shadow adds before the swap included; there is none if that record is a delete |
| `LastRecord.LiveIffAdded` | internal/engine/vector.go:799-1086 | starting from nothing an id is live exactly when that record exists and is no delete |
| `LastRecord.TakenLeaves` | internal/engine/vector.go:856-856 | a taken add, batch or delete leaves exactly its own row under each id it names |
| `LastRecord.PutAllLeaves` | internal/engine/vector.go:908-965 | a batch leaves under each of its ids the last vector given for it, encoded |
| `LastRecord.ShadowLeaves` | internal/engine/vector_migration.go:57-111 | what each record does to the shadow's row of an id |
| `LastRecord.BatchTaken` | internal/engine/vector.go:877-906 | a batch is taken exactly when it has 1 to 1000 vectors of the index dimension, at most 4096, with ids of 1 to 512 characters |
| `LastRecord.StartMigrates` | internal/engine/vector_migration.go:21-55 | exactly when a migration is refused, goes on or begins anew, and with which rows |
| `ScalarQuantization.NeverClamped` | internal/engine/vector.go:1502-1531 | the scaled coordinate rounds into -127..127, so the clamp never fires |
| `ScalarQuantization.DecodedNear` | internal/engine/vector.go:1538-1545 | each decoded coordinate is within half a scale step of the original |
| `ScalarQuantization.RequantizeIsIdentity` | internal/engine/vector.go:1470-1545 | encoding a decoded row gives back the same integers and scale, zero vector included |
| `ScalarQuantization.LargestCoordinate` | internal/engine/vector.go:1502-1511 | the loop finds the largest absolute coordinate |
| `ScalarQuantization.QuantizeVector` | internal/engine/vector.go:1502-1531 | the loop computes the scale, the rounded row and the norm of what will be decoded |
| `Cosine.Int8Dot` | internal/engine/hnsw.go:651-687 | the unrolled loop gives the plain dot product modulo 32 bits, and the dot product itself up to 131071 coordinates |
| `Cosine.WrapsBeyond` | internal/engine/hnsw.go:651-687 | for arbitrary int8 rows 131072 coordinates can wrap, so that bound is tight |
| `Cosine.CauchySchwarz` | internal/engine/hnsw.go:623-640 | the square of the integer dot product is at most the product of the rows' own dot products |
| `Cosine.DecodedSchwarz` | internal/engine/hnsw.go:623-640 | the same after scaling, against the stored reconstruction norms |
| `Cosine.InnerOfDecoded` | internal/engine/hnsw.go:623-640 | the scaled integer dot product is the inner product of the decoded rows |
| `Cosine.ScoreIsCosine` | internal/engine/hnsw.go:605-649 | the score made from cached inverse norms is the inner product of the decoded rows over the product of their lengths, 0 for a zero row, and lies in [-1, 1] |
| `KeyExpiry.ReapShard` | internal/engine/kv.go:363-387 | one shard gives up exactly its due and scheduled keys, or as many as the limit leaves |
| `KeyExpiry.ReapAll` | internal/engine/kv.go:363-387 | over all shards the limit counts globally: min(limit, due) keys go, or all of them without a limit |
| `KeyExpiry.PopStep` | internal/engine/kv.go:366-384 | popping an item removes its key only if it is the key's current incarnation, and loses no other schedule |
| `KeyExpiry.NothingDue` | internal/engine/kv.go:368-371 | when the earliest deadline is in the future nothing is due |
| `KeyExpiry.ReapsIff` | internal/engine/kv.go:363-387 | a key can be reaped exactly when it exists, is due and has its own heap item |
| `KeyExpiry.ReapsExactlyTheDue` | internal/engine/kv.go:363-387 | while every deadline is scheduled, which every operation keeps but an `INCR` of a key with a deadline, the reaper finds exactly the keys with 0 < deadline <= now |
| `KeyExpiry.ExactIffComplete` | internal/engine/kv.go:363-387 | reaping finds exactly the due keys at every moment exactly when every deadline is scheduled |
| `KeyExpiry.AnsweredAndReaped` | internal/engine/kv.go:30-33 | a key is both still answered and already reapable at its deadline and at no other moment |
| `KeyExpiry.KVStore.Set` | internal/engine/kv.go:95-124 | sets one key with a fresh version and deadline, keeps every due key findable |
| `KeyExpiry.KVStore.Put` | internal/engine/kv.go:95-124 | the same with the deadline given |
| `KeyExpiry.KVStore.Get` | internal/engine/kv.go:127-136 | returns the entry exactly when it exists and is not past its deadline |
| `KeyExpiry.KVStore.DeleteKey` | internal/engine/kv.go:163-176 | removes exactly one key and reports whether it was there |
| `KeyExpiry.KVStore.Expire` | internal/engine/kv.go:193-209 | refuses missing or expired keys, deletes on a non-positive time, otherwise gives a new deadline and version |
| `KeyExpiry.KVStore.Persist` | internal/engine/kv.go:229-242 | clears the deadline of a live key that has one and keeps its version |
| `KeyExpiry.KVStore.Rename` | internal/engine/kv.go:324-339 | moves value and remaining life to the new key; the old key goes even when the life ran out in between |
| `KeyExpiry.KVStore.FlushAll` | internal/engine/kv.go:302-311 | no key remains and later reaping stays exact |
| `KeyExpiry.KVStore.Incr` | internal/engine/string.go:57-82 | fails without a trace exactly on a live value that is no integer; otherwise a live key keeps its deadline and loses its schedule, so that reaping stays exact exactly unless it had a deadline; a missing or expired key starts anew without one |
| `KeyExpiry.KVStore.DeleteExpiredLimit` | internal/engine/kv.go:363-387 | removes only due keys, all of them without a limit and min(limit, due) with one, and touches nothing else |
| `Glob.GlobMatch` | internal/engine/kv.go:435-459 | the backtracking loop ends and decides the matcher's recursive reading for all inputs |
| `Glob.MatchGlob` | internal/engine/kv.go:428-433 | accepts only declarative matches, and exactly those when the subject has no `*` |
| `Glob.AcceptsIsSound` | internal/engine/kv.go:435-459 | whatever the matcher accepts the pattern declaratively matches |
| `Glob.AcceptsIsComplete` | internal/engine/kv.go:435-459 | without `*` in the subject every declarative match is accepted |
| `Glob.CorrectIffNoStar` | internal/engine/kv.go:428-459 | a subject is decided correctly for all patterns exactly when it has no `*` |
| `Glob.RefusedPattern` | internal/engine/kv.go:440-443 | for every subject with a `*` there is a matching pattern that is refused |
| `Glob.LaterAttempts` | internal/engine/kv.go:447-450 | a match that an older star could still find is found from the newest one |
| `Glob.NewStar` | internal/engine/kv.go:444-446 | forgetting the older star when a new one is met loses nothing |
| `SortedSet.ZSet.InsertSorted` | internal/engine/zset.go:28-39 | a new pair goes where the slice stays strictly ordered and lists exactly one pair more |
| `SortedSet.ZSet.RemoveSorted` | internal/engine/zset.go:41-51 | given a listed member's score the binary search always finds it; exactly that pair goes |
| `SortedSet.ZSet.ZAdd` | internal/engine/zset.go:86-103 | in whatever order the members are taken, the scores are merged, the slice lists them in order, and the result counts the new members |
| `SortedSet.ZSet.ZRem` | internal/engine/zset.go:106-121 | removes exactly the named members and counts those that were there |
| `SortedSet.ZSet.ZIncrBy` | internal/engine/zset.go:213-227 | adds to the score, or to zero for a new member, and moves the pair |
| `SortedSet.ZSet.ZRank` | internal/engine/zset.go:135-147 | the rank is the number of pairs smaller by (score, member) |
| `SortedSet.ZSet.ZRevRank` | internal/engine/zset.go:150-158 | rank and reverse rank add up to the size less one |
| `SortedSet.ZSet.ZRange` | internal/engine/zset.go:161-184 | returns, in order, exactly the pairs whose rank lies between the bounds, negative bounds counting from the end |
| `SortedSet.ZSet.ZRangeByScore` | internal/engine/zset.go:187-200 | returns exactly the pairs scored within the bounds, in order |
| `SortedSet.Search` | internal/engine/zset.go:30-35 | the search finds the split between pairs before and not before the one sought |
| `SortedSet.PositionIsRank` | internal/engine/zset.go:135-147 | a pair's position in an ordered slice is the number of smaller pairs of the score map |
| `SortedSet.OneOrder` | internal/engine/zset.go:86-103 | the score map alone decides the slice, whatever the history |
| `SortedSet.OrderedIff` | internal/engine/zset.go:28-35 | pairs are in order exactly when scores do not fall and equal scores are sorted by member |
| `SortedSet.LessIff` | internal/engine/zset.go:28-35 | a member comes before another exactly when it is a proper prefix or smaller at the first difference |
| `SortedSet.SliceIsRanked` | internal/engine/zset.go:161-184 | a slice of the ordered pairs holds exactly the pairs with these ranks |
| `SortedSet.SearchHits` | internal/engine/zset.go:41-51 | the search for a listed pair stops on it |
| `HashRing.Ring.AddNode` | internal/orchestrator/hashring.go:35-47 | the ring stays sorted; the node owns each of its points, even if another node had it, and nothing else changes hands |
| `HashRing.Ring.GetNode` | internal/orchestrator/hashring.go:50-71 | the node returned owns the first point at or after the key's hash, wrapping around; none if the ring is empty |
| `HashRing.AddingMovesKeysToNewNodeOnly` | internal/orchestrator/hashring.go:35-71 | for every hash function, collisions and wrap-around included, a key stays or moves to the added node |
| `HashRing.OrderMattersIffCollision` | internal/orchestrator/hashring.go:35-47 | adding two nodes in either order gives the same ring exactly when they share no point |
| `HashRing.SearchFindsSuccessor` | internal/orchestrator/hashring.go:57-67 | the binary search lands on the clockwise successor |
| `Resp.RespParser.ReadLine` | internal/protocol/parser.go:124-139 | consumes exactly one line and drops its ending |
| `Resp.RespParser.ReadInt` | internal/protocol/parser.go:112-122 | consumes one line and yields its integer, or fails |
| `Resp.RespParser.ReadBulkString` | internal/protocol/parser.go:84-110 | consumes exactly one bulk string with its length check and ending |
| `Resp.RespParser.ReadArray` | internal/protocol/parser.go:55-82 | consumes the announced number of bulk strings |
| `Resp.RespParser.ReadInline` | internal/protocol/parser.go:141-157 | splits one line at spaces |
| `Resp.RespParser.ReadCommand` | internal/protocol/parser.go:37-53 | consumes exactly one command in either form |
| `Resp.RoundTrip` | scripts/realworld_benchmark.js:29-36 | parsing an encoded command gives back its arguments and leaves exactly the bytes after it |
| `Resp.PipelineRoundTrip` | internal/protocol/parser.go:37-139 | any pipeline of commands within the limits comes back in order with nothing lost between them |
| `Resp.NoPrefixIsACommand` | internal/protocol/parser.go:37-139 | no strict prefix of an encoded command parses as a command |
| `Resp.ParseIntDecimal` | internal/protocol/parser.go:112-122 | reading a decimal line gives the number and the remaining bytes |
| `Resp.CutNumber` | internal/protocol/parser.go:112-139 | a length line cut short leaves nothing behind it to read |
| `RespGrammar.CommandIff` | internal/protocol/parser.go:37-157 | the reader yields a command and a rest exactly when the input is a text of that command followed by the rest: a star, the count on a line and that many bulk strings, or a line of words; so no input can be read in two ways |
| `RespGrammar.LineIff` | internal/protocol/parser.go:124-139 | a line is read exactly from its bytes, any carriage returns and a line feed or the end of the stream, up to 64 KiB |
| `RespGrammar.NumberIff` | internal/protocol/parser.go:112-122 | a number is read exactly from an optional sign, zeros and its decimal digits within 64 bits |
| `RespGrammar.BulkIff` | internal/protocol/parser.go:84-110 | a bulk string is read exactly from its length line and its bytes with their ending, or from a negative length |
| `RespGrammar.FieldsIff` | internal/protocol/parser.go:141-157 | a line is split into exactly its words, none lost and in order, with nothing but white space around them |
| `Placement.EveryRunSound` | internal/orchestrator/manager.go:206-927 | in every run of provision, start, hibernate, wake, promote and delete, failures included: ports of a kind are held once and below the counter, each live engine was opened on its tenant's current directory and ports, reserved quotas stay within 70% of a positive budget, and at most 100 tenants exist |
| `Placement.StepSound` | internal/orchestrator/manager.go:206-927 | every single operation keeps that invariant |
| `Placement.RunDirs` | internal/orchestrator/manager.go:236-263 | no state of a run shares a directory exactly when no provision of it takes a default directory that is held |
| `Placement.StepDirs` | internal/orchestrator/manager.go:236-263 | every operation but such a provision keeps directories apart, and such a provision never does |
| `Placement.ProvisionDirs` | internal/orchestrator/manager.go:250-285 | an accepted provision keeps directories apart exactly when none of its default directories is held |
| `Placement.RunLinks` | internal/orchestrator/manager.go:336-392 | `Replicas` and `ReplicaOf` are inverse throughout a run exactly when no delete ends early and strands a replica |
| `Placement.StepLinks` | internal/orchestrator/manager.go:336-392 | every operation but such a delete keeps the links inverse, and such a delete never does |
| `Placement.ProvisionLinks` | internal/orchestrator/manager.go:265-289 | a new primary and its replicas name each other and nobody else names them |
| `Placement.DeletePrimaryLinks` | internal/orchestrator/manager.go:336-374 | deleting a primary with its replicas leaves no dangling link |
| `Placement.DeleteReplicaLinks` | internal/orchestrator/manager.go:375-392 | deleting a replica and unlisting it leaves no dangling link |
| `Placement.PromotedEngines` | internal/orchestrator/manager.go:817-861 | after the swap of places every engine that stays is on its tenant's new directory and ports |
| `Placement.PromotedPorts` | internal/orchestrator/manager.go:847-850 | swapping places keeps each port with one tenant |
| `Placement.ReservedQuotas` | internal/orchestrator/manager.go:645-657 | an admitted reservation stays within 70% of the budget |
| `PlacementQuotas.AdmissionLaw` | internal/orchestrator/manager.go:645-657 | in every run the quotas asked by the starts and wakes that reserved for tenants still present add up to at most 70% of a positive budget, one reservation per tenant, and they are what the node has on record |
| `PlacementQuotas.StepQuotas` | internal/orchestrator/manager.go:645-657 | a step reserves exactly the quota asked for, leaves a reservation alone while its tenant is there, and drops it with the tenant |
| `PlacementQuotas.SameDecision` | internal/orchestrator/manager.go:645-657 | a start reserves exactly when its tenant may run, does not run, has nothing reserved and the sum stays within 70% |
| `PlacementRuns.StepAsleep` | internal/orchestrator/hibernate.go:7-73 | a hibernated tenant gets a live engine exactly when a live replica is promoted under its id, or the wake of a running tenant cannot be saved |
| `PlacementRuns.RunAsleep` | internal/orchestrator/hibernate.go:7-73 | no hibernated tenant runs throughout a run exactly when neither of these cases occurs in it |
| `PlacementRuns.UnsavedWakeMarks` | internal/orchestrator/hibernate.go:54-73 | for every id: provisioning, starting and a wake that cannot be saved leaves the tenant running and marked hibernated |
| `PlacementRuns.StepCovered` | internal/orchestrator/manager.go:645-657 | every live engine has memory reserved under its tenant's id after a step exactly unless a live replica was promoted to an id with nothing reserved |
| `PlacementRuns.RunCovered` | internal/orchestrator/manager.go:645-657 | every live engine is reserved for throughout a run exactly when no such promotion occurs in it |
| `PlacementRuns.HibernatedRuns` | internal/orchestrator/manager.go:817-861 | for every id: hibernating a primary and promoting its live replica leaves the tenant hibernated, running and without a reservation |
| `PlacementRuns.DirectoryShared` | internal/orchestrator/manager.go:236-263 | for every id: promoting a replica, deleting it and provisioning its id again puts two tenants on one directory |
| `PlacementRuns.ReplicaStranded` | internal/orchestrator/manager.go:364-392 | for every id: a replica's delete that fails leaves its primary listing it |
| `PlacementRuns.PortShared` | internal/orchestrator/manager.go:250-285 | for all two ids: a replicated tenant, 998 tenants that come and go and one that stays give two tenants one port |
| `PlacementRuns.ChurnRun` | internal/orchestrator/manager.go:250-259 | tenants that come and go use up HTTP and RESP ports and leave nothing else |
| `PlacementPorts.StepPorts` | internal/orchestrator/manager.go:250-285 | a step keeps all ports of all kinds apart exactly unless it provisions onto a held port or hands out one for two uses |
| `PlacementPorts.RunPorts` | internal/orchestrator/manager.go:206-927 | no state of a run holds a port twice, whatever its kind, exactly when no provision of it does that |
| `PlacementPorts.ProvisionPlaces` | internal/orchestrator/manager.go:250-289 | the tenants of a provision get consecutive ports of each kind, and nobody else's change |
| `PlacementPorts.ApartIfNoOverlap` | internal/orchestrator/manager.go:250-285 | new ports that are free and do not overlap keep all ports apart |
| `PlacementPorts.ClashIfOverlap` | internal/orchestrator/manager.go:250-285 | a new port that is held, or handed out twice, is held twice afterwards |
| `PlacementPorts.SwappedApart` | internal/orchestrator/manager.go:847-850 | swapping places keeps all ports apart |
| `PlacementPorts.KindsApart` | internal/orchestrator/manager.go:70-72 | while the RESP and replication counters stay below the next range, no port is held twice whatever its kind |
| `TenantManager.Manager.Provision` | internal/orchestrator/manager.go:206-314 | takes the provision step: refused exactly for bad ids, names, counts, taken ids or a full node; otherwise the new tenants have their own directories and the next ports and link to each other; a failed save is reported and the tenants stay |
| `TenantManager.Manager.CheckProvision` | internal/orchestrator/manager.go:206-248 | accepts exactly alphanumeric ids with dashes, a name, at most 2 replicas, free ids and at most 100 tenants |
| `TenantManager.Manager.Allocated` | internal/orchestrator/manager.go:646-650 | the loop adds up all reservations, in any order |
| `TenantManager.Manager.StartTenant` | internal/orchestrator/manager.go:533-714 | takes the start step: succeeds exactly when the tenant may run and runs already or opens and is admitted within 70% of the budget; then its engine is on its own directory and ports; a new reservation is exactly the quota, an old one stays |
| `TenantManager.Manager.HibernateTenant` | internal/orchestrator/hibernate.go:7-42 | takes the hibernate step: marks the tenant and stops its engine; a failed save restores the engine and clears the mark |
| `TenantManager.Manager.WakeTenant` | internal/orchestrator/hibernate.go:54-73 | takes the wake step; succeeds exactly when allowed, saved and started; a failed save leaves the tenant marked |
| `TenantManager.Manager.SwapPlaces` | internal/orchestrator/manager.go:805-868 | takes the promote step: exactly a replica with its primary present; directories and all ports change hands, the replica's engine moves to the public id, the other engines of the group stop, and nobody else is touched |
| `TenantManager.Manager.PromoteLocal` | internal/orchestrator/manager.go:805-927 | a promotion is the swap followed by exactly the starts it owes, in order; it succeeds exactly when it is possible, saved, and the replica takes over or the public tenant is admitted and opens; then the public tenant runs and so does every member of the group that nothing hinders, and no other engine changed |
| `TenantManager.Manager.DeleteTenant` | internal/orchestrator/manager.go:336-434 | takes the delete step, replicas first, ending at the first removal that fails; otherwise the tenant and its replicas are gone with engines and reservations, its primary no longer lists it and nobody else changed; succeeds exactly when the save after unlisting a replica goes through too |
| `TenantManager.Manager.StartAll` | internal/orchestrator/manager.go:917-925 | starts the demoted and the other replicas in order, whatever comes of each |
| `TenantManager.GroupRestarted` | internal/orchestrator/manager.go:890-927 | after a successful promotion of a live group the public tenant and every unhindered member run |
| `TenantManager.RestartsAll` | internal/orchestrator/manager.go:912-927 | a promotion starts the public tenant first unless the replica's engine serves it, then the demoted one, then all other replicas present, and nobody else |
| `TenantManager.PromotionIs` | internal/orchestrator/manager.go:817-861 | what changes hands in a promotion, and that nothing else does |
| `TenantManager.DeletionIs` | internal/orchestrator/manager.go:336-434 | what a delete removes, and that nothing else changes |
| `TenantManager.ProvisionIs` | internal/orchestrator/manager.go:250-289 | the record of each new tenant, and that no other changes |
| `SupportWake.WakesAreSpacedAndAudited` | internal/orchestrator/support_api.go:160-258 | in every interleaving, with any audit failures and a clock that does not run backwards: reservations of a tenant whose attempt was audited are at least five minutes apart, each wake call follows its own attempt record, and no request wakes twice |
| `SupportWake.EveryRun` | internal/orchestrator/support_api.go:199-258 | every reachable state of the interleaved protocol satisfies the invariant |
| `SupportWake.RefusedIff` | internal/orchestrator/support_api.go:199-217 | in every interleaving a request is refused exactly while the tenant has a reservation that was not withdrawn and is less than five minutes old |
| `SupportWake.EveryRunTold` | internal/orchestrator/support_api.go:199-258 | in every interleaving the trace holds for each request exactly the events of the phases it went through, in order: attempt, wake call, outcome |
| `SupportWake.ReserveKeepsCooldown` | internal/orchestrator/support_api.go:199-210 | a reservation that passes the cooldown test is late enough after all that still stand |
| `SupportWake.WithdrawKeepsCooldown` | internal/orchestrator/support_api.go:213-217 | withdrawing a reservation never erases a newer one |
| `SupportWake.AuditedFirstKeeps` | internal/orchestrator/support_api.go:212-221 | no step lets a wake call precede its attempt record |
| `SupportWake.WokenOnceKeeps` | internal/orchestrator/support_api.go:221-229 | no step lets a request call wake again |
| `SupportWake.SupportApi.ReserveSection` | internal/orchestrator/support_api.go:199-210 | takes the reserve step: refused exactly within the cooldown, and then nothing is reserved |
| `SupportWake.SupportApi.AttemptSection` | internal/orchestrator/support_api.go:235-258 | takes the audit step: the attempt is on record exactly if it was written, a partly failed write included |
| `SupportWake.SupportApi.WithdrawSection` | internal/orchestrator/support_api.go:213-217 | takes the withdraw step |
| `SupportWake.SupportApi.WakeSection` | internal/orchestrator/support_api.go:221-221 | takes the wake step: one wake call of this request |
| `SupportWake.SupportApi.OutcomeSection` | internal/orchestrator/support_api.go:222-229 | takes the outcome step: the outcome is on record exactly if it was written |
| `FirmMembership.AlwaysAdministered` | jurix/security.py:104-358 | in every run a firm with a client or an active member has an active admin |
| `FirmMembership.AbandonedForever` | jurix/security.py:104-358 | a firm whose last active member has left never has an active member or a client again |
| `FirmMembership.StepKeeps` | jurix/security.py:104-358 | every step, permitted or refused, keeps every firm administered and no invitation self-issued |
| `FirmMembership.RegisterKeeps` | jurix/security.py:104-139 | registering, with or without an invitation, keeps the invariant |
| `FirmMembership.AcceptKeeps` | jurix/security.py:299-323 | moving to another firm never takes the old firm's last admin while it needs one |
| `FirmMembership.SetRoleKeeps` | jurix/security.py:325-344 | demotion and deactivation never take the last admin |
| `FirmMembership.StaysAbandoned` | jurix/security.py:104-358 | no step gives an abandoned firm an active member |
| `FirmMembership.EveryRoleGranted` | jurix/security.py:104-358 | in every run every membership, with its firm, role and activity, was granted by founding the firm, by an open invitation addressed to that user that carries it, or by a role change of an active admin of that firm, and is unchanged since |
| `FirmMembership.EveryInvitationIssued` | jurix/security.py:281-297 | in every run every invitation was issued with its user, role and expiry by someone who was then an active admin of its firm |
| `FirmMembership.UsedOnce` | jurix/security.py:104-323 | an invitation lets nobody in twice, by registering or accepting |
| `FirmMembership.InvitationsOnlyClose` | jurix/security.py:281-358 | an invitation never changes but from open to used or revoked |
| `FirmMembership.OneInvitationEach` | jurix/security.py:281-297 | in every run a user has at most one outstanding invitation to a firm |
| `FirmMembership.EveryClientAdded` | jurix/security.py:245-252 | in every run every client was added to its firm by an active admin or reviewer of it |
| `FirmMembership.ClientStep` | jurix/security.py:245-279 | a client changes firm never, and goes exactly when an active admin of its firm removes it |
| `FirmMembership.RoleChangeIff` | jurix/security.py:325-344 | a role change by an admin goes through exactly when the firm has an active admin afterwards |
| `FirmMembership.MoveIff` | jurix/security.py:299-323 | with an open invitation a member may move exactly within the firm, or from a firm without clients that then has an active admin or no active member |
| `FirmMembership.FirmStore.Register` | jurix/security.py:104-139 | takes the register step: a founder becomes admin of a new firm, exactly when registration is open or nobody is registered; an invited user gets exactly the firm and role of an open invitation, which is used up |
| `FirmMembership.FirmStore.FindInvitation` | jurix/security.py:118-126 | usable exactly when unused, not revoked, not expired, addressed to this user and issued by someone still an active admin of the firm |
| `FirmMembership.FirmStore.InviteMember` | jurix/security.py:281-297 | takes the invite step: exactly for an active admin and someone not an active member; older open invitations of the user to the firm are revoked and nothing else changes |
| `FirmMembership.FirmStore.AcceptInvite` | jurix/security.py:299-323 | takes the accept step: exactly the user's membership changes, to the firm and role of the open invitation, which is used up |
| `FirmMembership.FirmStore.SetRole` | jurix/security.py:325-344 | takes the role step: exactly the member's role and activity change, by an active admin of the firm |
| `FirmMembership.FirmStore.AddClient` | jurix/security.py:245-252 | takes the add-client step: exactly for an active admin or reviewer, to their own firm |
| `FirmMembership.FirmStore.RemoveClient` | jurix/security.py:272-279 | takes the remove-client step: exactly for an active admin of the client's firm, and exactly that client goes |
| `FirmMembership.FirmStore.RevokeInvite` | jurix/security.py:355-358 | takes the revoke step: exactly for an outstanding invitation and an active admin of its firm |
| `LoginThrottle.FailuresAreBounded` | jurix/security.py:169-206 | between successful logins any half-open 900-second interval holds at most 18 counted failures, and the stored counter never passes 10, also when rows are cleaned by others' failures |
| `LoginThrottle.EighteenIsReached` | jurix/security.py:187-190 | a run exists with 18 failures in such an interval, so the bound is tight |
| `LoginThrottle.WorstCaseInOrder` | jurix/security.py:187-190 | that run has a clock that does not run backwards |
| `LoginThrottle.NineteenAreSpread` | jurix/security.py:187-190 | any failure and the eighteenth after it are at least 900 seconds apart |
| `LoginThrottle.AtMostEighteen` | jurix/security.py:187-190 | so no 900 seconds hold more than 18 |
| `LoginThrottle.NextWindow` | jurix/security.py:187-190 | after ten failures a later window opens, 900 seconds after the last if the block was reached |
| `LoginThrottle.WrongKeeps` | jurix/security.py:186-192 | a counted failure extends the window or opens the next one as the bound needs |
| `LoginThrottle.RunKeeps` | jurix/security.py:169-206 | every run with an ordered clock keeps the row and the history in agreement |
| `LoginThrottle.RefusedIff` | jurix/security.py:169-206 | in every run a login is refused exactly when ten counted failures lie in one window of 900 seconds and the last of them is less than 900 seconds old; cleaning rows changes nothing about it |
| `LoginThrottle.RunMirrors` | jurix/security.py:169-206 | the stored row says what the list of counted failures says, and is gone only when they no longer matter |
| `LoginThrottle.LoginFailures.Login` | jurix/security.py:169-206 | refuses exactly while blocked; otherwise lets in exactly with right password, active membership and right code, raises without a trace exactly for a right password without an active membership, and counts every other attempt as a failure; success clears the row |
| `LoginThrottle.LoginFailures.CleanRows` | jurix/security.py:192-192 | drops a row exactly when its window is over a day old and its block is over |
| `EvidenceJournal.EveryRunConsistent` | jurix/persistence.py:273-395 | after any run of saves the journal verifies and grouped by client gives back exactly the nonempty activity lists |
| `EvidenceJournal.HistoryOnlyGrows` | jurix/persistence.py:295-307 | journal and every client's list only ever grow at the end |
| `EvidenceJournal.SaveKeeps` | jurix/persistence.py:392-395 | one save, accepted or refused, keeps journal and records in agreement |
| `EvidenceJournal.SyncKeepsChain` | jurix/persistence.py:295-307 | appending the new events client by client keeps the MAC chain |
| `EvidenceJournal.SyncAgrees` | jurix/persistence.py:295-307 | after a sync the grouped journal equals the nonempty activity |
| `EvidenceJournal.RunAmountsTo` | jurix/persistence.py:295-395 | after any run of saves the journal lists exactly the events that were new in the offers taken, in order, and the records are those of the last offer taken; an offer is taken exactly when it extends every list |
| `EvidenceJournal.NeverRefused` | jurix/persistence.py:295-300 | an offer that extends every list is never refused, whatever was saved before |
| `EvidenceJournal.SyncEntries` | jurix/persistence.py:301-305 | a sync appends exactly the missing events, client by client |
| `EvidenceJournal.ChainIs` | jurix/persistence.py:273-285 | a chain is right exactly when every row has the number of its place, names the tag before it, 64 zeros at first, and carries its own |
| `EvidenceJournal.HeadFixesJournal` | jurix/persistence.py:273-293 | with an injective MAC two journals that verify against the same head are equal row for row |
| `EvidenceJournal.RollbackVerifies` | jurix/persistence.py:3-6 | a prefix of a journal verifies against the head of that prefix |
| `EvidenceJournal.EvidenceStore.AuditRows` | jurix/persistence.py:273-293 | accepts exactly a correct chain with its head and returns the grouping, the last MAC and the count |
| `EvidenceJournal.EvidenceStore.SyncActivity` | jurix/persistence.py:295-307 | refuses exactly a broken journal or a rewritten list, otherwise appends the missing events |
| `EvidenceJournal.EvidenceStore.AppendEvents` | jurix/persistence.py:301-305 | appends one client's events as chained rows |
| `EvidenceJournal.EvidenceStore.SaveRecords` | jurix/persistence.py:392-395 | takes the save step: a save that extends the journal stores the records, and the journal, extended by exactly the new events in order, verifies and groups to them; a refusal changes nothing |
| `EvidenceJournal.EvidenceStore.VerifyAudit` | jurix/persistence.py:309-316 | reports valid exactly when journal, head and records agree |

## Left out

- LayerSearch.SearchScratch.Reset: the pool that recycles scratch buffers and drops very large ones is not modelled.
- HnswGraph.Graph.Insert: a row that is already in the graph is not modelled; every caller inserts rows it has just appended.
- HnswGraph.AttachAndLink: the same restriction to rows that are not in the graph.
- HnswGraph.Graph.Search: how much of a shard is reachable is not stated, since pruning may disconnect rows.
- VectorGraphs.ShardedIndex.Add: the vector quota and write errors are not modelled; the similarity is a function given to each call; overwriting a stored row changes similarities without re-sorting the lists that mention it, so order is stated for lists that were in order.
- VectorGraphs.ShardedIndex.constructor: graphs loaded from disk that pass the check are taken over by the source; here every open rebuilds.
- VectorGraphs.ShardedIndex.AddBatch: the vector quota and write errors are not modelled.
- VectorGraphs.ShardedIndex.Del: the rollback after a failed metadata write is not modelled.
- VectorGraphs.ShardedIndex.Compact: errors of flushing, writing metadata and saving the graphs are not modelled.
- VectorGraphs.ShardedIndex.Replay: the commands of a migration, which replaces the index and its graphs, are not among its commands.
- VectorGraphs.ShardedIndex.SearchAfter: the same.
- VectorGraphs.ShardedIndex.Search: shards are searched one after the other, and the fast and the final score are arbitrary functions.
- VectorIndexing.VectorIndex.EnsureCapacity: errors of flushing, growing and mapping the file are not modelled.
- VectorIndexing.VectorIndex.Upsert: metadata writes and their errors and the cached inverse norms are not modelled.
- VectorIndexing.VectorIndex.Add: the vector quota and write errors are not modelled.
- VectorIndexing.VectorIndex.AddBatch: the vector quota and write errors are not modelled.
- VectorIndexing.VectorIndex.Del: the rollback after a failed metadata write is not modelled.
- VectorIndexing.VectorIndex.Compact: errors of flushing and writing metadata are not modelled.
- VectorIndexing.VectorIndex.StartMigration: errors of removing old shadow files are not modelled.
- VectorIndexing.VectorIndex.InsertShadowVector: errors of growing the file and writing metadata are not modelled.
- VectorIndexing.VectorIndex.ShadowUpsert: overwriting a shadow row bumps its generation, so odd generations for live rows are claimed for add, batch, delete and compact only.
- VectorIndexing.VectorIndex.SwapMigration: errors of closing and renaming files are not modelled.
- VectorIndexing.VectorIndex.CancelMigration: errors of removing shadow files are not modelled.
- VectorIndexing.VectorStore.GetOrCreate: keys of another type and stored files of another dimension are not modelled.
- VectorIndexing.VectorStore.VAdd: the vector quota is not modelled; encoding a vector is an arbitrary function with the row width of its encoding.
- VectorIndexing.VectorStore.VAddBatch: the vector quota is not modelled.
- VectorIndexing.VectorStore.VDel: the rollback after a failed metadata write is not modelled.
- VectorIndexing.VectorStore.VCompact: errors of flushing and writing metadata are not modelled.
- VectorIndexing.VectorStore.VMigrateStart: errors of removing old shadow files are not modelled.
- VectorIndexing.VectorStore.VMigrateAdd: errors of growing the file and writing metadata are not modelled.
- VectorIndexing.VectorStore.VMigrateSwap: errors of closing and renaming files are not modelled.
- VectorIndexing.VectorStore.VMigrateCancel: errors of removing shadow files are not modelled.
- VectorIndexing.VectorStore.Recover: records up to a checkpoint, which the source skips, are not modelled; the whole log is replayed.
- VectorIndexing.VectorStore.RunCrashRecover: checkpoints and their seals are not modelled; its crash loses the shadow only, other losses are in `VectorRecovery.RecoveryRestores`.
- LastRecord.RowOfLastRecord: encoding a vector is an arbitrary function of encoding and vector.
- MigrationLog.CrashReplay: a refused command counts as no change; recovery that stops at it is `VectorRecovery.RecoveryRestores`.
- MigrationLog.RepeatedCrashReplay: a refused command counts as no change.
- KeyExpiry.KVStore.Rename: closing a vector index that a replaced or deleted key held is not modelled.
- KeyExpiry.KVStore.Set: deadlines are unbounded integers; an overflow of 64-bit nanoseconds is not modelled.
- Resp.RespParser.ReadBulkString: a nil bulk string is read as an empty one.
- Resp.RespParser.ReadInline: only ASCII white space separates arguments.
- RespGrammar.FieldsIff: only ASCII white space separates words.
- RespGrammar.BulkIff: a nil bulk string is read as an empty one.
- SortedSet.ZSet.ZAdd: scores are reals, so NaN and infinities are not modelled; the lookup of the key and its type check are left to the key-value store; members are compared character by character as Go compares bytes.
- ScalarQuantization.DecodedNear: rounding of 32-bit floats is not modelled.
- Cosine.ScoreIsCosine: rounding of 32-bit floats is not modelled; the square roots are given as numbers with the right squares.
- TenantManager.Manager.Provision: the two locked sections are one step, the starts that follow in the background are start steps of their own, and Raft replication is not modelled.
- TenantManager.Manager.StartTenant: an in-process engine and an isolated worker are the same thing; a start that is already in progress or overlaps a hibernate, a delete or a promote of the same tenant, supervision and restarts after a crash are not modelled; quota sums do not overflow.
- TenantManager.Manager.DeleteTenant: erasing the data directory and the forget receipt are not modelled beyond the error that ends the delete.
- SupportWake.SupportApi.ReserveSection: the checks of method, token, allow list and hibernation before it are not modelled.
- FirmMembership.FirmStore.Register: the checks on email, password and firm name are not modelled.
- FirmMembership.FirmStore.SetRole: sessions are not modelled; removing a member is this step with the member's own role and inactive.
- LoginThrottle.RefusedIff: times are not negative, since a stored 0 means no block.
- LoginThrottle.LoginFailures.Login: password, membership and firm code are one bit each; sessions and the upgrade of old password hashes are not modelled.
- EvidenceJournal.EvidenceStore.AuditRows: encryption of rows and head is left out; rows carry their payload in the clear.
- Loading old control-plane state and refilling ports, the lookup cache of the graph, reading and writing files and mappings, the write-ahead log's format, the command executor, transactions, replication streams, proxies and HTTP handlers.
- Lists, sets, hashes, bitmaps, geo, streams, pub/sub and caches of the engine, and the playbooks, billing and semantic checks of Jurix, which would only add easier members.
