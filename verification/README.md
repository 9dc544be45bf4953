# Tesseract in Dafny

A Dafny 4.11 model of the state machines at the core of the Tesseract vector database, with proofs of
what they promise over every input and every run. `dafny verify dfyconfig.toml` checks the whole project.

Floats are modelled as reals. Checksums, hash functions, distance functions, the square root and the text
of a float are parameters, so every result holds for all of them (`root(x)^2 == x`, the rounding of doubles and
decimal float text are assumed only where a row says so). Clocks, random levels, hash-map iteration order and network behaviour
are parameters or nondeterministic choices.

| files | part | main results |
|---|---|---|
| `WalCodec`, `WalLog`, `WalStore` | write-ahead log | `CrashSafety`: whatever a crash leaves of the unsynced tail, replay is a prefix of the log with every durable entry and a bounded loss; `CrashSafetyIff`: with compactions too, exactly when nothing above the checkpoint was compacted |
| `HnswGraph`, `HnswSearch`, `HnswIndex`, `HnswInsert` | HNSW index | `RunWellFormed` over all inserts and removes; `SearchLayer` with its certificate; exhaustive search equals brute force |
| `Replication`, `ReplicationProtocol`, `ReplicationJoins`, `ReplicationStates`, `ReplicationFailures`, `Failover` | replication and failover | `ReplicationSafety` over a network that loses, repeats and reorders; `LateJoinerSafeIff`; `PromotionLossBound` |
| `MerkleNode`, `MerkleTree`, `MerkleIndex` | progressive Merkle tree | exact mass accounting over all batches; `BuildTree`; `RootHashBindsLeaves` |
| `VqlLexer`, `VqlAst`, `VqlGrammar`, `VqlPrint`, `VqlQuery`, `VqlRoundTrip`, `VqlImage`, `VqlFloats`, `VqlExact`, `VqlSyntax`, `VqlSound`, `VqlComplete` | query language | `QuerySound`, `QueryComplete`: the parser against syntax trees with text and meaning; `RoundTripIff`: exactly which queries survive printing and parsing; `ClauseOrder` |
| `Statistics` | online statistics | Welford's update equals the two-pass sums; the correlation clamp never acts |
| `Tiering`, `TierDrains`, `TierStores` | hot and cold tiers | `NothingLost`: no serial run of inserts, evictions, promotions and demotions loses or alters a record |
| `JumpKeys`, `JumpHash` | placement | termination, range, the candidates of a key, consistency: with the float step of the code |
| `TopK`, `RateLimiter` | result merging, rate limiting | staged merging, a tight rate bound |

`Options`, `Seqs`, `Sorting` and `Log2` hold shared definitions and facts.

Code that changes state is modelled by classes (`WriteAheadLog`, `Index`, `ReplicationEngine`,
`FailoverManager`, `ProgressiveTree`, `HotTier`, `NumericalStats`, `HotStore`, `ColdStore`,
`StorageEngine`, `Limiter`) or by methods with loops. Each method is tied to a function or relation on
values, and the lemmas are about those.

Where the code and its documentation differ, the model follows the code. A name in `Iff` is an exact
condition; the other names in parentheses are failing inputs or runs unless the line says otherwise:

- Compaction writes merged segments that recovery never reads (`CompactionVisibleIff`, `CrashSafetyIff`, `CompactionHidesEntry`).
- A duplicate id is ignored by a first insert and can be an error on the retry after an eviction (`ReadBackIff`, `SurelyAcknowledgedIff`, `DuplicateRetryFails`).
- If the cold write fails after an eviction, the drained records are gone (`FailedWriteSafeIff`, `FailedWriteLoses`).
- One address can be granted `2 * max - 1` requests within a closed window length, not `max` (`KeepsLimitIff`, `BoundIsReached`).
- Jump hash returns a bucket out of range for 0 buckets and from 2^63 buckets on (`ValidBucketIff`). Its float step stands still at 2^53 for one divisor in 2^31 (`StandsStillIff`); which keys bring the loop to 2^53 is left open, so no failing input is given.
- A cluster size limit of 0 makes the split loop run for ever once any cluster has a vector; with a limit of at least 1 it ends (`ZeroLimitNeverSettles`, `SplitOverfull`).
- Splitting an odd cluster moves its mass by 0.01 per coordinate, an even one keeps it (`SplitOverfull` states the balance).
- A follower acknowledges entries it dropped because its hot store was full (`WholeLogAppliedIff`, `SmallFollowerForgets`).
- A replica added to a non-empty queue is announced as synced (`JoinMatchesIff`, `JoinAnnouncesSynced`), and one added after a trim can acknowledge entries it misses for good (`LateJoinerSafeIff`, `LateJoinerMisses`).
- A replica added after everything was trimmed reports lag 0 and may be promoted without holding anything (`JoinLagBoundsIff`, `EmptyJoinerHasNoLag`, `EmptyJoinerIsEligible`).
- The text of a query does not always parse back to it: vectors, quoted ORDER BY arguments, strings with quotes, negative numbers, whole floats (`RoundTripIff`; `VectorIsLost` for a query the parser accepts).

## Model

| member | source | states |
|---|---|---|
| `WalCodec.ToBytes` | tesseract-storage/src/wal.rs:47-67 | the buffer built step by step is the encoding: id, op code, 32-bit length, payload, checksum of those, all little-endian |
| `WalCodec.Layout` | tesseract-storage/src/wal.rs:47-67 | every byte of an encoding: each integer least significant byte first, the checksum over all bytes before it |
| `WalCodec.FromBytes` | tesseract-storage/src/wal.rs:74-120 | the offset-advancing reader computes `Decode`, error cases included |
| `WalCodec.DamageIsReported` | tesseract-storage/src/wal.rs:99-120 | damage that leaves length and checksum bytes alone but changes the checksum of the bytes before them is a mismatch, reported with both checksums |
| `WalCodec.DecodeOfEncode` | tesseract-storage/src/wal.rs:47-120 | an encoded entry followed by anything decodes to the entry and its length |
| `WalCodec.RoundTripIff` | tesseract-storage/src/wal.rs:47-120 | that holds if and only if the payload length fits the 32-bit field |
| `WalCodec.EncodeOfDecode` | tesseract-storage/src/wal.rs:74-120 | whatever decodes is the encoding of its result, so there is no second byte form |
| `WalCodec.StrictPrefixIsTruncated` | tesseract-storage/src/wal.rs:74-98 | every strict prefix of an encoding is reported as truncated, with no assumption on the checksum |
| `WalLog.StepKeepsInv` | tesseract-storage/src/wal.rs:158-171 | every lock, seal, open, write, sync, unlock and flush step and every removal of a sealed segment keeps: files hold exactly the log less what was removed, synced bytes cover all but the last `ops_since_fsync` entries, sealed segments are synced |
| `WalLog.RunKeepsInv` | tesseract-storage/src/wal.rs:225-257 | the same over every run of interleaved durable and fast appends, flushes and compactions |
| `WalLog.ReplayOfCut` | tesseract-storage/src/wal.rs:404-446 | replay of a segment cut anywhere returns exactly the entries that lie whole before the cut |
| `WalLog.CrashSafetyIff` | tesseract-storage/src/wal.rs:225-351 | after any run, compactions included, for every crash image that keeps the synced bytes: what survives, removed segments counted, is a log prefix that has every durable acknowledgement and lacks at most `fsync_interval_ops - 1` acknowledged entries; recovery returns exactly its entries above the checkpoint, each once and in order, if and only if no removed entry was above the checkpoint |
| `WalLog.CrashSafety` | tesseract-storage/src/wal.rs:225-281 | so after any run without compaction, for every such image, recovery returns exactly the entries above the checkpoint of a log prefix that has every durable acknowledgement and lacks at most `fsync_interval_ops - 1` acknowledged entries; if the whole log is above the checkpoint it returns the prefix itself |
| `WalLog.CleanReplayIff` | tesseract-storage/src/wal.rs:263-351 | without a crash recovery returns exactly the log entries above the checkpoint, each once and in order, if and only if no removed entry was above the checkpoint |
| `WalStore.ReadSegmentEntries` | tesseract-storage/src/wal.rs:404-446 | the replay loop returns exactly the decodable entries above the checkpoint, each once and in order, and stops at the first undecodable byte |
| `WalStore.ReplaySegments` | tesseract-storage/src/wal.rs:263-281 | segments are replayed in order and concatenated |
| `WalStore.WriteAheadLog.constructor` | tesseract-storage/src/wal.rs:191-219 | a fresh log is the initial state of the machine |
| `WalStore.WriteAheadLog.RotateSegment` | tesseract-storage/src/wal.rs:233-241 | a full segment is synced, sealed and replaced by an empty one; the log is unchanged |
| `WalStore.WriteAheadLog.WriteEntryBytes` | tesseract-storage/src/wal.rs:158-163 | the log grows by exactly the entry written |
| `WalStore.WriteAheadLog.SyncAndRelease` | tesseract-storage/src/wal.rs:245-250 | durable mode or a full interval syncs before release, fast mode otherwise does not |
| `WalStore.WriteAheadLog.AppendLocked` | tesseract-storage/src/wal.rs:231-248 | the critical section is a path of the machine that appends one entry |
| `WalStore.WriteAheadLog.Append` | tesseract-storage/src/wal.rs:225-251 | the reserved id is returned and the log and its modes grow by exactly this append; the segment is rotated exactly if the 17 bytes and the payload do not fit; the file is synced exactly in durable mode or at the interval |
| `WalStore.WriteAheadLog.FlushLog` | tesseract-storage/src/wal.rs:254-257 | everything written becomes synced |
| `WalStore.WriteAheadLog.Recover` | tesseract-storage/src/wal.rs:263-281 | returns the replay of the directory above the checkpoint, 0 without one; for the log of this session that is exactly its entries above the checkpoint if and only if no removed entry was above it |
| `WalStore.LatestIsLast` | tesseract-storage/src/wal.rs:290-351 | compaction keeps the last entry of each transaction id |
| `WalStore.LatestKeys` | tesseract-storage/src/wal.rs:290-351 | compaction keeps only logged entries and drops no id |
| `WalStore.ValuesInOrder` | tesseract-storage/src/wal.rs:290-351 | the kept entries are written in strictly ascending id order, each once |
| `WalStore.LatestEntries` | tesseract-storage/src/wal.rs:290-351 | the entries to merge are the latest of the sealed segments |
| `WalStore.WriteAheadLog.Compact` | tesseract-storage/src/wal.rs:290-351 | the merged file of this second replays to the latest entry per id in order, files of other seconds stay, the sealed segments are gone, and without sealed segments nothing happens; the object stays at the end of a run of the machine with the same log |
| `WalStore.CompactionVisibleIff` | tesseract-storage/src/wal.rs:371-393 | recovery after compaction is unchanged if and only if every compacted entry was already below the checkpoint |
| `WalStore.CompactionHidesEntry` | tesseract-storage/src/wal.rs:371-393 | a run of two durable appends in two segments and the removal of the first, after which recovery from checkpoint 0 returns only the second |
| `HnswGraph.BruteForceRanked` | tesseract-index/src/hnsw.rs:229-269 | the brute-force reference lists exactly a given set, sorted by distance then index |
| `HnswGraph.RankedUnique` | tesseract-index/src/hnsw.rs:54-56 | a ranked list is determined by its elements |
| `HnswSearch.OfferKeepsProgress` | tesseract-index/src/hnsw.rs:409-425 | offering an unvisited neighbour to both heaps keeps the beam invariant, including what was pushed out |
| `HnswSearch.Expand` | tesseract-index/src/hnsw.rs:409-425 | expanding a node offers every live unvisited neighbour exactly once |
| `HnswSearch.SearchLayer` | tesseract-index/src/hnsw.rs:388-430 | terminates with at most max(1, ef) distinct ranked nodes with true distances; every visited node left out is no closer than the farthest result; every live neighbour of a result was visited |
| `HnswSearch.Exhaustive` | tesseract-index/src/hnsw.rs:388-430 | a beam that is not full, or as wide as the graph, returns exactly the live nodes reachable through live nodes |
| `HnswSearch.GreedySearchLayer` | tesseract-index/src/hnsw.rs:331-352 | terminates at a reachable node, no farther than the start, with no strictly closer live neighbour |
| `HnswIndex.Descend` | tesseract-index/src/hnsw.rs:242-251 | one greedy walk at every layer above the target, each from where the one above stopped and each ending at a local minimum it can reach |
| `HnswIndex.LevelIsCapped` | tesseract-index/src/hnsw.rs:306-323 | the level of a new node is what was drawn, at most 32 and at most max(1, ceil(log2 n)), and 0 for the first node |
| `HnswIndex.ReportHolds` | tesseract-index/src/hnsw.rs:229-269 | the live results of a certified layer-0 beam from where a descent ends satisfy the search report, and equal brute force on the live reachable set when ef is at least the node count |
| `HnswIndex.AnswersSorted` | tesseract-index/src/hnsw.rs:229-269 | the final sort by distance changes nothing |
| `HnswIndex.Search` | tesseract-index/src/hnsw.rs:229-269 | dimension error, empty index, or at most ef answers, ascending, of different vectors: each is the id of a reachable live node with its plain or weighted distance to the query, and if ef is at least the node count every reachable live node is answered |
| `HnswInsert.ShrunkFacts` | tesseract-index/src/hnsw.rs:495-508 | a list within the limit stays; otherwise as many as allowed are kept, distinct, and none dropped is closer than a kept one |
| `HnswInsert.CertificateTransfers` | tesseract-index/src/hnsw.rs:139-219 | a beam run while the new node is being linked is certified for the old graph |
| `HnswInsert.InsertKeepsWellFormed` | tesseract-index/src/hnsw.rs:139-219 | an insertion keeps: unique ids, edges only between nodes that have the layer, no self-loops or repeats, degrees within the caps, entry point on the top layer, levels within the cap |
| `HnswInsert.LinksOfInsertion` | tesseract-index/src/hnsw.rs:184-210 | at every layer up to the lower of the two tops the new node links to the nearest m_max0 (layer 0) or m (above) results of a beam, each of them gains the new node and drops its farthest neighbour only when over that limit, and no other list changes |
| `HnswInsert.EffectKeepsWellFormed` | tesseract-index/src/hnsw.rs:139-285 | so do re-insertion of an id, removal, and calls that fail |
| `HnswInsert.RunWellFormed` | tesseract-index/src/hnsw.rs:139-285 | every state of every run of inserts and removes from the empty index is well formed |
| `HnswInsert.Index.ShrinkConnections` | tesseract-index/src/hnsw.rs:495-508 | trims one list and touches no other |
| `HnswInsert.Index.Connect` | tesseract-index/src/hnsw.rs:197-205 | the new node gets exactly its selected neighbours, each of them the new node and then a trim, nothing else changes |
| `HnswInsert.Index.FindNeighbors` | tesseract-index/src/hnsw.rs:190-195 | the neighbours come from a certified beam, distinct, all on the layer |
| `HnswInsert.Index.LinkLayer` | tesseract-index/src/hnsw.rs:190-210 | one layer is linked, other layers are untouched, the next start is the nearest neighbour found |
| `HnswInsert.Index.FindStart` | tesseract-index/src/hnsw.rs:170-182 | a greedy descent from the entry point through every layer above the new level ends at a node that has the first layer to link |
| `HnswInsert.Index.Link` | tesseract-index/src/hnsw.rs:184-210 | all layers from the lower of the two tops down to 0 are linked, each search starting at the nearest neighbour linked above |
| `HnswInsert.Index.InsertVector` | tesseract-index/src/hnsw.rs:139-219 | a dimension error exactly for the wrong dimension, and always the effect of one call on a valid index that stays valid |
| `HnswInsert.Index.RemoveVector` | tesseract-index/src/hnsw.rs:275-285 | not found exactly for an unknown id, and always the effect of one call: a tombstone or nothing |
| `Replication.ReplicationEngine.RecordEntry` | tesseract-cluster/src/replication.rs:160-194 | the queue grows by the entry; every replica past the limit becomes disconnected, every other one behind becomes lagging by its lag, and a disconnected one without lag counts as synced again |
| `Replication.RecordMatches` | tesseract-cluster/src/replication.rs:160-194 | after a new entry every replica's state describes its lag: synced without lag, lagging by exactly its lag up to the limit, disconnected beyond |
| `Replication.ReplicationEngine.PendingForReplica` | tesseract-cluster/src/replication.rs:200-211 | exactly the queued entries above the replica's acknowledgement, each once and in order, none for an unknown replica |
| `Replication.ReplicationEngine.AckEntry` | tesseract-cluster/src/replication.rs:225-247 | the acknowledgement of this replica moves forward only, its state follows the remaining lag, and nothing else changes |
| `Replication.AckMatches` | tesseract-cluster/src/replication.rs:225-247 | an acknowledgement keeps every state in agreement with its lag |
| `Replication.MinAcked` | tesseract-cluster/src/replication.rs:279-287 | the least acknowledgement over all replicas |
| `Replication.ReplicationEngine.TrimAcked` | tesseract-cluster/src/replication.rs:279-287 | exactly the entries above the least acknowledgement stay, each once and in order |
| `Replication.TrimMatches` | tesseract-cluster/src/replication.rs:279-287 | trimming keeps every state in agreement with its lag, although it changes what the lag is computed from |
| `Replication.JoinMatchesIff` | tesseract-cluster/src/replication.rs:115-133 | a replica is announced as synced when it is added; that agrees with its lag if and only if nothing is queued |
| `ReplicationFailures.JoinAnnouncesSynced` | tesseract-cluster/src/replication.rs:115-133 | a queue of one entry on which an added replica is called synced although it lags |
| `ReplicationStates.EverythingLogged` | tesseract-cluster/src/replication.rs:160-287 | over every run and for every node: batches sent are slices of the log, and what was acknowledged or applied is in the log |
| `ReplicationStates.StatesDescribeLag` | tesseract-cluster/src/replication.rs:115-287 | over every run in which replicas are added only while nothing is queued, every replica's state describes its lag, joins and leaves included |
| `ReplicationProtocol.HandleReplicate` | tesseract-cluster/src/replication_handler.rs:25-36 | entries are applied in order; the last id is acknowledged exactly if every insert payload parses, otherwise nothing is |
| `ReplicationProtocol.ReplayHoldsFirst` | tesseract-storage/src/engine.rs:597-620 | the replay of a log holds exactly the inserted ids, each with the record of its first insert |
| `ReplicationProtocol.ApplyContiguous` | tesseract-cluster/src/replication_handler.rs:25-36 | a batch that starts inside the applied prefix, repeated or late, leaves the replay of a log prefix again |
| `ReplicationProtocol.StepKeeps` | tesseract-cluster/src/replication.rs:160-287 | recording, sending, delivering, acknowledging, trimming, joining and leaving keep the protocol invariant |
| `ReplicationProtocol.RunKeeps` | tesseract-cluster/src/replication.rs:160-287 | the same over every run in which messages are lost, repeated and reordered |
| `ReplicationProtocol.ReplicationSafety` | tesseract-cluster/src/replication.rs:200-287 | for a registered node that was never registered after an entry it lacked had been trimmed: its store holds the first inserts of a log prefix that has every entry up to any acknowledgement it ever sent, what it lacks is a suffix of what is queued for it whatever was trimmed, and if it was registered before anything was trimmed its pending entries are exactly the log above its acknowledgement |
| `ReplicationProtocol.PendingIsLogSuffix` | tesseract-cluster/src/replication.rs:200-211 | for a replica registered before anything was trimmed the pending entries are exactly the log above its acknowledgement |
| `ReplicationProtocol.PendingReachesApplied` | tesseract-cluster/src/replication.rs:200-211 | for every other safe replica they are a log suffix that starts within what it applied |
| `ReplicationJoins.LateJoinerSafeIff` | tesseract-cluster/src/replication.rs:115-127 | over every run, for a node that never joined across a gap and entries that always decode: if it joins, late or again, every acknowledgement it sends in every continuation without another join of it, as long as the log fits its hot store, covers only applied entries if and only if nothing it lacks had been trimmed |
| `ReplicationFailures.LateJoinerMisses` | tesseract-cluster/src/replication.rs:115-127 | a run in which a node joins after a trim and acknowledges the second entry without holding the first |
| `ReplicationProtocol.LagBoundsLoss` | tesseract-cluster/src/replication.rs:255-265 | the reported lag bounds the number of entries such a node lacks |
| `ReplicationProtocol.LagIs` | tesseract-cluster/src/replication.rs:255-265 | over every run the reported lag is the distance between the newest id and the acknowledgement, 0 if nothing is queued |
| `ReplicationJoins.JoinLagBoundsIff` | tesseract-cluster/src/replication.rs:115-127 | over every run the lag of a node that has just joined bounds what it lacks if and only if something is queued or it lacks nothing |
| `ReplicationFailures.EmptyJoinerHasNoLag` | tesseract-cluster/src/replication.rs:255-265 | a run in which a node joins after everything was trimmed and has lag 0 with nothing applied |
| `ReplicationProtocol.WholeLogAppliedIff` | tesseract-storage/src/engine.rs:597-620 | over every run, a node that has acknowledged the whole log holds all of it if and only if the log's ids fit its hot store |
| `ReplicationFailures.SmallFollowerForgets` | tesseract-storage/src/engine.rs:597-620 | a run in which a follower of capacity 1 acknowledges two inserts and holds one |
| `Failover.FailoverManager.WinElection` | tesseract-cluster/src/leader_election.rs:108-133 | succeeds exactly from candidate or leader, and changes the state and heartbeat only from candidate |
| `Failover.StateIsLastDecision` | tesseract-cluster/src/leader_election.rs:87-133 | over every history of learning leaders, standing, winning and heartbeats: a shard's state is given by its last decision, so this node leads exactly the shards for which it stood last and has won since |
| `Failover.HeartbeatIsLastHeard` | tesseract-cluster/src/leader_election.rs:108-156 | over every history the recorded heartbeat is the last one heard or election won, and there is none exactly if there was neither |
| `Failover.TimedOutIff` | tesseract-cluster/src/leader_election.rs:150-156 | over every history a leader has timed out if and only if it was never heard or every last time it was heard lies more than the timeout back |
| `Failover.FailoverManager.CheckShard` | tesseract-cluster/src/failover.rs:162-204 | one shard is taken over exactly when its leader timed out and this node's lag is small enough; then this node leads it in the election and shard maps, with the replicas recorded before |
| `Failover.FailoverManager.CheckAndFailover` | tesseract-cluster/src/failover.rs:162-204 | the shards returned, each once, are exactly the timed-out followerships this node is eligible for; those are led by this node in the election and shard maps with the replicas recorded before, all others are unchanged |
| `Failover.FailoverManager.PromoteToLeader` | tesseract-cluster/src/failover.rs:212-242 | promotes exactly when eligible, and only that shard, with the replicas recorded before |
| `Failover.HealthyShardsKeepState` | tesseract-cluster/src/failover.rs:162-204 | a shard whose heartbeat is within the timeout keeps its state, heartbeat and assignment |
| `Failover.PromotionLossBound` | tesseract-cluster/src/failover.rs:162-250 | in every run of the protocol a safe replica that passes the lag test, for the failover check or a manual promotion, lacks at most `max_promotion_lag` recorded entries and holds the replay of the rest |
| `Failover.EligibleIff` | tesseract-cluster/src/failover.rs:171-181 | a registered node is eligible if and only if it is at most the limit behind the newest queued id; an unregistered one only under the largest limit |
| `Failover.CaughtUpIsEligible` | tesseract-cluster/src/failover.rs:245-250 | over every run a node that has acknowledged the newest entry has lag 0 and is eligible |
| `Failover.EmptyJoinerIsEligible` | tesseract-cluster/src/failover.rs:212-242 | a run in which a node that has applied nothing of a log of one entry is eligible under every configuration |
| `MerkleNode.JoinSound` | tesseract-index/src/merkle/tree.rs:295-301 | joining two sound nodes gives the exact count, weighted mean and hash |
| `MerkleNode.SoundTotals` | tesseract-index/src/merkle/node.rs:125-156 | a sound node's count and count times centroid are the sums over its leaves |
| `MerkleNode.BuildFacts` | tesseract-index/src/merkle/tree.rs:245-292 | bottom-up pairing gives a sound tree over exactly the leaves in order, at most ceil(log2 n) deep |
| `MerkleNode.JoinPairs` | tesseract-index/src/merkle/tree.rs:261-289 | one level of the loop: node i joins nodes 2i and 2i + 1 with their count and hash, an odd last node goes up as it is |
| `MerkleNode.BuildTree` | tesseract-index/src/merkle/tree.rs:245-292 | the loop builds that tree over the leaves sorted by cluster id |
| `MerkleNode.EqualHashEqualLeaves` | tesseract-index/src/merkle/node.rs:53-72 | for every hash function, two sound trees of one shape hold equal leaves if and only if their hashes are equal and no two different hash inputs at the same place of the two trees have equal output |
| `MerkleNode.RootHashBindsLeaves` | tesseract-index/src/merkle/node.rs:53-72 | for every hash function, two trees over equally many leaves were built from equal leaves if and only if their root hashes are equal and no such collision occurs in them |
| `MerkleTree.NearestIsFirstMinimum` | tesseract-index/src/merkle/tree.rs:216-228 | the nearest leaf is the first of minimal distance |
| `MerkleTree.AssignmentIsPartition` | tesseract-index/src/merkle/tree.rs:107-136 | counts and vector sums of the assigned groups add up to the batch |
| `MerkleTree.AssignedAre` | tesseract-index/src/merkle/tree.rs:216-228 | the group of a leaf has every vector it is the first nearest to, as often as the batch does, and no other |
| `MerkleTree.AcceptedAre` | tesseract-index/src/merkle/tree.rs:107-113 | exactly the vectors of the tree's dimension are accepted, as often as they occur |
| `MerkleTree.MergeConserves` | tesseract-index/src/merkle/tree.rs:138-151 | updating the centroids conserves total count and total mass |
| `MerkleTree.RoundFacts` | tesseract-index/src/merkle/tree.rs:163-204 | a split round keeps leaves sound and the total count |
| `MerkleTree.RoundProgress` | tesseract-index/src/merkle/tree.rs:163-204 | a round with an overfull leaf uses up one of the splits still due |
| `MerkleTree.RoundSettles` | tesseract-index/src/merkle/tree.rs:163-239 | mass minus 0.01 per odd split still due is the same after every round |
| `MerkleTree.HalvesAre` | tesseract-index/src/merkle/tree.rs:168-193 | the halves of a cluster: counts n / 2 and the rest, the next two ids, centroids 0.01 above and below, fresh hashes |
| `MerkleTree.RoundMass` | tesseract-index/src/merkle/tree.rs:163-204 | one round takes 0.01 per coordinate from the mass for every overfull cluster of odd size |
| `MerkleTree.RoundIds` | tesseract-index/src/merkle/tree.rs:163-204 | ids stay distinct and below the next free one |
| `MerkleTree.ZeroLimitRound` | tesseract-index/src/merkle/tree.rs:163-204 | with limit 0 a round neither starts nor ends the overfull condition |
| `MerkleTree.ZeroLimitNeverSettles` | tesseract-index/src/merkle/tree.rs:163-204 | with limit 0, after any number of rounds there is an overfull cluster exactly if there was one at first, so the loop never ends |
| `MerkleIndex.AssignBatch` | tesseract-index/src/merkle/tree.rs:107-136 | the two maps hold, per leaf, exactly the count and sum of the vectors nearest to it |
| `MerkleIndex.UpdateCentroids` | tesseract-index/src/merkle/tree.rs:138-151 | every leaf absorbs exactly its vectors; the lookup that could fail never does |
| `MerkleIndex.MergedGroups` | tesseract-index/src/merkle/tree.rs:138-151 | every leaf keeps its id and gains the count and the mass of exactly the vectors it is the first nearest to |
| `MerkleIndex.SeedLeaves` | tesseract-index/src/merkle/tree.rs:124-136 | a first batch becomes one leaf per accepted vector, in order, with the next ids |
| `MerkleIndex.SplitPass` | tesseract-index/src/merkle/tree.rs:163-204 | one pass splits exactly the overfull leaves and reports whether there were any |
| `MerkleIndex.SplitOverfull` | tesseract-index/src/merkle/tree.rs:163-204 | terminates with all counts in 1..limit, the total count unchanged, the mass lower by exactly 0.01 per coordinate and odd split |
| `MerkleIndex.MergeIntoLeaves` | tesseract-index/src/merkle/tree.rs:89-159 | after assignment and update the leaves account for old and new vectors |
| `MerkleIndex.Rebuild` | tesseract-index/src/merkle/tree.rs:161-211 | splitting and rebuilding gives a tree that accounts for all vectors |
| `MerkleIndex.ProgressiveTree.InsertBatch` | tesseract-index/src/merkle/tree.rs:89-211 | over any run of batches the root count is the number of vectors merged, and count times centroid is their sum minus 0.01 per coordinate and odd split |
| `MerkleIndex.HotTier.Insert` | tesseract-storage/src/engine.rs:317-346 | successful inserts always equal buffer length plus root count |
| `VqlLexer.DecimalRoundTrip` | tesseract-vql/src/grammar.rs:46-48 | decimal text denotes the number printed |
| `VqlPrint.LiteralOf` | tesseract-vql/src/grammar.rs:66-74 | a printed literal, floats with a dot included, parses back before whitespace, comma, parenthesis or the end |
| `VqlPrint.BaseOf` | tesseract-vql/src/grammar.rs:101-142 | a printed predicate parses back although four parsers compete for it |
| `VqlPrint.WhereOf` | tesseract-vql/src/grammar.rs:146-157 | one predicate stays alone, several become one AND, also with BETWEEN's own AND inside |
| `VqlPrint.ProjectionsOf` | tesseract-vql/src/grammar.rs:262-287 | printed projections parse back, fields, aliases and functions |
| `VqlPrint.ArgumentsOf` | tesseract-vql/src/grammar.rs:213-225 | printed argument lists parse back for both argument grammars |
| `VqlPrint.ClauseOf` | tesseract-vql/src/grammar.rs:316-327 | a printed clause parses back whatever clause follows, WITH before WITHIN and ORDER before OFFSET included |
| `VqlQuery.ParseQuery` | tesseract-vql/src/grammar.rs:336-466 | the loop over mutable options terminates and computes `QueryOf` |
| `VqlSound.QuerySound` | tesseract-vql/src/grammar.rs:336-466 | every accepted text is the text of a syntax tree; the query has the head the tree means and exactly the clauses its parts mean, no two of a kind and no OFFSET without LIMIT |
| `VqlComplete.QueryComplete` | tesseract-vql/src/grammar.rs:336-466 | the text of every syntax tree whose words are separated is accepted if and only if no kind of clause repeats and OFFSET comes with LIMIT, and then the query is what the tree means |
| `VqlQuery.ClauseStarts` | tesseract-vql/src/grammar.rs:316-327 | every clause begins with one of the keywords |
| `VqlQuery.LoopOnLayout` | tesseract-vql/src/grammar.rs:350-431 | over any layout of clause texts the loop collects all clauses, or fails at a repeated kind |
| `VqlQuery.ClauseOrder` | tesseract-vql/src/grammar.rs:336-466 | any clause texts in any order and whitespace parse to the query holding them all if and only if no kind repeats and OFFSET comes with LIMIT; otherwise they are rejected |
| `VqlQuery.AnyOrder` | tesseract-vql/src/grammar.rs:336-466 | rearranging clauses or whitespace changes nothing |
| `VqlQuery.EnIsWithin` | tesseract-vql/src/grammar.rs:253-259 | EN is a WITHIN clause, so the two together repeat a kind |
| `VqlComplete.DirectionWords` | tesseract-vql/src/grammar.rs:213-225 | ORDER BY with ASC is ascending and with DESC descending, after any whitespace, for all identifiers |
| `VqlRoundTrip.PrintedClause` | tesseract-vql/src/ast.rs:153-180 | every printed clause is a clause text of the order theorem |
| `VqlRoundTrip.PrintedHead` | tesseract-vql/src/ast.rs:153-160 | every printed head with a text source is a head of the order theorem |
| `VqlRoundTrip.CallClauseTexts` | tesseract-vql/src/ast.rs:165-170 | how BIAS and ORDER BY are spelled; an ascending order has no word for it |
| `VqlRoundTrip.CountClauseTexts` | tesseract-vql/src/ast.rs:171-180 | how LIMIT, OFFSET and WITHIN are spelled |
| `VqlRoundTrip.ListClauseTexts` | tesseract-vql/src/ast.rs:159-164 | how WITH METADATA WHERE and PROJECT ON are spelled |
| `VqlRoundTrip.PredicateTexts` | tesseract-vql/src/ast.rs:201-233 | how the four predicates are spelled |
| `VqlRoundTrip.HeadOf` | tesseract-vql/src/grammar.rs:179-198 | a printed FIND head parses back, except that a vector source comes back as text |
| `VqlRoundTrip.DisplayParses` | tesseract-vql/src/ast.rs:153-180 | the text of a query parses to the query without its vector, or is rejected for OFFSET without LIMIT |
| `VqlRoundTrip.RoundTrip` | tesseract-vql/src/ast.rs:152-298 | parsing the text of a plain query gives the query and consumes the text |
| `VqlImage.QueryImage` | tesseract-vql/src/grammar.rs:336-466 | every query the parser returns is plain but for the values of floats, vectors and ORDER BY arguments |
| `VqlExact.ArgumentsAreNames` | tesseract-vql/src/grammar.rs:77-79 | an ORDER BY argument list that comes back as printed consists of identifiers |
| `VqlFloats.FloatBack` | tesseract-vql/src/grammar.rs:51-74 | a decimal numeral that reads as a float was written without sign, with a dot, and denotes that float; whole and negative floats do not come back |
| `VqlFloats.WhereBack` | tesseract-vql/src/grammar.rs:146-157 | a WHERE condition that comes back as printed has only such floats |
| `VqlExact.RoundTripIff` | tesseract-vql/src/ast.rs:152-298 | on every platform that prints floats as decimal numerals, every query survives printing and parsing if and only if it is plain |
| `VqlExact.VectorIsLost` | tesseract-vql/src/ast.rs:152-158 | the text FIND SIMILARITY(f, VECTOR(1.0)) parses to a query whose own text parses to another one |
| `VqlExact.ParsedRoundTrip` | tesseract-vql/src/grammar.rs:336-466 | for every accepted text without vectors and quoted ORDER BY arguments, and with floats written as they denote, printing the query and parsing again gives the same query |
| `Statistics.MeanUpdate` | tesseract-core/src/topological.rs:220-254 | the incremental mean is the mean of all observations |
| `Statistics.CrossUpdate` | tesseract-core/src/topological.rs:220-254 | the cross sum about the new means grows by dx dy n / (n + 1) |
| `Statistics.CrossMoments` | tesseract-core/src/topological.rs:220-254 | the cross sum is the sum of products less n times the product of the means |
| `Statistics.ColumnsAre` | tesseract-core/src/topological.rs:220-254 | field values and columns are those of the observations, in order |
| `Statistics.AdvanceDims` | tesseract-core/src/topological.rs:235-248 | the loop advances cross sum, M2 and mean of every dimension from the old means |
| `Statistics.NumericalStats.Update` | tesseract-core/src/topological.rs:220-254 | after any observations all running statistics equal the two-pass ones, in every dimension |
| `Statistics.CauchySchwarz` | tesseract-core/src/topological.rs:294-322 | cross sum squared is at most the product of the sums of squares, about any centres |
| `Statistics.CrossBound` | tesseract-core/src/topological.rs:294-322 | the same for the running statistics |
| `Statistics.Correlations` | tesseract-core/src/topological.rs:294-322 | every coefficient equals the unclamped two-pass Pearson coefficient and lies in [-1, 1] |
| `Tiering.ReadsAreExact` | tesseract-storage/src/engine.rs:356-381 | under the invariant a read answers exactly what was acknowledged, for every partition order |
| `Tiering.MoveKeeps` | tesseract-storage/src/hot_store.rs:97-112 | moving drained records to a partition keeps every acknowledged record readable |
| `Tiering.InsertKeeps` | tesseract-storage/src/engine.rs:288-305 | a fresh id is always accepted, also on the retry after an eviction |
| `Tiering.PromotionKeeps` | tesseract-storage/src/lifecycle.rs:73-110 | promotion keeps the invariant and the capacity although it ignores errors |
| `TierStores.PromotionCopies` | tesseract-storage/src/lifecycle.rs:86-107 | promotion removes and changes nothing, adds only cold records, and if the hot store does not end full every cold id is hot |
| `Tiering.StepKeeps` | tesseract-storage/src/lifecycle.rs:73-139 | insert, promotion and demotion keep invariant and capacity |
| `Tiering.RunKeeps` | tesseract-storage/src/engine.rs:288-305 | so does every serial run with fresh ids |
| `Tiering.NothingLost` | tesseract-storage/src/engine.rs:356-381 | every insert of such a run is acknowledged and read back unchanged, and the hot store stays within its limit |
| `Tiering.NothingInvented` | tesseract-storage/src/engine.rs:356-381 | an id never inserted is never found |
| `TierDrains.FailedWriteSafeIff` | tesseract-storage/src/engine.rs:288-305 | on the state before the call: a failing cold write loses nothing, whatever the drain takes, if and only if every hot record with fewer than k records accessed less often has a cold copy |
| `TierDrains.FailedWriteLoses` | tesseract-storage/src/engine.rs:288-305 | a run whose only acknowledged record is no longer found after such a failure |
| `TierDrains.SurelyAcknowledgedIff` | tesseract-storage/src/engine.rs:288-305 | on the state before the call: every insert of a record is acknowledged, whatever the eviction takes, if and only if the store is not full, the id is not in it, or fewer than 100 other records are accessed at most as often as the old record |
| `TierDrains.DuplicateRetryFails` | tesseract-storage/src/engine.rs:288-305 | a run of 101 fresh inserts and one insert of a known id that fails |
| `Tiering.ReadBackIff` | tesseract-storage/src/engine.rs:288-305 | an acknowledged insert is what the next read answers unless its first attempt met another record under the id |
| `TierStores.HotStore.Insert` | tesseract-storage/src/hot_store.rs:57-77 | capacity is checked before duplicates, and only a stored record changes the map |
| `TierStores.HotStore.DrainLeastAccessed` | tesseract-storage/src/hot_store.rs:97-112 | exactly min(k, size) records leave, each once, ascending by access count, none accessed more than a record that stays |
| `TierDrains.CanStayIff` | tesseract-storage/src/hot_store.rs:97-112 | a record can survive a drain of k if and only if at least k others are accessed at most as often |
| `TierDrains.CanGoIff` | tesseract-storage/src/hot_store.rs:97-112 | a record can be taken by a drain of k if and only if fewer than k are accessed less often |
| `TierStores.ColdStore.WriteBatch` | tesseract-storage/src/cold_store.rs:108-152 | the partition's records grow by the batch, no earlier batch is overwritten, an empty batch does nothing |
| `TierStores.ColdStore.ReadPartition` | tesseract-storage/src/cold_store.rs:158-183 | reading batch files until one is missing returns everything ever written to the partition, in order |
| `TierStores.StorageEngine.Insert` | tesseract-storage/src/engine.rs:288-305 | is an insert step: a full store moves its 100 least accessed records, or all, to the partition of the day and tries again; otherwise nothing leaves |
| `TierStores.StorageEngine.Get` | tesseract-storage/src/engine.rs:356-381 | answers the hot record, else a cold record of that id, and nothing exactly if neither tier has the id |
| `TierStores.StorageEngine.RunPromotion` | tesseract-storage/src/lifecycle.rs:73-110 | is a promotion step over every partition once; it removes nothing, adds cold records, and if the hot store does not end full every cold id is hot |
| `TierStores.StorageEngine.RunDemotion` | tesseract-storage/src/lifecycle.rs:117-139 | is a demotion step: exactly the excess over the watermark moves to partition 0 |
| `JumpKeys.HalfCycle` | tesseract-cluster/src/jump_hash.rs:11-24 | 2^63 steps of the key recurrence flip the top bit and nothing else |
| `JumpKeys.WaitDecreases` | tesseract-cluster/src/jump_hash.rs:11-24 | so a key below 2^63 lies ahead of every key, and each step with a higher key brings it nearer |
| `JumpHash.StepForward` | tesseract-cluster/src/jump_hash.rs:11-24 | for every rounding with the properties of IEEE doubles: a float step never goes back, reaches a double or saturates, and goes forward below 2^53 or with a key below 2^63 |
| `JumpHash.StepIs` | tesseract-cluster/src/jump_hash.rs:19-22 | below 2^53 the next candidate is (b + 1) * 2^31 divided by the top 31 bits of the key plus one, up to rounding, and exactly where that is an integer |
| `JumpHash.CandidatesAre` | tesseract-cluster/src/jump_hash.rs:16-22 | over the whole sequence of a key: keys follow the linear recurrence, candidates start at 0 and each next one is that quotient |
| `JumpHash.StandsStillIff` | tesseract-cluster/src/jump_hash.rs:11-24 | at 2^53, when 2^53 + 1 rounds to it, the step stands still if and only if the divisor is the largest one |
| `JumpHash.ComputeBucket` | tesseract-cluster/src/jump_hash.rs:11-24 | for every such rounding and every number of buckets the loop terminates and computes the specified bucket: 0 for none, 2^64 - 1 from 2^63 on |
| `JumpHash.BucketIsCandidate` | tesseract-cluster/src/jump_hash.rs:15-23 | the bucket among n is the last candidate of the key below n |
| `JumpHash.ValidBucketIff` | tesseract-cluster/src/jump_hash.rs:11-24 | the bucket is in range if and only if the number of buckets is between 1 and 2^63 - 1 |
| `JumpHash.Consistent` | tesseract-cluster/src/jump_hash.rs:11-24 | a key whose bucket among n is below m has the same bucket among m |
| `JumpHash.GrowByOne` | tesseract-cluster/src/jump_hash.rs:11-24 | adding a bucket leaves a key in place or moves it to the new bucket |
| `JumpHash.GrowMovesIff` | tesseract-cluster/src/jump_hash.rs:11-24 | it moves the key if and only if the new bucket is one of its candidates |
| `TopK.RetainFirst` | tesseract-cluster/src/query_coordinator.rs:281-295 | retaining through a seen-set keeps exactly the hits at the first position of each id, in order |
| `TopK.MergeResults` | tesseract-cluster/src/query_coordinator.rs:281-295 | distinct ids, descending scores, each id's best score, min(limit, distinct ids) entries of the results, nothing left out that beats an entry |
| `TopK.Fuse` | tesseract-storage/src/engine.rs:435-442 | the engine's fusion is the ascending form of the same merge: a best-k list of all sources |
| `Sorting.SortIsStable` | tesseract-cluster/src/query_coordinator.rs:286-286 | sorting keeps the order of elements with equal keys |
| `TopK.TopIsTop` | tesseract-cluster/src/query_coordinator.rs:281-295 | sort, dedup and truncate give a best-k list for every input |
| `TopK.WithinTop` | tesseract-cluster/src/query_coordinator.rs:281-295 | for every threshold a best-k list has min(k, all) of the ids within it |
| `TopK.TopKeysUnique` | tesseract-cluster/src/query_coordinator.rs:281-295 | all best-k lists of the same hits have the same scores |
| `TopK.StagedMerge` | tesseract-cluster/src/query_coordinator.rs:281-295 | merging shards in stages with one limit gives the scores of merging them at once |
| `RateLimiter.Limiter.Check` | tesseract-api/src/rate_limiter.rs:42-57 | the request opens a new window exactly if the last one started longer ago than its length, else it counts in it, and is granted exactly within the limit; so verdict and windows are those of the whole trace |
| `RateLimiter.RateBound` | tesseract-api/src/rate_limiter.rs:42-57 | in any closed interval as long as the window one address gets at most 2 max - 1 grants, none if max is 0 |
| `RateLimiter.BoundIsReached` | tesseract-api/src/rate_limiter.rs:42-57 | for every limit some trace reaches that bound |
| `RateLimiter.KeepsLimitIff` | tesseract-api/src/rate_limiter.rs:42-57 | at most max grants in every monotone trace and every such interval if and only if max is at most 1 or the window has length 0 |
| `RateLimiter.IdleIsGranted` | tesseract-api/src/rate_limiter.rs:42-57 | an address that made no request for longer than the window is granted next |
| `RateLimiter.Independent` | tesseract-api/src/rate_limiter.rs:42-57 | the grants of an address depend only on its own requests |

## Left out

- Floating-point rounding, NaN and infinities: vectors, distances, statistics and scores are reals, and distances are totally ordered.
- Crashes that write garbage, lose directory entries or damage synced bytes; appending after reopening a torn segment; atomicity of the checkpoint file; uniqueness of transaction ids across a reopen without a checkpoint.
- WalStore.WriteAheadLog.constructor: opens an empty directory; reopening existing segments is not modelled.
- WalStore.WriteAheadLog.Recover: takes the checkpoint as a parameter and does not read the checkpoint file.
- Recall and latency of HNSW search, and the distribution of levels: the drawn level is an arbitrary number, capped as in the code; the cap uses the exact ceiling of log2.
- Edge symmetry and global reachability of the HNSW graph, which trimming does not preserve.
- HNSW vector conversion from 64-bit to 32-bit floats.
- The driver that moves replication batches is not in the repository; the protocol model composes the four operations in any order, and transaction ids are assumed strictly increasing from 1.
- ReplicationProtocol.ReplicationSafety: assumes enough hot capacity on the follower, because a full follower drops entries silently (`WholeLogAppliedIff` says exactly when).
- ReplicationProtocol.HandleReplicate: models the follower's store, not its vector index.
- Failover has no agreement between nodes, so nothing is claimed about a single leader.
- Merkle batches of mixed dimension beyond the skipping of odd vectors, the cosine formula (distance is a parameter), saving and loading the tree, and its search.
- MerkleIndex.ProgressiveTree.InsertBatch: requires a cluster size limit of at least 1 and batches of the tree's dimension.
- MerkleIndex.HotTier.Insert: requires vectors of the tree's dimension.
- Statistics.NumericalStats.Update: requires vectors of the tracker's dimension.
- VqlComplete.QueryComplete: is about texts whose words are separated; the parser also accepts some that run together, which `QuerySound` covers.
- VqlExact.RoundTripIff: assumes that floats are printed as decimal numerals, as finite floats are; infinities and NaN are not modelled.
- VQL error positions and kinds: a rejected text is only rejected.
- VQL planning and execution.
- CentroidTracker, NumericalBucketTracker and the topological bias, which would add easy members only.
- The bits of IEEE rounding: jump hash uses its monotonicity, its fixed points and exact doubling.
- Partial failures of a cold write (batch file written, metadata not), restarts of the cold store, and concurrent writers to one partition.
- TopK.MergeResults: is about merging alone; the distances that storage returns are ascending while the merge is descending.
- Overflow of the rate limiter's and the trees' 64-bit counters.
- The HTTP, gRPC, MCP and PostgreSQL front ends, authentication, embedding clients, discovery, configuration, the page cache, serialisation and compression.
