# Medusa: a verified model

Medusa is an in-memory data grid: a cluster of nodes holds named maps and FIFO queues in 271
partitions, each partition with one owner and a few backups. This project models the parts whose
correctness is not visible in any one function, and proves what they keep over every input, every
run and every crash point.

How the model is laid out:

- **Entries and records.** `Bytes`, `Entries` hold the common vocabulary: a node's contents as one
  flat map from (map name, key) to value and expiry, and the put/remove/clear records that the
  write-ahead log and the replication messages carry. Time is a parameter everywhere.
- **Queues.** `Packing`, `Queue`, `QueueStore`, `QueueLegacy`, `Transactions` take the queue from the
  packed segment bytes up to the critical section that runs an operation on the store; `QueueRuns` takes
  them over whole runs on a node's entries, `QueueReplica` on a backup that misses deletes; `QueueLoading`
  and `QueueSessions` through snapshot, log and restart; `QueueCrash` and `QueueDurability` say what a
  crash inside an operation leaves behind.
- **Durability.** `Wal`, `Recovery`, `Durability` model the log file byte by byte and the protocol of
  log, checkpoint, crash and restart as a step machine; `Service` is the node as a class, and
  `NodeRuns` shows that it goes through that machine.
- **The store.** `Stores` is the array of shards with nested maps, as a class; `Digest` the partition
  digest.
- **Placement and membership.** `Sorting`, `PartitionTable` (the table as a class filling arrays),
  `Membership` (the cluster view as a class), `Phi` (the failure detector's window).
- **Moving data.** `Transfer`, `Migration`, `MigrationPass` are the hand-off to a new table, `Lifetimes`
  and `Rebalance` what it keeps and where it ends; `AntiEntropy`, `Convergence` the repair of backups;
  `Handlers` connects both to the store class; `Failover` is writing through the owner and reading past
  failed nodes, `Continuity` reading during a hand-off, `Execute` a processor's result on its way to the
  backups.
- **Computing on data.** `Aggregate` and `FencedLock`.

Where the program changes things in place the model does too: `Stores.Store`,
`Transactions.Transaction`, `Service.Node`, `Service.LogFile`, `PartitionTable.Table`,
`Membership.Cluster` and `Phi.PhiHistory` are classes, each proved against a function of its abstract
contents; the properties are then proved about those functions.

The partition hash, the placement weight and the payload encoding are parameters: the results hold for
every hash into [0, 271), every weight function and every pair of inverse encoding functions.

## Where the code falls short of a plain statement

Each of these is proved as an exact condition, or with the input that shows it.

- A queue operation logs two records. If the crash keeps only the first, the entries are no longer a
  queue, unless the operation offered into an empty queue (`QueueCrash.TornOperationIsAQueueIff`,
  `QueueDurability.QueueAfterCrashIff`). A torn offer that rolled to a new segment can later lose an
  acknowledged item (`QueueCrash.TornRollLosesAcknowledgedItem`). The comments at
  imap/service.go:542-549 and imap/queue.go:138-144 call the operation and its log records one atomic
  unit; that is so for other operations, not across a crash, and the model follows the code.
- Replay skips a logged put that has lapsed. When that put overwrote a value that has not lapsed, the
  older value comes back (`Recovery.LapsedOverwriteResurrects`); recovery is exact on a key if and only
  if the key is not in that position (`Recovery.ReplayIsExactIff`, `Durability.RecoveryExactIff`). Runs
  go on after such a recovery: the keys it brought back are set apart until they are written again, and
  every other key is exact (`Durability.CrashRecovery`).
- The log accepts records that replay refuses: beyond 128 MiB, replay stops
  (`Wal.ReplayCompleteIff`).
- A queue item of 2^32 - 4 bytes or more is not given back (`Queue.OfferThenPollIff`).
- Over a table with no members a migration pass drops what it holds
  (`Migration.EmptyTableDropsLastCopy`).
- An entry in the last millisecond of its life is not pushed, yet dropped with the rest: a hand-off
  without any failure keeps an only copy if and only if one of its pushes was made with a millisecond
  left (`Lifetimes.LoneHandOffIff`), which comes down to the clock reading for the first target
  (`Lifetimes.FirstReadingDecides`, `MigrationPass.HandOffAlone`). A copy with more at the snapshot and
  less at that reading is dropped too. `Lifetimes.LastMillisecondDropped` is a run that loses one.
- A processor's result is sent to the backups with its remaining lifetime in whole milliseconds, and
  zero means forever (imap/service.go:514). Less than a millisecond before its expiry, the backups
  therefore get a copy that reads return for good after the owner's has lapsed
  (`Execute.LapsedStillRead`); reads stop if and only if there was a millisecond left at the send
  (`Execute.ReadsStopIff`, `Execute.ExecuteThenReads`).
- An old log holds a value of the old queue form for each operation, and replay converts one over the
  other. When the queue shrank, segments of an earlier conversion stay above the new tail and what is
  left is no queue (`QueueLegacy.LegacyReplayIff`).
- A backup whose contents differ under an equal digest is never repaired
  (`Convergence.BackupsConvergeIff`).
- A lock's tokens increase exactly as long as the 64-bit fence does not wrap
  (`FencedLock.TokensIncreaseIff`).

## Model

| member | source | states |
|---|---|---|
| Packing.HeadOfPack | imap/queue.go:117-136 | Reading the head of a packed segment gives back the first item packed and exactly the packing of the rest |
| Packing.PackAppend | imap/queue.go:129-136 | Appending to the packed bytes is packing one more item: segments can be extended without unpacking them |
| Packing.UnpackPack | imap/queue.go:103-136 | Packing and then taking heads until none is left returns the same items in the same order |
| Packing.PackLength | imap/queue.go:103-114 | A packed segment is empty exactly when it holds no item, and is at least four bytes per item |
| Packing.ShortIsConvertible | imap/queue.go:117-126 | No stream below 4 GiB can make the 32-bit slice bound wrap while it is taken apart |
| Queue.OfferKeeps | imap/queue.go:150-168 | An offer keeps the queue invariant: segments at most 64 KiB or of a single item, chained from head to tail, count exact; the chain grows by the item at its end |
| Queue.PollKeeps | imap/queue.go:170-204 | A poll keeps the same invariant, with whatever stale segments lie below the head or at a drained tail |
| Queue.StepRefinesFifo | imap/queue.go:145-224 | Every operation answers as a plain FIFO sequence would and leaves cells that stand for its next state; head and tail never go back and the tail moves at most one |
| Queue.RunRefinesFifo | imap/queue.go:145-224 | The same over every run of operations, replies included |
| Queue.FifoConserves | imap/queue.go:145-224 | For the reference FIFO, initial items followed by the offered ones are the delivered ones followed by what is left |
| Queue.RunConserves | imap/queue.go:145-224 | Over every run of the stored queue nothing is lost, duplicated or reordered |
| Queue.PartialPollIsSafe | imap/queue.go:170-204 | With the metadata and any subset of the segments, a poll reports empty and changes nothing, or returns the true head and leaves a partial view of the true next state |
| Queue.OfferThenPollIff | imap/queue.go:117-136 | From a drained queue an offered item comes back if and only if it is shorter than 2^32 - 4 bytes |
| QueueCrash.RepresentsOneSequence | imap/queue.go:145-224 | The stored bytes stand for at most one sequence of items |
| QueueCrash.TornOperationIsAQueueIff | imap/service.go:551-590 | Keeping the first j records of an operation leaves a queue if and only if all or none were kept or the operation offered into an empty queue; all kept it holds what the FIFO would, in the other cases what it held before |
| QueueCrash.TornRollLosesAcknowledgedItem | imap/queue.go:150-168 | After a torn offer that rolled, a later acknowledged item is never handed out, while the unacknowledged one is |
| QueueStore.MetaRoundTrip | imap/queue.go:85-98 | The 24-byte metadata encoding decodes to the same head, tail and count |
| QueueStore.SegKeyInjective | imap/queue.go:76-81 | Different segment ids or queue names never share an entry key |
| QueueStore.QueueIsPartitionAffine | imap/queue.go:59-81 | A queue's metadata and all its segments live in one partition, that of the queue's name |
| QueueStore.PlanInRange | imap/queue.go:145-224 | Whatever the entries hold, every id and counter an operation writes fits its 64-bit field |
| QueueStore.OtherKeysUntouched | imap/queue.go:76-98 | A write of one queue's cells leaves every other queue's cells as they were |
| QueueStore.StoredStepRefinesFifo | imap/queue.go:145-224 | On a node's entries, one operation is one FIFO step of that queue; all other queues keep their contents and all other maps their values |
| QueueStore.CellsAnyTime | imap/queue.go:145-224 | Queue entries carry no expiry, so a queue reads the same at every instant |
| QueueRuns.NoQueues | imap/queue.go:85-90 | A node without queue entries starts a run with every queue empty and room for any number of operations below 2^64 |
| QueueRuns.OperateStep | imap/queue.go:145-224 | An operation at one instant is a FIFO step of its queue as read at any other, keeps queue entries free of expiries and leaves every other queue as it was |
| QueueRuns.FifosAreIndependent | imap/queue.go:145-224 | In the reference, only the operations on a queue decide its contents and its replies |
| QueueRuns.OrdinaryMapsRun | imap/queue.go:145-224 | Over every run an ordinary key is as if there were no queues |
| QueueRuns.RunIsIndependentFifos | imap/queue.go:145-224 | Over every run of operations on any queues of one node, at any instants, among writes to ordinary maps, clears and sweeps, each queue answers and ends as a FIFO of its own |
| QueueReplica.TrailingIsAQueue | imap/queue.go:170-204 | A backup with the owner's cells and any leftover segments up to the tail stands for the same items |
| QueueReplica.ReplicaStep | imap/queue.go:157-204 | After any operation whose sets it receives, with its deletes missed or not, the backup again trails the owner and stands for the FIFO's next state |
| QueueReplica.ReplicaRunIsAQueue | imap/queue.go:157-204 | So it does over every run, whichever deletes were missed |
| QueueReplica.PromotedReplicaIsFifo | imap/queue.go:157-204 | And if it becomes the owner, every further run answers as the FIFO does |
| QueueLegacy.LegacyUpgradePreservesItems | imap/queue.go:306-335 | Loading the conversion of any old-form value makes a well-formed queue holding exactly the items of its longest valid prefix, in order |
| QueueLegacy.LegacyReplayIff | imap/service.go:1031-1033 | Loading an old-form value with an item over any entries leaves a queue if and only if no segment lies above the new tail, and that queue holds the value's items |
| QueueLoading.OperationLoadsAsWritten | imap/store.go:234-245 | What a queue operation logs is loaded, at any instant, as exactly what it wrote: none of it is taken for the old form or for lapsed |
| QueueLoading.LoadedOperation | imap/service.go:1024-1043 | Loading the records of any operation, whatever the cells, does to the queue what the operation did, and nothing to other queues and ordinary keys |
| QueueLoading.LoadedMetadata | imap/store.go:234-245 | Where nothing is stored for a queue, its metadata value is loaded as it is if it has 24 bytes or none, and any other makes the queue of the items packed in it |
| QueueLoading.UpgradeQueue | imap/store.go:234-245 | The store's own load of an old-form value leaves that queue |
| QueueSessions.RequestKeepsQueues | imap/service.go:551-590 | Any request but a hand-off leaves each queue as its FIFO, moved on by the operation if it was one on it |
| QueueSessions.ServedKeepsQueues | imap/service.go:551-590 | So do any requests, checkpoints and sweeps among them, and what they log never expires in a queue and is of the current form |
| QueueSessions.Session | imap/service.go:551-590 | A node that serves any such requests goes through a run of the durability protocol, with each queue the FIFO of the operations on it |
| QueueSessions.RebootLasts | imap/service.go:1006-1058 | What its disk recovers keeps queue entries for good, and is all that was acknowledged |
| QueueSessions.Reboot | imap/service.go:1006-1058 | Crashed between requests and started anew from its last snapshot and log, it has in every queue the items its FIFO has, and goes on serving; so through any number of restarts, whatever other keys they bring back |
| QueueLegacy.ConvertLegacyQueue | imap/queue.go:306-335 | The regrouping loop emits exactly the entries that offering the items one by one would have built, metadata last, and nothing for a value without items |
| Wal.ReplayFrames | imap/wal.go:97-194 | Replay applies every framed record in order before going on with what follows them |
| Wal.NextOfTorn | imap/wal.go:154-194 | No proper prefix of a frame is taken for a record |
| Wal.NextOfOversized | imap/wal.go:154-194 | A frame beyond the replay cap ends the replay |
| Wal.ReplayTorn | imap/wal.go:154-194 | Any records followed by any proper prefix of another frame replay to exactly those records and their byte length |
| Wal.ReplayChopped | imap/wal.go:154-211 | Any file, chopped to the length replay found, replays to the same records |
| Wal.ReplayAfterChop | imap/wal.go:154-211 | Whatever bytes the file holds, chopping it to the replayed length and appending makes a log that replays to the old records and then the new ones |
| Wal.ReplayPrefix | imap/wal.go:97-194 | Any byte prefix of a log replays to a record prefix that includes every record written completely |
| Wal.ReplayCompleteIff | imap/wal.go:97-194 | A log of whole frames replays completely if and only if no payload exceeds 128 MiB |
| Wal.ReplayEndsAtCorrupt | imap/wal.go:154-194 | Replay ends at the first payload that does not decode; nothing behind it is applied or kept |
| Wal.ReplayPassesUnknown | imap/wal.go:154-194 | A record with an unknown operation is passed over and those behind it count |
| Recovery.PutsBuild | imap/store.go:223-245 | Loading a listing of all entries into an empty store rebuilds the same map |
| Recovery.RestoreBuilds | imap/service.go:1006-1018 | Restoring a listing at an instant rebuilds the map without what has lapsed |
| Recovery.ReplayIsExactIff | imap/service.go:1006-1043 | Skipping lapsed records yields the same live contents as applying all of them if and only if no key is resurrected |
| Recovery.NoStalePutNoResurrection | imap/service.go:1024-1043 | In particular whenever no logged put has lapsed |
| Recovery.LapsedOverwriteResurrects | imap/service.go:1024-1043 | The smallest log on which an overwritten value comes back |
| Durability.LogReplays | imap/wal.go:97-194 | In every state of the protocol the log replays to the acknowledged records it still holds and a prefix of the operation in flight |
| Durability.ReplayIsIdempotent | imap/service.go:1082-1092 | Replaying the tail of a history over a snapshot that already reflects it changes nothing visible |
| Durability.RecoveryExactIff | imap/service.go:1006-1058 | Key by key: recovery shows what the acknowledged records and a prefix of the operation in flight make of it if and only if it does not resurrect that key |
| Durability.StepKeepsInv | imap/service.go:62-83 | Every micro-step, including partial log writes, checkpoint halves, crashes and recoveries, keeps the protocol invariant: disk and memory agree with what counts on every key, but for those a recovery resurrected and nothing has written since, and what counts for these has lapsed |
| Durability.RunKeepsInv | imap/service.go:62-83 | So does every run, with any number of crashes and whatever the recoveries resurrect |
| Durability.RisenAfterLapsed | imap/service.go:1024-1043 | A recovery resurrects a key only when the last acknowledged word on it is a put that has lapsed |
| Durability.RisenWereBroughtBack | imap/service.go:1024-1043 | A key counts as resurrected only because some recovery of the run resurrected it |
| Durability.CrashRecovery | imap/service.go:1006-1092 | After any run: a running node shows, on every key but those resurrected before and not written since, everything acknowledged and the operation in flight; a crashed one, once recovered, shows from then on everything acknowledged and some prefix of that operation, on exactly the other keys that this recovery does not resurrect; each exception has a lapsed value |
| Durability.CleanCrashRecovery | imap/service.go:1006-1092 | The live contents as a whole: in a run without resurrections a running node shows everything acknowledged and the operation in flight, and a crashed one recovers everything acknowledged and some prefix of that operation if and only if this recovery resurrects no key |
| QueueDurability.TornInStore | imap/service.go:551-590 | A prefix of an operation's records leaves the cells that the same prefix of its writes leaves |
| QueueDurability.RecoveredCells | imap/service.go:551-590 | Whatever other keys the recoveries resurrect, a queue recovers the cells of its operation cut off where the log was |
| QueueDurability.QueueAfterCrashIff | imap/service.go:551-590 | After any run, crash and recovery, resurrections of other keys included, at every later instant, a queue with an operation in flight is a queue again if and only if that operation was logged whole, not at all, or offered into an empty queue; logged whole it holds what the FIFO would, otherwise what it held before |
| Digest.EntryHashIsStreamHash | imap/store.go:181-219 | Hashing field after field is hashing one length-prefixed byte stream |
| Digest.StreamInjective | imap/store.go:164-205 | That stream determines map name, key and value, whatever bytes they contain |
| Digest.MixInjective | imap/store.go:207-219 | One round of the hash loses nothing: with the byte it determines the state before it, with the state the byte |
| Digest.FnvTellsOneByte | imap/store.go:207-219 | Changing any one byte of a stream changes its hash |
| Digest.EntryHashTellsOneByte | imap/store.go:181-219 | So does changing one byte of an entry's map name, key or data |
| Digest.DigestWithout | imap/store.go:181-205 | Removing any one entry takes exactly its hash out of the digest, independently of the order the digest was accumulated in |
| Digest.DigestWith | imap/store.go:181-205 | Adding one entry XORs its hash in, and adding and removing undo each other |
| Digest.DigestTellsOneByte | imap/store.go:181-205 | Partitions that differ in one byte of one entry have different digests |
| Digest.DigestOfListing | imap/store.go:181-205 | Every iteration order gives the same digest, which depends on the live keys and bytes alone |
| Stores.ViewAfter | imap/store.go:91-107 | Replacing one shard changes the store's contents on that partition's keys and on no other |
| Stores.Store.constructor | imap/store.go:42-48 | A new store is empty in every shard |
| Stores.Store.Get | imap/store.go:53-66 | Returns the bytes under the key if live, and nothing otherwise |
| Stores.Store.GetEntry | imap/store.go:73-86 | Returns the live value with its expiry |
| Stores.Store.PutEntry | imap/store.go:91-107 | Sets one key of the whole store and nothing else; reports whether it was live before |
| Stores.Store.RemoveEntry | imap/store.go:598-613 | Removes one key and nothing else; reports whether it was live |
| Stores.Store.Update | imap/store.go:497-530 | Applies the processor to the live value as one record, which is what the log gets; a live entry keeps its expiry |
| Stores.Store.SnapshotPartition | imap/store.go:145-162 | Lists every live entry of the partition exactly once |
| Stores.Store.PartitionDigest | imap/store.go:181-205 | The accumulating loop computes the digest of the live contents of the partition |
| Stores.Store.SnapshotAll | imap/store.go:223-229 | Lists every live entry of the store exactly once |
| Stores.Store.ClearMap | imap/store.go:476-490 | Empties the named map in every shard, as one clear record would, and lists what it held exactly once |
| Stores.Store.SweepExpired | imap/store.go:312-332 | Removes exactly what no reader could see, and returns how many entries that was |
| Stores.Store.DropMigrated | imap/store.go:258-279 | Drops the listed entries that are stored as captured and reports them; the drop is the removal of exactly the reported keys |
| Stores.Store.PruneToKeyset | imap/store.go:289-308 | Leaves of the partition exactly the listed keys, leaves all other partitions alone, and lists what it dropped |
| Stores.Store.LoadAll | imap/store.go:234-245 | Loads entries in order, each into its own partition, converting old-form queues |
| Stores.PruneIsRemovals | imap/service.go:126-139 | A prune is the removal, in any order, of the keys it reported |
| Transactions.Transaction.Get | imap/store.go:532-594 | Inside the critical section a read sees every write made so far in it |
| Transactions.Transaction.SetTo | imap/store.go:532-594 | A write changes the store and is appended to the mutation list, which still leads from the entries at the start to those now |
| Transactions.Transaction.Del | imap/store.go:532-594 | So does a delete |
| Transactions.MutationsAreFaithful | imap/store.go:556-594 | The mutation list brings any store that looked the same before the section to look the same after it, at every later instant |
| Transactions.QueueOp | imap/queue.go:145-224 | The code that reads and writes through the accessors performs exactly the planned operation, in the planned order of writes, for every operation and every content |
| Service.LogFile.AppendRecord | imap/wal.go:97-116 | Appends exactly one frame |
| Service.LogFile.ChopTail | imap/wal.go:199-211 | Chopped to the length replay found, the file replays to the same records with nothing behind them |
| Service.Node.ApplyPut | imap/service.go:147-179 | Store and log change by the same one record; reports whether the key was created |
| Service.Node.ApplyRemove | imap/service.go:221-270 | Store and log change by the same one record, which is written even if the key was absent |
| Service.Node.LocalClearMap | imap/service.go:879-894 | One clear record for the whole map, none when it was empty, and the store as the record says either way |
| Service.Node.ApplyExecute | imap/service.go:469-511 | Store and log change by the same record, the one the processor's action amounts to |
| Service.Node.ApplyQueueExecute | imap/service.go:551-590 | Store and log change by the same records, those of the queue operation, and the reply is the operation's |
| Service.Node.DropMigratedLogged | imap/service.go:85-114 | Store and log change by the same removals, of exactly the entries still as captured |
| Service.Node.PruneToKeysetLogged | imap/service.go:116-139 | Store and log change by the same removals, of exactly the keys outside the key set |
| Service.Node.Checkpoint | imap/service.go:1082-1092 | The snapshot lists every live entry once and the log is empty afterwards |
| Service.Node.Restore | imap/service.go:1006-1018 | Loads what has not lapsed, in order |
| Service.Node.OpenWAL | imap/service.go:1024-1058 | Applies what replay finds in any file, in order, and leaves the file chopped to those records |
| Service.Node.Restart | imap/service.go:1006-1058 | Restore and replay together give the recovered contents that the crash results are about |
| NodeRuns.Perform | imap/service.go:74-139 | Each request logs what it asks for, given the entries it finds, and entries and log file change by the same records; only a checkpoint changes the snapshot |
| NodeRuns.Serve | imap/service.go:74-83 | Each request logs what it is to log given what the ones before it left; as long as those records fit the replay cap and the current queue form, the node's entries, its log file and its last snapshot go through a run of the durability protocol that acknowledges exactly them |
| NodeRuns.NothingServedIsLost | imap/service.go:1006-1058 | A node that has served any requests and goes down shows, recovered from its last snapshot and its log, what it showed: on every key that was not resurrected before, if and only if this recovery does not resurrect it |
| NodeRuns.DiskIsLoadable | imap/service.go:1006-1058 | What the disk of any run holds can be loaded |
| NodeRuns.Resume | imap/service.go:1006-1058 | A node restarted on the disk of any crashed run goes on with that run, with the keys its recovery resurrects |
| PartitionTable.InputOrderIrrelevant | partition/table.go:73-121 | Nodes that see the same members, listed in any order, compute the same holders for every partition |
| PartitionTable.RankingAfterLeave | partition/table.go:46-121 | The replica order after any set of members leaves is the old order with them taken out |
| PartitionTable.OwnerAfterLeave | partition/table.go:73-167 | When members leave, the new owner is the first old holder that stayed |
| PartitionTable.RankingAfterJoin | partition/table.go:46-121 | Taking a newcomer out of the new order gives the old order |
| PartitionTable.JoinMovesOnlyToNewcomer | partition/table.go:73-121 | A join moves ownership only to the newcomer, and makes no other node a holder |
| PartitionTable.HoldersDistinct | partition/table.go:73-167 | The holders are distinct members, exactly min(backups, n-1)+1 of them |
| PartitionTable.HoldersAreHeaviest | partition/table.go:83-121 | A holder weighs at least as much as every later holder and every member that is no holder |
| PartitionTable.OwnerIsHeaviest | partition/table.go:83-121 | The owner weighs at least as much as every member |
| PartitionTable.Table.constructor | partition/table.go:73-121 | The arrays filled from sorted (weight, index) scratch rows hold, for every partition, the ranking's owner and backups |
| PartitionTable.Table.FillRow | partition/table.go:73-121 | One partition's row holds its next-ranked members, then -1, and no earlier row changes |
| PartitionTable.Table.OwnerOf | partition/table.go:132-138 | Looks up the first holder, or the empty id without members |
| PartitionTable.Table.NumBackups | partition/table.go:143-152 | Counts the holders after the owner |
| PartitionTable.Table.BackupAt | partition/table.go:158-167 | Looks up the i-th holder after the owner, and none out of range |
| Phi.IntervalsPositive | cluster/phi.go:58-74 | Only positive intervals are ever accepted |
| Phi.IntervalsOfIncreasing | cluster/phi.go:58-74 | Heartbeats at increasing instants contribute every gap between two of them |
| Phi.VarianceNonNegative | cluster/phi.go:83-95 | n times the sum of squares is at least the square of the sum, so the clamp never acts |
| Phi.VarianceIsSpread | cluster/phi.go:83-95 | The variance from the two running sums is the mean squared deviation from the mean |
| Phi.PhiHistory.Record | cluster/phi.go:58-74 | After any heartbeats the ring holds exactly the last min(k, 200) accepted intervals, and the running sums are theirs |
| Phi.PhiHistory.Warm | cluster/phi.go:76-79 | Warm exactly when enough intervals were accepted |
| Phi.PhiHistory.StdDev | cluster/phi.go:79-95 | A warm history has a positive mean; the deviation is the root of the mean squared deviation from it, and at least half the mean |
| Membership.StepKeepsGood | cluster/membership.go:113-194 | Every event keeps: self a member, no id both member and tombstoned, counters and histories for other members only, the table that of the current ids |
| Membership.RunKeepsGood | cluster/membership.go:113-194 | So does every run of merges, leaves, joins, heartbeats and prunings |
| Membership.StepVersions | cluster/membership.go:58-65 | No event lowers a version; the ids change only with the table version and the members only with the version |
| Membership.RunVersions | cluster/membership.go:58-65 | Equal table versions at two points of any run mean equal ids and equal versions mean equal members |
| Membership.TombstoneHolds | cluster/membership.go:117-194 | Over any run a tombstoned id is back only after an explicit join of it or the expiry of its tombstone |
| Membership.EvictedStaysOut | cluster/membership.go:117-194 | A member that left or was evicted at an instant is out, tombstoned with it, over any run until it joins again itself or its tombstone is pruned with a lifetime that has passed since |
| Membership.PrunedIsReadmitted | cluster/membership.go:117-144 | After a prune, gossip brings a tombstoned member back if and only if that lifetime has passed |
| Membership.GossipAdmits | cluster/membership.go:117-144 | A gossiped id that is not this node's, not empty and not tombstoned is a member afterwards |
| Membership.GossipUpdatesAddress | cluster/membership.go:117-144 | Its address is the last one gossiped for it |
| Membership.GossipIgnores | cluster/membership.go:117-144 | Gossip changes neither this node nor the tombstoned nor those it does not mention |
| Membership.JoinAdmits | cluster/membership.go:177-194 | An explicit join makes a member, at the address given, with no tombstone, misses or history |
| Membership.AnsweredClears | cluster/membership.go:322-366 | An answered heartbeat evicts nobody, clears the misses and extends the history |
| Membership.MissedProbe | cluster/membership.go:322-366 | A missed heartbeat evicts a peer with enough history if and only if it is suspect, another if and only if it fills the count |
| Membership.ColdPeerStays | cluster/membership.go:322-366 | Over any run, below the threshold a peer without enough history stays, its missed heartbeats counted |
| Membership.ColdPeerEvicted | cluster/membership.go:322-366 | It is evicted by exactly the missed heartbeat that makes threshold of them in a row, whatever else goes on |
| Membership.SameIdsSameTable | cluster/membership.go:58-65 | Tables built from the same id set assign every partition alike |
| Membership.Cluster.constructor | cluster/membership.go:40-52 | Starts with itself as the only member |
| Membership.Cluster.Rebuild | cluster/membership.go:58-65 | Builds the table of exactly the current ids and counts a new table version |
| Membership.Cluster.MergeView | cluster/membership.go:117-144 | Is the merge event, and reports a change exactly when the version moved |
| Membership.Cluster.Remove | cluster/membership.go:148-173 | Is the leave event; removes nobody but another present member |
| Membership.Cluster.Rejoin | cluster/membership.go:178-194 | Is the join event, which lifts the tombstone |
| Membership.Cluster.Heartbeat | cluster/membership.go:335-364 | Is the heartbeat event; evicts only the peer it was sent to |
| Membership.Cluster.DetectFailures | cluster/membership.go:322-366 | Probes every other member, each once, and evicts exactly those it reports |
| Membership.Cluster.PruneTombstones | cluster/membership.go:437-450 | Is the pruning event and touches nothing else |
| Membership.Cluster.TableWithout | cluster/membership.go:455-465 | The hypothetical table has the current holders with that member taken out of the order |
| Transfer.OrderQueueMetaLast | imap/queue.go:342-353 | One pass moves the queue metadata behind everything else, keeping the order within both groups |
| Transfer.MetaLastListsSame | imap/queue.go:337-353 | The reordering loses and repeats nothing |
| Transfer.MetaLastPrefixIsComplete | imap/queue.go:337-353 | After any number of pushes in that order into an empty receiver, each queue is without metadata or complete |
| Migration.TargetsAreHolders | imap/service.go:648-669 | A node pushes to exactly the other holders, and knows whether it is one |
| Migration.SafeStep | imap/service.go:636-698 | Every single snapshot, push or drop of any node, other than passing over the key in its last millisecond, keeps it somewhere |
| Migration.NoLastCopyDropped | imap/service.go:636-698 | Under every interleaving of passes with any lost requests, lost replies and unknown addresses, the last copy of a key that no push passes over is not dropped, whether it expires or not |
| Migration.EmptyTableDropsLastCopy | imap/service.go:636-698 | Over a table without members a pass drops the only copy |
| Migration.LapsesInFlightIff | imap/service.go:678-681 | An entry is left out of a push exactly in the last millisecond of its life |
| Migration.ReplicaNeverExpiresIff | imap/service.go:803-808 | A copy never expires exactly if the original does not or had less than a millisecond left; otherwise its lifetime is the original's, less at most a millisecond |
| Lifetimes.HopCosts | imap/service.go:803-808 | A push costs a copy less than a millisecond of its lifetime, and a push of another key nothing |
| Lifetimes.LivingKeyKept | imap/service.go:636-698 | Over every run, a key whose copies outlive the run by a millisecond for each push of that key in it is somewhere at the end, and alive |
| Lifetimes.LoneHandOffIff | imap/service.go:674-695 | A failure-free hand-off by a node with the only live copy, whatever its clock reads, keeps the key if and only if one of its pushes was made with a millisecond left to live |
| Lifetimes.FirstReadingDecides | imap/service.go:674-695 | With a clock that does not run backwards, read once for each target, that is so if and only if the key never expires or has a millisecond to live at the first target's reading |
| Lifetimes.LastMillisecondDropped | imap/service.go:674-695 | The run in which the only copy is passed over and dropped before it has expired |
| Rebalance.FaithfulStep | imap/store.go:258-279 | A node that is no holder still has what its pass captured, so its drop removes it |
| Rebalance.Completes | imap/service.go:636-698 | When every node has finished a failure-free pass over a key's partition, each holder has it if any node had it and no other node does, for any description of its copies that holds along the run |
| Rebalance.RebalanceCompletes | imap/service.go:636-698 | So a key whose copies agree and never expire ends up on each holder, unchanged, and nowhere else |
| Rebalance.LivingRebalanceCompletes | imap/service.go:636-698 | And a key that expires, given a millisecond for each push of it, with its bytes and alive on each holder and nowhere else |
| MigrationPass.ReachesIsRun | imap/service.go:636-698 | A pass is one of the runs the safety and completion results are about, made of this node's steps at its clock readings, with the fate of each message to its target |
| MigrationPass.FindTargets | imap/service.go:648-669 | The loop over the backups finds the targets and whether this node holds the partition |
| MigrationPass.PushToTarget | imap/service.go:671-686 | Pushing to one target is a run of sends, one per entry, all with the same sending instant; with an unknown address the pass no longer counts as successful |
| MigrationPass.MigratePartition | imap/service.go:640-695 | One partition's hand-off is a run of the step machine: a snapshot, sends whose readings do not fall if the clock does not, and the end; without failures it settles the partition |
| MigrationPass.HandOffAlone | imap/service.go:640-695 | The hand-off as the loops make it, without failures, loses an only copy if and only if it is within a millisecond of its expiry at the first target's reading |
| MigrationPass.HandOffDoneIff | imap/service.go:671-695 | A hand-off counts as done if and only if every push of it was answered, or passed over with the address known |
| MigrationPass.HandOffDelivers | imap/service.go:671-686 | One partition's hand-off leaves every other holder that answers with a copy of each lasting key of it, whatever becomes of the sends to the others |
| MigrationPass.HandOffKeepsOthers | imap/service.go:640-695 | It leaves every key of another partition alone, on every node |
| MigrationPass.Migrate | imap/service.go:636-698 | The whole pass is the hand-offs of the partitions before the first cancelled one, in order; it is full exactly when never cancelled; each other holder that answers gets a copy of every key of theirs not within a millisecond of its expiry, whatever becomes of the others; a full pass without failures settles every partition |
| AntiEntropy.PartitionDigest | imap/store.go:181-205 | The digest that is probed with is the digest of the live contents |
| AntiEntropy.Probe | imap/service.go:737-756 | A reachable backup is found stale only if some digest comparison differs, and passed over only if one agrees |
| AntiEntropy.PushLive | imap/service.go:757-783 | The key set is what the owner holds and found live; every stale reachable backup receives a copy of each of its keys, nobody else changes, and each entry counts once |
| AntiEntropy.Reconcile | imap/service.go:784-793 | Every stale reachable backup drops exactly what is outside the key set; a receiver that owns the partition ignores the request |
| AntiEntropy.Visit | imap/service.go:737-796 | One partition's visit leaves each reachable backup unchanged under an agreeing digest or rebuilt from the owner, and on any node, whatever messages are lost, takes away no key that the owner shows throughout; other partitions and other nodes are untouched; it counts the owner's live keys if a backup that answers has diverged, and none if all are in step |
| AntiEntropy.SyncBackups | imap/service.go:733-799 | For any start and batch, negative ones included, the call visits exactly the next batch partitions cyclically and returns where to resume and the sum of what the visits count; when every backup answers with the owner's digest it pushes nothing and changes nothing |
| Convergence.RebuiltConverges | imap/service.go:757-793 | A rebuilt backup shows the owner's keys and bytes, with expiries that outlast the window if the owner's do |
| Convergence.OwnVisit | imap/service.go:733-799 | One visit by the owner makes a reachable backup show the owner's contents, or the digests collide |
| Convergence.AnyVisit | imap/service.go:733-799 | No visit by any node undoes that |
| Convergence.BackupsConvergeIff | imap/service.go:733-799 | From arbitrary contents, any series of calls by any nodes, each threading its cursor, in which the owner covers 271 partitions leaves a reachable backup with exactly the owner's live entries if and only if the contents did not start out different with equal digests |
| Convergence.OneByteIsRepaired | imap/service.go:733-799 | In particular it always does when all that was different is one byte of one entry |
| Handlers.HandOffDropsUnchanged | imap/store.go:258-279 | What the store's compare-and-delete and its log records leave is the store without the entries still as captured: a racing write survives |
| Handlers.GroupKeys | imap/service.go:1219-1227 | The reconcile handler's nested key set contains exactly the listed keys |
| Handlers.PruneIsReconcile | imap/service.go:1208-1231 | The store's prune is the prune anti-entropy asks for |
| Failover.ReplicatePut | imap/service.go:276-294 | Every reachable backup receives the value, nothing but this key on holders changes, and the owner's own entries do not |
| Failover.PutAtOwner | imap/service.go:147-179 | The owner stores the value and every reachable backup receives it; nothing but this key on holders changes |
| Failover.PutAtBackup | imap/map.go:100-123 | With the owner out of reach, the write lands on the first backup in replica order that takes it, all before it having failed and none after it being touched; it fails only if every backup did, so never when one answers or is this node |
| Failover.Put | imap/map.go:86-124 | One holder that answers, this node included, is enough for a write to be acknowledged; acknowledged it is on some holder, with the owner answering on every backup that does, with the owner out of reach on the first backup that takes it, and on every holder when all are reachable; reserved maps are refused; no other key changes |
| Failover.AskBackups | imap/map.go:50-71 | The answer is that of the first backup, in replica order, that has the key; an error is reported exactly when the last backup consulted did not answer |
| Failover.Get | imap/map.go:131-173 | The answer is that of the first holder, in replica order, that has the key, and none exactly when no reachable holder has it |
| Failover.StayingHoldersLead | cluster/membership.go:455-465 | After any members leave, the old holders that stayed come first, in their old order |
| Failover.ReadSurvivesFailures | imap/map.go:131-173 | Whichever members were removed and whichever nodes do not answer, every node reads the value that the old holders which stayed have, as long as one of them answers |
| Failover.WriteSurvivesFailures | imap/map.go:131-173 | So does a write that reached every holder, unwritten on those that stayed and alive since |
| Failover.PutThenGet | imap/map.go:86-173 | A Put with all holders reachable and then a Get by any node, with members removed and nodes silent but for one holder, returns the value |
| Continuity.HolderKeepsThroughout | imap/service.go:636-698 | Through any run of passes with any failures, a holder that has a key keeps it, in a copy as the account of its copies says |
| Continuity.ReadsThroughHandOver | imap/map.go:131-173 | After members left, at every point of the hand-over under the new table, with any pushes lost, a Get that reaches one old holder that stayed returns the value |
| Continuity.LastingReadsThrough | imap/map.go:131-173 | In particular when the copies agree and never expire |
| Continuity.LivingReadsThrough | imap/map.go:131-173 | And when they expire, as long as they outlive the clocks of those holders by a millisecond for each push of the key |
| Continuity.WriteReadThroughHandOver | imap/map.go:86-173 | From the write on: it reached every holder, members left, the others hand over with any failures; any node that reaches one old holder that stayed reads it, as long as it would be alive with a millisecond taken off for each push |
| Execute.ExecuteAtOwner | imap/service.go:469-541 | The owner's entry changes by the processor's action; the backups that answer lose the key, or receive the value with the lifetime it has left in whole milliseconds; no other key and no other node changes, whatever is lost |
| Execute.SetKeepsLifetime | imap/service.go:469-541 | A value a processor sets shows for as long as the live one it replaces would have, and for good where there was none |
| Execute.ReplicateRemove | imap/service.go:276-294 | Every reachable backup loses the key, and nothing else changes |
| Execute.ExecutedIsEverywhere | imap/service.go:512-541 | With all backups answering, each has the value as it was sent to it |
| Execute.LapsedStillRead | imap/service.go:512-514 | With less than a millisecond left at the send, any node that reaches a backup reads the value at every instant after the owner's entry has lapsed |
| Execute.ReadsStopIff | imap/service.go:512-514 | Reads of an expiring value that a processor set stop if and only if it had a millisecond left at the send, and then no later after its expiry than the sends took |
| Execute.ExecuteThenReads | imap/service.go:469-541 | The operation itself, with the clock read for the processor and again for the sends: reads of what it set stop if and only if a millisecond was left at the second reading |
| Aggregate.ReadPut | imap/aggregate.go:56-62 | The 8-byte encoding of a signed number reads back as that number |
| Aggregate.SumI64 | imap/aggregate.go:64-72 | The loop with 64-bit wrap-around computes the exact sum reduced once |
| Aggregate.Extremum | imap/aggregate.go:99-117 | The loop computes the fold over the non-empty items, and an empty result when there are none |
| Aggregate.ExtremeIsExtreme | imap/aggregate.go:99-117 | That fold is attained by some item, bounds all of them, and is missing exactly when all are empty |
| Aggregate.FoldAnyOrder | imap/aggregate.go:64-117 | Sum and extremum depend only on how often each item occurs |
| Aggregate.DistributedIsCentral | imap/aggregate.go:64-117 | For count, sum, min and max, combining the reductions of any split of the values, in any order and with empty shares, is the reduction of all values |
| Aggregate.CollectOwned | imap/store.go:381-398 | Lists exactly the live entries of the map in the partitions this node owns, each once |
| Aggregate.Gather | imap/map.go:364-398 | The cluster-wide result is the reduction of the live entries owned by the members that answered, each folded once as its owner has it; a missing member is reported |
| FencedLock.LockRoundTrip | imap/processor.go:158-170 | The lock entry decodes to the fence and holder encoded in it |
| FencedLock.AcquireFacts | imap/processor.go:183-198 | An acquire is refused exactly when another holds the lock or the id is empty, and confirms or takes it otherwise |
| FencedLock.ReleaseFacts | imap/processor.go:203-209 | A release succeeds exactly for the holder, and keeps the fence |
| FencedLock.HeldUntilRelease | imap/processor.go:144-209 | Over every run, from a grant until its holder's release the entry names that holder and that token |
| FencedLock.MutualExclusion | imap/processor.go:144-209 | Between grants to two different holders the first has released |
| FencedLock.Reentrant | imap/processor.go:178-198 | A holder that asks again gets the same token and changes nothing |
| FencedLock.FenceCounts | imap/processor.go:183-209 | The fence is the starting fence plus the number of fresh grants, in 64 bits |
| FencedLock.TokensIncreaseIff | imap/processor.go:144-209 | Fresh grants carry strictly increasing tokens over the whole run if and only if the first token leaves room below 2^64 for those after it |

## Left out

- RunRefinesFifo: like RunIsIndependentFifos, assumes fewer than 2^64 offers from the current counters on, and items the 4-byte header can describe; what happens to longer items is OfferThenPollIff.
- Reboot: like Session, about records within the replay cap, and about nodes that hand no queue over between restarts.
- StreamInjective: assumes map names and keys below 4 GiB, the range of the 4-byte length prefix.
- ConvertLegacyQueue: a stream with an item at the 32-bit limit, on which the program stops, is excluded by Convertible.
- LivingKeyKept: counts a millisecond for each push of the key, though a copy loses that much only for each push in its own line of descent.
- RebalanceCompletes: about no writes to the key during the passes.
- WriteReadThroughHandOver: like LastingReadsThrough and LivingReadsThrough, about a key of which no other node has another copy, since a push overwrites without comparing, and which is not written during the hand-over.
- NothingServedIsLost: says nothing of a key that was showing a resurrected value, which a later recovery may replace by a still older one.
- BackupsConvergeIff: about data that is not written and does not expire during the calls, with the owner's live entries outlasting them by a millisecond, as one reading of the clock serves a whole call.
- Visit: when no backup that answers has diverged, and some do not answer or agree only at times, the count is bounded by the owner's live keys and not fixed.
- LegacyUpgradePreservesItems: is about the conversion; an old-form value of exactly 24 bytes is taken for metadata and not converted, as the code documents.
- Cluster: the version and tableVer counters do not wrap at 64 bits.
- StdDev: exact arithmetic over the reals instead of floating point; the square root is a parameter.
- Concurrency inside one node: the locks make each operation one step, and the model takes them as such.
- Writes that race a migration or anti-entropy push, clock skew between nodes, and nodes using different tables, which the code describes as best effort.
- Logging switched off, and errors of the file system: the snapshot replacement is atomic and a synced byte is durable.
- The logistic suspicion formula of the failure detector: its verdict is a parameter.
- Compare-and-swap, increment, append and the other single-key processors beside the lock.
- Entry listeners, metrics, map loaders and stores, eviction by size, the size and clear scatter-gathers.
- The transport, the HTTP interface, discovery and the generated message code: a send is a step that is lost, answered, or handled with its answer lost.
