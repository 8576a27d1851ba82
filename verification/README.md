# FerresDB core: a verified model

FerresDB is a vector database. A collection keeps points (an id, a vector, metadata, relations) in
memory, writes every change to a write-ahead log before it applies it, saves snapshots, and recovers by
replaying the log on the snapshot. Around that it keeps a nearest-neighbour index, a result cache, a
keyword index, relations between points, colder tiers for points not used lately, and quantized forms of
the vectors. This project models that core in Dafny and proves what it promises, and, where the code does
not keep a promise, exactly when it does.

`dafny verify dfyconfig.toml` checks everything.

## How the model is laid out

- **Durability.** `WalReplay` replays operations on a point map. `WalFormat` is the log byte by byte, in
  both formats, with its readers; `Wal` the handle with its counters and fsync policy; `Snapshot` the files
  of a collection directory. `Protocol` is the transition system of the write path: a client call, each
  byte of a log write, each rename of a snapshot, truncation, restart, and a crash between any two steps.
  `ProtocolSafety` proves the invariant and the main theorem over all runs, `ProtocolRefusals` when
  recovery refuses and what a rejected point leaves, `ProtocolSwitch` when a change of the snapshot format
  does. `ProtocolGuards` and `ProtocolCalls` show that the guards of the main theorem on reopening and on calls
  cannot be dropped, with the runs of `ProtocolRuns`. `Upsert` is what a call refuses before it logs.
  `LinkReplay` treats replay of links; `PointInTime` is recovery to a timestamp, `Retention` the rewriting of
  a log without its old entries.
- **Tiers.** `WarmStorage` is the append-only vector file with its offsets and its repair;
  `TieredCollection` the hot, warm and cold state machine and its compaction.
- **Quantizers.** `PolarQuant` with the error bound of `PolarError` and the angles of `PolarAngles`, `ScalarQuant` and
  `Qjl`, over the reals.
- **Index.** `IndexRows` is what an index over the external graph answers, `HnswIndex` the object and its
  runs, `Collection` the points and the brute-force guard, `QueryCache` the cache, `Reindex` the background rebuild.
- **Keywords and relations.** `Bm25Stats`, `Bm25` and, on who ranks above whom, `Bm25Ranking`; `Graph`.
- `Base` and `Ranking` hold what the others share: points, byte numbers, sorting, and what it means for a
  list to be the best k of a scored set.

## What is assumed

- JSON, bincode, zstd and UTF-8 are parameters with laws (`WalFormat.Laws`): a printed entry is one line that
  parses back, no proper prefix of it parses, compression inverts, the magic is neither. MD5 is a
  collision-free digest: a checksum is the image it was taken from. The lost calls of `ProtocolGuards` use three
  more laws: an ASCII byte does not complete a torn character, no entry starts like the magic, and what
  decompresses starts with a frame number that has no zero byte. They also need that some point still changes the
  store, with a frame of suitable length (`ProtocolGuards.Varied`). `LawfulCodec` builds a codec that meets all
  of this, so the laws do not contradict each other.
- The graph library is a parameter. Exactness at a beam at least as wide as the answer (`IndexRows.Exact`),
  respect for the filter, exhaustiveness at a beam as wide as the graph, and a filtered search that answers
  nearest first (`OrderedFilter`) or finds the nearest (`PreciseFilter`) are separate hypotheses, named
  where they are used. Results that hold of any graph search do not mention them. `LawfulGraph` shows that
  selecting the nearest row again and again meets all five, whatever the metric.
- Trigonometry (`PolarAngles.Lawful`), hypot and the logarithm are parameters with the laws used, the logarithm increasing
  (`Bm25Ranking.LnGrows`) where texts are ranked by rarity; arithmetic on vectors is over the reals;
  stored components are 32-bit patterns and never rounded.
- The distance a scan computes and the one the graph library computes rank alike: each is an increasing function of
  the other (`Collections.SameRanking`), as a squared Euclidean distance is of its root. The library is not part of this
  repository.
- Normalising a vector is a parameter. `UpsertCall.LoggedInsertsAsSent` alone assumes that doing it twice is doing it
  once (`UpsertCall.Idempotent`).
- A rename is atomic, and truncating the log is durable at once.
- The clock, the elapsed fsync interval and the random projection matrix are inputs.

## Where the code does not do what it says

Each of these is proved of the model of the code as it is, with the exact condition where there is one.

- `upsert_points` checks dimensions, and the vectors of a large cosine batch, before it logs; any other refused
  vector is found after the whole batch is in the log, and recovery brings back the points after it
  (`UpsertCall.RejectedAfterLoggingIff`, `ProtocolRefusals.RejectedPointHarmlessIff`, `ProtocolCalls.RejectionIsSafeIff`).
- A batch that reaches the limit of 10,000 logged operations half-way returns an error with memory unchanged, but what it
  had logged stays: a restart brings it back, and until then every later call is refused, except that an empty one takes a
  snapshot (`ProtocolCalls.LongBatchIsRefused`, `RefusalIsSafeIff`, `StaysRefused`, `EmptyCallSaves`).
- A crash between the renames of the points file and its checksum makes the collection fail its integrity check, and so
  does turning binary snapshots off once one was saved (`WindowRefusesIff`, `ProtocolSwitch.SwitchIsHarmlessIff`).
- Reopening after certain torn first records, after a torn magic, or after turning compression off, leaves bytes in
  place that hide what is appended later; `ProtocolGuards.ReopeningIsSafeIff` says for every reachable directory when.
  A frame over 10 MiB does the same (`ProtocolCalls.CallIsSafeIff`).
- Point-in-time recovery skips the entries of the snapshot's own second, and retention drops entries no snapshot
  contains (`PointInTime.LateTargetIsFullRecoveryIff`, `RetentionHarmlessIff`). Retention also empties the log in
  place before it writes it again: a crash in between loses entries that were to be kept (`Retention.CrashHarmlessIff`).
- `add_vector` is right only on a dense file, `remove_vector` ends that, the very first append is not repaired when
  torn, and a crash inside `compact`, which nothing in the repository calls, mixes vectors up unless the old file is a
  prefix of the new one (`WarmTier.AddReadsBackIff`, `CompactionWindowHarmlessIff` and their neighbours).
- Adding an id again neither lifts its tombstone nor drops its old row (`Hnsw.ReAddedStaysHidden`,
  `IndexRows.FoundIffNotTombstoned` and `ListedOnceIff`).
  The promotion path of the tiers tombstones an id and adds it again, although its comment says it avoids duplicates.
- A rebuild loses vectors updated while it ran, and forgets points of colder tiers (`Reindexing.InStepIff`,
  `SwapKeepsAccountsIff`).

## Model

| member | source | states |
|---|---|---|
| `ProtocolSafety.EveryRunIsRecoverable` | crates/core/src/lib.rs:690-874 | From an empty directory, over every run of upsert and delete calls, refusals, snapshots, truncations, restarts and crashes (between any two renames, and after any byte of a log write), recovery returns what memory held when the last call returned, with or without an error, plus a prefix of the call in flight, or an error; never another collection. The four unsafe branches are excluded by guards a caller can check (`Protocol.Safe`); the next four rows say exactly when each of them is harmless |
| `ProtocolGuards.ReopeningIsSafeIff` | crates/core/src/wal.rs:179-233 | Whatever safe run led to a directory, opening the collection in it keeps the promise under every safe continuation exactly when the log counts an entry, and so is consolidated, or is empty, or is the bare header of the format it is opened in; creating one exactly in the latter two cases. In every other case (one to three bytes of a torn magic or of a first length, a first line torn inside a character, a change of format) a single acknowledged upsert is lost |
| `ProtocolCalls.RejectionIsSafeIff` | crates/core/src/lib.rs:752-774 | Whatever safe run led to a point that `insert` rejects, the promise is kept under every safe continuation exactly when the rest of the batch, logged already, leaves the store as it is, or the directory does not load and is refused from then on |
| `ProtocolCalls.RefusalIsSafeIff` | crates/core/src/wal.rs:238-242 | Whatever safe run led to a refusal by back-pressure, the promise is kept under every safe continuation exactly when what was logged of the batch before leaves the store as it is, or the directory does not load and is refused from then on |
| `ProtocolCalls.RefusalEndsCall` | crates/core/src/lib.rs:752-757 | A refused call returns with nothing of its batch in memory and what it had logged at the end of the log, from where recovery brings it back |
| `ProtocolCalls.RefusalHarmlessIff` | crates/core/src/lib.rs:752-757 | That is harmless on every store exactly when each logged operation is an upsert that `insert` would have rejected |
| `ProtocolCalls.LongBatchIsRefused` | crates/core/src/wal.rs:238-242 | A batch that starts below 10,000 logged operations and would end above them is logged up to that number and then refused |
| `ProtocolCalls.StaysRefused` | crates/core/src/wal.rs:238-242 | From then on every call with anything in it is refused and changes neither disk nor memory, until the process is restarted or an empty call is made |
| `ProtocolCalls.EmptyCallSaves` | crates/core/src/lib.rs:776-787 | An empty call is not refused, and ends with the snapshot that empties the log |
| `ProtocolCalls.CallIsSafeIff` | crates/core/src/wal.rs:434-531 | A batch of which no point is rejected, below the snapshot threshold, keeps the promise under every safe continuation exactly when no record is a compressed frame over the reader's 10 MiB, or the directory does not load and is refused from then on |
| `ProtocolSafety.StepPreserves` | crates/core/src/lib.rs:752-874 | Every single step of that transition system, crash included, keeps the invariant that ties disk, memory and acknowledged history together |
| `ProtocolSafety.CrashPreserves` | crates/core/src/wal.rs:746-823 | In every phase, what a crash leaves on disk recovers to the acknowledged state plus a prefix of the call in flight, or fails to load |
| `ProtocolSafety.PointsRenamed` | crates/core/src/storage.rs:542-583 | With the new points file under the old checksum, the directory loads as the old snapshot, as the new one, or not at all |
| `ProtocolRefusals.EveryRefusalIsExplained` | crates/core/src/storage.rs:620-712 | In any run, recovery from what a crash leaves refuses exactly over a stale binary image, between the renames of points and checksum when the checksum is of another image, and inside a torn compressed payload |
| `ProtocolRefusals.WindowRefusesIff` | crates/core/src/storage.rs:565-570 | Between the rename of the points file and that of its checksum, recovery refuses exactly when a checksum of a different image is in place: a crash there makes the collection unreadable |
| `ProtocolRefusals.SwitchToJsonLinesRefusesIff` | crates/core/src/storage.rs:542-583 | When the second rename of a snapshot closes the window between points and checksum, recovery refuses exactly if JSON lines were saved next to a `points.bin` |
| `ProtocolSwitch.SwitchIsHarmlessIff` | crates/core/src/storage.rs:542-583 | Whatever safe run led to a start, every running state that a safe continuation with the same snapshot format reaches recovers, but for the window between the two renames and a torn payload, exactly when the format is binary or no `points.bin` is there: turning binary snapshots on is always harmless, turning them off only where none was ever saved |
| `ProtocolRefusals.UnloadableIsStuck` | crates/core/src/storage.rs:620-712 | A running process outside that window whose directory does not load is over such a stale image, and no continuation gets out of it |
| `ProtocolRefusals.FixedFormatIsNeverStale` | crates/core/src/storage.rs:713-780 | As long as the snapshot format is not switched, no run ever reaches that stale state |
| `ProtocolRefusals.FinishedCallHasItsEffect` | crates/core/src/lib.rs:766-774 | A call that went through all its operations leaves memory as the replay of its whole batch on the acknowledged state: what is acknowledged is what was asked for |
| `ProtocolRefusals.RejectedPointEndsCall` | crates/core/src/lib.rs:766-774 | When `insert` rejects a point the call returns with all operations of the batch at the end of the log and only those before the rejected one in memory; recovery yields the whole batch |
| `ProtocolRefusals.RejectedPointHarmlessIff` | crates/core/src/lib.rs:752-774 | Memory and recovery then agree on every store exactly when the points after the rejected one repeat what the points before it did |
| `UpsertCall.Validate` | crates/core/src/lib.rs:696-741 | The first phase of `upsert_points`: a vector of another dimension, or in a cosine batch above 100 points one that cannot be normalised, ends the call before anything is logged, with exactly these errors; otherwise every point of the batch is logged in its place, with its own id, metadata, timestamps and relations, and with its own vector, normalised in that last case |
| `UpsertCall.RejectedAfterLoggingIff` | crates/core/src/lib.rs:696-774 | A call logs a batch of which `insert` then rejects a point exactly when all dimensions are right, some vector is refused by the metric, and the batch is not one that is normalised first |
| `UpsertCall.LoggedInsertsAsSent` | crates/core/src/lib.rs:720-774 | When normalising twice is normalising once, inserting what was logged leaves in the index what inserting the batch as it was sent would leave |
| `Snapshot.ListingLoadsBack` | crates/core/src/collection.rs:272-315 | A saved listing of the points, in whatever order the map was walked, loads back as the same map |
| `WalReplay.ReplayLog` | crates/core/src/wal.rs:768-812 | The replay loop computes the fold of the operations over the snapshot, skipping rejected upserts, absent deletes and failing links |
| `WalReplay.ReplayIsOverride` | crates/core/src/wal.rs:768-812 | Replaying a log without links overrides any store with an effect that depends on the log alone |
| `WalReplay.BareReplayIsOverride` | crates/core/src/wal.rs:768-812 | With links in the log the same holds of everything but the relations |
| `WalReplay.ReplayAbsorbsSuffix` | crates/core/src/wal.rs:768-812 | Replaying any suffix of an upsert/delete log on the state the whole log produced changes nothing: a crash between snapshot and truncation is harmless |
| `WalReplay.ReplayAbsorbsSuffixUpToRelations` | crates/core/src/wal.rs:768-812 | With link entries anywhere in the log, everything but `relations` is still unchanged |
| `WalReplay.ReplayMayAddRelation` | crates/core/src/wal.rs:800-812 | The relations clause cannot be dropped: a link logged before its target was upserted takes effect only in the second replay |
| `LinkReplay.ReplayAbsorbsSuffixWithLinks` | crates/core/src/wal.rs:768-812 | When in the replayed part no link is followed by a change of one of its ends, a second replay changes nothing at all, relations and their order included |
| `WalReplay.SameOnEveryStoreIff` | crates/core/src/wal.rs:768-812 | Two link-free logs are interchangeable on every snapshot exactly when their effects agree |
| `WalReplay.AddRelation` | crates/core/src/collection.rs:974-1005 | `add_relation` succeeds exactly for two different present points, and changes nothing but relations |
| `Graph.LinkIsEdgeBothWays` | crates/core/src/collection.rs:974-1005 | A link adds each end to the neighbours of the other, and no other point gains or loses an edge |
| `Graph.LinkedWithinOneHop` | crates/core/src/graph.rs:48-76 | So the traversal finds each end within one hop of the other |
| `PointInTime.RecoverToTimestamp` | crates/core/src/wal.rs:834-878 | The filtering replay loop computes replay of the entries in the window (snapshot, target] |
| `PointInTime.UpToIsPrefix` | crates/core/src/wal.rs:846-853 | On a chronological log later than the snapshot, what is replayed is exactly a prefix of the log: the entries up to the target |
| `PointInTime.UpToIsFilter` | crates/core/src/wal.rs:846-853 | In any log, chronological or not, each entry is replayed or dropped by its own timestamp |
| `PointInTime.RecoveryComposes` | crates/core/src/wal.rs:834-878 | Recovering to t2 is recovering to t1 <= t2 and then replaying the entries in between |
| `PointInTime.ListRestorePoints` | crates/core/src/wal.rs:883-893 | The restore points are exactly the timestamps of the log, strictly increasing |
| `PointInTime.LastRestorePointIsFullRecovery` | crates/core/src/wal.rs:834-893 | Recovering to the last restore point is full recovery, on a log later than the snapshot |
| `PointInTime.LateTargetIsFullRecoveryIff` | crates/core/src/wal.rs:846-853 | With entries of the snapshot's own second in the log, recovery to the end equals full recovery exactly when every id they touch is touched again later |
| `PointInTime.SameSecondIsLost` | crates/core/src/wal.rs:849-853 | An acknowledged upsert of the snapshot's second is lost by every point-in-time recovery |
| `PointInTime.RetentionOfSnapshottedEntries` | crates/core/src/wal.rs:655-664 | Dropping entries that a snapshot already contains does not alter recovery, links after them included |
| `PointInTime.RetainedIsFilter` | crates/core/src/wal.rs:655-664 | In any log, chronological or not, each entry is kept exactly when it is not older than the cutoff |
| `PointInTime.RetentionHarmlessIff` | crates/core/src/wal.rs:655-664 | Retention is harmless on every snapshot exactly when every id the dropped entries touch is touched again by the kept ones; the code does not check this |
| `PointInTime.LosingPrefixHarmlessIff` | crates/core/src/wal.rs:655-664 | The same for losing any prefix of a link-free log |
| `Retention.CompactOlderThan` | crates/core/src/wal.rs:646-720 | Rewrites the file to exactly the log of the entries at or after the cutoff, in order, in the given format, and only when that drops any; an unreadable file is left as it is |
| `Retention.CrashDuringCompaction` | crates/core/src/wal.rs:667-715 | The file is emptied in place and written again: a crash after any byte leaves a log that reads as a prefix of the kept entries, or refuses inside a payload |
| `Retention.CrashHarmlessIff` | crates/core/src/wal.rs:667-715 | Such a crash is harmless on every store exactly when the kept entries it loses repeat the ones that are left, and these touch again every id of the dropped ones |
| `WalFormat.LinesCut` | crates/core/src/wal.rs:569-605 | For every cut of a JSON-lines log the reader returns exactly the entries whose JSON lies wholly before the cut |
| `WalFormat.FramesCut` | crates/core/src/wal.rs:500-566 | For every cut of a compressed log the reader returns exactly the complete frames, or an error exactly when the cut falls inside a payload |
| `WalFormat.LogCut` | crates/core/src/wal.rs:500-605 | The same for a whole log in either format, its header included |
| `WalFormat.TornAppend` | crates/core/src/wal.rs:369-408 | A log with one append torn anywhere reads as the entries before it, with or without the new one, or as an error inside a payload |
| `WalFormat.LogReadsBack` | crates/core/src/wal.rs:434-605 | Round trip: what was appended, in either format, is what is read |
| `WalFormat.FramesReadBackIff` | crates/core/src/wal.rs:515-531 | A log of frames reads back whole exactly when every frame is within the reader's 10 MiB limit |
| `WalFormat.OversizeFrameHidesRest` | crates/core/src/wal.rs:442-454 | The writer accepts a frame above that limit; it and everything after it is then never read |
| `WalFormat.TornHeader` | crates/core/src/wal.rs:197-222 | A magic torn anywhere holds no entries |
| `WalFormat.TornCharacterSwallowsLog` | crates/core/src/wal.rs:608-640 | A first JSON line torn inside a character is not counted at reopening, so no snapshot removes it, and every line appended after it is unreadable |
| `WalFormat.TornLengthSwallowsLog` | crates/core/src/wal.rs:500-531 | A first frame torn after one, two or three bytes of its length is not counted either, and no frame appended after it is ever read, whatever the lengths |
| `WalFormat.FormatSwitchSwallowsLog` | crates/core/src/wal.rs:197-222 | JSON lines appended to a compressed log without entries, after compression is turned off, are never read, whether the magic is bare or followed by a torn length |
| `WalFormat.TornMagicSwallowsLine` | crates/core/src/wal.rs:197-222 | After one to three bytes of a magic the first JSON line appended is lost, or all of them |
| `WalFormat.TornMagicSwallowsFrame` | crates/core/src/wal.rs:197-222 | So is a frame without a newline byte, unless its first byte happens to go on with the magic |
| `WalHandle.ReadEntriesJsonl` | crates/core/src/wal.rs:569-605 | The line-reading loop agrees with the reader the cut theorems are about, malformed and blank lines skipped |
| `WalHandle.ReadEntriesCompressed` | crates/core/src/wal.rs:500-566 | The frame-reading loop agrees with that reader, torn length, bad length, bad payload and torn payload each as in the code |
| `WalHandle.CountLog` | crates/core/src/wal.rs:608-640 | The counting loop agrees with the count the reopening theorems use |
| `WalHandle.Wal.constructor` | crates/core/src/wal.rs:179-233 | Opening keeps the file, writes the magic into an empty one when compressing, and starts from the given count |
| `WalHandle.Wal.AppendEntry` | crates/core/src/wal.rs:434-497 | An append adds one record, and leaves nothing unsynced exactly when a sync per write is configured, the interval has elapsed or enough operations have piled up; otherwise the entry joins those a power loss may take |
| `WalHandle.Wal.Append` | crates/core/src/wal.rs:235-292 | Refused exactly at 10,000 logged operations, without touching the file; otherwise one record and one more operation |
| `WalHandle.Wal.TruncateAfterSnapshot` | crates/core/src/wal.rs:302-352 | Empties the log down to its header and resets the operation counter, but not the fsync counter |
| `WalHandle.PowerLoss` | crates/core/src/wal.rs:467-494 | For a handle opened on a whole log in its own format, and whatever bytes a power loss leaves of it, header included, the log reads as a prefix of the entries or refuses inside a payload; with the bytes up to the last fsync safe, fewer than max(1, `fsync_every_n_ops`) acknowledged entries are lost, none with `fsync_per_write` |
| `WarmTier.VectorRoundTrip` | crates/core/src/tiered.rs:309-376 | The little-endian bytes of a vector read back as the same bit patterns |
| `Base.FromLeIsPlaceValue` | crates/core/src/tiered.rs:309-376 | In stored numbers the lowest byte comes first: byte i counts 256 to the i |
| `WarmTier.RepairCutsTail` | crates/core/src/tiered.rs:487-564 | Reopening cuts any torn tail off a dense store whose index is non-empty, and leaves it when the index is empty |
| `WarmTier.CrashDuringAdd` | crates/core/src/tiered.rs:309-343 | A crash at any byte of `add_vector`: the reopened store is dense exactly when the index was renamed, was not empty, or nothing was written; and then it is the old store or the new one, wholly |
| `WarmTier.AppendKeepsOthers` | crates/core/src/tiered.rs:309-343 | Adding a vector leaves every earlier indexed vector as it was, byte for byte |
| `WarmTier.AddReadsBackIff` | crates/core/src/tiered.rs:309-343 | A fresh vector reads back right after `add_vector`, whatever its bytes, exactly when the file length is entries times record size |
| `WarmTier.RemovalBreaksAdding` | crates/core/src/tiered.rs:382-385 | After one removal from a dense store some vector added next reads back wrong |
| `WarmTier.CompactionWindowMixesVectors` | crates/core/src/tiered.rs:431-464 | A crash between the two renames of compaction can hand out one point's vector under another's id, and repair does not notice: an example with two records |
| `WarmTier.CompactionWindowHarmlessIff` | crates/core/src/tiered.rs:431-464 | For every dense store and every new file, after a crash between those renames every vector is the one it was exactly when the old file is a prefix of the new one |
| `WarmTier.WarmStorage.constructor` | crates/core/src/tiered.rs:279-307 | Opening yields the repaired store, or the bare index when there is no vector file |
| `WarmTier.WarmStorage.ReloadMmap` | crates/core/src/tiered.rs:487-564 | Reloading drops out-of-file entries, truncates after the last one, and rewrites the index exactly when something changed |
| `WarmTier.WarmStorage.AddVector` | crates/core/src/tiered.rs:309-343 | Appends the bytes of a vector of any length at the end of the file, records entries times record size as the offset, saves the index and repairs |
| `WarmTier.WarmStorage.ReadVector` | crates/core/src/tiered.rs:345-376 | Succeeds exactly when the recorded slice lies within the file, and returns the vector with exactly those bytes |
| `WarmTier.WarmStorage.RemoveVector` | crates/core/src/tiered.rs:382-385 | Forgets the entry in memory and touches neither file |
| `WarmTier.WarmStorage.Compact` | crates/core/src/tiered.rs:431-464 | From any state, the file becomes the given vectors one after the other, each under the offset where it starts; when they have the dimension of the store it is dense and each reads back as given |
| `Tiering.DemotesToColderOnly` | crates/core/src/tiered.rs:679-686 | A demotion is exactly a move to a strictly colder tier |
| `Tiering.IdealTierCools` | crates/core/src/tiered.rs:659-676 | Without an access the ideal tier only gets colder as time passes |
| `Tiering.ColderIsAged` | crates/core/src/tiered.rs:659-686 | The colder of the current and the ideal tier, whole hours and all, is the one those seconds give; an access in the future counts as one of now |
| `Tiering.PlacedResolves` | crates/core/src/tiered.rs:1369-1394 | When every tracked id has its data where it is tracked, a lookup finds exactly the tracked ids, each from its own tier |
| `Tiering.TieredCollection.GetFromAnyTier` | crates/core/src/tiered.rs:1369-1394 | Returns what hot, then warm, then cold resolves to, without promoting; only a warm or cold hit counts as an access |
| `Tiering.TieredCollection.DemoteBatchToWarm` | crates/core/src/tiered.rs:1083-1124 | Moves exactly the given hot points: vectors in the file, the rest as metadata; the store stays dense and every id keeps one tier |
| `Tiering.TieredCollection.DemoteBatchToCold` | crates/core/src/tiered.rs:1127-1205 | Moves exactly the given warm points to their files and forgets their vectors |
| `Tiering.TieredCollection.PlanCompaction` | crates/core/src/tiered.rs:1209-1262 | The planned sets are exactly the hot points that must cool and the points that must end cold |
| `Tiering.TieredCollection.RunCompaction` | crates/core/src/tiered.rs:1209-1304 | Every tracked id ends in the tier its last access gives, in seconds: a hot point stays hot for 3600 times the hot threshold, then is warm until the longer threshold is over, then cold; a warm one stays until then; a point never accessed goes cold. Every id resolves to the same vector, metadata and timestamps as before, and the result counts the points that left memory, those that went cold and all that moved; zero changes are reported exactly when nothing was to be demoted. The vector file has to be dense only when a hot point is to be demoted, and stays dense when nothing went cold |
| `Tiering.TieredCollection.CompactTwice` | crates/core/src/tiered.rs:1209-1304 | Two compactions at one time: the second reports no change and changes no tier, no data and no lookup, also when the first left gaps in the vector file |
| `Tiering.TieredCollection.PromoteToHot` | crates/core/src/tiered.rs:938-998 | Brings one warm or cold point back to memory; every id still resolves to the same point |
| `PolarQuant.DecodeInvertsEncode` | crates/core/src/quantization.rs:884-1005 | For every vector of every dimension, odd ones included, decoding inverts encoding whenever each pair met on any level is recovered from its radius and code |
| `PolarQuant.InvertibleRecoversAll` | crates/core/src/quantization.rs:884-938 | In particular when the pair map is invertible everywhere |
| `PolarQuant.PolarEncode` | crates/core/src/quantization.rs:884-938 | The in-place level loop computes the recursive encoding: angle codes level by level, one padding per odd level. What the codes are worth is `PolarError.DecodeError`, and what each of them is `PolarAngles.AngleError` |
| `PolarQuant.PolarDecode` | crates/core/src/quantization.rs:945-1005 | The offset-driven loop computes the recursive decoding, for any angle array long enough |
| `PolarQuant.AngleOffsets` | crates/core/src/quantization.rs:957-972 | The offset table is the running sum of the level sizes |
| `PolarQuant.LevelAt` | crates/core/src/quantization.rs:945-965 | Level k codes ceil(size/2) pairs of the size left after k halvings, down to one radius |
| `PolarQuant.FinalRadiusKeepsLength` | crates/core/src/quantization.rs:906-930 | The square of the final radius is the sum of squares of the vector, at every dimension |
| `PolarQuant.DecodedLength` | crates/core/src/quantization.rs:984-1002 | For arbitrary angle bytes the decoded sum of squares is at most the square of the final radius, with equality at powers of two |
| `PolarError.DecodeError` | crates/core/src/quantization.rs:884-1005 | Decoding what was encoded is off, in Euclidean norm, by at most the number of levels times delta times the norm of the vector, at every dimension, for every pair transform that decodes a pair to within delta times its radius and is linear in the radius; exact recovery is delta = 0 |
| `PolarAngles.AngleError` | crates/core/src/quantization.rs:915-919 | With n + 1 codes an angle and the angle of its code are at most pi / n apart, half a step: n is 2^bits - 1, where the documentation counts 2^bits steps |
| `PolarAngles.AnglesArePrecise` | crates/core/src/quantization.rs:912-1000 | So the transform of the code, by hypot, atan2, cos and sin, is such a transform with delta = pi / n |
| `PolarAngles.AngleDecodeError` | crates/core/src/quantization.rs:884-1005 | Hence encoding and decoding with real angles loses at most pi / n of the norm for each level |
| `ScalarQuant.Calibrate` | crates/core/src/quantization.rs:503-563 | Per dimension, minimum and maximum are the two percentiles of the column of every so many vectors, and the scale is 255 over their distance or 0 below epsilon. At most (100 - quantile) percent of the column lie above the maximum, and as many below the minimum; and fewer than quantile percent plus one lie below the maximum, so no outlier takes its place |
| `ScalarQuant.PercentilesCut` | crates/core/src/quantization.rs:519-545 | That is what the two indexes give, for any quantile from 0 to 100 and whatever values repeat |
| `ScalarQuant.PercentilesOrdered` | crates/core/src/quantization.rs:530-545 | From the median up, the lower percentile is not above the upper one |
| `ScalarQuant.ExtremesEnclose` | crates/core/src/quantization.rs:530-545 | At quantile 100 the percentiles enclose every value of the column |
| `ScalarQuant.QuantizationError` | crates/core/src/quantization.rs:568-598 | A component inside its range is recovered within range/510, or within the whole range where scaling is given up |
| `ScalarQuant.QuantizeInvertsDequantize` | crates/core/src/quantization.rs:568-598 | Quantizing a dequantized byte gives the byte back |
| `ScalarQuant.DequantizedVectorsAreFixed` | crates/core/src/quantization.rs:568-598 | The same over whole vectors |
| `ScalarQuant.AsymmetricDotDistance` | crates/core/src/quantization.rs:693-704 | The loop computes one minus the dot product of the query with the dequantized vector |
| `ScalarQuant.DotMoves` | crates/core/src/quantization.rs:693-704 | Changing one component of the query moves that dot product by the change times the component's partner |
| `ScalarQuant.AsymmetricDotError` | crates/core/src/quantization.rs:693-704 | That dot product is off by at most the sum of |q_d| times the component bound |
| `ScalarQuant.CalibratedVectorsAreInRange` | crates/core/src/quantization.rs:503-563 | At quantile 100 and up to 10,000 vectors, the two bounds cover every calibrated vector |
| `Qjl.EncodeResidual` | crates/core/src/quantization.rs:804-823 | ceil(m/64) words whose bit i is set exactly when the projection on row i is positive |
| `Qjl.CorrectionScore` | crates/core/src/quantization.rs:845-864 | Word by word, 2/m times the sum of the query projections by their bit's sign, each row once |
| `Qjl.PackedEqualsPlain` | crates/core/src/quantization.rs:804-864 | Reading the packed bits gives the same signed sum as the sign test on the residual itself |
| `Qjl.ScoreResidual` | crates/core/src/quantization.rs:804-864 | Packing and then scoring equals the plain estimator, for every m and every residual |
| `Qjl.PlusRowAdds` | crates/core/src/quantization.rs:809-815 | A row of plus ones projects to the sum of the components |
| `Qjl.NegatedEntry` | crates/core/src/quantization.rs:809-815 | Turning one entry of a row over moves the projection by twice that component, taken with its sign: with the previous row, what every row of signs does |
| `Qjl.ScaledIsTwiceMean` | crates/core/src/quantization.rs:845-864 | The score is twice the mean over the m rows |
| `Qjl.SelfScoreIsHighest` | crates/core/src/quantization.rs:845-864 | A residual scores itself by the sum of the magnitudes of its projections, and no query scores above, or below minus, the sum of its own |
| `Graph.TraverseBfs` | crates/core/src/graph.rs:24-79 | Errors for an empty or absent start; otherwise terminates with exactly the present points within `max_depth` hops, each once, the start first and in non-decreasing distance; empty and dangling neighbour ids are no edge |
| `Graph.BallIsPathsUpTo` | crates/core/src/graph.rs:11-23 | The points within d hops are exactly the ends of paths of at most d edges |
| `Graph.DistanceIsShortest` | crates/core/src/graph.rs:11-23 | The distance the order is measured by is the length of a shortest path |
| `Graph.Covered` | crates/core/src/graph.rs:48-76 | Queue invariant: once every entry shallower than e has been expanded, the whole ball of radius e is found |
| `Graph.Discover` | crates/core/src/graph.rs:59-74 | A neighbour not found yet when the head is expanded lies exactly one hop beyond it |
| `IndexRows.OverFetchIsExact` | crates/core/src/search.rs:680-704 | On an index whose ids were added once each, an exact graph search over-fetching by the tombstone count returns exactly the min(k, live) nearest live ids, nearest first |
| `IndexRows.AnswerIsLive` | crates/core/src/search.rs:691-704 | Whatever the graph returns, a result names a known id that is not tombstoned, and there are at most k |
| `IndexRows.FoundIffNotTombstoned` | crates/core/src/search.rs:706-730 | An added id is found by a search for everything exactly when it is not tombstoned; adding it again does not lift the tombstone |
| `IndexRows.ListedOnceIff` | crates/core/src/search.rs:680-721 | Under an exact graph a search for everything lists each id once exactly when every id with two rows is tombstoned |
| `Ranking.FilteredTop` | crates/core/src/search.rs:680-704 | Taking |dead| more than k best, then dropping the dead, leaves exactly the best k of the rest |
| `Ranking.TopIsUnique` | crates/core/src/search.rs:614-704 | Two best-k lists of one set show the same distances at every place: only ties may differ |
| `Ranking.TakeTop` | crates/core/src/collection.rs:662-676 | Sort and truncate returns a best-first list of the min(k, n) best |
| `Hnsw.SearchAfterAnyRun` | crates/core/src/search.rs:577-730 | After a build and any run of removals and of additions new since the build, a search returns the best k of the points added and not removed, by their own vectors |
| `Hnsw.ReAddedStaysHidden` | crates/core/src/search.rs:706-730 | A point removed and added again is in no search result, although it is stored; promotion to the hot tier does just this |
| `Hnsw.UpsertListsIdTwice` | crates/core/src/search.rs:706-721 | Adding an id that is live already leaves its old row: a search for everything lists the id twice, whatever else the index holds |
| `Hnsw.LastRoundReachesIff` | crates/core/src/search.rs:646-678 | The doubling beam reaches the size n of the index in its 20 rounds exactly when n <= 2^19 times the first width |
| `Hnsw.Rounds` | crates/core/src/search.rs:646-678 | The loop returns admitted rows only, in the order of the graph search, and min(k, admitted) of them whenever the beam can reach n |
| `Hnsw.FilteredSearch` | crates/core/src/search.rs:631-679 | The same of the whole filtered path, its empty and refused queries included: nearest first when the graph's filtered search is; and when that also finds the nearest and the beam can reach n, the min(k, admitted) nearest of the admitted points |
| `Hnsw.NearestMatchingIsTop` | crates/core/src/search.rs:631-679 | On an index whose ids were added once each that answer is the best k of the admitted live points by their own distances |
| `Hnsw.NoMatchMissed` | crates/core/src/search.rs:631-679 | A filtered search with as many results as admitted rows lists every one of them with its distance |
| `Hnsw.HnswIndex.AddPoint` | crates/core/src/search.rs:706-721 | Takes a row and an id before the vector is checked: a refused vector leaves both behind without a graph entry |
| `Hnsw.HnswIndex.RemovePoint` | crates/core/src/search.rs:723-730 | Tombstones a known id; rows and graph are untouched |
| `Hnsw.HnswIndex.Build` | crates/core/src/search.rs:577-612 | Clears rows and tombstones and adds every point; on a refused vector the parallel path leaves the index empty and the sequential one stops after that row |
| `Hnsw.BuiltHolds` | crates/core/src/search.rs:577-612 | A build from distinct accepted points holds exactly those points, each with its prepared vector, and no tombstone |
| `Collections.Collection.Insert` | crates/core/src/collection.rs:401-420 | The point map changes exactly as replay of the same upsert would change it; the keyword index then has the words of exactly the points in memory; the vector index gains the row even when it refuses the vector; the cache is cleared exactly on success |
| `Collections.Collection.Remove` | crates/core/src/collection.rs:953-967 | The point map changes as replay of the delete and the keyword index with it; an absent id is an error and changes nothing |
| `Collections.Collection.RemoveDataOnly` | crates/core/src/collection.rs:930-941 | Demotion takes the point out of memory and out of the keyword index, and leaves the vector index as it was |
| `Collections.Collection.TombstoneInIndex` | crates/core/src/collection.rs:948-950 | Hides the id from the index, and leaves the cache as it was |
| `Collections.Collection.Promote` | crates/core/src/tiered.rs:938-988 | What a promotion does to the collection: the point is in memory and in the keyword index again, the vector index hides the old row and gains a new one, and an id it knew before is not live in it from then on. On a refusal the point stays stored where it was; only a wrong dimension then leaves a live id out of the guard's counts |
| `Collections.Collection.AddRelation` | crates/core/src/collection.rs:974-1005 | The point map changes as replay of the link, and each end is then within one hop of the other; the three error cases change nothing |
| `Collections.InsertHolds` | crates/core/src/collection.rs:401-420 | Inserting a point whose id is new to the index keeps the index in step with the points in memory |
| `Collections.GuardMeansAllInMemory` | crates/core/src/collection.rs:650-660 | Under the class invariant `Accounted`, which every method of the collection keeps, when the counts of the guard agree nothing stored is outside memory and the index knows no other live id |
| `Collections.TombstoneAccounted` | crates/core/src/collection.rs:948-967 | Removing or hiding an id keeps the count inequality the guard rests on, whether or not the id was tombstoned before |
| `Collections.AddAccounted` | crates/core/src/collection.rs:401-420 | So does adding an id, known or new, accepted or refused |
| `Collections.Collection.Scan` | crates/core/src/collection.rs:662-676 | The brute-force branch is the true best k of the points |
| `Collections.Collection.SearchIndex` | crates/core/src/collection.rs:678-727 | A cached answer is the index's answer of this moment; the cache stays sound and within its capacity, with the entry just used in front |
| `QueryCache.KeepsMostRecentlyUsed` | crates/core/src/collection.rs:692-725 | After any run of answers the cache holds the most recently used queries, as many as fit, the latest first |
| `QueryCache.HitIff` | crates/core/src/collection.rs:692-725 | A query is served from the cache exactly while fewer other queries than fit were asked since its last use |
| `Collections.Collection.Search` | crates/core/src/collection.rs:627-742 | Under the guard the true best k of everything stored, otherwise exactly the uncached index search |
| `Collections.BothBranchesAgree` | crates/core/src/collection.rs:644-727 | On an index in step with the points, and up to an increasing scale between the two distances, the scan and an exact graph search show the same distances: only ties may differ |
| `Collections.TombstoneMakesStale` | crates/core/src/collection.rs:943-950 | A cached answer that lists a tombstoned id is no longer what the index answers: `tombstone_in_index` needs the insert that follows it |
| `Collections.TombstoneMakesStaleIff` | crates/core/src/collection.rs:943-950 | On an index in step with its contents an answer cached before an id was hidden is still a right one, ties apart, exactly when it does not list the id |
| `Collections.Collection.SearchConnected` | crates/core/src/collection.rs:857-881 | The k nearest to the query among exactly the points within the given hops of the centre, or the dimension, id and absence errors |
| `Collections.Collection.HybridLists` | crates/core/src/collection.rs:891-906 | The two lists a hybrid query fuses: the vector search, and the best keyword matches among exactly the points in memory, whatever was inserted, replaced or removed before. Each has the limit of results or all there are; of the graph branch this is said of an exact one, up to the number of points in memory |
| `Collections.Collection.PointsSnapshot` | crates/core/src/collection.rs:1190-1194 | Lists every point once, with the set of their ids |
| `Collections.Collection.SwapIndex` | crates/core/src/collection.rs:1200-1204 | Replaces the index, clears the cache, keeps the points |
| `Reindexing.BuildNewIndex` | crates/core/src/reindex.rs:158-166 | A new index with the rows a build leaves, or the refusal |
| `Reindexing.SnapshotIsHeld` | crates/core/src/reindex.rs:158-166 | Built from a snapshot it holds exactly the snapshot, with no tombstones |
| `Reindexing.ApplyDelta` | crates/core/src/reindex.rs:175-202 | Whatever happened to the collection meanwhile: live ids are the collection's, rows are live plus tombstones, tombstones are the snapshot ids since removed, and the two counts are the sizes of the two differences; an error only for a refused new vector |
| `Reindexing.FinishReindex` | crates/core/src/collection.rs:1200-1204 | The same after the swap, with the cache emptied; on an error the old index stays |
| `Reindexing.InStepIff` | crates/core/src/reindex.rs:175-202 | After the swap the index is in step with the collection exactly when no snapshot point has a vector that prepares differently now: an update during the build is lost from the index |
| `Reindexing.SwapKeepsAccountsIff` | crates/core/src/reindex.rs:175-202 | The guard's count inequality survives the swap exactly when nothing was demoted: the new index knows no point of a colder tier |
| `Bm25Stats.TermFreqs` | crates/core/src/bm25.rs:27-33 | The counting loop computes the fold whose values are the multiplicities of the words |
| `Bm25Stats.FreqsCount` | crates/core/src/bm25.rs:27-33 | The counts are the multiplicities, and add up to the length of the document |
| `Bm25Stats.NothingSaturates` | crates/core/src/bm25.rs:61-102 | Taking a document away never meets a zero: no saturating subtraction saturates |
| `Bm25Stats.AgreeAdd` | crates/core/src/bm25.rs:79-86 | Entering a document keeps `n`, `total_len` and every `doc_freq` equal to their from-scratch values |
| `Bm25Stats.AgreeRemove` | crates/core/src/bm25.rs:90-102 | So does removing one |
| `Bm25.BM25Index.IndexDocument` | crates/core/src/bm25.rs:61-87 | Replaces the document of the id; a text without words only removes it; all statistics stay the from-scratch ones of the last texts |
| `Bm25.BM25Index.RemoveDocument` | crates/core/src/bm25.rs:90-102 | Removes the document; an absent id changes nothing |
| `Bm25.SameTextsSameIndex` | crates/core/src/bm25.rs:39-102 | Whatever two histories, the last texts alone decide documents and statistics: editing in place equals rebuilding |
| `Bm25.IdfPositive` | crates/core/src/bm25.rs:113-117 | The `idf <= 0` branch is unreachable under the invariant |
| `Bm25.ScoreBounds` | crates/core/src/bm25.rs:118-127 | Every document sharing a query term scores above 0 and below 2.2 times the sum of the IDFs of its matched terms |
| `Bm25.ScoreAll` | crates/core/src/bm25.rs:110-128 | The nested loops compute the order-free sum, for exactly the documents that share a term |
| `Bm25.BM25Index.Search` | crates/core/src/bm25.rs:105-134 | The min(k, matches) best of exactly the documents that share a term with the query, in non-increasing score order, as a function of the last texts alone; which text scores higher is in the next four rows |
| `Bm25Ranking.SingleMatchScore` | crates/core/src/bm25.rs:113-127 | A text with one word of the query scores ln((n + 1) / (m + 0.5)) times 2.2 c / (c + 1.2 (0.25 + 0.75 len / avg)): n texts, m of them with the word, c times in this one |
| `Bm25Ranking.ScoreAddsUp` | crates/core/src/bm25.rs:112-128 | Every word of the query adds what it would score alone |
| `Bm25Ranking.DominatingTextRanksHigher` | crates/core/src/bm25.rs:118-127 | A text no longer than another, with every word of the query at least as often, scores at least as high, and strictly higher when it is shorter or has a word more often |
| `Bm25Ranking.RarerWordRanksHigher` | crates/core/src/bm25.rs:113-117 | Of two texts of one length, each with one word of the query the same number of times, the one whose word is in fewer texts scores strictly higher, for every increasing logarithm |

## Left out

- Namespaces, named vectors, and their separate indexes: points have one vector, and `id` is the storage id.
- The in-place maps of `VectorDB` and `FileStorage`: the driver is a transition system over values, so it does not
  capture aliasing, temporary files (never read again) or the circuit breaker. Its protocol is for plain collections;
  the persistence of tiered ones saves only hot points.
- Several collections at once, and concurrent calls on one: a call runs to its end or to a crash.
- Power loss over un-synced renames: the protocol's crash is of the process; power loss is treated for the log alone.
- Reloading collections opens the log with per-write fsync off: `WalHandle.Wal.Open` models it, no theorem is about it.
- Carriage returns before newlines, and input/output errors other than torn data.
- Integer widths: counters and lengths are unbounded, except the 32-bit length of a frame, which is cut as the code cuts it.
- `TieredCollection` insert, remove and search, access statistics other than the last access, and the tier metadata file.
- Tier conservation over removals, and of points with relations, namespaces or named vectors: false as written.
- `insert_batch`, `delete_points_batch` and `vacuum_expired_points`: loops over the modelled steps; the rebuild of a large
  batch is the modelled `Build`.
- `QuantizedHnswIndex`, `PolarQuantHnswIndex` and their rescoring; the SIMD kernels; the cosine and Euclidean forms of the
  asymmetric distance.
- The random generator of the projection matrix, and the variance of its estimator.
- `needs_reindex`, job states and size estimates; auto-tuning of the beam width (fixed here); cache hit counters.
- Hash collisions in the cache key: the key is the query itself.
- Tokenizing: documents and queries are lists of words.
- Fusion, explain, cost estimates, metadata filters, reranking, the server, the SDK and the dashboard.
- TombstoneMakesStale: for any graph search, and therefore one direction only; `TombstoneMakesStaleIff` has both for an
  exact one.
- Tiering.TieredCollection.PromoteToHot: its contract is about tiers and points; what the same call does to the index is
  `Collections.Collection.Promote`.
- CallIsSafeIff: for calls below the snapshot threshold. One that crosses it gets rid of its oversize frame when it
  truncates the log, and what a crash before that leaves depends on the images and on the operations before the frame.
- ReplayAbsorbsSuffixWithLinks: a sufficient condition. A link that fails, or whose ends change afterwards, can also be
  masked by a later one.
- TornMagicSwallowsFrame: for frames without a newline byte. What follows one is read as lines of compressed bytes.
- SearchAfterAnyRun: for ids new since the build, because re-adding breaks it; `FoundIffNotTombstoned` says what
  re-added ids get.
