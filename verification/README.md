# The metric data path of EpochDeck

This project models the path of a metric point from the journal on the client's disk
to the chart the server returns, and proves what each component owes to the others.
All components share one abstract object: the append-only, sequence-numbered log of a
run.

- **Spool and delivery** (`Framing`, `Requests`, `Spool`, `SpoolLaws`, `ExactlyOnce`,
  `DeliveryTheorems`, `Points`, `PointReader`, `DeliveryWorker`). A byte journal with torn final
  appends, a persisted delivery window, an acknowledged offset and a server that
  deduplicates. `Spool.SpoolDirectory` is the client's file handling, `ExactlyOnce` the
  protocol as steps, `DeliveryTheorems` what holds over whole runs, `Points` how large
  a logged point can get, `PointReader` a reader that gets back what was encoded.
- **Summary preview** (`Preview`, `Checkpoint`). The bounded preview on both sides,
  its checkpoints, and its recovery from a checkpoint and a bounded tail.
- **Segment catalog and compaction** (`MetricLog`, `SegmentCatalog`,
  `CompactionCandidates`, `CatalogStore`, `WriteAmplification`, `Compaction`,
  `CompactionSafety`, `CompactionTheorems`, `RewriteCost`, `StrayFiles`,
  `SegmentWriter`). `CatalogStore.Catalog` is the catalog's operations, `Compaction` the
  state machine of ingest, snapshot readers, compaction worker, cancellation and crash
  over tables and files. `IngestRefinement` and `EndToEnd` join it to the delivery
  protocol: the protocol's server is this catalog.
- **Samplers** (`Parts`, `MinMaxSampler`, `HistorySampler`, `SampledHistory`,
  `ChartSampler`, `ChartHistory`). In-place samplers refined to declarative
  specifications; `Parts` says how a range is cut into buckets.
- **Caches and scans** (`LruCache`, `ChartProjection`, `ChartQuery`, `ChartMeaning`,
  `ChartServer`, `PagedReads`, `SnapshotReads`). `ChartQuery` is what an uncached query
  computes, `ChartMeaning` what that shows of the rows. `ChartServer.Server` answers chart queries with both
  caches while an arbitrary schedule moves the state machine of `Compaction` on, run by
  run; `SnapshotReads` shows for every run of that machine what the page loops assume.
- **Locks** (`Locks`). Every handler as a program over locks, permits and the work it
  does under them.

Conventions. A file name carries a digest of what the file was made from; digests are
taken as injective, so a path is that content. One step is one SQL transaction, one
atomic file operation, one lock operation or one network event. A transaction may also
commit without its caller learning of it. Metric values are reals; integers are
unbounded, and saturation is written out where the code saturates. `hide` statements
only keep definitions away from the solver.

Three properties one might expect are false of the code, and the model keeps the code:

- A new cache entry is not always safe from its own insert: at a clock saturated at
  2^64 - 1 the insert can evict it (`LruCache.SaturatedClockCounterexample`). It can do
  so exactly when the entries with that clock value do not fit together
  (`LruCache.OwnInsertMayEvict`).
- Numbering without asking the server is not always safe: a fresh spool opened offline
  on a run that is past number 1 numbers its records from 1
  (`DeliveryTheorems.ResumesRightIff`), and the server never accepts the first of them
  (`DeliveryTheorems.UninformedRecordIsNeverAccepted`). The run theorems hold whenever
  every opening is safe in this sense, which `ExactlyOnce.Informed` states.
- Cleaning up does not catch every file: crashes and failed cleanup leave files that are
  in no table (`StrayFiles.CrashLeavesStray`), and these are all
  (`StrayFiles.StraysAreLeftBehind`).

Delivery itself can only be blocked by a record that does not fit a request on its own
(`DeliveryTheorems.DeliverableIff`), and no point that passes normalization is such a
record (`Points.PointFitsRequest`).

## Model

| member | source | states |
|---|---|---|
| Framing.JournalSplits | python/src/epochdeck/_spool.py:84-129 | Any journal is its complete lines, each with its newline, followed by a newline-free tail; the complete length is the length of the first part. |
| Framing.LinesOfFrame | python/src/epochdeck/_spool.py:84-129 | Framing newline-free lines and adding a newline-free tail, then splitting, gives back exactly the lines and the tail. |
| Spool.SpoolDirectory.RecoverInterruptedAppend | python/src/epochdeck/_spool.py:84-129 | The bounded look at the last `MAX_RECORD_BYTES + 1` bytes computes the recovery defined on the whole journal: same fault or same truncated files, field by field, and these are the declared ones. |
| Spool.RecoveryIsDeclared | python/src/epochdeck/_spool.py:84-129 | Opening succeeds exactly when there is no torn tail, or when the tail is no longer than a record and neither the ack, nor the checkpoint, nor a live delivery reaches into it; the journal is then cut behind its last newline, and otherwise left alone. Ack and checkpoint never change; a delivery is only ever dropped when it is acknowledged. |
| SpoolLaws.TornAppendRecovers | python/src/epochdeck/_spool.py:84-129 | Complete records followed by any strict prefix of one more encoded record: recovery succeeds if and only if nothing was torn or the ack, the checkpoint and the persisted delivery all lie within the complete records; it then leaves exactly those records and the same ack, checkpoint and live delivery. |
| SpoolLaws.RecoveryKeepsCompleteRecords | python/README.md:60-63 | Opening a spool never drops or changes a complete record, malformed or not, whatever the fault; without a fault no torn tail remains. |
| Spool.SpoolDirectory.AppendRecord | python/src/epochdeck/_spool.py:167-176 | An oversized record is refused without writing; any other is appended with its newline and its end offset returned. |
| Spool.SpoolDirectory.ReadAck | python/src/epochdeck/_spool.py:571-582 | A missing ack reads as zero and an ack past the journal is an error. |
| Spool.SpoolDirectory.ReadDelivery | python/src/epochdeck/_spool.py:509-543 | A persisted delivery that ends at or before the ack is unlinked, one that does not start at the ack or leaves the journal is an error, any other is live. |
| Spool.SpoolDirectory.CollectRecords | python/src/epochdeck/_spool.py:263-303 | The streaming loop with running totals collects what the recursive specification of a selection says, error cases included. |
| Spool.SpoolDirectory.ReadRecordBatch | python/src/epochdeck/_spool.py:254-351 | The records returned are what the journal holds from the ack to the end that is returned; their window is persisted under the number of the first one, with a request within the budget that is, byte by byte, the fixed text around that number and these records in this order. Nothing but the delivery changes, and without records it stays unless it was acknowledged. All branches are those of the specification of a selection. |
| Spool.SpoolDirectory.ScanBack | python/src/epochdeck/_spool.py:425-443 | The backward scan stops at the start of the last line or reports that the record is too long. |
| Spool.SpoolDirectory.LastRecord | python/src/epochdeck/_spool.py:425-443 | On a journal that ends with a complete non-empty record the scan returns exactly that record, or the length error exactly when it is too long; on any other it overlooks a newline in the last two bytes and reads from the one before. |
| Spool.ScanFindsLastRecord | python/src/epochdeck/_spool.py:425-443 | The position where the backward scan stops is the start of the last record. |
| SpoolLaws.ReadFreshBatch | python/src/epochdeck/_spool.py:266-328 | With no live delivery the selection persists and returns the longest pending prefix within the count limit and the byte budget. |
| SpoolLaws.LongestIsMaximal | python/src/epochdeck/_spool.py:285-303 | No other prefix within the limit and the budget is longer than the selected one. |
| SpoolLaws.ReadPersistedBatch | python/src/epochdeck/_spool.py:263-351 | With a live delivery exactly its records are returned and the files stay as they are, whatever the limit and whatever was appended later. |
| Spool.SpoolDirectory.Acknowledge | python/src/epochdeck/_spool.py:365-384 | It fails exactly when a persisted delivery ends elsewhere, and then changes nothing; otherwise the ack is the offset, the delivery is gone, and journal and checkpoint stay. |
| ExactlyOnce.FreshOverBudget | python/src/epochdeck/_spool.py:285-300 | A first pending record that does not fit a request by itself makes the selection fail over budget and persist nothing. |
| Requests.PredictionIsExact | python/src/epochdeck/_spool.py:605-612 | The size predicted from running totals equals the length of the encoded request. |
| Requests.RequestSizeMonotone | python/src/epochdeck/_spool.py:285-300 | A longer prefix never encodes to a shorter request, so stopping at the first excess is safe. |
| Requests.EachFits | python/src/epochdeck/_spool.py:285-300 | Whatever fits a request together fits one by one, although later records have longer numbers. |
| Requests.RequestIsDeclared | python/src/epochdeck/_protocol.py:17-26 | The encoded request reads as its fixed text with a number without leading zeros whose digits stand for the batch sequence by place value; point k stands at the sum of the lengths of the points before it plus k, with a comma before it when k > 0; and there is nothing else. |
| PointReader.PointIsRead | python/src/epochdeck/_protocol.py:17-26 | Reading an encoded point gives back its metrics, sequence, step and timestamp, whatever follows it: keys with quotes, backslashes, escapes and surrogate pairs included. |
| PointReader.RequestIsRead | python/src/epochdeck/_protocol.py:17-26 | Reading the request of a batch of points gives back the number and the points, in order, and nothing is left over. |
| PointReader.DecodeDecodesPoints | python/src/epochdeck/_protocol.py:17-26 | A decoder exists that knows every normalized point by its sequence, as the delivery theorems about logged points assume of the decoder. |
| PointReader.PersistedRequestIsRead | python/src/epochdeck/_spool.py:304-351 | After any run, the request of a live delivery reads as its identity and exactly the logged points that stand in its window of the journal, in order. |
| ExactlyOnce.StepKeeps | python/src/epochdeck/_delivery.py:135-144 | Every step (open, append, torn append, crash, select, send, serve a request any number of times, receive, give up, acknowledge, unlink, checkpoint, finish) keeps the protocol invariant and never moves the ack or the server back. |
| ExactlyOnce.RecoveryKeeps | python/src/epochdeck/_spool.py:84-129 | In every reachable state recovery succeeds and keeps the delivery window. |
| ExactlyOnce.ResumePosition | python/src/epochdeck/_run.py:383-403 | Reopening a spool whose client asked the server, or holds a record, or whose run starts at 1, continues one past the last complete record. |
| ExactlyOnce.SelectionOutcome | python/src/epochdeck/_spool.py:254-351 | In every reachable state a selection finds a consistent window: it returns the persisted records, the longest fresh ones, nothing when nothing is pending, or the over-budget error. |
| ExactlyOnce.ServeOutcome | crates/epochdeck-server/src/lib.rs:694-796 | A request that was ever sent is a duplicate without effect if registered, and otherwise is accepted or meets a finished run; conflicts, gaps and invalid batches cannot occur. |
| ExactlyOnce.WindowRegistered | crates/epochdeck-catalog/src/lib.rs:1443-1548 | Registering the persisted window extends the server log by exactly its records. |
| ExactlyOnce.AcknowledgeIsBothSteps | python/src/epochdeck/_spool.py:365-384 | In every reachable state with an answered delivery, acknowledging does not fail, and its files are those after the ack write and the unlink of the protocol: the ack is the end of the window and no delivery is left. |
| ExactlyOnce.WriteAckKeeps | python/src/epochdeck/_spool.py:365-384 | The ack only ever moves to the end of a window that the server holds. |
| DeliveryTheorems.ExactlyOncePrefix | python/README.md:58-63 | After any run the server holds what it held before plus a record prefix of the journal that ends at the ack or at the end of the live delivery: nothing lost, duplicated or reordered. |
| DeliveryTheorems.NothingConflicts | crates/epochdeck-server/src/lib.rs:694-796 | After any run every request in flight is answered as accepted, duplicate or run-finished, recovery does not fail, an answered delivery is acknowledged without fault, and a selection can only fail over budget. |
| DeliveryTheorems.ResumeNeverSkips | python/src/epochdeck/_run.py:383-403 | Taking the larger of the local and the server position on resume continues exactly after the last complete record. |
| DeliveryTheorems.RunIsDurable | python/README.md:60-63 | Along any run complete records and registered points are only ever added. |
| DeliveryTheorems.EveryRecordCanBeDelivered | python/src/epochdeck/_delivery.py:135-144 | From every reachable state of a running run, if each record fits a request, some continuation delivers and acknowledges the whole journal. |
| DeliveryTheorems.DeliverableIff | python/src/epochdeck/_spool.py:285-300 | In every reachable state the first n records reach the server in some continuation if and only if they are there already, or the run is running and each of them fits a request of its own. |
| DeliveryTheorems.OversizedRecordStops | python/src/epochdeck/_spool.py:294-300 | Wherever in the journal a record does not fit a request by itself, the server and the ack never get past it, in any run. |
| Points.PointIsRecord | python/src/epochdeck/_metrics.py:7-40 | A normalized point encodes to a non-empty newline-free line far below the record limit, so appending it is never refused. |
| Points.PointFitsRequest | python/src/epochdeck/_delivery.py:13 | A normalized point takes at most an eighth of the request budget, escapes, 256 keys of 256 bytes and all. |
| Points.LoggedPointsCanBeDelivered | python/README.md:58-63 | With the real budget, from every reachable state of a running run whose records are normalized points, some continuation delivers and acknowledges the whole journal. |
| DeliveryTheorems.ResumesRightIff | python/src/epochdeck/_run.py:383-403 | In every reachable closed state, opening continues right after the last record if and only if the client asks the server, or holds a record, or the run starts at 1; otherwise it numbers from 1. |
| DeliveryTheorems.ServerContinues | crates/epochdeck-catalog/src/lib.rs:1488-1500 | Whatever clients send, all that a server which holds points accepts from then on continues its numbers. |
| DeliveryTheorems.UninformedRecordIsNeverAccepted | python/src/epochdeck/_run.py:383-403 | A first record numbered 1 without asking, on a run past 1, is never accepted in any continuation, alone or in any batch. |
| DeliveryWorker.Worker.NextDelivery | python/src/epochdeck/_delivery.py:152-165 | The chosen journal is the pending one closest to the cursor, and the cursor moves past it before the delivery is attempted. |
| DeliveryWorker.ServedWithinFour | python/src/epochdeck/_delivery.py:87-101 | A journal that stays pending is served within four consecutive selections, whatever the others do and whether or not deliveries succeed. |
| Preview.MergeMetricPreview | python/src/epochdeck/_summary.py:10-24 | Copy, overwrite, sort and slice keeps exactly those keys of the overwritten preview that fewer than 256 others precede, with the newer value where there is one and never a key with the `system/` prefix; the flag says whether anything was ever dropped. |
| Preview.UpdateMetricSummaryPreview | crates/epochdeck-catalog/src/lib.rs:2451-2496 | Popping the greatest key while too long keeps exactly those keys that fewer than 256 others precede, as sorting and slicing does, and says whether anything was dropped. |
| Preview.LessIsPrecedes | python/src/epochdeck/_summary.py:20 | The order of the keys is that of their characters: one key precedes another exactly when, behind a common prefix, it ends while the other goes on or has the lesser character. |
| Preview.SmallestKeepsFirst | python/src/epochdeck/_summary.py:20-24 | The n smallest entries are exactly those whose keys fewer than n others precede in that order. |
| Preview.LatestMetrics | crates/epochdeck-server/src/lib.rs:3221-3233 | The batch contributes every key without the `system/` prefix that some point has, each with its value in the last point that has it. |
| Preview.PreviewIsDeclared | python/src/epochdeck/_summary.py:10-24 | The preview of a history holds, of the keys of its points that are no system metrics, the first 256, each with its last value, and is marked truncated exactly when there are more. |
| Preview.SmallestAbsorbs | crates/epochdeck-catalog/src/lib.rs:2466-2484 | Keeping the n smallest keys before adding newer values loses nothing that keeping them afterwards would retain. |
| Preview.MergingPointsIsExact | python/src/epochdeck/_summary.py:10-24 | Merging point by point is at every step the preview of the whole history: latest values of the 256 smallest user keys, truncated exactly when there are more. |
| Preview.MergingBatchesIsExact | crates/epochdeck-catalog/src/lib.rs:2466-2484 | Updating batch by batch is at every step the preview of the whole history. |
| Preview.MergingPreviewsIsExact | python/src/epochdeck/_run.py:394-398 | Merging the bounded previews of two histories is the bounded preview of one after the other. |
| Preview.EarlierPreviewIsAbsorbed | python/src/epochdeck/_run.py:394-398 | Merging the server preview of everything up to an earlier record into the client preview gives the preview of everything, also when the server held points before this journal; once that has been done, doing it again changes nothing. |
| Preview.SystemPointsAreInvisible | python/src/epochdeck/_run.py:688-726 | A point of system metrics leaves the preview alone. |
| Checkpoint.RecoverSummary | python/src/epochdeck/_spool.py:445-507 | Recovery succeeds exactly on a checkpoint at a record boundary with a bounded tail and a well-formed stored preview, and then returns the replay of the tail. |
| Checkpoint.RunSummary.AppendMetrics | python/src/epochdeck/_run.py:688-726 | Appending with its checkpoint before and after, either of which may fail, has exactly the specified effect on disk, in memory and on whether an error is raised. |
| Checkpoint.AppendedIsDeclared | python/src/epochdeck/_run.py:688-726 | If a checkpoint is late and cannot be written, nothing happens but the error. Otherwise the record joins the journal and the preview, the stored preview is that of the last checkpoint that was written, the tail starts there, and an error is raised exactly when the checkpoint late after the record could not be written. |
| Checkpoint.ReplayIsExact | python/src/epochdeck/_spool.py:445-507 | Replaying the tail over the preview of a prefix gives the preview of the whole journal, whatever came before it. |
| Checkpoint.SavedKeeps | python/src/epochdeck/_run.py:835-848 | A checkpoint write makes the stored preview that of the whole journal, with no tail left and none due. |
| Checkpoint.JournalledKeeps | python/src/epochdeck/_run.py:688-726 | As long as no checkpoint is due, one more record leaves the tail within its bounds and the preview exact. |
| Checkpoint.MergedWithServerCovers | python/src/epochdeck/_run.py:394-398 | After the merge with the server the client preview covers all the server held before this journal, and the journal. |
| Checkpoint.RecoveryEqualsLiveState | python/src/epochdeck/_spool.py:445-507 | After any run, crashes, failed checkpoint writes and merges with a server that held earlier points included, recovery succeeds and rebuilds the preview a live client holds: that of the journal, preceded once the server has been asked by what it held before. |
| Checkpoint.TailIsBounded | python/src/epochdeck/_spool.py:445-507 | In every reachable state the tail stays within 128 records and 512 KiB + 2 MiB + 1 bytes, so the bound errors never fire. |
| MetricLog.TiledLogIsConsecutive | crates/epochdeck-catalog/src/lib.rs:1481-1500 | The rows of tiled segments are numbered without gap from the first to the last sequence. |
| MetricLog.KeysAreColumns | crates/epochdeck-storage/src/lib.rs:1175-1180 | The columns of a batch file are exactly the keys that some row of it has. |
| SegmentCatalog.RegistrationExtendsLog | crates/epochdeck-catalog/src/lib.rs:1443-1548 | An accepted registration appends exactly its rows to the log and keeps the tiling. |
| SegmentCatalog.SourcesAreSlice | crates/epochdeck-catalog/src/lib.rs:1758-1793 | Adjacent sources that are all still active are one consecutive slice of the catalog, however old the candidate is. |
| SegmentCatalog.ReplacementKeepsLog | crates/epochdeck-catalog/src/lib.rs:1758-1822 | A successful replacement, stale candidates included, splices one segment in place of its sources; the log and the tiling are unchanged. |
| CatalogStore.ValidateCompactionReplacement | crates/epochdeck-catalog/src/lib.rs:2365-2402 | The loop accepts exactly the replacements that cover adjacent, schema-equal sources by signature, range and row count. |
| CatalogStore.Catalog.QueryBatchStatus | crates/epochdeck-catalog/src/lib.rs:1397-1422 | Missing, duplicate or conflict, by batch number and contents. |
| CatalogStore.Catalog.RegisterBatch | crates/epochdeck-catalog/src/lib.rs:1443-1548 | A known number is a duplicate or a conflict by its contents, a finished run refuses, and anything not accepted changes nothing; an accepted batch adds exactly its segment, which lies past all others under a new path, and its number. |
| CatalogStore.Catalog.ReplaceCompactedSegments | crates/epochdeck-catalog/src/lib.rs:1758-1822 | Checks, retirements, deletions and insertion together have the specified result and effect; a refusal changes nothing, and a success retires exactly the paths of the sources, all of which were active. |
| CatalogStore.Catalog.MetricExtent | crates/epochdeck-catalog/src/lib.rs:1853-1890 | On a tiled catalog the extent is absent exactly when nothing lies past the cursor, and otherwise runs from the first unread sequence to the newest. |
| CatalogStore.Catalog.LastSegment | crates/epochdeck-catalog/src/lib.rs:1613-1625 | The segment with the greatest last sequence is the last one of the tiling. |
| CatalogStore.Catalog.RetiredSegments | crates/epochdeck-catalog/src/lib.rs:1824-1836 | As many distinct retired paths as the limit allows. |
| CatalogStore.Catalog.AcknowledgeRetiredSegments | crates/epochdeck-catalog/src/lib.rs:1838-1851 | Exactly the acknowledged paths leave the retired table. |
| CompactionCandidates.SeedIsWindow | crates/epochdeck-catalog/src/lib.rs:1639-1700 | A row the seed query selects starts four segments that are neighbours in the unfiltered catalog and compactable together. |
| CompactionCandidates.WindowIsSeed | crates/epochdeck-catalog/src/lib.rs:1639-1700 | Every four-segment window that is compactable is visible to the seed query although the row filter is applied first. |
| CompactionCandidates.SeedFindsFirstWindow | crates/epochdeck-catalog/src/lib.rs:1639-1700 | The seed query finds the first qualifying window of the catalog and fails exactly when there is none. |
| CatalogStore.GreedyCandidate | crates/epochdeck-catalog/src/lib.rs:1717-1747 | The greedy loop returns a compactable prefix that the next row would break. |
| CatalogStore.FirstFourFit | crates/epochdeck-catalog/src/lib.rs:1748-1750 | Once a window qualifies the greedy extension reaches at least four segments, so giving up afterwards is unreachable. |
| CatalogStore.Catalog.NextCompactionCandidate | crates/epochdeck-catalog/src/lib.rs:1627-1756 | Errors exactly on invalid arguments; no candidate means that no window qualifies anywhere; a candidate starts at the first qualifying window, has 4 to `max_segments` members, is compactable and cannot be extended. |
| WriteAmplification.TotalDominates | crates/epochdeck-catalog/src/lib.rs:26-27 | At least four inputs with maximum at most twice the minimum: twice their total is at least five times any one of them. |
| WriteAmplification.MergeIsEconomical | crates/epochdeck-catalog/src/lib.rs:1685-1690 | Merging a candidate keeps 5^depth <= 2^depth * rows for the rewrite depth of the result. |
| WriteAmplification.DepthBound | crates/epochdeck-server/src/compaction.rs:10 | Such a file has rewrite depth at most 10 with the default target of 16384 rows, and at most 12 with the largest allowed target. |
| WriteAmplification.WorkBound | crates/epochdeck-server/src/compaction.rs:122-126 | The rows written by all compactions that led to a file are at most its depth times its rows. |
| WriteAmplification.TotalWorkBound | crates/epochdeck-server/src/compaction.rs:10 | Over a whole catalog of such files the rewritten rows are at most ten (twelve) times the stored rows. |
| SegmentWriter.CheckSequence | crates/epochdeck-storage/src/lib.rs:1546-1560 | The row-by-row check accepts exactly the rows that continue the numbering. |
| SegmentWriter.WriteCompacted | crates/epochdeck-storage/src/lib.rs:1493-1584 | The copy loop succeeds exactly when every source file is there, all have the same columns and the joined rows pass all checks, and then writes exactly the joined rows. |
| SegmentWriter.SoundCopySucceeds | crates/epochdeck-storage/src/lib.rs:1493-1584 | In every sound state the copy succeeds and its content is what the output path stands for. |
| CompactionSafety.SchemasAgree | crates/epochdeck-storage/src/lib.rs:1527-1533 | Sources with one signature have the same columns, merged files included. |
| CompactionSafety.RegistrationOutcome | crates/epochdeck-catalog/src/lib.rs:1443-1548 | A new batch of a running run is accepted or refused for a sequence gap; no path or batch clash is possible. |
| CompactionSafety.ReplacementSucceeds | crates/epochdeck-catalog/src/lib.rs:1758-1822 | If the sources are active the replacement always succeeds. |
| CompactionSafety.ReplacementIsSound | crates/epochdeck-catalog/src/lib.rs:1758-1822 | A replacement keeps the log, retires exactly the sources and keeps every retired file covered by a strictly larger active segment. |
| CompactionSafety.RetiredIsNotActive | crates/epochdeck-server/src/compaction.rs:173-186 | A retired path is never an active one. |
| CompactionSafety.OutputPathIsNew | crates/epochdeck-storage/src/lib.rs:1344-1358 | The output path of a merge has never been in the catalog, neither active nor retired. |
| CompactionSafety.RegisterKeeps | crates/epochdeck-server/src/lib.rs:748-796 | Registering keeps the whole invariant whether the transaction is reported, lost after the commit or lost before it. |
| CompactionSafety.RemoveUnregisteredKeeps | crates/epochdeck-server/src/lib.rs:766-786 | Cleaning up a rejected ingest file, successfully or not, keeps the whole invariant. |
| CompactionSafety.RemoveNextKeeps | crates/epochdeck-server/src/compaction.rs:223-246 | Removing a retired file, successfully or not, keeps the whole invariant. |
| CompactionSafety.ReplaceKeeps | crates/epochdeck-server/src/compaction.rs:158-190 | The replacement step keeps the whole invariant, with its outcome known or lost. |
| CompactionSafety.DropKeeps | crates/epochdeck-server/src/compaction.rs:191-221 | Cleaning up an unregistered merge output, successfully or not, keeps the whole invariant, with or without the snapshot lock. |
| CompactionSafety.StepKeeps | crates/epochdeck-server/src/compaction.rs:89-246 | Every step of ingest, readers, compaction, cancellation and crash keeps the invariant on tables, files, readers, worker and accounting, and never shortens the accepted log. |
| CompactionTheorems.LogIsConserved | crates/epochdeck-catalog/src/lib.rs:1758-1822 | At any point of any run the active segments tile one range and hold exactly the accepted rows in order. |
| CompactionTheorems.LogOnlyGrows | crates/epochdeck-catalog/src/lib.rs:1443-1548 | Later logs extend earlier ones, so a prefix below a watermark is immutable and the first sequence is fixed once set. |
| CompactionTheorems.AcceptedExactly | crates/epochdeck-catalog/src/lib.rs:1443-1548 | Only a committed registration adds rows: exactly those of its batch, whose number was not taken before. |
| CompactionTheorems.ActiveFilesAreSafe | crates/epochdeck-server/src/compaction.rs:89-246 | Every active segment has its file with the right rows, and that file is not scheduled for deletion. |
| CompactionTheorems.SnapshotsLoseNothing | crates/epochdeck-server/src/compaction.rs:40-46 | A reader can open every file it has listed, with its rows, for as long as it holds its snapshot. |
| CompactionTheorems.StepAppends | crates/epochdeck-server/src/compaction.rs:158-163 | While any reader holds its snapshot, a step of anything can only append segments. |
| CompactionTheorems.SnapshotSeesAppends | crates/epochdeck-server/src/compaction.rs:40-46 | In any run, every later listing under one snapshot extends every earlier one. |
| CompactionTheorems.MergingSucceeds | crates/epochdeck-server/src/compaction.rs:128-143 | While merging every source file is there, and the checks on columns and copied rows never fail. |
| CompactionTheorems.OutputIsReady | crates/epochdeck-storage/src/lib.rs:1357-1381 | From installation to replacement the output file holds the rows of its sources, also when an earlier process left it behind. |
| CompactionTheorems.ReplacementNeverConflicts | crates/epochdeck-server/src/compaction.rs:163-174 | The worker never meets a vanished source or a clashing path. |
| CompactionTheorems.OnlyGapsAreRefused | crates/epochdeck-server/src/lib.rs:748-796 | A batch whose file has been written is accepted or refused for a sequence gap, nothing else. |
| CompactionTheorems.RewritingIsBounded | crates/epochdeck-server/src/compaction.rs:10 | After any run the rows of all committed replacements are at most ten times the accepted ones (twelve with the largest target), and no row of an active file has been rewritten more than ten (twelve) times. |
| RewriteCost.CopyingIsBounded | crates/epochdeck-server/src/compaction.rs:128-143 | All rows ever copied, into outputs that were abandoned too, are at most ten (twelve) times the accepted ones plus the target once for every merge that was not committed. |
| CompactionTheorems.PassShrinks | crates/epochdeck-server/src/compaction.rs:89-190 | One pass removes at least three segments and leaves the log alone. |
| CompactionTheorems.PassesAreBounded | crates/epochdeck-server/src/compaction.rs:248-300 | Without ingest the number of passes is at most a third of the number of segments. |
| CompactionTheorems.PassIffWindow | crates/epochdeck-catalog/src/lib.rs:1627-1756 | A pass is possible exactly when some four-segment window qualifies. |
| CompactionTheorems.CandidateIsSelectable | crates/epochdeck-server/src/compaction.rs:113-119 | What the catalog offers is what the worker may select: at least four active, compactable segments. |
| StrayFiles.StrayStep | crates/epochdeck-server/src/compaction.rs:191-221 | One step makes exactly those files strays that it turns away from, and a stray ends only by getting a catalog entry. |
| StrayFiles.StraysAreLeftBehind | crates/epochdeck-server/src/compaction.rs:191-246 | In any run the files nobody will clean up are exactly those left by a crash while pending, by an error after installation, or by an ownership query or removal that failed, and not adopted since. |
| StrayFiles.FilesAtRest | crates/epochdeck-server/src/compaction.rs:191-246 | While nothing is in progress every file is active, waits to be removed, or was left behind in one of these ways, and no file is both. |
| StrayFiles.CrashLeavesPending | crates/epochdeck-server/src/lib.rs:737-748 | A crash makes a file a stray exactly when it is there, unregistered and still pending. |
| StrayFiles.CrashLeavesStray | crates/epochdeck-server/src/lib.rs:737-748 | One such input: a crash between writing a batch and registering it. |
| IngestRefinement.RegistrationRefines | crates/epochdeck-server/src/lib.rs:694-796 | The server of the delivery protocol and the catalog answer every valid ingest request alike and stay in step. |
| IngestRefinement.ResumePositionIsTail | crates/epochdeck-server/src/lib.rs:619-650 | The next sequence the protocol expects is one past the tail of the last segment, or 1 without segments. |
| IngestRefinement.CompactionIsInvisible | crates/epochdeck-catalog/src/lib.rs:1758-1822 | A compaction changes nothing the delivery protocol can observe. |
| EndToEnd.JournalToSegments | python/README.md:58-63 | With clients and storage running together in any order, the rows in the active segment files are at every point those of before plus a record prefix of the journal that ends at the ack or at the end of the live delivery. |
| MinMaxSampler.MinimumIsFound | crates/epochdeck-storage/src/lib.rs:468-480 | Folding the samples finds the smallest value, the earliest sample on a tie, and nothing only when no sample has the metric. |
| MinMaxSampler.MaximumIsFound | crates/epochdeck-storage/src/lib.rs:468-480 | Folding the samples finds the largest value, the latest sample on a tie. |
| MinMaxSampler.SampleBucket.ReplaceReference | crates/epochdeck-storage/src/lib.rs:500-514 | Exactly one count moves from the previous row to the current one, and the previous row is dropped exactly when its count reaches zero. |
| MinMaxSampler.SampleBucket.Observe | crates/epochdeck-storage/src/lib.rs:452-498 | One more sample keeps the bucket exact: ranges, reference counts and retained rows are those of all samples seen. |
| MinMaxSampler.KeptIsExtreme | crates/epochdeck-storage/src/lib.rs:452-514 | The rows a bucket keeps are exactly the samples that are an extremum of some metric. |
| MinMaxSampler.FewUsed | crates/epochdeck-storage/src/lib.rs:541-549 | A bucket keeps at most two rows per metric. |
| HistorySampler.BucketsAreMonotone | crates/epochdeck-storage/src/lib.rs:618-624 | A later sequence never falls into an earlier bucket, where buckets are the equal parts b * span <= (sequence - first) * count < (b + 1) * span of the extent. |
| HistorySampler.OnlyBucket | crates/epochdeck-storage/src/lib.rs:618-624 | A sequence in the extent lies in exactly one of these parts, the one computed for it. |
| HistorySampler.MinMaxHistorySampler.Observe | crates/epochdeck-storage/src/lib.rs:610-626 | Rows outside the extent or without a value are ignored, any other is routed to its bucket; every bucket stays exact. |
| HistorySampler.MinMaxHistorySampler.Finish | crates/epochdeck-storage/src/lib.rs:579-608 | The output is strictly increasing, consists of exactly the samples that have the lowest or the highest value of some metric among those in the same part of the extent, and is at most two rows per metric and bucket. |
| HistorySampler.NewSampler | crates/epochdeck-storage/src/lib.rs:529-560 | Refuses exactly the requests without keys, with an empty extent or without room for two rows per key; otherwise the buckets fit `max_points`. |
| SampledHistory.Query | crates/epochdeck-server/src/lib.rs:2403-2478 | Over listings that only gain segments at the end: exactly those rows past the cursor, of the ones stored at the start, that have the lowest value of some key in their part of the extent, the earliest of equals, or the highest, the latest of equals; each with its position and its values of the keys, in order, at most `max_points` of them, and with the number of rows they stand for. |
| SampledHistory.SamplingMeans | crates/epochdeck-server/src/lib.rs:2403-2478 | What is selected among the projected samples of an extent is what stands out among the rows of the log themselves. |
| SnapshotReads.ListingsOnlyAppend | crates/epochdeck-server/src/compaction.rs:40-46 | In any run the listings made under one held snapshot only gain segments at the end, which is what the page loops assume. |
| SnapshotReads.SampleHistory | crates/epochdeck-server/src/lib.rs:2403-2478 | On a running server, under a snapshot: the rows that stand out in this sense among those that had been accepted when the query listed its first page. |
| ChartSampler.CellIsFound | crates/epochdeck-storage/src/lib.rs:841-851 | Folding the samples in any order yields a cell with the least and greatest value and the sample of greatest sequence, and an empty cell exactly when nothing contributes. |
| ChartSampler.OnlyBucket | crates/epochdeck-storage/src/lib.rs:1074-1078 | An axis value in range lies in exactly one part b * span <= (x - x_min) * buckets < (b + 1) * span of the range, the one computed for it; there are as many parts as wanted, but no more than the range has values. |
| ChartSampler.SeriesIsDeclared | crates/epochdeck-storage/src/lib.rs:1024-1061 | The fold gives the number of samples in view, and lists exactly the parts with any, in order, each with the least and greatest value and the newest sample in it. |
| ChartSampler.CellIsOrderFree | crates/epochdeck-storage/src/lib.rs:841-851 | Samples with distinct sequences give the same cell in every order of observation. |
| ChartSampler.PointsAreOrderFree | crates/epochdeck-storage/src/lib.rs:1083-1094 | Point counts do not depend on the order of observation. |
| ChartSampler.RejectedIsOutOfView | crates/epochdeck-storage/src/lib.rs:1969-1996 | Nothing in a row group that the statistics reject is in view, for both step axes and also where the viewport saturates. |
| ChartSampler.SkippedIff | crates/epochdeck-storage/src/lib.rs:1969-1996 | A row group is skipped exactly when its bounds are exact, readable as unsigned numbers and in order, and no step between them is in the viewport. |
| ChartSampler.OutOfViewIsInvisible | crates/epochdeck-storage/src/lib.rs:1063-1071 | Samples out of view change no cell and no count. |
| ChartHistory.ChartHistorySampler.Observe | crates/epochdeck-storage/src/lib.rs:1063-1097 | One more sample keeps all counts and all cells those of the samples observed so far, the cell being the part of the range its axis value lies in. |
| ChartHistory.ChartHistorySampler.ReadSegment | crates/epochdeck-storage/src/lib.rs:1840-1898 | Reading a segment while skipping rejected row groups leaves the sampler as if every row had been observed. |
| ChartHistory.ChartHistorySampler.Finish | crates/epochdeck-storage/src/lib.rs:1024-1061 | The series hold exactly the parts of the range with samples in view, in order, each with the least and greatest value and the newest sample in it, and the exact counts. |
| ChartHistory.NewAligned | crates/epochdeck-storage/src/lib.rs:940-1001 | Refuses exactly empty keys, unordered ranges, bad bucket counts and requests over the cell limit. |
| ChartHistory.ExtentIsTight | crates/epochdeck-storage/src/lib.rs:779-806 | A key's axis extent bounds all its samples in the extent, each bound is reached, and it is absent exactly when there is none. |
| ChartHistory.ChartAxisExtentScanner.Observe | crates/epochdeck-storage/src/lib.rs:779-806 | One more sample keeps the extents of all keys exact. |
| ChartProjection.SeriesOfKey | crates/epochdeck-server/src/lib.rs:2014-2040 | Sampling any set of keys together gives each key the series it would have alone. |
| ChartProjection.ExtentOfKey | crates/epochdeck-server/src/lib.rs:1925-1957 | Scanning any set of keys together gives each key its own extent. |
| ChartProjection.SeriesIgnoresLater | crates/epochdeck-server/src/lib.rs:1863-2061 | Rows past the watermark do not change a series at the watermark. |
| ChartProjection.ExtentIgnoresLater | crates/epochdeck-server/src/lib.rs:1863-2061 | Rows past the watermark do not change an extent at the watermark. |
| ChartMeaning.CoordinateFits | crates/epochdeck-server/src/lib.rs:2123-2147 | The coordinate system of a run is of the kind asked for, its origin being zero, or the least step or timestamp of the rows that have a requested key; there is none exactly when it is needed and no row has one. |
| ChartMeaning.RangeIsDeclared | crates/epochdeck-server/src/lib.rs:1945-1962 | The common axis range is the tightest that holds every row with a requested key of every run, each row measured from the origin of its run. |
| ChartMeaning.SeriesMeans | crates/epochdeck-storage/src/lib.rs:1024-1097 | The series of a key counts the rows that have it and lie in range, and shows for each part of the range the least and greatest value of the rows in it and the position and value of the newest one. |
| ChartMeaning.UncachedIsChart | crates/epochdeck-server/src/lib.rs:1818-2085 | An uncached response is a chart of the rows of the runs: watermarks, axis range, bucket count and every series are the declared ones. |
| LruCache.Cache.Get | crates/epochdeck-server/src/chart_cache.rs:132-137 | A hit returns the stored value and makes exactly that entry the most recently used, a miss changes no entry; totals and bounds stay exact. |
| LruCache.Cache.Insert | crates/epochdeck-server/src/chart_cache.rs:139-172 | An entry over the limits changes nothing; any other replaces its predecessor, then oldest entries go one by one only while the rest does not fit; totals equal the sums over entries, all bounds hold, and below the maximal clock the new entry stays. |
| LruCache.Cache.Remove | crates/epochdeck-server/src/chart_cache.rs:174-180 | Removing an entry subtracts its weights from totals that are never smaller. |
| LruCache.Cache.EvictUntilFits | crates/epochdeck-server/src/chart_cache.rs:154-171 | The eviction loop terminates with everything within its limits and evicts in order of last use. |
| LruCache.SurvivorsAreNewest | crates/epochdeck-server/src/chart_cache.rs:154-171 | What survives was used no earlier than anything evicted. |
| LruCache.EvictionIsMinimal | crates/epochdeck-server/src/chart_cache.rs:154-171 | With the last evicted entry back the cache would not fit. |
| LruCache.NewestSurvives | crates/epochdeck-server/src/chart_cache.rs:46-77 | A strictly newest entry that fits on its own is never evicted. |
| LruCache.OwnInsertMayEvict | crates/epochdeck-server/src/chart_cache.rs:46-77 | Some eviction order removes the new entry if and only if the clock was at its maximum and the entries that carry the maximal value do not fit together. |
| LruCache.SaturatedClockCounterexample | crates/epochdeck-server/src/chart_cache.rs:46-77 | At the saturated clock an insert can evict its own entry. |
| ChartServer.CachesStaySound | crates/epochdeck-server/src/chart_cache.rs:14-20 | Whatever ingest and compaction do, as long as no log loses a row, every cached extent and series stays the uncached one. |
| ChartServer.StepOnRun | crates/epochdeck-server/src/compaction.rs:158-163 | A step of ingest, of another reader or of compaction loses no row, and under the query snapshot it only appends segments. |
| ChartServer.CachedSeriesIsUncached | crates/epochdeck-server/src/chart_cache.rs:103-113 | A series hit is the uncached series although its key does not name the first sequence, because that is the same for every query of the run. |
| ChartServer.Server.ScanExtents | crates/epochdeck-server/src/lib.rs:2171-2217 | The page loop, with other requests running between pages, yields the uncached extent of every key at the watermark. |
| ChartServer.Server.SampleSeries | crates/epochdeck-server/src/lib.rs:2261-2301 | The page loop, with other requests running between pages, yields the uncached series of every key at the watermark. |
| ChartServer.Server.PlanAxis | crates/epochdeck-server/src/lib.rs:1896-1960 | Cached and scanned extents together are the uncached axis extent of the run, whichever keys hit. |
| ChartServer.Server.SampleRun | crates/epochdeck-server/src/lib.rs:1996-2045 | Cached and sampled series together are the uncached series of the run, whichever keys hit. |
| ChartServer.Server.QueryChartHistory | crates/epochdeck-server/src/lib.rs:1818-2085 | Under its snapshot, with both caches and any schedule of ingest, compaction and other queries, the response is the uncached one for logs that were current during the query, and a chart of their rows; a missing run is reported. |
| ChartServer.Server.Serve | crates/epochdeck-server/src/lib.rs:1818-2085 | Any run of queries with ingest, compaction and restarts before, during and between them: every answer is the uncached one and a chart of the rows its runs had when it was planned, these rows stay, and later answers see at least what earlier ones saw. |
| ChartServer.Server.FlatLog | crates/epochdeck-server/src/lib.rs:1863-2061 | The log a query answers about is the sequence of rows accepted for the run. |
| PagedReads.ReadSegment | crates/epochdeck-storage/src/lib.rs:1666-1715 | Appends exactly the rows past the cursor, up to the limit. |
| PagedReads.History | crates/epochdeck-server/src/lib.rs:2343-2401 | The page is a prefix of the rows past the cursor; `next_after` is its last sequence, and it is absent only when the page holds all of them. A page below the limit holds all rows past the cursor of the up to 256 segments one listing gives. |
| PagedReads.FollowingReadsEverything | crates/epochdeck-server/src/lib.rs:2343-2401 | Following `next_after` until it is absent returns every row past the start cursor exactly once and in order, for any limit, any segmentation and any growth and re-segmentation between requests. |
| PagedReads.FollowingEnds | crates/epochdeck-server/src/lib.rs:2343-2401 | Every page that continues carries a row, so a client reaches the end of a log that stays put. |
| SnapshotReads.ClientReadsEverything | crates/epochdeck-server/src/lib.rs:2343-2401 | On a running server, with compaction between its requests, a client that follows `next_after` to its end has exactly the accepted rows from the first one past its start on, all of them without a start, once and in order. |
| PagedReads.ScanPages | crates/epochdeck-server/src/lib.rs:2261-2301 | Over listings that only gain segments at the end, the 256-segment page loop terminates, its cursor always advances, and it visits every segment up to the watermark exactly once. |
| PagedReads.ScanReadsTheLog | crates/epochdeck-server/src/lib.rs:2261-2301 | What the loop reads is the stored log past the cursor and then only rows past the watermark. |
| Locks.LockOrder | crates/epochdeck-server/src/lib.rs:817-828 | The mutation locks taken are exactly the requested ones, each once, in increasing order. |
| Locks.AcquireMutationLocks | crates/epochdeck-server/src/lib.rs:817-828 | Sorting and deduplicating in a loop takes the locks in that order. |
| Locks.EveryProgramIsWellOrdered | crates/epochdeck-server/src/lib.rs:584-630 | Every handler and the compaction worker take resources in one global order, do their work only while they hold what it needs, keep a mutation lock until the last work that needs it, and return all they took. |
| Locks.EveryProgramDoesItsWork | crates/epochdeck-server/src/lib.rs:584-796 | Each program does exactly the work of its request, in order: an ingest checks the batch, writes it and registers it; a compaction pass removes retired files, selects, merges, replaces and removes. |
| Locks.Blocker | crates/epochdeck-server/src/compaction.rs:40-46 | Whatever blocks a task is an unfinished task that waits for something of higher rank, or a writer queued before a reader. |
| Locks.StepKeepsExclusion | crates/epochdeck-server/src/lib.rs:118-121 | Granting and returning keep every lock exclusive and every permit within its capacity. |
| Locks.WorkIsProtected | crates/epochdeck-server/src/lib.rs:686-735 | In every reachable state whoever is about to do some work holds what it needs: the mutation lock of the run for storing, checking, writing and registering, the read snapshot for reading rows, the write snapshot for replacing and removing segments. |
| Locks.NoConflict | crates/epochdeck-server/src/compaction.rs:40-46 | In every reachable state no two requests are about to do conflicting work: nothing touches one run or row twice at once, and nothing is replaced or removed while rows are read. |
| Locks.RequestsAreIsolated | crates/epochdeck-server/src/lib.rs:686-796 | In any run, from the first work of a request on a run or row to its last one, no other request does any work on it. |
| Locks.NoDeadlock | crates/epochdeck-server/src/lib.rs:686-735 | In every reachable state of any number of requests and compaction passes, cancelled ones included, some unfinished one can step. |
| Locks.EveryRunFinishes | crates/epochdeck-server/src/lib.rs:686-735 | No run is longer than the work requested, and a run that cannot continue has finished every request. |

## Left out

- Spool.SpoolDirectory.LastRecord: a line of blanks counts as a record, where the code returns none, because the encoder never writes one.
- One run at a time: project and run columns, the PARTITION BY run of the seed query and the choice between runs are not modelled; rows of different runs never interact.
- Compaction machine: one ingest in flight, because the run's mutation lock serialises them; batch validation limits other than consecutive sequences are not part of it.
- Journals of alerts, rich values and artifacts use the same file handling with a count limit of one and no byte budget, which `ReadRecordBatch` covers; their payloads are not modelled.
- Staging files: a failed removal of one leaves it in the staging directory, which nothing reads.
- `Points`: keys are distinct and sorted before encoding, which changes no length; the text of a double is any of at most 24 bytes. The reader accepts the canonical form; other spellings of the same JSON are not modelled.
- `EndToEnd`: a request that is answered with an error after its commit is, for the client, one whose reply it may or may not receive; the run of the store starts in any state that holds what the server held.
- Digests, the 16-hex path prefix, Parquet encoding, and JSON other than that of metric points and requests: taken as injective and faithful. Row-group statistics marked exact are taken as true.
- Metadata documents (`run.json`, ack and delivery files): replaced atomically; type checks on their JSON are not modelled.
- An append that raises while the process lives on, two owners of one spool, and `reclaim_delivered` after a finished run.
- Overflow of 64-bit counters in the catalog (row counts, sequences): the columns hold 63 bits and the checked additions cannot fail within them.
- CatalogStore.Catalog.RetiredSegments: does not model the order by `retired_at`; any selection of distinct retired paths up to the limit is allowed, and nothing else depends on the order.
- Intermediate pauses of the compaction worker, its interval and its limit of consecutive passes.
- `metric_revision`, run touch times and `run_metric_keys`: plain counters and keyed upserts.
- Scan statistics of the chart sampler; the single-run `chart_history` endpoint with `ChartStepExtentScanner`, a special case of the extent scan without caches.
- `ChartServer`: a query that finds a writer at the snapshot lock is answered `Waiting` and may be asked again, where the code waits; each run has its own compaction worker, which allows more than the one worker of the code; a restart keeps the caches, which allows more than losing them.
- `ChartServer`: grouping the requested series by run and flattening the response again; the byte weights of cache entries are arbitrary functions; extents are looked up under one cache lock, so other queries do not interleave within that loop.
- The two caches are one class: the axis-extent cache is the instance whose entries weigh no cells.
- `Locks`: the FIFO order among waiters of one semaphore; a waiting writer blocks all later readers. The cache mutexes are never held across a wait, and `blob_upload_permits`, admission and download permits are taken without waiting or nest with nothing else.
- HTTP routing, admission, blobs, artifacts, alerts, documents, search, dashboards: keyed inserts, filters and plumbing.
