# SyncOtter core, modelled in Dafny

SyncOtter mirrors a source directory (often on a network share) into a local
target directory. Two sync engines live side by side in the repository, with a
standalone Deno script beside them.

- **Shared sync path.** It filters the source tree with an exclusion list, then
  copies each file unless a path → {mtime, size, lastUse} cache and an
  integrity check say the target is current. Each copy goes through a
  size-selected transfer method wrapped in a retry loop. Telemetry counters and
  a bounded log record what happened.
- **Worker-pool engine.** A delta scanner walks the tree and reports every file
  that a stricter metadata cache (size, mtime and a hash of the first 1024
  bytes) calls changed. It turns each change into a copy task. Tasks run on a
  pool of workers that keeps pending tasks sorted by size. A worker retries a
  failed copy up to three attempts in all.
- **Deno script.** It has its own exclusion filter and skip rule.

Around these sit:

- the network profile (UNC path detection, latency classes, concurrency
  adjustment);
- the resilience helpers (retry with exponential backoff, resumable copy,
  circuit breaker);
- the run analytics (trend between the last two runs).

The model has one module per source file, plus four shared ones:

- `Common`: optional values and settled promises (`Outcome`), bytes, and the
  configuration record.
- `Paths`: splitting and joining path strings.
- `Tree`: a directory listing as a datatype, and the files a depth-first walk
  meets.
- `Wildcard`: the `*` → `.*` exclusion patterns.

The model's inputs are:

- **Time:** every use of `Date.now` becomes an integer parameter.
- **File-system answers:** each is an `Outcome` or `bool` parameter.
- **Hashes:** a function value from bytes to a digest.
- **Events:** what a worker does on each attempt is a function from the
  attempt number to an event.

Objects whose fields the source updates in place are classes with `modifies`
clauses:

- the cache map
- the metadata cache
- the scanner
- the throttle
- the circuit breaker
- the worker pool
- the engine
- the telemetry collector
- the analytics engine

Pure decisions are functions, and the properties relating them are lemmas.

## Model

| member | source | states |
|---|---|---|
| Paths.Split | shared/sync-core.js:9 | a split has at least one part and no part contains a separator |
| Paths.Relative | shared/sync-core.js:8 | joining the directory with the relative path gives the path back |
| Wildcard.MatchesPrefix | shared/sync-core.js:13-14 | the empty pattern matches everything; a pattern whose first character is not `*` needs a non-empty name |
| Wildcard.Found | shared/sync-core.js:13-14 | a match at the start of the name is found; the empty pattern is found in every name |
| Tree.Files | lib/DeltaScanner.js:12-27 | every file a walk of `dir` meets lies below `dir` |
| Wildcard.LiteralMatchesPrefix | shared/sync-core.js:13-14 | a pattern without `*` or `.` matches a prefix of a name exactly when the name starts with it |
| Wildcard.LiteralFoundIffInfix | shared/sync-core.js:12-15 | a literal pattern excludes exactly the names that contain it somewhere |
| Wildcard.FoundInside | shared/sync-core.js:13-14 | the match is unanchored: text added on either side of a matching name keeps it matching |
| Wildcard.DotIsAnyCharacter | shared/sync-core.js:13-14 | `.` in a pattern is a regular-expression wildcard: `*.ext` is found in any name where some character other than a line terminator precedes `ext`, so `*.log` excludes `catalog` |
| CacheManager.Normalize | CacheManager.js:22-24 | resolving leaves no empty, `.`, `..` or separator-containing segment |
| CacheManager.EntryKey | CacheManager.js:22-24 | every cache key is an absolute path |
| CacheManager.NormalizeNormal | CacheManager.js:22-24 | already-normal segments are appended unchanged by resolution |
| CacheManager.EntryKeyIdempotent | CacheManager.js:22-24 | resolving a key again gives the same key, so a path and its key share one entry |
| CacheManager.NeedsSync | CacheManager.js:26-31 | no sync is needed exactly when the resolved key holds the stat's mtime and size, whatever its `lastUse` |
| CacheManager.EntryFor | CacheManager.js:35 | the written entry holds the stat's mtime and size and the current time as `lastUse` |
| CacheManager.UpdateCacheEntry | CacheManager.js:33-36 | exactly the resolved key is written with the stat and the time; every path resolving to it then needs no sync; all other keys are untouched |
| CacheManager.LeastRecentlyUsedExists | CacheManager.js:41-42 | a non-empty cache has an entry whose `lastUse` is smallest, the one the sort puts first |
| CacheManager.EvictCache | CacheManager.js:38-46 | `maxEntries` defaults to 1000; no change at or below the bound; above it exactly `maxEntries` entries remain; kept entries are unmodified; no removed entry was used later than a kept one |
| CacheManager.UpdateThenEvictAll | CacheManager.js:26-45 | on an empty cache a file needs a sync, after an update it does not, and after evicting down to 0 it needs one again |
| MetadataCache.NeedsUpdate | lib/MetadataCache.js:28-42 | a file needs no update exactly when its exact path holds the entry `update` would write now (size, mtime, quick hash) |
| MetadataCache.QuickHash | lib/MetadataCache.js:20-26 | a file of at most 1024 bytes is hashed whole; a longer one by its first 1024 bytes only |
| MetadataCache.EntryOf | lib/MetadataCache.js:36-42 | the stored entry holds the stat size, the mtime and the quick hash |
| MetadataCache.ChangesPastQuickHashUndetected | lib/MetadataCache.js:20-34 | two file states with equal size, mtime and first 1024 bytes get the same answer, so later changes go unnoticed |
| MetadataCache.MetadataCache.constructor | lib/MetadataCache.js:10-17 | a parsed cache file is loaded; a missing or unparsable one gives an empty map |
| MetadataCache.MetadataCache.Update | lib/MetadataCache.js:36-42 | only this path's entry is replaced, and the file is then up to date |
| DeltaScanner.VisitRecordsFile | lib/DeltaScanner.js:19-24 | one file: afterwards it is recorded and no other entry changes; a stale file adds exactly its change, an up-to-date one changes nothing |
| DeltaScanner.ScanFilesKeys | lib/DeltaScanner.js:13-26 | after a walk the cache holds exactly the keys it had plus the walked paths |
| DeltaScanner.StaleChanges | lib/DeltaScanner.js:20-22 | the changes reported against a fixed cache are exactly those of the stale walked files, at most one per file |
| DeltaScanner.ScanFilesAppend | lib/DeltaScanner.js:14-26 | visiting a listing in two halves is visiting it in one go |
| DeltaScanner.ScanFilesWithin | lib/DeltaScanner.js:17-18 | descending into a directory changes nothing about the visit: there is no filter |
| DeltaScanner.ChangesOnlyGrow | lib/DeltaScanner.js:22 | a walk only appends to the changes it started with |
| DeltaScanner.ChangesNameWalkedFiles | lib/DeltaScanner.js:15-22 | every change a walk adds names a file it walked |
| DeltaScanner.OtherEntriesUntouched | lib/DeltaScanner.js:20-23 | cache entries of paths the walk does not visit are unchanged |
| DeltaScanner.ScanReportsStaleFiles | lib/DeltaScanner.js:13-25 | with distinct paths, the walk reports, in depth-first order, exactly the files stale in the starting cache, each with its size and full hash |
| DeltaScanner.ScanRecordsAll | lib/DeltaScanner.js:20-23 | after a walk every walked file is recorded in the cache |
| DeltaScanner.ScanOfRecordedIsIdle | lib/DeltaScanner.js:20 | files that need no update are neither reported nor re-recorded |
| DeltaScanner.RescanReportsNothing | lib/DeltaScanner.js:39-42 | scanning an unchanged tree again reports nothing and leaves the cache as it was |
| DeltaScanner.DeltaScanner.constructor | lib/DeltaScanner.js:6-10 | a new scanner holds the source directory and cache and no changes |
| DeltaScanner.DeltaScanner.ScanDir | lib/DeltaScanner.js:12-27 | the recursive loop leaves changes and cache exactly as the visit of the directory's files in depth-first order |
| DeltaScanner.DeltaScanner.Scan | lib/DeltaScanner.js:39-42 | the result is the changes field, which a second scan appends to |
| NetworkOptimizer.ExtractHost | NetworkOptimizer.js:10-12 | the host is the text after a leading `\\` up to the next backslash or the end |
| NetworkOptimizer.IsUNCPath | NetworkOptimizer.js:6-8 | a UNC path is exactly one that starts with two backslashes |
| NetworkOptimizer.Classify | NetworkOptimizer.js:34-39 | under 10 ms is LAN, under 100 ms VPN, otherwise WAN, and no latency is UNKNOWN, each as an if-and-only-if |
| NetworkOptimizer.ClassifyMonotone | NetworkOptimizer.js:34-39 | a lower latency never gives a worse class |
| NetworkOptimizer.DetectNetworkInfo | NetworkOptimizer.js:30-41 | no profile exactly for a non-UNC path; otherwise the extracted host, its measured latency and the class of that latency |
| NetworkOptimizer.BaseParallelCopies | NetworkOptimizer.js:46 | never 0: a missing or zero setting falls back to 4, any other value is kept |
| NetworkOptimizer.ApplyNetworkOptimizations | NetworkOptimizer.js:43-51 | no profile gives the same configuration; otherwise only `parallelCopies` changes: a missing or zero value counts as 4, then LAN gives max(p, 8), VPN min(p, 4) and any other class min(p, 2) |
| NetworkOptimizer.ProfileBoundsConcurrency | NetworkOptimizer.js:30-51 | from a UNC path: latency under 10 ms allows at least 8 copies, under 100 ms at most 4, slower or unmeasured at most 2 |
| TransferManager.SelectMethod | TransferManager.js:73-79 | exactly one method: compressed below 102400 bytes, chunked above 52428800, direct in between |
| TransferManager.NextCredit | TransferManager.js:30-34 | the new credit is at least the chunk length, at most the old credit plus the chunk, and exactly the chunk once enough time has drained the old credit |
| TransferManager.Throttle.constructor | TransferManager.js:22-27 | a new throttle has no credit and the creation time as its last time |
| TransferManager.Throttle.Transform | TransferManager.js:28-41 | the credit follows `NextCredit`, `last` becomes now, and the delay is credit / rate × 1000, so at least chunk / rate × 1000 |
| TransferManager.ChunkedPipeline | TransferManager.js:60-67 | read stream with the chunk size (8 MiB by default), a throttle stage exactly when the rate limit is truthy, then the write stream |
| TransferManager.AttemptOf | TransferManager.js:71-80 | an attempt succeeds exactly when both the stat and the copy do, with the method the size selects; a failed stat is its error |
| TransferManager.TransferFile | TransferManager.js:69-81 | a failed directory creation rejects without an attempt; otherwise 1 to 3 attempts, all but the last failed, the last decides, and a rejection means all 3 failed |
| ErrorRecovery.RetryFrom | ErrorRecovery.js:6-14 | from `attempt` earlier failures, the run is undefined exactly when no attempt is left; otherwise `fn` runs at least once more and at most up to `retries` |
| ErrorRecovery.Retry | ErrorRecovery.js:4-15 | undefined exactly when `retries` ≤ 0; never more than `retries` calls |
| ErrorRecovery.RetryFromFacts | ErrorRecovery.js:4-15 | the loop calls `fn` at most `retries` times, every call but the last failed, the last one decides, and the n-th wait is delay × 2^n |
| ErrorRecovery.NoRetriesNoCalls | ErrorRecovery.js:5-14 | with `retries` ≤ 0, `fn` is never called and the result is undefined |
| ErrorRecovery.RetrySucceedsAfterFailures | ErrorRecovery.js:6-9 | K failures and then a success, K < retries: exactly K + 1 calls and the value is returned |
| ErrorRecovery.RetryExhausted | ErrorRecovery.js:9-12 | always failing: `retries` calls, the last error rethrown, and waits of 2·delay, 4·delay, ... |
| ErrorRecovery.RetryOperation | ErrorRecovery.js:4-15 | `retries` defaults to 3 and `delay` to 500; the loop with its attempt counter computes the run `Retry` describes |
| ErrorRecovery.ResumeCopy | ErrorRecovery.js:33-47 | the old destination bytes followed by the source from their length on, complete; a destination longer than the source is kept and reported incomplete |
| ErrorRecovery.ResumeFromPrefix | ErrorRecovery.js:33-47 | resuming over a prefix of the source yields exactly the source |
| ErrorRecovery.ResumeIsIdempotent | ErrorRecovery.js:33-47 | resuming a completed copy again changes nothing |
| ErrorRecovery.ResumeChecksSizeNotContent | ErrorRecovery.js:45-46 | only sizes are compared: any destination no longer than the source is reported complete, and the result is the source exactly when the old bytes were a prefix of it |
| ErrorRecovery.CircuitBreaker.constructor | ErrorRecovery.js:50-55 | `limit` defaults to 5 and `timeout` to 30000 ms; no failures and closed |
| ErrorRecovery.CircuitBreaker.Exec | ErrorRecovery.js:56-69 | while open, "Circuit open" without calling `fn` or changing state; a success resets failures; a failure counts, opens for `timeout` once the limit is reached, and is rethrown |
| ErrorRecovery.TripThenRecover | ErrorRecovery.js:56-69 | after `limit` failures the breaker refuses calls until the timeout has passed, then calls `fn` again |
| SyncCore.HasListedSegment | shared/sync-core.js:10 | a listed segment needs a non-empty path and a non-empty list |
| SyncCore.AnyPatternFound | shared/sync-core.js:11-16 | a pattern is found only when some pattern is given |
| SyncCore.ShouldExclude | shared/sync-core.js:7-18 | excluded exactly when a segment of the relative path is a listed directory, or else a pattern is found in the base name; never without lists |
| SyncCore.Walk | shared/sync-core.js:29-40 | every listed path lies below the directory and is not excluded |
| SyncCore.WalkEntry | shared/sync-core.js:31-39 | the paths listed for one entry lie below the directory and are not excluded |
| SyncCore.ScanDir | shared/sync-core.js:29-40 | the loop appends exactly the walk's files below the directory |
| SyncCore.ScanSourceFiles | shared/sync-core.js:27-43 | the scan returns the pruning walk of the source tree |
| SyncCore.VisibleWithin | shared/sync-core.js:34-35 | reaching files through an excluded directory hides them all; through another one it changes nothing |
| SyncCore.VisibleBelowKeptDirectory | shared/sync-core.js:33-35 | a file reached through a directory below the source that is not excluded is visible exactly when it would be without that directory |
| SyncCore.WalkListsVisibleFiles | shared/sync-core.js:27-43 | the pruning walk lists exactly, in depth-first order, the files that are not excluded and have no excluded ancestor |
| SyncCore.WalkEntryListsVisibleFiles | shared/sync-core.js:33-38 | the same for one entry: an excluded directory contributes nothing |
| SyncCore.ListedDirectoryCoversDescendants | shared/sync-core.js:8-10 | everything below a directory with a listed segment is excluded too |
| SyncCore.EnsureDirectories | shared/sync-core.js:20-25 | a missing source rejects with the "Répertoire source introuvable" message; otherwise creating the target decides |
| SyncCore.TargetPath | shared/sync-core.js:46-47 | the target lies below the target directory with the same relative path as the source file |
| SyncCore.CopySteps | shared/sync-core.js:45-64 | the steps without telemetry: skipped exactly when the skip applies, copied exactly as above, and the cache written only on a copy |
| SyncCore.CopyFileIfNeeded | shared/sync-core.js:45-64 | copied exactly when no step fails, the cache-and-integrity skip does not apply and the transfer succeeds; only then is the cache entry updated; a copy adds one file, its bytes and one log entry; a failure adds one error and one log entry; a skip changes no counter and no log; `batches` and `startTime` never change |
| DenoMain.ShouldExclude | src/deno-main.ts:37-49 | the relative path is split on both separators; excluded exactly when a segment is listed, or else a pattern is found in the last segment |
| DenoMain.AgreesWithCoreWithoutBackslash | src/deno-main.ts:37-49 | for a relative path without backslashes both filters give the same answer |
| DenoMain.ListedFiles | src/deno-main.ts:51-59 | every listed file lies below the source and is not excluded, and every non-excluded walked file is listed |
| DenoMain.ListedFilesAreWalked | src/deno-main.ts:51-59 | only walked paths are listed |
| DenoMain.ListedFilesSingle | src/deno-main.ts:53-55 | a walk of one file lists it exactly when it is not excluded |
| DenoMain.KeptPaths | src/deno-main.ts:51-59 | the kept paths are exactly those of the walked entries the test keeps |
| DenoMain.KeptPathsAppend | src/deno-main.ts:51-59 | filtering a walk in two parts gives the first part's paths followed by the second's |
| DenoMain.ListedFilesAppend | src/deno-main.ts:51-59 | listing keeps the walk's order: the listing of two walks one after the other is the first's followed by the second's |
| DenoMain.CoreExcludesNamedDirectory | shared/sync-core.js:11-16 | the shared filter excludes a directory whose name is a literal pattern |
| DenoMain.FileKeptHere | src/deno-main.ts:41-46 | a file in that directory whose own name does not contain the pattern is kept by the Deno filter |
| DenoMain.PatternPrunesOnlyInCore | src/deno-main.ts:53-56 | a pattern naming a directory prunes it in the shared walk, while the Deno scan still lists the file inside |
| DenoMain.BackslashSplitsOnlyHere | src/deno-main.ts:38-40 | a name `a\b` is excluded by the listed directory `a` in the Deno filter and not in the shared one |
| DenoMain.SkipCopy | src/deno-main.ts:66-77 | skipped only when both stats and the existence check succeed, and then exactly when mtime and size are equal |
| DenoMain.CopyFileIfNeeded | src/deno-main.ts:61-80 | a failed directory creation rejects; a skip resolves without copying; otherwise the copy's outcome decides |
| FileWorker.RetryDelayMs | lib/FileWorker.js:12 | at least 100 ms, doubling with each attempt |
| FileWorker.Respond | lib/FileWorker.js:4-19 | success exactly when the copy succeeds; a retry with attempt + 1 after 2^attempt × 100 ms exactly when it fails before the third attempt; a failure with the error otherwise; the attempt defaults to 1 |
| WorkerPool.InsertAt | lib/WorkerPool.js:35 | a stable sort puts the new task after every task that is not larger and before every larger one |
| WorkerPool.Insert | lib/WorkerPool.js:34-35 | the queue stays sorted, gains exactly the new task, and removing it gives back the old queue |
| WorkerPool.IdleAfterErrorAsWritten | lib/WorkerPool.js:22-29 | the handler as written: the idle list gains the spare worker and keeps every worker it had |
| WorkerPool.AsWrittenErrorBreaksInvariant | lib/WorkerPool.js:22-29 | from any valid pool, an idle worker's error as written leaves the terminated worker idle and one worker too many live, so the pool invariant no longer holds |
| WorkerPool.IdleAfterError | lib/WorkerPool.js:22-27 | the errored worker leaves the idle list and the spare joins at its end |
| WorkerPool.DispatchKeepsInvariant | lib/WorkerPool.js:40-46 | dispatching the first task to the first idle worker keeps the pool invariant |
| WorkerPool.ErrorKeepsInvariant | lib/WorkerPool.js:22-27 | replacing an errored worker keeps `size` live workers and settles its task |
| WorkerPool.WorkerPool.AddWorker | lib/WorkerPool.js:13-30 | one new worker, recorded and appended to the idle list |
| WorkerPool.WorkerPool.constructor | lib/WorkerPool.js:4-11 | `size` workers, all idle in creation order, with no task queued, running or settled |
| WorkerPool.WorkerPool.Next | lib/WorkerPool.js:40-46 | dispatches only when a task waits and a worker is idle: the first idle worker takes the smallest task; the invariant is kept whenever it held |
| WorkerPool.WorkerPool.Run | lib/WorkerPool.js:32-38 | one task joins the queue in size order, then `_next` runs; the invariant is kept whenever it held |
| WorkerPool.WorkerPool.OnMessage | lib/WorkerPool.js:15-21 | the task resolves with the message, the worker rejoins the idle tail, then `_next` runs |
| WorkerPool.WorkerPool.OnErrorAsWritten | lib/WorkerPool.js:22-29 | as written: the worker is terminated and a spare appended to the idle list, which keeps the errored worker; its task, if any, is rejected; `_next` does not run |
| WorkerPool.WorkerPool.OnError | lib/WorkerPool.js:22-27 | the worker is terminated, a spare is added, and the task it held, if any, is rejected; `_next` does not run |
| WorkerPool.WorkerPool.Destroy | lib/WorkerPool.js:48-50 | every worker ever created is terminated, and nothing else changes |
| WorkerPool.ErroredIdleWorkerTakesNextTask | lib/WorkerPool.js:22-46 | with the handler as written, a fresh pool whose first worker errors while idle posts the next task to that terminated worker |
| SyncEngine.DetectMode | lib/SyncEngine.js:17-22 | `--silent` wins over `--visual`; otherwise network exactly for a UNC executable path, else turbo |
| SyncEngine.ResolveMode | lib/SyncEngine.js:10 | a mode other than 'auto' is kept; 'auto' or none is detected |
| SyncEngine.GetConcurrency | lib/SyncEngine.js:24-30 | turbo gives 16, network 4, any other mode 8 |
| SyncEngine.DetectedConcurrency | lib/SyncEngine.js:17-30 | a detected mode gives 4 exactly for a UNC run without flags, 16 for any other unflagged run, 8 with a flag |
| SyncEngine.ToTasks | lib/SyncEngine.js:45 | one task per change, in order, with the change's path and size and the target at the same relative path below the target directory |
| SyncEngine.CopyRun | lib/SyncEngine.js:48-64 | a task takes at most 3 attempts |
| SyncEngine.CopyRunSucceeds | lib/SyncEngine.js:48-64 | a task succeeds exactly when some attempt's copy succeeds after every earlier one failed, and every attempt before the deciding one failed |
| SyncEngine.ScannedChanges | lib/SyncEngine.js:42-46 | every change reported for the source tree lies below the source directory |
| SyncEngine.SyncEngine.constructor | lib/SyncEngine.js:8-15 | the mode is resolved, the cache loaded, and a pool sized for the mode started, with no progress |
| SyncEngine.SyncEngine.Scan | lib/SyncEngine.js:42-46 | the tasks are the scanner's changes mapped to targets, and the cache records them |
| SyncEngine.SyncEngine.Copy | lib/SyncEngine.js:48-64 | running the task on the pool and resending on retry gives the outcome and attempt count of the attempt protocol; success adds one to `done` |
| SyncEngine.SyncEngine.CopyAll | lib/SyncEngine.js:35-37 | tasks are copied in order; the loop succeeds exactly when every task does, and otherwise stops at the first rejection |
| SyncEngine.SyncEngine.Sync | lib/SyncEngine.js:32-40 | `total` is the number of tasks and `done` never exceeds it; the cache is saved and every worker terminated exactly when every copy resolved |
| TelemetryCollector.MaxLogsOf | monitoring/TelemetryCollector.js:17 | never 0: a missing or zero option falls back to 1000, any other value is kept |
| TelemetryCollector.Capacity | monitoring/TelemetryCollector.js:51-54 | the buffer holds at least one entry, `maxLogs` when that is positive |
| TelemetryCollector.Pushed | monitoring/TelemetryCollector.js:51-54 | the buffer becomes the last min(n + 1, capacity) entries of the old buffer followed by the new entry |
| TelemetryCollector.Throughput | monitoring/TelemetryCollector.js:41-42 | 0 for a run of no positive duration; otherwise rate × seconds equals the bytes copied |
| TelemetryCollector.AverageFileSize | monitoring/TelemetryCollector.js:43-44 | 0 when no file was counted; otherwise average × files equals the bytes copied |
| TelemetryCollector.TelemetryCollector.constructor | monitoring/TelemetryCollector.js:5-18 | counters start at 0 unless the initial metrics override them; `maxLogs` falls back to 1000; the log is empty |
| TelemetryCollector.TelemetryCollector.AddLog | monitoring/TelemetryCollector.js:51-54 | the oldest entry is dropped when the buffer is full and the new one is appended, keeping the bound |
| TelemetryCollector.TelemetryCollector.RecordFileCopied | monitoring/TelemetryCollector.js:20-25 | one more file, bytes added only when truthy, one log entry |
| TelemetryCollector.TelemetryCollector.RecordError | monitoring/TelemetryCollector.js:27-31 | one more error, one log entry |
| TelemetryCollector.TelemetryCollector.RecordBatch | monitoring/TelemetryCollector.js:33-36 | one more batch, one log entry |
| TelemetryCollector.TelemetryCollector.Finish | monitoring/TelemetryCollector.js:38-49 | duration is end minus start; throughput and average size are 0 when their divisor is 0; the log is copied |
| TelemetryCollector.PushKeepsRecent | monitoring/TelemetryCollector.js:51-54 | a buffer holding the most recent entries still holds the most recent ones after a push |
| TelemetryCollector.RecordMany | monitoring/TelemetryCollector.js:51-54 | after any number of records the buffer holds the most recent min(n, capacity) entries, newest last |
| AnalyticsEngine.AnalyticsEngine.constructor | monitoring/AnalyticsEngine.js:2-4 | no records |
| AnalyticsEngine.AnalyticsEngine.AddMetrics | monitoring/AnalyticsEngine.js:6-8 | the record is appended at the end |
| AnalyticsEngine.AnalyticsEngine.GetTrend | monitoring/AnalyticsEngine.js:10-19 | none exactly with fewer than two records; otherwise each delta is last minus previous |
| AnalyticsEngine.TrendOfLastTwo | monitoring/AnalyticsEngine.js:6-19 | whatever came before, the trend compares the two records added last |

## Left out

- SyncEngine.SyncEngine.Copy: the resent task keeps the first task's `size`. The source resends only source, target and attempt. Copies run one at a time, so the queue is empty at every resend and the size decides no ordering.
- WorkerPool.WorkerPool.OnError: removes the errored worker from the idle list, as the Findings row explains. The as-written list is modelled separately.
- WorkerPool: `worker_threads`, real concurrency and promises are not modelled. Handlers are atomic events over numbered workers, and a task's promise is its number.
- CacheManager.EvictCache: `maxEntries` is a natural number. Among entries with equal `lastUse`, which one goes first is left open; the source's stable sort removes the earliest-inserted key.
- CacheManager.EntryKey: resolves POSIX paths against a working directory given as a parameter. Windows drive letters and backslashes are not modelled.
- `loadCache`, `saveCache`, the metadata cache's `save`, and all reads and writes of files are not modelled. They appear only as inputs: stat records, a directory tree, bytes.
- Reading errors during a walk (`readdir`/`stat` rejecting) are not modelled. Symbolic links are not modelled.
- MD5 in `_quickHash`, `_fullHash` and `fileHash` is an uninterpreted function from bytes to a digest. `verifyIntegrity` is an outcome parameter.
- `compressCopy` (gzip), `transferFileWithCleanup` and the stream pipelines are modelled only by the copy's outcome and the method chosen.
- Timers and the clock: `setTimeout` delays are returned as values (`waits`, `delayMs`) and nothing waits. `Date.now` is a parameter.
- TransferManager.Throttle.Transform: the credit is an exact real instead of a double, and the rate is a real.
- `pingHost`, `relaunchFromTempIfNeeded` and `registerTempCleanup` are not modelled, because they are operating-system and process calls. The ping result is a function parameter of `DetectNetworkInfo`.
- NetworkOptimizer.ApplyNetworkOptimizations: `parallelCopies` is an integer or absent. NaN, null and fractional values are not modelled.
- SyncCore.ShouldExclude and DenoMain.ShouldExclude give `*` and `.` their regular-expression meaning and read every other pattern character literally. Other metacharacters, and patterns that are invalid regular expressions (which throw), are not modelled.
- SyncCore.ShouldExclude: defined for paths below the source directory, the only ones the scan passes it.
- Paths are strings with `/` as the shared core's separator, and directory paths carry no trailing separator. `path.join` is concatenation with one separator, so `..` inside a name is not normalised.
- TelemetryCollector.Throughput and TelemetryCollector.AverageFileSize: computed as exact reals. The source divides IEEE doubles, so its rounding is not modelled.
- TelemetryCollector.TelemetryCollector.RecordFileCopied and TelemetryCollector.TelemetryCollector.RecordError: the `'metric'` events they emit are not modelled. Listeners are outside the model.
- Wildcard.MatchesPrefix: `.` and `*` consume Unicode scalar values, since a Dafny `char` is one. A JavaScript regular expression without the `u` flag consumes UTF-16 code units. So on a name with a character outside the Basic Multilingual Plane (`a😀b`), the pattern `a..b` matches in the source and not here, and `a.b` the other way round.
- TelemetryCollector.TelemetryCollector.Finish: `memoryUsage`, `hostname` and the emitted events are not modelled.
- TelemetryCollector.TelemetryCollector.constructor: `granularity` is not modelled. The initial metrics are absent or integers, with no explicit `undefined`.
- The Deno script's `main`, `loadConfig`, `resolveConfigPath` and `executeAfterSync` are not modelled; they are configuration loading and process launching.
- `HealthChecker`, the UI, IPC, update and build tooling are not modelled: they hold no decision logic beyond I/O and foreign libraries.

## Findings

| source | as written | input that shows it | evidently intended | confidence | as-written member | corrected member |
|---|---|---|---|---|---|---|
| lib/WorkerPool.js:22-27 | the error handler terminates the worker and appends a spare to `idle`, but never takes the errored worker out of `idle` | a worker that emits an error while idle (its script fails to load, say): it stays first in the idle list, so the next task is posted to a terminated worker and its promise never settles | the errored worker leaves the idle list, so only live workers are idle and `size` of them stay live | medium, not executed | WorkerPool.ErroredIdleWorkerTakesNextTask | WorkerPool.IdleAfterError |
