# TraceGate, verified

TraceGate is an HTTP gateway that routes requests to upstreams, lets WebAssembly plugins decide
about them, keeps the bodies of failed or slow exchanges in a capture store, and can replay a
stored request. This project models the parts of it that interact: the capture store and its
retention loop, the capture pipeline from streamed chunks to stored rows, the upstream scheduler
with passive health, the request lifecycle, the policy chain, routing, configuration and hot
reload, and replay. `dafny verify dfyconfig.toml` checks all of it.

| file | what it models |
|---|---|
| `Store.dfy`, `StoreLaws.dfy`, `Retention.dfy`, `Storage.dfy` | tables and statements; what each statement does row by row; what eviction means; the storage object |
| `ConcurrentRetention.dfy`, `RetentionRuns.dfy` | retention runs interleaved with everything else; when a run goes on, ends or fails, and that its bound is attained |
| `Capture.dfy`, `Ledger.dfy`, `EndToEnd.dfy`, `CaptureHistory.dfy`, `ReplayReads.dfy` | tees and finalizer; the bounded queue; the whole pipeline; counters and places against the steps of a run; a replay that reads it statement by statement |
| `Upstreams.dfy`, `RouteMachine.dfy`, `RouteHistory.dfy`, `Generations.dfy` | round robin and health one call at a time; all handlers of a route, one atomic operation at a time; exits, attempts and reports against the choices of a run; the route across reloads |
| `Policy.dfy`, `Preview.dfy`, `Headers.dfy` | plugin chain; shared body preview; header mutations and upstream headers |
| `Routing.dfy`, `Redaction.dfy`, `Settings.dfy`, `Reload.dfy`, `ReloadHistory.dfy`, `Replay.dfy` | matching; query redaction; validation; hot reload; what is published and held against the actions of a run; replay |
| `Domain.dfy`, `Text.dfy` | shared records; string operations |

How the model is built:

- Objects the source updates in place are classes (`Storage`, `CaptureBuffer`, `CapturingBody`,
  `PrefixBody`, `RouteRuntime`, `AdminState`); loops are methods with invariants. Each is proved
  against a function on values, and the laws are lemmas about those functions.
- Concurrency is a state machine per component. `Enabled` says what may happen, `Step` what it
  does, `Behaviour` is any finite run, and `InvariantThroughout` is proved for every run. A step
  is one SQL statement, one atomic operation, or one await. The history files say, for every run,
  what the state means in terms of the actions taken, without naming the step functions.
- Times, digests, plugin answers, network outcomes and database faults are arbitrary inputs.

Where the code does less than one might expect, it is kept as it is and the exact condition is
proved:

- Two overlapping upstream scans share the cursor, so a scan can answer 503 while an upstream is
  healthy (`OverlappingScansCanMiss`, on a reachable run). It does so exactly when every healthy
  upstream that comes up during the scan goes to another request (`TurnedAwayExactly`); if no
  other request claims meanwhile, exactly when no upstream is healthy (`LoneScanExact`).
- An upstream can be marked unhealthy after a success has cleared it (`MarkCanFollowReset`, on a
  reachable run). Every mark follows a failure that was counted as the threshold-th, and a
  threshold of failures still stands exactly when that trip or a later one has seen no reset
  (`MarkIsJustified`).
- The batched header mutations equal the plugins' mutations in turn exactly when no plugin
  removes a name an earlier one set and nobody sets it again (`BatchEqualsInTurn`).
- Only eight connection headers are removed. Section 7.6.1 of RFC 9110 also names
  Proxy-Connection and whatever Connection nominates; those stay (`ProxyConnectionStays`), and
  `ConnectionFieldsGoneExactly` says when nothing of the kind is left.
- The per-request cap bounds a stored capture only up to request bytes that arrive after the
  response head (`LateRequestBytesExceedCap`); `WithinCapExactly` says when it does.
- The `allow` flag of a plugin answer decides nothing; `AllowFlagIgnored` says what does.
- A method that demands no body, such as DELETE, is replayed without its recorded body when that
  was evicted or stripped (`DeleteBodyLeftOut`); `ReplayCarriesWholeBody` gives every case.
- A replay reads row, headers and capture with separate statements, and ids recur. One recording's
  request can go out with another's body (`MixedReplay`, on a run); all parts are one recording
  exactly when no write of the id commits between the reads (`OneRecordingExactly`).
- A request body is captured up to the end of the response, so it can be a prefix that no flag
  tells (`EarlyEndCutsRequest`); `CapturedWholeExactly` says when it is whole.
- A reload gives a route new permits and new health while older requests keep theirs, so its limit
  bounds each runtime and not the route (`ReloadExceedsLimit`, `AdmittedAcrossReloads`).
- Identical header pairs violate a primary key, so such a write fails as a whole and leaves the
  store unchanged (`Storage.InsertRequest`).

## Model

| member | source | states |
|---|---|---|
| `StorageHandle.Storage.InsertRequest` | crates/tracegate-storage/src/lib.rs:417-547 | whatever statement an error interrupts, the transaction replaces all rows of the id or changes nothing; it commits exactly when no key is violated and no fault comes before the commit |
| `StorageHandle.Storage.InsertHeaders` | crates/tracegate-storage/src/lib.rs:479-494 | the header inserts succeed exactly for pairwise distinct pairs and then add exactly those rows |
| `StorageHandle.Storage.InsertReplayRun` | crates/tracegate-storage/src/lib.rs:835-854 | a replay row is added exactly when the statement does not fail, its id is new and the original request exists; otherwise nothing changes |
| `StorageHandle.Storage.ListRequests` | crates/tracegate-storage/src/lib.rs:683-717 | distinct matching rows, newest first, at most the clamped limit; no row left out is newer than one listed, and none is left out below the limit |
| `StorageHandle.Storage.TotalCaptureBytes` | crates/tracegate-storage/src/lib.rs:935-939 | the sum of all stored body lengths |
| `StorageHandle.Storage.EvictCaptureBodies` | crates/tracegate-storage/src/lib.rs:947-978 | undisturbed, the batched loop terminates at or under the cap with an exact running total, having performed one complete oldest-first eviction that never evicts once the cap is met |
| `StorageHandle.Storage.EvictBatch` | crates/tracegate-storage/src/lib.rs:954-976 | one batch evicts a non-empty prefix of the candidates and keeps eviction order and running total exact |
| `StorageHandle.Storage.EvictRow` | crates/tracegate-storage/src/lib.rs:961-972 | one update continues the eviction order and takes off exactly the bytes it frees |
| `StorageHandle.Storage.RunRetention` | crates/tracegate-storage/src/lib.rs:897-914 | exactly the expired requests go with all their rows, then bodies are evicted down to the cap; counts are exact, integrity is kept, and a total beyond 64 bits fails after the delete only |
| `StorageHandle.EmptyBatchNoBytes` | crates/tracegate-storage/src/lib.rs:955-960 | an empty candidate batch means no body bytes are stored at all |
| `StorageHandle.ProgressOfBatch` | crates/tracegate-storage/src/lib.rs:954-976 | every batch leaves strictly fewer candidates |
| `Store.ExecuteKeepsIntegrity` | crates/tracegate-storage/sqlite_migrations/202607060001_capture_store.sql:1-52 | no statement breaks a parent reference or leaves bytes in an evicted capture |
| `Store.IntegrityOverRuns` | crates/tracegate-storage/src/lib.rs:417-547 | after any script of inserts (failing ones included), prunes, evictions and replay rows every child row has its parent and evicted captures hold no bodies |
| `Store.StatementKeepsRows` | crates/tracegate-storage/src/lib.rs:417-547 | a statement that does not replace an id leaves its rows those of the same write or removes them all |
| `Store.ExecuteKeepsProvenance` | crates/tracegate-storage/src/lib.rs:417-547 | every statement keeps request, capture and header rows tied to the latest write of their id |
| `Store.ProvenanceOverRuns` | crates/tracegate-storage/src/lib.rs:961-969 | after any script each request has exactly the record and header rows of its latest write, and its capture, whole or with both bodies evicted; digests, flags and time never change |
| `Store.DecisionsOverRuns` | crates/tracegate-storage/src/lib.rs:417-547 | when writes carry decisions for their own id, a request's decision rows are, in order, those of its latest write |
| `StoreLaws.PruneExact` | crates/tracegate-storage/src/lib.rs:897-914 | a prune removes exactly the requests created before the cutoff and exactly their header, capture, decision and replay rows, and changes no other row |
| `StoreLaws.EvictExact` | crates/tracegate-storage/src/lib.rs:961-969 | an eviction empties both bodies of exactly one row and marks it; digests, truncation flags and time stay, and no other row or table changes |
| `StoreLaws.InsertStores` | crates/tracegate-storage/src/lib.rs:417-547 | after a committed write the id has exactly the record written and, if one was written, its capture field by field, not evicted |
| `StoreLaws.InsertReplacesChildren` | crates/tracegate-storage/src/lib.rs:417-547 | the header, decision and replay rows the id had are gone, exactly the written ones are there, and those of other ids are untouched |
| `StoreLaws.TotalExact` | crates/tracegate-storage/src/lib.rs:935-939 | the stored total is the sum over all rows, whichever row is taken off first |
| `Retention.OrderByTime` | crates/tracegate-storage/src/lib.rs:1103-1111 | an answer to ORDER BY time LIMIT: distinct, ascending, complete up to the limit, with nothing older left out |
| `Retention.NoCandidatesNoBytes` | crates/tracegate-storage/src/lib.rs:1095-1111 | when nothing is left to evict the stored total is zero |
| `Retention.BatchHeadIsOldest` | crates/tracegate-storage/src/lib.rs:961-976 | part-way through a batch its next row is still an oldest candidate |
| `Retention.EvictNextOfBatch` | crates/tracegate-storage/src/lib.rs:961-976 | evicting it extends the one-at-a-time eviction and lowers the total by the bytes the batch query reported |
| `Retention.FewerCandidates` | crates/tracegate-storage/src/lib.rs:964-969 | evicting a candidate strictly shrinks the candidates, the loop's termination measure |
| `Retention.RunsAgreeUpToTies` | crates/tracegate-storage/src/lib.rs:947-978 | two complete evictions, however batched and however ties fall, agree on everything strictly older than a row either of them evicted |
| `Retention.RunsAgreeWithoutTies` | crates/tracegate-storage/src/lib.rs:947-978 | with distinct timestamps every complete eviction is the same sequence |
| `ConcurrentRetention.OneRowChange` | crates/tracegate-storage/src/lib.rs:1095-1111 | changing one row raises stored bytes plus the run's planned but vanished bytes by at most what the row ends with |
| `ConcurrentRetention.StatementChange` | crates/tracegate-storage/src/lib.rs:417-547 | no statement of any task raises that sum by more than the body bytes it commits |
| `ConcurrentRetention.EvictionPays` | crates/tracegate-storage/src/lib.rs:961-972 | evicting the next pending row pays for the stale bytes subtracted from the run's total |
| `ConcurrentRetention.StepKeepsInvariant` | crates/tracegate-storage/src/lib.rs:897-978 | integrity and the bound of every run survive each statement of each task |
| `ConcurrentRetention.InvariantThroughout` | crates/tracegate-storage/src/lib.rs:897-978 | both hold in every state of every interleaving of retention runs, inserts, replacements, prunes and replays |
| `ConcurrentRetention.FinishedRunBound` | crates/tracegate-storage/src/lib.rs:897-978 | once a run has finished, stored body bytes are at most its cap plus the bytes committed since it read its total |
| `RetentionRuns.PrunesFirst` | crates/tracegate-storage/src/lib.rs:897-914 | in every interleaving a run's first statement removes exactly the requests created before its cutoff |
| `RetentionRuns.CountingDecides` | crates/tracegate-storage/src/lib.rs:947-954 | the run that reads the total fails exactly when it exceeds 64 bits, ends exactly when it is at most the cap, and otherwise goes on with exactly that total |
| `RetentionRuns.SelectingDecides` | crates/tracegate-storage/src/lib.rs:954-960 | a run that queries candidates ends exactly when none is left; otherwise it holds rows that are all evictable, with their bytes, older ones first and none older left out; it never fails |
| `RetentionRuns.EvictingDecides` | crates/tracegate-storage/src/lib.rs:961-976 | a run evicts exactly the next row of its batch and takes its bytes off; it ends exactly when what is left is at most the cap, else goes on with the batch or queries again; it never fails |
| `RetentionRuns.InsertedExactly` | crates/tracegate-storage/src/lib.rs:417-547 | what a run is credited with is, step by step of any run, exactly the body bytes committed since it read its total |
| `RetentionRuns.FinishedRunHolds` | crates/tracegate-storage/src/lib.rs:897-978 | so stored bytes at the end are at most the cap plus the bytes the commits since then held |
| `RetentionRuns.BoundIsAttained` | crates/tracegate-storage/src/lib.rs:897-978 | for every cap and every size of a write that comes in between, a run is reached that ends with exactly that many bytes stored |
| `RetentionRuns.CanAdvance` | crates/tracegate-storage/src/lib.rs:897-978 | a run that has neither finished nor failed can always issue its next statement |
| `RetentionRuns.AloneEndsWell` | crates/tracegate-storage/src/lib.rs:947-978 | a run nobody disturbs ends after at most two statements per candidate and three; it ends at or under its cap with an exact total, and fails only when the total exceeded 64 bits |
| `Capture.CaptureBuffer.Record` | crates/tracegate-proxy/src/lib.rs:1527-1548 | the buffer keeps the first limit bytes of all chunks, the exact truncation flag and the digest of everything |
| `Capture.CaptureBuffer.CapturedLen` | crates/tracegate-proxy/src/lib.rs:1550-1552 | the length of that prefix, zero when disabled |
| `Capture.CaptureBuffer.TakeSnapshot` | crates/tracegate-proxy/src/lib.rs:1554-1568 | the snapshot as a function of the recorded chunks; none when disabled or when no chunk came |
| `Capture.CapturingBody.PollRequest` | crates/tracegate-proxy/src/lib.rs:1339-1356 | a request frame passes unchanged and is recorded |
| `Capture.CapturingBody.Poll` | crates/tracegate-proxy/src/lib.rs:1339-1371 | a polled frame, error or end passes unchanged; data is recorded, an error or end finalizes |
| `Capture.CapturingBody.Drop` | crates/tracegate-proxy/src/lib.rs:1367-1371 | dropping finalizes |
| `Capture.CapturingBody.RunFinalizer` | crates/tracegate-proxy/src/lib.rs:1389-1433 | the first call offers the write for the chunks recorded so far, later calls offer nothing |
| `Capture.WriteHolds` | crates/tracegate-proxy/src/lib.rs:1389-1433 | record, headers and decisions of a write are those of the exchange; it has a capture exactly when one is due, and each body in it is the first bytes up to its own limit, with its own flag and the digest of all bytes |
| `Capture.OneOffer` | crates/tracegate-proxy/src/lib.rs:1309-1433 | for every order of polls, frames and drops: no offer before the first terminal event, and from it on exactly the one write for the bytes recorded up to it |
| `Capture.DroppedBodyOffersOnce` | crates/tracegate-proxy/src/lib.rs:1367-1433 | a body that is eventually dropped offers exactly one write |
| `Capture.CapturedWholeExactly` | crates/tracegate-proxy/src/lib.rs:1309-1433 | a captured request body not flagged truncated is the whole request exactly when a chunk came before the exchange ended and no byte after; otherwise it is a prefix |
| `Capture.EarlyEndCutsRequest` | crates/tracegate-proxy/src/lib.rs:1309-1433 | an exchange whose response ends first stores a strict prefix of the request without a flag |
| `Capture.ChunkingIndependent` | crates/tracegate-proxy/src/lib.rs:1527-1568 | two chunkings of the same bytes give the same snapshot |
| `Capture.WriteWithinBudget` | crates/tracegate-proxy/src/lib.rs:928-946 | a write stores at most the per-request cap plus the request bytes recorded after the response head |
| `Capture.WithinCapExactly` | crates/tracegate-proxy/src/lib.rs:928-946 | a write stays within the cap exactly when one body is not captured, no request byte came late, the request had filled the cap, or the response cut to the route limit fits beside the request; it is always within twice the cap |
| `Capture.LateRequestBytesExceedCap` | crates/tracegate-proxy/src/lib.rs:1309-1433 | a run of polls that offers a write over its cap |
| `Ledger.StepWeight` | crates/tracegate-proxy/src/lib.rs:1435-1484 | under any weighting an offer adds one entry and every other step only moves entries |
| `Ledger.StepKeepsExactlyOnce` | crates/tracegate-proxy/src/lib.rs:1435-1484 | each step keeps every offered write in exactly one place |
| `Ledger.StepKeepsAuthentic` | crates/tracegate-proxy/src/lib.rs:1467-1493 | each step keeps every entry equal to its offer or to that offer's metadata-only fallback |
| `Ledger.StepKeepsConserved` | crates/tracegate-proxy/src/lib.rs:1486-1493 | captures offered equal captures held anywhere plus captures stripped |
| `Ledger.StepKeepsCounted` | crates/tracegate-proxy/src/lib.rs:1440-1461 | the capture counter counts stored captures and the drop counter counts strips, refusals, failed writes and failed retention runs, exactly |
| `Ledger.StepKeepsOrder` | crates/tracegate-proxy/src/lib.rs:1435-1465 | the queue stays within capacity and accepted writes are finished in the order sent |
| `Ledger.InvariantThroughout` | crates/tracegate-proxy/src/lib.rs:1435-1493 | all of the above in every interleaving of finalizers, writer, retention failures and shutdown |
| `Ledger.NoSilentLoss` | crates/tracegate-proxy/src/lib.rs:1435-1493 | captures offered equal those stored and counted, queued, being written, lost with the process, in failed or refused writes, and stripped; the last three are covered by drop increments other than those of failed retention runs |
| `Ledger.StrippedRowsSaySo` | crates/tracegate-proxy/src/lib.rs:1486-1493 | a persisted row that differs from its offer holds no capture and is marked dropped; a row offered with a capture is marked exactly when it lost it |
| `CaptureHistory.PlacesAreHistory` | crates/tracegate-proxy/src/lib.rs:1435-1493 | in every run, entries sent, refused, stripped, stored and failed, the capture counter and the closed flag equal the number of steps of their kind, told by the queue's room, the outcome of the insert and shutdown |
| `CaptureHistory.DropsAreHistory` | crates/tracegate-proxy/src/lib.rs:1440-1493 | in every run the drop counter is the number of strips, refusals, failed inserts and failed retention runs |
| `CaptureHistory.RoomKeepsWhole` | crates/tracegate-proxy/src/lib.rs:1467-1484 | an offer that finds room is queued last with its capture, and nothing is counted |
| `CaptureHistory.FallbackKeepsMetadata` | crates/tracegate-proxy/src/lib.rs:1486-1493 | the fallback keeps everything of a write but the capture and says so |
| `CaptureHistory.StoredMeansCommitted` | crates/tracegate-proxy/src/lib.rs:1436-1465 | in every run of the pipeline the writes listed as stored are, in order, those whose insert committed, the failed ones those whose insert did not, and the capture counter counts the committed ones that held a capture |
| `CaptureHistory.TicketStoredExactly` | crates/tracegate-proxy/src/lib.rs:1436-1465 | a write is listed as stored exactly when an earlier step committed it |
| `Upstreams.RingMembers` | crates/tracegate-proxy/src/lib.rs:159-173 | the cyclic order of healthy upstreams holds each exactly once |
| `Upstreams.IndexIsMod` | crates/tracegate-proxy/src/lib.rs:166-166 | the index reached by counting is the cursor modulo the number of upstreams |
| `Upstreams.WholeScan` | crates/tracegate-proxy/src/lib.rs:159-173 | a scan finds nothing exactly when no upstream is healthy, otherwise the first healthy one cyclically from the cursor |
| `Upstreams.RoundRobin` | crates/tracegate-proxy/src/lib.rs:159-173 | while health is unchanged, scan k returns member k of the cyclic order |
| `Upstreams.FullTurn` | crates/tracegate-proxy/src/lib.rs:159-173 | as many scans as there are healthy upstreams return each of them once |
| `Upstreams.ShareFair` | crates/tracegate-proxy/src/lib.rs:166-166 | after any number of cursor increments no index is more than one ahead of another |
| `Upstreams.HealthIsHistory` | crates/tracegate-proxy/src/lib.rs:175-191 | after any history the counter is the failure streak modulo the threshold, and the mark is the cooldown after the failure that completed the last full block, or none |
| `Upstreams.RouteRuntime.constructor` | crates/tracegate-proxy/src/lib.rs:139-157 | a new runtime has one healthy entry per upstream |
| `Upstreams.RouteRuntime.SelectUpstream` | crates/tracegate-proxy/src/lib.rs:159-173 | the loop returns what the scan of the current health flags returns, moves only the cursor, and finds nothing among no upstreams |
| `Upstreams.RouteRuntime.RecordUpstreamResult` | crates/tracegate-proxy/src/lib.rs:175-191 | exactly the reported upstream's health changes, as one recorded result; an unknown index changes nothing |
| `RouteMachine.MoveKeepsLocal` | crates/tracegate-proxy/src/lib.rs:440-980 | each step of a handler keeps what its position says about metrics, offers, dispatches, targets and reports |
| `RouteMachine.MoveConservesPermits` | crates/tracegate-proxy/src/lib.rs:531-533 | a step changes free permits by exactly what its handler takes or gives back |
| `RouteMachine.MoveBoundsFailures` | crates/tracegate-proxy/src/lib.rs:175-191 | a step that lifts a counter to the threshold makes its handler owe a reset |
| `RouteMachine.MoveKeepsLog` | crates/tracegate-proxy/src/lib.rs:159-191 | counters, cursor and claims are those the log of atomic operations gives |
| `RouteMachine.TripsAtThreshold` | crates/tracegate-proxy/src/lib.rs:175-191 | a handler trips exactly when its failure brings the failures since the last reset to the threshold |
| `RouteMachine.InvariantThroughout` | crates/tracegate-proxy/src/lib.rs:440-980 | all of these in every state of every interleaving of any number of requests |
| `RouteMachine.CompletedOnce` | crates/tracegate-proxy/src/lib.rs:440-1007 | a completed request recorded one metric, offered one write, holds no permit, dispatched at most its attempts to one upstream, reported health once if dispatched and never otherwise |
| `RouteHistory.ExitFollowsChoice` | crates/tracegate-proxy/src/lib.rs:463-892 | in every interleaving a request has left through an exit exactly when the choice behind it was made: no match, no free permit, a failed preview, a denial, a scan that ended on an unhealthy upstream, or an upstream's result |
| `RouteHistory.DeniedGoesNowhere` | crates/tracegate-proxy/src/lib.rs:690-753 | a request that policy denies never claims an upstream, is never dispatched, and leaves with the denial |
| `RouteHistory.NoStageSkipped` | crates/tracegate-proxy/src/lib.rs:463-760 | a request gets past routing, admission, preview and policy only by the choices that let it, and scans at the time policy let it through |
| `RouteHistory.StagesLead` | crates/tracegate-proxy/src/lib.rs:463-760 | and each of those choices does take it to the next stage |
| `RouteHistory.AttemptsTellReport` | crates/tracegate-proxy/src/lib.rs:844-901 | a dispatched request makes attempts up to the first answer or as many as it may, is sent out once per attempt that could be built, and reports a failure exactly when the last attempt was unanswered or answered with a server error |
| `RouteHistory.LoneReportIsRecord` | crates/tracegate-proxy/src/lib.rs:175-191 | whatever else happens, a result recorded while nobody else writes that upstream's health changes it as one sequential record: counter, mark after the cooldown, and reset |
| `RouteMachine.AlwaysWithinLimits` | crates/tracegate-proxy/src/lib.rs:175-191 | at every step free plus held permits equal the limit, all indexes are in range, and a failure counter is at most threshold minus one plus the limit, far from overflow |
| `RouteMachine.LeavesWithin` | crates/tracegate-proxy/src/lib.rs:440-1007 | however requests interleave, each takes at most eleven steps of its own plus one per retry and two per upstream until it is through |
| `RouteMachine.NeverStuck` | crates/tracegate-proxy/src/lib.rs:440-1007 | a handler that is not through can always take a step |
| `Generations.AdmittedAcrossReloads` | crates/tracegate-proxy/src/lib.rs:118-157 | through any reloads, the requests admitted on one route id are at most the sum of the limits of the runtimes still in use |
| `Generations.OldRuntimesOnlyDrain` | crates/tracegate-proxy/src/lib.rs:118-157 | a runtime keeps its configuration for good, and once a reload has replaced it no request joins it |
| `Generations.ReloadExceedsLimit` | crates/tracegate-proxy/src/lib.rs:118-157 | a run in which one reload lets two requests in under a limit of one |
| `Generations.ReloadForgetsHealth` | crates/tracegate-proxy/src/lib.rs:139-157 | after a reload every upstream of the route counts as healthy again |
| `RouteMachine.CountStandsExactly` | crates/tracegate-proxy/src/lib.rs:175-191 | a threshold of failures since the last reset stands exactly when some failure counted as the threshold-th has seen no reset since |
| `RouteMachine.MarkIsJustified` | crates/tracegate-proxy/src/lib.rs:175-191 | a handler about to mark counted its own failure as at least the threshold-th since a reset; a threshold still stands exactly when that trip or a later one has seen no reset |
| `RouteMachine.MarkCanFollowReset` | crates/tracegate-proxy/src/lib.rs:175-191 | a reachable run in which a mark lands with no failure since the last reset |
| `RouteMachine.ClaimsAreFair` | crates/tracegate-proxy/src/lib.rs:166-166 | however scans interleave no upstream is claimed more than once more than another |
| `RouteMachine.MissedOnlyByOverlap` | crates/tracegate-proxy/src/lib.rs:159-173 | in any run, a scan misses an upstream that is healthy throughout only if another request was handed that very upstream during the scan |
| `RouteMachine.TurnedAwayExactly` | crates/tracegate-proxy/src/lib.rs:755-825 | while health is steady, a finished scan answers 503 exactly when every healthy upstream that came up in its window went to another request; then each healthy upstream did |
| `RouteMachine.ScansOnThroughout` | crates/tracegate-proxy/src/lib.rs:159-173 | with any steps of other requests in between except claims, the interleaved scan refines the sequential one |
| `RouteMachine.LoneScanExact` | crates/tracegate-proxy/src/lib.rs:159-173 | scans that do not overlap: 503 exactly when no upstream is healthy, otherwise the first healthy one cyclically from the cursor |
| `RouteMachine.OverlapCanMiss` | crates/tracegate-proxy/src/lib.rs:159-173 | whenever two scans start on the unhealthy one of two upstreams, one can answer 503 although the other upstream stays healthy |
| `RouteMachine.OverlappingScansCanMiss` | crates/tracegate-proxy/src/lib.rs:159-173 | such a state is reached from the start under a valid configuration |
| `RouteMachine.RequestWithRetries` | crates/tracegate-proxy/src/lib.rs:982-1007 | attempts stop at the first answer; otherwise all are made and the last error is returned |
| `Policy.NewEngine` | crates/tracegate-wasm/src/lib.rs:140-173 | construction succeeds exactly when every plugin loads, and each route's chain is its plugins in configuration order |
| `Policy.IndexPlugin` | crates/tracegate-wasm/src/lib.rs:158-161 | indexing a plugin appends it to exactly the routes it names, once per mention |
| `Policy.ChainInOrder` | crates/tracegate-wasm/src/lib.rs:140-173 | for validated plugins a chain lists, in order and once each, exactly the plugins that name the route |
| `Policy.AllOrNoneExact` | crates/tracegate-wasm/src/lib.rs:520-557 | one invalid mutation makes the whole decision fail; otherwise every mutation is normalised, in order |
| `Policy.InputExact` | crates/tracegate-wasm/src/lib.rs:383-427 | a plugin gets the request's context, in order exactly the headers it may see, so no sensitive one it did not list, its own settings, and exactly the first bytes of the preview up to its own limit |
| `Policy.DecisionsAreSound` | crates/tracegate-wasm/src/lib.rs:520-582 | every mutation of a decision takes effect under its own name and every denial has an error status |
| `Policy.DecisionExact` | crates/tracegate-wasm/src/lib.rs:520-582 | a decision holds exactly what the answer said: its denial, with a status outside 400 to 599 turned into 403 and the message cut at 512, and all set and remove mutations in order, normalised |
| `Policy.AllowFlagIgnored` | crates/tracegate-wasm/src/lib.rs:520-557 | the allow flag does not influence the decision; a request goes on exactly when the answer has no deny response and only legal mutations |
| `Policy.SummaryRecords` | crates/tracegate-wasm/src/lib.rs:584-635 | one record per call, for that call's plugin |
| `Policy.RecordExact` | crates/tracegate-wasm/src/lib.rs:584-635 | a record names the plugin, says allow exactly when the call decided without a denial, carries the status of the denial or 403 for a failed call, and tells timeout and failure apart |
| `Policy.SummaryMutations` | crates/tracegate-wasm/src/lib.rs:200-294 | the collected mutations are those of all calls in order |
| `Policy.OutcomesInOrder` | crates/tracegate-wasm/src/lib.rs:200-294 | calls are made in chain order, and fewer than all only after one that was not an allow |
| `Policy.OutcomesStopAtFirstDenial` | crates/tracegate-wasm/src/lib.rs:200-294 | every call but the last was an allow |
| `Policy.VerdictFailsClosed` | crates/tracegate-wasm/src/lib.rs:200-294 | undenied exactly when every plugin would allow; otherwise the denial is that of the first that does not |
| `Policy.CallInTurn` | crates/tracegate-wasm/src/lib.rs:200-294 | the loop with its early stop computes that verdict over the whole chain |
| `Policy.Evaluate` | crates/tracegate-wasm/src/lib.rs:200-294 | fails closed: the request passes exactly when every plugin of its route ran on its own input and allowed it |
| `Preview.PrefixBody.PollFrame` | crates/tracegate-proxy/src/lib.rs:1091-1119 | polling yields the next item of prefix and rest and leaves the others |
| `Preview.SplitBodyPreview` | crates/tracegate-proxy/src/lib.rs:1121-1146 | succeeds exactly when no error comes within the limit; the preview is the first limit bytes and the rebuilt body yields the original frames |
| `Preview.MaxPreview` | crates/tracegate-wasm/src/lib.rs:189-198 | the largest preview any plugin of the route asks for |
| `Preview.PreviewAsIfAlone` | crates/tracegate-wasm/src/lib.rs:406-413 | with a shared preview each plugin sees exactly what a preview for it alone would show |
| `Headers.ApplyPolicyMutations` | crates/tracegate-proxy/src/lib.rs:1611-1631 | each name gets its last set value, else is gone if removed, else keeps what it had |
| `Headers.BatchIdempotent` | crates/tracegate-proxy/src/lib.rs:1611-1631 | applying a batch twice is applying it once |
| `Headers.NormalizedNeverSkipped` | crates/tracegate-wasm/src/lib.rs:559-582 | a normalised mutation is never one the application skips |
| `Headers.NormalizedExactly` | crates/tracegate-wasm/src/lib.rs:559-582 | a mutation is kept exactly when its trimmed, lowered name is a header name and its whole value a header value; the value is then cut at 4096 |
| `Headers.NamesExactly` | crates/tracegate-proxy/src/lib.rs:1611-1631 | header names are the tokens of section 5.6.2 of RFC 9110 up to 65535 characters, in lower case |
| `Headers.BatchEqualsInTurn` | crates/tracegate-proxy/src/lib.rs:1611-1631 | the batch equals plugin-by-plugin application exactly when the name has no late removal |
| `Headers.RemoveHopByHop` | crates/tracegate-proxy/src/lib.rs:1836-1849 | exactly the eight connection headers are removed |
| `Headers.BuildUpstreamHeaders` | crates/tracegate-proxy/src/lib.rs:1736-1786 | fails exactly when authority or client address is no header value; otherwise the template without connection headers, overwritten by the gateway's and the trace values |
| `Headers.InjectContext` | crates/tracegate-observability/src/lib.rs:376-387 | every trace field carries its current value, a parent is always there and an incoming one is kept unless the context has its own, and no other header changes |
| `Headers.UpstreamHeadersSafe` | crates/tracegate-proxy/src/lib.rs:1736-1786 | whatever plugins set, none of the eight listed connection headers remains, the gateway's values win, and every other header is kept as it is |
| `Headers.GatewayExactly` | crates/tracegate-proxy/src/lib.rs:1736-1786 | what goes upstream names the upstream as host, carries the request id, the client address and http as the forwarded scheme, and the original host when there was one |
| `Headers.ConnectionFieldsGoneExactly` | crates/tracegate-proxy/src/lib.rs:1836-1849 | no field that section 7.6.1 of RFC 9110 calls connection-specific remains exactly when the template has no Proxy-Connection and its Connection field nominates nothing beyond the eight that is present or added by the gateway |
| `Headers.ProxyConnectionStays` | crates/tracegate-proxy/src/lib.rs:1836-1849 | a Proxy-Connection header goes out as it came in |
| `Routing.MatchIsLongest` | crates/tracegate-core/src/lib.rs:401-418 | the match is the one eligible route with the longest prefix and then the lowest index; there is none exactly when no route is eligible |
| `Routing.MatchesBySegments` | crates/tracegate-core/src/lib.rs:471-478 | other than "/", a prefix matches exactly the paths its segment list is a prefix of |
| `Routing.PathsExactly` | crates/tracegate-core/src/lib.rs:471-478 | with the root prefix included: "/" matches every path, any other prefix exactly by segments |
| `Routing.HostsExactly` | crates/tracegate-core/src/lib.rs:462-469 | a star matches every request, even without a host; otherwise a host matches exactly the candidates equal to it but for ASCII case |
| `Routing.EqualLengthMeansEqualPrefix` | crates/tracegate-config/src/lib.rs:952-966 | valid prefixes of equal length that match one path are identical |
| `Routing.NormalizeHostIdempotent` | crates/tracegate-core/src/lib.rs:442-460 | normalising a normalised host changes nothing |
| `Routing.NamesLosePort` | crates/tracegate-core/src/lib.rs:442-460 | a host name is cut at its port, trimmed and lowered, and is none when nothing is left |
| `Routing.BracketsKept` | crates/tracegate-core/src/lib.rs:442-460 | a bracketed address keeps its brackets and loses whatever follows them |
| `Redaction.RedactionExact` | crates/tracegate-proxy/src/lib.rs:1685-1700 | the output's parts are exactly the non-sensitive parts of the query in order; none results exactly when the query is absent or wholly sensitive |
| `Redaction.KeepsExactly` | crates/tracegate-proxy/src/lib.rs:1685-1700 | a part is kept exactly when no sensitive name equals its key but for ASCII case |
| `Redaction.RedactionIdempotent` | crates/tracegate-core/src/lib.rs:153-157 | no sensitive key remains in any ASCII case, and redacting again changes nothing |
| `Text.SplitJoin` | crates/tracegate-proxy/src/lib.rs:1685-1700 | parts without separators survive joining and splitting |
| `Text.JoinSplit` | crates/tracegate-proxy/src/lib.rs:1685-1700 | splitting a query and joining its parts gives it back |
| `Settings.NormalizeRedactionList` | crates/tracegate-config/src/lib.rs:617-644 | accepts exactly lists of acceptable values and returns their first occurrences |
| `Settings.NormalizedListIsStable` | crates/tracegate-config/src/lib.rs:617-644 | a normalised list is accepted again unchanged |
| `Settings.ValidateRedaction` | crates/tracegate-config/src/lib.rs:595-615 | accepts exactly two non-empty lists of acceptable values; each list returned holds exactly the normalised values, each once |
| `Settings.AcceptStorage` | crates/tracegate-config/src/lib.rs:456-578 | accepts exactly resolved settings within all limits after defaults, where production demands all four numbers |
| `Settings.ValidateStorage` | crates/tracegate-config/src/lib.rs:456-578 | the checks one after the other, with their early returns, decide and complete the settings as that acceptance says |
| `Settings.ValidateRoutes` | crates/tracegate-config/src/lib.rs:265-354 | accepts exactly non-empty lists of acceptable routes with distinct ids; the routes returned are, in order, those read, field by field, within the limits the runtime relies on |
| `Settings.ValidateRoute` | crates/tracegate-config/src/lib.rs:272-352 | the checks of one route with their early returns accept exactly the routes within every limit, and keep its id, hosts, prefix, upstreams, numbers and capture settings as read |
| `Settings.ValidateHosts` | crates/tracegate-config/src/lib.rs:928-950 | the host loop accepts exactly non-empty lists of legal hosts |
| `Settings.ValidateId` | crates/tracegate-config/src/lib.rs:911-926 | the id loop accepts exactly non-empty ids of letters, digits, hyphens and underscores |
| `Settings.ValidateCapture` | crates/tracegate-config/src/lib.rs:646-684 | a capture section is accepted exactly when its policy has one of the five names, its threshold is in range and its byte limit is at most the per-request cap, and is kept as read |
| `Settings.CapturesExactly` | crates/tracegate-core/src/lib.rs:180-188 | what each capture policy captures: always, errors, slow, either, or nothing |
| `Settings.ValidateSettings` | crates/tracegate-config/src/lib.rs:879-909 | accepts exactly settings with legal keys and bounded values, keys trimmed |
| `Settings.ValidatePlugin` | crates/tracegate-config/src/lib.rs:743-856 | the plugin loop body with early returns decides as the declarative acceptance does and collapses repeated routes and headers |
| `Settings.PluginReadBack` | crates/tracegate-config/src/lib.rs:743-856 | an accepted plugin has its own id, limits, exactly the routes it named, each once, its normalised headers and its trimmed settings |
| `Settings.ValidatePlugins` | crates/tracegate-config/src/lib.rs:735-860 | accepts exactly distinct acceptable plugins; those returned are, in order, those read, each with its own id, limits, trimmed settings and normalised headers, naming exactly the routes it named, once each and only configured ones |
| `Reload.Validate` | crates/tracegate-config/src/lib.rs:245-370 | accepts exactly the configurations whose other sections passed their checks and whose storage, redaction, routes and plugins are acceptable; what it returns is what was read, field by field and in order: storage, admin token, redaction values, routes and plugins |
| `Reload.ForbiddenChange` | crates/tracegate-proxy/src/lib.rs:1788-1813 | nothing is forbidden exactly when all fixed settings are equal |
| `Reload.ChangeNamed` | crates/tracegate-proxy/src/lib.rs:1788-1813 | the change reported is the first that differs, in the order the checks are made |
| `Reload.BuildRuntimes` | crates/tracegate-proxy/src/lib.rs:118-136 | every route id has a runtime, that of the last route carrying it |
| `Reload.NewGatewayState` | crates/tracegate-proxy/src/lib.rs:118-136 | succeeds exactly when every plugin loads and then represents the configuration |
| `Reload.AdminState.ReloadGateway` | crates/tracegate-proxy/src/admin.rs:107-156 | accepts exactly authorised, loadable configurations that change nothing fixed; otherwise state and configuration stay |
| `Reload.MatchedRouteHasRuntime` | crates/tracegate-proxy/src/lib.rs:139-157 | a route of a validated configuration has its own runtime, with its own limit, upstream count, threshold and cooldown, within the limits the route machine assumes |
| `Reload.StepKeepsInvariant` | crates/tracegate-proxy/src/admin.rs:107-156 | each step of interleaved reloads and snapshots keeps lock discipline, agreement and soundness |
| `Reload.InvariantThroughout` | crates/tracegate-proxy/src/admin.rs:107-156 | they hold in every reachable state |
| `Reload.AllReloadsServe` | crates/tracegate-proxy/src/lib.rs:523-530 | fixed settings are the startup's, state and configuration agree when the lock is free, and in every snapshot each route has a runtime of the right size, so the runtime-unavailable branch is dead |
| `Reload.SnapshotChains` | crates/tracegate-wasm/src/lib.rs:200-294 | in every snapshot each chain lists exactly the plugins naming the route, so evaluation indexes in range |
| `ReloadHistory.StagesTold` | crates/tracegate-proxy/src/admin.rs:107-156 | in every interleaving each reload stands where its own last action left it and carries the configuration it read, and there are as many as were begun |
| `ReloadHistory.OverForGood` | crates/tracegate-proxy/src/admin.rs:107-156 | a reload that failed, was rejected or committed does nothing afterwards |
| `ReloadHistory.LockExactly` | crates/tracegate-proxy/src/admin.rs:107-156 | a reload can take the lock exactly when it has read a configuration, has not locked, and no reload is between locking and its end |
| `ReloadHistory.HolderCanEnd` | crates/tracegate-proxy/src/admin.rs:107-156 | the lock holder can always end; it can publish exactly states that represent what it read, and only when nothing fixed changes |
| `ReloadHistory.PublishedIsHistory` | crates/tracegate-proxy/src/admin.rs:107-156 | published is always the state swapped in last with the configuration its reload read, and current the configuration read by the reload that committed last |
| `ReloadHistory.CommitPublishes` | crates/tracegate-proxy/src/admin.rs:107-156 | at a commit the configuration read is current, the published state represents it, and the lock is free |
| `ReloadHistory.SnapshotsAreLive` | crates/tracegate-proxy/src/lib.rs:395-437 | every request holds, ever after, the state that was published when it took its snapshot |
| `Replay.ReplayHeaders` | crates/tracegate-replay/src/lib.rs:268-299 | the headers sent are exactly the stored ones with one of the four allowed names, names in lower case |
| `Replay.HeadersInOrder` | crates/tracegate-replay/src/lib.rs:268-276 | each stored header is sent or left out by itself, in stored order |
| `Replay.ReplayableExactly` | crates/tracegate-replay/src/lib.rs:292-299 | the allowed names are content-type, accept, accept-language and user-agent, in any ASCII case |
| `Replay.SelectRequest` | crates/tracegate-replay/src/lib.rs:98-126 | by id the request stored when its row is read; last-failed a failed row of maximal creation time when listed, not found exactly when it vanished before its row was read, and none exactly when nothing failed |
| `Replay.DispatchReplay` | crates/tracegate-replay/src/lib.rs:316-436 | whatever became of the dispatch exactly one audit row is stored, with the request, what was sent where, and either the status or the reason there is none; a storage error is returned exactly when the insert fails or a key refuses the row |
| `EndToEnd.ExitsOfferProperly` | crates/tracegate-proxy/src/lib.rs:463-979 | in every interleaving, whatever exit a handler has taken, its write is consistent with the drop flag and carries a capture exactly when it reported an upstream result and the policy asks for one |
| `EndToEnd.ExitRecords` | crates/tracegate-proxy/src/lib.rs:463-979 | what each exit records: status, error and slow flags, drop flag, route, upstream and decisions |
| `EndToEnd.ExitCaptures` | crates/tracegate-proxy/src/lib.rs:902-979 | only an upstream's result can capture, by policy, content and limits; the response gets what the request left of the cap, up to the route's own limit |
| `EndToEnd.ExitWithinBudget` | crates/tracegate-proxy/src/lib.rs:928-979 | the cap condition, for the limits the upstream exit computes |
| `EndToEnd.WriteKeepsTraced` | crates/tracegate-proxy/src/lib.rs:1436-1465 | a commit ties the rows of its id to the recording it came from |
| `EndToEnd.StepKeepsInvariant` | crates/tracegate-proxy/src/lib.rs:1435-1493 | every step of the pipeline keeps each stored row tied to its latest recording |
| `EndToEnd.InvariantThroughout` | crates/tracegate-storage/src/lib.rs:417-547 | that holds in every reachable state of finalizers, queue, writer, retention and replays |
| `EndToEnd.ReplayCarriesWholeBody` | crates/tracegate-replay/src/lib.rs:229-266 | for every method a body is carried exactly when it was recorded by finalization within the limit and is still stored, and is then all of that; otherwise POST, PUT and PATCH are refused, and other methods are refused exactly when a cut body is stored and else replayed with none |
| `ReplayReads.ReplayRepeatsRecording` | crates/tracegate-replay/src/lib.rs:197-227 | with row, headers and capture read in three states of any run: method, path and forbidden target are those of the recording latest at the first read, the headers sent are exactly the allowed ones of that latest at the second, and the body is every byte of that latest at the third, or none |
| `ReplayReads.BuiltExactly` | crates/tracegate-replay/src/lib.rs:197-266 | in every run a replay is built exactly when the target is valid and not where the recorded request went, the method is a token, POST, PUT, PATCH and DELETE are confirmed, and the body stored when the capture is read allows it; each refusal has its own error in that order, and what is built has the given target and ids and the recorded query behind the path |
| `ReplayReads.BodyErrorExactly` | crates/tracegate-replay/src/lib.rs:229-266 | which body error a replay gets, from what the latest recording captured and what is still stored, with the methods that demand a body named |
| `ReplayReads.SameRecordingExactly` | crates/tracegate-storage/src/lib.rs:719-774 | two reads see the same recording of an id exactly when no write of that id commits between them |
| `ReplayReads.OneRecordingExactly` | crates/tracegate-storage/src/lib.rs:719-774 | all three reads see one recording exactly when no write of the id commits between the first and the last |
| `ReplayReads.HeadersRead` | crates/tracegate-storage/src/lib.rs:749-754 | the replayed headers are exactly the allowed stored ones of the recording latest when they are read, and none once it is pruned |
| `ReplayReads.BodyRead` | crates/tracegate-replay/src/lib.rs:229-266 | the body is the whole body of the recording latest when the capture is read, exactly when that is stored; a pruned request has none |
| `ReplayReads.ReadsCanMix` | crates/tracegate-storage/src/lib.rs:719-774 | any two captured recordings under one id can be mixed in a run: the row of the first, the body of the second |
| `ReplayReads.MixedReplay` | crates/tracegate-storage/src/lib.rs:719-774 | a run that replays a PUT to /a with the body of a PUT to /b |
| `ReplayReads.EvictedBodyLeftOut` | crates/tracegate-replay/src/lib.rs:244-253 | every recorded whole body can be evicted in a reachable run, after which any method that demands no body is replayed without it |
| `ReplayReads.StrippedBodyLeftOut` | crates/tracegate-proxy/src/lib.rs:1486-1493 | the same after a full queue stripped it |
| `ReplayReads.DeleteBodyLeftOut` | crates/tracegate-replay/src/lib.rs:244-253 | a DELETE with a body that both runs replay without it |

## Left out

- Hyper, TLS, sockets, listeners and timers: only their outcomes (answer, timeout, transport error, build error) are inputs.
- Wasmtime instantiation, fuel and memory enforcement: a plugin call is an arbitrary decision, failure or timeout.
- sqlx, migrations, connection pools and the second database backend: each statement is one atomic step on maps, and one backend is modelled because the other is a copy.
- SHA-256 is a constructor that remembers its input, so digests are equal exactly when the bytes are; collisions are not modelled.
- UUIDs and clocks are arbitrary inputs; observability is kept only as the request, capture and drop counters.
- URL parsing, the environment, files, server, admin, TLS and observability sections of the configuration.
- Admin console, bearer checks, CLI, demo backend, example plugins and deployment files.
- `Route::select_upstream` in the core crate, which the proxy does not use.
- Stored columns that nothing reads back in the modelled code: latency, trace id, query hash, content types and the capture policy's name.
- Response headers are redacted with the newest state instead of the request's snapshot (crates/tracegate-proxy/src/lib.rs:1064); stored header values are therefore arbitrary inputs here.
- Whether a request may be retried and whether a content type may be captured are inputs to the machines.
- Characters stand for bytes in prefix lengths and truncation of strings.
- Upstreams.RouteRuntime.SelectUpstream: does not model the cursor wrapping past the machine word.
- RouteMachine.CompletedOnce: requests cancelled at an await release their permit but record and offer nothing; the statement is about completed ones.
- Reload.Validate: whether the server, admin, TLS and observability sections pass is an input, because their checks are URL, file and environment checks.
- Store.DecisionsOverRuns: assumes that writes carry decisions for their own id, as the handler does (crates/tracegate-proxy/src/lib.rs:1633-1637); the store itself would accept others.
