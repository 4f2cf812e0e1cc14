# Podseidon in Dafny

Podseidon lets a pod be deleted only while its workload keeps `minAvailable` pods. This project models the parts of it
that carry that promise and the data structures and protocols they stand on, and proves what they promise.

* **Admission.** `PodProtector`, `Quota`, `PoolAdapter`, `Aggregator` model how a status is summarized and compacted, how
  a batch of deletions is judged, how a webhook writes its admissions, and how an aggregator recounts its cell and drops
  what its informers already reflect. `Reexecution` shows that a retried batch admits nothing twice. `BucketFacts` and
  `AdmissionProtocol` put any number of webhooks and one aggregator per cell into one state machine around a stored
  status updated by compare-and-swap from reads that may be stale; an aggregator lists pods first and reads sync times
  later, as the code does. `AdmissionSafety` proves, for each of the four criteria, that what the stored status lets a
  webhook count on is at most the number of pods that have the status and are not admitted for deletion, in every run
  whose aggregator updates reflect the admissions they drop, and exactly when an update does; `SnapshotRace` is a run in
  which one does not. The other hypotheses are the steps themselves: a status is lost through admitted deletions only,
  and histories stay within the compaction threshold.
* **Retry batches.** `FusedRc` is the fusable reference counter on a wrapping 32-bit integer. `RetryBatch` interleaves
  the submitters and batch goroutines of the pool; `RetryProgress` shows that no call can get stuck; `BatchExecution`
  is what one goroutine does with its requests; `RetryResults` follows arguments and results through the interleaving.
* **Label indexes.** `Canonical` is the canonical form of selectors and label sets and the merge join between them,
  `SetTrie` and `SetTrieNodes` the set-trie as a value and on the heap, `Matchable` its alphabet, `LabelSelectors` and
  `LabelSets` the two indexes, each compared with a plain scan.
* **Components.** `RequestWalk` is which requests the resolution of components makes; `Resolution`, `Toposort` and
  `Trimming` resolve, order and trim the components of a program, each proved against the graph of that walk.
* **Generator.** `Generator` is the reconciliation of a workload and its PodProtectors with their two finalizers, while
  others edit the same objects and calls fail with or without taking effect.
* `Common` holds sorting, sums and sequences without repetition.

Code that updates state is modeled by classes, methods and loops and proved against functions and predicates; code made
of expressions is modeled by functions. Protocols are state machines over their steps, with theorems over all runs.

## Findings

Where the code does not do what its documentation or a reader would expect, the model follows the code and a lemma says
exactly when the two agree.

* `GetValueRefOrNil` has a value receiver and returns a pointer to a copy (`util/optional/optional.go:162-168`). So the
  budget `MaxConcurrentLag` is never decremented within a batch, and a negative one caps nothing. Reviews for pods already
  unhealthy use it up as well, since they get buckets too. `Quota.BudgetKeptIff` and, for the stored counters,
  `Reexecution.StoredWithinLagIff` say exactly when a batch judged by one criterion stays within it,
  `Quota.MixedBudgetIff` when a batch that mixes criteria is known to, and `Quota.BudgetGuaranteedIff` which sizes are
  safe for all; `Quota.BudgetOverrun` is a batch that does not. For the same reason `CreateOrUpdate` of the trie loses
  what `updateNode` assigns, unless references in the data have the same effect
  (`SetTrieNodes.Trie.CreateOrUpdate`, `SetTrieNodes.AssignmentLost`); the multimap works because its data is a map.
* A batch may mix criteria, and a deletion judged by one of them takes the pod from the counts of the others without
  asking for their floor. `Quota.FloorKeptIff` says which batches leave the floor of a criterion they admit under,
  whatever the counts; `Quota.OtherCriterionTakesMore` is one that does not.
* Compaction never adds the counters of the buckets it merges (`PodProtector.AdmissionsConservedIffWithinThreshold`).
* A kept bucket without a pod name that starts exactly at the oldest sync time, or a compacted one whose interval
  contains it, asks no shard for a wake-up (`Aggregator.WakeUpIff`, `Aggregator.MissedWakeUp`).
* Selectors that repeat a key within In (match labels included) or within Exists are never found, although they may
  match (`Matchable.MissedIffRepeats`, `Matchable.RepeatedExistsMissed`); repeated values within an In requirement panic
  (`LabelSelectors.PanicsIffValueRepeats`), and selectors that repeat a key may, depending on how the library sorts what
  the comparison does not order (`LabelSelectors.PanicsUnderEverySortIff`, `Matchable.SometimesRepeatsIff`).
* `Selectors.Track` forgets the name it was to track when it fails, although the index promises to be as before
  (`LabelSelectors.Selectors.Track`, `util/labelindex/interface.go:26-28`).
* The aggregator reads pods before sync times, so even sound informers can make the estimate too high
  (`SnapshotRace.UnsoundSnapshotOverestimates`). An update accounts for every admission exactly when what was read is
  sound (`AdmissionSafety.AccountedIffSound`), and leaves every pod it shows covered exactly when it passes a check that
  the code does not make and no pod without buckets is shown (`AdmissionSafety.CoveredIffChecked`).
* A reconciliation of a workload that requires no protector removes its finalizer although an index that lags hides a
  PodProtector; undisturbed that is safe exactly when all hidden ones are being deleted or the finalizer stays anyway
  (`Generator.ReconcileItem`, `Generator.HiddenIsUnsafe`).

## Model

| member | source | states |
|---|---|---|
| `PodProtector.CompactBuckets` | `util/podprotector/podprotector.go:85-126` | sorts the history by start and merges its oldest buckets: the result is the compaction of some ordering by start of the same buckets |
| `PodProtector.CompactionKeepsNewest` | `util/podprotector/podprotector.go:89-125` | compaction leaves min(length, threshold) well-formed buckets in start order, the newest threshold - 1 of them unchanged; within the threshold it only sorts |
| `PodProtector.CompactHeadCovers` | `util/podprotector/podprotector.go:96-121` | the interval of the compacted head starts no later than any merged bucket and ends no earlier than any of them, at the end of one of them; it names no pod, and counts one admission or what the oldest bucket counted |
| `PodProtector.CompactionLosesMergedCounters` | `util/podprotector/podprotector.go:107-121` | the admissions lost by compaction are exactly those of the merged buckets after the first, whose counters are never added |
| `PodProtector.AdmissionsConservedIffWithinThreshold` | `apis/v1alpha1/types.go:156-157` | a history keeps the number of approved reviews its counters document exactly when it is not over the threshold |
| `PodProtector.StatusObject.Summarize` | `util/podprotector/podprotector.go:40-83` | the summary is that of the compacted cells: totals, largest lag in milliseconds, and the estimate, aggregated availability less the admissions left |
| `PodProtector.SummaryMeans` | `util/podprotector/podprotector.go:40-74` | the total is the pods of all cells, and the latency the whole milliseconds of the longest time by which the last admission of a cell is after its last event, or zero |
| `Quota.State.MakeState` | `webhook/handler/disruptionquota/quota.go:44-61` | counts, rejection and retry thresholds and remaining budget come from the summary, the lag being aggregated less estimated availability |
| `Quota.State.AdmitBatchItem` | `webhook/handler/disruptionquota/quota.go:122-130` | one review is judged by the tally before it and, when it may disrupt, leaves the tally without its pod |
| `Quota.State.DisruptState` | `webhook/handler/disruptionquota/quota.go:167-184` | each of the four counts falls by one exactly if the pod has its status, whatever the pod is judged by, while the remaining budget keeps its value because only a copy is decremented |
| `Quota.AdmitBatch` | `webhook/handler/disruptionquota/quota.go:103-184` | the array of results is filled from its end, for any mix of criteria: Retry when the lag is the limit, AlreadyUnhealthy for a pod its criterion does not count, else Denied, Retry or Ok by the count of the summary less the later pods let go that this criterion counts |
| `Quota.VerdictAt` | `webhook/handler/disruptionquota/quota.go:112-117` | the result at a position is the verdict of the tally left by the later positions |
| `Quota.CountsFallByTaken` | `webhook/handler/disruptionquota/quota.go:122-184` | for any mix of criteria, what a batch takes from a count is exactly the number of positions let go whose pod has the status of that count |
| `Quota.JudgedExactly` | `webhook/handler/disruptionquota/quota.go:44-165` | every verdict of every batch is determined by the counts of the summary, the lag and the positions after it that are let go |
| `Quota.OkLeavesFloor` | `webhook/handler/disruptionquota/quota.go:151-184` | after an Ok at least MinAvailable plus the lag of the counted pods of its criterion are left, whatever was let go before it under any criterion |
| `Quota.FloorKeptIff` | `webhook/handler/disruptionquota/quota.go:103-184` | whatever the counts, this floor of a criterion under which a batch admits is left at the end of the batch exactly when no pod that it counts is judged by another criterion at an earlier position than a contributor judged by it |
| `Quota.OtherCriterionTakesMore` | `webhook/handler/disruptionquota/quota.go:132-184` | with MinAvailable one and two available pods, both go when one is judged by readiness |
| `Quota.AdmissionsArePrefix` | `webhook/handler/disruptionquota/quota.go:112-165` | among contributors under one criterion, once a review is refused every earlier one in the batch is refused |
| `Quota.AdmissionKeepsFloor` | `webhook/handler/disruptionquota/quota.go:151-165` | every admitted contributor is Ok and leaves its count at or above MinAvailable and MinAvailable plus lag, for batches mixing criteria |
| `Quota.ContributorsAdmittedExactly` | `webhook/handler/disruptionquota/quota.go:103-165` | for contributors under one criterion exactly the last min(n, max(0, count - floor)) positions are Ok, none when the budget is zero, and the refusal of the others is determined |
| `Quota.OkCountOfContributors` | `webhook/handler/disruptionquota/quota.go:103-165` | in a batch judged by one criterion the number of Ok results is min(contributors, max(0, count - floor)), however many other reviews it holds |
| `Quota.DisruptionsExactly` | `webhook/handler/disruptionquota/quota.go:80-165` | in a batch judged by one criterion the reviews that get a bucket are all those for pods already unhealthy and min(contributors, max(0, count - floor)) others, none when the budget is zero |
| `Quota.BudgetKeptIff` | `webhook/handler/disruptionquota/quota.go:69-70` | a batch judged by one criterion, contributors or not, stays within the remaining budget exactly when that is already zero, the batch is no larger, or its unhealthy pods and the room above the floor are no more |
| `Quota.MixedDisruptionsBound` | `webhook/handler/disruptionquota/quota.go:80-165` | a batch that mixes criteria uses up at most its unhealthy pods and, for each criterion, the contributors that have room above the floor |
| `Quota.AloneReachesBound` | `webhook/handler/disruptionquota/quota.go:80-184` | it uses up exactly that when no pod counts towards the criterion of another |
| `Quota.MixedBudgetIff` | `webhook/handler/disruptionquota/quota.go:69-70` | from the criteria and who contributes to its own, a batch is known to stay within the budget, whatever else its pods count towards, exactly when that is already zero or the bound is within it |
| `Quota.BudgetGuaranteedIff` | `webhook/handler/disruptionquota/quota.go:69-70` | for any counts and any mix, the batches of a size all stay within the budget exactly when that is zero or the size is within it |
| `Quota.BudgetOverrun` | `util/optional/optional.go:162-168` | with a limit of one concurrent admission both of two deletions are admitted, of available pods as well as of unavailable ones |
| `Quota.OwnKeepsFloor` | `webhook/handler/disruptionquota/quota.go:103-184` | where every pod that a criterion counts is judged by it, only Ok results take pods from its count, and with one the floor is left |
| `PoolAdapter.UndeterminedExactly` | `webhook/handler/pool_adapter.go:136-168` | the reviews left to the quota are exactly those without a bucket for their pod, in batch order |
| `PoolAdapter.AdmitAllHead` | `webhook/handler/pool_adapter.go:180-208` | processing the batch from its end is processing its tail and then its first review with the tally the tail left |
| `PoolAdapter.ComputeRound` | `webhook/handler/pool_adapter.go:119-218` | summarizing, refreshing duplicates, admitting from the end and summarizing again yields a status related to the read as the round specifies, and to every review the answer that the compacted cells and the answers after it determine |
| `PoolAdapter.ApiServer.UpdateStatus` | `webhook/handler/pool_adapter.go:231-235` | an update takes effect exactly when the base version is current and the server is reachable; otherwise nothing changes |
| `PoolAdapter.TryExecute` | `webhook/handler/pool_adapter.go:100-265` | lookup failure fails, a missing protector answers NoPpr, an unchanged status is not sent, a conflict asks for a retry without change, success stores the computed status; the answers given for a protector found are those its compacted cells and the batch determine |
| `PoolAdapter.SummaryCounts` | `util/podprotector/podprotector.go:40-83` | for each criterion the summary counts the pods its cells aggregate with that status, and availability less the estimate is the admissions of all histories |
| `PoolAdapter.AnsweredExactly` | `webhook/handler/pool_adapter.go:170-265` | in every round a review with a bucket is answered so, and any other, by the aggregated count of its criterion less the later reviews let go whose pods it counts, and by the lag: retry at the limit, already unhealthy when not counted, rejected at MinAvailable or below, retry up to MinAvailable plus lag, else newly admitted |
| `PoolAdapter.AnsweredUnderOneExactly` | `webhook/handler/pool_adapter.go:170-265` | when all reviews without a bucket are judged by one criterion: unless the limit is reached, those for pods it does not count are already unhealthy, of the others exactly the last max(0, count - floor) are newly admitted, and the rest are rejected exactly if min(count, floor) is at most MinAvailable and else to retry |
| `Reexecution.ReexecutionAddsNothing` | `webhook/handler/pool_adapter.go:134-249` | executing the same batch again on what the first execution stored adds no bucket: admitted reviews find theirs, all others are refused again unless another review of the batch for the same pod was admitted |
| `Reexecution.StoredWithinLagIff` | `apis/v1alpha1/types.go:70-74` | the admissions stored by an uncompacted round are within the documented maximum exactly when they already were at it, or the unhealthy pods and the contributors with room still fit |
| `Reexecution.RefusedAgain` | `webhook/handler/disruptionquota/quota.go:132-165` | a review refused in a batch is refused again by any tally that lags by what the batch admitted |
| `Reexecution.AdmitAllHas` | `webhook/handler/pool_adapter.go:180-208` | after admission a pod has a bucket exactly when it had one or a review for it was admitted |
| `Reexecution.SecondTally` | `webhook/handler/disruptionquota/quota.go:44-61` | the tally of the second execution has the same counts and floor raised by the admissions of the first |
| `Reexecution.AnswerOf` | `webhook/handler/pool_adapter.go:136-265` | each answer is AlreadyHasBucket, or stands for the verdict of its review: newly admitted for Ok, rejected for Denied, to retry for Retry |
| `Aggregator.NextEventPool.Push` | `aggregator/aggregator/next_event_pool.go:59-69` | an item joins the pool and the first push since a drain sets the time of the earliest item |
| `Aggregator.NextEventPool.Drain` | `aggregator/aggregator/next_event_pool.go:71-91` | returns all items and the times kept for them and leaves the pool empty |
| `Aggregator.HandleEvent` | `aggregator/aggregator/controller.go:487-549` | an event about a pod that the keeper of the sync time takes without error queues, once each, the protectors it matches and those that waited in the pool; any other leaves the pool as it is |
| `Aggregator.NextDrainReturns` | `aggregator/aggregator/next_event_pool.go:59-91` | over any sequence of pushes and drains, a drain returns exactly what was pushed since the one before |
| `Aggregator.KeptExactly` | `aggregator/aggregator/controller.go:905-975` | as often as in the history and unchanged, exactly the buckets that are not obsolete are kept |
| `Aggregator.KeptIsUnseen` | `aggregator/aggregator/controller.go:897-967` | as often as in the history exactly those buckets are kept that may be unseen: a named one unless it starts before the sync time of its shard, an unnamed one unless it starts before that of every shard, a compacted one unless it ends before that of every shard |
| `Aggregator.CompactedDroppedIff` | `aggregator/aggregator/controller.go:946-967` | the bucket that compaction leaves for several is dropped exactly when each of those ends before every sync time, and then each also starts before it, so no admission not yet reflected is lost with it |
| `Aggregator.UpdateLastEventTime` | `aggregator/aggregator/controller.go:887-983` | the history becomes the buckets that may be unseen by their times and the sync times, a change is reported exactly when one was dropped, and each shard pool gains the protector exactly when a kept bucket asks for that shard |
| `Aggregator.SelectBuckets` | `aggregator/aggregator/controller.go:897-975` | one pass computes the kept buckets, whether any was dropped, and which shards they ask for |
| `Aggregator.WakeUpIff` | `aggregator/aggregator/controller.go:930-975` | a kept bucket with a pod name asks exactly its own shard; one without asks every shard behind its start, so some shard exactly when it starts after the oldest sync time |
| `Aggregator.MissedWakeUp` | `aggregator/aggregator/controller.go:939-943` | an unnamed bucket starting at the only sync time is kept and asks no shard |
| `Aggregator.MinOfIsLeast` | `aggregator/aggregator/controller.go:716-716` | the minimum sync time is one of the shards and not above any |
| `Aggregator.AggregateStatus` | `aggregator/aggregator/controller.go:794-870` | the total and each of the six counts are the numbers of positions whose pod has the status named, a change being reported exactly when the aggregation differs |
| `Aggregator.CountsArePods` | `aggregator/aggregator/controller.go:808-850` | scheduled, running, ready, available, pending and unscheduled pending are each the cardinality of the set of positions with that status |
| `Aggregator.StaleIff` | `aggregator/aggregator/controller.go:645-751` | an update is due exactly when a count is not that of the pods or a bucket can be dropped |
| `Aggregator.ReconcilesExactly` | `aggregator/aggregator/controller.go:645-751` | nothing is sent exactly for a missing cell without pods or one that is up to date; else the cell, appended if missing, gets the counts of the pods, the oldest sync time and the buckets that may be unseen, and the others stay as they are up to compaction |
| `Aggregator.ReadSyncTimes` | `aggregator/aggregator/controller.go:698-714` | all sync times are read, or none when a shard has not received one |
| `Aggregator.ReconcileStatus` | `aggregator/aggregator/controller.go:645-751` | the status sent, if any, has the cell recounted and pruned, its event time set to the oldest sync time, and a fresh summary; nothing is sent for an absent cell without pods or an up-to-date one |
| `Aggregator.TryReconcile` | `aggregator/aggregator/controller.go:598-758` | the whole reconciliation against the API server: what is written, under compare-and-swap, when nothing is, and which shard pools gain the protector, even if the update then fails; what is stored has the counts of the pods |
| `AdmissionProtocol.NextInv` | `webhook/handler/pool_adapter.go:230-244` | whatever the informers show, every step keeps the invariant: buckets are for admitted pods only, each cell counts, status by status, the snapshot stored for it, and an admitted pod has the bucket of its last admission or a stored snapshot newer than that |
| `AdmissionProtocol.WebhookCommitsInv` | `webhook/handler/pool_adapter.go:230-244` | a webhook update that wins the version check keeps the invariant |
| `AdmissionProtocol.AggregatorCommitsInv` | `aggregator/aggregator/controller.go:734-750` | an aggregator update that wins the version check keeps the invariant, sound or not |
| `AdmissionProtocol.AggregatorCells` | `aggregator/aggregator/controller.go:645-728` | after an aggregator update each of the four counts of each cell is the number of pods that the snapshot stored for it shows with that status |
| `AdmissionProtocol.DroppedIff` | `aggregator/aggregator/controller.go:905-927` | a single-pod bucket is dropped exactly when it starts before the sync time it is compared with, which is not after that of the shard of its pod |
| `AdmissionProtocol.CommitRecords` | `aggregator/aggregator/controller.go:887-983` | an aggregator update keeps the records of the other cells and exactly those of its own that are not before that sync time |
| `AdmissionProtocol.RunInv` | `webhook/handler/pool_adapter.go:100-249` | so the invariant holds in every state of every run of webhooks, aggregators, pods and spec edits with stale reads |
| `AdmissionProtocol.UnchangedAnswersAreAdmitted` | `webhook/handler/pool_adapter.go:220-249` | in every run a call that finds nothing to change, on whatever version, answers positively only for pods admitted before |
| `AdmissionSafety.EveryRunIsSafe` | `webhook/handler/pool_adapter.go:100-249` | for every criterion, in every state of every run whose aggregator updates come from sound informers, or from informers that show no pod again and pass the check, the count of the stored summary less the admissions not reflected, for availability the estimate, is at most the number of pods that have the status and are not admitted for deletion |
| `AdmissionSafety.EstimateIsSafe` | `util/podprotector/podprotector.go:76-82` | for every criterion that count is so bounded when every admitted pod a stored snapshot shows with the status has a bucket |
| `AdmissionSafety.SummaryIsSeen` | `aggregator/aggregator/controller.go:808-850` | for every criterion the count in the stored summary, and in the tally a webhook makes of it, is the number of pods that the snapshots behind the cells show with that status, and the lag is the admissions of the histories |
| `AdmissionSafety.AnswersFromPods` | `webhook/handler/pool_adapter.go:100-265` | so a webhook that read the current version answers each review by the number of pods shown with the status its criterion looks at, less those let go after it that have the status |
| `AdmissionSafety.NextCovered` | `aggregator/aggregator/controller.go:734-750` | every step whose aggregator update meets that hypothesis keeps every shown admitted pod covered by a bucket |
| `AdmissionSafety.AccountedIffSound` | `aggregator/aggregator/controller.go:636-728` | after an aggregator update every admission of the cell is recorded or reflected by the stored snapshot exactly when the informer was sound, that is, reflected every admission older than its sync times |
| `AdmissionSafety.CoveredIffChecked` | `aggregator/aggregator/controller.go:636-728` | after it every admitted pod of the cell that the snapshot shows has a bucket exactly when every pod seen that had one has one that stays, which the aggregator can check, and no pod that lost its buckets is seen |
| `AdmissionSafety.KeepsIffNoneNamed` | `aggregator/aggregator/controller.go:905-927` | without two buckets for one pod that check is that no bucket about to be dropped names a pod still seen |
| `AdmissionSafety.SoundIffChecked` | `aggregator/aggregator/controller.go:636-728` | when informers show no pod again and every bucket is that of the last admission, the informer is sound exactly when it passes the check |
| `AdmissionSafety.CommitLeavesMinAvailable` | `webhook/handler/disruptionquota/quota.go:44-61` | for every criterion, a batch in which whoever has the status is judged by it, whatever else the batch holds, and that admits such a pod leaves at least MinAvailable pods that have the status and are not admitted |
| `AdmissionSafety.StepLeavesMinAvailable` | `webhook/handler/disruptionquota/quota.go:151-165` | for every criterion, every step keeps the number of unadmitted pods with the status or leaves at least MinAvailable of them |
| `AdmissionSafety.EveryRunLeavesMinAvailable` | `webhook/handler/disruptionquota/quota.go:151-165` | so along every such run that number only falls to MinAvailable or more |
| `SnapshotRace.UnsoundSnapshotOverestimates` | `aggregator/aggregator/controller.go:636-714` | for every criterion, a run from the initial state with sound informers in which pods listed before a deletion meet a sync time read after it: the update drops the bucket and the pod is counted on as left |
| `FusedRc.Counter.Acquire` | `util/retrybatch/fusedrc/fusedrc.go:41-62` | adds one with 32-bit wrap-around and tells success, refusal and the two panics by the new value |
| `FusedRc.Counter.Release` | `util/retrybatch/fusedrc/fusedrc.go:66-80` | subtracts one with wrap-around and panics exactly when the new value is negative |
| `FusedRc.Counter.Fuse` | `util/retrybatch/fusedrc/fusedrc.go:89-91` | succeeds exactly at zero, where it stores the fused value |
| `FusedRc.OperationMeaning` | `util/retrybatch/fusedrc/fusedrc.go:24-91` | on a counter that means its holders, when each operation succeeds and exactly when it panics |
| `FusedRc.EveryRunKeepsMeaning` | `util/retrybatch/fusedrc/fusedrc.go:24-91` | over any run of well-behaved callers within the counts the source documents, no panic; unfused the counter is its holders, fused it has none |
| `FusedRc.FuseIsFinal` | `util/retrybatch/fusedrc/fusedrc.go:85-91` | after a fuse nobody acquires or holds the counter again |
| `RetryBatch.NextInv` | `util/retrybatch/pool.go:154-344` | every interleaved step of submitters and goroutines keeps the table, the counters, the requests and the replies consistent |
| `RetryBatch.RunInv` | `util/retrybatch/pool.go:154-344` | so the invariant holds in every state of every run |
| `RetryBatch.OneGoroutinePerKey` | `util/retrybatch/pool.go:193-230` | two handles of one key that are not cleaned up are the same handle, the one in the map; hence one goroutine and one Execute at a time per key |
| `RetryBatch.StartedOnce` | `util/retrybatch/pool.go:218-226` | the goroutine of a handle is started once |
| `RetryBatch.CleanupDeletesItsOwn` | `util/retrybatch/pool.go:224-248` | the deletion by key after a fuse removes the goroutine's own handle, never a newer one |
| `RetryBatch.FusedIsDeserted` | `util/retrybatch/pool.go:266-285` | a fused handle has no holder and no request, and acquiring it sends the submitter back to load another |
| `RetryBatch.CounterIsHolders` | `util/retrybatch/pool.go:169-170` | an unfused counter is the number of calls between acquire and release, and no release panics |
| `RetryBatch.CreatorAcquires` | `util/retrybatch/pool.go:197-226` | the call that created a handle does acquire it, so its goroutine gets started |
| `RetryBatch.OneReply` | `util/retrybatch/pool.go:172-187` | a call has at most one reply, exactly one when it returns, and while it has none its goroutine keeps its request exactly once |
| `RetryBatch.ReplyNeverBlocks` | `util/retrybatch/pool.go:172-187` | whenever a goroutine is to send a reply there is room for it |
| `RetryResults.NextNoted` | `util/retrybatch/pool.go:154-455` | every step keeps what is noted of arguments, executions and answers: a goroutine that delivers an execution has the rest of its requests still to answer, and every answer that is a result was computed for the argument and the key of its call |
| `RetryResults.OwnResult` | `util/retrybatch/pool.go:172-187` | in every interleaving a call of Submit that has returned has an answer, and a result is what a call of Execute for its key returned at the position where it was given its argument |
| `RetryProgress.CallAdvances` | `util/retrybatch/pool.go:154-287` | whatever state a run is in, an outstanding call has an enabled step that brings it strictly closer to its return |
| `RetryProgress.CallCompletes` | `util/retrybatch/pool.go:154-287` | from every such state a bounded schedule completes the call with exactly one reply |
| `BatchExecution.Batcher.DrainCanceled` | `util/retrybatch/pool.go:360-374` | every request is tested once wherever swap-removal moves it; those canceled are answered so, the others stay |
| `BatchExecution.SwapRemovedRest` | `util/util/slices.go:71-74` | swap-removal keeps what lies before the index and permutes what lies after, without the element removed |
| `BatchExecution.Batcher.TryExecuteBatch` | `util/retrybatch/pool.go:390-454` | an empty batch executes nothing; otherwise every retry count rises, success answers each request with the result at its own index, a failure answers all and clears, a retry answers none |
| `BatchExecution.ExecuteBatch` | `util/retrybatch/pool.go:346-388` | some requests are those canceled and answered so, the others are executed once by the function given, and nothing is left exactly when the loop is to end |
| `BatchExecution.ProcessBatch` | `util/retrybatch/pool.go:289-344` | the loop takes the events in their order until one ends it, and its states are those of the steps the events stand for; it ends exactly at a shutdown or a firing that leaves nothing to retry |
| `BatchExecution.RunGood` | `util/retrybatch/pool.go:289-344` | in every state of every such run every request taken is in the batch or answered, exactly once, with its number of executions, and a result was computed by an execution for its own argument |
| `BatchExecution.FiringOutcome` | `util/retrybatch/pool.go:346-455` | a firing answers every canceled request so and executes the others once if there are any: a success answers each with its result, an error all of them, a retry keeps exactly them |
| `BatchExecution.RunLogged` | `util/retrybatch/pool.go:390-415` | the executions are those of the firings in their order, at most one each, each returning what its firing has for its requests and arguments |
| `BatchExecution.RunExplained` | `util/retrybatch/pool.go:312-451` | a request is answered as canceled only when a firing found it so, as failed only when an execution it was in failed, as shut down only when the loop ended by a shutdown |
| `BatchExecution.AnsweredOnce` | `util/retrybatch/pool.go:289-344` | a finished batch has exactly one reply for every request |
| `BatchExecution.Execute` | `util/retrybatch/pool.go:408-415` | an execution counts for all requests in the batch and for no answered one |
| `BatchExecution.Deliveries` | `util/retrybatch/pool.go:425-431` | the replies of a success carry the result computed for the argument of the same request |
| `Canonical.ByKeySorts` | `util/sort/sort.go:25-29` | sorting by key permutes and orders by key |
| `Canonical.BelowIsTotal` | `util/sort/sort.go:25-29` | the order on strings is strict and total |
| `Canonical.LeftZip` | `util/sort/sort.go:39-75` | the merge join yields every left element with the first right element of its key, repeated left keys included |
| `Canonical.CreateSet` | `util/labelindex/canonical/set.go:41-51` | a label map becomes its pairs once each in strict key order, in whatever order the map is iterated |
| `Canonical.CreateSelector` | `util/labelindex/canonical/selector.go:86-113` | fails exactly for an unknown operator; otherwise the requirements by kind, each kind sorted, match labels as In requirements |
| `Canonical.CanonicalContents` | `util/labelindex/canonical/selector.go:96-105` | which In and NotIn requirements a canonical selector has |
| `Canonical.Matches` | `util/labelindex/canonical/selector.go:53-84` | the four joins decide the conjunction of all requirements |
| `Canonical.CanonicalMatchIsMatch` | `util/labelindex/canonical/selector.go:53-113` | matching canonical forms is Kubernetes' matching of the selector as given against the labels as given, for selectors with repeated keys too |
| `SetTrie.EditIsUpdate` | `util/labelindex/settrie/trie.go:138-165` | editing a word changes the data of that word and of no other |
| `SetTrie.EditKeepsTidy` | `util/labelindex/settrie/trie.go:157-159` | an edit leaves no garbage node below the root |
| `SetTrie.TidyLeadsToWord` | `util/labelindex/settrie/trie.go:93-95` | a node that is not garbage leads to a stored word |
| `SetTrie.TrieRefinesMap` | `util/labelindex/settrie/trie.go:112-185` | after any sequence of edits the trie is the map from words to data, without garbage nodes |
| `SetTrie.SubsetsCount` | `util/labelindex/settrie/trie.go:266-301` | a stored word is yielded once for each way to read it in the query |
| `SetTrie.SubsetsExact` | `util/labelindex/settrie/trie.go:251-301` | for a query without repeated letters each stored word that is a subsequence of it is yielded once, and nothing else |
| `SetTrie.SubsetsYields` | `util/labelindex/settrie/trie.go:251-301` | for any query the pairs yielded are the stored words that are subsequences of it with their data |
| `SetTrie.EmbeddingsCount` | `util/labelindex/settrie/trie.go:285-298` | a word can be read exactly when it is a subsequence, in at most one way when letters do not repeat |
| `SetTrieNodes.TrieNode.CursorUnder` | `util/labelindex/settrie/trie.go:138-165` | on the heap: the nodes below become those of the edited trie, created and dropped as needed, and stay a tree |
| `SetTrieNodes.TrieNode.Get` | `util/labelindex/settrie/trie.go:171-185` | finds the data of a word |
| `SetTrieNodes.TrieNode.SubsetsInNode` | `util/labelindex/settrie/trie.go:266-301` | the loop over the query letters yields the words of the specification in its order |
| `SetTrieNodes.Trie.CreateOrUpdate` | `util/labelindex/settrie/trie.go:124-136` | creates the data of a word, or leaves what updating a copy does through references; the data is what was meant exactly when the word is new or both effects agree |
| `SetTrieNodes.AssignmentLost` | `util/optional/optional.go:162-168` | a number that an update increments stays what it was |
| `SetTrieNodes.Trie.RetainOrDrop` | `util/labelindex/settrie/trie.go:112-122` | replaces or drops the data of a word that has some |
| `SetTrieNodes.Multi.Insert` | `util/labelindex/settrie/multi.go:35-53` | the subkey joins the entry of its word and of no other, reporting whether it was there |
| `SetTrieNodes.Multi.Remove` | `util/labelindex/settrie/multi.go:55-75` | the subkey leaves the entry of its word, an empty entry leaves the trie |
| `SetTrieNodes.Multi.Subsets` | `util/labelindex/settrie/multi.go:77-86` | yields exactly the pairs of the entries whose word the query reads |
| `Matchable.LessIsNoOrder` | `util/labelindex/matchable/matchable.go:31-41` | the order on letters puts two values of one key each before the other |
| `Matchable.OneValueOrdered` | `util/labelindex/matchable/matchable.go:31-41` | without two values of one key it is a strict order in which any two letters compare |
| `Matchable.QueryWord` | `util/labelindex/matchable/matchable.go:43-50` | the query word of a label set has exactly its letters, once each, in order |
| `Matchable.ReadIff` | `util/labelindex/settrie/trie.go:36-43` | a sorted word is read by a query exactly when it repeats no letter and the labels have all of them |
| `Matchable.WordsRead` | `util/labelindex/matchable/matchable.go:62-104` | some word of a selector is read exactly when the labels meet its In requirements and the letters they choose can be read |
| `Matchable.FoundIff` | `util/labelindex/matchable/matchable.go:52-104` | a selector is found exactly when its positive requirements are met and no key repeats within In or within Exists |
| `Matchable.MissedIffRepeats` | `util/labelindex/selectors.go:135-148` | among matching selectors exactly those that repeat a key are missed |
| `Matchable.RepeatedExistsMissed` | `util/labelindex/settrie/trie.go:266-301` | two Exists requirements on one key match labels that have it and are missed, under every sort |
| `Matchable.WordsDistinctIff` | `util/labelindex/matchable/matchable.go:62-104` | the words of a selector that repeats no key are distinct exactly when no In requirement repeats a value, or there are none |
| `Matchable.SomeSort` | `util/labelindex/matchable/matchable.go:43-60` | what is required of the sort of letters can be met |
| `Matchable.WordsRepeatIff` | `util/labelindex/matchable/matchable.go:62-104` | with a given sort two words of any selector are the same exactly when an In requirement repeats a value and none is without values, or two different choices of values come out as one word |
| `Matchable.AlwaysRepeatsIff` | `util/labelindex/matchable/matchable.go:31-60` | they are the same whatever the sort makes of letters that the comparison does not order exactly in the first of these cases |
| `Matchable.SometimesRepeatsIff` | `util/labelindex/matchable/matchable.go:31-60` | they are the same for some such sort exactly when two choices have the same letters or the first case holds |
| `LabelSelectors.InsertWords` | `util/labelindex/selectors.go:93-102` | inserting a name under its words panics exactly when a word comes twice |
| `LabelSelectors.Selectors.Track` | `util/labelindex/selectors.go:60-105` | panics exactly for repeated words, fails exactly for unknown operators, after which the name is not tracked, so that the index is as before exactly when it was not tracked, else tracks it |
| `LabelSelectors.Selectors.Untrack` | `util/labelindex/selectors.go:107-127` | forgets the name and never panics |
| `LabelSelectors.Selectors.Query` | `util/labelindex/selectors.go:129-148` | yields without duplicates exactly the tracked names whose selector matches the labels and repeats no key |
| `LabelSelectors.PanicsIffValueRepeats` | `util/labelindex/selectors.go:95-98` | a selector that repeats no key panics exactly when an In requirement repeats a value and none is without values |
| `LabelSelectors.PanicsUnderEverySortIff` | `util/labelindex/selectors.go:95-98` | any selector, keys repeated or not, panics whatever the unstable sort does exactly under the same condition, and otherwise exactly when the sort makes one word of two choices |
| `LabelSelectors.CanonicalRepeats` | `util/labelindex/canonical/selector.go:96-110` | repeated keys and values can be told from the selector as given |
| `LabelSelectors.Replay` | `util/labelindex/selectors.go:60-127` | after any history without panic the index tracks what the history says, and well-formed selectors never panic |
| `LabelSets.MultiMap.Insert` | `util/labelindex/mm/multimap.go:25-36` | the value joins its key and no other |
| `LabelSets.MultiMap.Remove` | `util/labelindex/mm/multimap.go:38-56` | the value leaves its key, a key without values leaves the map |
| `LabelSets.Sets.Track` | `util/labelindex/sets.go:53-79` | tracks the labels; both indexes stay what they are defined to be, without panic |
| `LabelSets.Sets.Untrack` | `util/labelindex/sets.go:81-110` | forgets them, the consistency panics being unreachable |
| `LabelSets.Sets.BestIndex` | `util/labelindex/sets.go:119-127` | the index chosen is needed by the selector and has the least cardinality |
| `LabelSets.Sets.CardinalityCounts` | `util/labelindex/sets.go:119-180` | the cardinality compared is the number of names tracked, of those that have the key, or of those with each of the values added up |
| `LabelSets.Sets.Iterate` | `util/labelindex/sets.go:145-180` | an index offers exactly the names that have its key or one of its pairs |
| `LabelSets.Sets.MatchOffered` | `util/labelindex/sets.go:119-133` | whatever index is chosen offers every name that matches |
| `LabelSets.Sets.Query` | `util/labelindex/sets.go:112-134` | equals the plain scan of the tracked labels, without duplicates, for every selector with known operators |
| `Toposort.Sorter.Dfs` | `util/component/interface.go:266-299` | a search from a component appends it after its dependencies, or finds a cycle |
| `Toposort.ToposortComponentList` | `util/component/interface.go:260-311` | lists every component once with dependencies first, and panics exactly when there is a cycle |
| `Toposort.OrderHasNoCycle` | `util/component/interface.go:260-311` | such an order rules out cycles |
| `RequestWalk.ComesBackIff` | `util/component/interface.go:332-385` | where requests of one name agree on their dependencies, the walk of the requests comes back to a component being resolved exactly when a requested component, or one it depends on, depends on itself |
| `RequestWalk.NoRecursionWalks` | `util/component/interface.go:332-385` | the walk never comes back when no component is requested below itself |
| `RequestWalk.ListIsNotMain` | `util/component/interface.go:244-258` | on the walk the program requests each component as often as its list does |
| `RequestWalk.WalkOfAgreed` | `util/component/interface.go:332-385` | where requests agree, each resolved component requests exactly its dependencies, and what is requested is resolved |
| `Resolution.Resolver.ResolveRequest` | `util/component/interface.go:332-385` | resolution panics exactly when the walk of the request, a component new the first time and merged from then on, comes back; else what it resolves, and how much every count rises, is what the walk requests, and both ends of every edge agree but for the request itself, which the requester counts next |
| `Resolution.Resolver.ResolveList` | `util/component/interface.go:244-258` | panics exactly when that walk of all requests comes back; else what is resolved and every count, those by main included, are what the walk requests |
| `Resolution.ResolvedIsSynced` | `util/component/interface.go:323-329` | the two ends of every edge of the result agree, no count is zero and no component missing |
| `Resolution.ResolvedIsGraph` | `util/component/interface.go:323-385` | the result is the graph of the walk: its components, and at both ends every request it made as often as it made it |
| `Trimming.Trimmer.Unrequest` | `util/component/interface.go:440-459` | withdrawing a request keeps both ends in step: the out-of-sync panic is unreachable, the other happens exactly when nothing is left to withdraw |
| `Trimming.Trimmer.RemoveDirectDeps` | `util/component/interface.go:432-461` | withdraws exactly what the components withdraw and main does not want |
| `Trimming.Trimmer.ShakeTreeOnce` | `util/component/interface.go:463-480` | a pass disables only components nobody requests, and reports a change exactly when it disabled one |
| `Trimming.FixpointReached` | `util/component/interface.go:411-418` | when every enabled component is requested each is reached from main |
| `Trimming.DisableKeepsReached` | `util/component/interface.go:466-476` | a component without requests is not reached, so disabling it loses nothing |
| `Trimming.TrimNonRequested` | `util/component/interface.go:408-430` | terminates with exactly the components reached from main along the requests that remain, in their order; panics exactly for a withdrawal beyond the requests made |
| `Trimming.SelectInitializable` | `util/component/interface.go:420-429` | in the output everything a component still requests comes before it |
| `Trimming.StartUp` | `util/cmd/cmd.go:71-79` | starting a program reports recursive requests exactly when the walk of its requests comes back, recursive dependencies exactly when the graph of the walk has a cycle, a bad withdrawal exactly when one exceeds the requests made in that graph; else it enables, once each, exactly the components reached from main in it, each after what it still requests |
| `Generator.Cluster.UpdateSource` | `generator/resource/deployment/deployment.go:219-229` | an update of the workload, possibly reported failed though applied, happens only at the version of the local copy, takes away or adds nobody else's finalizer, and is safe when it keeps the own one or all PodProtectors are being deleted |
| `Generator.Reconciler.EnsureSourceFinalizer` | `generator/generator/controller.go:380-422` | unless refused for a terminating workload or failed, the workload has the finalizer, one more only if it had none and all others as often as before, and it is not to be removed |
| `Generator.Reconciler.CreateProtector` | `generator/generator/controller.go:424-453` | creates only under the finalizer, or nothing for a terminating workload without it |
| `Generator.Reconciler.SyncProtector` | `generator/generator/controller.go:455-500` | updates the spec under the finalizer and leaves the finalizers of the PodProtector alone, failing for a terminating workload without it |
| `Generator.Reconciler.DeleteProtector` | `generator/generator/controller.go:537-585` | on success the PodProtector is gone or being deleted, undisturbed with one finalizer of the generator less and all others as before, gone exactly if none is left; on failure the finalizer of the workload is not to be removed |
| `Generator.Reconciler.RemoveSourceFinalizer` | `generator/generator/controller.go:587-616` | takes one occurrence of the finalizer, and no other, from the workload once all its PodProtectors are being deleted |
| `Generator.ReconcileItem` | `generator/generator/controller.go:181-293` | reading an index that misses some PodProtectors: every state on the way is safe, whatever fails and whoever interferes, if those are being deleted; undisturbed it is safe exactly then or when the finalizer stays anyway. Undisturbed, the finalizers of the workload are those before and one of the generator if something is required, it was missing and the workload is not terminating, those before less one of the generator if nothing is required, and else the same; on success required protectors keep theirs, those no longer required lose one of the generator and go when none is left, and it fails exactly when a required protector exists that the index misses or that a terminating workload without the finalizer would keep. Disturbed or not, on success all that the index showed and the workload did not require is being deleted |
| `Generator.HiddenIsUnsafe` | `generator/generator/controller.go:200-226` | from a safe state, undisturbed, a reconciliation whose index hides the PodProtector of a workload that no longer requires it reaches a state that is not safe |
| `Generator.Operate` | `generator/generator/controller.go:181-293` | over any number of reconciliations and crashes, with indexes that miss only PodProtectors being deleted, no state has a PodProtector that is not being deleted whose workload lacks the finalizer, and no call of the generator changes how often any finalizer of others occurs |

## Left out

* Kubernetes clients, informers, listers, work queues, leader election, the HTTP server, flags, metrics and logging: the
  API server appears as a versioned register with finalizer semantics, an informer as a state that may be stale.
* Clocks, jitter and backoff: times are integers, timers fire at any time; in particular the time at which an execution
  starts is a parameter.
* Overflow of 32-bit replica sums: counts are unbounded integers except in the reference counter, where the wrap-around
  is the point.
* A compaction threshold below 1, with which the source indexes past the end of a history: it is required to be at least 1.
* More than one aggregator of one cell at a time: the protocol has at most one call in flight per cell.
* An index of the generator that shows old contents of a PodProtector: it may hide some, and shows the others as they are
  when it is read.
* The delay and the retries of the work queue, and the update of the pod index by the pod event handler.
* The selector that makes an aggregator skip a PodProtector, the requeueing for pods about to be ready, and the removal of
  cells by annotation in `tryRemoveCells`.
* Several PodProtectors matching one pod: the source declares the rollback unimplemented.
* Iterators that stop early, and the sharing of slice capacity between prefixes and words: iterators are fully consumed
  sequences, words are values. The maps that the trie stores are values, what an update does through a reference being
  stated with it.
* The superset search of the trie, which the source documents as unused, and the depth estimate used for allocation.
* The locking and namespacing wrappers of the indexes.
* Requests of components that never end: a request is a finite tree of what it asks for when new and when merged. A
  component named like the placeholder for the program is excluded.
* In-place sorting: sorts are functions on sequences; for the letters of words any function that permutes, and sorts what
  the comparison orders, stands for the library's unstable sort.
* A character of a label stands for a byte.
* Calls of the generator that take effect after a crash and a later reconciliation: a call is applied before it returns
  or not at all.
* Two reconciliations of one workload at a time.
- RetryBatch.OneReply: speaks of runs in which fewer than 2^31 - 1 calls hold a handle and fewer than 2^30 attempts hit a
  fused one, the counts at which the source panics by design.
- RetryProgress.CallCompletes: shows that completion always remains possible, not that a fair scheduler reaches it, because
  fairness of the runtime and the return of Adapter.Execute are outside the model.
