# dactor verification

A Dafny model of the parts of dactor whose behaviour is more than plumbing, with proofs of
what they guarantee over whole runs. Time is an integer that callers pass in; storage,
transports, interceptors, handlers and clients are parties whose behaviour is a parameter,
faults included. `dafny verify dfyconfig.toml` checks everything.

| files | what they model |
|---|---|
| `OutboundQueue*.dfy` | the outbound queue with its lanes, comparers and stream FIFO: bookkeeping, where envelopes go and which leaves, order, drain, alternation, the fairness rotation, aging |
| `Persistence*.dfy`, `BankAccount.dfy` | persisting, snapshots, compaction, recovery and its retry loop, and what each reports; the bank account's codecs as an instance |
| `Metrics.dfy`, `MetricsSnapshot.dfy` | the sliding-window buckets of an actor's metrics, and what a snapshot of them shows |
| `CircuitBreaker.dfy`, `Pipeline*.dfy`, `BreakerPipeline.dfy` | the breaker, the steps the ractor adapter takes for one message, and the two together |
| `Stream*.dfy`, `BatchPump.dfy`, `BatchedTransport.dfy`, `BatchArrival.dfy` | batch writer and reader, the adapter's pump loop, the batching transport sender and the order in which its batches arrive |
| `DeathWatch.dfy` | the registry of watchers |
| `TaskQueue.dfy` | the dispatcher and workers of the task-queue example |
| `Pool*.dfy` | worker selection in a pool |
| `Wire.dfy`, `Wrappers.dfy`, `Numbers.dfy`, `Sequences.dfy` | what these share: envelopes, results, machine integers, and facts about products, quotients and sequences |

Code that changes fields in place is a class. Each of its methods is proved equal, in
result and new state, to a function on values (`AfterPop`, `AfterRecovery`, `AfterReceive`
and so on), and the properties are proved of those functions over arbitrary runs. What an
operation answers is stated once more in terms of its inputs alone, without those functions:
`OutboundQueueChoice`, `PersistenceReports`, `PipelineOutcome`, `StreamReports`, and lemmas
such as `ReceiveOnReachable`, `StrategyChooses` and `TasksKeepTheirSubmission`.

## Where the code and its documentation differ

The model follows the code. These are the places where a promise holds only under a
condition; each names the lemma with the exact condition, and the lemma or run in which the
promise fails.

- `pop` is said to keep stream traffic from starving other messages
  (`outbound_queue.rs:222-225`). The parity rule alternates between two pops exactly when
  an even number of pushes was accepted between them; with one push per pop, one source
  can be served for ever (`AlternatesIffEvenPushes`, `PushedSideStarvesOther`).
- The fairness rotation bounds every lane's wait while nothing is pushed, and the bound that
  is proved is reached (`WorstWaitIsExact`). Under pushes some bound exists only for
  `max_consecutive` = 1, because a lane that runs dry restarts the rotation at lane 0
  (`StarvationFreeIffOnePopEach`, `RefillStarves`).
- `BatchConfig` promises a flush within `max_delay` of a batch's first item
  (`stream.rs:113-117`). The pump re-arms its timer for every item, so the longest wait is
  (max_items - 1) * max_delay (`WorstCaseWait`, `DocumentedDelayHoldsIff`,
  `TrickleReachesBound`).
- `max_attempts: None` is documented as unlimited (`persistence.rs:99`); the code makes
  three tries (`persistence.rs:638`). A recovery succeeds if and only if one of the tries it
  is allowed meets no fault (`RetrySucceedsIff`); the fourth is not made
  (`UnlimitedRetryGivesUp`).
- The cap of 30 seconds does not apply to the first sleep, which is the configured delay. All
  sleeps keep within it if and only if that delay does or a single try is allowed
  (`SleepsAreCappedIff`, `FirstSleepCanExceedCap`).
- `SkipAndStart` is documented to start with the default state (`persistence.rs:104-105`);
  the code keeps what the failed recovery restored, so the state is the default one if and
  only if no snapshot was restored or one that says the same (`SkippedIsDefaultIff`,
  `SkippedAccountIsNotDefault`). What is persisted next continues the journal if and only if a
  snapshot was restored and nothing in the journal is younger, or nothing was ever stored
  (`SkippedPersistsContinueIff`; in `SkippedDepositReusesId` two events share a sequence id).
  A later recovery loses as many of those events as a snapshot that was not restored covers,
  or all of them where the store stays unreadable (`SkippedPersistsAreLost`; in
  `SkippedDepositIsLost` a deposit reported as persisted is gone). This holds of every store
  that runs produce, also when payloads in it no longer decode.
- A breaker whose probe is admitted but never completed stays half-open and refuses
  everything (`StuckIffProbeIsLost`, `ProbeCanBeLost`, `HalfOpenBetweenMessagesIsForever`).
- Batches for a node are sent after the lock is released, so two of them can overtake each
  other. Envelopes arrive in the order of their acceptance if and only if the node's batches
  finish in the order in which they were taken (`ArrivalInOrderIff`,
  `OvertakingArrivesOutOfOrder`); when transmissions to it do not overlap, they do
  (`SequentialUseKeepsOrder`).
- A metrics snapshot is called one of a point in time (`metrics.rs:78`, `metrics.rs:233`), but
  reads the clock four times. Its readings see the same buckets if and only if no bucket
  leaves the window between the first and the last (`SnapshotIsNestedSuffixes`,
  `SameBucketsIff`). Its figures are those of one suffix of the recordings if and only if, of
  what left meanwhile, no message left before the counts by type were read, and no latency had
  been recorded after a message or a counted error (`SnapshotIsOneSuffixIff`). In
  `SnapshotCanBeTorn` a message is counted whose latency is not.
- `max_retries + 1` wraps at the largest u32 in a release build, where a task then gets one
  attempt (`DeadTaskAttempts`, `AttemptLimit`, `LargestRetryCountAllowsNone`).
- Two readings of the workers' loads that disagree are called acceptable
  (`pool.rs:203-205`); when no worker's second reading is the minimum of the first, the
  candidate list is empty and the selection panics (`PanicsIff`, `StaleReadingPanics`).
- Round-robin is even over any stretch that does not wrap the counter, and over all
  stretches exactly when the pool's size divides 2^64 (`WrapIsHarmlessIff`,
  `UnevenAcrossWrap`).

## Model

| member | source | states |
|---|---|---|
| `OutboundQueue.OutboundPriorityQueue.New` | dactor/src/outbound_queue.rs:158-170 | a new queue is empty and consistent, without a capacity or fairness limit |
| `OutboundQueue.OutboundPriorityQueue.WithConfig` | dactor/src/outbound_queue.rs:173-180 | likewise, with a capacity and a fairness limit |
| `OutboundQueue.OutboundPriorityQueue.WithComparer` | dactor/src/outbound_queue.rs:182-188 | likewise, in comparer mode |
| `OutboundQueue.OutboundPriorityQueue.Push` | dactor/src/outbound_queue.rs:199-217 | a full queue hands the envelope back and does not change; otherwise it joins the back of the one container that its send mode and priority name; the redundant fields stay consistent |
| `OutboundQueue.OutboundPriorityQueue.Pop` | dactor/src/outbound_queue.rs:226-254 | takes exactly one envelope whenever `total` is positive, from the source that the parity rule names |
| `OutboundQueue.OutboundPriorityQueue.HasPriority` | dactor/src/outbound_queue.rs:231-236 | found exactly when some lane, or the comparer's vector, holds an envelope |
| `OutboundQueue.OutboundPriorityQueue.PopStream` | dactor/src/outbound_queue.rs:256-260 | takes the oldest stream item and counts it off, and changes nothing else |
| `OutboundQueue.OutboundPriorityQueue.PopPriority` | dactor/src/outbound_queue.rs:262-270 | dispatches to the comparer, strict or fair rule, keeping consistency |
| `OutboundQueue.OutboundPriorityQueue.PopComparer` | dactor/src/outbound_queue.rs:272-289 | the index scan removes the entry that the comparer ranks first and no other |
| `OutboundQueue.OutboundPriorityQueue.ScanForBest` | dactor/src/outbound_queue.rs:277-285 | the index loop settles where the specified scan of the whole vector does |
| `OutboundQueue.OutboundPriorityQueue.PopStrict` | dactor/src/outbound_queue.rs:291-299 | takes the head of the lowest non-empty lane |
| `OutboundQueue.OutboundPriorityQueue.PopFair` | dactor/src/outbound_queue.rs:301-313 | one step of the rotation: the running lane, or the next non-empty one when its turn is over |
| `OutboundQueue.OutboundPriorityQueue.ChooseFairLane` | dactor/src/outbound_queue.rs:302-309 | where the rotation goes, before anything is taken |
| `OutboundQueue.OutboundPriorityQueue.TakeFromCurrentLane` | dactor/src/outbound_queue.rs:310-312 | serving the running lane takes its head and counts it towards the turn |
| `OutboundQueue.OutboundPriorityQueue.NextNonEmptyLane` | dactor/src/outbound_queue.rs:315-323 | the first non-empty lane in cyclic order, if there is one |
| `OutboundQueue.OutboundPriorityQueue.DrainOrdered` | dactor/src/outbound_queue.rs:356-377 | returns the stream items, then the priority items in drain order, and leaves the queue empty |
| `OutboundQueue.OutboundPriorityQueue.DrainLanes` | dactor/src/outbound_queue.rs:370-372 | the lanes concatenated, all of them emptied |
| `OutboundQueue.OutboundPriorityQueue.Clear` | dactor/src/outbound_queue.rs:403-411 | empties every container and resets the counters, keeping the configuration and the running lane |
| `OutboundQueue.FirstNonEmptyIsComplete` | dactor/src/outbound_queue.rs:315-323 | the cyclic scan finds a lane exactly when some lane is not empty, from any start |
| `OutboundQueue.PushKeepsValid` | dactor/src/outbound_queue.rs:199-217 | a push keeps `total` equal to the sum of all containers, the capacity, the mode and the classification by lane |
| `OutboundQueue.PopPriorityKeepsValid` | dactor/src/outbound_queue.rs:262-313 | so does a priority pop; it yields an envelope exactly when a priority item is queued, and `total` drops by one |
| `OutboundQueue.PopKeepsValid` | dactor/src/outbound_queue.rs:226-254 | so does a pop, which yields Some exactly when `total` > 0 |
| `OutboundQueue.ClearKeepsValid` | dactor/src/outbound_queue.rs:403-411 | so does clearing |
| `OutboundQueueChoice.PushPutsEnvelope` | dactor/src/outbound_queue.rs:199-217 | a push is refused exactly at a positive capacity; otherwise the envelope goes to the back of the stream FIFO for Expand and Reduce, of the comparer's vector with its priority and instant, or of the lane of its priority, which is the first byte of the `dactor.Priority` header, or 128 |
| `OutboundQueueChoice.PushIsAcceptedIff` | dactor/src/outbound_queue.rs:199-202 | over any run a push is accepted exactly while fewer envelopes are out than a positive capacity allows |
| `OutboundQueueChoice.ClearedIsNew` | dactor/src/outbound_queue.rs:403-411 | a cleared queue is a new one with the same configuration, but for the running lane |
| `OutboundQueueChoice.ParityDecides` | dactor/src/outbound_queue.rs:226-254 | with items on both sides the stream's oldest item leaves exactly when their number is even; with items on one side, that side is served; nothing else moves |
| `OutboundQueueChoice.StrictPopTakesMostUrgent` | dactor/src/outbound_queue.rs:272-289 | under the strict comparer the entry with the least priority value leaves, the first of several, and no other |
| `OutboundQueueChoice.AgingPopTakes` | dactor/src/outbound_queue.rs:91-102 | under the aging comparer the entry that has waited longest leaves if any has waited for the maximal age, and otherwise the most urgent one; the first of several |
| `OutboundQueueChoice.AgingPopInRun` | dactor/src/outbound_queue.rs:91-102 | over any run with a monotone clock: an aged head leaves; while the head is not aged, the most urgent entry does |
| `OutboundQueueChoice.FreshEntriesLeaveByPriority` | dactor/src/outbound_queue.rs:91-102 | of two fresh tells with priorities 10 and 200 the first leaves |
| `OutboundQueueChoice.DrainIsLexicographic` | dactor/src/outbound_queue.rs:362-366 | a drained vector is in lexicographic order of priority and enqueue time |
| `OutboundQueueOrder.StableSortIsStable` | dactor/src/outbound_queue.rs:362-366 | the drain order is sorted by priority and enqueue time, a permutation, and stable |
| `OutboundQueueOrder.StrictIsTotalPreorder` | dactor/src/outbound_queue.rs:73-78 | the strict comparer is a total preorder at every instant |
| `OutboundQueueOrder.AgingIsTotalPreorder` | dactor/src/outbound_queue.rs:91-102 | so is the aging comparer, for every maximal age and fixed `now` |
| `OutboundQueueOrder.BestIsFirstMinimum` | dactor/src/outbound_queue.rs:277-285 | under any total preorder the scan picks the first of the minimal entries, and only that index qualifies |
| `OutboundQueueOrder.SortStartsWithBest` | dactor/src/outbound_queue.rs:272-289 | taking the strict choice out of a vector leaves the stable sort of the rest behind it |
| `OutboundQueueOrder.LanesAreBands` | dactor/src/outbound_queue.rs:116-124 | lanes are bands of 64 priorities with the last value apart, and preserve the order of priorities |
| `OutboundQueueOrder.StrictPopServesUrgentLane` | dactor/src/outbound_queue.rs:291-299 | without a fairness limit no queued envelope has a lower lane than the one served, so a more urgent one is passed over only within a lane |
| `OutboundQueueOrder.StrictPopFollowsDrain` | dactor/src/outbound_queue.rs:262-299 | one priority pop takes the head of what a drain would return and leaves its tail |
| `OutboundQueueOrder.OnePopOfDrain` | dactor/src/outbound_queue.rs:226-299 | one pop takes the head of the stream or of the drained priority items, and leaves the rest of both |
| `OutboundQueueOrder.RepeatedPopIsDrain` | dactor/src/outbound_queue.rs:356-377 | repeated pops, at any instants, yield exactly what `drain_ordered` returns, for the strict comparer and for lanes without a fairness limit |
| `OutboundQueueOrder.RunKeepsValid` | dactor/src/outbound_queue.rs:140-154 | over any run of push, pop and drain the state stays consistent and the configuration fixed; `ClearKeepsValid` adds clearing |
| `OutboundQueueOrder.NothingLostOrDuplicated` | dactor/src/outbound_queue.rs:199-313 | over any run the accepted envelopes are, as a multiset, those that left and those queued; `total` is their difference; the capacity is never exceeded |
| `OutboundQueueOrder.EachSourceIsFifo` | dactor/src/outbound_queue.rs:199-313 | over any run with a monotone clock the stream items and each lane's items, and under either shipped comparer each priority's items, leave in acceptance order |
| `OutboundQueueFairness.AlternatesIffEvenPushes` | dactor/src/outbound_queue.rs:246-253 | two pops with both sources non-empty before each take from different sources exactly when an even number of pushes was accepted between them |
| `OutboundQueueFairness.PushedSideStarvesOther` | dactor/src/outbound_queue.rs:246-253 | n rounds of one pop and one push of the right kind serve one source n times and leave the other untouched, for every n |
| `OutboundQueueFairness.ServesNearest` | dactor/src/outbound_queue.rs:301-323 | a rotation that moves on serves the nearest non-empty lane after its origin |
| `OutboundQueueFairness.FairPop` | dactor/src/outbound_queue.rs:226-313 | a fair pop is either a stream pop that leaves the rotation alone or one step of the rotation |
| `OutboundQueueFairness.ServingReducesWait` | dactor/src/outbound_queue.rs:301-323 | every priority pop that serves another lane strictly lowers the bound on a waiting lane's wait |
| `OutboundQueueFairness.WorstWaitFormula` | dactor/src/outbound_queue.rs:301-323 | for a limit above 1 the worst wait behind m lanes is max·m(m+1)/2 − (m − 1) |
| `OutboundQueueFairness.WaitBoundSize` | dactor/src/outbound_queue.rs:301-323 | that bound is at most the worst wait of m lanes, m being the number of other waiting lanes |
| `OutboundQueueFairness.FairStarvationBound` | dactor/src/outbound_queue.rs:301-323 | without pushes, a lane that has not been served has let others pass at most as often as the worst wait says, hence at most max·m(m+1)/2 times, in at most 20·max + 1 pops in all |
| `OutboundQueueWorstWait.PopOnSchedule` | dactor/src/outbound_queue.rs:301-323 | each pop takes the worst schedule one point further: another lane is served, and one pop fewer is left |
| `OutboundQueueWorstWait.PopsOnSchedule` | dactor/src/outbound_queue.rs:226-323 | n pops of a queue on schedule serve other lanes n times and the waiting lane never |
| `OutboundQueueWorstWait.FillFills` | dactor/src/outbound_queue.rs:199-217 | pushes alone bring the lanes to any lengths |
| `OutboundQueueWorstWait.WorstWaitIsReached` | dactor/src/outbound_queue.rs:301-323 | for every limit and up to four other lanes, a queue filled by pushes lets them pass exactly as often as the worst wait says while lane 4 waits |
| `OutboundQueueWorstWait.WorstWaitIsExact` | dactor/src/outbound_queue.rs:301-323 | a bound on the wait holds in all runs of pops from all reachable states if and only if it is at least the worst wait |
| `OutboundQueueFairness.NoLaneExceedsItsTurn` | dactor/src/outbound_queue.rs:301-313 | under any pushes, no lane gives more than `max_consecutive` successive priority pops while another is non-empty throughout |
| `OutboundQueueFairness.OnePopEachServes` | dactor/src/outbound_queue.rs:301-323 | with `max_consecutive` = 1 every pop of another lane uses up one of at most four passes, under any pushes |
| `OutboundQueueFairness.RefillStarves` | dactor/src/outbound_queue.rs:301-323 | with a larger limit, two lanes that are refilled in turn keep lane 4 waiting for any number of rounds |
| `OutboundQueueFairness.StarvationFreeIffOnePopEach` | dactor/src/outbound_queue.rs:301-323 | over all runs with pushes some bound on the wait exists if and only if `max_consecutive` is 1, and then it is four |
| `OutboundQueueAging.AgedEntriesArePrefix` | dactor/src/outbound_queue.rs:91-102 | whatever precedes an aged entry in the vector is aged as well |
| `OutboundQueueAging.AgedHeadIsBest` | dactor/src/outbound_queue.rs:91-102 | an aged head of the vector is what the scan picks |
| `OutboundQueueAging.AgedEntriesLeaveInTurn` | dactor/src/outbound_queue.rs:207-289 | over any run of pushes and pops the entries that were aged at its start leave first, in vector order |
| `OutboundQueueAging.AgedEntryIsNotStarved` | dactor/src/outbound_queue.rs:207-289 | an aged entry at index i has left once i + 1 priority pops have been made, whatever is pushed meanwhile |
| `Persistence.InMemoryStorage.constructor` | dactor/src/persistence.rs:249-258 | the storage starts with no records |
| `Persistence.InMemoryStorage.WriteEvent` | dactor/src/persistence.rs:268-283 | appends one entry to the journal of its id and to no other; a fault writes nothing |
| `Persistence.InMemoryStorage.WriteEventBatch` | dactor/src/persistence.rs:285-300 | appends all entries in order, or none |
| `Persistence.InMemoryStorage.ReadEvents` | dactor/src/persistence.rs:302-318 | returns the entries from a sequence id on, in order |
| `Persistence.InMemoryStorage.DeleteEvents` | dactor/src/persistence.rs:330-341 | keeps exactly the entries after a sequence id, in order |
| `Persistence.InMemoryStorage.SaveSnapshot` | dactor/src/persistence.rs:345-358 | appends a snapshot |
| `Persistence.InMemoryStorage.LoadLatestSnapshot` | dactor/src/persistence.rs:360-368 | returns the snapshot saved last |
| `Persistence.InMemoryStorage.DeleteSnapshotsBefore` | dactor/src/persistence.rs:370-381 | keeps exactly the snapshots from a sequence id on |
| `Persistence.EventSourcedActor.Persist` | dactor/src/persistence.rs:460-475 | journal first, then apply: an error leaves journal and actor as they were |
| `Persistence.EventSourcedActor.PersistBatch` | dactor/src/persistence.rs:477-505 | one numbered entry per event in one write, then all applied; an error changes nothing |
| `Persistence.EventSourcedActor.SerializeAll` | dactor/src/persistence.rs:486-496 | entries numbered after the actor's last sequence id; the first event that fails to serialize fails all |
| `Persistence.EventSourcedActor.ApplyAll` | dactor/src/persistence.rs:500-502 | the loop folds `apply` over the events |
| `Persistence.EventSourcedActor.Snapshot` | dactor/src/persistence.rs:507-513 | saves the actor's state under its last sequence id and leaves the actor alone |
| `Persistence.EventSourcedActor.RecoverOnce` | dactor/src/persistence.rs:664-694 | snapshot, read, decode, replay; nothing is replayed unless everything decodes |
| `Persistence.EventSourcedActor.DeserializeAll` | dactor/src/persistence.rs:680-686 | decodes all entries or returns the first error |
| `Persistence.EventSourcedActor.Replay` | dactor/src/persistence.rs:689-692 | the loop folds the events and takes over the last entry's sequence id |
| `Persistence.EventSourcedActor.Recover` | dactor/src/persistence.rs:623-662 | makes tries up to the first success or the policy's limit and no more; the result is that of the skip, the last try or the first error; it sleeps the scheduled delays between tries |
| `Persistence.BackoffIsCappedDoubling` | dactor/src/persistence.rs:638-646 | the k-th later delay is min(initial_ms · 2^k, 30000) milliseconds |
| `Persistence.AttemptsBeforeLastFail` | dactor/src/persistence.rs:638-652 | every try before the last failed, and the last succeeded unless it was the last one allowed |
| `Persistence.StopsAtFirstSuccess` | dactor/src/persistence.rs:638-652 | conversely, the number of tries is the only one with that property |
| `PersistenceReports.FirstErrorIsReported` | dactor/src/persistence.rs:632-658 | whatever is stored: a policy that skips reports success; any other reports success if and only if one of its tries succeeds (one for `Stop`, max(1, n) for n attempts, three without a number), and otherwise makes them all and reports the error of the first |
| `PersistenceReports.SecondErrorIsNotReported` | dactor/src/persistence.rs:638-652 | of two tries that fail with different errors the first error is reported |
| `Persistence.SleepsAreCappedIff` | dactor/src/persistence.rs:638-646 | no sleep exceeds 30 seconds if and only if the initial delay does not or a single try is allowed |
| `Persistence.FirstSleepCanExceedCap` | dactor/src/persistence.rs:638-646 | an initial delay of a minute is slept in full, and the next sleep is half a minute |
| `PersistenceRuns.PersistIsBatchOfOne` | dactor/src/persistence.rs:460-505 | a persist is a batch of one event |
| `PersistenceRuns.BatchIsSuccessivePersists` | dactor/src/persistence.rs:460-505 | a batch that succeeds leaves the journal, state and sequence id of successive persists; one that fails leaves everything as it was |
| `PersistenceRuns.StepKeepsInv` | dactor/src/persistence.rs:268-512 | every allowed operation keeps the journal consecutive and true to the history, the snapshots true to its prefixes and the actor at a prefix |
| `PersistenceRuns.RunKeepsInv` | dactor/src/persistence.rs:268-512 | so does every run |
| `PersistenceRuns.RecoveryReachesHistory` | dactor/src/persistence.rs:664-694 | a recovery without a fault brings any actor at a prefix of the history to its end; with one it leaves it at a prefix |
| `PersistenceRuns.RecoveryEqualsHistory` | dactor/src/persistence.rs:460-694 | after any run with failures, compaction, crashes and recoveries, a running, a fresh and a re-recovered actor all hold the fold of every event ever persisted, with their count as sequence id, and the journal is consecutive |
| `PersistenceRuns.FailedRecoveryAppliesNothing` | dactor/src/persistence.rs:664-694 | a failed recovery leaves the actor as it was or exactly at the restored snapshot, with no event applied |
| `PersistenceRuns.UndecodableEntryFails` | dactor/src/persistence.rs:680-686 | decoding fails exactly when some entry does not decode |
| `PersistenceReports.EntriesReport` | dactor/src/persistence.rs:486-496 | a batch's entries have consecutive numbers, the actor's event type and each event's payload, or the error is that of the first event that does not serialize |
| `PersistenceReports.DecodeReport` | dactor/src/persistence.rs:680-686 | decoding gives each entry's event, in order, or the error of the first entry that does not decode |
| `PersistenceReports.PersistReports` | dactor/src/persistence.rs:460-475 | a persist returns the number of events persisted so far, or the codec's error, else the storage's, and then changes nothing |
| `PersistenceReports.PersistBatchReports` | dactor/src/persistence.rs:477-505 | so does a batch, which succeeds exactly if it is empty or all its events serialize and the storage has no fault |
| `PersistenceReports.SnapshotReports` | dactor/src/persistence.rs:507-513 | a snapshot covers all events persisted so far with the payload of their fold, or reports the codec's error, else the storage's, and then changes nothing |
| `PersistenceReports.EntriesCarryTheirType` | dactor/src/persistence.rs:460-505 | over any run every entry in the journal carries the actor's event type |
| `PersistenceReports.DeletionKeepsExactly` | dactor/src/persistence.rs:370-381 | after deleting the snapshots before an id, exactly those from the id on are left, in order |
| `PersistenceReports.RecoveryReports` | dactor/src/persistence.rs:664-694 | for any store: which of the possible errors fails a recovery, and otherwise the state and sequence id that it ends at |
| `PersistenceRuns.RetryReachesHistory` | dactor/src/persistence.rs:632-652 | among retries each attempt starts at a prefix of the history, and exactly those without a fault succeed and complete it |
| `PersistenceRuns.RetrySucceedsIff` | dactor/src/persistence.rs:623-652 | a recovery that may not be skipped succeeds if and only if one of the tries its policy allows meets no fault, and then it holds the fold of the whole history |
| `PersistenceRuns.UnlimitedRetryGivesUp` | dactor/src/persistence.rs:638-638 | with `max_attempts: None` a storage that works from the fourth try on is given up on |
| `PersistenceRuns.DeletionIsSafeIffBehindSnapshot` | dactor/src/persistence.rs:330-341 | after deleting events up to an id, recovery still replays everything since the latest snapshot if and only if the id is not beyond that snapshot |
| `PersistenceRuns.HoldsTells` | dactor/src/persistence.rs:654-694 | a store that holds a history, as every run leaves it, meets the weaker condition of these lemmas, under which payloads may have become unreadable, and is itself readable |
| `PersistenceRuns.ReadPartIsRead` | dactor/src/persistence.rs:664-694 | a recovery depends on the latest snapshot and the entries after it, and on nothing else in the store |
| `PersistenceRuns.SkippedIsDefaultIff` | dactor/src/persistence.rs:654-694 | whatever is stored, after a failed recovery that is skipped the actor is the default one if and only if no snapshot was loaded and decoded, or one that is the default state at id 0 |
| `PersistenceRuns.SkippedStandsAt` | dactor/src/persistence.rs:654-694 | it stands at a prefix of the history: the restored snapshot's, or none at all; also when payloads in the store no longer decode |
| `PersistenceRuns.SafeToSkipIsCaughtUp` | dactor/src/persistence.rs:654-694 | that prefix is the whole history if and only if the guard on store and faults holds: a snapshot was restored and nothing in the journal is younger, or nothing was ever stored |
| `PersistenceRuns.SkippedPersistsContinueIff` | dactor/src/persistence.rs:654-694 | the events persisted after the skip continue the journal consecutively if and only if that guard holds, also when payloads in the store no longer decode |
| `PersistenceRuns.SkippedPersistsAreLost` | dactor/src/persistence.rs:654-694 | a later recovery succeeds if and only if the latest snapshot and the entries after it were readable; it then finds the history and those events, except the first ones, as many as a snapshot that was not restored covers, and its sequence id counts all events if and only if the guard holds; otherwise it finds none of them |
| `BankAccount.BytesRoundTrip` | dactor/examples/event_sourcing.rs:71-102 | little-endian bytes read back as the number written |
| `BankAccount.NumberRoundTrip` | dactor/examples/event_sourcing.rs:79-102 | writing the number read from bytes gives the bytes back |
| `BankAccount.LeByteAt` | dactor/examples/event_sourcing.rs:71-77 | byte i of a number written is its i-th digit to base 256 |
| `BankAccount.EventBytes` | dactor/examples/event_sourcing.rs:71-77 | an event is written as `D:` or `W:` and the eight bytes of its amount, least significant first |
| `BankAccount.DecodingReports` | dactor/examples/event_sourcing.rs:79-102 | which payloads decode, and with which error the others are refused |
| `BankAccount.CodecsRoundTrip` | dactor/examples/event_sourcing.rs:71-102 | every event and every balance decodes to what was encoded, which is what recovery asks of a codec |
| `BankAccount.DecodesExactlyEncodings` | dactor/examples/event_sourcing.rs:79-90 | a payload decodes to an event exactly when it starts with that event's encoding |
| `BankAccount.BalanceIsNet` | dactor/examples/event_sourcing.rs:64-69 | the balance is deposits less withdrawals, modulo 2^64 |
| `BankAccount.AccountRecoversItsBalance` | dactor/examples/event_sourcing.rs:61-112 | after any allowed run a fresh account recovers the net of all events ever persisted |
| `BankAccount.CompactedStore` | dactor/src/persistence.rs:330-341 | depositing, saving a snapshot and deleting what it covers leaves a snapshot and an empty journal |
| `BankAccount.SkippedAccountIsNotDefault` | dactor/src/persistence.rs:654-694 | from that store, a skipped recovery that could not read the journal starts with the snapshot's balance |
| `BankAccount.SkippedDepositIsLost` | dactor/src/persistence.rs:654-694 | from that store, a skipped recovery that could not load the snapshot persists a deposit under id 1, and the next recovery does not see it |
| `BankAccount.SkippedDepositReusesId` | dactor/src/persistence.rs:654-694 | a skipped recovery that could not read the journal persists a deposit under an id that the journal holds already |
| `Metrics.ActorMetricsHandle.constructor` | dactor/src/metrics.rs:185-195 | a handle starts with no counts and no buckets |
| `Metrics.ActorMetricsHandle.EvictExpired` | dactor/src/metrics.rs:134-143 | drops buckets from the front as long as they are older than the window |
| `Metrics.ActorMetricsHandle.CurrentBucket` | dactor/src/metrics.rs:145-162 | leaves a bucket at the back that is younger than a bucket duration, opening one if need be |
| `Metrics.ActorMetricsHandle.RecordMessage` | dactor/src/metrics.rs:197-207 | counts the message in total, in its bucket and by type, and touches no other figure |
| `Metrics.ActorMetricsHandle.RecordError` | dactor/src/metrics.rs:209-215 | counts the error in total and in its bucket |
| `Metrics.ActorMetricsHandle.RecordLatency` | dactor/src/metrics.rs:217-222 | keeps the latency in its bucket and touches no counter |
| `Metrics.ActorMetricsHandle.TakeSnapshot` | dactor/src/metrics.rs:234-295 | the totals, and in its other fields the windowed counts, the counts by type and the latencies of the active buckets, each at its own clock reading |
| `Metrics.MergeCounts` | dactor/src/metrics.rs:243-250 | merging adds the counts key by key |
| `MetricsWindow.RunKeepsInv` | dactor/src/metrics.rs:134-222 | over any run the buckets split a suffix of the recordings into consecutive stretches, each summarized exactly; what precedes them is out of date |
| `MetricsWindow.RecordingMovesWindow` | dactor/src/metrics.rs:134-162 | a recording drops exactly the front buckets that began more than a window ago, and opens a bucket exactly when none is left or the last began at least a bucket's duration ago |
| `MetricsWindow.WindowIsSuffix` | dactor/src/metrics.rs:165-180 | all windowed figures are exactly those of one suffix of the recordings, which contains everything younger than the window less a bucket and nothing older than the window |
| `MetricsSnapshot.SnapshotIsNestedSuffixes` | dactor/src/metrics.rs:234-265 | the four figures of a snapshot, read at four successive instants, are exact for four nested suffixes of the recordings, each within the age bounds of its instant; the suffixes coincide if and only if no bucket leaves the window between the first reading and the last |
| `MetricsSnapshot.SameBucketsIff` | dactor/src/metrics.rs:164-180 | two readings see the same buckets if and only if none leaves the window between them, whatever the buckets |
| `MetricsSnapshot.OneSuffixIff` | dactor/src/metrics.rs:234-265 | figures of four nested suffixes are those of some single suffix if and only if nothing was torn: no message lies between the starts of the message and type suffixes, and no latency that left follows a message that left or a counted error |
| `MetricsSnapshot.SnapshotIsOneSuffixIff` | dactor/src/metrics.rs:234-265 | over any run and readings, all figures of a snapshot are those of one suffix of the recordings if and only if nothing was torn, which is so if no bucket leaves between the readings |
| `MetricsSnapshot.SnapshotCanBeTorn` | dactor/src/metrics.rs:234-265 | a message and a latency recorded at the same instant, of which a snapshot shows only the message; no suffix has these figures |
| `MetricsWindow.WindowedCountIsSandwiched` | dactor/src/metrics.rs:165-180 | the windowed count lies between the exact counts for (window − bucket duration) and for the window |
| `MetricsWindow.BucketsAreBounded` | dactor/src/metrics.rs:134-162 | after any recording there are at most window / bucket_duration + 1 buckets |
| `CircuitBreaker.CircuitBreakerInterceptor.constructor` | dactor/src/circuit_breaker.rs:103-111 | an interceptor starts without recorded states |
| `CircuitBreaker.CircuitBreakerInterceptor.StateFor` | dactor/src/circuit_breaker.rs:114-119 | an unknown actor's breaker is closed |
| `CircuitBreaker.CircuitBreakerInterceptor.OnReceive` | dactor/src/circuit_breaker.rs:127-164 | one transition of this actor's breaker; every other actor's is untouched |
| `CircuitBreaker.CircuitBreakerInterceptor.OnComplete` | dactor/src/circuit_breaker.rs:166-216 | likewise for a completed message |
| `CircuitBreaker.CircuitBreakerInterceptor.PruneErrors` | dactor/src/circuit_breaker.rs:55-63 | drops timestamps from the front as long as they are older than the window |
| `CircuitBreakerRuns.PruningIsFiltering` | dactor/src/circuit_breaker.rs:55-63 | on sorted times, dropping from the front equals filtering by age |
| `CircuitBreakerRuns.DequeIsWindow` | dactor/src/circuit_breaker.rs:181-215 | over any run the deque is the errors since the last successful probe that lie within the window of the latest |
| `CircuitBreakerRuns.OpensExactlyAtThreshold` | dactor/src/circuit_breaker.rs:181-199 | a closed breaker opens on an error exactly when the errors within the window of it reach the threshold, and the `as u32` cast never truncates |
| `CircuitBreakerRuns.HalfOpenIffProbing` | dactor/src/circuit_breaker.rs:140-216 | on every reachable state half-open means that a probe is in flight |
| `CircuitBreakerRuns.ReceiveOnReachable` | dactor/src/circuit_breaker.rs:127-164 | over any run: a closed breaker admits and does not change; an open one admits a probe exactly from a cooldown after it opened on; a half-open one refuses; a refusal changes nothing |
| `CircuitBreakerRuns.OneProbeAtATime` | dactor/src/circuit_breaker.rs:140-164 | in any state that is not closed, once a message is admitted every other is refused until something completes |
| `CircuitBreakerRuns.ProbeDecides` | dactor/src/circuit_breaker.rs:166-216 | a probe that succeeds makes the breaker as new: every later run is that of a new one; one that fails opens it again at that instant |
| `CircuitBreakerRuns.AdmitsBelowThreshold` | dactor/src/circuit_breaker.rs:127-216 | a new breaker, so one whose probe succeeded, stays closed and admits every message as long as fewer errors than the threshold have been completed, whatever the clock |
| `CircuitBreakerRuns.BreakerRecovers` | dactor/src/circuit_breaker.rs:127-216 | a run that opens at an error, closes after a probe and admits the next message |
| `CircuitBreakerRuns.NothingAdmittedDuringCooldown` | dactor/src/circuit_breaker.rs:140-164 | whatever happens after an opening, nothing is admitted before the cooldown has elapsed |
| `CircuitBreakerRuns.ProbesAreSpaced` | dactor/src/circuit_breaker.rs:140-216 | as long as probes fail, admissions are at least a cooldown apart |
| `CircuitBreakerRuns.FailingProbesAreRateLimited` | dactor/src/circuit_breaker.rs:140-216 | hence n + 1 failing probes span at least n cooldowns |
| `Pipeline.FirstWrapperIsOutermost` | dactor/src/interceptor.rs:472-483 | folding the wrappers in reverse nests them with interceptor 0 outermost |
| `Pipeline.CollectHandlerWrappers` | dactor/src/interceptor.rs:455-466 | one entry per interceptor, in order: none for an interceptor that does not wrap, otherwise that interceptor's own wrapping |
| `Pipeline.RactorActorState.constructor` | dactor-ractor/src/runtime.rs:98-119 | an actor starts with no send mode, token or stop reason |
| `Pipeline.RactorActorState.Handle` | dactor-ractor/src/runtime.rs:121-339 | the calls made for a message are exactly its trace; the token is kept only by a message that is stopped, and a stop reason is set exactly when a stop is requested |
| `Pipeline.RactorActorState.ReceiveAll` | dactor-ractor/src/runtime.rs:152-190 | the interceptors are asked in order up to the first that stops the message, whose rejection ends the trace; otherwise their delays add up |
| `Pipeline.RactorActorState.Finish` | dactor-ractor/src/runtime.rs:285-335 | completions, then the reply or the error action |
| `Pipeline.RactorActorState.CompleteAll` | dactor-ractor/src/runtime.rs:306-321 | every interceptor hears of completion once, in order |
| `Pipeline.NoStopInReceipts` | dactor-ractor/src/runtime.rs:312-334 | only the error action of a panicked handler requests a stop |
| `PipelineTrace.TraceOfMessage` | dactor-ractor/src/runtime.rs:152-336 | `on_receive` runs on a prefix of the interceptors, ending at the first that stops the message; every `on_complete` runs once, in order, exactly when dispatch was reached and not cancelled; the one sleep is the sum of the delays; the caller is answered at most once |
| `PipelineTrace.ReplyComesLast` | dactor-ractor/src/runtime.rs:296-309 | a reply is the last call of its message, after every `on_complete` |
| `PipelineTrace.WrappersNest` | dactor/src/interceptor.rs:455-483 | when every wrapper awaits its inner future, the wrapped dispatch enters the wrapping interceptors in order, runs the handler once and leaves them in reverse |
| `PipelineTrace.HandlerRunsUnlessSwallowed` | dactor-ractor/src/runtime.rs:228-262 | the handler runs exactly when no wrapper swallows it, and the outcome is an error exactly when it panicked or did not run |
| `PipelineOutcome.StoppedMessage` | dactor-ractor/src/runtime.rs:152-193 | the whole trace of a message whose first interceptor to answer with Drop, Reject or Retry is i: receipts up to i, the dead letter of a drop if there is a handler, and the rejection with that answer |
| `PipelineOutcome.RejectionIsFinal` | dactor-ractor/src/runtime.rs:152-193 | so it is rejected once, dead-lettered exactly if dropped, and no later interceptor, handler or completion is called |
| `PipelineOutcome.NothingRejected` | dactor-ractor/src/runtime.rs:152-193 | a message that all interceptors answer with Continue or Delay is neither rejected nor dead-lettered |
| `PipelineOutcome.PassedMessage` | dactor-ractor/src/runtime.rs:152-216 | before its dispatch it is received by all and sleeps once for the sum of the delays, if that is positive |
| `PipelineOutcome.CancellationCutsOff` | dactor-ractor/src/runtime.rs:214-283 | compared with the same message without a token: a cancelled token ends its trace before the dispatch, one that fires after k dispatch actions cuts it off there, and any other changes nothing |
| `PipelineOutcome.OutcomeIsTold` | dactor-ractor/src/runtime.rs:285-335 | the outcome is an error if the handler panics or a wrapper keeps it from running, else an ask's success for an ask with a reply, else a tell's |
| `PipelineOutcome.FinishedMessage` | dactor-ractor/src/runtime.rs:285-335 | the whole end of a message: error report, completions in order with that outcome, then a stop for the actions Stop and Escalate, or the reply |
| `PipelineOutcome.PanicUnwindsWrappers` | dactor/src/interceptor.rs:455-483 | a wrapper is entered exactly when none around it keeps it from being driven, and left exactly when it did not await, or awaited something in which nothing panicked |
| `PipelineOutcome.WrappersAreEnteredFirst` | dactor/src/interceptor.rs:455-483 | no wrapper is left before it is entered |
| `BreakerPipeline.BreakerCalls` | dactor-ractor/src/runtime.rs:152-322 | a breaker among the interceptors is asked exactly when those before it pass, hears of completion exactly when the message finishes, and only of messages it admitted |
| `BreakerPipeline.MessageKeepsInv` | dactor/src/circuit_breaker.rs:127-216 | every message keeps the breaker's invariant, wherever the breaker stands |
| `BreakerPipeline.StuckIffProbeIsLost` | dactor-ractor/src/runtime.rs:152-322 | a message leaves the breaker half-open exactly when it was admitted as a probe and then stopped by a later interceptor or cancelled |
| `BreakerPipeline.ProbeCanBeLost` | dactor-ractor/src/runtime.rs:152-322 | a run from a new breaker that leaves it half-open: an error opens it, and the probe after the cooldown is refused by the interceptor behind it |
| `BreakerPipeline.ProbeComesBack` | dactor-ractor/src/runtime.rs:152-322 | a message that meets an open breaker after its cooldown and finishes makes it as new, or, if its handler fails, opens it again at that instant |
| `BreakerPipeline.SuccessLeavesClosed` | dactor-ractor/src/runtime.rs:152-322 | a message that finishes without an error is handled and does not change a closed breaker |
| `BreakerPipeline.LastBreakerIsNeverStuck` | dactor-ractor/src/runtime.rs:152-322 | with the breaker last and no cancellation token a message never leaves it half-open |
| `BreakerPipeline.NeverHalfOpenBetweenMessages` | dactor-ractor/src/runtime.rs:152-322 | so over any run of such messages it is closed or open between them |
| `BreakerPipeline.HalfOpenBetweenMessagesIsForever` | dactor/src/circuit_breaker.rs:154-163 | a breaker left half-open never changes again, and nothing is dispatched through it |
| `Stream.NewBatchConfig` | dactor/src/stream.rs:145-151 | the configuration keeps the delay, and its limit is the clamped one that the writer uses for the limit asked for |
| `Stream.BatchChannel.constructor` | dactor-ractor/src/runtime.rs:651-652 | a channel starts empty with both ends open |
| `Stream.BatchWriter.constructor` | dactor/src/stream.rs:167-174 | a writer starts with an empty buffer and no deadline |
| `Stream.BatchWriter.Push` | dactor/src/stream.rs:178-189 | buffers the item, sets the deadline at the first item of a batch, and flushes a full buffer |
| `Stream.BatchWriter.Flush` | dactor/src/stream.rs:192-203 | sends the buffer as one batch unless it is empty; a dropped consumer loses it with an error |
| `Stream.BatchWriter.CheckDeadline` | dactor/src/stream.rs:206-213 | flushes exactly when a deadline is set and has passed |
| `Stream.BatchReader.constructor` | dactor/src/stream.rs:234-239 | a reader starts with no current batch |
| `Stream.BatchReader.Recv` | dactor/src/stream.rs:243-256 | takes from the current batch, else from the next non-empty one |
| `Stream.RecvTakesOldest` | dactor/src/stream.rs:243-256 | receiving takes the oldest undelivered item, and reports none only when there is none |
| `StreamReports.WriterReports` | dactor/src/stream.rs:178-213 | when each operation makes the buffer leave, as one batch; a dropped consumer loses it and the operation reports so; otherwise nothing is sent and the item waits under the deadline of the first |
| `StreamReports.PushesFillBatches` | dactor/src/stream.rs:178-203 | as long as items are only pushed and received, every batch has exactly max_items items, or one if that is 0 |
| `StreamReports.DroppedConsumerLosesBatches` | dactor/src/stream.rs:192-203 | over any run after the consumer was dropped nothing is sent, what is pushed is lost in batches or waits, and each batch lost is reported by one error |
| `StreamReports.ReaderReports` | dactor/src/stream.rs:243-256 | from any batches the oldest item is received, and when there is none the end is reported exactly if the writer was dropped |
| `Stream.BatchRoundTrip` | dactor/src/stream.rs:178-256 | over any interleaving of push, flush, check and receive the received items followed by what is in transit are exactly the pushed ones; batches have 1 to max_items items; a deadline is set exactly while the buffer is non-empty |
| `BatchPump.TimerAlwaysFlushes` | dactor-ractor/src/runtime.rs:666-668 | whenever the timer branch fires, the check finds the deadline passed and flushes |
| `BatchPump.LoopKeepsInv` | dactor-ractor/src/runtime.rs:653-682 | after any arrivals nothing is lost, buffered items are at most a delay apart, and every batch so far was prompt |
| `BatchPump.PumpIsPrompt` | dactor-ractor/src/runtime.rs:653-682 | the pump delivers exactly the arrived items in order, and none waits longer than (max_items − 1)·max_delay |
| `BatchPump.TrickleReachesBound` | dactor-ractor/src/runtime.rs:653-682 | items one delay apart make the first of a full batch wait for exactly that bound |
| `BatchPump.WorstCaseWait` | dactor-ractor/src/runtime.rs:653-682 | a bound on the wait holds for all arrivals if and only if it is at least (max_items − 1)·max_delay |
| `BatchPump.DocumentedDelayHoldsIff` | dactor/src/stream.rs:113-117 | the documented bound of max_delay holds if and only if batches have at most two items or the delay is zero |
| `BatchPump.RunPump` | dactor-ractor/src/runtime.rs:653-682 | the loop over a real writer sends the batches of the specified pump, at the specified times |
| `BatchPump.AcceptItem` | dactor-ractor/src/runtime.rs:660-665 | the item branch pushes to the writer and re-arms the timer |
| `BatchPump.CloseAt` | dactor-ractor/src/runtime.rs:682-682 | the stream's end flushes the rest |
| `BatchPump.WaitUntil` | dactor-ractor/src/runtime.rs:654-669 | the timer branch runs as long as it comes before the next item |
| `BatchPump.FireTimer` | dactor-ractor/src/runtime.rs:666-668 | the timer branch checks the writer's deadline |
| `BatchedTransport.Transport.Send` | dactor/src/batched_transport.rs:165-200 | an attempt is recorded whether or not it fails |
| `BatchedTransport.BatchedTransportSender.constructor` | dactor/src/batched_transport.rs:73-79 | a sender starts with no buffers |
| `BatchedTransport.BatchedTransportSender.Send` | dactor/src/batched_transport.rs:85-107 | rejects what is not a tell without changing anything; otherwise buffers it for its node and sends the buffer when full |
| `BatchedTransport.BatchedTransportSender.FlushNode` | dactor/src/batched_transport.rs:110-119 | sends one node's buffer if it is not empty, and touches no other |
| `BatchedTransport.BatchedTransportSender.FlushAll` | dactor/src/batched_transport.rs:125-145 | attempts every non-empty buffer once, with its contents, whatever fails, empties all, and returns the first fault in visiting order |
| `BatchedTransport.FirstFaultAppend` | dactor/src/batched_transport.rs:131-144 | the error returned is the earliest in visiting order, however many follow |
| `BatchedTransport.FirstFaultIs` | dactor/src/batched_transport.rs:131-144 | it is the fault of the first node that has one, and none exactly if no node has |
| `BatchedTransport.StepKeepsNodeInv` | dactor/src/batched_transport.rs:85-145 | every locked step and every end of a transmission keeps a node's accepted envelopes equal to its taken batches followed by its buffer |
| `BatchedTransport.EnvelopesAreConserved` | dactor/src/batched_transport.rs:85-145 | under any interleaving, batches are non-empty, for one node and in push order, and buffers stay below the limit whenever the lock is free |
| `BatchedTransport.AcceptsFillBatches` | dactor/src/batched_transport.rs:85-107 | as long as nothing is flushed, every batch taken is full |
| `BatchedTransport.EveryEnvelopeHasOnePlace` | dactor/src/batched_transport.rs:85-145 | each accepted envelope is in exactly one of the buffer and the in-flight, delivered and failed batches; once every batch has been delivered, the batches in lock order and then the buffer are what was accepted |
| `BatchArrival.ArrivalsAreLocated` | dactor/src/batched_transport.rs:85-145 | each envelope that has arrived was accepted, at the position noted for it |
| `BatchArrival.ArrivalInOrderIff` | dactor/src/batched_transport.rs:85-145 | arrivals are in the order of acceptance if and only if the node's batches finish in the order in which they were taken; then they are the delivered part of what was accepted, and with the buffer all of it once every batch has been delivered |
| `BatchArrival.SequentialUseKeepsOrder` | dactor/src/batched_transport.rs:85-145 | batches finish in order if no transmission to the node begins while another is under way |
| `BatchArrival.OvertakingArrivesOutOfOrder` | dactor/src/batched_transport.rs:85-107 | a run in which the second of two envelopes arrives first |
| `DeathWatch.WatchRegistry.constructor` | dactor-ractor/src/runtime.rs:1282-1302 | a registry starts empty |
| `DeathWatch.WatchRegistry.Watch` | dactor-ractor/src/runtime.rs:1282-1302 | appends one registration for the target |
| `DeathWatch.WatchRegistry.Unwatch` | dactor-ractor/src/runtime.rs:1304-1312 | removes all registrations of the pair, and the key when none is left |
| `DeathWatch.WatchRegistry.PostStop` | dactor-ractor/src/runtime.rs:361-384 | notifies the target's watchers in registration order with the stop reason, and removes the actor as target and watcher |
| `DeathWatch.WatchRegistry.NotifyAll` | dactor-ractor/src/runtime.rs:372-384 | one notification per entry, in order, with the actor and its stop reason |
| `DeathWatch.WatchRegistry.RetainOthers` | dactor-ractor/src/runtime.rs:367-371 | removes one watcher from every list |
| `DeathWatch.RegistryIsLiveWatches` | dactor-ractor/src/runtime.rs:1282-1312 | after any history the watchers of a target are exactly the watch calls that nothing has ended, in order, and no key maps to an empty list |
| `DeathWatch.CountIsLiveCalls` | dactor-ractor/src/runtime.rs:1282-1312 | a watcher occurs once per live watch call |
| `DeathWatch.StopNotifiesExactly` | dactor-ractor/src/runtime.rs:361-384 | when a target stops each watcher is notified once per live watch call, and afterwards the stopped actor appears nowhere |
| `TaskQueue.TaskActors.constructor` | dactor/examples/task_queue.rs:367-379 | mailboxes, counters and collection start empty, without a pool |
| `TaskQueue.TaskActors.HandleSetPool` | dactor/examples/task_queue.rs:397-402 | attaches the pool and does nothing else |
| `TaskQueue.TaskActors.HandleSubmitTask` | dactor/examples/task_queue.rs:405-422 | reports the submission and sends the first attempt to the pool, if attached |
| `TaskQueue.TaskActors.TellPool` | dactor/examples/task_queue.rs:413-420 | without a pool the task is dropped |
| `TaskQueue.TaskActors.HandleTaskCompleted` | dactor/examples/task_queue.rs:425-433 | reports the completion |
| `TaskQueue.TaskActors.HandleTaskFailed` | dactor/examples/task_queue.rs:436-470 | retries below the wrapped limit, and otherwise sends the task to the collector |
| `TaskQueue.TaskActors.HandleProcessTask` | dactor/examples/task_queue.rs:295-334 | reports back exactly one completion or failure of the attempt |
| `TaskQueue.TaskActors.HandleDeadTask` | dactor/examples/task_queue.rs:233-241 | collects the dead task's id, error and attempts |
| `TaskQueue.TaskActors.HandleRecordMetric` | dactor/examples/task_queue.rs:167-176 | raises the one counter that the event names |
| `TaskQueueRuns.StepConserves` | dactor/examples/task_queue.rs:295-470 | every step, whatever message it handles, keeps taken-on tasks equal to ended ones and those in flight |
| `TaskQueueRuns.AttemptLimit` | dactor/examples/task_queue.rs:438-438 | the attempts a task gets: max_retries + 1 unless that wraps, and never none |
| `TaskQueueRuns.StepKeepsAttempts` | dactor/examples/task_queue.rs:295-470 | every step keeps attempts within the limit, and given-up tasks at it |
| `TaskQueueRuns.TasksEndExactlyOnce` | dactor/examples/task_queue.rs:295-470 | in every reachable state, for any set of ids: taken on = ended + in flight, attempts never exceed the limit, and a task that was given up has failed every one of its attempts |
| `TaskQueueRuns.DeadTaskAttempts` | dactor/examples/task_queue.rs:436-470 | in every reachable state, tasks that were given up on carry exactly max_retries + 1 attempts unless the sum wraps, and then one |
| `TaskQueueRuns.LargestRetryCountAllowsNone` | dactor/examples/task_queue.rs:436-470 | a run in which a hard task with the largest max_retries is dead-lettered after one attempt |
| `TaskQueueRuns.TasksKeepTheirSubmission` | dactor/examples/task_queue.rs:295-470 | if all submissions under an id have payload p and max_retries r, then in every reachable state every attempt, failure report and given-up task of that id has them, with the error or result that p determines, and one given up on has r + 1 attempts unless that wraps |
| `TaskQueueRuns.SixthAttemptIsLast` | dactor/examples/task_queue.rs:436-470 | so an impossible task with five retries can be given up on after its sixth attempt only |
| `TaskQueueRuns.FateOfTask` | dactor/examples/task_queue.rs:340-354 | all attempts fail exactly for impossible tasks and for hard tasks that get a single attempt |
| `TaskQueueRuns.RunIsMetered` | dactor/examples/task_queue.rs:167-176 | each counter and the events on their way to it make up the true count, in every reachable state |
| `TaskQueueRuns.NothingLostIff` | dactor/examples/task_queue.rs:405-422 | no task is lost exactly when no submission was handled before the pool was attached |
| `TaskQueueRuns.BooksBalance` | dactor/examples/task_queue.rs:404-470 | once the metrics actor has caught up, submitted = completed + dead-lettered + in flight + lost, and without the last exactly when nothing was lost |
| `TaskQueueRuns.DeadTasksAreCollectedOnce` | dactor/examples/task_queue.rs:233-241 | each task given up on is collected once, as its id, error and attempts, or is on its way to the collector once |
| `TaskQueueRuns.StepWorks` | dactor/examples/task_queue.rs:295-470 | every delivery strictly lowers the work still to be done |
| `TaskQueueRuns.RunsEnd` | dactor/examples/task_queue.rs:295-470 | every run, from any state, is no longer than the work present at its start and brought by clients |
| `TaskQueueRuns.DeliveriesEnd` | dactor/examples/task_queue.rs:295-470 | without client messages every run ends within the work it starts with |
| `TaskQueueRuns.AtRestEverythingIsSettled` | dactor/examples/task_queue.rs:295-470 | when no delivery is left, every task taken on has its outcome and the counters are exact |
| `TaskQueueRuns.RunKeepsFate` | dactor/examples/task_queue.rs:295-470 | in every reachable state no task that is bound to fail has finished, and no other was given up on |
| `TaskQueueRuns.TasksMeetTheirFate` | dactor/examples/task_queue.rs:295-470 | when no delivery is left, every task taken on and not lost was given up on if all its attempts fail, and has finished otherwise; payload and max_retries decide which |
| `Pool.LeastLoad` | dactor/src/pool.rs:208-213 | the least of the readings, attained and a lower bound |
| `Pool.Candidates` | dactor/src/pool.rs:216-222 | exactly the workers at that load, in order |
| `Pool.PoolRef.constructor` | dactor/src/pool.rs:140-153 | the counter starts at zero |
| `Pool.PoolRef.FetchAdd` | dactor/src/pool.rs:176-176 | returns the old counter and adds one, wrapping around |
| `Pool.PoolRef.NextRoundRobin` | dactor/src/pool.rs:175-178 | the old counter modulo the pool's size, advancing the counter |
| `Pool.PoolRef.NextRandom` | dactor/src/pool.rs:184-188 | the hashed old counter modulo the pool's size, advancing the counter |
| `Pool.PoolRef.NextLeastLoaded` | dactor/src/pool.rs:206-231 | the scan picks among the workers at the minimal load, advancing the counter unless there is exactly one |
| `Pool.PoolRef.SelectWorker` | dactor/src/pool.rs:236-243 | the strategy's choice; keyed pools fall back to round-robin here |
| `PoolBalance.StrategyChooses` | dactor/src/pool.rs:236-243 | what each strategy chooses at a counter value: by turns and by key the value modulo n; at random its hash modulo n; by load the least load, and among workers that share it the one at the value modulo their number; and when the counter moves |
| `PoolHash.UnmixUndoesHash` | dactor/src/pool.rs:280-286 | the hash is injective: an explicit inverse gives back every 64-bit word |
| `PoolHash.HashUndoesUnmix` | dactor/src/pool.rs:280-286 | the hash is surjective: every word is the hash of its inverse image |
| `PoolBalance.HashOfZero` | dactor/src/pool.rs:280-286 | the hash of zero is the first output of the splitmix64 generator seeded with zero |
| `PoolWords.BitsOfWord` | dactor/src/pool.rs:184-188 | counter values and 64-bit words correspond one to one: a value survives the way to its bits and back |
| `PoolWords.WordOfBits` | dactor/src/pool.rs:184-188 | and so does a word on the way to its value |
| `PoolBalance.RoundRobinIsEven` | dactor/src/pool.rs:175-178 | over any k picks without a wrap, or with a size that divides 2^64, each worker gets k/n of them, or one more where n does not divide k |
| `PoolBalance.UnevenAcrossWrap` | dactor/src/pool.rs:175-178 | a stretch around the wrap that serves worker 0 twice and the last worker never |
| `PoolBalance.WrapIsHarmlessIff` | dactor/src/pool.rs:175-178 | round-robin counts differ by at most one over all stretches if and only if the pool's size divides 2^64 |
| `PoolBalance.RandomIsReorderedRoundRobin` | dactor/src/pool.rs:180-188 | at each counter value random routing picks what round-robin picks at the hashed value, and conversely |
| `PoolBalance.HashWordIsInvertible` | dactor/src/pool.rs:280-286 | the hash permutes the counter values |
| `PoolBalance.RandomHitsAsRoundRobin` | dactor/src/pool.rs:180-188 | over all 2^64 counter values random routing picks each worker as often as round-robin does |
| `PoolBalance.RandomIsEvenOverPeriod` | dactor/src/pool.rs:180-188 | so over a whole period each worker is picked 2^64 / n times, or one more where n does not divide 2^64 |
| `PoolBalance.PicksLeastLoaded` | dactor/src/pool.rs:206-231 | with one reading the pick has the least load, and the counter moves exactly on a tie |
| `PoolBalance.PanicsIff` | dactor/src/pool.rs:206-231 | with two readings the selection panics exactly when no second reading is the minimum of the first |
| `PoolBalance.StaleReadingPanics` | dactor/src/pool.rs:206-231 | one worker whose load goes from 0 to 1 between the readings |
| `PoolBalance.EqualLoadsMeanRoundRobin` | dactor/src/pool.rs:50-55 | workers that report equal loads are served as by round-robin |
| `PoolBalance.LoadsStayLevel` | dactor/src/pool.rs:206-231 | without completions, loads within one of each other stay so, and every message adds one |
| `PoolBalance.LevelIsAverage` | dactor/src/pool.rs:206-231 | loads within one of each other are the average, rounded down, with the remainder spread one each |
| `PoolBalance.LeastLoadedIsEven` | dactor/src/pool.rs:206-231 | so each worker ends with the average load, rounded down, and exactly as many workers as the division leaves over have one more |

## Left out

- Everything the kameo and coerce adapters do: their loops repeat those of the ractor adapter.
- `DurableState` saving and recovery: a single stored value with the same retry loop as `Recover`.
- `read_highest_sequence`: the last entry's sequence id, which nothing here reads.
- Snapshot scheduling and retention (`SnapshotConfig`, `SaveConfig`) and `PersistFailurePolicy`: declared by these files, acted on elsewhere.
- `pre_recovery` and `post_recovery`: empty unless an actor type overrides them.
- Codecs depend on the event or payload alone, and a failed `restore_snapshot` leaves the state unchanged; the source's trait would let an implementation do otherwise.
- Sequence ids, counters and lengths are unbounded integers where only a practically unreachable overflow is at stake (`i64`, `usize`, the `u64` metrics counters).
- `peek`, `len`, `lane_counts` and the other read-only views of the queue; the fallback of `pop` to the other source cannot be reached when both have items.
- The standard library's sort is modelled by a stable insertion sort.
- p99, average and maximum latency and the rates per second: floating-point arithmetic over the figures whose contents are proved.
- Channel capacity and back-pressure in the batching pump: sends take no time and never block.
- The JSON encoding of a batch in `send_batch` and `unpack_batch`; a batch is the envelopes it carries.
- Headers, message ids, contexts and tracing in the message pipeline, and what an overridden `on_expand_item` does to stream items.
- Delivery to a watcher that has stopped: the notification is sent and dropped.
- Mailboxes of the task-queue example deliver in any order, which includes the order of the runtime; a send between its actors never fails.
- Workers' own counters and what is printed in the task-queue example.
- `keyed_index`: the key modulo the pool's size, with nothing to say beyond its definition.
- Pool membership, broadcast, supervision, throttling, discovery and remote nodes.
