# Hoglah: a verified model of the job queue

Hoglah is a durable job queue. A store holds every job as a row; workers claim rows under leases, gates hold a
job back until its dependencies and its label group allow it, a bridge moves jobs in from a message broker and
results out to it, and planners decide which backend, model or slot a job gets. This project models those parts
in Dafny and proves what they keep over all inputs and all runs.

`dafny verify dfyconfig.toml` checks everything.

## How the model is laid out

| files | what they model |
|---|---|
| `Jobs`, `Text`, `Decimals`, `Numbers`, `Graphs` | rows and statuses, Python's `strip` and string order, decimal text, reachability and cycles |
| `Topology`, `BatchSubmit`, `BatchStore`, `Removal`, `BatchAbort`, `BatchInterleaved` | Kahn's sort, preparing a batch, storing it item by item, alone or among others, and what taking it back does to older jobs |
| `Dependencies`, `Cascade`, `CascadeTermination`, `Labels`, `GateDeadlock` | the dependency gate and its graph search, the failure cascade, label groups, and both gates together |
| `JobTable`, `IsoTime`, `Leases`, `ExecutionOrder` | the jobs table, timestamps as text, runs of claims, heartbeats, results, reclaims and requeues, and what they imply for execution order |
| `PriorityQueue`, `TokenBuckets`, `Reservations`, `AffinityOrder`, `Affinity`, `BackendPool`, `KeepAlive`, `KeepAliveText`, `Preload`, `PreloadSafety`, `PreloadLaws` | the in-process queue, rate limits and slots, model affinity, backend dispatch, the preload planner |
| `Ndjson`, `Streaming`, `StreamFollower`, `FollowerEnds` | token streams: lines, writer, tail, follower |
| `BridgeInput`, `Ingress`, `Bridge`, `Outbox`, `OutboxRuns`, `OutboxLoss` | broker messages in, results out, with a crash between any two steps |

Code that changes things step by step is modelled by classes and methods with loops, each proved against a
specification function or a relation between the old and the new state; the laws are lemmas about those. Runs
of several processes are sequences of atomic steps: one locked store method, one broker call, or one section of
an asyncio task between two awaits.

Where the code does less than its prose says, the model follows the code:

- the client's cancel is a read followed by two unguarded writes: it hits a terminal job exactly when a terminal write landed after the read (`CancelOverwritesIff`, `SplitCancelOverwritesResult`); a worker whose claim raised overwrites a COMPLETED job as well (`UntokenedFailureOverwritesResult`);
- COMPLETED lasts exactly as long as no cancel, other untokened write, delete, or requeue that allows it comes (`CompletedIsStable`), and a label listing that raises opens the label gate (`RaisedListingRunsAhead`);
- a dependent that is not due yet cannot be claimed, so a cascade neither fails it nor returns from a cycle of such jobs (`CancelReturnsIff`, `UndueCycleNeverReturns`);
- the verdict on a `depends_on` list depends on its order exactly when the list has both an unfinished and a lost job (`OrderMattersIffMixed`);
- a batch that is given up removes or changes an older job exactly when an accepted item before the rejected one carries a stored key and removing the row with that key reaches the job (`AbortTouchesOldRowIff`, `ReusedKeyTakesOldJob`);
- a keep-alive of at most half a second is written as 0, which unloads the model (`FormatZeroIff`, `KeepAliveZeroIff`);
- the planner looks only at the first alias of a resident model before it unloads it (`UnloadIsDemandedIff`, `UnloadsDemandedModel`, `UnloadsThroughTwoAliases`); `client.py` never fills the alias table, so only a direct caller of `plan_actions` can meet this;
- a retry is read whole exactly when the reader sees the file smaller than its offset, or what it has buffered completes the first line (`RetryIsReadWholeIff`, `RegrownRetryIsMissed`);
- an idle consumer takes its oldest pending entry again exactly when it has not drained the list since it started, so an entry whose handling failed later waits for a restart (`OldestIsReadAgainIff`, `FailedEntryIsStuck`, `FailedEntryWaitsForRestart`);
- jobs that wait by dependencies and by labels can wait for each other; without a cycle of both kinds some queued job goes on (`AcyclicWaitsEnd`, `TwoJobsDeadlock`);
- a stored result can be lost exactly after a delivery of something else than the row holds, a requeue or overwrite during a publish, a cancel of a job that is published or being published, a delete, requeue, cancel or overwrite of a job whose result the broker does not have, one of the last three during another cancel, or a crash between the two writes of a cancel (`SoundIff`, `RunIsSafeIff`, `DeleteLosesIff`, `RefusedResultIsMarked`).

## Model

| member | source | states |
|---|---|---|
| Topology.TopologicalNames | src/hoglah/batch.py:27-64 | the result is a permutation of the names with every in-batch dependency first; distinct names are rejected exactly when the batch graph has a cycle, with a self-reference or with exactly the names that lead to a cycle |
| Topology.CountEdges | src/hoglah/batch.py:39-51 | the counters hold how many in-batch entries each name waits for, repetitions counted, unless some name lists itself |
| Topology.ReleaseChildren | src/hoglah/batch.py:57-60 | after a name is ordered each counter is again the number of entries still waiting, and what became ready is queued once |
| Topology.StuckExactly | src/hoglah/batch.py:61-63 | the names left when nothing is ready are exactly those that lead to a cycle |
| BatchSubmit.SplitIsJoined | src/hoglah/batch.py:100-101 | splitting a dependency text at its commas gives parts without commas that joined again are the text |
| BatchSubmit.GatherItems | src/hoglah/batch.py:84-104 | names are distinct and not blank, each with its own dependencies and new id; otherwise the error names a blank or repeated one |
| BatchSubmit.PrepareBatchItems | src/hoglah/batch.py:67-120 | a plan has distinct new ids, an order with dependencies first, and in-batch names replaced by ids; it is refused for no items, blank or repeated names, or a sort error |
| BatchSubmit.AddRowKeepsAcyclic | src/hoglah/client.py:782-795 | storing a job that nothing mentions, itself included, keeps the dependency graph acyclic |
| BatchSubmit.NoCycleNoMissing | src/hoglah/client.py:1462-1491 | in an acyclic table with all targets stored the gate speaks neither of a cycle nor of a missing job |
| BatchStore.BatchKeepsGraphSound | src/hoglah/client.py:782-800 | after each stored item the graph is acyclic and every job stored so far is told of no cycle and no missing id |
| BatchStore.NewJobsAreWellPlaced | src/hoglah/client.py:782-800 | the same for one job at any point of the batch |
| BatchStore.AcyclicCancelReturns | src/hoglah/client.py:916-930 | in an acyclic table every cancel cascade returns, whatever is due |
| BatchStore.CancelStaysInBatch | src/hoglah/client.py:799-802 | cancelling a job of the batch changes no row that was there before |
| BatchStore.BatchClient.StoreItems | src/hoglah/client.py:782-799 | items are stored in the plan's order up to the first rejected one |
| BatchStore.BatchClient.TakeBack | src/hoglah/client.py:799-802 | the enqueued jobs are removed one after the other, each with its cascade, up to the first that does not return; with new rows only, the table is restored |
| BatchStore.BatchClient.Remove | src/hoglah/client.py:2450-2461 | cancel with its cascade, then the row is gone |
| BatchStore.BatchClient.SubmitBatch | src/hoglah/client.py:764-807 | an invalid batch stores nothing and the error names a reason that holds; a complete one returns the ids of a sound plan and stores its rows, except that an item whose key is stored counts as the row that has it; a failing item leaves the removals of what was stored, which restore the table when no key is reused |
| Removal.RemovalsTouchHit | src/hoglah/client.py:2450-2461 | a row survives a series of removals as it was exactly when none of them, on the table as it is by then, removes it or reaches it by cascade |
| Removal.NewHitsNothingOld | src/hoglah/client.py:916-991 | the cascade of a job that no old row mentions reaches no old row |
| BatchAbort.AbortTouchesOldRowIff | src/hoglah/client.py:782-802 | giving up a batch removes or changes an older row exactly when an accepted item before the rejected one carries a stored key and the removal of its row hits that row |
| BatchAbort.AbortRemovesOldRowIff | src/hoglah/client.py:782-802 | the older rows that go are exactly those whose key such an item carries |
| BatchAbort.CleanupReturns | src/hoglah/client.py:799-802 | over an acyclic table the cleanup returns, given enough recursion depth |
| BatchAbort.ReusedKeyTakesOldJob | src/hoglah/client.py:782-802 | a batch of two whose first item has the key of a stored job and whose second is rejected deletes that job |
| BatchInterleaved.RunIsAcyclic | src/hoglah/store.py:346-763 | in every run in which new jobs have new ids the dependencies form no cycle |
| BatchInterleaved.BatchStaysWellPlaced | src/hoglah/client.py:782-800 | while a batch is stored among steps of workers and other clients, no stored job of it is told of a cycle or of a missing dependency, as long as nothing it needs is deleted |
| Dependencies.DependsOnCycle | src/hoglah/client.py:1442-1460 | terminates on every graph and is true exactly when the job is reachable from its own dependencies |
| Dependencies.EvalDependsOn | src/hoglah/client.py:1462-1491 | computes the verdict from one look-up per entry, each in the table of its own moment |
| Dependencies.ScanMeaning | src/hoglah/client.py:1470-1491 | ready exactly when every dependency is COMPLETED; wait only with an unfinished one, blocked only with a lost one |
| Dependencies.ReadyMeansDone | src/hoglah/client.py:1462-1491 | a ready verdict means that every listed dependency is COMPLETED |
| Dependencies.ReadyReadsIff | src/hoglah/client.py:1462-1491 | it is ready exactly when the cycle search said no, whatever it saw, and each entry names another job that was COMPLETED in the table it was looked up in |
| Dependencies.GateNeverDeadlocks | src/hoglah/client.py:1442-1491 | with a QUEUED job and none PROCESSING, some QUEUED job is not told to wait, on every graph |
| Dependencies.OrderMattersIffMixed | src/hoglah/client.py:1486-1489 | reordering the list changes the verdict exactly when it holds both an unfinished and a lost dependency and no cycle |
| Cascade.DependentsClose | src/hoglah/client.py:971-991 | when the cascade returns, the jobs it visited are closed under non-terminal dependents and settled |
| Cascade.DependentsStayBelow | src/hoglah/client.py:971-991 | it visits only jobs that depend on the failed one through non-terminal jobs |
| CascadeTermination.CancelSettlesExactlyBelow | src/hoglah/client.py:916-991 | the job is cancelled, PROCESSING dependents below it are cancelled, due QUEUED ones failed, and no other row changes |
| CascadeTermination.CancelReturnsIff | src/hoglah/client.py:971-991 | the cascade returns exactly when no cycle of undue QUEUED jobs is reachable |
| CascadeTermination.DueCascadeCloses | src/hoglah/client.py:916-991 | with everything due it returns on every graph and leaves dead exactly the non-terminal jobs below |
| CascadeTermination.UndueCycleNeverReturns | src/hoglah/client.py:987-991 | two delayed jobs that wait on each other make it recurse without end |
| CascadeTermination.JobBoard.FailBlockedDependency | src/hoglah/client.py:1493-1528 | a job that is due becomes FAILED, one that is not stays as it is |
| CascadeTermination.JobBoard.CancelOne | src/hoglah/client.py:932-969 | a non-terminal job becomes CANCELLED, as one step |
| CascadeTermination.JobBoard.FailDependents | src/hoglah/client.py:971-991 | the recursion over dependents computes the cascade |
| CascadeTermination.JobBoard.Cancel | src/hoglah/client.py:916-930 | cancel and cascade together |
| Labels.Rank | src/hoglah/labels.py:35-41 | the first position of a label in the sequence, or none |
| Labels.EvalLabelGroup | src/hoglah/labels.py:44-81 | ready exactly when every earlier-ranked peer is COMPLETED, blocked exactly when one is dead, in whatever order peers are listed |
| Labels.EvalLabelSequence | src/hoglah/client.py:1530-1548 | ready exactly when the listing raised or every earlier-ranked peer is COMPLETED; blocked exactly when it did not raise and one is dead |
| Labels.GroupNeverDeadlocks | src/hoglah/labels.py:44-81 | in a group with one sequence and nothing PROCESSING, some QUEUED job is not told to wait |
| GateDeadlock.AcyclicWaitsEnd | src/hoglah/client.py:1144-1160 | with nothing PROCESSING and no cycle of dependencies and label ranks among QUEUED jobs, some QUEUED job is told to wait by neither gate |
| GateDeadlock.TwoJobsDeadlock | src/hoglah/client.py:1144-1160 | two submissions after which both jobs wait for each other |
| IsoTime.IsoOrder | src/hoglah/store.py:30-44 | comparing stored timestamps as text is comparing instants, with microseconds left out when they are zero |
| JobTable.SQLiteJobStore.Enqueue | src/hoglah/store.py:346-420 | one new row unless a key or the id is taken; keys stay unique and a known correlation id gives back its row |
| JobTable.SQLiteJobStore.ClaimForProcessing | src/hoglah/store.py:578-612 | at instant n a QUEUED job is claimed exactly when it has no `run_at` or that is an instant no later than n; it goes to PROCESSING under the new token and nothing else changes |
| JobTable.SQLiteJobStore.Heartbeat | src/hoglah/store.py:614-634 | the lease is extended exactly for the owner of the token |
| JobTable.SQLiteJobStore.SetResult | src/hoglah/store.py:535-576 | with a token the result lands only under the lease, without one always |
| JobTable.SQLiteJobStore.ReclaimStaleLeases | src/hoglah/store.py:636-674 | exactly the listed PROCESSING rows without an expiry, or with one before the instant of the call, go back to QUEUED without a token |
| JobTable.ReclaimEachMeaning | src/hoglah/store.py:636-674 | whatever was listed, stale listed rows are recovered and every other row is as before |
| JobTable.DueAndStaleInInstants | src/hoglah/store.py:590-660 | with genuine dates a job is due from its instant on and a lease is stale once its expiry has passed |
| JobTable.SQLiteJobStore.Requeue | src/hoglah/store.py:676-704 | an allowed status is reset to QUEUED without result, lease or mark |
| JobTable.SQLiteJobStore.UpdateStatus | src/hoglah/store.py:519-533 | only status and time of one row change |
| JobTable.SQLiteJobStore.DeleteJob | src/hoglah/store.py:757-763 | only the one row goes |
| JobTable.SQLiteJobStore.MarkResultPublished | src/hoglah/store.py:782-788 | only the mark of one row changes |
| JobTable.InsertKeepsUniqueKeys | src/hoglah/store.py:320-331 | an insert keeps the two unique indexes |
| JobTable.InsertedRow | src/hoglah/store.py:346-420 | a new row is QUEUED, unpublished and without a lease, and holds the request, date and keys it was given |
| Leases.TokenIsLatestClaims | src/hoglah/store.py:535-704 | in every run a job is PROCESSING exactly while its latest claim is unfenced, and carries that claim's token |
| Leases.ClaimIsNotEarly | src/hoglah/store.py:582-600 | in every run a claim that succeeds comes no earlier than the `run_at` the job was enqueued with |
| Leases.DueClaimSucceeds | src/hoglah/store.py:588-612 | and a claim at or after it succeeds exactly when the job is QUEUED |
| Leases.LeaseEndsWithJob | src/hoglah/store.py:535-704 | in every run a job that is neither PROCESSING nor CANCELLED has no lease |
| Leases.ChangesAreStamped | src/hoglah/store.py:519-704 | every change of a stored row carries the clock reading of its step, keeps the request, date and keys, and touches result and mark only where the step is meant to |
| Leases.LandedResultIsUnfenced | src/hoglah/store.py:546-576 | a token-gated result belongs to a claim since which no other claim, reclaim, cancel, requeue, delete or result succeeded |
| Leases.OneResultPerClaim | src/hoglah/store.py:535-576 | each claim lands at most one result |
| Leases.TimedExclusivity | src/hoglah/store.py:578-674 | after a claim or heartbeat nobody else claims the job up to its expiry unless its holder's result, a cancel, an untokened write or a delete came between |
| Leases.OneLeaseLength | src/hoglah/store.py:34-44 | with one lease length for a claim and its heartbeats, each expiry from a second reading of the clock, expiries never move back, whatever the others read |
| Leases.LeaseIsExclusive | src/hoglah/store.py:578-674 | so nobody else claims the job up to the reading plus the lease length, with the same exceptions |
| Leases.ReclaimIsRowByRow | src/hoglah/mongo_store.py:325-372 | a scan followed by one compare-and-set per row is covered: reclaiming a list is reclaiming row by row |
| Leases.Perform | src/hoglah/store.py:346-763 | every locked method of the store is one step of the run |
| Leases.CancelOverwritesIff | src/hoglah/client.py:932-954 | a cancel that read an open job marks a terminal one exactly when a terminal write landed in between that no requeue or delete undid |
| Leases.SplitCancelOverwritesResult | src/hoglah/client.py:932-969 | a run in which a cancel reads PROCESSING and then overwrites the COMPLETED result |
| Leases.UntokenedFailureOverwritesResult | src/hoglah/client.py:1357-1369 | a run in which a worker without a token overwrites the COMPLETED result of another |
| ExecutionOrder.CompletedSurvivesStepIff | src/hoglah/store.py:519-763 | a COMPLETED job survives a step exactly when it is not a cancel, an overwrite with another status, a delete, or a requeue that allows COMPLETED |
| ExecutionOrder.CompletedIsStable | src/hoglah/store.py:519-763 | so COMPLETED lasts over a stretch of a run exactly when none of these steps is in it |
| ExecutionOrder.DependencyIsDone | src/hoglah/client.py:1470-1491 | each dependency was COMPLETED at its own read, and still is when the job starts unless a step undid it |
| ExecutionOrder.PeerIsDone | src/hoglah/client.py:1530-1548 | the same for an earlier-ranked peer, if the listing did not raise |
| ExecutionOrder.ExecutionIsInOrder | src/hoglah/client.py:1160-1286 | when a job starts, every dependency is COMPLETED that nothing undid since its read, and so is every earlier-ranked peer listed without an error |
| ExecutionOrder.RaisedListingRunsAhead | src/hoglah/client.py:1545-1547 | a run in which a listing that raises starts a job ahead of an earlier-ranked peer |
| PriorityQueue.SessionPriorityQueue.Submit | src/hoglah/priority_queue.py:61-74 | a closed queue refuses, an open one takes the task under the next number |
| PriorityQueue.SessionPriorityQueue.Claim | src/hoglah/priority_queue.py:92-108 | the least task with a free key leaves the heap and the rest stays in place |
| PriorityQueue.SessionPriorityQueue.Finish | src/hoglah/priority_queue.py:110-135 | the key is freed, also when the task raised |
| PriorityQueue.Perform | src/hoglah/priority_queue.py:61-135 | every critical section of the queue is one step of the run |
| PriorityQueue.ClaimTakesLeastFree | src/hoglah/priority_queue.py:92-108 | every other task with a free key has a larger priority number than the claimed one, or the same and was submitted later; nothing is claimed only if every key is busy |
| PriorityQueue.InvHolds | src/hoglah/priority_queue.py:61-135 | placement, seriality and lane order hold in every reachable state |
| PriorityQueue.KeysRunSerially | src/hoglah/priority_queue.py:92-135 | at most one task of a key runs |
| PriorityQueue.LanesFinishInOrder | src/hoglah/priority_queue.py:92-135 | tasks of one key and priority finish in submission order, without gaps |
| PriorityQueue.TasksAreConserved | src/hoglah/priority_queue.py:61-135 | submitted equals queued plus running plus finished |
| PriorityQueue.WorkersExitOnlyWhenDrained | src/hoglah/priority_queue.py:76-135 | a worker exits only from a closed and empty queue |
| PriorityQueue.WorkersMayExitIff | src/hoglah/priority_queue.py:92-135 | and it may exit from any such queue |
| TokenBuckets.TokenBucket.TryTake | src/hoglah/client.py:107-112 | refills, then takes one token if there is one |
| TokenBuckets.TokenBucket.GiveBack | src/hoglah/client.py:114-117 | refills, then returns tokens up to the capacity |
| TokenBuckets.RefillExact | src/hoglah/client.py:97-101 | exactly the elapsed time times the rate flows in, up to the capacity, and nothing when the clock runs backwards |
| TokenBuckets.FullExact | src/hoglah/client.py:90-95 | a new bucket is full, holds ten seconds' worth or one token, and gains a sixtieth of the limit per second |
| TokenBuckets.SpendingIsCovered | src/hoglah/client.py:90-117 | what is left plus what was spent is at most what was there plus the inflow |
| TokenBuckets.RateBound | src/hoglah/client.py:85-117 | after any history, takes less refunds in a window are at most capacity plus rate times its length |
| TokenBuckets.TakeThenRefund | src/hoglah/client.py:107-117 | a take refunded later leaves the bucket as if only refilled |
| Reservations.FairShare.CheckSlots | src/hoglah/client.py:1888-1906 | true exactly when model, session and every tag is within its limit (`FitsMeans`) |
| Reservations.FitsMeans | src/hoglah/client.py:1820-1865 | a limit counts the jobs reserved here with that model, session or tag, and the PROCESSING rows of jobs that are not; a model's own limit goes before the default, and a blank value counts none |
| Reservations.FairShare.ReserveRates | src/hoglah/client.py:1908-1927 | granted whenever every bucket holds as many tokens as it is listed; all buckets are charged once per listed key, or every bucket is as if only refilled |
| Reservations.FairShare.TryReserveJob | src/hoglah/client.py:1877-1961 | granted only if the limits hold before and after the job is entered, and then whenever its buckets hold the tokens it draws, so always without a rate; a false result leaves the other reservations and every bucket as if only refilled, repeated tags included; caps are kept whatever the peers |
| Reservations.FairShare.AllWouldAllow | src/hoglah/client.py:1919-1920 | true exactly when every listed bucket holds a token once it is refilled |
| Reservations.RateKeysMean | src/hoglah/client.py:1908-1917 | a job draws one token from its session's bucket if sessions are rated, and from each rated tag's bucket one for every mention, at the configured rates |
| Reservations.FairShare.ReleaseJobReservation | src/hoglah/client.py:1963-1965 | the job's reservation is dropped and caps are kept |
| Reservations.ReservationsAreRateBounded | src/hoglah/client.py:1877-1961 | over any calls, failed ones included, the jobs that got a reservation drew no more tokens from a bucket than its capacity plus the rate times the time since it was last touched |
| Reservations.TagRateHolds | src/hoglah/client.py:1870-1961 | so the starts of jobs with a rated tag stay within ten seconds' worth, or one, plus the configured rate times the time |
| Reservations.Attempts | src/hoglah/client.py:1877-1961 | one call of the object is one such call |
| Reservations.ReservingKeepsCaps | src/hoglah/client.py:1827-1865 | a reservation that fits its own limits keeps every limit |
| Reservations.CapsMean | src/hoglah/client.py:1820-1826 | the caps bound the jobs reserved here of each model, session and tag by the configured number |
| Reservations.ReleasingKeepsCaps | src/hoglah/client.py:1963-1965 | so does a release |
| AffinityOrder.SortSorts | src/hoglah/affinity.py:52-68 | sorting by the affinity key gives a sorted permutation |
| AffinityOrder.SortedMeans | src/hoglah/affinity.py:42-68 | in the sorted page higher priorities come first, then rows passed over too long, then rows of loaded models, then older rows before newer ones |
| AffinityOrder.SortStable | src/hoglah/affinity.py:52-68 | rows that tie keep the order they came in |
| AffinityOrder.LeastGroupFirst | src/hoglah/affinity.py:48-68 | the group of the highest priority sorted by itself comes first in the one sort by the full key |
| Affinity.Flush | src/hoglah/affinity.py:48-69 | grouping by priority, sorting each group and listing the groups is one stable sort by priority, age, residency and creation time |
| Affinity.AffinityReorder | src/hoglah/affinity.py:17-78 | the loop settles every stretch of unlabelled rows where it stands; with nothing loaded it changes nothing |
| Affinity.LabelledRowsStay | src/hoglah/affinity.py:71-78 | labelled rows keep their index |
| Affinity.SegmentsAreSorted | src/hoglah/affinity.py:48-78 | each maximal unlabelled stretch of the result is the stable sort of the same stretch of the input |
| Affinity.BarrierSplits | src/hoglah/affinity.py:71-78 | what stands before a labelled row and what stands after it do not meet |
| Affinity.ReorderPermutes | src/hoglah/affinity.py:17-78 | no row is lost or repeated |
| Affinity.ReorderIdempotent | src/hoglah/affinity.py:17-78 | a second pass changes nothing |
| Affinity.ReorderStable | src/hoglah/affinity.py:52-68 | ties of a segment keep their order |
| Affinity.AgingBook.NoteSkips | src/hoglah/affinity.py:81-103 | claimed jobs leave the book, the others are dated once and counted once per sighting |
| Affinity.PassedOverGoesFirst | src/hoglah/affinity.py:42-103 | after enough polls or enough time passed over, a job precedes every job of its segment and priority that is not aged |
| BackendPool.MruMeaning | src/hoglah/dispatch.py:53-55 | the recency order lists every model used once, by last use |
| BackendPool.NoteKeepsMru | src/hoglah/dispatch.py:78-82 | the bounded deque stays the front of the unbounded recency order |
| BackendPool.BackendPool.Note | src/hoglah/dispatch.py:78-82 | noting a model extends the history and keeps each deque its front |
| BackendPool.BackendPool.PruneFailedUntil | src/hoglah/dispatch.py:89-98 | the table becomes the pruned one |
| BackendPool.PruneMeaning | src/hoglah/dispatch.py:89-98 | at most 1024 entries, none expired, and every unexpired one if they fit |
| BackendPool.PruneDropsSoonest | src/hoglah/dispatch.py:94-98 | what an overflow drops expires no later than what it keeps |
| BackendPool.PruneKeepsCooling | src/hoglah/dispatch.py:89-110 | pruning a table of legal size changes no backend's availability |
| BackendPool.BackendPool.Pick | src/hoglah/dispatch.py:100-124 | the least loaded warm candidate, or the least loaded cold one if that is freer and the warm one busy |
| BackendPool.PickBound | src/hoglah/dispatch.py:100-124 | the pick's load is at most the larger of spillover less one and the least candidate's load |
| BackendPool.PickIsDetermined | src/hoglah/dispatch.py:100-124 | the promise of a pick leaves no choice |
| BackendPool.BackendPool.Acquire | src/hoglah/dispatch.py:126-131 | the picked backend has one more lease outstanding, and in-flight counts stay the outstanding leases |
| BackendPool.BackendPool.Release | src/hoglah/dispatch.py:132-144 | on return, exception and cancellation alike the count falls by the lease given back |
| BackendPool.JustFailedIsKept | src/hoglah/dispatch.py:134-138 | a failure just recorded survives the prune that follows |
| BackendPool.RetryAvoidsFailure | src/hoglah/dispatch.py:100-138 | a retry within the cooldown avoids the backend that failed if another was available |
| BackendPool.NotesSpare | src/hoglah/dispatch.py:89-138 | a cooldown outlasts any later failures and successes while the entries that expire no earlier fit in the table |
| BackendPool.LaterRetryAvoidsFailure | src/hoglah/dispatch.py:89-138 | the same with fewer than 1024 other failures, and any successes of others, between the failure and the retry |
| KeepAlive.FormatThenParse | src/hoglah/preload.py:15-44 | reading a written setting gives the seconds, rounded half to even |
| KeepAliveText.RoundIsNearest | src/hoglah/preload.py:39 | rounding gives the nearest whole number, of two equally near ones the even one |
| KeepAliveText.SpelledIsRead | src/hoglah/preload.py:15-32 | a text of blanks, sign, digits, fraction, unit and blanks is read as its amount in seconds, a negative one as -1 |
| KeepAliveText.ReadIsSpelled | src/hoglah/preload.py:15-32 | and no other text is read |
| KeepAlive.FormatZeroIff | src/hoglah/preload.py:35-44 | the written setting is 0 exactly for positive values up to half a second |
| KeepAlive.KeepAliveMeaning | src/hoglah/preload.py:125-155 | the largest request within the limit is granted, whatever the number of jobs; there is none without a job |
| KeepAlive.KeepAliveZeroIff | src/hoglah/preload.py:125-155 | a kept model gets 0 exactly when the granted time is at most half a second |
| Preload.PlacementIsIdle | src/hoglah/preload.py:211-247 | a placement is a host that runs nothing, cooling only if the model is already there |
| Preload.PlacementOfAbsent | src/hoglah/preload.py:226-247 | a model resident nowhere goes to the lowest idle host that ran it lately, or else to the lowest idle one |
| Preload.PlacementOfWarm | src/hoglah/preload.py:226-232 | a model on an idle host stays with the lowest such host |
| Preload.RefreshPass | src/hoglah/preload.py:279-308 | the first refreshes due, host by host, as many as the plan may hold |
| Preload.ConsiderJob | src/hoglah/preload.py:322-380 | a load is decided exactly when the placed host allows it |
| Preload.PreloadPass | src/hoglah/preload.py:310-382 | loads are decided job by job, first job of each model, until the plan is full |
| Preload.FirstJobsMeaning | src/hoglah/preload.py:310-317 | one job for every model to be run next or soon |
| Preload.UnloadPass | src/hoglah/preload.py:384-410 | the first unloads due on hosts nothing else touches |
| Preload.PlanActions | src/hoglah/preload.py:250-414 | the three passes together; the final slice removes nothing |
| PreloadSafety.PlanIsSafe | src/hoglah/preload.py:250-414 | every action is due, on an idle host; no host has two actions unless they are refreshes; one load at most without totals; the cap holds |
| PreloadSafety.LoadsAreDue | src/hoglah/preload.py:322-382 | loads are of demanded models resident nowhere and not cooling, on hosts of their own |
| PreloadLaws.LoadStaysInBudget | src/hoglah/preload.py:158-188 | on a host with a known total the sizes of its residents, added up, and the size expected of the loaded model are at most the total less the margin |
| PreloadLaws.RoomMeans | src/hoglah/preload.py:158-188 | room means exactly that, with the size observed under the canonical name, else under the model's, else taken from the disk, else configured; a model of unknown size is for a job to run next |
| PreloadLaws.RefreshIsPlanned | src/hoglah/preload.py:279-308 | a plan that is not full refreshes every resident of a host at rest that a coming job asks for, with the keep-alive chosen for it |
| PreloadLaws.LoadIsPlanned | src/hoglah/preload.py:322-380 | a plan that is not full loads every absent model that a coming job asks for, on the host where it goes, unless something else is done there or there is no room; without totals one load at most |
| PreloadLaws.LoadCarries | src/hoglah/preload.py:368-380 | a load carries the keep-alive chosen for the model, the default where that is 0, and the kind of the first job that asks |
| PreloadLaws.UnloadIsPlanned | src/hoglah/preload.py:384-410 | a plan that is not full unloads from every host at rest with an unused resident, unless something else is done there |
| PreloadLaws.AbsentGoesTo | src/hoglah/preload.py:226-247 | an absent model goes to the lowest open host that ran it lately, or else to the lowest open host |
| PreloadLaws.PlacementAtRest | src/hoglah/preload.py:236-241 | one that only closed hosts have goes to the lowest of these at rest, if any host is open |
| PreloadLaws.PlacementSpillsOver | src/hoglah/preload.py:242-246 | with all of these busy, only a job to run next goes to an open host, and only if each is busy enough |
| PreloadLaws.HostHasMeans | src/hoglah/preload.py:191-200 | a host has a model exactly when a resident is the model, its canonical name, or what an alias of either stands for |
| PreloadSafety.NothingLeftOut | src/hoglah/preload.py:322-382 | a plan with room left a job's model out only because no host allows it |
| PreloadSafety.HostHasByResident | src/hoglah/preload.py:191-200 | the test of presence looks at one resident at a time |
| PreloadSafety.UnloadIsDemandedIff | src/hoglah/preload.py:391-410 | an unloaded model is demanded, by the test of presence, exactly when an alias of it other than the first is, or an alias of an alias |
| PreloadSafety.UnloadsDemandedModel | src/hoglah/preload.py:391-410 | a plan that unloads a model in use under its second alias |
| PreloadSafety.UnloadsThroughTwoAliases | src/hoglah/preload.py:391-410 | a plan that unloads a model in use under an alias of its alias |
| Ndjson.ChunkRoundTrip | src/hoglah/streaming.py:84-93 | a chunk line reads back as its record |
| Ndjson.DoneRoundTrip | src/hoglah/streaming.py:95-112 | so does a final line |
| Ndjson.RecordsAppend | src/hoglah/streaming.py:148-164 | reading in two pieces, carrying the incomplete line, is reading at once |
| Streaming.ChunkWriter.WriteChunk | src/hoglah/streaming.py:84-93 | an open attempt gains the next numbered record; otherwise nothing changes |
| Streaming.ChunkWriter.Finish | src/hoglah/streaming.py:95-112 | one final record, once; without a handle the file starts over |
| Streaming.ChunkWriter.Reset | src/hoglah/streaming.py:77-82 | a new attempt unless the stream is finished |
| Streaming.WrittenReads | src/hoglah/streaming.py:84-112 | a reader gets back exactly the records written |
| Streaming.NdjsonTail.ReadNew | src/hoglah/streaming.py:132-164 | one read with its truncation check, buffer and loop over complete lines |
| Streaming.IncrementalIsBatch | src/hoglah/streaming.py:132-164 | over a growing file, what has been read so far is what the complete lines of the text hold |
| Streaming.AnyCutsAreBatch | src/hoglah/streaming.py:132-164 | the same for any sequence of reads, from any offset and with any incomplete line in the buffer |
| Streaming.TruncationRestarts | src/hoglah/streaming.py:139-141 | a file seen smaller is read from its beginning |
| Streaming.RetryIsRead | src/hoglah/streaming.py:132-164 | a retry seen smaller than the offset is read whole; otherwise strictly fewer records arrive when a complete line is among the skipped characters, and with the offset inside the first line only that one is glued to the buffer |
| Streaming.RetryIsReadWholeIff | src/hoglah/streaming.py:139-147 | it is read whole exactly when it is seen smaller or the glued line reads as the first record |
| Streaming.RegrownRetryIsMissed | src/hoglah/streaming.py:139-147 | a retry with a first line as long as what was read loses it |
| Streaming.EmitRecords | src/hoglah/streaming.py:218-230 | the events of a batch of records up to the first final one |
| Streaming.FollowJobEvents | src/hoglah/streaming.py:198-263 | the loop over polls computes the follower's events, whose meaning `FollowerEnds` and `StreamFollower` state |
| StreamFollower.FollowerIsExact | src/hoglah/streaming.py:213-263 | over every interleaving the chunks arrive once, in order, numbered from 0, then once the status of the final record; before that, a prefix |
| StreamFollower.DecodingFollowerIsExact | src/hoglah/streaming.py:84-263 | the same for lines as the writer encodes them and a reader that decodes them |
| StreamFollower.FollowerReturns | src/hoglah/streaming.py:231-257 | the follower returns once the job is gone or terminal |
| StreamFollower.FollowerFallsBack | src/hoglah/streaming.py:248-257 | without a file the stored output arrives as one chunk, then the stored status |
| FollowerEnds.QuietFollower | src/hoglah/streaming.py:216-262 | while the job is open and no final record is read, the client gets exactly the chunks with text and heartbeats, no two within the interval and no longer gap left behind |
| FollowerEnds.FollowerOfGoneJob | src/hoglah/streaming.py:231-234 | for a job that is gone the chunks read so far arrive, then exactly one event: failed, job not found |
| FollowerEnds.FollowerOfFinalRecord | src/hoglah/streaming.py:218-225 | a final record ends the stream with its status, or "completed", and its error; what follows it is not sent |
| FollowerEnds.FollowerOfTerminalJob | src/hoglah/streaming.py:235-257 | for a terminal job without a final record the second read's chunks arrive, or the stored output if there never was a chunk, then the stored status and error |
| FollowerEnds.FollowerOfFinishedJob | src/hoglah/streaming.py:235-247 | a final record in the second read gives its status and error, or the stored ones where it has none |
| BridgeInput.ReservedFieldsStayOut | src/hoglah/kafka_bridge.py:110-194 | no message sets the idempotency key, argv, working directory, endpoint or another routing |
| BridgeInput.ParseInputMessage | src/hoglah/kafka_bridge.py:110-146 | the non-empty string under "correlation_id" in the body is the id whatever the broker's key, without one the key is, and without either the message is refused; a reply target in the body wins likewise |
| BridgeInput.AcceptedIff | src/hoglah/kafka_bridge.py:110-194 | a message is accepted exactly when it has an id, a model, a prompt or messages, fields of the right shapes, and field values the validator takes |
| BridgeInput.FieldsGoThrough | src/hoglah/kafka_bridge.py:175-192 | model, prompt, messages, kind, tags and metadata of an accepted message reach the request |
| BridgeInput.StoredAsSaid | src/hoglah/kafka_bridge.py:155-192 | the dependencies and labels that scheduling reads are those of the accepted request |
| BridgeInput.TopLevelWins | src/hoglah/kafka_bridge.py:155-163 | a field at the top level wins over the same option |
| BridgeInput.ParserRoutes | src/hoglah/kafka_bridge.py:177-194 | the stored request is routed by the message's own correlation id and has no client key |
| Ingress.NothingLostOrDoubled | src/hoglah/kafka_bridge.py:542-605 | in every run with crashes each entry is undelivered, pending, dead-lettered poison or in the table, with one row per correlation id |
| Ingress.AckComesAfter | src/hoglah/kafka_bridge.py:542-588 | an entry stops being pending only when it is settled |
| Ingress.ChecksNeverReject | src/hoglah/kafka_bridge.py:562-587 | the two safety checks after the enqueue never reject |
| Ingress.FailedEntryWaitsForRestart | src/hoglah/redis_streams.py:97-106 | once the pending list is drained, a failed entry stays pending until a crash |
| Ingress.OldestIsReadAgainIff | src/hoglah/redis_streams.py:97-106 | an idle consumer can read the oldest pending entry again exactly when it has not drained the list since its start |
| Ingress.CrashReopens | src/hoglah/redis_streams.py:97-106 | after a restart the oldest pending entry can be read again, and nothing but the consumer's place is lost |
| Ingress.FailedEntryIsStuck | src/hoglah/kafka_bridge.py:528-541 | a run after which an entry is pending, unsettled and not read again |
| Ingress.StoreStepsEvolve | src/hoglah/store.py:519-704 | the other store steps, status updates included, keep rows, requests and correlation ids |
| Ingress.RunStepsEvolve | src/hoglah/store.py:346-704 | so does every step of workers and clients other than a delete |
| Bridge.RedisStreamsTransport.Poll | src/hoglah/redis_streams.py:97-106 | after a start the oldest pending entry, else the next new one |
| Bridge.RedisStreamsTransport.Ack | src/hoglah/redis_streams.py:108-114 | the entry stops being pending unless the call fails first |
| Bridge.RedisStreamsTransport.Nack | src/hoglah/redis_streams.py:116-127 | acknowledged only if the dead letter was written |
| Bridge.MessageBridge.HandleMessage | src/hoglah/kafka_bridge.py:542-605 | poison is dead-lettered and never stored; the rest is stored before it is acknowledged and never dead-lettered, whichever call fails |
| Bridge.MessageBridge.ConsumeOnce | src/hoglah/kafka_bridge.py:515-541 | one turn of the consumer takes steps of the protocol from idle to idle, whichever call fails |
| Outbox.Publisher.ListUnpublishedTerminal | src/hoglah/store.py:790-807 | the oldest unpublished results, as many as the limit allows |
| Outbox.Publisher.PublishNow | src/hoglah/kafka_bridge.py:637-658 | the mark is set only after the broker confirmed |
| Outbox.Publisher.RepublishRows | src/hoglah/kafka_bridge.py:673-688 | each pass shrinks the backlog by what it got through and sets no other mark; it raises only at the mark of a row that is not the bridge's |
| Outbox.Publisher.RepublishUnpublished | src/hoglah/kafka_bridge.py:660-692 | ends for every batch size and failure pattern, and empties the backlog when nothing fails |
| OutboxRuns.RowsTakeTableSteps | src/hoglah/store.py:346-763 | the rows of the run change only by steps of the jobs table and by marks |
| OutboxRuns.HidesIff | src/hoglah/kafka_bridge.py:637-658 | a delivery, cancel, overwrite or requeue can hide its own job's result behind a mark exactly when it breaks the guard on marks |
| OutboxRuns.ListedGetsThrough | src/hoglah/kafka_bridge.py:609-692 | what is listed can still get through: recovered and published without a failure it is accepted and marked, and no other row changes |
| OutboxRuns.Publishes | src/hoglah/kafka_bridge.py:637-658 | one publish takes steps of the run, however its calls end |
| OutboxLoss.SoundIff | src/hoglah/kafka_bridge.py:609-692 | while no stored result can be lost, a step keeps it so exactly when it meets the guards on marks and on results |
| OutboxLoss.RunIsSafeIff | src/hoglah/kafka_bridge.py:609-692 | a run can lose nothing at any point exactly when every step of it meets the guards |
| OutboxLoss.StoredIsAcceptedOrListed | src/hoglah/kafka_bridge.py:609-692 | in such a run the broker has every result ever stored, or it is in its row and listed |
| OutboxLoss.MarkedWasAccepted | src/hoglah/kafka_bridge.py:609-658 | and it has the result of every marked job |
| OutboxLoss.DiscardsIff | src/hoglah/store.py:535-763 | a step drops the last copy of a result exactly when it is a delete, a requeue, an overwrite with another result or the second write of a cancel, on a job whose result is neither with the broker nor on its way |
| OutboxLoss.DeleteLosesIff | src/hoglah/client.py:2432-2461 | removing a job can lose its result exactly when the broker does not have it |
| OutboxRuns.RequeueLosesResult | src/hoglah/store.py:676-704 | a requeue can end with the rerun marked, not accepted and not listed exactly when a publish of the job is under way |
| OutboxRuns.RefusedDeliveryLoses | src/hoglah/client.py:1366-1377 | from every such state in which a worker has lost its claim on an open job, delivering its FAILED that the store refused can hide the job's result |
| OutboxRuns.RequeueBeforeDeliveryLoses | src/hoglah/client.py:1296-1340 | so can a requeue between storing a result and delivering it |
| OutboxRuns.LateCancelLoses | src/hoglah/client.py:942-965 | a cancel can end with its own result marked and never sent exactly when the job was published or being published |
| OutboxRuns.CutCancelLoses | src/hoglah/client.py:942-954 | a crash between the two writes of a cancel leaves a terminal job without a result, which is never listed |
| OutboxRuns.RefusedResultIsMarked | src/hoglah/client.py:1366-1377 | a run without requeue or cancel that ends with a result marked, not accepted and not listed |

## Left out

- Adapters, HTTP and CLI execution, callbacks, the command line, the web view, metrics, tracing, configuration: a run of a job is an arbitrary result.
- SQL, BSON, JSON beyond the stream records, and asyncio itself; JSON values in broker messages are a data type, and the coercion of field values is a parameter that keeps the set of fields.
- Mongo rows leave `correlation_id` out, so the bridge is modelled over SQLite rows; of the Mongo store only the reclaim's scan and compare-and-set is covered.
- The Kafka and RabbitMQ transports: Kafka commits offsets cumulatively, so an unacknowledged message can be skipped.
- Error texts, and the `updated_at` of rows that a cascade fails.
- The set of due jobs is fixed during one cascade, and Python's recursion limit is the parameter `depth`.
- ExecutionOrder.ExecutionIsInOrder: a store without a listing by group falls back to the first 10000 rows, which is not modelled.
- Cascade.DependentsClose: the cascade's own cancel of a running job is one step.
- CascadeTermination.JobBoard.CancelOne: one step as well; the read and the two writes are apart in `Leases` and `OutboxRuns`.
- The order of rows a SELECT returns, where no result depends on it, is a parameter or any order; priorities and the poll limit are not modelled, so no job is claimed to run eventually.
- Heartbeats as a timed loop, and the cancel watch, appear only as steps of a run.
- Leases.TimedExclusivity: one clock for all hosts, whose readings never run ahead of the steps they precede; with skew between hosts a lease can be reclaimed early.
- The heap of the priority queue is its sorted order, Python's `sorted` is stable insertion, and dropping the sorted prefix of the cooldowns is removing the soonest one repeatedly.
- Rate buckets are values under their keys; aliasing of bucket objects is not modelled.
- BatchStore.BatchKeepsGraphSound: external dependencies exist before the batch, since the gate fails a job with a missing one.
- BatchStore.BatchClient.SubmitBatch: the batch is one stretch without steps of others; `BatchInterleaved` covers such steps while it is being stored, not while it is taken back.
- `prepare_sequence_items` only stamps label fields.
- Files are texts of characters: a multi-byte character cut in half by a reader, and carriage returns, are not modelled; only the shapes the writer writes are decoded concretely, every other line is whatever the parser makes of it.
- StreamFollower.FollowerIsExact: one attempt, with all chunks written before the job is seen terminal and, where the result is stored before the final record, a result without output; chunks that a worker still writes while its job is being cancelled, and a retry in between (`RetryIsReadWholeIff`), are left out. The status delivered is that of the final record, which is not the stored one if the worker raises after it has finished the stream.
- `\d` is taken as the ASCII digits, and seconds are real numbers without rounding of floats.
- OutboxLoss.MarkedWasAccepted: only rows of the bridge, and no id is used twice; `stop` and its drain deadline are not modelled.
- Preload.PlanActions: the hosts have distinct indices, as the caller enumerates them.
- BackendPool.LaterRetryAvoidsFailure: failures are recorded in clock order, the noted one strictly after those before it.
- Fairness ordering between peers before affinity, `routing.py`, alias tables, retry and backoff policies: single-function facts.
