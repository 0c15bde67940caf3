# Verification of the ABP on AWS TypeScript port

A Dafny model of the stateful algorithms of the repository, with proofs about all inputs, all runs and all page splits. `dafny verify dfyconfig.toml` checks everything.

| file | models |
|---|---|
| Common.dfy | shared vocabulary: lists, stable sorting, decimal text, string order |
| EntitySerializer.dfy, EntityRoundTrip.dfy | the entity serializer with its path table as printer and parser |
| Paging.dfy, EventBoxes.dfy | page loops over a table that cuts pages where it likes |
| DescendingPlans.dfy | descending plans over an index with ties |
| KeyLayout.dfy | the key strings of the single table |
| DeepClone.dfy, MemoryCollection.dfy | the in-memory database: graph copying and optimistic concurrency |
| LeaseLock.dfy, LocalLock.dfy | the DynamoDB lease lock as a protocol, the in-process lock with hand-over |
| JobStore.dfy, JobWorkers.dfy, SerialWorkers.dfy, JobBackoff.dfy, JobRetries.dfy, WorkerPartition.dfy | background jobs: one execution, parallel workers, the default one-lock mode as a refinement of them, retry arithmetic alone and over whole runs, the split of job names |
| CacheStores.dfy, CacheRuns.dfy, DistributedCache.dfy, SingleCreation.dfy | the two cache stores and both of them under concurrent calls, unit-of-work deferral and batch reads, concurrent `getOrAdd` |
| SequentialGuid.dfy | UUID version 7 with a monotonic counter (RFC 9562) |
| AuditMerge.dfy, ExtraProperties.dfy | merging entity changes in place, and their extra properties |
| DateTimeFormat.dfy | format strings as printer and parser |

Each stateful class or loop of the source is a class or method proved against functions on values; protocols and concurrent calls are state machines over those same functions, with theorems about every run. Events that cannot happen in a state leave it unchanged, so a run is any list of events.

Where the source and its documentation, or an obvious expectation, disagree, the code is modelled and the exact condition proved:

- Serialized entities come back exactly if their nodes agree about shared paths (`RoundTrip`); a dotted key can break it, and so does a root key such as `constructor` or `toString`, because the path table inherits it.
- `deepClone` duplicates shared dates, once for every slot they stand in (`DateSharingLost`).
- A descending index scan orders ties differently from sorting in memory (`DescendingScanIff`, `DescendingWindowIff`).
- A tenant scope with a hash sign can share keys with another one (`ScopesShareListIff`, `ScopesShareItemIff`).
- `getMany` promises request order (packages/caching/src/distributed-cache.ts:54) but answers pending keys first (`GetManyInOrderIff`).
- `get` after a deferred `remove` still answers from the store (`ReadsAheadIff`).
- A next try outside the range of dates is neither retried nor abandoned (`AlwaysEnds`, `SteepBackoffLosesJob`).
- List order fails across the year 9999 and below zero (`ListOrderIff`).
- A slide of the table cache extends whatever is stored by the time it arrives: it can outlast the absolute expiration (`AlwaysOnTimeIff`, `AbsoluteIsSafeIff`), cut another client's window short (`StepKeepsPaceIff`), and make a sweep visible (`SweepInvisibleIff`).
- Merging three updates that carry the same extra property loses a value (`GroupKeepsAllIff`, `OnlyFirstAndLast`).
- Adjacent one-letter tokens of a date format read back differently (`PrintThenParseIff`).
- A lock lost during an execution lets the job run twice (`LostLockIff`).
- Renewals that overtake each other cut a lease short (`LeaseIsSafeIff`, `RenewalKeepsLeaseIff`).

Assumptions about collaborators: a query page evaluates at least one entry unless it ends the partition, filters after `Limit`, and `BatchGet` answers completely; a conditional write is atomic; `@abp/uow` runs completion handlers in registration order; `AsyncLock` and the per-job locks are exclusive; all processes share one clock; concurrency stamps and owners are fresh; a timer never fires before a millisecond has passed; the platform's date, number and bigint texts read back as written. Keys, values, ids and names that are only compared are numbers.

## Model

| member | source | states |
|---|---|---|
| EntitySerializer.Write | packages/dynamodb/src/dynamodb-entity-serializer.ts:54-79 | The stored form of a value, and the path table extended by one entry for every tagged node of the tree under its own path, later ones overwriting earlier ones. |
| EntitySerializer.WriteObject | packages/dynamodb/src/dynamodb-entity-serializer.ts:81-88 | The same for the properties of an object: function-valued properties are skipped, all others written under the joined path. |
| EntitySerializer.Serialize | packages/dynamodb/src/dynamodb-entity-serializer.ts:39-44 | The whole entity: its attributes, with the path table put under `__types` exactly if it is not empty. |
| EntityRoundTrip.ReadWritten | packages/dynamodb/src/dynamodb-entity-serializer.ts:90-114 | For every value tree and every path table: reading back what was written gives the normalized value if every present node finds its own tag, and no other, at its path, and (for distinct keys and elements) only then. |
| EntityRoundTrip.RoundTrip | packages/dynamodb/src/dynamodb-entity-serializer.ts:46-52 | Deserializing a serialized entity gives the normalized entity if and only if no root property is called `__types` and every present node finds its own tag, and no other, at its path, in the table or among what every object inherits. |
| EntityRoundTrip.DotFreeUnambiguous | packages/dynamodb/src/dynamodb-entity-serializer.ts:21-23 | Dot-free keys and non-empty root keys keep all paths apart, and away from inherited names unless a root key has one. |
| EntityRoundTrip.DotFreeRoundTrip | packages/dynamodb/src/dynamodb-entity-serializer.ts:37-44 | The round trip for all entities with dot-free keys and non-empty root keys, none of them `__types` or the name of an inherited method such as `constructor` or `toString`; null, functions and invalid dates come back as undefined. |
| EntityRoundTrip.DottedKeyBreaksRoundTrip | packages/dynamodb/src/dynamodb-entity-serializer.ts:85-85 | A concrete entity with a dotted key that does not come back: its plain string shares the path of a date. |
| EntityRoundTrip.InheritedNameBreaksRoundTrip | packages/dynamodb/src/dynamodb-entity-serializer.ts:92-110 | Every entity with an untagged, present value under a root key with an inherited name fails to come back. |
| Paging.Fetch | packages/dynamodb/src/dynamodb-queryable.ts:129-139 | However the table cuts its pages, the loop ends with exactly the first `limit` live entries in scan order. |
| Paging.CountNative | packages/dynamodb/src/dynamodb-queryable.ts:141-150 | However the table cuts its pages, the number of live entries. |
| Paging.ToPage | packages/dynamodb/src/dynamodb-queryable.ts:90-94 | One advancing page of live entries, at most the limit (never below 1) entries long; refused exactly for plans with predicates. |
| Paging.ChainYieldsAll | packages/dynamodb/src/dynamodb-queryable.ts:90-94 | Chained pages yield every live entry once, in order, and the chain ends. |
| Paging.ExecutePlan | packages/dynamodb/src/dynamodb-queryable.ts:105-119 | A plan the index can serve returns the slice of the live entries in index order; any other plan is the in-memory evaluation of the whole partition. |
| Paging.NativePlanRefinesQueryPlan | packages/dynamodb/src/dynamodb-queryable.ts:121-127 | The sliced index scan equals filtering, stable sorting, skipping and taking in memory (descending: for indexes without ties). |
| Paging.DescendingScanIff | packages/dynamodb/src/dynamodb-queryable.ts:121-139 | For distinct entities a descending scan gives what sorting in memory gives if and only if no two of them tie. |
| DescendingPlans.DescendingWindowIff | packages/dynamodb/src/dynamodb-queryable.ts:105-127 | With skip and take, over any sorted index with ties: a descending scan gives what sorting in memory gives if and only if every entity in the window has as many ties before it as after it. |
| EventBoxes.QueryBox | packages/dynamodb/src/dynamodb-event-boxes.ts:85-111 | For every page split: exactly the first `maxCount` accepted entries in index order for `maxCount >= 1`; for smaller counts what the first entry contributes. |
| EventBoxes.EventInbox.GetWaitingEvents | packages/dynamodb/src/dynamodb-event-boxes.ts:221-243 | Polling the inbox returns the first `maxCount` due, readable events the caller accepts. |
| EventBoxes.OnlyDueEvents | packages/dynamodb/src/dynamodb-event-boxes.ts:229-238 | Polled events are pending, due and accepted, and all such events are returned when there are fewer than asked for. |
| EventBoxes.OldestFirst | packages/dynamodb/src/dynamodb-event-boxes.ts:97-98 | No due event is passed over in favour of a younger one. |
| EventBoxes.EventInbox.DeleteOldEvents | packages/dynamodb/src/dynamodb-event-boxes.ts:271-288 | Afterwards the inbox holds exactly the records that were not processed or discarded before the threshold, in order. |
| DeepClone.Cloner.DeepClone | packages/memory-db/src/memory-database.ts:29-57 | Terminates on every finite graph, cycles included; leaves every existing cell as it was, finishes the copy of every node it enters, and returns the related copy, for a date one made for the slot the caller puts it in. |
| DeepClone.Cloner.CloneContainer | packages/memory-db/src/memory-database.ts:35-56 | The same for arrays, maps, sets and objects, whose copy is recorded before its elements are copied. |
| DeepClone.Clone | packages/memory-db/src/memory-database.ts:20-26 | A top-level clone: every reached node is finished, every slot with a date has a copy of its own, and the source is unchanged. |
| DeepClone.PathsCorrespond | packages/memory-db/src/memory-database.ts:29-57 | Bisimilarity: every access path leads to related values in source and clone, or to nothing in both. |
| DeepClone.NodesCorrespond | packages/memory-db/src/memory-database.ts:34-56 | Nodes at the same path have the same kind, prototype, date value, size and property names. |
| DeepClone.CloneIsSeparate | packages/memory-db/src/memory-database.ts:15-16 | No source node can be reached from the clone. |
| DeepClone.SharingKept | packages/memory-db/src/memory-database.ts:31-32 | Two paths to non-dates meet in the clone if and only if they meet in the source. |
| DeepClone.DateSharingLost | packages/memory-db/src/memory-database.ts:34-34 | Two paths that meet at a date meet in the clone if and only if they go through the same part (key or value) of the same element of the same node. |
| MemoryCollection.MemoryDatabaseCollection.Add | packages/memory-db/src/memory-database.ts:94-98 | Adds a new key, rejects a present one and then changes nothing. |
| MemoryCollection.MemoryDatabaseCollection.Update | packages/memory-db/src/memory-database.ts:100-112 | Compares stamps, rotates the stamp on success, ignores missing keys, and changes nothing on a conflict. |
| MemoryCollection.RunKeepsInv | packages/memory-db/src/memory-database.ts:100-112 | Over every interleaving of adding, reading, editing, updating and removing clients with fresh stamps, histories are chains, end in what is stored, and instances carry the stamp of the version they derive from. |
| MemoryCollection.NoLostUpdate | packages/memory-db/src/memory-database.ts:104-111 | Every stored version that was not added was written from exactly the version before it, removal and re-adding included. |
| MemoryCollection.StaleCopiesRejected | packages/memory-db/src/memory-database.ts:105-107 | In every reachable state an update succeeds if and only if its entity is stored and its copy derives from the latest version. |
| LeaseLock.DistributedLock.TryPut | packages/distributed-locking-dynamodb/src/dynamodb-abp-distributed-lock.ts:130-150 | Succeeds exactly if the item found is absent or expired before the time the request was made, and then stores the new lease. |
| LeaseLock.DistributedLock.TryAcquire | packages/distributed-locking-dynamodb/src/dynamodb-abp-distributed-lock.ts:81-96 | Against arbitrary other clients: a handle only after a successful put of this owner; timed out only after the full timeout and while a live lease was in the way; aborted only on the signal; always terminates. |
| LeaseLock.DistributedLock.Renew | packages/distributed-locking-dynamodb/src/dynamodb-abp-distributed-lock.ts:99-111 | Extends the lease, from the time it read, only of an item this owner still holds when the request arrives, and touches no other lock. |
| LeaseLock.DistributedLock.Release | packages/distributed-locking-dynamodb/src/dynamodb-abp-distributed-lock.ts:114-128 | Deletes only an item this owner still holds when the request arrives, and touches no other lock. |
| LeaseLock.LockHandle.Dispose | packages/distributed-locking-dynamodb/src/dynamodb-abp-distributed-lock.ts:46-52 | Releases once: disposing again sends nothing; the first time stops the renewal timer. |
| LeaseLock.ToTtl | packages/distributed-locking-dynamodb/src/dynamodb-abp-distributed-lock.ts:157-159 | The least whole second that leaves a full extra lease after the expiry. |
| LeaseLock.RunKeepsInv | packages/distributed-locking-dynamodb/src/dynamodb-abp-distributed-lock.ts:99-150 | The invariant of the protocol in every run, with requests delayed, reordered or lost, and a TTL sweep. |
| LeaseLock.MutualExclusion | packages/distributed-locking-dynamodb/src/dynamodb-abp-distributed-lock.ts:59-62 | At any time the lease of at most one owner runs, going by the last of its requests that was applied, and the item in the table is its own. |
| LeaseLock.LeaseExclusive | packages/distributed-locking-dynamodb/src/dynamodb-abp-distributed-lock.ts:139-139 | While a lease runs no other put in flight succeeds, however old, and the sweep cannot delete the item. |
| LeaseLock.LeaseLasts | packages/distributed-locking-dynamodb/src/dynamodb-abp-distributed-lock.ts:98-111 | If renewals were applied in order so far, some of them perhaps lost, a lease granted by a put or renewal sent at t lasts until t plus the lease duration in every continuation in which its owner does not release. |
| LeaseLock.LeaseIsSafeIff | packages/distributed-locking-dynamodb/src/dynamodb-abp-distributed-lock.ts:98-111 | An owner's lease is safe for its full time, against every order of arrival and every loss, if and only if no renewal in flight is older than the request the lease comes from. |
| LeaseLock.RenewalKeepsLeaseIff | packages/distributed-locking-dynamodb/src/dynamodb-abp-distributed-lock.ts:100-108 | An arriving renewal lets the lease granted so far survive if and only if it is not older than that lease's own request. |
| LeaseLock.StaleRenewalLosesLock | packages/distributed-locking-dynamodb/src/dynamodb-abp-distributed-lock.ts:139-141 | After any older renewal is applied, a newcomer gets the lock at any time past that renewal's own lease. |
| LeaseLock.OvertakingLeavesStale | packages/distributed-locking-dynamodb/src/dynamodb-abp-distributed-lock.ts:33-33 | A renewal that overtakes an older one always leaves it behind as a stale one. |
| LeaseLock.LostForGood | packages/distributed-locking-dynamodb/src/dynamodb-abp-distributed-lock.ts:106-106 | Once its item is gone or taken over, a holder never owns the lock again, whatever of its requests still arrives. |
| LeaseLock.FormerOwnerHarmless | packages/distributed-locking-dynamodb/src/dynamodb-abp-distributed-lock.ts:113-128 | A former owner's renewal or release never changes a successor's item and never recreates a deleted one. |
| LeaseLock.OvertakenRenewalBreaksLease | packages/distributed-locking-dynamodb/src/dynamodb-abp-distributed-lock.ts:33-33 | Such states are reachable: a run with two renewals in flight after which another owner gets the lock while the later lease still runs. |
| LocalLock.LocalKeyedLock.TryLock | packages/distributed-locking/src/local-abp-distributed-lock.ts:22-37 | The synchronous part of an attempt: holds, waits, is refused or cancelled, and the lock states after it. |
| LocalLock.LocalKeyedLock.Release | packages/distributed-locking/src/local-abp-distributed-lock.ts:82-92 | Hands over to the first waiter, or removes the key. |
| LocalLock.Releaser.Dispose | packages/distributed-locking/src/local-abp-distributed-lock.ts:71-80 | Releases once. |
| LocalLock.RunKeepsInv | packages/distributed-locking/src/local-abp-distributed-lock.ts:19-93 | In every run granted and waiting attempts of a key are in arrival order, and only the last one granted can hold it. |
| LocalLock.OneHolder | packages/distributed-locking/src/local-abp-distributed-lock.ts:20-41 | In every run a key has a state, and is locked, exactly while one attempt holds it; never two at once. |
| LocalLock.Fair | packages/distributed-locking/src/local-abp-distributed-lock.ts:67-67 | Nobody is granted a key while an earlier attempt for it still waits. |
| LocalLock.GrantsInOrder | packages/distributed-locking/src/local-abp-distributed-lock.ts:85-88 | Each attempt is granted at most once, in order of arrival. |
| LocalLock.NoLostWakeUp | packages/distributed-locking/src/local-abp-distributed-lock.ts:85-88 | While anybody waits somebody holds, and disposing that grant hands over to the earliest waiter. |
| LocalLock.EveryWaiterServed | packages/distributed-locking/src/local-abp-distributed-lock.ts:82-92 | A waiter behind i others holds the lock after i + 1 disposals. |
| LocalLock.DisposeIdempotent | packages/distributed-locking/src/local-abp-distributed-lock.ts:74-78 | Disposing a released grant changes nothing at any later time. |
| JobStore.TryExecuteJob | packages/background-jobs/src/background-job-worker.ts:134-174 | One execution on the stored object: counts the try, and leaves the store as success, execution failure or any other error demand; other rows are untouched. |
| JobStore.WaitingJobsWait | packages/background-jobs/src/background-job-store.ts:38-47 | Answered jobs are stored, waiting and match the filter, and as many are answered as asked for if there are enough. |
| JobStore.MostUrgentFirst | packages/background-jobs/src/background-job-store.ts:45-46 | No waiting job is passed over for a less urgent one. |
| JobWorkers.ExecuteJobsInParallel | packages/background-jobs/src/background-job-worker.ts:85-90 | Undisturbed, a cycle executes the first `maxParallel` fetched jobs whose locks are free, in order, among those looked at before the abort signal. |
| JobWorkers.RunKeepsInv | packages/background-jobs/src/background-job-worker.ts:96-113 | The invariant of all interleavings of fetching, claiming, looking up, checking, executing, releasing and cleaning up. |
| JobWorkers.NeverTwiceAtOnce | packages/background-jobs/src/background-job-worker.ts:87-89 | No two workers ever execute the same job at the same time. |
| JobWorkers.ExecutionsDoNotOverlap | packages/background-jobs/src/background-job-worker.ts:97-97 | Between two starts of a job its first execution has ended. |
| JobWorkers.OverIsNeverStarted | packages/background-jobs/src/background-job-worker.ts:103-104 | Once a job has succeeded or been abandoned no later entry of the log is about it, however stale the snapshots are. |
| JobWorkers.NotBeforeNextTry | packages/background-jobs/src/background-job-worker.ts:121-121 | A rescheduled job is not started before the time it was rescheduled to; never if that is no valid date. |
| JobWorkers.LostLockIff | packages/background-jobs/src/background-job-worker.ts:96-104 | If the lock of an executing job is lost, a free worker executes the job a second time if and only if the job as stored still waits for that worker. |
| JobWorkers.AtMostMaxParallel | packages/background-jobs/src/background-job-worker.ts:86-86 | A worker never claims more jobs per cycle than it may execute in parallel, and executes only claimed jobs. |
| JobWorkers.EligibleJob | packages/background-jobs/src/background-job-worker.ts:103-104 | Under the lock a job that passes the recheck is still the stored one, neither completed nor abandoned, and due. |
| JobRetries.StartsFollowBackoff | packages/background-jobs/src/background-job-worker.ts:96-113 | In every run of workers with one backoff, the starts of every job are those of a failing job: each waits for the reschedule before it. |
| JobRetries.AtMostTwelveStarts | packages/background-jobs/src/abp-background-job-worker-options.ts:32-37 | With the default backoff no job is started more than 12 times in any run, by however many workers with per-job locks. |
| JobRetries.NoEndlessRetries | packages/background-jobs/src/background-job-worker.ts:163-168 | With any growing backoff the starts of a job are bounded in every run. |
| SerialWorkers.CreatedAreApart | packages/background-jobs/src/background-job-worker-manager.ts:52-76 | Workers created from the same options, in however many processes, never take the same job unless they share a lock. |
| SerialWorkers.SerialIsParallel | packages/background-jobs/src/background-job-worker.ts:57-75 | Every run of the default mode, one lock for the worker and no second look at the job, by any number of processes, is a run of the parallel mode with the same stored jobs, the same log and the same executions. |
| SerialWorkers.NeverTwiceAtOnce | packages/background-jobs/src/background-job-worker.ts:58-59 | In the default mode no two workers ever execute the same job at the same time. |
| SerialWorkers.OverIsNeverStarted | packages/background-jobs/src/background-job-worker.ts:71-74 | Nor does anything happen to a job after it has succeeded or been abandoned, although fetched jobs are not looked up again. |
| SerialWorkers.StartsFollowBackoff | packages/background-jobs/src/background-job-worker.ts:194-199 | Every start waits for the reschedule before it, in the default mode too. |
| SerialWorkers.AtMostTwelveStarts | packages/background-jobs/src/abp-background-job-worker-options.ts:32-37 | With all defaults no job is started more than 12 times, by however many processes. |
| SerialWorkers.LostLockIff | packages/background-jobs/src/background-job-worker.ts:58-59 | If the lock of an executing worker is lost, the process that gets it executes the job a second time if and only if the job as stored still waits. |
| JobBackoff.RescheduleBound | packages/background-jobs/src/background-job-worker.ts:194-199 | The n-th reschedule lies at least the n whole-millisecond waits after the creation, whatever the polling delays, and never past the timeout. |
| JobBackoff.GeometricBound | packages/background-jobs/src/background-job-worker.ts:195-196 | The same as the geometric sum first * (factor^n - 1) / (factor - 1), exact for whole waits and off by less than n ms otherwise. |
| JobBackoff.AlwaysEnds | packages/background-jobs/src/background-job-worker.ts:197-197 | For factor > 1 every failing job stops being rescheduled after finitely many executions, and is abandoned exactly if the next date would be valid. |
| JobBackoff.SteepBackoffLosesJob | packages/background-jobs/src/background-job-worker.ts:196-198 | A backoff so steep that the next date is invalid leaves the job neither retried nor abandoned. |
| JobBackoff.DefaultsAtMostTwelve | packages/background-jobs/src/abp-background-job-worker-options.ts:33-37 | With the defaults a failing job is executed at most 12 times. |
| JobBackoff.TwelveReached | packages/background-jobs/src/abp-background-job-worker-options.ts:33-37 | And 12 executions do happen. |
| WorkerPartition.CreateWorkers | packages/background-jobs/src/background-job-worker-manager.ts:52-76 | The workers of the configurations, or the first error in checking order. |
| WorkerPartition.CreatedIff | packages/background-jobs/src/background-job-worker-manager.ts:59-71 | Creation succeeds if and only if every args type is registered, no job name and no lock is claimed twice, and every configuration names a non-blank job. |
| WorkerPartition.CompatibleMeans | packages/background-jobs/src/background-job-worker-manager.ts:61-64 | Accepted configurations are pairwise disjoint in their job names. |
| WorkerPartition.ExactlyOneWorker | packages/background-jobs/src/background-job-worker-manager.ts:73-75 | Every possible job name, blank ones included, is matched by exactly one created worker. |
| WorkerPartition.LockNamesDistinct | packages/background-jobs/src/background-job-worker-manager.ts:57-68 | All created workers have pairwise distinct lock names. |
| WorkerPartition.FilterMatches | packages/background-jobs/src/background-job-name-filter.ts:34-46 | A filter matches exactly the non-blank listed names (include) or everything else (exclude). |
| WorkerPartition.FilterNeedsName | packages/background-jobs/src/background-job-name-filter.ts:19-23 | A filter can be built exactly if it lists a non-blank name when it has a mode, and none when it has not. |
| CacheStores.MemoryDistributedCacheStore.Touch | packages/caching/src/distributed-cache-store.ts:98-108 | Answers a live entry and slides it; removes an expired one. |
| CacheStores.MemoryDistributedCacheStore.EvictExpired | packages/caching/src/distributed-cache-store.ts:117-122 | Removes exactly the expired entries. |
| CacheStores.DynamoDbDistributedCacheStore.Get | packages/caching-dynamodb/src/dynamodb-distributed-cache-store.ts:46-51 | Answers an item whose TTL has not elapsed and slides what is stored by then, whatever other clients and the sweep did in between. |
| CacheStores.DynamoDbDistributedCacheStore.Slide | packages/caching-dynamodb/src/dynamodb-distributed-cache-store.ts:152-170 | Only an item still there gets the TTL of the next expiration of what was read; without a sliding window nothing changes. |
| CacheStores.DynamoDbDistributedCacheStore.GetMany | packages/caching-dynamodb/src/dynamodb-distributed-cache-store.ts:66-77 | Every key is answered as if read by itself at its own clock reading, duplicates and batches notwithstanding; afterwards what others left is slid by what was found. |
| CacheStores.Chunk | packages/caching-dynamodb/src/dynamodb-distributed-cache-store.ts:25-29 | Batches concatenate to the list; none is empty or too long. |
| CacheStores.AnsweredIffAlive | packages/caching/src/distributed-cache-store.ts:98-115 | After a set and any accesses of the key, a value is answered exactly if no sliding window ran out between two accesses and the absolute expiration has not come. |
| CacheStores.CeilSeconds | packages/caching-dynamodb/src/dynamodb-distributed-cache-store.ts:129-129 | The least whole second not before an instant. |
| CacheRuns.AlwaysOnTimeIff | packages/caching-dynamodb/src/dynamodb-distributed-cache-store.ts:152-166 | Over every run of concurrent reads, slides, sets, removals and sweeps: at no point will a stored item be answered after its absolute expiration rounded up to seconds, if and only if no slide puts a TTL beyond that on the item it meets. |
| CacheRuns.NeverPastAbsolute | packages/caching-dynamodb/src/dynamodb-distributed-cache-store.ts:145-149 | So none is, however often items slide, as long as no slide meets an item with other expirations than were read. |
| CacheRuns.AbsoluteIsSafeIff | packages/caching-dynamodb/src/dynamodb-distributed-cache-store.ts:152-166 | A stored item keeps to its absolute expiration in every continuation that does not set it anew, if and only if no slide under way comes from a reader that met a later absolute expiration, or none, and can still write it. |
| CacheRuns.OldSlideOverstays | packages/caching-dynamodb/src/dynamodb-distributed-cache-store.ts:161-161 | A run in which another client sets an earlier absolute expiration between a read and its slide, and the item is answered long after it. |
| CacheRuns.StepKeepsPaceIff | packages/caching-dynamodb/src/dynamodb-distributed-cache-store.ts:126-170 | The table keeps pace with the memory store (what is live in memory is in the table, with a TTL that reaches as far or will when a slide under way arrives, and memory hits are table hits) across an event if and only if no read or sweep meets an item that elapsed while a slide that extends it is under way, and no slide that arrives or gets lost leaves a TTL too short. |
| CacheRuns.AlwaysInPaceIff | packages/caching-dynamodb/src/dynamodb-distributed-cache-store.ts:126-170 | The same over whole runs. |
| CacheRuns.MemoryHitsAreTableHits | packages/caching-dynamodb/src/dynamodb-distributed-cache-store.ts:126-130 | Over every such run of both stores a hit in the memory store is a hit with the same value in the DynamoDB store. |
| CacheRuns.OutOfPaceIsVisible | packages/caching-dynamodb/src/dynamodb-distributed-cache-store.ts:144-149 | If a live entry is missing in the table, differs there or has too short a TTL, there is a time at which memory hits and the table, as it stands, does not. |
| CacheRuns.CalmRunsArePrompt | packages/caching-dynamodb/src/dynamodb-distributed-cache-store.ts:46-60 | Every run in which each key is left alone between a read and its slide is such a run, whatever happens to other keys meanwhile. |
| CacheRuns.OldSlideLosesHit | packages/caching-dynamodb/src/dynamodb-distributed-cache-store.ts:161-161 | A run in which the slide of an older read shortens the window another client has just set: memory hits, the table does not. |
| CacheRuns.OverdueReadMisses | packages/caching-dynamodb/src/dynamodb-distributed-cache-store.ts:46-50 | A run without other writers in which a second read comes while the slide of the first is under way: memory hits, the table does not. |
| CacheRuns.SweepInvisibleIff | packages/caching-dynamodb/src/dynamodb-distributed-cache-store.ts:16-17 | Every run with sweeps has the same live items at every point as the same run without them, if and only if no slide in it comes to a swept item that it would have revived. |
| CacheRuns.SweepInvisible | packages/caching-dynamodb/src/dynamodb-distributed-cache-store.ts:16-17 | Then no answer of the run changes. |
| CacheRuns.AloneMissesNothing | packages/caching-dynamodb/src/dynamodb-distributed-cache-store.ts:16-17 | This is so if no key is swept while a slide of it is under way. |
| CacheRuns.SweepBetweenIff | packages/caching-dynamodb/src/dynamodb-distributed-cache-store.ts:152-166 | A sweep between the read and the slide of one operation shows if and only if the item elapses in between and the slide would revive it. |
| CacheRuns.SweepLosesHit | packages/caching-dynamodb/src/dynamodb-distributed-cache-store.ts:161-161 | A run with such a sweep and a later miss that is a hit without it. |
| DistributedCache.Cache.Set | packages/caching/src/distributed-cache.ts:251-271 | With a unit of work: pending value and one handler, store untouched; otherwise the store. |
| DistributedCache.Cache.SetMany | packages/caching/src/distributed-cache.ts:273-311 | The same for many items, with or without batch support of the store. |
| DistributedCache.Cache.Remove | packages/caching/src/distributed-cache.ts:347-367 | Marks a pending item and registers a handler; a removal of anything not pending leaves no mark. |
| DistributedCache.Cache.RemoveMany | packages/caching/src/distributed-cache.ts:369-400 | The same for many keys, with or without batch support. |
| DistributedCache.Cache.Get | packages/caching/src/distributed-cache.ts:146-165 | A pending value that is not removed, else what the store has. |
| DistributedCache.Cache.GetMany | packages/caching/src/distributed-cache.ts:167-199 | The answers of `get` in the order pending keys first (with batches and a unit of work), else in request order. |
| DistributedCache.Cache.GetOrAddMany | packages/caching/src/distributed-cache.ts:234-249 | One pair per requested key in request order; the factory gets exactly the keys without value; created values are set and returned. |
| DistributedCache.DeferredUntilCompletion | packages/caching/src/distributed-cache.ts:265-270 | For any mix of calls: the store sees only the immediate ones, completion applies the deferred ones in order, rolling back none. |
| DistributedCache.ReadWithinUow | packages/caching/src/distributed-cache.ts:149-152 | Within the unit of work a read sees the value the last deferred operation set, else the store. |
| DistributedCache.ReadsAheadIff | packages/caching/src/distributed-cache.ts:361-363 | A read within the unit of work sees what a read after completion sees, exactly unless the last deferred operation removed a key the store still holds. |
| DistributedCache.GetManyAnswersAll | packages/caching/src/distributed-cache.ts:175-185 | Every requested key is answered once per request, with what `get` answers. |
| DistributedCache.GetManyInOrderIff | packages/caching/src/distributed-cache.ts:54-55 | The answers are in request order if and only if no pending key is requested after one that is not pending. |
| DistributedCache.FactoryCalledIff | packages/caching/src/distributed-cache.ts:241-244 | The factory is called if and only if a requested key has no value or is requested twice. |
| SingleCreation.FactoryRunsAtMostOnce | packages/caching/src/distributed-cache.ts:217-232 | In every interleaving of concurrent calls on one key the factory runs at most once, and never if there was an entry. |
| SingleCreation.AllReturnTheSame | packages/caching/src/distributed-cache.ts:221-231 | All calls that have returned agree with each other and with the cache. |
| SequentialGuid.SequentialGuidGenerator.Create | packages/guids/src/sequential-guid-generator.ts:45-61 | The next tick of the clock, laid out as a UUID and printed. |
| SequentialGuid.Fill | packages/guids/src/sequential-guid-generator.ts:47-58 | The sixteen bytes: timestamp, version, sequence, variant, random bits. |
| SequentialGuid.Format | packages/guids/src/sequential-guid-generator.ts:77-84 | Two hex digits per byte and four dashes. |
| SequentialGuid.ClosedForm | packages/guids/src/sequential-guid-generator.ts:63-74 | After k calls timestamp * 4096 + sequence is the maximum of k and of n_i * 4096 + k - i over all clock readings n_i, running backwards allowed. |
| SequentialGuid.IdsIncrease | packages/guids/src/sequential-guid-generator.ts:28-32 | While timestamps fit 48 bits every id is greater, as a string, than all earlier ones, whatever the random bits. |
| SequentialGuid.IdOrderIsCallOrder | packages/guids/src/sequential-guid-generator.ts:28-32 | Ids are ordered as the calls that made them, and no id is made twice. |
| SequentialGuid.VersionAndVariant | packages/guids/src/sequential-guid-generator.ts:56-58 | The text has the UUID shape, version 7 and variant 8, 9, a or b (section 5.7 of RFC 9562). |
| SequentialGuid.DecodeGuid | packages/guids/src/sequential-guid-generator.ts:50-57 | Timestamp and sequence can be read back from the text. |
| AuditMerge.EntityChangeInfo.Merge | packages/auditing/src/audit-log-info.ts:43-48 | Merges the property changes of another change one by one. |
| AuditMerge.AuditLogInfo.MergeEntityChanges | packages/auditing/src/auditing-manager.ts:87-105 | The in-place grouping, merging and splicing yields the merged list of the values before, of the same objects. |
| AuditMerge.OneUpdatePerEntity | packages/auditing/src/auditing-manager.ts:86-86 | After merging there is one update per entity. |
| AuditMerge.OthersKept | packages/auditing/src/auditing-manager.ts:90-90 | Created and deleted changes keep content and order. |
| AuditMerge.MergedNetEffect | packages/auditing/src/audit-log-info.ts:44-47 | The merged update lists every property of the group with its first original and its last new value. |
| AuditMerge.MergeIdempotent | packages/auditing/src/auditing-manager.ts:96-104 | Merging again changes nothing. |
| AuditMerge.KeyInjective | packages/auditing/src/auditing-manager.ts:91-91 | For types without a vertical bar the group key determines type and id. |
| AuditMerge.KeysCollideIff | packages/auditing/src/auditing-manager.ts:91-91 | Two entities share a group key if and only if they are equal or the bar of one lies within the type of the other. |
| AuditMerge.BarInTypeMixesEntities | packages/auditing/src/auditing-manager.ts:91-91 | With a vertical bar in a type two different entities share a group key. |
| ExtraProperties.ExtraProperties.Merge | packages/auditing/src/audit-log-info.ts:49-51 | The extra properties of another change go in one by one, under a counted key where the key is taken. |
| ExtraProperties.CounterCounts | packages/auditing/src/audit-log-info.ts:56-62 | The counter of a plain key not ending in an underscore starts at 2 and counts up. |
| ExtraProperties.NothingLostIff | packages/auditing/src/audit-log-info.ts:49-51 | Merging keeps every value if and only if no property finds both its key and its counted key taken. |
| ExtraProperties.GroupKeepsAllIff | packages/auditing/src/auditing-manager.ts:97-104 | Merging a whole group of changes with plain keys keeps every value if and only if no key is carried by more than two of them. |
| ExtraProperties.OnlyFirstAndLast | packages/auditing/src/auditing-manager.ts:97-104 | Of a plain key that several changes of a group carry, the first value survives under the key and the last under the counted key, and no other. |
| KeyLayout.ItemKeyInjective | packages/dynamodb/src/dynamodb-keys.ts:50-52 | With '#'-free scopes no two of (scope, name, id) share an item key, even if names or ids contain '#'. |
| KeyLayout.ListPartitionsShareIff | packages/dynamodb/src/dynamodb-keys.ts:58-60 | Two lists share a partition if and only if they are the same or one scope goes on with a hash sign into the name of the other. |
| KeyLayout.ItemKeysShareIff | packages/dynamodb/src/dynamodb-keys.ts:50-52 | Two entities share an item key if and only if their names are equal and scope and id are equal or overlap at the name between hash signs. |
| KeyLayout.ScopesShareListIff | packages/dynamodb/src/dynamodb-keys.ts:58-60 | Two scopes can share the partition of some list if and only if they are equal or one goes on with a hash sign where the other ends. |
| KeyLayout.ScopesShareItemIff | packages/dynamodb/src/dynamodb-keys.ts:50-52 | The same condition decides whether two scopes can share the key of some item. |
| KeyLayout.KeysAreInScope | packages/dynamodb/src/dynamodb-keys.ts:58-72 | List partitions and scoped index partitions belong to their scope. |
| KeyLayout.ScopesAreSeparate | packages/dynamodb/src/dynamodb-keys.ts:58-72 | Different scopes never share such a partition. |
| KeyLayout.HashInScopeCollides | packages/dynamodb/src/dynamodb-keys.ts:58-60 | Two scopes, one with '#', that share a list partition. |
| KeyLayout.SortKeyOrder | packages/dynamodb/src/dynamodb-keys.ts:62-67 | How any two dated list sort keys compare, for all years JavaScript dates can have. |
| KeyLayout.ListOrder | packages/dynamodb/src/dynamodb-keys.ts:62-67 | For the years 0 to 9999 ascending list order is creation time, then id. |
| KeyLayout.ListOrderIff | packages/dynamodb/src/dynamodb-keys.ts:66-66 | For all years an earlier entity sorts first exactly unless the years cross 9999 upwards or differ below zero. |
| KeyLayout.UndatedFirst | packages/dynamodb/src/dynamodb-keys.ts:66-66 | Entities without a creation time come before all dated ones, ordered by id. |
| DateTimeFormat.DateTimeParser.ParserFor | packages/json/src/date-time-format.ts:62-79 | The pieces of the format, cached or not. |
| DateTimeFormat.DateTimeParser.TryParseExact | packages/json/src/date-time-format.ts:82-115 | The fields captured by the match, entered in order over the defaults, if month, day and time are in range. |
| DateTimeFormat.TextMatches | packages/json/src/date-time-format.ts:72-86 | What is printed is matched token by token with the numbers printed. |
| DateTimeFormat.PrintThenParse | packages/json/src/date-time-format.ts:21-115 | Parsing what was printed gives back the fields as far as the format shows them, for every format in which a one-letter token is followed, within its run of digits, only by one-letter tokens of its own field or milliseconds. |
| DateTimeFormat.TextMatchesIff | packages/json/src/date-time-format.ts:72-86 | Without digits among the literals: everything printed is matched token by token with the numbers printed, if and only if the format is of that kind. |
| DateTimeFormat.PrintThenParseIff | packages/json/src/date-time-format.ts:21-115 | Without digits among the literals and without a field mentioned twice: everything printed reads back, as far as the format shows it, if and only if the format is of that kind. |
| DateTimeFormat.FullRoundTrip | packages/json/src/date-time-format.ts:21-115 | A format that shows every field in full loses nothing. |
| DateTimeFormat.ParseThenPrint | packages/json/src/date-time-format.ts:82-115 | For fixed-width formats that mention no field twice, accepted text prints back character by character. |
| DateTimeFormat.AdjacentLettersAmbiguous | packages/json/src/date-time-format.ts:72-72 | With the format "Hm" 1:23 is printed as "123" and reads back as 12:03; "Hmm" is not ambiguous. |

## Left out

- Dependency injection, options binding, decorators, HTTP, localization, emailing, settings, features, authorization, token signing: wiring and lookups without a property beyond them.
- AWS clients: only conditional writes, pages, batch reads and the TTL sweep are modelled; unprocessed keys and items, and the delay of secondary indexes, are not.
- Store faults and `hideErrors`: the stores do not fail.
- EntitySerializer.Write: properties are kept in insertion order; the moving of integer-like keys to the front, `__proto__` keys, non-finite numbers and class prototypes of nested objects are not modelled; a root key `__proto__` would be lost.
- Paging.NativePlanRefinesQueryPlan: descending scans need an index without ties; `DescendingScanIff` and `DescendingWindowIff` say exactly when ties matter, for distinct entities.
- Paging.ToPage: `usingIndex` is not modelled.
- EventBoxes.EventInbox.DeleteOldEvents: deletes at once; the unit of work that collects the writes, and records without a text id, are not modelled. The outbox uses the same loop.
- DeepClone.Cloner.DeepClone: map and set constructors with side effects and symbol keys are not modelled.
- MemoryCollection.NoLostUpdate: covers entities that carry a stamp, added ones a fresh one, and clients that do not edit the stamp themselves; without a stamp an update overwrites unchecked.
- LeaseLock.DistributedLock.TryAcquire: time passes only while requests travel and while polling waits; requests that fail otherwise, and retries by the client library, are not modelled.
- LocalLock.RunKeepsInv: the continuation of a granted waiter runs as part of the grant; timers fire at any time.
- JobStore.TryExecuteJob: the job is the stored object, as `find` returns it; looking up the job configuration and deserializing its arguments are part of the outcome; `deleteCompleted` appears only as deletion of completed jobs.
- JobWorkers.RunKeepsInv: jobs are inserted once under new ids, with no tries so far; a worker that dies while executing is not modelled, and locks are exclusive; `LostLockIff` says what follows if one is lost, `LeaseIsSafeIff` when a leased one is not.
- SerialWorkers.SerialIsParallel: the wait after a lock that is taken, and errors thrown by the store, are not modelled.
- JobBackoff.RescheduleBound: waits are real numbers; floating-point rounding of `Math.pow` is not modelled.
- CacheStores.DynamoDbDistributedCacheStore.GetMany: other clients come between the reads of all items and their slides here, not between single items; `CacheRuns` allows that. The loops of `setMany`, `refreshMany` and `removeMany` are not modelled, their requests are.
- CacheRuns.MemoryHitsAreTableHits: a read and the check of its expiry are one instant, and a set of both stores uses one clock reading.
- DistributedCache.DeferredUntilCompletion: the store keeps entries without expiry, key normalization is the same when handlers run as when they were registered, and values are immutable (the source serializes when the handler runs, so an object changed after the call is stored as changed).
- DistributedCache.Cache.GetMany: the batch read of the store answers one value per key in order; `getOrAdd` is modelled by its concurrent steps only.
- SequentialGuid.SequentialGuidGenerator.Create: the source of random bytes is a parameter.
- AuditMerge.AuditLogInfo.MergeEntityChanges: `extraProperties` are merged apart, in `ExtraProperties`; property changes are values (the source shares the objects it moves), the objects of the list are distinct, and `MergedNetEffect` needs a first change that lists each property once.
- ExtraProperties.CounterCounts: counters are exact numbers; rounding above 2^53 is not modelled.
- KeyLayout.SortKeyOrder: instants are given by their UTC fields; the calendar arithmetic that yields them, and `indexAttributes`, are not modelled.
- DateTimeFormat.PrintThenParse: years above 9999 are excluded. For formats with digits among the literals, or a field mentioned twice, it is a sufficient condition only; otherwise `PrintThenParseIff` makes it exact.
