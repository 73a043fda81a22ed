# TSLock, modelled and proved in Dafny

TSLock is a lease-based distributed lock. A lock is a stored deadline; whoever can write a new
deadline under the right condition holds the lock until that deadline. This project models the
protocol in layers and proves what every run of each layer keeps.

| layer | files |
|---|---|
| deadline arithmetic | `LockConfiguration.dfy` |
| the deadline-fenced lease as a machine over all runs, and its safety | `Lease.dfy` |
| its users: in-memory map, SQL row, `StorageLock`, registry cache; every run of many processes over one table | `InMemory.dfy`, `Storage.dfy`, `LeaseView.dfy`, `SqlRuns.dfy` |
| compare-and-set stores: CloudFront KVS; GCS and S3 objects; every run of many clients over one store | `CloudFrontKvs.dfy`, `ObjectStores.dfy`, `CasRuns.dfy` |
| token-fenced leases: Durable Object, Redis, etcd hand-over | `DurableObject.dfy`, `Redis.dfy`, `Etcd.dfy` |
| the keep-alive lock, and every interleaving of its renewals | `KeepAlive.dfy`, `KeepAliveRuns.dfy`, `KeepAliveHistory.dfy` |
| the executor and its ambient stacks, as a big-step interpreter | `Executor.dfy` |
| named SQL parameters and their renderings | `NamedParams.dfy`, `Binding.dfy`, `Drizzle.dfy`, `SqlStatements.dfy` |
| what the SQL statements do to a table | `SqlMeaning.dfy` |

Code that updates an object or loops is a class or a method here, proved against a function; the
lemmas are about those functions, over every input or every run.

How to read the machines. A *tenure* is one successful acquire and everything extended from it. A
handle is a lock object; it is *live* from its creation until the store applies its unlock, or the
extension that replaces it. *Holds* means live with a deadline in the future: the caller may believe
it has the lock. A statement carries the clock reading it was prepared with, which may be older than
the moment it runs. The *floor* is the minimum hold promised by the last write.

## What the model assumes

- One clock that never runs backwards, shared by all clients (as the repository's own README asks).
- A handle is used by one caller at a time. The keep-alive lock is the exception and is modelled with
  all its overlaps.
- A keep-alive unlock that throws may be called again; it then reaches the same lock object, so the
  model lets the release happen at any later time, or never.
- A conditional write is atomic; a Durable Object handles one request at a time; a Durable Object
  or Redis acquire carries a token nobody used before.
- A CloudFront KVS ETag never repeats, a GCS generation only grows, and S3 bodies with equal ETags are equal.
- Redis refuses `PX 0` with an error, on which the call throws, and treats `PEXPIRE 0` as a deletion that replies 1.
- Times are real numbers of milliseconds. The code computes with half of an odd `lockAtMostFor`; that
  half is kept exact.

## What turned out false, and exactly when the code meets it

- The deadline fence alone does not protect a successor: after a shrinking extension an old deadline
  can come up again (`LeaseSafety.DeadlineFenceAloneIsNotEnough`). With the one-shot flag it does
  (`LeaseSafety.SupersededHandleIsHarmless`).
- A keep-alive renewal still in flight when its lock is unlocked can hit a successor's record and
  lengthen it (`LeaseSafety.LateExtensionCanReachASuccessor`), though never shorten it or take it over
  (`LeaseSafety.LateExtensionOnlyLengthens`). It changes the record if and only if that carries its own
  host and old deadline and the new deadline differs (`LeaseSafety.LateExtensionChangesRowExactlyIf`).
  So in every run in which tenures are on different hosts, or write deadlines that do not collide, no
  late renewal reaches anybody (`LeaseSafety.LateExtensionsAreHarmlessWhenApart`).
- Keep-alive callbacks that fire too early do weaken the minimum hold
  (`KeepAliveSafety.EarlyCallbackWeakensMinimum`). A renewal that asks for what n others have left
  reaches the original minimum if and only if it starts no earlier than
  `createdAt + min(least, n * most / 2)` (`KeepAliveSafety.RenewalReachesMinimumExactlyIf`). The
  nominal time is about a period later (`KeepAliveSafety.NominalTimeIsInTime`).
- A Durable Object holder that never unlocks may lose its minimum hold after a shrinking extension
  (`DurableObjectRuns.ShrinkingExtensionBreaksMinimum`); it keeps it if and only if the deadline of
  its acquire or last extension reaches the largest minimum asked for
  (`DurableObjectRuns.AbandonedTenureIsHeldExactlyIf`).
- A rendered query means the named query if and only if the text has no `$` followed by a digit (for
  `$n`), no `?` (for `?`), or no marked name of its own (for `@name`) outside its placeholders
  (`Binding.RenderingsPreserveMeaning`, `Binding.PrefixPreservesMeaning`). The statements TSLock
  builds meet this (`SqlStatements.StatementsBindAsMeant`).
- Redis without `safeUpdate` loses mutual exclusion, by a late extension
  (`RedisRuns.UnsafeUpdateBreaksExclusion`) and by a late unlock (`RedisRuns.UnsafeUnlockBreaksExclusion`).
  An extension into the future leaves at most one believed hold if and only if no other handle holds
  the lock, and an unlock leaves every other hold backed under the same condition
  (`RedisRuns.UnsafeExtensionIsSafeExactlyIf`, `RedisRuns.UnsafeUnlockIsSafeExactlyIf`); a key that is
  absent or one's own, which is what `safeUpdate` compares, is enough for it
  (`RedisRuns.OwnKeyMeansNoOtherHolds`). Runs whose updates all meet it keep mutual exclusion.
- `toTtlSeconds` is documented as rounding up; the code adds a second to whole seconds as well, and the
  model follows the code (`Etcd.LeaseOutlives`).
- In-memory unlock stores `lockAtLeastUntil` even when that is past; the lease covers this as its own rule.
- `createdAt` in a Durable Object request is never read by the object, which uses its own clock.

## Model

| member | source | states |
|---|---|---|
| `LeaseSafety.MutualExclusion` | packages/core/src/simple-lock.ts:15-46 | In every run of acquires, extensions and unlocks with stale clock readings, at most one tenure has a live handle with a future deadline, and a sequential tenure at most one such handle |
| `LeaseSafety.RunKeepsInv` | packages/sql-support/src/default-sql-statements-source.ts:14-17 | Every run keeps the joint invariant: a believed hold is backed by the stored row of its own tenure, no two usable handles share a sequential tenure, the promised minimum is covered |
| `LeaseSafety.AcquireKeepsInv` | packages/in-memory/src/in-memory-lock-provider.ts:26-30 | An acquire guarded by an old clock reading keeps that invariant: it succeeds only when nobody believes it holds the lock |
| `LeaseSafety.ExtendKeepsInv` | packages/in-memory/src/in-memory-lock.ts:24-31 | An extension fenced by the handle's own deadline keeps it, for shrinking, lapsed and late extensions |
| `LeaseSafety.UnlockKeepsInv` | packages/in-memory/src/in-memory-lock.ts:19-22 | An unlock fenced by the handle's own deadline keeps it, for each of the three deadlines the backends write |
| `LeaseSafety.HolderShutsOutAcquires` | packages/core/src/storage-based-lock-provider.ts:65-84 | While anybody believes it holds the lock, an acquire changes nothing |
| `LeaseSafety.SupersededHandleIsHarmless` | packages/core/src/storage-based-lock-provider.ts:48-55 | A usable handle whose tenure does not own a live record changes it neither by unlock nor by extension |
| `LeaseSafety.LateExtensionOnlyLengthens` | packages/core/src/keep-alive-lock-provider.ts:52-54 | A renewal that hits a successor's live record leaves its owner and minimum alone and only lengthens it |
| `LeaseSafety.LateExtensionCanReachASuccessor` | packages/core/src/keep-alive-lock-provider.ts:77-82 | A run in which a renewal in flight at the unlock does change a successor's record |
| `LeaseSafety.LateExtensionChangesRowExactlyIf` | packages/sql-support/src/default-sql-statements-source.ts:16 | An extension changes a live record of another tenure if and only if that has its own host and old deadline and the new deadline differs |
| `LeaseSafety.LateExtensionsAreHarmlessWhenApart` | packages/core/src/keep-alive-lock-provider.ts:52-54 | In every run whose writes stay apart from other tenures' lock objects, by host or by deadline, no extension however late changes another tenure's live record |
| `LeaseSafety.DeadlineFenceAloneIsNotEnough` | packages/core/src/simple-lock.ts:28-33 | A run in which a replaced handle passes the deadline fence on a successor's live record, so that only its cleared flag saves the successor |
| `LeaseSafety.MinimumHold` | packages/core/src/lock-configuration.ts:13-23 | In every run, an acquire succeeds no earlier than the minimum hold promised by the last write |
| `LeaseSafety.UnlockReleasesExactly` | packages/core/src/lock-configuration.ts:17-23 | What an unlock of one's own row stores under each rule, and that the next acquire succeeds exactly from then on |
| `InMemory.InMemoryLockProvider.IsLocked` | packages/in-memory/src/in-memory-lock-provider.ts:16-24 | Held exactly when a deadline in the future is stored; otherwise the entry is gone afterwards, and no other entry changes |
| `InMemory.InMemoryLockProvider.Lock` | packages/in-memory/src/in-memory-lock-provider.ts:26-30 | Grants exactly when the lease's acquire would, and then stores exactly the new deadline |
| `InMemory.InMemoryLock.Unlock` | packages/core/src/simple-lock.ts:15-19 | A used lock object throws and changes nothing; otherwise the map changes by exactly the lease's unlock |
| `InMemory.InMemoryLock.Extend` | packages/in-memory/src/in-memory-lock.ts:24-31 | Yields a new lock object exactly when the lease's extension succeeds, and only then uses up the old one |
| `Storage.InsertThenUpdateIsAcquire` | packages/sql/src/sql-storage-accessor.ts:13-30 | Insert, and update if that finds a row, is one acquire of the lease on that row and touches no other row, for client-time and server-time sources |
| `Storage.ExtendIsLeaseExtend` | packages/sql-support/src/server-time-sql-statements-source.ts:19 | The extend statement is the lease's extension fenced by the previous deadline, and keeps `lockedAt` |
| `Storage.UnlockIsLeaseUnlock` | packages/sql-support/src/server-time-sql-statements-source.ts:20 | The unlock statement is the lease's unlock with the source's own unlock deadline, and keeps `lockedAt` |
| `Storage.SqlStorageAccessor.InsertRecord` | packages/sql/src/sql-storage-accessor.ts:13-23 | True exactly when there was no row; a failing connection throws and changes nothing |
| `Storage.SqlStorageAccessor.UpdateRecord` | packages/sql/src/sql-storage-accessor.ts:25-30 | True exactly when the stored deadline had passed at the moment the source compares with |
| `Storage.SqlStorageAccessor.Unlock` | packages/sql/src/sql-storage-accessor.ts:32-36 | Changes the rows by exactly the lease's unlock |
| `Storage.SqlStorageAccessor.Extend` | packages/sql/src/sql-storage-accessor.ts:38-44 | False without a previous deadline and without touching the store; otherwise exactly the lease's extension |
| `Storage.StorageLock.Unlock` | packages/core/src/storage-based-lock-provider.ts:48-50 | One-shot; a throwing unlock leaves the lock object usable and the rows unchanged |
| `Storage.StorageLock.Extend` | packages/core/src/storage-based-lock-provider.ts:52-55 | Fenced by its own deadline: a new lock object exactly when the lease's extension succeeds |
| `SqlRuns.CallIsLeaseStep` | packages/sql-support/src/default-sql-statements-source.ts:14-17 | Each statement, run at any moment after its clock reading, is one step of the lease for its lock name, or none |
| `SqlRuns.RunsRefineLease` | packages/core/src/storage-based-lock-provider.ts:40-84 | Every run of processes over a table, on client or server time, is for each lock name a run of the lease with the same row and lock objects |
| `SqlRuns.MutualExclusion` | packages/core/src/storage-based-lock-provider.ts:65-84 | From any table and in every run, with host names shared or not, at most one usable lock object has a future deadline, and the row outlasts it |
| `SqlRuns.HolderShutsOutLockCalls` | packages/sql/src/sql-storage-accessor.ts:13-30 | While there is such a lock object, every insert and update for the name is refused |
| `SqlRuns.SupersededLockIsHarmless` | packages/core/src/storage-based-lock-provider.ts:48-55 | In every run, any other usable lock object then leaves the row alone, by extension and by unlock |
| `SqlRuns.LockCallIsGrantedExactlyIf` | packages/sql/src/sql-storage-accessor.ts:13-30 | A lock statement is granted exactly if it inserts without a row or updates one whose deadline has passed, and then the row ends `lockAtMostFor` after the creation |
| `SqlRuns.HolderStaysInControl` | packages/sql/src/sql-storage-accessor.ts:32-44 | In every run, the holder's extension is granted and its unlock leaves the row at the moment of the unlock or at the end of the minimum |
| `Registry.StorageBasedLockProvider.Lock` | packages/core/src/storage-based-lock-provider.ts:65-84 | The cached call acquires exactly when the lease does at the guard time of the deciding statement, changes the rows by exactly that, and throws exactly if an uncached insert fails or a row is found and the update fails; it gives the result and rows of insert-then-update, and drops the name when it throws |
| `Registry.SkippedInsertIsNoOp` | packages/core/src/storage-based-lock-provider.ts:24-38 | With any number of providers and caches and any interleaving of statements, a skipped insert would have changed nothing |
| `KeepAlive.KeepAliveLock.BeginRenewal` | packages/core/src/keep-alive-lock-provider.ts:42-53 | Up to its await, a renewal stops, finds the lock lost, or asks for the remaining minimum; the timer stops exactly with the activity |
| `KeepAlive.KeepAliveLock.FinishRenewal` | packages/core/src/keep-alive-lock-provider.ts:54-66 | After the await: nothing after a release, one loss report on a refusal of the current lock, or the new lock with its deadline and remaining minimum, which the history rows below fix for every run |
| `KeepAlive.KeepAliveLock.BeginUnlock` | packages/core/src/keep-alive-lock-provider.ts:77-82 | Stops renewing and names the lock to unlock, or none when lost; throws on a used lock |
| `KeepAliveSafety.ProviderLockStarts` | packages/core/src/keep-alive-lock-provider.ts:103-112 | Wrapping a lock just granted in any run of the lease gives a start state of the keep-alive runs |
| `KeepAliveSafety.StepsRefineLease` | packages/core/src/keep-alive-lock-provider.ts:42-82 | Every step of the keep-alive machine is one step of the lease, or none |
| `KeepAliveSafety.StepKeepsInv` | packages/core/src/keep-alive-lock-provider.ts:42-82 | Ticks, overlapping renewals, retries, lost answers, other holders, unlock and clock steps each keep the keep-alive invariant |
| `KeepAliveSafety.TrackedDeadlineIsBacked` | packages/core/src/keep-alive-lock-provider.ts:42-66 | Until release, a tracked deadline in the future means the stored record is this tenure's, outlasts that deadline, and no acquire succeeds |
| `KeepAliveSafety.MinimumHoldNeverWeakens` | packages/core/src/keep-alive-lock-provider.ts:29-34 | With every callback fired when due (the n-th after the first no earlier than `createdAt + min(least, n * most / 2)`), nobody acquires before `createdAt + lockAtLeastFor` of the original configuration, however renewals overlap |
| `KeepAliveSafety.RenewalsAskForEnough` | packages/core/src/keep-alive-lock-provider.ts:50-65 | At the j-th tick every renewal asks for at least max(0, least - (j-1) * most / 2); and with every callback fired when due, every lock object it yields keeps the original minimum |
| `KeepAliveSafety.RequestCoversMinimum` | packages/core/src/keep-alive-lock-provider.ts:50-51 | A renewal that follows fewer installed renewals than callbacks, and starts when the last callback was due or later, reaches the original minimum |
| `KeepAliveSafety.RenewalReachesMinimumExactlyIf` | packages/core/src/keep-alive-lock-provider.ts:65 | What is left after n renewals reaches the original minimum if and only if the next one starts when due |
| `KeepAliveSafety.NominalTimeIsInTime` | packages/core/src/keep-alive-lock-provider.ts:31-34 | The nominal schedule, with its period rounded down, is in time for odd and even `lockAtMostFor` of 30000 or more |
| `KeepAliveSafety.EarlyCallbackWeakensMinimum` | packages/core/src/keep-alive-lock-provider.ts:50-65 | A run in which two callbacks at once halve the minimum hold and somebody else acquires early |
| `KeepAliveSafety.StoreIsNeverBlocked` | packages/core/src/keep-alive-lock-provider.ts:53 | In every state of a run, a renewal in flight may reach the store at any moment: the model's guard on deadlines is met |
| `KeepAliveSafety.ReleaseIsNeverBlocked` | packages/core/src/keep-alive-lock-provider.ts:81 | And so may the unlock |
| `KeepAliveSafety.LeakIsBounded` | packages/core/src/keep-alive-lock-provider.ts:53-54 | After an unlock starting at u, no record this lock wrote last keeps anybody out beyond u + `lockAtMostFor`, in any continuation |
| `KeepAliveSafety.LossIsReportedOnce` | packages/core/src/keep-alive-lock-provider.ts:44-60 | Lost or released implies inactive, and the loss is reported at most once per run |
| `KeepAliveSafety.InactiveIsFinal` | packages/core/src/keep-alive-lock-provider.ts:37-43 | Once inactive, no renewal starts again; after a release nothing is reported and the fields stay |
| `KeepAliveSafety.UnlockTargetsLatestLock` | packages/core/src/keep-alive-lock-provider.ts:77-82 | In every run, unlock addresses exactly the lock object installed last, whose tenure is not yet closed; or none, and then the loss has been reported |
| `KeepAliveSafety.CurrentIsLatest` | packages/core/src/keep-alive-lock-provider.ts:62-65 | After every run the current lock is the one the last successful renewal installed |
| `KeepAliveHistory.TrackedDeadlineFollowsRenewals` | packages/core/src/keep-alive-lock-provider.ts:51-65 | In every run, the tracked deadline is `lockAtMostFor` after the recorded start of the renewal installed last, or after the creation, and the remaining minimum is exactly the original less half a `lockAtMostFor` for each renewal that led to the lock in use |
| `KeepAliveHistory.AttemptsRenewUntilDeadline` | packages/core/src/keep-alive-lock-provider.ts:42-53 | In every run, a callback or retry of an active lock finds it lost exactly if it comes after that deadline, and otherwise asks for the latest lock to be extended by exactly what is left; an inactive lock does nothing |
| `KeepAliveHistory.StopsExactlyIf` | packages/core/src/keep-alive-lock-provider.ts:37-40 | In every run, an active lock stops renewing exactly if it is unlocked, a callback or retry comes after that deadline, the store refuses to extend the latest lock, or a retry fails too |
| `KeepAliveHistory.UnlockReachesExactly` | packages/core/src/keep-alive-lock-provider.ts:77-82 | In every run, unlock addresses the lock installed last, unless a loss has been reported since, and then none |
| `KeepAliveHistory.NominalPeriodLeavesHalf` | packages/core/src/keep-alive-lock-provider.ts:31-34 | A callback at its nominal time comes half a `lockAtMostFor` before the tracked deadline, or less than a millisecond earlier |
| `CloudFrontKvs.EtagBeforeRecordSuffices` | packages/cloudfront-kvs/src/cloudfront-kvs-lock-provider.ts:93-101 | With the ETag read before the record, an accepted put replaces exactly the record read |
| `CloudFrontKvs.EtagAfterRecordFails` | packages/cloudfront-kvs/src/cloudfront-kvs-lock-provider.ts:93-94 | With the two reads the other way round, the put can replace somebody else's live lock |
| `CloudFrontKvs.CloudFrontKvsLockProvider.TryPut` | packages/cloudfront-kvs/src/cloudfront-kvs-lock-provider.ts:79-88 | With writes by others before it, a put that goes through replaces the record that was read, and a conflict means somebody wrote in between |
| `CloudFrontKvs.CloudFrontKvsLockProvider.Lock` | packages/cloudfront-kvs/src/cloudfront-kvs-lock-provider.ts:90-109 | Under writes by others at every gap, success is one atomic acquire of the lease; otherwise nothing was written and the lock was held, or every one of the `maxEtagRetries` attempts was disturbed |
| `CloudFrontKvs.CloudFrontKvsLockProvider.Unlock` | packages/cloudfront-kvs/src/cloudfront-kvs-lock-provider.ts:111-132 | The same for unlock: one atomic unlock of the lease on the record it replaced, which keeps a nonzero `lockedAt`, or no write |
| `CloudFrontKvs.CloudFrontKvsLockProvider.Extend` | packages/cloudfront-kvs/src/cloudfront-kvs-lock-provider.ts:134-159 | The same for extend, fenced by the previous deadline |
| `ObjectStores.VersionsGrow` | packages/gcs/src/gcs-storage-accessor.ts:99-102 | Over any run of saves and metadata patches the GCS pair of generations strictly grows, so it never repeats |
| `ObjectStores.BodyRepeatsRecord` | packages/s3/src/s3-storage-accessor.ts:19-25 | An S3 object's body always carries its current record |
| `ObjectStores.MatchingTokenMeansSameRecord` | packages/s3/src/s3-storage-accessor.ts:96-117 | A token that matches at the write proves that the record replaced is the record read, on S3 even after changes that cancel out |
| `ObjectStores.EmptyBodyWouldBeBlind` | packages/s3/src/s3-storage-accessor.ts:84-86 | With an empty S3 body the token would match on somebody else's live lock |
| `ObjectStores.ObjectStorageAccessor.InsertRecord` | packages/gcs/src/gcs-storage-accessor.ts:72-87 | True only when this client's one write created the object; false only when there is one |
| `ObjectStores.ObjectStorageAccessor.UpdateRecord` | packages/gcs/src/gcs-storage-accessor.ts:89-109 | Under interference, success is one atomic acquire of the lease on the record replaced; a missing object throws; undisturbed refusals are the lease's |
| `ObjectStores.ObjectStorageAccessor.Unlock` | packages/gcs/src/gcs-storage-accessor.ts:111-133 | Success is one atomic unlock of the lease that keeps `lockedAt`; undisturbed, it misses only when the lease's unlock would |
| `ObjectStores.ObjectStorageAccessor.Extend` | packages/s3/src/s3-storage-accessor.ts:145-178 | Success is one atomic extension of the lease; undisturbed, it refuses only when the lease's extension would |
| `CasRuns.MatchingVersionMeansSameRecord` | packages/cloudfront-kvs/src/cloudfront-kvs-lock-provider.ts:93-101 | On all three stores, a version that still matches at the put proves that the record replaced is the record read |
| `CasRuns.StepIsLeaseStep` | packages/cloudfront-kvs/src/cloudfront-kvs-lock-provider.ts:90-159 | Each call of each client, with anybody's calls in between, is one step of the lease or none |
| `CasRuns.RunsRefineLease` | packages/s3/src/s3-storage-accessor.ts:75-178 | Every run of many clients over one store, call by call, is a run of the lease with the same record and lock objects |
| `CasRuns.MutualExclusion` | packages/gcs/src/gcs-storage-accessor.ts:72-166 | From any stored record and in every such run, at most one usable lock object has a future deadline, and the stored deadline is no earlier |
| `CasRuns.HolderShutsOutLockCalls` | packages/cloudfront-kvs/src/cloudfront-kvs-lock-provider.ts:95-106 | While there is such a lock object, no put of a lock call goes through, whatever it has read |
| `CasRuns.PutGoesThroughExactlyIf` | packages/cloudfront-kvs/src/cloudfront-kvs-lock-provider.ts:95-157 | An attempt goes through exactly if its version still matches and the record in the store allows the operation; what it stores, and that extensions and unlocks keep when the lock was taken |
| `CasRuns.HolderStaysInControl` | packages/cloudfront-kvs/src/cloudfront-kvs-lock-provider.ts:111-159 | In every run, an undisturbed attempt of the holder's extension or unlock goes through |
| `DurableObject.DoLockStorage.ApplyLockOp` | packages/cloudflare-do/src/handle-lock-request.ts:32-103 | Each request changes only its own record, as the record function of the rows below says, and answers accordingly |
| `DurableObject.AnswersSayWhy` | packages/cloudflare-do/src/handle-lock-request.ts:39-103 | Exactly when a request is held, not the owner's, expired, missing, acquired or extended; and only a granted lock request or the owner changes the record |
| `DurableObjectRuns.TenureKeepsToken` | packages/cloudflare-do/src/handle-lock-request.ts:52-58 | From an acquire to the next one, the record carries the acquire's token and time, whatever requests come |
| `DurableObjectRuns.EarlierTokenIsPowerless` | packages/cloudflare-do/src/handle-lock-request.ts:62-86 | Once a later token has acquired, no request with an earlier token changes the record again |
| `DurableObjectRuns.TenuresAreDisjoint` | packages/cloudflare-do/src/handle-lock-request.ts:43-60 | The last deadline of a tenure has passed when any later acquire succeeds, so tenures are disjoint and ordered |
| `DurableObjectRuns.LockIsGrantedExactlyIf` | packages/cloudflare-do/src/handle-lock-request.ts:39-60 | In every run, a lock request acquires exactly if it has a token and a duration and finds no deadline ahead, and then the record is its own |
| `DurableObjectRuns.OwnerCanExtend` | packages/cloudflare-do/src/handle-lock-request.ts:80-102 | In every run, the owner's extension takes effect exactly if it comes before the deadline, and then the record ends `lockAtMostFor` later |
| `DurableObjectRuns.StoredMinimumIsLargest` | packages/cloudflare-do/src/handle-lock-request.ts:90-101 | The stored minimum is the running maximum over the acquire and all its extensions |
| `DurableObjectRuns.StoredMinimumNeverFalls` | packages/cloudflare-do/src/handle-lock-request.ts:91 | Within a tenure the stored minimum never falls |
| `DurableObjectRuns.StoredDeadlineIsLast` | packages/cloudflare-do/src/handle-lock-request.ts:90-101 | Without an unlock, the stored deadline is the one of the acquire or of the last extension that took effect |
| `DurableObjectRuns.UnlockedTenureIsHeld` | packages/cloudflare-do/src/handle-lock-request.ts:67-76 | If a tenure's last write is its unlock, the next acquire comes no earlier than that maximum |
| `DurableObjectRuns.UnlockReleases` | packages/cloudflare-do/src/handle-lock-request.ts:62-77 | In every run, the owner's unlock leaves the deadline exactly at its own moment or at the end of the largest minimum asked for |
| `DurableObjectRuns.ReleasedLockIsGrantedExactlyIf` | packages/cloudflare-do/src/handle-lock-request.ts:43-47 | And with no write in between, a later proper lock request acquires exactly from then on |
| `DurableObjectRuns.AbandonedTenureIsHeldExactlyIf` | packages/cloudflare-do/src/handle-lock-request.ts:47-58 | Acquires respect that maximum if and only if the stored deadline reaches it; without an unlock, if and only if the deadline asked for last does |
| `DurableObjectRuns.ShrinkingExtensionBreaksMinimum` | packages/cloudflare-do/src/handle-lock-request.ts:90-101 | A shrinking extension after which the stored deadline falls short of the minimum |
| `Redis.RedisLock.Unlock` | packages/redis-core/src/internal-redis-lock-provider.ts:46-61 | One-shot; with `safeUpdate` shortens or deletes the key only under its own value, without it whatever the value; no other key changes |
| `Redis.RedisLock.Extend` | packages/redis-core/src/internal-redis-lock-provider.ts:63-75 | A new lock object exactly when the command changes the key: under its own value with `safeUpdate`, any present key without it; without it a time to live of zero throws and leaves the lock object usable |
| `Redis.InternalRedisLockProvider.Lock` | packages/redis-core/src/internal-redis-lock-provider.ts:106-117 | Throws exactly when the deadline has already passed, and otherwise grants exactly when the key is absent |
| `Redis.InternalRedisLockProvider.KeyRoundTrip` | packages/redis-core/src/internal-redis-lock-provider.ts:94-104 | The lock name can be read back from its key |
| `RedisRuns.StepKeepsInv` | packages/redis-core/src/scripts.ts:1-5 | Every script and command keeps: a believed hold is backed by its own value in the key, expiring no earlier than its deadline; without `safeUpdate`, every one that meets no other hold |
| `RedisRuns.MutualExclusion` | packages/redis-core/src/internal-redis-lock-provider.ts:106-117 | For every delay between computing a time to live and its use, two believed holds never coexist, and the key outlasts the hold: in every run with `safeUpdate`, and without it in every run whose updates meet no other hold |
| `RedisRuns.SupersededHandleIsHarmless` | packages/redis-core/src/scripts.ts:1-5 | A handle whose value is not stored changes nothing |
| `RedisRuns.MinimumHold` | packages/redis-core/src/internal-redis-lock-provider.ts:46-53 | Whoever locks next does so no earlier than the minimum promised last |
| `RedisRuns.LockIsGrantedExactlyIf` | packages/redis-core/src/internal-redis-lock-provider.ts:106-117 | A lock call sets the key exactly if it is absent and the deadline is ahead, to expire as far ahead as computed |
| `RedisRuns.HolderCanExtend` | packages/redis-core/src/internal-redis-lock-provider.ts:63-75 | Whoever holds the lock extends it, and the key's expiry is exactly the time to live from the server's clock |
| `RedisRuns.HolderReleases` | packages/redis-core/src/internal-redis-lock-provider.ts:46-61 | Whoever holds the lock releases it by an unlock: exactly what is left of the minimum is kept, and the next lock call is granted exactly from then on |
| `RedisRuns.UnsafeUpdateBreaksExclusion` | packages/redis-core/src/internal-redis-lock-provider.ts:70-72 | Without `safeUpdate`, a run from the empty key in which an expired holder's extension leaves two believed holds |
| `RedisRuns.UnsafeUnlockBreaksExclusion` | packages/redis-core/src/internal-redis-lock-provider.ts:56-60 | Without `safeUpdate`, a run from the empty key in which an expired holder's unlock leads to two believed holds |
| `RedisRuns.UnsafeExtensionIsSafeExactlyIf` | packages/redis-core/src/internal-redis-lock-provider.ts:70-72 | In every state the invariant allows, an extension into the future leaves at most one believed hold, and every one backed, if and only if no other handle holds the lock |
| `RedisRuns.UnsafeUnlockIsSafeExactlyIf` | packages/redis-core/src/internal-redis-lock-provider.ts:46-61 | In every state the invariant allows, an unlock leaves every other believed hold backed if and only if there is none |
| `RedisRuns.OwnKeyMeansNoOtherHolds` | packages/redis-core/src/scripts.ts:1-5 | A key that is absent or has the handle's own value, which the scripts compare, rules every other hold out |
| `Etcd.LeaseOutlives` | packages/core/src/utils.ts:25-28 | A lease granted for the seconds of a duration ends after the duration's deadline |
| `Etcd.TtlIsTight` | packages/core/src/utils.ts:25-28 | And no more than one second after it |
| `Etcd.EtcdAccessor.Lock` | packages/etcd/src/etcd-accessor.ts:11-39 | With other clients at every gap and any call failing: the key is put under a lease that outlives `lockAtMostUntil`; or no key is put, and the lease stays behind only if revoking it fails |
| `Etcd.EtcdAccessor.Unlock` | packages/etcd/src/etcd-accessor.ts:41-79 | The call takes exactly the steps of the unlock machine, to its end, whatever happens in its gaps and whichever of its calls fail, and throws when the machine does |
| `EtcdSafety.HandOverKeepsMinimum` | packages/etcd/src/etcd-accessor.ts:56-78 | At every point of every run after a successful comparison the key stays under the new lease up to `createdAt + lockAtLeastFor` |
| `EtcdSafety.OthersKeyIsUntouched` | packages/etcd/src/etcd-accessor.ts:64-78 | When the key has become another client's, no step of the unlock call touches it or hands it over |
| `EtcdSafety.RemainingMinimumIsHandedOver` | packages/etcd/src/etcd-accessor.ts:41-79 | With no failing call and no lease running out, an unlock that finishes before the minimum is over has handed the key over, to a lease that ends within a second and the call's own time of it; and one that hands nothing over has released the key after the minimum |
| `EtcdSafety.StepKeepsInv` | packages/etcd/src/etcd-accessor.ts:41-79 | Each server call, failing or not, and each outside event keeps the hand-over invariant |
| `Executor.DefaultLockingTaskExecutor.Run` | packages/core/src/lock-extender.ts:11-24 | The executor's mutable ambient stores, events and completion are those of the interpreter, for every nested program |
| `Executor.DefaultLockingTaskExecutor.Execute` | packages/core/src/locking-task-executor.ts:63-78 | A nested call for a name already locked runs without locking; any other locks first |
| `Executor.DefaultLockingTaskExecutor.RunUnderLock` | packages/core/src/locking-task-executor.ts:80-102 | Both ambient stacks are restored and the active lock is unlocked, whether the task returns or throws, and the execution ends as the interpreter's scope does |
| `Executor.Meaning` | packages/core/src/lock-assert.ts:15-25 | Both stacks keep equal depth and distinct names, and a program leaves all but the innermost lock object as they were |
| `ExecutorSafety.EventsAreBracketed` | packages/core/src/locking-task-executor.ts:63-102 | Every program's events replay on a stack of open locks: acquires and unlocks are well bracketed and each unlock is of the last successor |
| `ExecutorSafety.UnderLockIsBracketed` | packages/core/src/locking-task-executor.ts:85-97 | The scope of an acquired lock closes exactly that lock |
| `ExecutorSafety.ChainsBalance` | packages/core/src/lock-extender.ts:11-24 | Locks open before plus locks acquired are, as multisets, locks released plus locks open after |
| `ExecutorSafety.EachLockIsUnlockedOnce` | packages/core/src/locking-task-executor.ts:80-102 | Whatever a program does, each acquired lock is unlocked exactly once and the ambient stacks end empty |
| `ExecutorSafety.LockingIsInvisible` | packages/core/src/locking-task-executor.ts:63-102 | Where every call is answered with yes, a program ends as it would without locks and starts the same tasks in the same order |
| `ExecutorSafety.UnlockNeverChangesTheEnd` | packages/core/src/locking-task-executor.ts:89-96 | However the unlock is answered, a granted task's execution ends as the task does |
| `ExecutorSafety.RefusedLockSkipsTask` | packages/core/src/locking-task-executor.ts:69-74 | A refused lock call ends normally and a failing one throws; neither runs the task |
| `ExecutorSafety.ExtensionReplacesOrThrows` | packages/core/src/lock-extender.ts:11-24 | An extension replaces the active lock exactly if there is one and it is granted, and otherwise throws and leaves it |
| `ExecutorSafety.ListenerHearsNestedTasks` | packages/core/src/locking-task-executor.ts:41-55 | In every program, every answer follows its own lock attempt, every started task finishes, and they nest |
| `ExecutorSafety.UnlockErrorIsReported` | packages/core/src/locking-task-executor.ts:89-95 | A scope ends with the unlock of the active lock, and an error report follows exactly if that fails |
| `NamedParams.ScanLosesNothing` | packages/sql-support/src/sql-statements.ts:19 | Writing every placeholder found back restores the text |
| `NamedParams.ScanMunches` | packages/sql-support/src/sql-statements.ts:19 | A placeholder takes every word character there is, and its name is an identifier |
| `NamedParams.ReplaceNamedParams` | packages/sql-support/src/sql-statements.ts:32-60 | The replacement loop, with its map and counter, yields the rendering and values of the scanned tokens, or the first missing name |
| `Binding.ReturnsWhenCovered` | packages/sql-support/src/sql-statements.ts:41-44 | Rendering throws exactly when some placeholder has no value |
| `Binding.RenderingsPreserveMeaning` | packages/sql-support/src/sql-statements.ts:62-68 | A driver reading the `$n` or `?` text from scratch binds the directly substituted query if and only if the text holds nothing it would mistake; `$n` has one value per name, `?` one per occurrence |
| `Binding.DollarNamesAreDistinct` | packages/sql-support/src/sql-statements.ts:45-51 | The names numbered are the names of the query, each once |
| `Binding.PrefixPreservesMeaning` | packages/sql-support/src/sql-statements.ts:70-77 | The prefixed text has the query's tokens, and read from scratch means the named query, if and only if the text has no marked name of its own |
| `Drizzle.BuildDrizzleQuery` | packages/drizzle/src/query-builder.ts:5-32 | The loop yields the query; its chunks mean the direct substitution, writing parameters back restores the text, and it throws exactly when a name is missing |
| `Drizzle.QueryMeans` | packages/drizzle/src/query-builder.ts:8-24 | The same of the query itself, for every text and parameter map |
| `SqlStatements.StatementsScan` | packages/sql-support/src/server-time-sql-statements-source.ts:17-20 | For all valid identifiers and all ten sources, the placeholders scanned from each statement are exactly the names it mentions, and nothing else in it looks like one to a driver |
| `SqlStatements.StatementsAreClosed` | packages/sql-support/src/sql-statements-source.ts:18-30 | With the parameters a source binds, no name is missing, except for an extension without a previous deadline |
| `SqlStatements.StatementsBindAsMeant` | packages/sql-support/src/default-sql-statements-source.ts:14-17 | The `$n`, `?` and `@name` renderings and the drizzle chunks of every such statement all bind the named query's own meaning |
| `SqlStatements.InsertText` | packages/sql-support/src/server-time-sql-statements-source.ts:66-164 | The insert statement of each dialect, word for word |
| `SqlStatements.UpdateText` | packages/sql-support/src/server-time-sql-statements-source.ts:18 | The update statement of each dialect, word for word |
| `SqlStatements.ExtendText` | packages/sql-support/src/server-time-sql-statements-source.ts:19 | The extend statement of each dialect, word for word |
| `SqlStatements.UnlockText` | packages/sql-support/src/server-time-sql-statements-source.ts:20 | The unlock statement, word for word |
| `SqlMeaning.StatementsMeanExecute` | packages/sql-support/src/default-sql-statements-source.ts:14-17 | On any table, each of the four statements of the ten dialects, read clause by clause with its bound values, changes exactly the rows, and reports exactly as many, as the record function behind the lease results |
| `SqlMeaning.SourcesMeanExecute` | packages/sql-support/src/sql-statements-source.ts:18-30 | In particular with what the dialect's own source binds |
| `SqlMeaning.UpdateClauses` | packages/sql-support/src/server-time-sql-statements-source.ts:18 | Update asks for the name and a deadline that has passed, and sets deadline, time and host |
| `SqlMeaning.ExtendClauses` | packages/sql-support/src/server-time-sql-statements-source.ts:19 | Extend asks for name, host, a deadline ahead and the previous deadline, and sets the deadline |
| `SqlMeaning.UnlockClauses` | packages/sql-support/src/server-time-sql-statements-source.ts:20 | Unlock asks for name, host and its own deadline, and sets the unlock time |
| `SqlMeaning.InsertMeans` | packages/sql-support/src/server-time-sql-statements-source.ts:66-164 | Insert adds exactly the record of the call, unless the name has a row |
| `SqlStatements.SourcesBindMentioned` | packages/sql-support/src/server-time-sql-statements-source.ts:46-59 | A source binds every name a statement mentions if and only if an extension has a previous deadline |
| `SqlStatements.SourceBindsNames` | packages/sql-support/src/sql-statements-source.ts:18-30 | What a source binds for a call has exactly the names the statements above are closed under |

## Left out

- Framework middleware, NestJS, bree, node-cron and Lambda adapters, metrics, health checks and tracking: wrappers around the executor.
- Workers KV and Memcached: they promise no mutual exclusion. The other backends repeat one of the leases modelled here.
- HTTP, JSON and ISO-date encoding, key-size limits, corrupted stored records, identifier upper-casing, `parseDuration`, `createLockConfig`: input handling.
- Truncation of fractional milliseconds when a date is stored: deadlines are compared exactly here.
- Clock skew and deletion of records from outside, except the in-memory map's own sweep of expired entries.
- Lost acknowledgements (the effect is applied and the call throws), in Redis and etcd too, outside the keep-alive lock, where they are covered by a failing renewal whose statement did run.
- A Durable Object's non-finite numbers: all numbers here are finite.
- Callbacks and listeners that throw, and the failure callback of a renewal that failed twice, which is not limited to one call.
- The executor's async-local stores are fields saved and restored around a scope; tasks that run concurrently in one scope are not modelled.
- `translateToPositional` and `buildPositionalParams`, prefixes longer than one character, and names found only on an object's prototype.
- KeepAliveLock's manual extension, which always throws.
- KeepAliveSafety.MinimumHoldNeverWeakens: assumes that every callback fires when due, which the nominal schedule leaves about a period of slack for; without it the claim is false.
- SqlMeaning.StatementsMeanExecute: reads the clauses of a statement before they are written as text, whose wording is stated separately; the database's own parser is not modelled, and column names are taken to be distinct.
- KeepAliveSafety.UnlockTargetsLatestLock: does not track the inner lock object's own one-shot flag. An extension that has just been answered clears it before the new object is installed, and an unlock in between throws.
- KeepAliveSafety.LossIsReportedOnce: counts only the loss report; the report of two failures in a row may be sent again.
