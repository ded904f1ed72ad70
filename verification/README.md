# Rootware: verified models of its stateful cores

This project models the parts of Rootware that carry real state, branching or arithmetic, and proves
properties of the models for every input, every run or every interleaving. `dafny verify dfyconfig.toml`
checks all of it.

| file | models |
|---|---|
| `resp.dfy`, `redis_client.dfy` | the incremental RESP2 reader of the Redis client: a compacted buffer refilled by arbitrary chunks |
| `buffered_sink.dfy` | the buffered log sink with synchronous, throwing and asynchronous flushes |
| `calendar.dfy`, `cron.dfy`, `arith.dfy` | the proleptic Gregorian calendar of section 21.4.1 of ECMA-262, cron fields, and the search for the next run |
| `jobs.dfy`, `job_queue.dfy`, `memory_job_store.dfy`, `idempotent_enqueue.dfy` | job records, the queue run by any number of workers and control calls, the memory job store, concurrent enqueues under one key |
| `leases.dfy` | the PostgreSQL job store as a lease protocol over a table of rows |
| `expiring_store.dfy`, `token_bucket.dfy`, `fixed_window.dfy`, `keyed_mutex.dfy`, `concurrent_limiters.dfy` | an expiring store, both rate limiters over it, the per-key mutex, and the limiters behind it |
| `single_flight.dfy` | `getOrSet` and its shared in-flight map |
| `checksum.dfy` | the migration checksum: text normalization and 32-bit FNV-1a |
| `migrations.dfy`, `interleaved_migrators.dfy`, `concurrent_migrators.dfy` | the migrator with faults, lock and transactions; many migrators over one lock; many PostgreSQL migrators without a lock |
| `sorting.dfy`, `keyed_diff.dfy`, `schema.dfy` | stable sorting, keyed differences, schema snapshots: validation, canonical form, diff |
| `ddl.dfy` | planned changes, additive PostgreSQL statements, and what they do to a database |
| `sql_text.dfy`, `sql_reading.dfy`, `conditions.dfy`, `condition_reading.dfy` | SQL fragments and their renderer, a lexer, the condition builders, a precedence parser, three-valued meaning |
| `paging.dfy`, `memory_objects.dfy` | cursor pages of the memory object store and the PostgreSQL job list |

Code that updates fields or loops is a class or a method proved against a function on values; protocols are
transition systems whose steps are what happens between two awaits (or one SQL statement). Time is an `int` or
`real` number of milliseconds, tokens are `real`, and `localeCompare` is an unknown total preorder of strings.
Faults, clock readings, chunk boundaries, row locks and interleavings are parameters or chosen freely.

## Where the code and the obvious claim differ

These are results: each has a concrete input or the exact condition.

- The cron window of 4 * 366 days is said to cover every valid expression; across 2100 it does not
  (`Cron.SkippedCenturyDefeatsTheSearch`, exact: `Cron.NoRunIff`).
- A cancel of a running job is overwritten by its worker (`JobQueue.CancelSticksIff`). One handler per job fails
  when a queued record is written under an id that a worker holds, and only then (`JobQueue.TwoHandlersIff`): a
  canceled running job that is retried (`JobQueue.CancelThenRetryRunsTwice`), two retries at once
  (`JobQueue.StaleRetryRunsTwice`).
- "One live job per idempotency key" fails when two enqueues search before either writes
  (`IdempotentEnqueue.RaceLeavesTwo`) and after a terminal job (`IdempotentEnqueue.UndisturbedEnqueueIff`; every
  cause: `IdempotentEnqueue.WriteBesideIff`); the memory job store skips a job at every page border
  (`MemoryJobStore.PagingSkips`).
- The PostgreSQL queue loses its own lease right after claiming (`Leases.UpsertLosesTheLease`), and a running job
  without a lease is never reclaimed (`Leases.RecoverableIffLeased`).
- `up` plans before it locks, and `down` ignores whether a row was there: a run can carry out again what another
  did between its plan and its lock (`InterleavedMigrators.StaleRunSucceeds`, exact:
  `InterleavedMigrators.StaleRunRepeatsIff`).
- Two checks without a name always tie in canonical sorting (`Schema.UnnamedChecksTie`, exact:
  `Schema.TableFormIsUniqueIff`); an empty plan ignores constraints (`PostgresDdl.PlanIsEmptyIff`); the text
  `schema.name` can stand for two tables (`PostgresDdl.UpStatementsReachTo`).
- An asynchronous sink can reorder output (exact: `BufferedSink.RunKeepsOrderIff`); an error inside an array
  leaves the RESP reader inside that array (`Resp.ErrorInsideArrayDesynchronizes`).
- A cached value can be computed again right after it was stored (`SingleFlight.StaleMissComputesAgain`,
  `SingleFlight.SetBehindAMiss`, exact: `SingleFlight.StoredValueIsComputedAgainIff`).
- A line moved from the end of `up` to the start of `down` keeps the checksum (`Checksum.MovedLineKeepsChecksum`).

## Model

| member | source | states |
|---|---|---|
| RedisClient.RedisConnection.Fill | integration/redis_client.ts:206-219 | compacting and appending a chunk keeps the unread stream as it is |
| RedisClient.RedisConnection.ReadLine | integration/redis_client.ts:183-193 | the line up to the first CR LF of the stream, however it is cut into chunks; the rest stays unread |
| RedisClient.RedisConnection.ReadBulkBody | integration/redis_client.ts:195-204 | exactly the announced bytes and the two that end them are consumed, from any chunks |
| RedisClient.RedisConnection.ReadArray | integration/redis_client.ts:169-178 | the elements in order; the first failure ends the call where it stands |
| RedisClient.RedisConnection.ReadReply | integration/redis_client.ts:151-181 | result and unread stream depend on the stream only, not on the chunks |
| Resp.WireBytes | integration/redis_client.ts:131-181 | the bytes on the wire: `+`, `-`, `:`, `$`, `*`, CR and LF |
| Resp.DecimalBytes | integration/redis_client.ts:131-181 | lengths are written in the digits 0-9, most significant first |
| Resp.ReadEncoded | integration/redis_client.ts:151-204 | for every well-formed reply tree, errors included, what the reader returns and which bytes it leaves |
| Resp.RoundTrip | integration/redis_client.ts:151-204 | every error-free reply is read back as its value and the following bytes are untouched |
| Resp.ReadMore | integration/redis_client.ts:151-219 | bytes that arrive after a completed reply only extend the unread suffix |
| Resp.PartialReplyWaits | integration/redis_client.ts:183-219 | no proper prefix of a reply is taken for a reply |
| Resp.ErrorInsideArrayDesynchronizes | integration/redis_client.ts:160-178 | after an error element the next read returns the array's next element |
| RedisClient.EncodeCommand | integration/redis_client.ts:131-140 | `send` writes the RESP array of its arguments, sizes counted in bytes |
| RedisClient.CommandRoundTrip | integration/redis_client.ts:131-142 | a command's bytes read back as exactly its arguments, whatever bytes they hold |
| RedisClient.IndexOfCrlf | integration/redis_client.ts:222-229 | the first CR LF at or after the start, or -1 if there is none |
| RedisClient.Concat | integration/redis_client.ts:231-240 | the chunks one after the other in one new array |
| BufferedSink.EveryRunConserves | packages/foundation/log/mod.ts:271-376 | in every run each written chunk is in exactly one of delivered, in flight, buffered, and the byte count is the buffered total |
| BufferedSink.RunTakesEveryStep | packages/foundation/log/mod.ts:333-374 | a chunk counts as written exactly if the sink was not closed before |
| BufferedSink.SynchronousSinkKeepsOrder | packages/foundation/log/mod.ts:284-312 | with a synchronous sink, delivered then buffered is what was written, in order, whatever throws |
| BufferedSink.SettlingKeepsOrderIff | packages/foundation/log/mod.ts:298-304 | order survives a settling promise exactly if the oldest resolves or the newest is rejected |
| BufferedSink.FlushKeepsOrderIff | packages/foundation/log/mod.ts:284-312 | order survives a flush exactly unless the sink accepts it at once while another batch is in flight |
| BufferedSink.RunKeepsOrderIff | packages/foundation/log/mod.ts:284-374 | chunks stay in order throughout a run exactly if batches resolve oldest first, are rejected newest first, and none is accepted at once while another is in flight |
| BufferedSink.ConcatChunks | packages/foundation/log/mod.ts:1341-1354 | a batch is the concatenation of its chunks |
| BufferedSink.Sink.FlushNow | packages/foundation/log/mod.ts:284-312 | the whole buffer goes out as one batch, or comes back in front if the sink throws |
| BufferedSink.Sink.WriteLine | packages/foundation/log/mod.ts:333-353 | a closed sink refuses; otherwise the chunk is buffered and flushed at the record, byte or error limit, and the call ends as that flush does |
| BufferedSink.Sink.Fulfilled | packages/foundation/log/mod.ts:298-304 | a fulfilled batch counts as delivered |
| BufferedSink.Sink.Rejected | packages/foundation/log/mod.ts:299-303 | a rejected batch is put back in front of the buffer, its bytes counted again |
| BufferedSink.Sink.Close | packages/foundation/log/mod.ts:359-374 | closing flushes what is buffered, and closes the inner sink at once, when that batch is fulfilled, or not at all if the flush throws |
| Calendar.DateOfDayNumber | packages/async/jobs/mod.ts:1327-1346 | every date has one day number, from which year, month and day are read back |
| Calendar.DayNumberOfDate | packages/async/jobs/mod.ts:1327-1346 | every day number has one date, from which it is computed back |
| Calendar.DayFromYearIs | packages/async/jobs/mod.ts:1327-1346 | the standard's formula for the first day of a year counts the days of the years since 1970 |
| Calendar.MonthLengthsAre | packages/async/jobs/mod.ts:1327-1346 | the months have their 30, 31, 28 or 29 days |
| Calendar.WeekdaysFollow | packages/async/jobs/mod.ts:1327-1346 | 1 January 1970 is a Thursday, and the weekday advances by one each day |
| Cron.ParseField | packages/async/jobs/mod.ts:1395-1443 | a field is accepted exactly if all its tokens are valid, and holds exactly the values they name |
| Cron.AcceptedTokens | packages/async/jobs/mod.ts:1395-1443 | which single tokens are accepted, by their bounds and step |
| Cron.FieldIsInRange | packages/async/jobs/mod.ts:1395-1443 | an accepted field is not empty and within its range; `*` holds the whole range |
| Cron.ParseExpression | packages/async/jobs/mod.ts:1301-1325 | an expression is accepted exactly if all five fields are valid, and the schedule holds exactly what they name |
| Cron.NextRun | packages/async/jobs/mod.ts:1352-1378 | the least matching minute strictly after `after`; it throws exactly when none lies in the window |
| Cron.NextCronRun | packages/async/jobs/mod.ts:1352-1373 | from the fields as written: the first minute after `after` that they ask for, and exactly when it throws, for which reason |
| Cron.FeasibleIff | packages/async/jobs/mod.ts:1327-1346 | a check on the fields alone that says whether any calendar day matches |
| Cron.NoRunIff | packages/async/jobs/mod.ts:1292-1378 | the search throws exactly if the fields name no calendar day, or only 29 February and the window starts after the last run four years before a skipped leap year and ends before the first run four years after it |
| Cron.NoRunAwayFromCenturies | packages/async/jobs/mod.ts:1292-1378 | away from skipped leap years it throws exactly for schedules no day ever matches |
| Cron.SkippedCenturyDefeatsTheSearch | packages/async/jobs/mod.ts:1292-1293 | from 1 March four years before any skipped leap year the search for 29 February throws although the year four years after it has one |
| Jobs.ClaimOrderIsTotal | packages/async/jobs/mod.ts:2503-2530 | the claim order is a strict total order on jobs with different ids |
| Jobs.ClaimPicksHighest | packages/async/jobs/mod.ts:903-951 | a claimed job is ready and admitted, none such has a higher priority, and none of its priority is due earlier |
| Jobs.EnqueueIff | packages/async/jobs/mod.ts:1160-1200 | which options are accepted, the defaults of the others, and when the new job is ready |
| Jobs.NewRecordsAreCreated | packages/async/jobs/mod.ts:1160-1200 | every new record can be enqueued |
| Jobs.BackoffRecurrence | packages/async/jobs/mod.ts:1247-1270 | delays start at the base, stay, grow by it or double, never shrink and never exceed the maximum |
| JobQueue.OrderlyRunKeepsInv | packages/async/jobs/mod.ts:1653-1839 | the invariant that ties holders, records and attempt histories, in every orderly interleaving |
| JobQueue.OrderlyRunIsSafe | packages/async/jobs/mod.ts:1676-1839 | one handler per job; attempts numbered without gaps; attempts equal handler starts and are bounded by the maximum plus manual retries |
| JobQueue.FailureRetriesOrBuries | packages/async/jobs/mod.ts:2123-2153 | a failure with attempts left queues the job again, ready exactly from the end of its backoff on; it makes the job dead exactly if none is left |
| JobQueue.FailureIsRetried | packages/async/jobs/mod.ts:1716-1839 | after a failure with attempts left, some continuation by workers alone starts the next attempt |
| JobQueue.DeadJobsUsedTheirAttempts | packages/async/jobs/mod.ts:1716-1839 | in every run a dead job that was never rejected as unknown has used all its attempts |
| JobQueue.WorkersWrite | packages/async/jobs/mod.ts:1716-1839 | the fields that claiming, starting, rejecting and succeeding change, and that no other does |
| JobQueue.ControlsRead | packages/async/jobs/mod.ts:1653-1714 | which statuses a retry and a cancel accept |
| JobQueue.ControlsWrite | packages/async/jobs/mod.ts:1653-1714 | a cancel ends the job now, a retry makes it ready now, and neither touches attempts or history |
| JobQueue.CancelSticksIff | packages/async/jobs/mod.ts:1653-1674 | the canceled record stays through every run of the workers exactly if none of them holds the job, which in an orderly state means that it was not running |
| JobQueue.OneHolderUnlessHeldIsQueued | packages/async/jobs/mod.ts:1653-1839 | in every run at all, one worker at most holds a job, as long as no enqueue or retry writes it queued while it is held |
| JobQueue.TwoHandlersIff | packages/async/jobs/mod.ts:1653-1839 | two handlers of a job can come about at some point of a run exactly if the run wrote it queued while it was held |
| JobQueue.OverwriteRunsTwiceIff | packages/async/jobs/mod.ts:878-891 | one write of a queued record leads to two handlers exactly if a worker holds the job at the write |
| JobQueue.CancelThenRetryRunsTwice | packages/async/jobs/mod.ts:1653-1714 | a running job that is canceled and then retried, with no race, can come to two handlers |
| JobQueue.StaleRetryRunsTwice | packages/async/jobs/mod.ts:1676-1714 | two retries of one dead job, read before either writes, can come to two handlers |
| IdempotentEnqueue.OneLiveJobIff | packages/async/jobs/mod.ts:1589-1631 | a write leaves one live job of its key exactly if no other job of the key is live at that moment |
| IdempotentEnqueue.OneLiveJobThroughoutIff | packages/async/jobs/mod.ts:1589-1631 | in any interleaving of searches, writes and status changes there is one live job of the key at all times exactly if no step stores one beside another |
| IdempotentEnqueue.WriteBesideIff | packages/async/jobs/mod.ts:1589-1631 | a write adds a second live job exactly if its search overlooked one behind a finished job, or another was written or brought back since the search, and that one has not ended |
| IdempotentEnqueue.UndisturbedEnqueueIff | packages/async/jobs/mod.ts:991-999 | a search with its write directly after it keeps one live job exactly unless the oldest job of the key has finished and a younger one is live |
| IdempotentEnqueue.RaceLeavesTwo | packages/async/jobs/mod.ts:1606-1631 | two calls with one key that search before either writes leave two live jobs |
| MemoryJobStore.PagingSkips | packages/async/jobs/mod.ts:953-989 | following cursors leaves out exactly every (limit + 1)-th match; complete exactly if one page holds all |
| MemoryJobStore.Store.Update | packages/async/jobs/mod.ts:878-901 | the record under the id is replaced, whatever it was, all others stay |
| MemoryJobStore.Store.ClaimNext | packages/async/jobs/mod.ts:903-951 | the first ready, admitted job of the claim order is marked running; none exactly if there is none |
| MemoryJobStore.BestCandidate | packages/async/jobs/mod.ts:903-951 | the scan finds the least ready and admitted job of the list |
| Leases.ClaimPicksHighest | packages/async/jobs/postgres/store.ts:344-363 | a claimed row is claimable, none such that is unlocked has a higher priority, and none of its priority is due earlier |
| Leases.ClaimWrites | packages/async/jobs/postgres/store.ts:344-363 | a claim writes status, owner, lease end and start, of one row |
| Leases.HeartbeatWrites | packages/async/jobs/postgres/store.ts:107-122 | a heartbeat moves the lease end of a running row with a live lease and does nothing else |
| Leases.ReclaimWrites | packages/async/jobs/postgres/store.ts:365-379 | a reclaim queues rows whose lease has ended, without a limit all of them, and no other row |
| Leases.EveryLeaseIsOnARunningJob | packages/async/jobs/postgres/store.ts:67-132 | in every reachable table a lease implies status running |
| Leases.ProtocolStepsKeepRows | packages/async/jobs/postgres/store.ts:90-132 | claim, heartbeat and reclaim add and lose no row and touch a row only as their guards allow |
| Leases.ExpiredUntilClaimedAgain | packages/async/jobs/postgres/store.ts:90-132 | with a clock that does not go back, an expired lease is not alive at any later time before the job is claimed again |
| Leases.ReclaimedBeforeClaimedAgain | packages/async/jobs/postgres/store.ts:90-132 | between two claims of a job lies an upsert to queued, or a reclaim strictly after the end of its lease at that moment, which the claim or the last heartbeat with an effect had set |
| Leases.RecoverableIffLeased | packages/async/jobs/postgres/store.ts:365-379 | a running job of a reachable table is reclaimed in some continuation without writes to it exactly if it has a lease |
| Leases.UpsertLosesTheLease | packages/async/jobs/postgres/store.ts:316-342 | after an upsert to running no protocol step touches the row any more |
| Leases.JobsTable.UpsertRow | packages/async/jobs/postgres/store.ts:316-342 | the row is written with no lock owner and no lease |
| Leases.JobsTable.ClaimNext | packages/async/jobs/postgres/store.ts:344-363 | a first claimable row not locked by others is leased to the worker |
| Leases.JobsTable.ExtendLease | packages/async/jobs/postgres/store.ts:107-122 | a live lease is extended, whoever asks |
| Leases.JobsTable.ReclaimExpired | packages/async/jobs/postgres/store.ts:365-379 | the earliest expired rows, up to the limit, go back to queued |
| Leases.EarliestExpired | packages/async/jobs/postgres/store.ts:365-379 | the limit picks as many rows as there are, earliest lease ends first |
| TokenBucket.Configure | packages/state/cache/mod.ts:825-840 | options are accepted exactly if positive, and the rate over the interval is the refill |
| TokenBucket.BucketBound | packages/state/cache/mod.ts:825-924 | with a non-decreasing clock, grants in any interval are at most capacity plus refill, plus a capacity per reset |
| TokenBucket.RetryAfterIsLeast | packages/state/cache/mod.ts:838-905 | a denied request that fits succeeds after a whole wait exactly if the wait is at least the reported one |
| TokenBucket.RemainingIsExact | packages/state/cache/mod.ts:853-905 | after any consume or peek a whole cost is allowed at that moment exactly if it is at most the reported remainder |
| TokenBucket.ResetAtIsLeast | packages/state/cache/mod.ts:853-905 | left alone, the bucket is full after a whole wait exactly from the reported reset time on |
| TokenBucket.PeekReportsOneUnit | packages/state/cache/mod.ts:907-915 | a peek is allowed exactly if one unit is; if not, it reports the least wait that refills one |
| TokenBucket.OversizedNeverAllowed | packages/state/cache/mod.ts:870-905 | a cost above the capacity never succeeds |
| TokenBucket.ExpiryInvisible | packages/state/cache/mod.ts:518-566 | over the expiring store all results are those over a store that keeps everything |
| TokenBucket.Limiter.Get | packages/state/cache/mod.ts:306-328 | an expired entry is dropped and not returned; other keys stay |
| TokenBucket.Limiter.Handle | packages/state/cache/mod.ts:870-924 | one request: result and stored state from the live entry of its key, other keys stay |
| FixedWindow.WindowBound | packages/state/cache/mod.ts:740-817 | less than twice the limit in any half-open window length, plus a limit per reset |
| FixedWindow.WindowBoundIsTight | packages/state/cache/mod.ts:735-758 | the bound is approached as closely as one likes |
| FixedWindow.RetryAfterIsLeast | packages/state/cache/mod.ts:750-796 | a denied request that fits succeeds after a wait exactly if it is at least the reported one |
| FixedWindow.RemainingIsExact | packages/state/cache/mod.ts:760-796 | after any consume or peek a cost is allowed at that moment exactly if it is at most the reported remainder |
| FixedWindow.ResetAtIsFirst | packages/state/cache/mod.ts:750-796 | a used window is replaced by a new one exactly from the reported reset time on |
| FixedWindow.WaitIsToTheReset | packages/state/cache/mod.ts:760-796 | a denied request is told to wait for the reset, an allowed one not at all |
| FixedWindow.OversizedNeverAllowed | packages/state/cache/mod.ts:777-796 | a cost above the limit never succeeds |
| FixedWindow.ExpiryInvisible | packages/state/cache/mod.ts:518-566 | over the expiring store all results are those over a store that keeps everything |
| FixedWindow.Limiter.Handle | packages/state/cache/mod.ts:777-817 | one request: result and stored window from the live entry of its key, other keys stay |
| KeyedMutex.EveryRunKeepsInv | packages/state/cache/mod.ts:937-952 | every interleaving keeps each call behind the previous one on its key, up to the key's tail |
| KeyedMutex.MutualExclusion | packages/state/cache/mod.ts:937-952 | at most one call per key is active and calls start in arrival order, also after rejections |
| KeyedMutex.TailStaysWhileQueued | packages/state/cache/mod.ts:945-950 | no tail entry is removed while work on the key is queued |
| KeyedMutex.NoTailIsLeft | packages/state/cache/mod.ts:945-950 | once all calls on a key are cleaned up, the map has forgotten the key |
| KeyedMutex.FirstUnfinishedCanMove | packages/state/cache/mod.ts:937-952 | the first unfinished call on a key can always go on |
| KeyedMutex.FirstUnfinishedFinishes | packages/state/cache/mod.ts:937-952 | and its own steps alone finish it |
| KeyedMutex.EveryRunIsSerial | packages/state/cache/mod.ts:777-798 | results and stored states equal those of running the completed calls one after the other |
| KeyedMutex.KeyIsSequential | packages/state/cache/mod.ts:937-952 | on each key the completed calls are a sequential run of the guarded function on that key's slot |
| ConcurrentLimiters.KeyIsSorted | packages/state/cache/mod.ts:781-798 | if clock readings at the starts on a key do not go back, its completed calls are in the order of their readings |
| ConcurrentLimiters.ConcurrentBucketBound | packages/state/cache/mod.ts:870-905 | the bucket bound holds of every interleaving of calls on a key |
| ConcurrentLimiters.ConcurrentWindowBound | packages/state/cache/mod.ts:777-817 | the window bound holds of every interleaving of calls on a key |
| SingleFlight.OneFlightPerKey | packages/state/cache/mod.ts:1145-1174 | at most one unfinished computation per key, and it is the one later callers join |
| SingleFlight.MissJoinsOrStarts | packages/state/cache/mod.ts:1145-1174 | a call that finds nothing or is forced joins the flight in the map, or starts one of its own, behind the lock exactly if asked |
| SingleFlight.FlightDelivers | packages/state/cache/mod.ts:1160-1173 | what a factory computes can be stored and returned to any caller that waits for it |
| SingleFlight.NoEntryIsLeft | packages/state/cache/mod.ts:1166-1173 | the in-flight map is empty once nobody waits for a computation of its own |
| SingleFlight.CallersOfAFlightAgree | packages/state/cache/mod.ts:1160-1173 | all callers of one computation return its result, rejections included |
| SingleFlight.StoredValueIsComputedAgainIff | packages/state/cache/mod.ts:1145-1167 | in every run a stored value is computed again exactly by a forced call, or by a caller that read before it was stored (set directly, or by a flight that is gone when the caller resumes), with no flight of the key under way |
| SingleFlight.ExtraFlightsAreBounded | packages/state/cache/mod.ts:1145-1167 | a key is computed again at most once for each such caller |
| SingleFlight.StaleMissComputesAgain | packages/state/cache/mod.ts:1145-1167 | such a run exists, without forcing, direct sets or eviction |
| SingleFlight.SetBehindAMiss | packages/state/cache/mod.ts:1012-1023 | a direct `set` between a read and its resumption is computed again too |
| SingleFlight.LateCallerHits | packages/state/cache/mod.ts:1152-1158 | a read that finds a value returns it without a computation, whatever happens before the caller resumes |
| Checksum.NormalizeIdempotent | packages/data/migrate/core/mod.ts:649-656 | normalizing twice is normalizing once |
| Checksum.NormalizeIgnoresLayout | packages/data/migrate/core/mod.ts:649-656 | line-ending style, trailing blanks and trailing blank lines leave no trace |
| Checksum.NormalizeEqualIff | packages/data/migrate/core/mod.ts:649-656 | and nothing else is ignored |
| Checksum.UnitsAre | packages/data/migrate/core/mod.ts:649-656 | which units end a line and which count as blanks |
| Checksum.HashStepInjective | packages/data/migrate/core/mod.ts:1411-1420 | a hash step is injective in the state and in the unit, modulo 2^32 |
| Checksum.OneUnitChangesHash | packages/data/migrate/core/mod.ts:1411-1420 | replacing one code unit always changes the hash |
| Checksum.HashString | packages/data/migrate/core/mod.ts:1411-1420 | the loop computes that hash |
| Checksum.KnownHashes | packages/data/migrate/core/mod.ts:1411-1420 | the published FNV-1a values of the empty text and of `a` |
| Checksum.Base36Injective | packages/data/migrate/core/mod.ts:1411-1420 | the printed hash determines the hash |
| Checksum.RenderIs | packages/data/migrate/core/mod.ts:627-656 | the printed hash is `migr_` and digits to base 36 that read back as the hash |
| Checksum.ChecksumNoticesOneUnit | packages/data/migrate/core/mod.ts:627-647 | the checksum always notices one changed unit of its input |
| Checksum.HashInputEqualIff | packages/data/migrate/core/mod.ts:627-647 | which migrations share a hash input, exactly |
| Checksum.MovedLineKeepsChecksum | packages/data/migrate/core/mod.ts:627-647 | a line moved across the border of up and down keeps the checksum |
| Migrations.AttemptIsAllOrNothingIff | packages/data/migrate/core/mod.ts:987-1094 | a success is a whole migration with its row; exactly when a failure leaves nothing, for every driver and store setting |
| Migrations.RunIsWholeMigrations | packages/data/migrate/core/mod.ts:882-894 | with the history in the transaction, any run leaves exactly its first executed migrations, each whole |
| Migrations.UpPlanIff | packages/data/migrate/core/mod.ts:364-421 | `up` has a plan exactly for positive steps, distinct ids and no changed checksum, unless those are allowed |
| Migrations.PlanUpIs | packages/data/migrate/core/mod.ts:711-721 | the plan is pending migrations in the order of their ids; what it leaves out comes later, and only `steps` can leave it out |
| Migrations.DownPlanIff | packages/data/migrate/core/mod.ts:1205-1245 | when `down` has a plan, and when it throws for its target |
| Migrations.PlanDownIs | packages/data/migrate/core/mod.ts:735-752 | the plan is applied migrations in descending order of their ids; what it leaves out comes later, by `steps` or behind the target where it ends |
| Migrations.MigrateFollowsIds | packages/data/migrate/core/mod.ts:852-966 | whatever fails, the statements of an `up` are logged in the order of ids, those of a `down` in descending order, each migration's in its own |
| Migrations.FaultlessMigrateIff | packages/data/migrate/core/mod.ts:852-966 | without faults a call succeeds exactly with a plan, a free lock and statements that all succeed, and then has done all of it |
| Migrations.PointsAre | packages/data/migrate/core/mod.ts:364-421 | what it means to be at a prefix: nothing applied, or one whole migration more; exactly the ids of the prefix are in the history |
| Migrations.PointIsClean | packages/data/migrate/core/mod.ts:364-421 | what runs leave is never reported as a checksum mismatch |
| Migrations.UpStaysAtAPoint | packages/data/migrate/core/mod.ts:852-907 | an `up` from a prefix of the sorted migrations ends at a prefix, whatever fails, and at all of them if it succeeds |
| Migrations.DownStaysAtAPoint | packages/data/migrate/core/mod.ts:909-966 | a `down` from a prefix ends at the prefix shorter by what was executed, in the history whatever the steps do, in the database if the executed ones invert |
| Migrations.UpThenDownRestores | packages/data/migrate/core/mod.ts:852-966 | up and then down by as many steps restores the history, and the database if the executed down steps invert |
| InterleavedMigrators.RunKeepsInv | packages/data/migrate/core/mod.ts:852-966 | in every interleaving one migrator holds the lock, and what it has done since is the whole first migrations of its plan |
| InterleavedMigrators.ReleasedAfterThePlan | packages/data/migrate/core/mod.ts:852-966 | the lock is given back only after a failure or after the whole plan |
| InterleavedMigrators.StaleRunRepeatsIff | packages/data/migrate/core/mod.ts:856-887 | at any time under its lock, also after a failure, a migrator has executed again what was applied (for down: removed) at its lock exactly if it has touched a migration of its plan that was recorded (removed) between plan and lock |
| InterleavedMigrators.StaleRunSucceeds | packages/data/migrate/core/mod.ts:852-907 | two plans on one history, one run, and the second takes the free lock and executes the same migration again |
| Migrations.Migrator.ExecuteStep | packages/data/migrate/core/mod.ts:1181-1203 | the statements in order up to the first that fails |
| Migrations.Migrator.RunOne | packages/data/migrate/postgres/executor.ts:75-103 | one migration in a transaction: commit, or roll back and keep the failure |
| Migrations.Migrator.Record | packages/data/migrate/postgres/history.ts:96-125 | the history row is written where the store writes, inside or outside the transaction |
| Migrations.Migrator.RunList | packages/data/migrate/core/mod.ts:882-887 | the list in order up to the first failure |
| Migrations.Migrator.MigrateNow | packages/data/migrate/core/mod.ts:852-966 | plan, then lock, then run; the lock is free again whatever fails |
| ConcurrentMigrators.EachMigrationAtMostOnce | packages/data/migrate/postgres/history.ts:96-116 | with any number of migrators and stale plans, each statement is committed at most once and exactly if its migration is in the history |
| ConcurrentMigrators.RunStaysOnPlan | packages/data/migrate/postgres/executor.ts:75-103 | a migrator executes the first migration left in its plan, and only statements of it |
| ConcurrentMigrators.IdleMigratorApplies | packages/data/migrate/postgres/executor.ts:75-103 | a migration that is in no history and no open transaction can be applied whole by any idle migrator |
| ConcurrentMigrators.AtMostOnceIffTransactional | packages/data/migrate/postgres/executor.ts:75-103 | for every statement of every migration, at most once holds of every run exactly if statements and insert share a transaction |
| Sorting.SortIsStable | packages/data/schema/mod.ts:259-272 | ties keep their order |
| Sorting.SortIgnoresArrangementIff | packages/data/schema/mod.ts:818-832 | all arrangements sort to one list exactly if no two different items tie |
| KeyedDiff.ComputeDiff | packages/data/schema/mod.ts:355-452 | the loops over two lists and their maps compute the difference |
| KeyedDiff.DiffRebuilds | packages/data/schema/mod.ts:417-452 | the difference rebuilds the new map from the old one |
| KeyedDiff.KeysArePartitioned | packages/data/schema/mod.ts:417-452 | every key is exactly one of added, removed, changed, equal |
| KeyedDiff.SwapSwaps | packages/data/schema/mod.ts:417-452 | swapping the arguments swaps added and removed and turns changes round |
| KeyedDiff.DiffEmptyIff | packages/data/schema/mod.ts:396-411 | no difference exactly if both maps are equal |
| Schema.KeysAreWritten | packages/data/schema/mod.ts:809-832 | tables are keyed by schema, a dot and name; constraints by name, or else by their columns joined with commas |
| Schema.CanonicalOrder | packages/data/schema/mod.ts:259-272 | in a canonical form tables and the constraints of each go up by those keys |
| Schema.NormalizeIsIdempotent | packages/data/schema/mod.ts:259-272 | a canonical form is its own canonical form |
| Schema.TableFormIsUniqueIff | packages/data/schema/mod.ts:454-476 | all rearrangements of a table's constraints have one form exactly if constraint sort keys decide |
| Schema.UnnamedChecksTie | packages/data/schema/mod.ts:825-832 | two different checks without a name have two canonical forms |
| Schema.ArrangementDoesNotMatter | packages/data/schema/mod.ts:259-272 | with deciding keys, snapshots that differ in order only have one canonical form |
| Schema.NormalizeKeepsValidity | packages/data/schema/mod.ts:155-233 | a snapshot is valid exactly if its canonical form is |
| Schema.SerializeRoundTrip | packages/data/schema/mod.ts:281-305 | reading back a canonical text gives the canonical form, or fails exactly for an invalid snapshot |
| Schema.NonEmptyIff | packages/data/schema/mod.ts:808-810 | a name counts exactly if it has a character that is not white space |
| Schema.ValidateTable | packages/data/schema/mod.ts:599-673 | no issue exactly if columns and constraint column lists are right |
| Schema.ValidateTargets | packages/data/schema/mod.ts:675-749 | no issue exactly if every reference into a known table names one of its columns |
| Schema.ValidateSnapshot | packages/data/schema/mod.ts:155-233 | no issue exactly if the snapshot is valid |
| Schema.NoDifferenceIffEqual | packages/data/schema/mod.ts:355-403 | valid snapshots have no difference exactly if their canonical tables are equal |
| Schema.TablesAreRebuilt | packages/data/schema/mod.ts:355-394 | the table difference rebuilds the table map |
| Schema.ColumnsAreRebuilt | packages/data/schema/mod.ts:380-390 | in each changed table the column difference rebuilds the column map |
| PostgresDdl.StatementsAreTheAdditiveChanges | packages/data/migrate/postgres/ddl.ts:140-165 | statements implement the non-destructive changes one for one and in order |
| PostgresDdl.ComputeStatements | packages/data/migrate/postgres/ddl.ts:140-159 | the loops push exactly those statements |
| PostgresDdl.StatementsSucceed | packages/data/migrate/postgres/ddl.ts:88-159 | no statement is refused for a table or column that is there already or missing, a repeated column name or an unknown key column |
| PostgresDdl.CreateIsRefusedIff | packages/data/migrate/postgres/ddl.ts:103-117 | when the modelled database refuses a `CREATE TABLE`, exactly |
| PostgresDdl.NothingTwice | packages/data/migrate/postgres/ddl.ts:103-127 | and that it accepts no statement twice |
| PostgresDdl.DefinitionFits | packages/data/migrate/postgres/ddl.ts:81-101 | a column's definition refuses null exactly if the snapshot says so, and writes its type, length, precision, array and default so that they read back |
| PostgresDdl.StatementsReach | packages/data/migrate/postgres/ddl.ts:103-165 | afterwards every new table has the snapshot's columns in order and its primary key, every new column fits its snapshot, old tables keep their columns and key, and what differs is withheld |
| PostgresDdl.PlanThrowsIff | packages/data/migrate/core/mod.ts:482-514 | planning and generating throw exactly for an invalid snapshot |
| PostgresDdl.OldColumnsStay | packages/data/migrate/postgres/ddl.ts:140-159 | every column that was there is there unchanged |
| PostgresDdl.LeftOversAreListed | packages/data/migrate/postgres/ddl.ts:161-165 | the database differs from the goal only at entries listed as destructive |
| PostgresDdl.UpStatementsReachTo | packages/data/migrate/postgres/ddl.ts:140-165 | all of this for all valid snapshots, and with nothing destructive the column goal is reached exactly if table keys are faithful |
| PostgresDdl.PlanIsEmptyIff | packages/data/migrate/core/mod.ts:482-514 | a plan is empty exactly if all column maps are equal, whatever the constraints |
| SqlText.RenderState.RenderInto | packages/data/orm/core/mod.ts:1904-1926 | text and parameters are appended together, numbered from those already there |
| SqlText.TextIsInterleaved | packages/data/orm/core/mod.ts:1904-1926 | the text is literal pieces with placeholder k standing for parameter k of the flattened tree |
| SqlText.TextIgnoresValues | packages/data/orm/core/mod.ts:1904-1926 | fragments that differ in parameter values only have one text |
| SqlReading.IdentifierChars | packages/data/orm/core/mod.ts:2171-2173 | the characters a part of an identifier may have |
| SqlReading.ReadSpelled | packages/data/orm/core/mod.ts:721-732 | spelled tokens, quoted paths and placeholders lex back to the same tokens in every dialect |
| Conditions.CombineMeans | packages/data/orm/core/mod.ts:1971-1996 | `and` and `or` drop missing conditions, pass a single one through, and throw exactly if none is given |
| Conditions.CombineIsProper | packages/data/orm/core/mod.ts:1971-1996 | combining keeps conditions within what the builders make |
| Conditions.RenderCondition | packages/data/orm/core/mod.ts:1928-1996 | the rendered text of any condition is the spelling of its tokens |
| Conditions.TokensNumbered | packages/data/orm/core/mod.ts:1917-1923 | placeholders count 1, 2, ... with one parameter each |
| ConditionReading.ReadCondition | packages/data/orm/core/mod.ts:1928-1996 | precedence parsing finds the structure the builders were given |
| ConditionReading.SymbolMeans | packages/data/orm/core/mod.ts:735-772 | each builder writes the SQL operator that makes the comparison it is named for |
| ConditionReading.TreeMeans | packages/data/orm/core/mod.ts:735-822 | the parsed structure, read with SQL's own operators, has the builders' three-valued meaning |
| ConditionReading.RenderedConditionKeepsItsMeaning | packages/data/orm/core/mod.ts:735-822 | rendering and reading back with SQL precedence keeps the three-valued meaning of every condition |
| Paging.StoragePageIsPage | packages/state/storage/mod.ts:446-468 | a page of the object store is the next keys in order and its cursor splits what is ahead |
| Paging.JobPageIsPage | packages/async/jobs/postgres/store.ts:134-151 | the same for the job list, whose cursor is the last key returned |
| Paging.PagingIsComplete | packages/state/storage/mod.ts:446-468 | under any changes between pages: increasing, no key twice, only keys that matched, and every key that matched throughout |
| Paging.QuietPagingListsAll | packages/async/jobs/postgres/store.ts:381-389 | with no changes the pages are exactly all keys in order |
| Paging.QuietPagingEnds | packages/state/storage/mod.ts:446-468 | with no changes, following the cursors ends |
| Paging.PageSize | packages/async/jobs/postgres/store.ts:134-151 | a page holds at most `limit` keys, and exactly so many if there is a cursor |
| MemoryObjects.MatchesPrefixIff | packages/state/storage/mod.ts:1795-1801 | a key matches a prefix exactly if it is the prefix or lies below it |
| MemoryObjects.ViewIncreases | packages/state/storage/mod.ts:446-456 | the listed keys are each matching key once, in increasing order |
| MemoryObjects.Store.Put | packages/state/storage/mod.ts:397-416 | the key becomes the newest, then the oldest go over the bound |
| MemoryObjects.Store.Evict | packages/state/storage/mod.ts:1959-1976 | the newest `max` entries stay, in order |
| MemoryObjects.Store.Delete | packages/state/storage/mod.ts:435-440 | the key is gone, the others stay in order, and whether it was there is reported |
| MemoryObjects.Store.List | packages/state/storage/mod.ts:446-468 | the next page of the matching keys |

## Left out

- Sockets, timers, pools, SQL drivers, loggers, error wrapping and cloning: a driver is a step that succeeds or fails.
- RESP text decoding: texts are bytes.
- RedisClient.RedisConnection.ReadReply: a length or integer that is not `-?[0-9]+`, or a bulk length below -1, is an error result; the client goes on with a number it cannot use.
- Cron text: fields start from parsed tokens, so JavaScript number quirks and extra `/` parts are not modelled.
- The recurring scheduler's `tick`, and progress reports.
- Jobs.BackoffRecurrence: without jitter, which multiplies the delay by a random factor from 0 to 1 and which retries do not use.
- MemoryJobStore.Store.Update: the store has no `maxJobs`; with one, a write may also evict the oldest finished jobs, then the oldest others.
- Eviction from a memory cache store with `maxEntries`, which can drop a limiter's state early.
- Floating-point rounding and overflow in limiter and backoff arithmetic, and calls whose clock goes back.
- A failing cache store under a limiter: keyed calls may reject in their body, but a store error is not a separate step.
- SingleFlight: the time a cross-process lock takes and its expiry; the second look after it is a step.
- Migrations.Migrator.MigrateNow: one sequential call; other migrators acting between its plan and its lock are in `interleaved_migrators.dfy`.
- Migrations: a rollback that itself fails (the connection is then lost, and its transaction with it), a failing lock release, fractional `steps`, ids and steps that fail validation, and programmatic steps that open a nested transaction (they run in the outer one).
- ConcurrentMigrators: the creation of the history table, and blocking between DDL statements, which only delays steps.
- Schema.SerializeRoundTrip: a canonical JSON text is identified with the value it encodes; copying of records is value equality.
- PostgresDdl.StatementsSucceed: refusals because of rows (NOT NULL without a default), a missing schema or a column named twice in a key are not modelled.
- Jobs.EnqueueIff: numbers are whole; trimming and checking of ids, names and keys is not modelled.
- PostgresDdl: statements are trees; quoting of identifiers, and indexes, foreign keys, checks and generated columns, which the generator does not emit.
- SQLite DDL, which drops the schema qualifier, and drivers for SQLite, libSQL and Turso.
- SQL queries other than conditions (select, insert, update, joins), raw fragments given as values, and how a database orders scalars and matches patterns: its order and its `LIKE` are unknown relations, equality is equality.
- Storage key normalization: stored keys, prefixes and cursors are taken as already normal.
- Job lists with limit 0, which return no job and no cursor however much is left.
- Facades, no-op drivers, command line, type inference, cookies, environment parsing and HTTP helpers: no hard property.
