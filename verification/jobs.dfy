/**
 Job records, the claim order and the retry backoff.
 */
module Jobs {

  datatype Option<T> = None | Some(value: T)

  /** A job id, by its place in the collation order of ids. */
  type JobId = nat

  datatype Status = Queued | Running | Succeeded | Failed | Dead | Canceled

  datatype Priority = Low | Normal | High | Critical

  datatype Strategy = Fixed | Linear | Exponential

  datatype Attempt = Attempt(number: nat, startedAt: int, finishedAt: int, failed: bool)

  datatype Job = Job(
    id: JobId, queue: string, name: string, status: Status, priority: Priority,
    attempts: nat, maxAttempts: nat, backoffMs: nat, maxBackoffMs: nat, strategy: Strategy,
    createdAt: int, runAt: int, startedAt: Option<int>, finishedAt: Option<int>,
    history: seq<Attempt>, idempotencyKey: Option<string>)

  predicate Terminal(status: Status) {
    status == Succeeded || status == Dead || status == Canceled
  }

  predicate Retryable(status: Status) {
    status == Failed || status == Dead || status == Canceled
  }

  predicate Ready(job: Job, now: int) {
    job.status == Queued && job.runAt <= now
  }

  // ----- The claim order ----------------------------------------------------------------

  function PriorityRank(p: Priority): int {
    match p
    case Critical => 4
    case High => 3
    case Normal => 2
    case Low => 1
  }

  predicate CreatedBefore(a: Job, b: Job) {
    a.createdAt < b.createdAt || (a.createdAt == b.createdAt && a.id < b.id)
  }

  /** `compareJobsForClaim(a, b) < 0`. */
  predicate ClaimedBefore(a: Job, b: Job) {
    || PriorityRank(a.priority) > PriorityRank(b.priority)
    || (a.priority == b.priority
        && (a.runAt < b.runAt || (a.runAt == b.runAt && CreatedBefore(a, b))))
  }

  /** The claim order is a strict total order on jobs with different ids. */
  lemma ClaimOrderIsTotal(a: Job, b: Job, c: Job)
    ensures !ClaimedBefore(a, a)
    ensures ClaimedBefore(a, b) && ClaimedBefore(b, c) ==> ClaimedBefore(a, c)
    ensures a.id != b.id ==> (ClaimedBefore(a, b) <==> !ClaimedBefore(b, a))
  {
  }

  /** Critical comes before high, high before normal, normal before low. */
  ghost predicate Outranks(a: Priority, b: Priority) {
    match a
    case Critical => b != Critical
    case High => b == Normal || b == Low
    case Normal => b == Low
    case Low => false
  }

  /** What comes first: the higher priority, then the earlier time to run, then the older job. */
  lemma {:induction false} ClaimedBeforeMeans(a: Job, b: Job)
    ensures Outranks(a.priority, b.priority) ==> ClaimedBefore(a, b)
    ensures a.priority == b.priority && a.runAt < b.runAt ==> ClaimedBefore(a, b)
    ensures a.priority == b.priority && a.runAt == b.runAt ==>
      (ClaimedBefore(a, b) <==> a.createdAt < b.createdAt || (a.createdAt == b.createdAt && a.id < b.id))
  {
  }

  // ----- Backoff ------------------------------------------------------------------------

  function Min(a: int, b: int): int {
    if a < b then a else b
  }

  function Pow2(n: nat): (r: nat)
    ensures r >= 1
  {
    if n == 0 then 1 else 2 * Pow2(n - 1)
  }

  /** The delay before it is cut off. */
  function RawDelay(n: nat, backoffMs: nat, strategy: Strategy): int
    requires n >= 1
  {
    match strategy
    case Fixed => backoffMs
    case Linear => backoffMs * n
    case Exponential => backoffMs * Pow2(n - 1)
  }

  /** The delay before attempt `attempt + 1`, without jitter. */
  function Backoff(attempt: nat, backoffMs: nat, maxBackoffMs: nat, strategy: Strategy): int {
    Min(RawDelay(if attempt < 1 then 1 else attempt, backoffMs, strategy), maxBackoffMs)
  }

  /**
   From one attempt to the next the delay stays, grows by the base or doubles, and it is cut
   off at the maximum; so it never shrinks and starts at the base.
   */
  lemma BackoffRecurrence(attempt: nat, backoffMs: nat, maxBackoffMs: nat, strategy: Strategy)
    requires attempt >= 1 && backoffMs <= maxBackoffMs
    ensures Backoff(1, backoffMs, maxBackoffMs, strategy) == backoffMs == Backoff(0, backoffMs, maxBackoffMs, strategy)
    ensures var here := Backoff(attempt, backoffMs, maxBackoffMs, strategy);
            var next := Backoff(attempt + 1, backoffMs, maxBackoffMs, strategy);
            && here <= next <= maxBackoffMs
            && next == match strategy
                 case Fixed => here
                 case Linear => Min(here + backoffMs, maxBackoffMs)
                 case Exponential => Min(2 * here, maxBackoffMs)
  {
    FirstDelay(backoffMs, strategy);
    match strategy
    case Fixed =>
    case Linear =>
      var here, next := backoffMs * attempt, backoffMs * (attempt + 1);
      OneMore(backoffMs, attempt);
      assert next == here + backoffMs;
    case Exponential =>
      var power := Pow2(attempt - 1);
      Doubled(backoffMs, power);
      var here, next := backoffMs * power, backoffMs * Pow2(attempt);
      assert next == 2 * here && here >= 0;
  }

  lemma FirstDelay(backoffMs: nat, strategy: Strategy)
    ensures RawDelay(1, backoffMs, strategy) == backoffMs
  {
    assert Pow2(0) == 1;
  }

  lemma OneMore(a: nat, n: nat)
    ensures a * (n + 1) == a * n + a
  {
  }

  lemma Doubled(a: nat, p: nat)
    ensures a * (2 * p) == 2 * (a * p) && a * p >= 0
  {
  }

  // ----- Record changes -----------------------------------------------------------------

  function Claimed(job: Job, now: int): Job {
    job.(status := Running, startedAt := Some(now))
  }

  function Begun(job: Job, now: int): Job {
    job.(status := Running, attempts := job.attempts + 1, startedAt := Some(now))
  }

  function SucceededRecord(job: Job, startedAt: int, now: int): Job {
    job.(status := Succeeded, finishedAt := Some(now),
         history := job.history + [Attempt(job.attempts, startedAt, now, false)])
  }

  /** `createFailedJobRecord`. */
  function FailedRecord(job: Job, startedAt: int, now: int): Job {
    var history := job.history + [Attempt(job.attempts, startedAt, now, true)];
    if job.attempts < job.maxAttempts then
      job.(status := Queued, history := history,
           runAt := now + Backoff(job.attempts, job.backoffMs, job.maxBackoffMs, job.strategy))
    else job.(status := Dead, history := history, finishedAt := Some(now))
  }

  function UnknownDefinitionRecord(job: Job, now: int): Job {
    job.(status := Dead, finishedAt := Some(now))
  }

  function CanceledRecord(job: Job, now: int): Job {
    job.(status := Canceled, finishedAt := Some(now))
  }

  function RetriedRecord(job: Job, now: int): Job {
    job.(status := Queued, runAt := now, finishedAt := None)
  }

  /** What `createJobRecord` makes. */
  predicate NewRecord(job: Job) {
    && job.status == Queued && job.attempts == 0 && job.history == []
    && job.maxAttempts >= 1 && job.backoffMs <= job.maxBackoffMs
  }

  /** The options that enqueuing looks at; `None` where one is left out. */
  datatype EnqueueOptions = EnqueueOptions(
    queue: Option<string>, priority: Option<Priority>, attempts: Option<int>, backoffMs: Option<int>,
    maxBackoffMs: Option<int>, strategy: Option<Strategy>, runAt: Option<int>, delayMs: Option<int>,
    idempotencyKey: Option<string>)

  function Given<T>(option: Option<T>, standard: T): T {
    match option case None => standard case Some(value) => value
  }

  /** `createJobRecord`, None where it throws. */
  function CreatedRecord(id: JobId, name: string, o: EnqueueOptions, now: int): Option<Job> {
    var attempts, backoffMs, maxBackoffMs := Given(o.attempts, 1), Given(o.backoffMs, 1_000), Given(o.maxBackoffMs, 60_000);
    if attempts < 1 || backoffMs < 0 || maxBackoffMs < 0 || maxBackoffMs < backoffMs then None
    else if o.runAt == None && o.delayMs.Some? && o.delayMs.value < 0 then None
    else
      Some(Job(id, Given(o.queue, "default"), name, Queued, Given(o.priority, Normal),
               0, attempts, backoffMs, maxBackoffMs, Given(o.strategy, Exponential),
               now, Given(o.runAt, now + Given(o.delayMs, 0)), None, None, [], o.idempotencyKey))
  }

  /**
   A job can be enqueued exactly with at least one attempt, delays that are not negative and a base
   delay within the maximum; it is then a new record, and ready once its start or delay has come.
   */
  lemma {:induction false} EnqueueIff(id: JobId, name: string, o: EnqueueOptions, now: int, t: int)
    ensures CreatedRecord(id, name, o, now).Some? <==>
      && !(o.attempts.Some? && o.attempts.value <= 0) && !(o.backoffMs.Some? && o.backoffMs.value < 0)
      && !(o.runAt == None && o.delayMs.Some? && o.delayMs.value < 0)
      && (match (o.backoffMs, o.maxBackoffMs)
          case (None, None) => true
          case (Some(base), None) => base <= 60_000
          case (None, Some(max)) => 1_000 <= max
          case (Some(base), Some(max)) => base <= max)
    ensures CreatedRecord(id, name, o, now).Some? ==>
      var job := CreatedRecord(id, name, o, now).value;
      && NewRecord(job) && job.createdAt == now
      && (o.attempts == None ==> job.maxAttempts == 1)
      && (o.queue == None ==> job.queue == "default") && (o.priority == None ==> job.priority == Normal)
      && (o.strategy == None ==> job.strategy == Exponential)
      && (Ready(job, t) <==>
            if o.runAt.Some? then t >= o.runAt.value else if o.delayMs.Some? then t - now >= o.delayMs.value else t >= now)
  {
  }

  /** Every new record that has not been started is what enqueuing its own fields makes. */
  lemma {:induction false} NewRecordsAreCreated(job: Job)
    requires NewRecord(job) && job.startedAt == None && job.finishedAt == None
    ensures CreatedRecord(job.id, job.name,
      EnqueueOptions(Some(job.queue), Some(job.priority), Some(job.maxAttempts), Some(job.backoffMs), Some(job.maxBackoffMs),
                     Some(job.strategy), Some(job.runAt), None, job.idempotencyKey), job.createdAt) == Some(job)
  {
  }

  datatype Filter = Filter(queue: Option<string>, names: Option<set<string>>)

  predicate Admits(f: Filter, job: Job) {
    && (f.queue.Some? ==> job.queue == f.queue.value)
    && (f.names.Some? ==> job.name in f.names.value)
  }

  /** The job `claimNext` must pick: ready, admitted, and before every other such job. */
  ghost predicate IsChoice(jobs: map<JobId, Job>, f: Filter, now: int, id: JobId) {
    && id in jobs && Ready(jobs[id], now) && Admits(f, jobs[id])
    && forall k :: k in jobs && k != id && Ready(jobs[k], now) && Admits(f, jobs[k]) ==>
         ClaimedBefore(jobs[id], jobs[k])
  }

  /** A claimed job has the highest priority of all ready and admitted ones, and is the earliest of those with it. */
  lemma {:induction false} ClaimPicksHighest(jobs: map<JobId, Job>, f: Filter, now: int, id: JobId, k: JobId)
    requires IsChoice(jobs, f, now, id)
    ensures jobs[id].status == Queued && jobs[id].runAt <= now
    ensures (f.queue == None || f.queue == Some(jobs[id].queue)) && (f.names == None || jobs[id].name in f.names.value)
    ensures (k in jobs && jobs[k].status == Queued && jobs[k].runAt <= now
             && (f.queue == None || f.queue == Some(jobs[k].queue)) && (f.names == None || jobs[k].name in f.names.value)) ==>
        && !Outranks(jobs[k].priority, jobs[id].priority)
        && (jobs[k].priority == jobs[id].priority ==> jobs[id].runAt <= jobs[k].runAt)
  {
    if k in jobs {
      ClaimOrderIsTotal(jobs[id], jobs[k], jobs[id]);
      ClaimedBeforeMeans(jobs[k], jobs[id]);
    }
  }
}
