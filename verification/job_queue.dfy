/**
 The queue over the memory store, run by any number of workers and control calls.  Each event is
 what happens between two awaits.
 */
module JobQueue {
  import opened Jobs

  type WorkerId = nat
  type CallId = nat

  /** What a worker is busy with, and its own copy of the record. */
  datatype Hold = Preparing(job: Job) | Executing(job: Job, startedAt: int)

  datatype Control = RetryCall | CancelCall

  /** A retry or cancel call that has read its job and not written it yet. */
  datatype Pending = Pending(control: Control, job: Job)

  /** `retries` and `starts` count, per job, the manual retries and the started handlers. */
  datatype State = State(
    jobs: map<JobId, Job>, holds: map<WorkerId, Hold>, pending: map<CallId, Pending>,
    retries: map<JobId, nat>, starts: map<JobId, nat>)

  const EMPTY := State(map[], map[], map[], map[], map[])

  datatype Event =
    | Enqueue(job: Job)
    | Claim(worker: WorkerId, id: JobId, filter: Filter, now: int)
    | RejectUnknown(worker: WorkerId, now: int)
    | Begin(worker: WorkerId, now: int)
    | Succeed(worker: WorkerId, now: int)
    | Fail(worker: WorkerId, now: int)
    | ReadFor(call: CallId, control: Control, id: JobId)
    | Write(call: CallId, now: int)

  function Count(m: map<JobId, nat>, id: JobId): nat {
    if id in m then m[id] else 0
  }

  predicate MayRead(control: Control, job: Job) {
    match control
    case RetryCall => Retryable(job.status)
    case CancelCall => !Terminal(job.status)
  }

  ghost predicate Enabled(s: State, e: Event) {
    match e
    case Enqueue(job) => NewRecord(job)
    case Claim(w, id, f, now) => w !in s.holds && IsChoice(s.jobs, f, now, id)
    case RejectUnknown(w, _) => w in s.holds && s.holds[w].Preparing?
    case Begin(w, _) => w in s.holds && s.holds[w].Preparing?
    case Succeed(w, _) => w in s.holds && s.holds[w].Executing?
    case Fail(w, _) => w in s.holds && s.holds[w].Executing?
    case ReadFor(c, control, id) => c !in s.pending && id in s.jobs && MayRead(control, s.jobs[id])
    case Write(c, _) => c in s.pending
  }

  function Put(s: State, job: Job): State {
    s.(jobs := s.jobs[job.id := job])
  }

  function Release(s: State, w: WorkerId): State {
    s.(holds := s.holds - {w})
  }

  function Step(s: State, e: Event): State
    requires e.Claim? ==> e.id in s.jobs
    requires e.RejectUnknown? || e.Begin? || e.Succeed? || e.Fail? ==> e.worker in s.holds
    requires e.Succeed? || e.Fail? ==> s.holds[e.worker].Executing?
    requires e.ReadFor? ==> e.id in s.jobs
    requires e.Write? ==> e.call in s.pending
  {
    match e
    case Enqueue(job) => Put(s, job)
    case Claim(w, id, _, now) =>
      var claimed := Claimed(s.jobs[id], now);
      Put(s, claimed).(holds := s.holds[w := Preparing(claimed)])
    case RejectUnknown(w, now) =>
      Release(Put(s, UnknownDefinitionRecord(s.holds[w].job, now)), w)
    case Begin(w, now) =>
      var job := Begun(s.holds[w].job, now);
      Put(s, job).(holds := s.holds[w := Executing(job, now)],
                   starts := s.starts[job.id := Count(s.starts, job.id) + 1])
    case Succeed(w, now) =>
      Release(Put(s, SucceededRecord(s.holds[w].job, s.holds[w].startedAt, now)), w)
    case Fail(w, now) =>
      Release(Put(s, FailedRecord(s.holds[w].job, s.holds[w].startedAt, now)), w)
    case ReadFor(c, control, id) => s.(pending := s.pending[c := Pending(control, s.jobs[id])])
    case Write(c, now) =>
      var Pending(control, job) := s.pending[c];
      var written := match control
        case CancelCall => Put(s, CanceledRecord(job, now))
        case RetryCall => Put(s, RetriedRecord(job, now)).(
          retries := s.retries[job.id := Count(s.retries, job.id) + 1]);
      written.(pending := s.pending - {c})
  }

  /** A state with the events that led there; None if some event was not enabled. */
  ghost function Run(events: seq<Event>): Option<State> {
    if events == [] then Some(EMPTY)
    else
      var last := |events| - 1;
      match Run(events[..last])
      case None => None
      case Some(s) => if Enabled(s, events[last]) then Some(Step(s, events[last])) else None
  }

  // ----- What an orderly run keeps ------------------------------------------------------

  /** New ids are fresh, and a control call finds its job as it read it, and not running. */
  ghost predicate Orderly(s: State, e: Event) {
    && (e.Enqueue? ==> e.job.id !in s.jobs)
    && (e.Write? && e.call in s.pending ==>
          var job := s.pending[e.call].job;
          job.id in s.jobs && s.jobs[job.id] == job && job.status != Running
          && MayRead(s.pending[e.call].control, job))
  }

  ghost predicate OrderlyRun(events: seq<Event>) {
    Run(events).Some?
    && forall i :: 0 <= i < |events| && Run(events[..i]).Some? ==> Orderly(Run(events[..i]).value, events[i])
  }

  ghost predicate Numbered(history: seq<Attempt>) {
    forall k :: 0 <= k < |history| ==> history[k].number == k + 1
  }

  ghost predicate ExecutedBy(s: State, w: WorkerId, id: JobId) {
    w in s.holds && s.holds[w].Executing? && s.holds[w].job.id == id
  }

  /** A held job is in the store exactly as its worker has it; the attempt under way is not in its history. */
  ghost predicate HoldOk(s: State, w: WorkerId)
    requires w in s.holds
  {
    var hold := s.holds[w];
    var job := hold.job;
    && job.id in s.jobs && s.jobs[job.id] == job && job.status == Running
    && |job.history| + (if hold.Executing? then 1 else 0) == job.attempts
    && (hold.Preparing? ==> job.attempts < job.maxAttempts + Count(s.retries, job.id))
  }

  ghost predicate JobOk(s: State, id: JobId)
    requires id in s.jobs
  {
    var job := s.jobs[id];
    && job.id == id && Numbered(job.history)
    && job.attempts <= job.maxAttempts + Count(s.retries, id)
    && job.attempts == Count(s.starts, id)
    && (job.status != Running ==> |job.history| == job.attempts)
    && (job.status == Queued ==> job.attempts < job.maxAttempts + Count(s.retries, id))
  }

  ghost predicate Holds(s: State, w: WorkerId, id: JobId) {
    w in s.holds && s.holds[w].job.id == id
  }

  ghost predicate Held(s: State, id: JobId) {
    exists w :: Holds(s, w, id)
  }

  ghost predicate Inv(s: State) {
    && (forall id :: id in s.jobs ==> JobOk(s, id))
    && (forall id :: id in s.jobs && s.jobs[id].status == Running ==> Held(s, id))
    && (forall id :: id in s.starts ==> id in s.jobs)
    && (forall w :: w in s.holds ==> HoldOk(s, w))
    && (forall id, v, w :: Holds(s, v, id) && Holds(s, w, id) ==> v == w)
  }

  /** `s` and `t` differ in the job `id` and its holder at most. */
  ghost predicate SameBut(s: State, t: State, id: JobId) {
    && (forall k :: k != id ==> (k in s.jobs <==> k in t.jobs))
    && (forall k :: k != id && k in s.jobs ==> t.jobs[k] == s.jobs[k])
    && (forall k :: k != id ==> Count(s.retries, k) == Count(t.retries, k))
    && (forall k :: k != id ==> Count(s.starts, k) == Count(t.starts, k))
    && (forall k :: k in t.starts ==> k == id || k in s.starts)
    && (forall w, k :: k != id ==> (Holds(s, w, k) <==> Holds(t, w, k)))
    && (forall w, k :: k != id && Holds(s, w, k) ==> s.holds[w] == t.holds[w])
  }

  lemma Frame(s: State, t: State, id: JobId)
    requires Inv(s) && SameBut(s, t, id)
    requires id in t.jobs && JobOk(t, id) && (t.jobs[id].status == Running ==> Held(t, id))
    requires forall w :: Holds(t, w, id) ==> HoldOk(t, w)
    requires forall v, w :: Holds(t, v, id) && Holds(t, w, id) ==> v == w
    ensures Inv(t)
  {
    forall k | k in t.jobs
      ensures JobOk(t, k) && (t.jobs[k].status == Running ==> Held(t, k))
    {
      if k != id {
        assert JobOk(s, k);
        if s.jobs[k].status == Running {
          assert Held(s, k);
          var w :| Holds(s, w, k);
          assert Holds(t, w, k);
        }
      }
    }
    forall w | w in t.holds
      ensures HoldOk(t, w)
    {
      var k := t.holds[w].job.id;
      assert Holds(t, w, k);
      if k != id {
        assert Holds(s, w, k);
        assert HoldOk(s, w);
      }
    }
  }

  /** Writing one job and changing one worker's hold on it leaves the other jobs alone. */
  lemma WorkerStepIsLocal(s: State, t: State, id: JobId, w: WorkerId)
    requires id in t.jobs && t.jobs == s.jobs[id := t.jobs[id]] && t.retries == s.retries
    requires t.starts == s.starts || t.starts == s.starts[id := Count(s.starts, id) + 1]
    requires w in s.holds ==> s.holds[w].job.id == id
    requires w in t.holds ==> t.holds[w].job.id == id
    requires forall v :: v != w ==> (v in s.holds <==> v in t.holds)
    requires forall v :: v != w && v in s.holds ==> t.holds[v] == s.holds[v]
    ensures SameBut(s, t, id)
    ensures forall v :: v != w ==> (Holds(s, v, id) <==> Holds(t, v, id))
  {
  }

  /** Writing one job outside any worker leaves the other jobs alone. */
  lemma ControlStepIsLocal(s: State, t: State, id: JobId)
    requires id in t.jobs && t.jobs == s.jobs[id := t.jobs[id]] && t.starts == s.starts
    requires t.retries == s.retries || t.retries == s.retries[id := Count(s.retries, id) + 1]
    requires t.holds == s.holds
    ensures SameBut(s, t, id)
    ensures forall v :: Holds(s, v, id) <==> Holds(t, v, id)
  {
  }

  /** A job whose record is not running has no holder. */
  lemma NoHolder(s: State, id: JobId)
    requires Inv(s) && (id in s.jobs ==> s.jobs[id].status != Running)
    ensures forall w :: !Holds(s, w, id)
  {
    forall w
      ensures !Holds(s, w, id)
    {
      assert w in s.holds ==> HoldOk(s, w);
    }
  }

  lemma EnqueueKeeps(s: State, job: Job)
    requires Inv(s) && NewRecord(job) && job.id !in s.jobs
    ensures Inv(Put(s, job))
  {
    assert job.id !in s.starts;
    NoHolder(s, job.id);
    ControlStepIsLocal(s, Put(s, job), job.id);
    Frame(s, Put(s, job), job.id);
  }

  lemma ClaimKeeps(s: State, w: WorkerId, id: JobId, now: int)
    requires Inv(s) && w !in s.holds && id in s.jobs && s.jobs[id].status == Queued
    ensures Inv(Put(s, Claimed(s.jobs[id], now)).(holds := s.holds[w := Preparing(Claimed(s.jobs[id], now))]))
  {
    var job := Claimed(s.jobs[id], now);
    var t := Put(s, job).(holds := s.holds[w := Preparing(job)]);
    assert JobOk(s, id);
    NoHolder(s, id);
    WorkerStepIsLocal(s, t, id, w);
    assert Holds(t, w, id) && HoldOk(t, w);
    Frame(s, t, id);
  }

  function BeginState(s: State, w: WorkerId, job: Job, now: int): State {
    Put(s, job).(holds := s.holds[w := Executing(job, now)], starts := s.starts[job.id := Count(s.starts, job.id) + 1])
  }

  lemma BeginKeeps(s: State, w: WorkerId, now: int)
    requires Inv(s) && w in s.holds && s.holds[w].Preparing?
    ensures Inv(BeginState(s, w, Begun(s.holds[w].job, now), now))
  {
    var before := s.holds[w].job;
    var job := Begun(before, now);
    var id := job.id;
    var t := BeginState(s, w, job, now);
    assert HoldOk(s, w) && JobOk(s, id) && Holds(s, w, id);
    WorkerStepIsLocal(s, t, id, w);
    assert Count(t.starts, id) == Count(s.starts, id) + 1;
    assert JobOk(t, id);
    assert Holds(t, w, id) && HoldOk(t, w);
    assert forall v :: Holds(t, v, id) ==> v == w;
    Frame(s, t, id);
  }

  /** A worker writes its job's last record and lets go of it. */
  lemma ReleaseKeeps(s: State, w: WorkerId, job: Job)
    requires Inv(s) && w in s.holds && job.id == s.holds[w].job.id
    requires job.status != Running && Numbered(job.history) && |job.history| == job.attempts
    requires job.attempts == s.holds[w].job.attempts && job.maxAttempts == s.holds[w].job.maxAttempts
    requires job.status == Queued ==> job.attempts < job.maxAttempts
    ensures Inv(Release(Put(s, job), w))
  {
    var t, id := Release(Put(s, job), w), job.id;
    assert HoldOk(s, w) && JobOk(s, id) && Holds(s, w, id);
    WorkerStepIsLocal(s, t, id, w);
    assert JobOk(t, id);
    forall v ensures !Holds(t, v, id) {
      assert Holds(t, v, id) ==> Holds(s, v, id) && v != w;
    }
    Frame(s, t, id);
  }

  /** A control call writes a job that is not running. */
  lemma ControlKeeps(s: State, job: Job, retries: map<JobId, nat>)
    requires Inv(s) && job.id in s.jobs && s.jobs[job.id].status != Running && job.status != Running
    requires job == s.jobs[job.id].(status := job.status, runAt := job.runAt, finishedAt := job.finishedAt)
    requires job.status == Queued ==> retries == s.retries[job.id := Count(s.retries, job.id) + 1]
    requires job.status != Queued ==> retries == s.retries
    ensures Inv(Put(s, job).(retries := retries))
  {
    var t := Put(s, job).(retries := retries);
    assert JobOk(s, job.id);
    NoHolder(s, job.id);
    ControlStepIsLocal(s, t, job.id);
    assert JobOk(t, job.id);
    Frame(s, t, job.id);
  }

  lemma WriteKeeps(s: State, c: CallId, now: int)
    requires Inv(s) && Enabled(s, Write(c, now)) && Orderly(s, Write(c, now))
    ensures Inv(Step(s, Write(c, now)))
  {
    var t := Step(s, Write(c, now));
    var job := s.pending[c].job;
    if s.pending[c].control.RetryCall? {
      ControlKeeps(s, RetriedRecord(job, now), t.retries);
    } else {
      ControlKeeps(s, CanceledRecord(job, now), t.retries);
    }
    ReadKeeps(t.(pending := s.pending), t);
  }

  lemma {:induction false} RejectKeeps(s: State, w: WorkerId, now: int)
    requires Inv(s) && Enabled(s, RejectUnknown(w, now)) && Orderly(s, RejectUnknown(w, now))
    ensures Inv(Step(s, RejectUnknown(w, now)))
  {
    assert HoldOk(s, w) && JobOk(s, s.holds[w].job.id);
    ReleaseKeeps(s, w, UnknownDefinitionRecord(s.holds[w].job, now));
  }

  lemma {:induction false} SucceedKeeps(s: State, w: WorkerId, now: int)
    requires Inv(s) && Enabled(s, Succeed(w, now)) && Orderly(s, Succeed(w, now))
    ensures Inv(Step(s, Succeed(w, now)))
  {
    assert HoldOk(s, w) && JobOk(s, s.holds[w].job.id);
    ReleaseKeeps(s, w, SucceededRecord(s.holds[w].job, s.holds[w].startedAt, now));
  }

  lemma {:induction false} FailKeeps(s: State, w: WorkerId, now: int)
    requires Inv(s) && Enabled(s, Fail(w, now)) && Orderly(s, Fail(w, now))
    ensures Inv(Step(s, Fail(w, now)))
  {
    assert HoldOk(s, w) && JobOk(s, s.holds[w].job.id);
    ReleaseKeeps(s, w, FailedRecord(s.holds[w].job, s.holds[w].startedAt, now));
  }

  lemma {:induction false} BeginStepKeeps(s: State, w: WorkerId, now: int)
    requires Inv(s) && Enabled(s, Begin(w, now))
    ensures Inv(Step(s, Begin(w, now)))
  {
    BeginKeeps(s, w, now);
  }

  lemma {:induction false} HolderStepKeeps(s: State, e: Event)
    requires Inv(s) && Enabled(s, e) && Orderly(s, e) && (e.Begin? || e.RejectUnknown? || e.Succeed? || e.Fail?)
    ensures Inv(Step(s, e))
  {
    match e
    case Begin(w, now) => BeginStepKeeps(s, w, now);
    case RejectUnknown(w, now) => RejectKeeps(s, w, now);
    case Succeed(w, now) => SucceedKeeps(s, w, now);
    case Fail(w, now) => FailKeeps(s, w, now);
  }

  lemma {:induction false} StepKeeps(s: State, e: Event)
    requires Inv(s) && Enabled(s, e) && Orderly(s, e)
    ensures Inv(Step(s, e))
  {
    match e
    case Enqueue(job) => EnqueueKeeps(s, job);
    case Claim(w, id, _, now) => ClaimKeeps(s, w, id, now);
    case Write(c, now) => WriteKeeps(s, c, now);
    case ReadFor(_, _, _) => ReadKeeps(s, Step(s, e));
    case _ => HolderStepKeeps(s, e);
  }

  lemma ReadKeeps(s: State, t: State)
    requires Inv(s) && t == s.(pending := t.pending)
    ensures Inv(t)
  {
    forall k | k in t.jobs
      ensures JobOk(t, k) && (t.jobs[k].status == Running ==> Held(t, k))
    {
      assert JobOk(s, k);
      if s.jobs[k].status == Running {
        assert Held(s, k);
        var w :| Holds(s, w, k);
        assert Holds(t, w, k);
      }
    }
    forall w | w in t.holds
      ensures HoldOk(t, w)
    {
      assert HoldOk(s, w);
    }
    forall id, v, w | Holds(t, v, id) && Holds(t, w, id)
      ensures v == w
    {
      assert Holds(s, v, id) && Holds(s, w, id);
    }
  }

  lemma {:induction false} OrderlyRunKeepsInv(events: seq<Event>)
    requires OrderlyRun(events)
    ensures Inv(Run(events).value)
  {
    if events != [] {
      var last := |events| - 1;
      var before := events[..last];
      assert forall i :: 0 <= i < last ==> before[..i] == events[..i];
      OrderlyRunKeepsInv(before);
      StepKeeps(Run(before).value, events[last]);
    }
  }

  /**
   In every orderly run: one handler per job at most; attempts are numbered 1, 2, ... and one
   entry is missing exactly while a started handler runs; attempts count the handlers started
   and stay within the maximum plus the manual retries.
   */
  lemma {:induction false} OrderlyRunIsSafe(events: seq<Event>, id: JobId)
    requires OrderlyRun(events) && id in Run(events).value.jobs
    ensures var s := Run(events).value;
            var job := s.jobs[id];
            && (forall v, w :: ExecutedBy(s, v, id) && ExecutedBy(s, w, id) ==> v == w)
            && Numbered(job.history)
            && ((exists w :: ExecutedBy(s, w, id)) ==> |job.history| + 1 == job.attempts)
            && (!(exists w :: ExecutedBy(s, w, id)) ==> |job.history| == job.attempts)
            && job.attempts == Count(s.starts, id) <= job.maxAttempts + Count(s.retries, id)
  {
    OrderlyRunKeepsInv(events);
    var s := Run(events).value;
    assert JobOk(s, id);
    forall w | ExecutedBy(s, w, id)
      ensures HoldOk(s, w)
    {
    }
    forall v, w | ExecutedBy(s, v, id) && ExecutedBy(s, w, id)
      ensures v == w
    {
      assert Holds(s, v, id) && Holds(s, w, id);
    }
    if s.jobs[id].status == Running {
      assert Held(s, id);
      var w :| Holds(s, w, id);
      assert HoldOk(s, w);
      assert s.holds[w].Executing? ==> ExecutedBy(s, w, id);
    }
  }

  // ----- Runs from a given state ---------------------------------------------------------------

  /** The state after some events from `s`; None if one was not enabled. */
  ghost function From(s: State, events: seq<Event>): Option<State>
    decreases events
  {
    if events == [] then Some(s)
    else if Enabled(s, events[0]) then From(Step(s, events[0]), events[1..])
    else None
  }

  lemma {:induction false} FromStep(s: State, e: Event, rest: seq<Event>)
    requires Enabled(s, e)
    ensures From(s, [e] + rest) == From(Step(s, e), rest)
  {
    assert ([e] + rest)[1..] == rest;
  }

  lemma {:induction false} FromJoin(s: State, a: seq<Event>, b: seq<Event>)
    requires From(s, a).Some?
    ensures From(s, a + b) == From(From(s, a).value, b)
    decreases a
  {
    if a == [] {
      assert a + b == b;
    } else {
      assert (a + b)[1..] == a[1..] + b;
      FromJoin(Step(s, a[0]), a[1..], b);
    }
  }

  lemma {:induction false} OneMore(events: seq<Event>, e: Event)
    requires Run(events).Some? && Enabled(Run(events).value, e)
    ensures Run(events + [e]) == Some(Step(Run(events).value, e))
  {
    assert (events + [e])[..|events|] == events;
  }

  lemma {:induction false} RunOn(events: seq<Event>, more: seq<Event>)
    requires Run(events).Some? && From(Run(events).value, more).Some?
    ensures Run(events + more) == From(Run(events).value, more)
    decreases more
  {
    if more == [] {
      assert events + more == events;
    } else {
      OneMore(events, more[0]);
      RunOn(events + [more[0]], more[1..]);
      assert events + [more[0]] + more[1..] == events + more;
    }
  }

  /** Every job is stored under its own id: so it is after any events. */
  ghost predicate IdsFit(s: State) {
    forall id :: id in s.jobs ==> s.jobs[id].id == id
  }

  lemma {:induction false} RunFitsIds(events: seq<Event>)
    requires Run(events).Some?
    ensures IdsFit(Run(events).value)
  {
    if events != [] {
      RunFitsIds(events[..|events| - 1]);
    }
  }

  // ----- Canceling ------------------------------------------------------------------------------

  /** What workers do, claims included. */
  ghost predicate WorkerEvent(e: Event) {
    e.Claim? || e.RejectUnknown? || e.Begin? || e.Succeed? || e.Fail?
  }

  ghost predicate ByWorkers(events: seq<Event>) {
    forall i :: 0 <= i < |events| ==> WorkerEvent(events[i])
  }

  function AfterCancel(s: State, c: CallId, id: JobId, now: int): (t: State)
    requires id in s.jobs && s.jobs[id].id == id
    ensures t.holds == s.holds && t.jobs == s.jobs[id := CanceledRecord(s.jobs[id], now)]
  {
    Step(Step(s, ReadFor(c, CancelCall, id)), Write(c, now))
  }

  /** Whatever the workers go on to do, the record stays as it is. */
  ghost predicate CancelSticks(t: State, id: JobId)
    requires id in t.jobs
  {
    forall events :: ByWorkers(events) && From(t, events).Some? ==>
      id in From(t, events).value.jobs && From(t, events).value.jobs[id] == t.jobs[id]
  }

  /**
   A cancel that returns true lasts through every run of the workers exactly when no worker holds the
   job (in an orderly state: when it is not running): a holder overwrites it with its own record later.
   */
  lemma {:induction false} CancelSticksIff(s: State, c: CallId, id: JobId, now: int)
    requires IdsFit(s) && Enabled(s, ReadFor(c, CancelCall, id))
    ensures AfterCancel(s, c, id, now).jobs[id].status == Canceled
    ensures CancelSticks(AfterCancel(s, c, id, now), id) <==> !Held(s, id)
    ensures Inv(s) ==> (Held(s, id) <==> s.jobs[id].status == Running)
  {
    var t := AfterCancel(s, c, id, now);
    if Held(s, id) {
      var w :| Holds(s, w, id);
      assert Inv(s) ==> HoldOk(s, w);
      assert Holds(t, w, id);
      WorkerOverwrites(t, w, id, now);
    } else {
      assert IdsFit(t);
      forall w ensures !Holds(t, w, id) {
        assert !Holds(s, w, id);
      }
      forall events | ByWorkers(events) && From(t, events).Some?
        ensures id in From(t, events).value.jobs && From(t, events).value.jobs[id] == t.jobs[id]
      {
        UnheldRecordStays(t, id, events);
      }
    }
  }

  lemma {:induction false} WorkerOverwrites(t: State, w: WorkerId, id: JobId, now: int)
    requires id in t.jobs && t.jobs[id].status == Canceled && Holds(t, w, id)
    ensures !CancelSticks(t, id)
  {
    var e := if t.holds[w].Executing? then Succeed(w, now) else Begin(w, now);
    var events := [e];
    FromStep(t, e, []);
    assert [e] + [] == events;
    assert ByWorkers(events);
    assert From(t, events).value.jobs[id].status != Canceled;
  }

  /** No worker reaches a canceled record that none of them holds. */
  lemma {:induction false} UnheldRecordStays(t: State, id: JobId, events: seq<Event>)
    requires IdsFit(t) && id in t.jobs && t.jobs[id].status == Canceled && forall w :: !Holds(t, w, id)
    requires ByWorkers(events) && From(t, events).Some?
    ensures id in From(t, events).value.jobs && From(t, events).value.jobs[id] == t.jobs[id]
    decreases events
  {
    if events != [] {
      var e := events[0];
      assert WorkerEvent(e);
      assert !Holds(t, e.worker, id);
      var u := Step(t, e);
      forall w ensures !Holds(u, w, id) {
        assert !Holds(t, w, id);
      }
      UnheldRecordStays(u, id, events[1..]);
    }
  }

  // ----- Two handlers on one job, and exactly when ---------------------------------------------------

  ghost predicate TwoHandlers(s: State, id: JobId) {
    exists v, w :: v != w && ExecutedBy(s, v, id) && ExecutedBy(s, w, id)
  }

  /** The event writes a queued record under the id, whatever is there: an enqueue or a retry does. */
  ghost predicate Queues(s: State, e: Event, id: JobId) {
    || (e.Enqueue? && e.job.id == id)
    || (e.Write? && e.call in s.pending && s.pending[e.call].control.RetryCall? && s.pending[e.call].job.id == id)
  }

  /** It does so while a worker holds the job. */
  ghost predicate QueuesHeld(s: State, e: Event, id: JobId) {
    Queues(s, e, id) && Held(s, id)
  }

  ghost predicate NeverQueuesHeld(s: State, events: seq<Event>, id: JobId)
    decreases events
  {
    events != [] && Enabled(s, events[0]) ==>
      !QueuesHeld(s, events[0], id) && NeverQueuesHeld(Step(s, events[0]), events[1..], id)
  }

  /** What keeps handlers apart: one holder at most, and no queued record while there is one. */
  ghost predicate Alone(s: State, id: JobId) {
    && (forall v, w :: Holds(s, v, id) && Holds(s, w, id) ==> v == w)
    && (forall w :: Holds(s, w, id) && id in s.jobs ==> s.jobs[id].status != Queued)
  }

  lemma {:induction false} AloneStays(s: State, e: Event, id: JobId)
    requires IdsFit(s) && Alone(s, id) && Enabled(s, e) && !QueuesHeld(s, e, id)
    ensures IdsFit(Step(s, e)) && Alone(Step(s, e), id)
  {
    if e.Claim? {
      AloneAfterClaim(s, e, id);
    } else if WorkerEvent(e) {
      AloneAfterHolder(s, e, id);
    } else {
      var t := Step(s, e);
      assert forall w :: Holds(t, w, id) <==> Holds(s, w, id);
    }
  }

  lemma {:induction false} AloneAfterClaim(s: State, e: Event, id: JobId)
    requires IdsFit(s) && Alone(s, id) && Enabled(s, e) && e.Claim?
    ensures Alone(Step(s, e), id)
  {
    var t := Step(s, e);
    assert e.id == id ==> forall w :: !Holds(s, w, id);
    assert forall w :: Holds(t, w, id) <==> Holds(s, w, id) || (w == e.worker && e.id == id);
  }

  lemma {:induction false} AloneAfterHolder(s: State, e: Event, id: JobId)
    requires IdsFit(s) && Alone(s, id) && Enabled(s, e) && WorkerEvent(e) && !e.Claim?
    ensures Alone(Step(s, e), id)
  {
    var t := Step(s, e);
    forall w | Holds(t, w, id) ensures Holds(s, w, id) {
    }
    if Holds(s, e.worker, id) {
      assert forall w :: Holds(t, w, id) ==> w == e.worker && e.Begin?;
    }
  }

  lemma {:induction false} AloneThroughout(s: State, events: seq<Event>, id: JobId)
    requires IdsFit(s) && Alone(s, id) && From(s, events).Some? && NeverQueuesHeld(s, events, id)
    ensures Alone(From(s, events).value, id)
    decreases events
  {
    if events != [] {
      AloneStays(s, events[0], id);
      AloneThroughout(Step(s, events[0]), events[1..], id);
    }
  }

  lemma {:induction false} AloneHasOneHandler(s: State, id: JobId)
    requires Alone(s, id)
    ensures !TwoHandlers(s, id)
  {
    forall v, w | ExecutedBy(s, v, id) && ExecutedBy(s, w, id) ensures v == w {
      assert Holds(s, v, id) && Holds(s, w, id);
    }
  }

  /**
   In every run whatsoever, races and cancels of running jobs included: as long as no enqueue or
   retry writes a queued record under the id while a worker holds it, one worker at most holds it,
   and its record is not queued then.
   */
  lemma {:induction false} OneHolderUnlessHeldIsQueued(events: seq<Event>, id: JobId)
    requires Run(events).Some? && NeverQueuesHeld(EMPTY, events, id)
    ensures Alone(Run(events).value, id) && !TwoHandlers(Run(events).value, id)
  {
    RunIsFrom(events);
    AloneThroughout(EMPTY, events, id);
    AloneHasOneHandler(Run(events).value, id);
  }

  lemma {:induction false} RunIsFrom(events: seq<Event>)
    requires Run(events).Some?
    ensures From(EMPTY, events) == Run(events)
  {
    if events != [] {
      var before, e := events[..|events| - 1], events[|events| - 1];
      RunIsFrom(before);
      FromJoin(EMPTY, before, [e]);
      FromStep(Run(before).value, e, []);
      assert before + [e] == events && [e] + [] == [e];
    }
  }

  const ANY := Filter(None, None)

  lemma {:induction false} FreshWorker(s: State, workers: set<WorkerId>) returns (w: WorkerId)
    requires workers == s.holds.Keys
    ensures w !in s.holds
  {
    w := Above(workers);
    assert w !in workers;
  }

  lemma {:induction false} Above(workers: set<WorkerId>) returns (w: WorkerId)
    ensures forall v :: v in workers ==> v < w
    decreases |workers|
  {
    if workers == {} {
      w := 0;
    } else {
      var one :| one in workers;
      var others := workers - {one};
      var above := Above(others);
      w := if above > one then above else one + 1;
      forall v | v in workers ensures v < w {
        assert v == one || v in others;
      }
    }
  }

  ghost function ReadyIds(s: State, now: int): set<JobId> {
    set id | id in s.jobs && Ready(s.jobs[id], now)
  }

  lemma {:induction false} FirstReady(s: State, ids: set<JobId>) returns (id: JobId)
    requires IdsFit(s) && ids != {} && ids <= s.jobs.Keys
    ensures id in ids && forall k :: k in ids && k != id ==> ClaimedBefore(s.jobs[id], s.jobs[k])
    decreases |ids|
  {
    var one :| one in ids;
    var rest := ids - {one};
    if rest == {} {
      id := one;
      assert ids == {one};
    } else {
      var best := FirstReady(s, rest);
      id := if ClaimedBefore(s.jobs[best], s.jobs[one]) then best else one;
      forall k | k in ids && k != id ensures ClaimedBefore(s.jobs[id], s.jobs[k]) {
        ClaimOrderIsTotal(s.jobs[one], s.jobs[best], s.jobs[k]);
        assert k == one || k in rest;
      }
    }
  }

  /** Other workers claim the ready jobs that come first, until `id` is the next choice. */
  lemma {:induction false} ClaimOthersFirst(t: State, id: JobId, now: int) returns (events: seq<Event>, u: State)
    requires IdsFit(t) && id in t.jobs && Ready(t.jobs[id], now)
    ensures From(t, events) == Some(u) && ByWorkers(events)
    ensures id in u.jobs && IsChoice(u.jobs, ANY, now, id) && u.jobs[id] == t.jobs[id]
    ensures forall w :: w in t.holds ==> w in u.holds && u.holds[w] == t.holds[w]
    decreases |ReadyIds(t, now)|
  {
    assert id in ReadyIds(t, now);
    var choice := FirstReady(t, ReadyIds(t, now));
    assert IsChoice(t.jobs, ANY, now, choice);
    if choice == id {
      events, u := [], t;
    } else {
      var v := FreshWorker(t, t.holds.Keys);
      var e := Claim(v, choice, ANY, now);
      var next := Step(t, e);
      assert ReadyIds(next, now) == ReadyIds(t, now) - {choice};
      events, u := ClaimOthersFirst(next, id, now);
      FromStep(t, e, events);
      events := [e] + events;
    }
  }

  /** A ready job is claimed and started by some worker. */
  lemma {:induction false} ReadyJobStarts(t: State, id: JobId, now: int) returns (events: seq<Event>, w: WorkerId)
    requires IdsFit(t) && id in t.jobs && Ready(t.jobs[id], now)
    ensures From(t, events).Some? && ByWorkers(events) && ExecutedBy(From(t, events).value, w, id)
    ensures From(t, events).value.holds[w].job.attempts == t.jobs[id].attempts + 1
  {
    var first, u := ClaimOthersFirst(t, id, now);
    w := FreshWorker(u, u.holds.Keys);
    var claim, begin := Claim(w, id, ANY, now), Begin(w, now);
    FromStep(Step(u, claim), begin, []);
    FromStep(u, claim, [begin] + []);
    events := first + ([claim] + ([begin] + []));
    FromJoin(t, first, [claim] + ([begin] + []));
  }

  // ----- What the steps write ----------------------------------------------------------------------

  /** A retry may read a failed, dead or canceled job, a cancel one that is queued, running or failed. */
  lemma {:induction false} ControlsRead(job: Job)
    ensures MayRead(RetryCall, job) <==> job.status !in {Queued, Running, Succeeded}
    ensures MayRead(CancelCall, job) <==> job.status in {Queued, Running, Status.Failed}
  {
  }

  /** Nothing of a job changes but its status, attempts, times and history. */
  ghost predicate SameJob(a: Job, b: Job) {
    b == a.(status := b.status, attempts := b.attempts, history := b.history,
            runAt := b.runAt, startedAt := b.startedAt, finishedAt := b.finishedAt)
  }

  /** What the workers' steps make of a job, besides a failure. */
  lemma {:induction false} WorkersWrite(s: State, e: Event)
    requires IdsFit(s) && Enabled(s, e) && WorkerEvent(e) && !e.Fail?
    ensures var before := if e.Claim? then s.jobs[e.id] else s.holds[e.worker].job;
      before.id in Step(s, e).jobs
      && var after := Step(s, e).jobs[before.id];
      && SameJob(before, after) && after.runAt == before.runAt
      && (e.Claim? ==> after == before.(status := Running, startedAt := Some(e.now)))
      && (e.Begin? ==> after == before.(status := Running, attempts := before.attempts + 1, startedAt := Some(e.now)))
      && (e.RejectUnknown? ==> after == before.(status := Dead, finishedAt := Some(e.now)))
      && (e.Succeed? ==>
            && after.status == Succeeded && after.finishedAt == Some(e.now) && after.attempts == before.attempts
            && |after.history| == |before.history| + 1 && after.history[..|before.history|] == before.history
            && after.history[|before.history|] == Attempt(before.attempts, s.holds[e.worker].startedAt, e.now, false))
  {
  }

  /** A cancel ends the job; a retry puts it back, to be claimed from now on, with its attempts and history. */
  lemma {:induction false} ControlsWrite(s: State, c: CallId, now: int, t: int)
    requires c in s.pending
    ensures var before, after := s.pending[c].job, Step(s, Write(c, now)).jobs[s.pending[c].job.id];
      && SameJob(before, after) && after.attempts == before.attempts && after.history == before.history
      && (s.pending[c].control.CancelCall? ==> after.status == Canceled && after.finishedAt == Some(now))
      && (s.pending[c].control.RetryCall? ==> after.finishedAt == None && (Ready(after, t) <==> t >= now))
  {
  }

  // ----- What a failure leads to -------------------------------------------------------------------

  /**
   A handler fails: with attempts left its job is queued again, and can be claimed from the end of the
   backoff on; otherwise it is dead. Its attempt goes into the history either way.
   */
  lemma {:induction false} FailureRetriesOrBuries(s: State, w: WorkerId, now: int, t: int)
    requires Enabled(s, Fail(w, now))
    ensures var job, id := s.holds[w].job, s.holds[w].job.id;
      var after := Step(s, Fail(w, now));
      && w !in after.holds && id in after.jobs && SameJob(job, after.jobs[id])
      && (job.attempts >= job.maxAttempts ==> after.jobs[id].finishedAt == Some(now) && after.jobs[id].runAt == job.runAt)
      && (job.attempts < job.maxAttempts ==>
            && after.jobs[id].status == Queued
            && (Ready(after.jobs[id], t) <==> t >= now + Backoff(job.attempts, job.backoffMs, job.maxBackoffMs, job.strategy)))
      && (after.jobs[id].status == Dead <==> job.attempts >= job.maxAttempts)
      && after.jobs[id].attempts == job.attempts
      && after.jobs[id].history == job.history + [Attempt(job.attempts, s.holds[w].startedAt, now, true)]
  {
  }

  /** After a failure with attempts left, the workers alone can come to the next attempt. */
  lemma {:induction false} FailureIsRetried(s: State, w: WorkerId, now: int) returns (more: seq<Event>, v: WorkerId)
    requires IdsFit(s) && Enabled(s, Fail(w, now)) && s.holds[w].job.attempts < s.holds[w].job.maxAttempts
    ensures var after, job := Step(s, Fail(w, now)), s.holds[w].job;
      && ByWorkers(more) && From(after, more).Some?
      && ExecutedBy(From(after, more).value, v, job.id)
      && From(after, more).value.holds[v].job.attempts == job.attempts + 1
  {
    var job := s.holds[w].job;
    var ready := now + Backoff(job.attempts, job.backoffMs, job.maxBackoffMs, job.strategy);
    FailureRetriesOrBuries(s, w, now, ready);
    more, v := ReadyJobStarts(Step(s, Fail(w, now)), job.id, ready);
  }

  /** No worker rejected the job for having no definition. */
  ghost predicate NeverRejected(events: seq<Event>, id: JobId) {
    forall i :: 0 <= i < |events| && events[i].RejectUnknown? && Run(events[..i]).Some? ==>
      !Holds(Run(events[..i]).value, events[i].worker, id)
  }

  /** In every run, a dead job that was never rejected as unknown has used all its attempts. */
  lemma {:induction false} DeadJobsUsedTheirAttempts(events: seq<Event>, id: JobId)
    requires Run(events).Some? && NeverRejected(events, id)
    requires id in Run(events).value.jobs && Run(events).value.jobs[id].status == Dead
    ensures Run(events).value.jobs[id].attempts >= Run(events).value.jobs[id].maxAttempts
  {
    var before, e := events[..|events| - 1], events[|events| - 1];
    assert forall i :: 0 <= i < |before| ==> before[..i] == events[..i];
    var s := Run(before).value;
    if e.Fail? && s.holds[e.worker].job.id == id {
      FailureRetriesOrBuries(s, e.worker, e.now, 0);
    } else {
      assert id in s.jobs && s.jobs[id] == Run(events).value.jobs[id];
      DeadJobsUsedTheirAttempts(before, id);
    }
  }

  // ----- Two handlers at once -------------------------------------------------------------------------

  /** A held job whose record is queued is claimed and started again. */
  lemma {:induction false} SecondHandlerStarts(t: State, id: JobId, w: WorkerId) returns (events: seq<Event>)
    requires IdsFit(t) && id in t.jobs && t.jobs[id].status == Queued && Holds(t, w, id)
    ensures From(t, events).Some? && ByWorkers(events) && TwoHandlers(From(t, events).value, id)
  {
    var now := t.jobs[id].runAt;
    var first, u := ClaimOthersFirst(t, id, now);
    var other := FreshWorker(u, u.holds.Keys);
    var claim, begin := Claim(other, id, ANY, now), Begin(other, now);
    var claimed := Step(u, claim);
    var begun := Step(claimed, begin);
    var last: seq<Event> := if u.holds[w].Preparing? then [Begin(w, now)] else [];
    if u.holds[w].Preparing? {
      FromStep(begun, Begin(w, now), []);
      assert [Begin(w, now)] + [] == last;
      assert ExecutedBy(Step(begun, Begin(w, now)), w, id) && ExecutedBy(Step(begun, Begin(w, now)), other, id);
    } else {
      assert ExecutedBy(begun, w, id) && ExecutedBy(begun, other, id);
    }
    FromStep(claimed, begin, last);
    FromStep(u, claim, [begin] + last);
    events := first + ([claim] + ([begin] + last));
    FromJoin(t, first, [claim] + ([begin] + last));
  }

  /** From here two handlers of the job can come about without another write of a queued record while it is held. */
  ghost predicate LeadsToTwo(s: State, id: JobId) {
    exists more ::
      From(s, more).Some? && NeverQueuesHeld(s, more, id) && TwoHandlers(From(s, more).value, id)
  }

  lemma {:induction false} WorkersNeverQueue(s: State, events: seq<Event>, id: JobId)
    requires ByWorkers(events)
    ensures NeverQueuesHeld(s, events, id)
    decreases events
  {
    if events != [] && Enabled(s, events[0]) {
      assert WorkerEvent(events[0]);
      WorkersNeverQueue(Step(s, events[0]), events[1..], id);
    }
  }

  lemma {:induction false} QueuedWhileHeld(s: State, e: Event, id: JobId) returns (more: seq<Event>)
    requires IdsFit(s) && Enabled(s, e) && QueuesHeld(s, e, id)
    ensures From(Step(s, e), more).Some? && ByWorkers(more) && TwoHandlers(From(Step(s, e), more).value, id)
    ensures LeadsToTwo(Step(s, e), id)
  {
    var w :| Holds(s, w, id);
    assert Holds(Step(s, e), w, id);
    more := SecondHandlerStarts(Step(s, e), id, w);
    WorkersNeverQueue(Step(s, e), more, id);
  }

  /**
   One write: where the job has one holder at most so far, writing a queued record under its id leads
   to two handlers exactly if some worker holds the job at the write.
   */
  lemma {:induction false} OverwriteRunsTwiceIff(s: State, e: Event, id: JobId)
    requires IdsFit(s) && Alone(s, id) && Enabled(s, e) && Queues(s, e, id)
    ensures LeadsToTwo(Step(s, e), id) <==> Held(s, id)
  {
    if Held(s, id) {
      var more := QueuedWhileHeld(s, e, id);
    } else {
      AloneStays(s, e, id);
      NeverTwo(Step(s, e), id);
    }
  }

  lemma {:induction false} NeverTwo(s: State, id: JobId)
    requires IdsFit(s) && Alone(s, id)
    ensures !LeadsToTwo(s, id)
  {
    forall more | From(s, more).Some? && NeverQueuesHeld(s, more, id) ensures !TwoHandlers(From(s, more).value, id) {
      AloneThroughout(s, more, id);
      AloneHasOneHandler(From(s, more).value, id);
    }
  }

  /**
   Whole runs: at some point of a run two handlers of the job could come about, with no further
   such write, exactly if the run wrote a queued record under the id while a worker held it.
   */
  lemma {:induction false} TwoHandlersIff(events: seq<Event>, id: JobId)
    requires Run(events).Some?
    ensures (exists i :: 0 <= i <= |events| && Run(events[..i]).Some? && LeadsToTwo(Run(events[..i]).value, id))
       <==> !NeverQueuesHeld(EMPTY, events, id)
  {
    RunIsFrom(events);
    if !NeverQueuesHeld(EMPTY, events, id) {
      var i := LeadsToTwoSomewhere(events, id);
    } else {
      forall i | 0 <= i <= |events| && Run(events[..i]).Some? ensures !LeadsToTwo(Run(events[..i]).value, id) {
        LeadsToTwoNowhere(events, i, id);
      }
    }
  }

  lemma {:induction false} LeadsToTwoSomewhere(events: seq<Event>, id: JobId) returns (i: nat)
    requires Run(events).Some? && From(EMPTY, events).Some? && !NeverQueuesHeld(EMPTY, events, id)
    ensures i <= |events| && Run(events[..i]).Some? && LeadsToTwo(Run(events[..i]).value, id)
  {
    assert events[..0] == [] && events[0..] == events;
    i := FirstQueuedWhileHeld(events, 0, id);
    QueuedAt(events[..i], events[i], id);
    assert events[..i] + [events[i]] == events[..i + 1];
    i := i + 1;
  }

  lemma {:induction false} QueuedAt(before: seq<Event>, e: Event, id: JobId)
    requires Run(before).Some? && Enabled(Run(before).value, e) && QueuesHeld(Run(before).value, e, id)
    ensures Run(before + [e]).Some? && LeadsToTwo(Run(before + [e]).value, id)
  {
    RunFitsIds(before);
    OneMore(before, e);
    var more := QueuedWhileHeld(Run(before).value, e, id);
  }

  lemma {:induction false} LeadsToTwoNowhere(events: seq<Event>, i: nat, id: JobId)
    requires i <= |events| && Run(events[..i]).Some? && NeverQueuesHeld(EMPTY, events, id)
    ensures !LeadsToTwo(Run(events[..i]).value, id)
  {
    assert events[..i] + events[i..] == events;
    NeverInPrefix(EMPTY, events[..i], events[i..], id);
    OneHolderUnlessHeldIsQueued(events[..i], id);
    RunFitsIds(events[..i]);
    NeverTwo(Run(events[..i]).value, id);
  }

  lemma {:induction false} NeverInPrefix(s: State, a: seq<Event>, b: seq<Event>, id: JobId)
    requires NeverQueuesHeld(s, a + b, id)
    ensures NeverQueuesHeld(s, a, id)
    decreases a
  {
    if a != [] && Enabled(s, a[0]) {
      assert (a + b)[1..] == a[1..] + b;
      NeverInPrefix(Step(s, a[0]), a[1..], b, id);
    }
  }

  lemma {:induction false} FirstQueuedWhileHeld(events: seq<Event>, k: nat, id: JobId) returns (i: nat)
    requires k <= |events| && Run(events[..k]).Some?
    requires From(Run(events[..k]).value, events[k..]).Some? && !NeverQueuesHeld(Run(events[..k]).value, events[k..], id)
    ensures i < |events| && Run(events[..i]).Some?
    ensures Enabled(Run(events[..i]).value, events[i]) && QueuesHeld(Run(events[..i]).value, events[i], id)
    decreases |events| - k
  {
    var s, e := Run(events[..k]).value, events[k..][0];
    assert e == events[k];
    if QueuesHeld(s, e, id) {
      i := k;
    } else {
      OneMore(events[..k], e);
      assert events[..k] + [e] == events[..k + 1] && events[k..][1..] == events[k + 1..];
      i := FirstQueuedWhileHeld(events, k + 1, id);
    }
  }

  // ----- Such writes happen -------------------------------------------------------------------------

  lemma {:induction false} OneMoreOrderly(events: seq<Event>, e: Event)
    requires Run(events).Some? && Inv(Run(events).value)
    requires Enabled(Run(events).value, e) && Orderly(Run(events).value, e)
    ensures Run(events + [e]) == Some(Step(Run(events).value, e)) && Inv(Step(Run(events).value, e))
  {
    OneMore(events, e);
    StepKeeps(Run(events).value, e);
  }

  /** A run that ends with a queued write under a held id, continued to two handlers. */
  lemma {:induction false} RunsTwiceAfter(events: seq<Event>, e: Event, id: JobId) returns (more: seq<Event>)
    requires Run(events).Some? && Enabled(Run(events).value, e) && QueuesHeld(Run(events).value, e, id)
    ensures Run(events + [e] + more).Some? && ByWorkers(more) && TwoHandlers(Run(events + [e] + more).value, id)
  {
    RunFitsIds(events);
    more := QueuedWhileHeld(Run(events).value, e, id);
    OneMore(events, e);
    RunOn(events + [e], more);
  }

  /** With no race at all: a running job is canceled, then retried, each call done before the next begins. */
  function CanceledThenRetried(job: Job, now: int): seq<Event> {
    [Enqueue(job), Claim(0, job.id, ANY, now), Begin(0, now)]
    + [ReadFor(0, CancelCall, job.id), Write(0, now)]
    + [ReadFor(1, RetryCall, job.id), Write(1, now)]
  }

  /** After that run the workers alone can come to two handlers of the job. */
  lemma {:induction false} CancelThenRetryRunsTwice(job: Job, now: int) returns (more: seq<Event>)
    requires NewRecord(job) && job.runAt <= now
    ensures ByWorkers(more)
    ensures var events := CanceledThenRetried(job, now) + more; Run(events).Some? && TwoHandlers(Run(events).value, job.id)
  {
    var start, s := CanceledWhileRunning(job, now);
    var read, write := ReadFor(1, RetryCall, job.id), Write(1, now);
    OneMore(start, read);
    assert Holds(Run(start + [read]).value, 0, job.id);
    more := RunsTwiceAfter(start + [read], write, job.id);
    assert start + [read] + [write] == CanceledThenRetried(job, now);
  }

  lemma {:induction false} CanceledWhileRunning(job: Job, now: int) returns (events: seq<Event>, s: State)
    requires NewRecord(job) && job.runAt <= now
    ensures events == [Enqueue(job), Claim(0, job.id, ANY, now), Begin(0, now)] + [ReadFor(0, CancelCall, job.id), Write(0, now)]
    ensures Run(events) == Some(s) && IdsFit(s) && Holds(s, 0, job.id)
    ensures job.id in s.jobs && s.jobs[job.id].status == Canceled && s.pending == map[]
  {
    events, s := RunningJob(job, now);
    var read, write := ReadFor(0, CancelCall, job.id), Write(0, now);
    OneMore(events, read);
    OneMore(events + [read], write);
    s := Step(Step(s, read), write);
    assert events + [read] + [write] == events + [read, write];
    events := events + [read, write];
  }

  lemma {:induction false} RunningJob(job: Job, now: int) returns (events: seq<Event>, s: State)
    requires NewRecord(job) && job.runAt <= now
    ensures events == [Enqueue(job), Claim(0, job.id, ANY, now), Begin(0, now)]
    ensures Run(events) == Some(s) && Inv(s) && Holds(s, 0, job.id) && s.holds[0].Executing? && s.holds.Keys == {0}
    ensures s.jobs.Keys == {job.id} && s.jobs[job.id] == Begun(Claimed(job, now), now) == s.holds[0].job && s.pending == map[]
  {
    events, s := ClaimedJob(job, now);
    OneMoreOrderly(events, Begin(0, now));
    s := Step(s, Begin(0, now));
    events := events + [Begin(0, now)];
  }

  lemma {:induction false} ClaimedJob(job: Job, now: int) returns (events: seq<Event>, s: State)
    requires NewRecord(job) && job.runAt <= now
    ensures events == [Enqueue(job)] + [Claim(0, job.id, ANY, now)] && Run(events) == Some(s) && Inv(s)
    ensures s == State(map[job.id := Claimed(job, now)], map[0 := Preparing(Claimed(job, now))], map[], map[], map[])
  {
    events, s := EnqueuedJob(job);
    OneMoreOrderly(events, Claim(0, job.id, ANY, now));
    events := events + [Claim(0, job.id, ANY, now)];
    s := Step(s, Claim(0, job.id, ANY, now));
    assert s.jobs == map[job.id := Claimed(job, now)] && s.holds == map[0 := Preparing(Claimed(job, now))];
  }

  lemma {:induction false} EnqueuedJob(job: Job) returns (events: seq<Event>, s: State)
    requires NewRecord(job)
    ensures events == [Enqueue(job)] && Run(events) == Some(s) && Inv(s)
    ensures s == State(map[job.id := job], map[], map[], map[], map[])
  {
    EmptyKeepsInv();
    OneMore([], Enqueue(job));
    EnqueueKeeps(EMPTY, job);
    assert [] + [Enqueue(job)] == [Enqueue(job)];
    events, s := [Enqueue(job)], Put(EMPTY, job);
    assert s.jobs == map[job.id := job];
  }

  lemma {:induction false} EmptyKeepsInv()
    ensures Run([]) == Some(EMPTY) && Inv(EMPTY)
  {
  }

  /** Two retries of one dead job that read it before either writes, and a worker's claim in between. */
  function RetriedByTwo(job: Job, now: int): seq<Event> {
    [Enqueue(job), Claim(0, job.id, ANY, now), Begin(0, now)] + [Fail(0, now)]
    + [ReadFor(0, RetryCall, job.id)] + [ReadFor(1, RetryCall, job.id)]
    + [Write(0, now)] + [Claim(0, job.id, ANY, now)] + [Write(1, now)]
  }

  lemma {:induction false} StaleRetryRunsTwice(job: Job, now: int) returns (more: seq<Event>)
    requires NewRecord(job) && job.maxAttempts == 1 && job.runAt <= now
    ensures ByWorkers(more)
    ensures var events := RetriedByTwo(job, now) + more; Run(events).Some? && TwoHandlers(Run(events).value, job.id)
  {
    var start, s := DeadJobReadTwice(job, now);
    OneMoreOrderly(start, Write(0, now));
    s := Step(s, Write(0, now));
    start := start + [Write(0, now)];
    OneMoreOrderly(start, Claim(0, job.id, ANY, now));
    start := start + [Claim(0, job.id, ANY, now)];
    assert Holds(Run(start).value, 0, job.id);
    more := RunsTwiceAfter(start, Write(1, now), job.id);
  }

  lemma {:induction false} DeadJobReadTwice(job: Job, now: int) returns (events: seq<Event>, s: State)
    requires NewRecord(job) && job.maxAttempts == 1 && job.runAt <= now
    ensures events == [Enqueue(job), Claim(0, job.id, ANY, now), Begin(0, now)] + [Fail(0, now)]
                      + [ReadFor(0, RetryCall, job.id)] + [ReadFor(1, RetryCall, job.id)]
    ensures Run(events) == Some(s) && Inv(s) && s.jobs.Keys == {job.id} && s.holds == map[]
    ensures s.jobs[job.id].id == job.id && s.jobs[job.id].status == Dead
    ensures s.pending == map[0 := Pending(RetryCall, s.jobs[job.id]), 1 := Pending(RetryCall, s.jobs[job.id])]
  {
    events, s := DeadJob(job, now);
    OneMoreOrderly(events, ReadFor(0, RetryCall, job.id));
    s := Step(s, ReadFor(0, RetryCall, job.id));
    events := events + [ReadFor(0, RetryCall, job.id)];
    OneMoreOrderly(events, ReadFor(1, RetryCall, job.id));
    s := Step(s, ReadFor(1, RetryCall, job.id));
    events := events + [ReadFor(1, RetryCall, job.id)];
  }

  lemma {:induction false} DeadJob(job: Job, now: int) returns (events: seq<Event>, s: State)
    requires NewRecord(job) && job.maxAttempts == 1 && job.runAt <= now
    ensures events == [Enqueue(job), Claim(0, job.id, ANY, now), Begin(0, now)] + [Fail(0, now)]
    ensures Run(events) == Some(s) && Inv(s) && s.jobs.Keys == {job.id} && s.holds == map[] && s.pending == map[]
    ensures s.jobs[job.id].id == job.id && s.jobs[job.id].status == Dead
  {
    events, s := RunningJob(job, now);
    OneMoreOrderly(events, Fail(0, now));
    s := Step(s, Fail(0, now));
    events := events + [Fail(0, now)];
    assert s.holds == map[];
  }
}
