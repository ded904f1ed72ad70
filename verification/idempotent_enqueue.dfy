/**
 Enqueueing under an idempotency key over the memory store. The queue first awaits a search for the
 key and only then awaits the write, so other calls, and the workers, may act in between.
 */
module IdempotentEnqueue {
  import opened Jobs
  import opened MemoryJobStore

  type CallId = nat

  /** `findByIdempotencyKey`: the first match in insertion order, whatever its status. */
  function FindByKey(jobs: seq<Job>, key: string): (i: int)
    ensures i == -1 || (0 <= i < |jobs| && jobs[i].idempotencyKey == Some(key))
    ensures forall j :: 0 <= j < |jobs| && (i == -1 || j < i) ==> jobs[j].idempotencyKey != Some(key)
  {
    if jobs == [] then -1
    else
      var i := FindByKey(jobs[..|jobs| - 1], key);
      if i != -1 then i
      else if jobs[|jobs| - 1].idempotencyKey == Some(key) then |jobs| - 1 else -1
  }

  /** `pending` are the calls whose search found no unfinished job, with the record they will write. */
  datatype State = State(jobs: seq<Job>, pending: map<CallId, Job>)

  /** Change is whatever the workers, a cancel or a retry do to the status of a job. */
  datatype Event =
    | Find(call: CallId, job: Job)
    | Write(call: CallId)
    | Change(id: JobId, status: Status)

  predicate LiveWithKey(job: Job, key: string) {
    job.idempotencyKey == Some(key) && !Terminal(job.status)
  }

  /** What the search answers: the job to return, if the first match is unfinished. */
  function Found(jobs: seq<Job>, job: Job): Option<Job> {
    if job.idempotencyKey == None then None
    else
      var i := FindByKey(jobs, job.idempotencyKey.value);
      if i != -1 && !Terminal(jobs[i].status) then Some(jobs[i]) else None
  }

  function Step(s: State, e: Event): Option<State> {
    match e
    case Find(c, job) =>
      if c in s.pending || !NewRecord(job) then None
      else if Found(s.jobs, job).Some? then Some(s)
      else Some(s.(pending := s.pending[c := job]))
    case Write(c) =>
      if c !in s.pending then None
      else Some(State(Set(s.jobs, s.pending[c]), s.pending - {c}))
    case Change(id, status) =>
      var i := IndexOf(s.jobs, id);
      if i == -1 then None else Some(s.(jobs := s.jobs[i := s.jobs[i].(status := status)]))
  }

  function Run(s: State, events: seq<Event>): Option<State>
    decreases events
  {
    if events == [] then Some(s)
    else
      match Step(s, events[0])
      case None => None
      case Some(next) => Run(next, events[1..])
  }

  ghost predicate OneLiveJob(jobs: seq<Job>, key: string) {
    forall i, j :: 0 <= i < |jobs| && 0 <= j < |jobs| && LiveWithKey(jobs[i], key) && LiveWithKey(jobs[j], key)
      ==> i == j
  }

  // ----- One write ------------------------------------------------------------------------------

  /** Some unfinished job other than `id` has the key. */
  ghost predicate OtherLive(jobs: seq<Job>, id: JobId, key: string) {
    exists i :: 0 <= i < |jobs| && jobs[i].id != id && LiveWithKey(jobs[i], key)
  }

  /** A write leaves one live job of its key exactly if no other job of the key is live at that moment. */
  lemma {:induction false} OneLiveJobIff(jobs: seq<Job>, job: Job, key: string)
    requires UniqueIds(jobs) && LiveWithKey(job, key)
    ensures OneLiveJob(Set(jobs, job), key) <==> !OtherLive(jobs, job.id, key)
  {
    var after, i := Set(jobs, job), IndexOf(jobs, job.id);
    var place := if i == -1 then |jobs| else i;
    assert after[place] == job;
    forall k | 0 <= k < |jobs| && k != place ensures after[k] == jobs[k] && jobs[k].id != job.id {
    }
    if k :| 0 <= k < |jobs| && jobs[k].id != job.id && LiveWithKey(jobs[k], key) {
      assert after[k] == jobs[k];
    }
  }

  /** Writing a job leaves the other keys' live jobs at most as many. */
  lemma {:induction false} OtherKeysKeepOne(jobs: seq<Job>, job: Job, key: string)
    requires OneLiveJob(jobs, key) && !LiveWithKey(job, key)
    ensures OneLiveJob(Set(jobs, job), key)
  {
    var after := Set(jobs, job);
    forall i, j | 0 <= i < |after| && 0 <= j < |after| && LiveWithKey(after[i], key) && LiveWithKey(after[j], key)
      ensures i == j
    {
      assert after[i] == jobs[i] && after[j] == jobs[j];
    }
  }

  // ----- Whole runs -------------------------------------------------------------------------------

  /** The record a step stores: a new job, or an old one with another status. */
  function Stored(s: State, e: Event): Option<Job> {
    match e
    case Find(_, _) => None
    case Write(c) => if c in s.pending then Some(s.pending[c]) else None
    case Change(id, status) =>
      var i := IndexOf(s.jobs, id);
      if i == -1 then None else Some(s.jobs[i].(status := status))
  }

  /** The step stores a live job of the key (a new one, or a finished one brought back) beside another. */
  ghost predicate StoresBeside(s: State, e: Event, key: string) {
    var job := Stored(s, e);
    job.Some? && LiveWithKey(job.value, key) && OtherLive(s.jobs, job.value.id, key)
  }

  ghost predicate Sound(s: State) {
    UniqueIds(s.jobs) && forall c :: c in s.pending ==> NewRecord(s.pending[c])
  }

  lemma {:induction false} StepIsSound(s: State, e: Event)
    requires Sound(s) && Step(s, e).Some?
    ensures Sound(Step(s, e).value)
  {
    if e.Write? {
      SetKeepsUnique(s.jobs, s.pending[e.call]);
    }
  }

  lemma {:induction false} StepKeepsOneIff(s: State, e: Event, key: string)
    requires Sound(s) && Step(s, e).Some? && OneLiveJob(s.jobs, key)
    ensures OneLiveJob(Step(s, e).value.jobs, key) <==> !StoresBeside(s, e, key)
  {
    var job := Stored(s, e);
    if job.Some? {
      assert Step(s, e).value.jobs == Set(s.jobs, job.value);
      if LiveWithKey(job.value, key) {
        OneLiveJobIff(s.jobs, job.value, key);
      } else {
        OtherKeysKeepOne(s.jobs, job.value, key);
      }
    }
  }

  /** The state in which event number i happens. */
  function At(s: State, events: seq<Event>, i: nat): State
    requires i <= |events|
  {
    match Run(s, events[..i])
    case Some(t) => t
    case None => s
  }

  lemma {:induction false} RunTail(s: State, events: seq<Event>, i: nat)
    requires Run(s, events).Some? && 0 < i <= |events|
    ensures Run(s, events[..i]) == Run(Step(s, events[0]).value, events[1..][..i - 1])
  {
    assert events[..i][0] == events[0] && events[..i][1..] == events[1..][..i - 1];
  }

  lemma {:induction false} PrefixRuns(s: State, events: seq<Event>, i: nat)
    requires Run(s, events).Some? && i <= |events|
    ensures Run(s, events[..i]) == Some(At(s, events, i))
    ensures i < |events| ==> Step(At(s, events, i), events[i]) == Run(s, events[..i + 1]) == Some(At(s, events, i + 1))
    decreases i
  {
    assert events[..0] == [];
    if i == 0 {
      if events != [] {
        RunTail(s, events, 1);
        assert events[1..][..0] == [];
      }
    } else {
      RunTail(s, events, i);
      PrefixRuns(Step(s, events[0]).value, events[1..], i - 1);
      if i < |events| {
        RunTail(s, events, i + 1);
        assert events[1..][i - 1] == events[i];
      }
    }
  }

  lemma {:induction false} AlwaysSound(s: State, events: seq<Event>, i: nat)
    requires Sound(s) && Run(s, events).Some? && i <= |events|
    ensures Sound(At(s, events, i))
    decreases i
  {
    assert events[..0] == [];
    if i > 0 {
      AlwaysSound(s, events, i - 1);
      PrefixRuns(s, events, i - 1);
      StepIsSound(At(s, events, i - 1), events[i - 1]);
    }
  }

  /** Up to event number n there is at most one live job of the key. */
  ghost predicate AlwaysOne(s: State, events: seq<Event>, n: nat, key: string)
    requires n <= |events|
  {
    forall i :: 0 <= i <= n ==> OneLiveJob(At(s, events, i).jobs, key)
  }

  ghost predicate NeverBeside(s: State, events: seq<Event>, n: nat, key: string)
    requires n <= |events|
  {
    forall i :: 0 <= i < n ==> !StoresBeside(At(s, events, i), events[i], key)
  }

  lemma {:induction false} OneStepMore(s: State, events: seq<Event>, n: nat, key: string)
    requires 0 < n <= |events|
    ensures AlwaysOne(s, events, n, key) <==> AlwaysOne(s, events, n - 1, key) && OneLiveJob(At(s, events, n).jobs, key)
    ensures NeverBeside(s, events, n, key) <==>
      NeverBeside(s, events, n - 1, key) && !StoresBeside(At(s, events, n - 1), events[n - 1], key)
  {
  }

  /** There is one live job of the key at all times exactly if no step stores one beside another live one. */
  lemma {:induction false} OneLiveJobThroughoutIff(s: State, events: seq<Event>, n: nat, key: string)
    requires Sound(s) && OneLiveJob(s.jobs, key) && Run(s, events).Some? && n <= |events|
    ensures AlwaysOne(s, events, n, key) <==> NeverBeside(s, events, n, key)
    decreases n
  {
    assert events[..0] == [];
    if n > 0 {
      OneLiveJobThroughoutIff(s, events, n - 1, key);
      AlwaysSound(s, events, n - 1);
      PrefixRuns(s, events, n - 1);
      if OneLiveJob(At(s, events, n - 1).jobs, key) {
        StepKeepsOneIff(At(s, events, n - 1), events[n - 1], key);
      }
      OneStepMore(s, events, n, key);
    }
  }

  // ----- Where the other live job comes from --------------------------------------------------------

  ghost predicate Live(jobs: seq<Job>, id: JobId, key: string) {
    exists k :: 0 <= k < |jobs| && jobs[k].id == id && LiveWithKey(jobs[k], key)
  }

  /** The step stores the job `id` as a live one of the key: a write, or a change that brings it back. */
  ghost predicate MakesLive(s: State, e: Event, id: JobId, key: string) {
    Stored(s, e).Some? && Stored(s, e).value.id == id && LiveWithKey(Stored(s, e).value, key)
  }

  /** The step stores it otherwise: it is finished, or another record replaces it. */
  ghost predicate Ends(s: State, e: Event, id: JobId, key: string) {
    Stored(s, e).Some? && Stored(s, e).value.id == id && !LiveWithKey(Stored(s, e).value, key)
  }

  ghost predicate NeverEnds(s: State, events: seq<Event>, from: nat, i: nat, id: JobId, key: string)
    requires i <= |events|
  {
    forall q :: from <= q < i ==> !Ends(At(s, events, q), events[q], id, key)
  }

  lemma {:induction false} LiveAfterStep(s: State, e: Event, id: JobId, key: string)
    requires Sound(s) && Step(s, e).Some?
    ensures Live(Step(s, e).value.jobs, id, key) <==>
              MakesLive(s, e, id, key) || (Live(s.jobs, id, key) && !Ends(s, e, id, key))
  {
    var job := Stored(s, e);
    if job.Some? {
      assert Step(s, e).value.jobs == Set(s.jobs, job.value);
      LiveAfterSet(s.jobs, job.value, id, key);
    }
  }

  lemma {:induction false} LiveAfterSet(jobs: seq<Job>, job: Job, id: JobId, key: string)
    requires UniqueIds(jobs)
    ensures Live(Set(jobs, job), id, key) <==> if job.id == id then LiveWithKey(job, key) else Live(jobs, id, key)
  {
    var after, i := Set(jobs, job), IndexOf(jobs, job.id);
    var place := if i == -1 then |jobs| else i;
    assert after[place] == job;
    forall k | 0 <= k < |jobs| && k != place ensures after[k] == jobs[k] && jobs[k].id != job.id {
    }
    if k :| 0 <= k < |jobs| && jobs[k].id == id && LiveWithKey(jobs[k], key) && id != job.id {
      assert after[k] == jobs[k];
    }
  }

  /** What is live at event i was live at event `from`, or was made live since, and has not ended since then. */
  lemma {:induction false} LiveIff(s: State, events: seq<Event>, from: nat, i: nat, id: JobId, key: string)
    requires Sound(s) && Run(s, events).Some? && from <= i <= |events|
    ensures Live(At(s, events, i).jobs, id, key) <==>
              || (Live(At(s, events, from).jobs, id, key) && NeverEnds(s, events, from, i, id, key))
              || MadeLive(s, events, from, i, id, key)
    decreases i
  {
    if from < i {
      var last := i - 1;
      LiveIff(s, events, from, last, id, key);
      PrefixRuns(s, events, last);
      AlwaysSound(s, events, last);
      LiveAfterStep(At(s, events, last), events[last], id, key);
      MadeLiveStep(s, events, from, i, id, key);
    }
  }

  ghost predicate MadeLiveAt(s: State, events: seq<Event>, q: nat, i: nat, id: JobId, key: string)
    requires i <= |events|
  {
    q < i && MakesLive(At(s, events, q), events[q], id, key) && NeverEnds(s, events, q + 1, i, id, key)
  }

  ghost predicate MadeLive(s: State, events: seq<Event>, from: nat, i: nat, id: JobId, key: string)
    requires i <= |events|
  {
    exists q: nat :: from <= q && MadeLiveAt(s, events, q, i, id, key)
  }

  lemma {:induction false} MadeLiveStep(s: State, events: seq<Event>, from: nat, i: nat, id: JobId, key: string)
    requires from < i <= |events|
    ensures MadeLive(s, events, from, i, id, key) <==>
      || MakesLive(At(s, events, i - 1), events[i - 1], id, key)
      || (MadeLive(s, events, from, i - 1, id, key) && !Ends(At(s, events, i - 1), events[i - 1], id, key))
  {
    if MakesLive(At(s, events, i - 1), events[i - 1], id, key) {
      assert MadeLiveAt(s, events, i - 1, i, id, key);
    } else if MadeLive(s, events, from, i, id, key) {
      var q: nat :| from <= q && MadeLiveAt(s, events, q, i, id, key);
      assert MadeLiveAt(s, events, q, i - 1, id, key);
    }
    if MadeLive(s, events, from, i - 1, id, key) && !Ends(At(s, events, i - 1), events[i - 1], id, key) {
      var q: nat :| from <= q && MadeLiveAt(s, events, q, i - 1, id, key);
      assert MadeLiveAt(s, events, q, i, id, key);
    }
  }

  /** A waiting write was preceded by a search that found no unfinished job first. */
  lemma {:induction false} SearchedBefore(s: State, events: seq<Event>, i: nat, c: CallId) returns (p: nat)
    requires s.pending == map[] && Run(s, events).Some? && i <= |events| && c in At(s, events, i).pending
    ensures p < i && events[p] == Find(c, At(s, events, i).pending[c])
    ensures Found(At(s, events, p).jobs, At(s, events, i).pending[c]) == None
    decreases i
  {
    assert events[..0] == [];
    p := i - 1;
    PrefixRuns(s, events, p);
    if c in At(s, events, p).pending {
      p := SearchedBefore(s, events, p, c);
    }
  }

  /** At the search the first job of the key had finished and `id`, a younger one, was live; it still is at the write. */
  ghost predicate HiddenFrom(s: State, events: seq<Event>, p: nat, i: nat, id: JobId, key: string)
    requires p <= i <= |events|
  {
    var jobs := At(s, events, p).jobs;
    && FindByKey(jobs, key) != -1 && Terminal(jobs[FindByKey(jobs, key)].status)
    && Live(jobs, id, key) && NeverEnds(s, events, p, i, id, key)
  }

  /**
   The cause of two live jobs: a write adds one exactly if its search overlooked a live job behind a
   finished one, or another job of the key was written or brought back between the search and the
   write, and that job has not ended by the time of the write.
   */
  lemma {:induction false} WriteBesideIff(s: State, events: seq<Event>, i: nat, key: string) returns (p: nat)
    requires Sound(s) && s.pending == map[] && Run(s, events).Some? && i < |events| && events[i].Write?
    requires events[i].call in At(s, events, i).pending ==> At(s, events, i).pending[events[i].call].idempotencyKey == Some(key)
    ensures events[i].call in At(s, events, i).pending && p < i
    ensures var job := At(s, events, i).pending[events[i].call];
      && events[p] == Find(events[i].call, job)
      && (StoresBeside(At(s, events, i), events[i], key) <==>
            exists id :: id != job.id
              && (HiddenFrom(s, events, p, i, id, key) || MadeLive(s, events, p + 1, i, id, key)))
  {
    PrefixRuns(s, events, i);
    AlwaysSound(s, events, i);
    var c := events[i].call;
    var job := At(s, events, i).pending[c];
    p := SearchedBefore(s, events, i, c);
    PrefixRuns(s, events, p);
    forall id ensures Live(At(s, events, i).jobs, id, key) <==>
      HiddenFrom(s, events, p, i, id, key) || MadeLive(s, events, p + 1, i, id, key)
    {
      LiveSinceSearch(s, events, p, i, id, key);
    }
    OtherLiveIs(At(s, events, i).jobs, job.id, key);
  }

  lemma {:induction false} OtherLiveIs(jobs: seq<Job>, id: JobId, key: string)
    ensures OtherLive(jobs, id, key) <==> exists other :: other != id && Live(jobs, other, key)
  {
    if k :| 0 <= k < |jobs| && jobs[k].id != id && LiveWithKey(jobs[k], key) {
      assert Live(jobs, jobs[k].id, key);
    }
  }

  lemma {:induction false} LiveSinceSearch(s: State, events: seq<Event>, p: nat, i: nat, id: JobId, key: string)
    requires Sound(s) && Run(s, events).Some? && p < i <= |events| && events[p].Find?
    requires events[p].job.idempotencyKey == Some(key) && Found(At(s, events, p).jobs, events[p].job) == None
    ensures Live(At(s, events, i).jobs, id, key) <==>
      HiddenFrom(s, events, p, i, id, key) || MadeLive(s, events, p + 1, i, id, key)
  {
    LiveIff(s, events, p, i, id, key);
    if q: nat :| p <= q && MadeLiveAt(s, events, q, i, id, key) {
      assert q != p;
    }
    if MadeLive(s, events, p + 1, i, id, key) {
      var q: nat :| p + 1 <= q && MadeLiveAt(s, events, q, i, id, key);
      assert MadeLive(s, events, p, i, id, key);
    }
  }

  // ----- One call ---------------------------------------------------------------------------------

  /** A search with nothing in between the write after it. */
  lemma {:induction false} UndisturbedEnqueueIff(s: State, c: CallId, job: Job, key: string)
    requires Sound(s) && OneLiveJob(s.jobs, key) && c !in s.pending
    requires NewRecord(job) && job.idempotencyKey == Some(key) && IndexOf(s.jobs, job.id) == -1
    requires Found(s.jobs, job) == None
    ensures var after := Run(s, [Find(c, job), Write(c)]);
      && after.Some?
      && (OneLiveJob(after.value.jobs, key) <==>
            !(FindByKey(s.jobs, key) != -1 && exists i :: 0 <= i < |s.jobs| && LiveWithKey(s.jobs[i], key)))
  {
    var t := Step(s, Find(c, job)).value;
    assert [Find(c, job), Write(c)][1..] == [Write(c)];
    assert [Write(c)][1..] == [];
    assert Run(t, [Write(c)]) == Run(Step(t, Write(c)).value, []);
    OneLiveJobIff(s.jobs, job, key);
  }

  /** Two calls with one key on an empty store that both search before either writes leave two live jobs. */
  lemma {:induction false} RaceLeavesTwo(first: Job, second: Job, key: string) returns (events: seq<Event>)
    requires NewRecord(first) && NewRecord(second) && first.id != second.id
    requires first.idempotencyKey == Some(key) && second.idempotencyKey == Some(key)
    ensures var after := Run(State([], map[]), events);
      && after.Some? && after.value.jobs == [first, second] && !OneLiveJob(after.value.jobs, key)
    ensures forall i :: 0 <= i < |events| ==> !events[i].Change?
  {
    var s1 := State([], map[0 := first]);
    var s2 := State([], map[0 := first, 1 := second]);
    var s3 := State([first], map[1 := second]);
    var s4 := State([first, second], map[]);
    assert s1.pending[1 := second] == s2.pending && s2.pending - {0} == s3.pending && s3.pending - {1} == s4.pending;
    assert [] + [first] == s3.jobs && [first] + [second] == s4.jobs;
    events := [];
    RunOne(s3, Write(1), s4, events);
    events := [Write(1)] + events;
    RunOne(s2, Write(0), s3, events);
    events := [Write(0)] + events;
    RunOne(s1, Find(1, second), s2, events);
    events := [Find(1, second)] + events;
    RunOne(State([], map[]), Find(0, first), s1, events);
    events := [Find(0, first)] + events;
    assert LiveWithKey(s4.jobs[0], key) && LiveWithKey(s4.jobs[1], key);
  }

  lemma {:induction false} RunOne(s: State, e: Event, next: State, rest: seq<Event>)
    requires Step(s, e) == Some(next)
    ensures Run(s, [e] + rest) == Run(next, rest)
  {
    assert ([e] + rest)[1..] == rest;
  }
}
