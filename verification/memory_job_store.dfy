/**
 The memory store: a `Map` from id to record, which keeps insertion order.
 */
module MemoryJobStore {
  import Arith
  import opened Jobs

  // ----- The map as an ordered list -------------------------------------------------------

  ghost predicate UniqueIds(jobs: seq<Job>) {
    forall i, j :: 0 <= i < j < |jobs| ==> jobs[i].id != jobs[j].id
  }

  function IndexOf(jobs: seq<Job>, id: JobId): (i: int)
    ensures i == -1 || (0 <= i < |jobs| && jobs[i].id == id)
    ensures forall j :: 0 <= j < |jobs| && jobs[j].id == id ==> j <= i
  {
    if jobs == [] then -1
    else if jobs[|jobs| - 1].id == id then |jobs| - 1
    else IndexOf(jobs[..|jobs| - 1], id)
  }

  /** `Map.set`: an existing entry keeps its place. */
  function Set(jobs: seq<Job>, job: Job): seq<Job> {
    var i := IndexOf(jobs, job.id);
    if i == -1 then jobs + [job] else jobs[i := job]
  }

  /** The store as a map from id to record. */
  ghost function AsMap(jobs: seq<Job>): map<JobId, Job> {
    if jobs == [] then map[] else AsMap(jobs[..|jobs| - 1])[jobs[|jobs| - 1].id := jobs[|jobs| - 1]]
  }

  lemma {:induction false} AsMapIs(jobs: seq<Job>)
    requires UniqueIds(jobs)
    ensures forall i :: 0 <= i < |jobs| ==> jobs[i].id in AsMap(jobs) && AsMap(jobs)[jobs[i].id] == jobs[i]
    ensures forall id :: id in AsMap(jobs) ==> exists i :: 0 <= i < |jobs| && jobs[i].id == id
  {
    if jobs != [] {
      AsMapIs(jobs[..|jobs| - 1]);
      forall id | id in AsMap(jobs)
        ensures exists i :: 0 <= i < |jobs| && jobs[i].id == id
      {
        if id != jobs[|jobs| - 1].id {
          var i :| 0 <= i < |jobs| - 1 && jobs[..|jobs| - 1][i].id == id;
          assert jobs[i].id == id;
        }
      }
    }
  }

  lemma {:induction false} SetBeforeLast(jobs: seq<Job>, job: Job)
    requires jobs != [] && IndexOf(jobs, job.id) != -1 && jobs[|jobs| - 1].id != job.id
    ensures var n := |jobs| - 1; Set(jobs, job) == Set(jobs[..n], job) + [jobs[n]]
  {
    var n, i := |jobs| - 1, IndexOf(jobs, job.id);
    assert i == IndexOf(jobs[..n], job.id);
    assert jobs[i := job] == jobs[..n][i := job] + [jobs[n]];
  }

  lemma {:induction false} SetIsUpdate(jobs: seq<Job>, job: Job)
    ensures AsMap(Set(jobs, job)) == AsMap(jobs)[job.id := job]
  {
    var i, n := IndexOf(jobs, job.id), |jobs| - 1;
    if i == -1 {
      assert Set(jobs, job)[..|jobs|] == jobs;
    } else if i == n {
      assert Set(jobs, job)[..n] == jobs[..n];
    } else {
      SetIsUpdate(jobs[..n], job);
      SetBeforeLast(jobs, job);
    }
  }

  lemma SetKeepsUnique(jobs: seq<Job>, job: Job)
    requires UniqueIds(jobs)
    ensures UniqueIds(Set(jobs, job))
  {
  }

  // ----- Listing --------------------------------------------------------------------------

  /** Where the page after `cursor` starts: behind the job the cursor names. */
  function StartOf(sorted: seq<Job>, cursor: Option<JobId>): (start: nat)
    ensures start <= |sorted|
  {
    if cursor == None then 0 else IndexOf(sorted, cursor.value) + 1
  }

  /** One page of the sorted matches: the listed jobs and the cursor, if there is more. */
  function Page(sorted: seq<Job>, cursor: Option<JobId>, limit: nat): (page: (seq<Job>, Option<JobId>))
    ensures page.1.Some? ==> StartOf(sorted, page.1) > StartOf(sorted, cursor)
  {
    var start := StartOf(sorted, cursor);
    if |sorted| - start <= limit then (sorted[start..], None)
    else (sorted[start..start + limit], Some(sorted[start + limit].id))
  }

  /** All the jobs a caller sees that follows the cursors to the end. */
  function Follow(sorted: seq<Job>, cursor: Option<JobId>, limit: nat): seq<Job>
    decreases |sorted| - StartOf(sorted, cursor)
  {
    var (jobs, next) := Page(sorted, cursor, limit);
    if next == None then jobs else jobs + Follow(sorted, next, limit)
  }

  /** A list without its elements number limit, 2 * limit + 1, 3 * limit + 2, ... */
  function SkipEach<T>(list: seq<T>, limit: nat): seq<T> {
    if |list| <= limit then list else list[..limit] + SkipEach(list[limit + 1..], limit)
  }

  /** The cursor that names job number i is found there. */
  ghost predicate CursorWorks(sorted: seq<Job>, i: nat)
    requires i < |sorted|
  {
    StartOf(sorted, Some(sorted[i].id)) == i + 1
  }

  ghost predicate CursorsWork(sorted: seq<Job>) {
    forall i :: 0 <= i < |sorted| ==> CursorWorks(sorted, i)
  }

  lemma UniqueIdsFindThemselves(sorted: seq<Job>)
    requires UniqueIds(sorted)
    ensures CursorsWork(sorted)
  {
  }

  lemma {:induction false} FollowFrom(sorted: seq<Job>, cursor: Option<JobId>, limit: nat, rest: seq<Job>)
    requires CursorsWork(sorted) && rest == sorted[StartOf(sorted, cursor)..]
    ensures Follow(sorted, cursor, limit) == SkipEach(rest, limit)
    decreases |rest|
  {
    if |rest| > limit {
      var next := Some(rest[limit].id);
      FollowMore(sorted, cursor, limit, rest);
      FollowFrom(sorted, next, limit, rest[limit + 1..]);
    } else {
      FollowLast(sorted, cursor, limit);
    }
  }

  lemma {:induction false} FollowLast(sorted: seq<Job>, cursor: Option<JobId>, limit: nat)
    requires |sorted| - StartOf(sorted, cursor) <= limit
    ensures Follow(sorted, cursor, limit) == sorted[StartOf(sorted, cursor)..]
  {
  }

  lemma {:induction false} FollowMore(sorted: seq<Job>, cursor: Option<JobId>, limit: nat, rest: seq<Job>)
    requires CursorsWork(sorted) && rest == sorted[StartOf(sorted, cursor)..] && |rest| > limit
    ensures var next := Some(rest[limit].id);
      && Follow(sorted, cursor, limit) == rest[..limit] + Follow(sorted, next, limit)
      && rest[limit + 1..] == sorted[StartOf(sorted, next)..]
  {
    var start := StartOf(sorted, cursor);
    assert CursorWorks(sorted, start + limit);
    assert sorted[start..start + limit] == rest[..limit];
  }

  predicate Skipped(i: nat, limit: nat) {
    i == limit || (i > limit && Skipped(i - limit - 1, limit))
  }

  lemma {:induction false} SkippedIff(i: nat, limit: nat)
    ensures Skipped(i, limit) <==> i % (limit + 1) == limit
  {
    if i > limit {
      SkippedIff(i - limit - 1, limit);
      Arith.OnePeriodMore(i - limit - 1, limit + 1);
    } else {
      Arith.DivModUnique(i, limit + 1, 0, i);
    }
  }

  lemma {:induction false} SkippedIndices<T>(list: seq<T>, limit: nat, i: nat)
    requires i < |list| && forall j :: 0 <= j < |list| && j != i ==> list[j] != list[i]
    ensures list[i] in SkipEach(list, limit) <==> !Skipped(i, limit)
    decreases |list|
  {
    if |list| > limit {
      var first, rest := list[..limit], list[limit + 1..];
      if i < limit {
        assert first[i] == list[i];
      } else if i == limit {
        SkipEachSubset(rest, limit);
        assert list[i] !in first && list[i] !in rest;
      } else {
        assert rest[i - limit - 1] == list[i] && list[i] !in first;
        SkippedIndices(rest, limit, i - limit - 1);
      }
    }
  }

  lemma {:induction false} SkipEachSubset<T>(list: seq<T>, limit: nat)
    ensures forall x :: x in SkipEach(list, limit) ==> x in list
    ensures |SkipEach(list, limit)| <= |list|
    ensures |list| > limit ==> |SkipEach(list, limit)| < |list|
    decreases |list|
  {
    if |list| > limit {
      SkipEachSubset(list[limit + 1..], limit);
    }
  }

  /**
   Paging starts after its cursor although the cursor names the first job not yet returned, so
   it leaves out every (limit + 1)-th match: it is complete exactly when one page holds all.
   */
  lemma {:induction false} PagingSkips(sorted: seq<Job>, limit: nat, i: nat)
    requires UniqueIds(sorted) && i < |sorted|
    ensures sorted[i] in Follow(sorted, None, limit) <==> i % (limit + 1) != limit
    ensures Follow(sorted, None, limit) == sorted <==> |sorted| <= limit
  {
    UniqueIdsFindThemselves(sorted);
    FollowFrom(sorted, None, limit, sorted);
    SkippedIndices(sorted, limit, i);
    SkippedIff(i, limit);
    SkipEachSubset(sorted, limit);
  }

  // ----- The store ------------------------------------------------------------------------

  /** Every other ready and admitted job of the list comes after job number `best`. */
  ghost predicate FirstOf(jobs: seq<Job>, filter: Filter, now: int, best: nat)
    requires best < |jobs|
  {
    forall k :: 0 <= k < |jobs| && k != best && Ready(jobs[k], now) && Admits(filter, jobs[k]) ==>
      ClaimedBefore(jobs[best], jobs[k])
  }

  class Store {
    var jobs: seq<Job>

    ghost predicate Valid()
      reads this
    {
      UniqueIds(jobs)
    }

    constructor ()
      ensures Valid() && jobs == []
    {
      jobs := [];
    }

    /** `enqueue` and `update`: both overwrite whatever is stored under the id. */
    method Update(job: Job)
      requires Valid()
      modifies this
      ensures Valid() && jobs == Set(old(jobs), job)
      ensures AsMap(jobs) == old(AsMap(jobs))[job.id := job]
    {
      SetIsUpdate(jobs, job);
      SetKeepsUnique(jobs, job);
      jobs := Set(jobs, job);
    }

    method Get(id: JobId) returns (job: Option<Job>)
      requires Valid()
      ensures job == if id in AsMap(jobs) then Some(AsMap(jobs)[id]) else None
    {
      AsMapIs(jobs);
      var i := IndexOf(jobs, id);
      job := if i == -1 then None else Some(jobs[i]);
    }

    /** Claims the first job of the claim order that is ready and admitted. */
    method ClaimNext(filter: Filter, now: int, timestamp: int) returns (claimed: Option<Job>)
      requires Valid()
      modifies this
      ensures Valid()
      ensures claimed == None ==> jobs == old(jobs) && forall id :: !IsChoice(old(AsMap(jobs)), filter, now, id)
      ensures claimed.Some? ==>
                var before, id := old(AsMap(jobs)), claimed.value.id;
                && IsChoice(before, filter, now, id)
                && claimed.value == Claimed(before[id], timestamp)
                && AsMap(jobs) == before[id := claimed.value]
    {
      var best := BestCandidate(jobs, filter, now);
      if best == -1 {
        NothingToChoose(jobs, filter, now);
        return None;
      }
      BestIsChoice(jobs, filter, now, best);
      var job := Claimed(jobs[best], timestamp);
      claimed := Some(job);
      Update(job);
    }
  }

  ghost predicate IsBest(list: seq<Job>, filter: Filter, now: int, best: int) {
    if best == -1 then forall k :: 0 <= k < |list| ==> !(Ready(list[k], now) && Admits(filter, list[k]))
    else 0 <= best < |list| && Ready(list[best], now) && Admits(filter, list[best]) && FirstOf(list, filter, now, best)
  }

  /** The scan of `claimNext`: -1 if no job is ready and admitted. */
  method BestCandidate(list: seq<Job>, filter: Filter, now: int) returns (best: int)
    requires UniqueIds(list)
    ensures IsBest(list, filter, now, best)
  {
    best := -1;
    for i := 0 to |list|
      invariant IsBest(list[..i], filter, now, best)
    {
      ghost var before := best;
      if Ready(list[i], now) && Admits(filter, list[i]) && (best == -1 || ClaimedBefore(list[i], list[best])) {
        best := i;
      }
      OneMoreCandidate(list, filter, now, before, i);
    }
    assert list[..|list|] == list;
  }

  function Better(list: seq<Job>, filter: Filter, now: int, best: int, i: nat): int
    requires i < |list| && -1 <= best < |list|
  {
    if Ready(list[i], now) && Admits(filter, list[i]) && (best == -1 || ClaimedBefore(list[i], list[best])) then i else best
  }

  lemma {:induction false} OneMoreCandidate(list: seq<Job>, filter: Filter, now: int, best: int, i: nat)
    requires UniqueIds(list) && i < |list| && IsBest(list[..i], filter, now, best)
    ensures IsBest(list[..i + 1], filter, now, Better(list, filter, now, best, i))
  {
    var longer := list[..i + 1];
    assert longer[i] == list[i];
    assert forall k :: 0 <= k < i ==> longer[k] == list[..i][k];
    if best != -1 && Ready(list[i], now) && Admits(filter, list[i]) {
      AnotherCandidate(list, filter, now, best, i);
    }
  }

  lemma {:induction false} NothingToChoose(list: seq<Job>, filter: Filter, now: int)
    requires UniqueIds(list) && IsBest(list, filter, now, -1)
    ensures forall id :: !IsChoice(AsMap(list), filter, now, id)
  {
    AsMapIs(list);
  }

  lemma {:induction false} BestIsChoice(list: seq<Job>, filter: Filter, now: int, best: nat)
    requires UniqueIds(list) && IsBest(list, filter, now, best)
    ensures IsChoice(AsMap(list), filter, now, list[best].id) && AsMap(list)[list[best].id] == list[best]
  {
    AsMapIs(list);
    var jobs := AsMap(list);
    forall k | k in jobs && k != list[best].id && Ready(jobs[k], now) && Admits(filter, jobs[k])
      ensures ClaimedBefore(jobs[list[best].id], jobs[k])
    {
      var i :| 0 <= i < |list| && list[i].id == k;
    }
  }

  lemma AnotherCandidate(jobs: seq<Job>, filter: Filter, now: int, best: nat, i: nat)
    requires UniqueIds(jobs) && best < i < |jobs| && FirstOf(jobs[..i], filter, now, best)
    ensures FirstOf(jobs[..i + 1], filter, now, if ClaimedBefore(jobs[i], jobs[best]) then i else best)
  {
    ClaimOrderIsTotal(jobs[best], jobs[i], jobs[i]);
    if ClaimedBefore(jobs[i], jobs[best]) {
      forall k | 0 <= k < i && Ready(jobs[k], now) && Admits(filter, jobs[k])
        ensures ClaimedBefore(jobs[i], jobs[k])
      {
        assert k != best ==> ClaimedBefore(jobs[..i][best], jobs[..i][k]);
        ClaimOrderIsTotal(jobs[i], jobs[best], jobs[k]);
      }
    } else {
      forall k | 0 <= k < i && k != best && Ready(jobs[k], now) && Admits(filter, jobs[k])
        ensures ClaimedBefore(jobs[best], jobs[k])
      {
        assert ClaimedBefore(jobs[..i][best], jobs[..i][k]);
      }
    }
  }
}
