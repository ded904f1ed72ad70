/**
 The PostgreSQL job store as a lease protocol over one table.  Every method is one SQL
 statement, so one atomic step on the rows; rows that other transactions have locked at that
 moment are skipped.
 */
module Leases {

  datatype Option<T> = None | Some(value: T)

  type JobId = string

  datatype Status = Queued | Running | Succeeded | Failed | Dead | Canceled

  datatype Priority = Low | Normal | High | Critical

  /** The columns the protocol reads or writes. */
  datatype Row = Row(
    status: Status, queue: string, name: string, priority: Priority, runAt: int,
    startedAt: Option<int>, lockedBy: Option<string>, leaseExpiresAt: Option<int>)

  type Table = map<JobId, Row>

  /** `names` is absent also where the caller passes an empty list. */
  datatype Filter = Filter(queue: Option<string>, names: Option<set<string>>)

  const DEFAULT_LIMIT := 1_000_000

  // ----- Claims -------------------------------------------------------------------------

  predicate Claimable(row: Row, f: Filter, now: int) {
    && row.status == Queued && row.runAt <= now
    && (f.queue.Some? ==> row.queue == f.queue.value)
    && (f.names.Some? ==> row.name in f.names.value)
  }

  function Rank(p: Priority): int {
    match p
    case Critical => 0
    case High => 1
    case Normal => 2
    case Low => 3
  }

  predicate OrderedBefore(a: Row, b: Row) {
    Rank(a.priority) < Rank(b.priority) || (a.priority == b.priority && a.runAt < b.runAt)
  }

  function ClaimCandidates(rows: Table, f: Filter, now: int, locked: set<JobId>): set<JobId> {
    set id | id in rows && Claimable(rows[id], f, now) && id !in locked
  }

  /** What `order by ... limit 1` may return: a candidate that no other one comes before. */
  ghost predicate MayClaim(rows: Table, f: Filter, now: int, locked: set<JobId>, picked: Option<JobId>) {
    var candidates := ClaimCandidates(rows, f, now, locked);
    match picked
    case None => candidates == {}
    case Some(id) => id in candidates && forall k :: k in candidates ==> !OrderedBefore(rows[k], rows[id])
  }

  /** Critical comes before high, high before normal, normal before low. */
  ghost predicate Outranks(a: Priority, b: Priority) {
    match a
    case Critical => b != Critical
    case High => b == Normal || b == Low
    case Normal => b == Low
    case Low => false
  }

  /** A claimed row has the highest priority of all claimable unlocked ones, and is among the earliest of those with it. */
  lemma {:induction false} ClaimPicksHighest(rows: Table, f: Filter, now: int, locked: set<JobId>, id: JobId, k: JobId)
    requires MayClaim(rows, f, now, locked, Some(id))
    ensures id in rows && id !in locked && rows[id].status == Queued && rows[id].runAt <= now
    ensures (f.queue == None || f.queue == Some(rows[id].queue)) && (f.names == None || rows[id].name in f.names.value)
    ensures (k in rows && k !in locked && rows[k].status == Queued && rows[k].runAt <= now
             && (f.queue == None || f.queue == Some(rows[k].queue)) && (f.names == None || rows[k].name in f.names.value)) ==>
        && !Outranks(rows[k].priority, rows[id].priority)
        && (rows[k].priority == rows[id].priority ==> rows[id].runAt <= rows[k].runAt)
  {
    if k in rows && Claimable(rows[k], f, now) && k !in locked {
      assert k in ClaimCandidates(rows, f, now, locked);
    }
  }

  function ClaimedRow(row: Row, worker: Option<string>, leaseMs: int, now: int): Row {
    row.(status := Running, lockedBy := worker, leaseExpiresAt := Some(now + leaseMs),
         startedAt := if row.startedAt == None then Some(now) else row.startedAt)
  }

  // ----- Heartbeats and reclaims ----------------------------------------------------------

  predicate Alive(row: Row, now: int) {
    row.status == Running && row.leaseExpiresAt.Some? && row.leaseExpiresAt.value > now
  }

  predicate Expired(row: Row, now: int) {
    row.status == Running && row.leaseExpiresAt.Some? && row.leaseExpiresAt.value < now
  }

  function ReclaimCandidates(rows: Table, queue: Option<string>, now: int, locked: set<JobId>): set<JobId> {
    set id | id in rows && Expired(rows[id], now) && (queue.Some? ==> rows[id].queue == queue.value) && id !in locked
  }

  /** What `order by lease_expires_at limit n` may return: the n candidates that expired first. */
  ghost predicate MayReclaim(rows: Table, queue: Option<string>, limit: nat, now: int, locked: set<JobId>,
                             picked: set<JobId>) {
    var candidates := ReclaimCandidates(rows, queue, now, locked);
    && picked <= candidates
    && |picked| == (if |candidates| < limit then |candidates| else limit)
    && forall p, k :: p in picked && k in candidates - picked ==>
         rows[p].leaseExpiresAt.value <= rows[k].leaseExpiresAt.value
  }

  function ReclaimedRow(row: Row): Row {
    row.(status := Queued, lockedBy := None, leaseExpiresAt := None)
  }

  // ----- The steps ----------------------------------------------------------------------

  datatype Event =
    | Upsert(id: JobId, row: Row)
    | Delete(id: JobId)
    | Clear
    | Claim(worker: Option<string>, leaseMs: int, filter: Filter, now: int, locked: set<JobId>, picked: Option<JobId>)
    | Heartbeat(id: JobId, leaseMs: int, now: int)
    | Reclaim(queue: Option<string>, limit: Option<nat>, now: int, locked: set<JobId>, reclaimed: set<JobId>)

  function LimitOf(limit: Option<nat>): nat {
    if limit == None then DEFAULT_LIMIT else limit.value
  }

  /** An event the database can answer with; an upsert writes no lease. */
  ghost predicate Allowed(rows: Table, e: Event) {
    match e
    case Upsert(_, row) => row.lockedBy == None && row.leaseExpiresAt == None
    case Claim(_, _, f, now, locked, picked) => MayClaim(rows, f, now, locked, picked)
    case Reclaim(queue, limit, now, locked, reclaimed) =>
      MayReclaim(rows, queue, LimitOf(limit), now, locked, reclaimed)
    case _ => true
  }

  function Step(rows: Table, e: Event): Table {
    match e
    case Upsert(id, row) => rows[id := row]
    case Delete(id) => rows - {id}
    case Clear => map[]
    case Claim(worker, leaseMs, _, now, _, picked) =>
      if picked.Some? && picked.value in rows
      then rows[picked.value := ClaimedRow(rows[picked.value], worker, leaseMs, now)] else rows
    case Heartbeat(id, leaseMs, now) =>
      if id in rows && Alive(rows[id], now)
      then rows[id := rows[id].(leaseExpiresAt := Some(now + leaseMs))] else rows
    case Reclaim(_, _, _, _, reclaimed) =>
      map id | id in rows :: if id in reclaimed then ReclaimedRow(rows[id]) else rows[id]
  }

  /** The table after a run; None if the database could not have answered so. */
  ghost function Run(events: seq<Event>): Option<Table> {
    if events == [] then Some(map[])
    else
      var last := |events| - 1;
      match Run(events[..last])
      case None => None
      case Some(rows) => if Allowed(rows, events[last]) then Some(Step(rows, events[last])) else None
  }

  /** A run takes every allowed step, from an empty table on, and no other. */
  lemma {:induction false} RunTakesEveryStep(events: seq<Event>, e: Event)
    ensures Run([]) == Some(map[])
    ensures Run(events).Some? && Allowed(Run(events).value, e) ==> Run(events + [e]) == Some(Step(Run(events).value, e))
    ensures Run(events + [e]).Some? ==> Run(events).Some? && Allowed(Run(events).value, e)
  {
    assert (events + [e])[..|events|] == events;
  }

  lemma {:induction false} PrefixRuns(events: seq<Event>, i: nat)
    requires Run(events).Some? && i <= |events|
    ensures Run(events[..i]).Some?
    ensures i < |events| ==> Allowed(Run(events[..i]).value, events[i])
                             && Run(events[..i + 1]) == Some(Step(Run(events[..i]).value, events[i]))
    decreases |events|
  {
    if i == |events| {
      assert events[..i] == events;
    } else if i < |events| - 1 {
      var before := events[..|events| - 1];
      PrefixRuns(before, i);
      assert before[..i] == events[..i] && before[..i + 1] == events[..i + 1];
    } else {
      assert events[..i + 1] == events;
    }
  }

  // ----- What the statements write ------------------------------------------------------

  /** A claim starts the job unless it has been started before, and leases it to the worker. */
  lemma {:induction false} ClaimWrites(rows: Table, e: Event)
    requires Allowed(rows, e) && e.Claim? && e.picked.Some?
    ensures var before, after := rows[e.picked.value], Step(rows, e)[e.picked.value];
      && after == before.(status := after.status, lockedBy := after.lockedBy, leaseExpiresAt := after.leaseExpiresAt,
                          startedAt := after.startedAt)
      && after.status == Running && after.lockedBy == e.worker && after.leaseExpiresAt == Some(e.now + e.leaseMs)
      && after.startedAt.Some? && (before.startedAt.Some? ==> after.startedAt == before.startedAt)
      && (before.startedAt.None? ==> after.startedAt == Some(e.now))
  {
  }

  /** A heartbeat extends the lease of a running job that ends after now, and does nothing else. */
  lemma {:induction false} HeartbeatWrites(rows: Table, e: Event, id: JobId)
    requires e.Heartbeat? && id in rows
    ensures id in Step(rows, e)
    ensures var lease := rows[id].leaseExpiresAt;
      Step(rows, e)[id] == if id == e.id && rows[id].status == Running && lease.Some? && e.now < lease.value
                           then rows[id].(leaseExpiresAt := Some(e.now + e.leaseMs)) else rows[id]
  {
  }

  /** A reclaim queues jobs again whose lease ended before now, of the queue it was asked for, and drops their lease. */
  lemma {:induction false} ReclaimWrites(rows: Table, e: Event, id: JobId)
    requires Allowed(rows, e) && e.Reclaim? && id in rows
    ensures id in Step(rows, e)
    ensures id !in e.reclaimed ==> Step(rows, e)[id] == rows[id]
    ensures id in e.reclaimed ==>
      && id !in e.locked && rows[id].status == Running && rows[id].leaseExpiresAt.Some? && rows[id].leaseExpiresAt.value < e.now
      && (e.queue == None || e.queue == Some(rows[id].queue))
      && Step(rows, e)[id] == rows[id].(status := Queued, lockedBy := None, leaseExpiresAt := None)
    ensures (e.limit == None && |rows| <= 1_000_000 && id !in e.locked && rows[id].status == Running
             && rows[id].leaseExpiresAt.Some? && rows[id].leaseExpiresAt.value < e.now
             && (e.queue == None || e.queue == Some(rows[id].queue))) ==> id in e.reclaimed
  {
    var candidates := ReclaimCandidates(rows, e.queue, e.now, e.locked);
    assert e.reclaimed <= candidates <= rows.Keys;
    AllOfThem(e.reclaimed, candidates, rows.Keys);
  }

  lemma {:induction false} AllOfThem<T>(picked: set<T>, candidates: set<T>, all: set<T>)
    requires picked <= candidates <= all
    ensures |candidates| <= |all|
    ensures |picked| == |candidates| ==> picked == candidates
  {
    assert all == candidates + (all - candidates);
    assert candidates == picked + (candidates - picked);
  }

  // ----- What every run keeps -----------------------------------------------------------

  ghost predicate LeaseMeansRunning(rows: Table) {
    forall id :: id in rows && (rows[id].leaseExpiresAt.Some? || rows[id].lockedBy.Some?) ==> rows[id].status == Running
  }

  lemma {:induction false} EveryLeaseIsOnARunningJob(events: seq<Event>)
    requires Run(events).Some?
    ensures LeaseMeansRunning(Run(events).value)
  {
    if events != [] {
      EveryLeaseIsOnARunningJob(events[..|events| - 1]);
    }
  }

  /** Claim, heartbeat and reclaim keep every row, and touch a row only as their guards allow. */
  lemma ProtocolStepsKeepRows(rows: Table, e: Event, id: JobId)
    requires (e.Claim? || e.Heartbeat? || e.Reclaim?) && Allowed(rows, e)
    ensures Step(rows, e).Keys == rows.Keys
    ensures id in rows && Step(rows, e)[id] != rows[id] ==>
              || (e.Claim? && e.picked == Some(id) && Claimable(rows[id], e.filter, e.now))
              || (e.Heartbeat? && e.id == id && Alive(rows[id], e.now))
              || (e.Reclaim? && Expired(rows[id], e.now))
  {
  }

  // ----- Between two claims of one job ----------------------------------------------------

  ghost predicate Claims(e: Event, id: JobId) {
    e.Claim? && e.picked == Some(id)
  }

  /** The events that can put a job back into the queue. */
  ghost predicate Requeues(e: Event, id: JobId) {
    (e.Upsert? && e.id == id && e.row.status == Queued) || (e.Reclaim? && id in e.reclaimed)
  }

  ghost predicate IsQueued(rows: Table, id: JobId) {
    id in rows && rows[id].status == Queued
  }

  lemma {:induction false} NotQueuedUntilRequeued(events: seq<Event>, id: JobId, a: nat, b: nat)
    requires Run(events).Some? && a < b <= |events| && Claims(events[a], id)
    requires forall c :: a < c < b ==> !Requeues(events[c], id)
    ensures Run(events[..b]).Some? && !IsQueued(Run(events[..b]).value, id)
  {
    PrefixRuns(events, b - 1);
    if a < b - 1 {
      NotQueuedUntilRequeued(events, id, a, b - 1);
    }
  }

  ghost predicate HasLease(rows: Table, id: JobId, lease: int) {
    id in rows && rows[id].leaseExpiresAt == Some(lease)
  }

  /** Event d, a claim of the job or a heartbeat that found its lease alive, set this lease end. */
  ghost predicate SetsLease(events: seq<Event>, id: JobId, d: nat, lease: int) {
    d < |events| && Run(events[..d]).Some?
    && (Claims(events[d], id)
        || (events[d].Heartbeat? && events[d].id == id
            && id in Run(events[..d]).value && Alive(Run(events[..d]).value[id], events[d].now)))
    && lease == events[d].now + events[d].leaseMs
  }

  /** And no later event before c set another: the job had this lease all the time from d to c. */
  ghost predicate LastSets(events: seq<Event>, id: JobId, d: nat, c: nat, lease: int) {
    d < c <= |events| && SetsLease(events, id, d, lease)
    && forall e :: d < e <= c ==> Run(events[..e]).Some? && HasLease(Run(events[..e]).value, id, lease)
  }

  lemma {:induction false} LeaseComesFrom(events: seq<Event>, id: JobId, a: nat, c: nat) returns (d: nat)
    requires Run(events).Some? && a < c <= |events| && Claims(events[a], id)
    requires Run(events[..c]).Some? && id in Run(events[..c]).value && Run(events[..c]).value[id].leaseExpiresAt.Some?
    ensures a <= d && LastSets(events, id, d, c, Run(events[..c]).value[id].leaseExpiresAt.value)
  {
    PrefixRuns(events, c - 1);
    var before, after := Run(events[..c - 1]).value, Run(events[..c]).value;
    var e, lease := events[c - 1], after[id].leaseExpiresAt.value;
    if Claims(e, id) || (e.Heartbeat? && e.id == id && id in before && Alive(before[id], e.now)) {
      d := c - 1;
      assert SetsLease(events, id, d, lease);
    } else {
      LeaseIsKept(before, e, id, lease);
      d := LeaseComesFrom(events, id, a, c - 1);
    }
  }

  /** A lease that no claim and no effective heartbeat has just set was there before. */
  lemma {:induction false} LeaseIsKept(rows: Table, e: Event, id: JobId, lease: int)
    requires Allowed(rows, e) && HasLease(Step(rows, e), id, lease) && !Claims(e, id)
    requires !(e.Heartbeat? && e.id == id && id in rows && Alive(rows[id], e.now))
    ensures HasLease(rows, id, lease)
  {
  }

  /**
   Between two claims of one job something put it back into the queue: an upsert that says so, or a
   reclaim made strictly after the end of the job's lease at that moment, which is the one that the
   claim, or the last heartbeat with an effect since, had set.
   */
  lemma {:induction false} ReclaimedBeforeClaimedAgain(events: seq<Event>, id: JobId, a: nat, b: nat)
    returns (c: nat, d: nat, lease: int)
    requires Run(events).Some? && a < b < |events| && Claims(events[a], id) && Claims(events[b], id)
    ensures a < c < b && Requeues(events[c], id)
    ensures events[c].Reclaim? ==>
      && Run(events[..c]).Some? && HasLease(Run(events[..c]).value, id, lease) && events[c].now > lease
      && a <= d && LastSets(events, id, d, c, lease)
  {
    PrefixRuns(events, b);
    if forall c :: a < c < b ==> !Requeues(events[c], id) {
      NotQueuedUntilRequeued(events, id, a, b);
      assert IsQueued(Run(events[..b]).value, id);
      assert false;
    }
    c :| a < c < b && Requeues(events[c], id);
    d, lease := 0, 0;
    if events[c].Reclaim? {
      PrefixRuns(events, c);
      var rows := Run(events[..c]).value;
      assert Expired(rows[id], events[c].now);
      lease := rows[id].leaseExpiresAt.value;
      d := LeaseComesFrom(events, id, a, c);
    }
  }

  // ----- An expired lease ------------------------------------------------------------------

  /** A timed event happens at `t` or later. */
  ghost predicate NotBefore(e: Event, t: int) {
    e.Claim? || e.Heartbeat? || e.Reclaim? ==> e.now >= t
  }

  /**
   With a clock that does not go back, a job whose lease is not alive at time t is not alive at any
   later time before it is claimed again: no heartbeat, upsert or reclaim brings it back.
   */
  lemma {:induction false} ExpiredUntilClaimedAgain(events: seq<Event>, id: JobId, i: nat, k: nat, t: int, later: int)
    requires Run(events).Some? && i <= k <= |events| && t <= later
    requires forall c :: i <= c < k ==> NotBefore(events[c], t) && !Claims(events[c], id)
    requires Run(events[..i]).Some? && (id in Run(events[..i]).value ==> !Alive(Run(events[..i]).value[id], t))
    ensures Run(events[..k]).Some? && (id in Run(events[..k]).value ==> !Alive(Run(events[..k]).value[id], later))
    decreases k
  {
    if i < k {
      PrefixRuns(events, k - 1);
      ExpiredUntilClaimedAgain(events, id, i, k - 1, t, t);
      DeadStepsStayDead(Run(events[..k - 1]).value, events[k - 1], id, t);
    }
  }

  lemma {:induction false} DeadStepsStayDead(rows: Table, e: Event, id: JobId, t: int)
    requires Allowed(rows, e) && NotBefore(e, t) && !Claims(e, id)
    requires id in rows ==> !Alive(rows[id], t)
    ensures id in Step(rows, e) ==> !Alive(Step(rows, e)[id], t)
  {
  }

  // ----- A running job without a lease ----------------------------------------------------

  /** The run goes on without a write to the job and ends with a reclaim of it. */
  ghost predicate ReclaimedLater(events: seq<Event>, id: JobId, more: seq<Event>) {
    more != [] && Run(events + more).Some?
    && (forall i :: 0 <= i < |more| ==> !Writes(more[i], id))
    && more[|more| - 1].Reclaim? && id in more[|more| - 1].reclaimed
  }

  /** A running job of a reachable table is reclaimed in some continuation without writes exactly if it has a lease. */
  lemma {:induction false} RecoverableIffLeased(events: seq<Event>, id: JobId)
    requires Run(events).Some? && id in Run(events).value && Run(events).value[id].status == Running
    ensures (exists more :: ReclaimedLater(events, id, more)) <==> Run(events).value[id].leaseExpiresAt.Some?
  {
    var rows := Run(events).value;
    if rows[id].leaseExpiresAt.Some? {
      var e := ReclaimAll(rows, id);
      assert (events + [e])[..|events|] == events;
      assert ReclaimedLater(events, id, [e]);
    } else {
      forall more ensures !ReclaimedLater(events, id, more) {
        NotReclaimedLater(events, id, more);
      }
    }
  }

  lemma {:induction false} NotReclaimedLater(events: seq<Event>, id: JobId, more: seq<Event>)
    requires Run(events).Some? && id in Run(events).value
    requires Run(events).value[id].status == Running && Run(events).value[id].leaseExpiresAt == None
    ensures !ReclaimedLater(events, id, more)
  {
    if more != [] && Run(events + more).Some? && forall i :: 0 <= i < |more| ==> !Writes(more[i], id) {
      var all, last := events + more, |events + more| - 1;
      assert all[..|events|] == events && all[last] == more[|more| - 1];
      LeaselessStays(all, id, |events|, last);
      PrefixRuns(all, last);
    }
  }

  /** A reclaim of everything that has expired once the job's lease has. */
  lemma {:induction false} ReclaimAll(rows: Table, id: JobId) returns (e: Event)
    requires id in rows && rows[id].status == Running && rows[id].leaseExpiresAt.Some?
    ensures e.Reclaim? && id in e.reclaimed && Allowed(rows, e) && !Writes(e, id)
  {
    var now := rows[id].leaseExpiresAt.value + 1;
    var all := ReclaimCandidates(rows, None, now, {});
    e := Reclaim(None, Some(|all|), now, {}, all);
  }

  lemma {:induction false} LeaselessStays(events: seq<Event>, id: JobId, a: nat, b: nat)
    requires Run(events).Some? && a <= b <= |events|
    requires Run(events[..a]).Some? && id in Run(events[..a]).value
    requires Run(events[..a]).value[id].status == Running && Run(events[..a]).value[id].leaseExpiresAt == None
    requires forall c :: a <= c < b ==> !Writes(events[c], id)
    ensures Run(events[..b]).Some? && id in Run(events[..b]).value && Run(events[..b]).value[id] == Run(events[..a]).value[id]
    decreases b
  {
    if a < b {
      PrefixRuns(events, b - 1);
      LeaselessStays(events, id, a, b - 1);
      LeaselessRowStays(Run(events[..b - 1]).value, events[b - 1], id);
    }
  }

  ghost predicate Writes(e: Event, id: JobId) {
    (e.Upsert? && e.id == id) || (e.Delete? && e.id == id) || e.Clear?
  }

  /**
   The queue writes the job right after claiming it, and every upsert clears the lease.  From
   then on neither claims, heartbeats nor reclaims, at any time, touch the row.
   */
  lemma {:induction false} UpsertLosesTheLease(events: seq<Event>, id: JobId, a: nat, b: nat)
    requires Run(events).Some? && a < b <= |events|
    requires events[a].Upsert? && events[a].id == id && events[a].row.status == Running
    requires forall c :: a < c < b ==> !Writes(events[c], id)
    ensures Run(events[..b]).Some? && id in Run(events[..b]).value
    ensures Run(events[..b]).value[id] == events[a].row && events[a].row.leaseExpiresAt == None
  {
    PrefixRuns(events, b - 1);
    PrefixRuns(events, a);
    if a < b - 1 {
      UpsertLosesTheLease(events, id, a, b - 1);
      LeaselessRowStays(Run(events[..b - 1]).value, events[b - 1], id);
    }
  }

  /** A running row without a lease is left alone by every step that does not write it. */
  lemma {:induction false} LeaselessRowStays(rows: Table, e: Event, id: JobId)
    requires id in rows && rows[id].status == Running && rows[id].leaseExpiresAt == None
    requires Allowed(rows, e) && !Writes(e, id)
    ensures id in Step(rows, e) && Step(rows, e)[id] == rows[id]
  {
    if e.Claim? || e.Heartbeat? || e.Reclaim? {
      ProtocolStepsKeepRows(rows, e, id);
    }
  }

  // ----- The statements -------------------------------------------------------------------

  lemma {:induction false} FirstCandidate(rows: Table, ids: set<JobId>) returns (id: JobId)
    requires ids != {} && ids <= rows.Keys
    ensures id in ids && forall k :: k in ids ==> !OrderedBefore(rows[k], rows[id])
    decreases |ids|
  {
    id :| id in ids;
    var rest := ids - {id};
    if rest != {} {
      var best := FirstCandidate(rows, rest);
      if OrderedBefore(rows[best], rows[id]) {
        id := best;
      }
    }
  }

  lemma {:induction false} FirstExpired(rows: Table, ids: set<JobId>) returns (id: JobId)
    requires ids != {} && ids <= rows.Keys && forall k :: k in ids ==> rows[k].leaseExpiresAt.Some?
    ensures id in ids && forall k :: k in ids ==> rows[id].leaseExpiresAt.value <= rows[k].leaseExpiresAt.value
    decreases |ids|
  {
    id :| id in ids;
    var rest := ids - {id};
    if rest != {} {
      var best := FirstExpired(rows, rest);
      if rows[best].leaseExpiresAt.value < rows[id].leaseExpiresAt.value {
        id := best;
      }
    }
  }

  class JobsTable {
    var rows: Table

    constructor ()
      ensures rows == map[]
    {
      rows := map[];
    }

    method UpsertRow(id: JobId, row: Row)
      modifies this
      ensures Allowed(old(rows), Upsert(id, row.(lockedBy := None, leaseExpiresAt := None)))
      ensures rows == Step(old(rows), Upsert(id, row.(lockedBy := None, leaseExpiresAt := None)))
    {
      rows := rows[id := row.(lockedBy := None, leaseExpiresAt := None)];
    }

    method ClaimNext(worker: Option<string>, leaseMs: int, filter: Filter, now: int, locked: set<JobId>)
        returns (picked: Option<JobId>)
      modifies this
      ensures Allowed(old(rows), Claim(worker, leaseMs, filter, now, locked, picked))
      ensures rows == Step(old(rows), Claim(worker, leaseMs, filter, now, locked, picked))
    {
      var candidates := ClaimCandidates(rows, filter, now, locked);
      if candidates == {} {
        return None;
      }
      ghost var first := FirstCandidate(rows, candidates);
      var id :| id in candidates && forall k :: k in candidates ==> !OrderedBefore(rows[k], rows[id]);
      rows := rows[id := ClaimedRow(rows[id], worker, leaseMs, now)];
      return Some(id);
    }

    method ExtendLease(id: JobId, leaseMs: int, now: int) returns (extended: bool)
      modifies this
      ensures rows == Step(old(rows), Heartbeat(id, leaseMs, now))
      ensures extended == (id in old(rows) && Alive(old(rows)[id], now))
    {
      extended := id in rows && Alive(rows[id], now);
      if extended {
        rows := rows[id := rows[id].(leaseExpiresAt := Some(now + leaseMs))];
      }
    }

    method ReclaimExpired(queue: Option<string>, limit: Option<nat>, now: int, locked: set<JobId>)
        returns (reclaimed: set<JobId>)
      modifies this
      ensures Allowed(old(rows), Reclaim(queue, limit, now, locked, reclaimed))
      ensures rows == Step(old(rows), Reclaim(queue, limit, now, locked, reclaimed))
    {
      var candidates := ReclaimCandidates(rows, queue, now, locked);
      reclaimed := EarliestExpired(rows, candidates, LimitOf(limit));
      rows := map id | id in rows :: if id in reclaimed then ReclaimedRow(rows[id]) else rows[id];
    }
  }

  ghost predicate ExpireFirst(rows: Table, picked: set<JobId>, rest: set<JobId>)
    requires forall id :: id in picked || id in rest ==> id in rows && rows[id].leaseExpiresAt.Some?
  {
    forall p, k :: p in picked && k in rest ==> rows[p].leaseExpiresAt.value <= rows[k].leaseExpiresAt.value
  }

  method EarliestExpired(rows: Table, candidates: set<JobId>, limit: nat) returns (picked: set<JobId>)
    requires forall id :: id in candidates ==> id in rows && rows[id].leaseExpiresAt.Some?
    ensures picked <= candidates && ExpireFirst(rows, picked, candidates - picked)
    ensures |picked| == if |candidates| < limit then |candidates| else limit
  {
    var rest := candidates;
    picked := {};
    while |picked| < limit && rest != {}
      invariant picked !! rest && picked + rest == candidates
      invariant |picked| <= limit && |candidates| == |picked| + |rest|
      invariant ExpireFirst(rows, picked, rest)
      decreases |rest|
    {
      ghost var first := FirstExpired(rows, rest);
      var id :| id in rest && forall k :: k in rest ==>
        rows[id].leaseExpiresAt.value <= rows[k].leaseExpiresAt.value;
      picked := picked + {id};
      rest := rest - {id};
    }
    assert candidates - picked == rest;
  }
}
