/**
 `getOrSet`: callers of one process that share the in-flight map, run in any interleaving. Between
 two awaits nothing else runs; a store read, the resumption after it, the cross-process lock with
 its second look, the factory and the store write are steps of their own. Put is a direct `set`, by
 this process or another one; Drop is a deletion or an expiry.
 */
module SingleFlight {

  datatype Option<T> = None | Some(value: T)

  type Key = string

  type Value = int

  type CallerId = nat

  type FlightId = nat

  /** Settled(None) is a rejection. */
  datatype Stage =
    | Locking
    | Computing
    | Storing(value: Value)
    | Settled(result: Option<Value>)

  /** One promise of the in-flight map. */
  datatype Flight = Flight(key: Key, owner: CallerId, stage: Stage)

  datatype Phase =
    | Reading(key: Key)
    | Resuming(key: Key, found: Option<Value>)
    | Owning(flight: FlightId)
    | Joined(flight: FlightId)
    | Returned(result: Option<Value>)

  /** The flights, settled ones included, in the order they were started. */
  datatype State = State(
    store: map<Key, Value>,
    inFlight: map<Key, FlightId>,
    flights: seq<Flight>,
    callers: map<CallerId, Phase>)

  datatype Event =
    | Call(c: CallerId, key: Key, force: bool, lock: bool)
    | Read(c: CallerId)
    | Resume(c: CallerId, lock: bool)
    | SecondLook(f: FlightId, look: bool)
    | FactoryEnds(f: FlightId, result: Option<Value>)
    | StoreEnds(f: FlightId, ok: bool)
    | Await(c: CallerId)
    | Drop(key: Key)
    | Put(key: Key, value: Value)

  function Init(): State {
    State(map[], map[], [], map[])
  }

  /** The synchronous part after the read: join the flight of the key, or start one. */
  function Decide(s: State, c: CallerId, key: Key, lock: bool): State {
    if key in s.inFlight then s.(callers := s.callers[c := Joined(s.inFlight[key])])
    else
      s.(inFlight := s.inFlight[key := |s.flights|],
         flights := s.flights + [Flight(key, c, if lock then Locking else Computing)],
         callers := s.callers[c := Owning(|s.flights|)])
  }

  function SetStage(s: State, f: FlightId, stage: Stage): State
    requires f < |s.flights|
  {
    s.(flights := s.flights[f := s.flights[f].(stage := stage)])
  }

  predicate Enabled(s: State, e: Event) {
    match e
    case Call(c, _, _, _) => c !in s.callers
    case Read(c) => c in s.callers && s.callers[c].Reading?
    case Resume(c, _) => c in s.callers && s.callers[c].Resuming?
    case SecondLook(f, _) => f < |s.flights| && s.flights[f].stage == Locking
    case FactoryEnds(f, _) => f < |s.flights| && s.flights[f].stage == Computing
    case StoreEnds(f, _) => f < |s.flights| && s.flights[f].stage.Storing?
    case Await(c) =>
      c in s.callers && (s.callers[c].Owning? || s.callers[c].Joined?)
      && s.callers[c].flight < |s.flights| && s.flights[s.callers[c].flight].stage.Settled?
    case Drop(key) => key in s.store
    case Put(_, _) => true
  }

  function Step(s: State, e: Event): State
    requires Enabled(s, e)
  {
    match e
    case Call(c, key, force, lock) =>
      if force then Decide(s, c, key, lock) else s.(callers := s.callers[c := Reading(key)])
    case Read(c) =>
      var key := s.callers[c].key;
      s.(callers := s.callers[c := Resuming(key, if key in s.store then Some(s.store[key]) else None)])
    case Resume(c, lock) =>
      var phase := s.callers[c];
      if phase.found.Some? then s.(callers := s.callers[c := Returned(phase.found)])
      else Decide(s, c, phase.key, lock)
    case SecondLook(f, look) =>
      var key := s.flights[f].key;
      SetStage(s, f, if look && key in s.store then Settled(Some(s.store[key])) else Computing)
    case FactoryEnds(f, result) =>
      SetStage(s, f, match result case None => Settled(None) case Some(v) => Storing(v))
    case StoreEnds(f, ok) =>
      var flight := s.flights[f];
      if ok then SetStage(s, f, Settled(Some(flight.stage.value))).(store := s.store[flight.key := flight.stage.value])
      else SetStage(s, f, Settled(None))
    case Await(c) =>
      var f := s.callers[c].flight;
      var next := s.(callers := s.callers[c := Returned(s.flights[f].stage.result)]);
      if s.callers[c].Owning? then next.(inFlight := s.inFlight - {s.flights[f].key}) else next
    case Drop(key) => s.(store := s.store - {key})
    case Put(key, value) => s.(store := s.store[key := value])
  }

  // ----- Invariant -----------------------------------------------------------------------------

  /** A flight whose owner has not returned is in the map under its key. */
  ghost predicate OwnedOk(s: State, c: CallerId) {
    c in s.callers && s.callers[c].Owning? ==>
      var f := s.callers[c].flight;
      f < |s.flights| && s.flights[f].owner == c && s.flights[f].key in s.inFlight && s.inFlight[s.flights[f].key] == f
  }

  ghost predicate JoinedOk(s: State, c: CallerId) {
    c in s.callers && s.callers[c].Joined? ==> s.callers[c].flight < |s.flights|
  }

  /** What is in the map is owned by a caller that waits for it. */
  ghost predicate EntryOk(s: State, key: Key) {
    key in s.inFlight ==>
      var f := s.inFlight[key];
      f < |s.flights| && s.flights[f].key == key
      && s.flights[f].owner in s.callers && s.callers[s.flights[f].owner] == Owning(f)
  }

  /** A flight that has not settled is in the map. */
  ghost predicate FlightOk(s: State, f: FlightId) {
    f < |s.flights| && !s.flights[f].stage.Settled? ==>
      s.flights[f].key in s.inFlight && s.inFlight[s.flights[f].key] == f
  }

  ghost predicate Inv(s: State) {
    && (forall c :: OwnedOk(s, c))
    && (forall c :: JoinedOk(s, c))
    && (forall key :: EntryOk(s, key))
    && (forall f :: FlightOk(s, f))
  }

  lemma {:induction false} DecideKeeps(s: State, c: CallerId, key: Key, lock: bool)
    requires Inv(s) && (c in s.callers ==> !s.callers[c].Owning?)
    ensures Inv(Decide(s, c, key, lock))
  {
    var t := Decide(s, c, key, lock);
    forall d ensures OwnedOk(t, d) && JoinedOk(t, d) {
      assert OwnedOk(s, d) && JoinedOk(s, d) && EntryOk(s, key);
    }
    forall k ensures EntryOk(t, k) {
      assert EntryOk(s, k);
    }
    forall f ensures FlightOk(t, f) {
      assert FlightOk(s, f);
    }
  }

  lemma {:induction false} StageKeeps(s: State, f: FlightId, stage: Stage)
    requires Inv(s) && f < |s.flights| && !s.flights[f].stage.Settled?
    ensures Inv(SetStage(s, f, stage))
  {
    var t := SetStage(s, f, stage);
    forall d ensures OwnedOk(t, d) && JoinedOk(t, d) {
      assert OwnedOk(s, d) && JoinedOk(s, d);
    }
    forall k ensures EntryOk(t, k) {
      assert EntryOk(s, k);
    }
    forall g ensures FlightOk(t, g) {
      assert FlightOk(s, g);
    }
  }

  /** A caller that owns no flight moves to a phase that owns none either. */
  lemma {:induction false} CallerKeeps(s: State, c: CallerId, phase: Phase)
    requires Inv(s) && (c in s.callers ==> !s.callers[c].Owning?) && !phase.Owning? && !phase.Joined?
    ensures Inv(s.(callers := s.callers[c := phase]))
  {
    var t := s.(callers := s.callers[c := phase]);
    forall d ensures OwnedOk(t, d) && JoinedOk(t, d) {
      assert OwnedOk(s, d) && JoinedOk(s, d);
    }
    forall k ensures EntryOk(t, k) {
      assert EntryOk(s, k);
    }
    forall f ensures FlightOk(t, f) {
      assert FlightOk(s, f);
    }
  }

  lemma {:induction false} OwnerReturns(s: State, c: CallerId)
    requires Inv(s) && Enabled(s, Await(c)) && s.callers[c].Owning?
    ensures Inv(Step(s, Await(c)))
  {
    var t := Step(s, Await(c));
    var mine := s.callers[c].flight;
    assert OwnedOk(s, c);
    forall d ensures OwnedOk(t, d) && JoinedOk(t, d) {
      assert OwnedOk(s, d) && JoinedOk(s, d);
    }
    forall k ensures EntryOk(t, k) {
      assert EntryOk(s, k);
    }
    forall f ensures FlightOk(t, f) {
      assert FlightOk(s, f);
    }
  }

  lemma {:induction false} StoreKeeps(s: State, store: map<Key, Value>)
    requires Inv(s)
    ensures Inv(s.(store := store))
  {
    var t := s.(store := store);
    forall d ensures OwnedOk(t, d) && JoinedOk(t, d) {
      assert OwnedOk(s, d) && JoinedOk(s, d);
    }
    forall k ensures EntryOk(t, k) {
      assert EntryOk(s, k);
    }
    forall f ensures FlightOk(t, f) {
      assert FlightOk(s, f);
    }
  }

  lemma {:induction false} StepKeeps(s: State, e: Event)
    requires Inv(s) && Enabled(s, e)
    ensures Inv(Step(s, e))
  {
    match e
    case Call(c, key, force, lock) => if force { DecideKeeps(s, c, key, lock); } else { CallerKeeps(s, c, Reading(key)); }
    case Read(c) => CallerKeeps(s, c, Step(s, e).callers[c]);
    case Resume(c, lock) =>
      if s.callers[c].found.Some? { CallerKeeps(s, c, Returned(s.callers[c].found)); }
      else { DecideKeeps(s, c, s.callers[c].key, lock); }
    case SecondLook(f, look) => StageKeeps(s, f, Step(s, e).flights[f].stage);
    case FactoryEnds(f, result) => StageKeeps(s, f, Step(s, e).flights[f].stage);
    case StoreEnds(f, ok) =>
      StageKeeps(s, f, Step(s, e).flights[f].stage);
      StoreKeeps(SetStage(s, f, Step(s, e).flights[f].stage), Step(s, e).store);
    case Await(c) =>
      if s.callers[c].Owning? { OwnerReturns(s, c); } else { CallerKeeps(s, c, Step(s, e).callers[c]); }
    case Drop(key) => StoreKeeps(s, s.store - {key});
    case Put(key, value) => StoreKeeps(s, s.store[key := value]);
  }

  // ----- Runs -------------------------------------------------------------------------------------

  function Run(events: seq<Event>): Option<State> {
    if events == [] then Some(Init())
    else
      var last := |events| - 1;
      match Run(events[..last])
      case None => None
      case Some(s) => if Enabled(s, events[last]) then Some(Step(s, events[last])) else None
  }

  lemma {:induction false} RunKeepsInv(events: seq<Event>)
    requires Run(events).Some?
    ensures Inv(Run(events).value)
  {
    if events != [] {
      var last := |events| - 1;
      RunKeepsInv(events[..last]);
      StepKeeps(Run(events[..last]).value, events[last]);
    }
  }

  /**
   In every interleaving at most one flight of a key is unfinished, so at most one factory of a key
   runs at a time; it is the one that later callers join.
   */
  lemma {:induction false} OneFlightPerKey(events: seq<Event>, f: FlightId, g: FlightId)
    requires Run(events).Some?
    requires var s := Run(events).value; f < |s.flights| && g < |s.flights| && s.flights[f].key == s.flights[g].key
    requires var s := Run(events).value; !s.flights[f].stage.Settled? && !s.flights[g].stage.Settled?
    ensures var s := Run(events).value; f == g && s.flights[f].key in s.inFlight && s.inFlight[s.flights[f].key] == f
  {
    RunKeepsInv(events);
    assert FlightOk(Run(events).value, f) && FlightOk(Run(events).value, g);
  }

  /** Nothing stays behind: once no caller waits for a flight of its own, the in-flight map is empty. */
  lemma {:induction false} NoEntryIsLeft(events: seq<Event>)
    requires Run(events).Some? && forall c :: c in Run(events).value.callers ==> !Run(events).value.callers[c].Owning?
    ensures Run(events).value.inFlight == map[]
  {
    RunKeepsInv(events);
    var s := Run(events).value;
    forall key ensures key !in s.inFlight {
      assert EntryOk(s, key);
    }
  }

  /** A settled flight does not change any more. */
  lemma {:induction false} SettledStays(s: State, e: Event, f: FlightId)
    requires Enabled(s, e) && f < |s.flights| && s.flights[f].stage.Settled?
    ensures f < |Step(s, e).flights| && Step(s, e).flights[f] == s.flights[f]
  {
  }

  /** What a caller has been waiting for, if anything. */
  ghost predicate AgreesWith(s: State, c: CallerId, f: FlightId) {
    c in s.callers && f < |s.flights|
    && (s.callers[c] == Owning(f) || s.callers[c] == Joined(f)
        || (s.flights[f].stage.Settled? && s.callers[c] == Returned(s.flights[f].stage.result)))
  }

  /** Everyone who has started or joined a flight returns that flight's result, the owner included. */
  lemma {:induction false} CallersOfAFlightAgree(s: State, events: seq<Event>, c: CallerId, f: FlightId)
    requires AgreesWith(s, c, f) && RunFrom(s, events).Some?
    ensures AgreesWith(RunFrom(s, events).value, c, f)
    decreases events
  {
    if events != [] {
      var next := Step(s, events[0]);
      if s.flights[f].stage.Settled? {
        SettledStays(s, events[0], f);
      }
      CallersOfAFlightAgree(next, events[1..], c, f);
    }
  }

  function RunFrom(s: State, events: seq<Event>): Option<State>
    decreases events
  {
    if events == [] then Some(s)
    else if !Enabled(s, events[0]) then None
    else RunFrom(Step(s, events[0]), events[1..])
  }

  /** A run takes every enabled step and no other. */
  lemma {:induction false} RunTakesEveryStep(events: seq<Event>, e: Event)
    ensures Run([]) == Some(Init())
    ensures Run(events).Some? && Enabled(Run(events).value, e) ==> Run(events + [e]) == Some(Step(Run(events).value, e))
    ensures Run(events + [e]).Some? ==> Run(events).Some? && Enabled(Run(events).value, e)
  {
    assert (events + [e])[..|events|] == events;
  }

  /**
   A forced call, or one that found nothing, joins the flight in the map without starting another; if there
   is none it starts one of its own, behind the lock if it asked for one.
   */
  lemma {:induction false} MissJoinsOrStarts(s: State, c: CallerId, key: Key, lock: bool, e: Event)
    requires Enabled(s, e)
    requires e == Call(c, key, true, lock) || (e == Resume(c, lock) && s.callers[c] == Resuming(key, None))
    ensures var t := Step(s, e);
      && t.store == s.store
      && (key in s.inFlight ==>
            t.flights == s.flights && t.inFlight == s.inFlight && t.callers == s.callers[c := Joined(s.inFlight[key])])
      && (key !in s.inFlight ==>
            && |t.flights| == |s.flights| + 1 && t.flights[..|s.flights|] == s.flights
            && t.flights[|s.flights|].key == key && t.flights[|s.flights|].owner == c
            && (t.flights[|s.flights|].stage == Locking <==> lock) && (t.flights[|s.flights|].stage == Computing <==> !lock)
            && t.callers == s.callers[c := Owning(|s.flights|)] && t.inFlight == s.inFlight[key := |s.flights|])
  {
  }

  /** What the factory computes is stored and returned to everyone who waits for the flight. */
  lemma {:induction false} FlightDelivers(events: seq<Event>, c: CallerId, f: FlightId, value: Value) returns (all: seq<Event>)
    requires Run(events).Some? && f < |Run(events).value.flights| && Run(events).value.flights[f].stage == Computing
    requires c in Run(events).value.callers && Run(events).value.callers[c] in {Owning(f), Joined(f)}
    ensures Run(all).Some? && events <= all
    ensures var t := Run(all).value;
      && c in t.callers && t.callers[c] == Returned(Some(value))
      && t.store == Run(events).value.store[Run(events).value.flights[f].key := value]
  {
    var s := Run(events).value;
    var ends, stores, waits := FactoryEnds(f, Some(value)), StoreEnds(f, true), Await(c);
    RunTakesEveryStep(events, ends);
    RunTakesEveryStep(events + [ends], stores);
    RunTakesEveryStep(events + [ends] + [stores], waits);
    all := events + [ends] + [stores] + [waits];
  }

  // ----- When the factory runs ------------------------------------------------------------------------

  /** A step that lets a new flight begin. */
  ghost predicate Starts(s: State, e: Event) {
    Enabled(s, e) && |Step(s, e).flights| > |s.flights|
  }

  /** One step starts a flight of `key` for a forced call or a resumption that had found nothing. */
  lemma {:induction false} StepStartsIff(s: State, e: Event, key: Key)
    requires Enabled(s, e)
    ensures (Starts(s, e) && Step(s, e).flights[|s.flights|].key == key) <==>
      key !in s.inFlight
      && ((e.Call? && e.force && e.key == key) || (e.Resume? && s.callers[e.c] == Resuming(key, None)))
  {
  }

  /** The state in which event number i of the run happens. */
  ghost function At(events: seq<Event>, i: nat): State
    requires i <= |events|
  {
    match Run(events[..i]) case Some(s) => s case None => Init()
  }

  lemma {:induction false} PrefixRuns(events: seq<Event>, i: nat)
    requires Run(events).Some? && i <= |events|
    ensures Run(events[..i]) == Some(At(events, i)) && Inv(At(events, i))
    ensures i < |events| ==> Enabled(At(events, i), events[i]) && At(events, i + 1) == Step(At(events, i), events[i])
    decreases |events|
  {
    RunKeepsInv(events);
    if i == |events| {
      assert events[..i] == events;
    } else {
      var before := events[..|events| - 1];
      PrefixRuns(before, i);
      assert before[..i] == events[..i];
      if i < |events| - 1 {
        assert before[..i + 1] == events[..i + 1];
      } else {
        assert before[..i] == before && events[..i + 1] == events;
      }
    }
  }

  /** Event i starts a flight of `key`. */
  ghost predicate StartsAt(events: seq<Event>, i: nat, key: Key) {
    i < |events| && Starts(At(events, i), events[i]) && Step(At(events, i), events[i]).flights[|At(events, i).flights|].key == key
  }

  ghost predicate MissedAt(events: seq<Event>, r: nat, c: CallerId, key: Key) {
    r < |events| && events[r] == Read(c) && c in At(events, r).callers && At(events, r).callers[c] == Reading(key)
    && key !in At(events, r).store
  }

  ghost predicate StoredAt(events: seq<Event>, j: nat, f: FlightId, key: Key) {
    j < |events| && events[j] == StoreEnds(f, true) && f < |At(events, j).flights| && At(events, j).flights[f].key == key
  }

  ghost predicate RemovedAt(events: seq<Event>, m: nat, f: FlightId) {
    m < |events| && events[m].Await? && events[m].c in At(events, m).callers && At(events, m).callers[events[m].c] == Owning(f)
  }

  ghost predicate PutAt(events: seq<Event>, j: nat, key: Key) {
    j < |events| && events[j].Put? && events[j].key == key
  }

  /** After event r and before event i a value of the key was set directly, or by a flight that is gone since. */
  ghost predicate StoredSince(events: seq<Event>, r: nat, i: nat, key: Key) {
    || (exists j: nat :: r < j < i && PutAt(events, j, key))
    || (exists j: nat, m: nat, f: FlightId :: r < j < m < i && StoredAt(events, j, f, key) && RemovedAt(events, m, f))
  }

  /** A caller had read, and found nothing, before a value of the key was stored that way. */
  ghost predicate StaleMiss(events: seq<Event>, i: nat, c: CallerId, key: Key) {
    exists r: nat :: r < i && MissedAt(events, r, c, key) && StoredSince(events, r, i, key)
  }

  lemma {:induction false} ResumingComesFromRead(s: State, e: Event, c: CallerId)
    requires Enabled(s, e) && c in Step(s, e).callers && Step(s, e).callers[c].Resuming?
    ensures e != Read(c) ==> c in s.callers && s.callers[c] == Step(s, e).callers[c]
    ensures e == Read(c) ==>
      var phase := Step(s, e).callers[c];
      c in s.callers && s.callers[c] == Reading(phase.key) && (phase.found == None ==> phase.key !in s.store)
  {
  }

  lemma {:induction false} ReadBefore(events: seq<Event>, i: nat, c: CallerId) returns (r: nat)
    requires Run(events).Some? && i <= |events| && c in At(events, i).callers && At(events, i).callers[c].Resuming?
    ensures r < i && events[r] == Read(c) && c in At(events, r).callers
    ensures At(events, r).callers[c] == Reading(At(events, i).callers[c].key)
    ensures At(events, i).callers[c].found == None ==> At(events, i).callers[c].key !in At(events, r).store
    decreases i
  {
    PrefixRuns(events, 0);
    assert events[..0] == [];
    PrefixRuns(events, i - 1);
    ResumingComesFromRead(At(events, i - 1), events[i - 1], c);
    r := i - 1;
    if events[i - 1] != Read(c) {
      r := ReadBefore(events, i - 1, c);
    }
  }

  /** Event j put a value of the key into the store. */
  ghost predicate StoresAt(events: seq<Event>, j: nat, key: Key) {
    j < |events| && (PutAt(events, j, key) || (events[j].StoreEnds? && StoredAt(events, j, events[j].f, key)))
  }

  lemma {:induction false} StoredBetween(events: seq<Event>, r: nat, i: nat, key: Key) returns (j: nat)
    requires Run(events).Some? && r <= i <= |events| && key !in At(events, r).store && key in At(events, i).store
    ensures r <= j < i && StoresAt(events, j, key)
    decreases i
  {
    assert i > r;
    j := i - 1;
    if key in At(events, j).store {
      j := StoredBetween(events, r, i - 1, key);
    } else {
      StoredByStep(events, j, key);
    }
  }

  lemma {:induction false} StoredByStep(events: seq<Event>, j: nat, key: Key)
    requires Run(events).Some? && j < |events| && key !in At(events, j).store && key in At(events, j + 1).store
    ensures StoresAt(events, j, key)
  {
    PrefixRuns(events, j);
    NewInStore(At(events, j), events[j], key);
  }

  lemma {:induction false} NewInStore(s: State, e: Event, key: Key)
    requires Enabled(s, e) && key !in s.store && key in Step(s, e).store
    ensures (e.Put? && e.key == key) || (e.StoreEnds? && e.ok && s.flights[e.f].key == key)
  {
  }

  lemma {:induction false} OnlyItsOwnerRemoves(s: State, e: Event, key: Key, f: FlightId)
    requires Inv(s) && Enabled(s, e) && key in s.inFlight && s.inFlight[key] == f
    requires key !in Step(s, e).inFlight || Step(s, e).inFlight[key] != f
    ensures e.Await? && e.c in s.callers && s.callers[e.c] == Owning(f)
  {
    assert e.Await? ==> OwnedOk(s, e.c);
  }

  lemma {:induction false} RemovedByStep(events: seq<Event>, m: nat, key: Key, f: FlightId)
    requires Run(events).Some? && m < |events| && key in At(events, m).inFlight && At(events, m).inFlight[key] == f
    requires key !in At(events, m + 1).inFlight || At(events, m + 1).inFlight[key] != f
    ensures RemovedAt(events, m, f)
  {
    PrefixRuns(events, m);
    OnlyItsOwnerRemoves(At(events, m), events[m], key, f);
  }

  lemma {:induction false} RemovedBetween(events: seq<Event>, j: nat, i: nat, key: Key, f: FlightId) returns (m: nat)
    requires Run(events).Some? && j <= i <= |events|
    requires key in At(events, j).inFlight && At(events, j).inFlight[key] == f
    requires key !in At(events, i).inFlight || At(events, i).inFlight[key] != f
    ensures j <= m < i && RemovedAt(events, m, f)
    decreases i
  {
    assert i > j;
    m := i - 1;
    if key in At(events, m).inFlight && At(events, m).inFlight[key] == f {
      RemovedByStep(events, m, key, f);
    } else {
      m := RemovedBetween(events, j, i - 1, key, f);
    }
  }

  /** After a miss a caller only moves on. */
  ghost predicate HasMissed(s: State, c: CallerId, key: Key) {
    c in s.callers
    && (s.callers[c] == Resuming(key, None) || s.callers[c].Owning? || s.callers[c].Joined? || s.callers[c].Returned?)
  }

  lemma {:induction false} MissedStays(s: State, e: Event, c: CallerId, key: Key)
    requires Enabled(s, e) && HasMissed(s, c, key)
    ensures HasMissed(Step(s, e), c, key)
  {
  }

  lemma {:induction false} MissBegins(events: seq<Event>, r: nat, c: CallerId, key: Key)
    requires Run(events).Some? && MissedAt(events, r, c, key)
    ensures HasMissed(At(events, r + 1), c, key)
  {
    PrefixRuns(events, r);
  }

  lemma {:induction false} AfterMiss(events: seq<Event>, r: nat, i: nat, c: CallerId, key: Key)
    requires Run(events).Some? && r < i <= |events| && MissedAt(events, r, c, key)
    ensures HasMissed(At(events, i), c, key)
    decreases i
  {
    if r == i - 1 {
      MissBegins(events, r, c, key);
    } else {
      AfterMiss(events, r, i - 1, c, key);
      MissGoesOn(events, i - 1, c, key);
    }
  }

  lemma {:induction false} MissGoesOn(events: seq<Event>, i: nat, c: CallerId, key: Key)
    requires Run(events).Some? && i < |events| && HasMissed(At(events, i), c, key)
    ensures HasMissed(At(events, i + 1), c, key)
  {
    PrefixRuns(events, i);
    MissedStays(At(events, i), events[i], c, key);
  }

  ghost predicate ForcedAt(events: seq<Event>, i: nat, c: CallerId, key: Key) {
    i < |events| && events[i].Call? && events[i].c == c && events[i].force && events[i].key == key
  }

  ghost predicate ResumesStale(events: seq<Event>, i: nat, c: CallerId, key: Key) {
    i < |events| && events[i].Resume? && events[i].c == c && StaleMiss(events, i, c, key)
  }

  function CallerOf(e: Event): CallerId
    requires e.Call? || e.Resume?
  {
    e.c
  }

  /**
   In every run, a value that is stored is computed again exactly at a step with no flight of the key
   under way that is a forced call, or the resumption of a caller that had read before the value was
   stored: set directly, or by a flight that is gone when the caller resumes.
   */
  lemma {:induction false} StoredValueIsComputedAgainIff(events: seq<Event>, i: nat, key: Key)
    requires Run(events).Some? && i < |events| && key in At(events, i).store
    ensures StartsAt(events, i, key) <==>
      key !in At(events, i).inFlight
      && (events[i].Call? || events[i].Resume?)
      && (ForcedAt(events, i, CallerOf(events[i]), key) || ResumesStale(events, i, CallerOf(events[i]), key))
  {
    PrefixRuns(events, i);
    var s, e := At(events, i), events[i];
    StepStartsIff(s, e, key);
    if e.Resume? && key !in s.inFlight {
      if s.callers[e.c] == Resuming(key, None) {
        MissWasStale(events, i, e.c, key);
      }
      if StaleMiss(events, i, e.c, key) {
        var r: nat :| r < i && MissedAt(events, r, e.c, key) && StoredSince(events, r, i, key);
        AfterMiss(events, r, i, e.c, key);
      }
    }
  }

  lemma {:induction false} MissWasStale(events: seq<Event>, i: nat, c: CallerId, key: Key)
    requires Run(events).Some? && i < |events| && key in At(events, i).store && key !in At(events, i).inFlight
    requires c in At(events, i).callers && At(events, i).callers[c] == Resuming(key, None)
    ensures StaleMiss(events, i, c, key)
  {
    var r := ReadBefore(events, i, c);
    var j := StoredBetween(events, r, i, key);
    if !PutAt(events, j, key) {
      var f := events[j].f;
      PrefixRuns(events, j);
      assert FlightOk(At(events, j), f);
      var m := RemovedBetween(events, j, i, key, f);
      assert j != r && m != j;
    }
    assert MissedAt(events, r, c, key) && StoredSince(events, r, i, key);
  }

  /** How many of the first n events compute a stored value again, and whose they are. */
  ghost function ExtraFlights(events: seq<Event>, n: nat, key: Key): nat
    requires n <= |events|
  {
    if n == 0 then 0 else ExtraFlights(events, n - 1, key) + if IsExtra(events, n - 1, key) then 1 else 0
  }

  ghost predicate IsExtra(events: seq<Event>, i: nat, key: Key)
    requires i < |events|
  {
    key in At(events, i).store && StartsAt(events, i, key)
  }

  ghost function Starters(events: seq<Event>, n: nat, key: Key): set<CallerId>
    requires n <= |events|
  {
    if n == 0 then {}
    else
      Starters(events, n - 1, key)
      + if IsExtra(events, n - 1, key) && (events[n - 1].Call? || events[n - 1].Resume?) then {CallerOf(events[n - 1])} else {}
  }

  /** A caller that forced the key, or that resumed stale. */
  ghost predicate MayRepeat(events: seq<Event>, c: CallerId, key: Key) {
    exists i :: ForcedAt(events, i, c, key) || ResumesStale(events, i, c, key)
  }

  ghost predicate HasMovedOn(s: State, c: CallerId) {
    c in s.callers && (s.callers[c].Owning? || s.callers[c].Returned?)
  }

  lemma {:induction false} MovedOnStays(s: State, e: Event, c: CallerId)
    requires Enabled(s, e) && HasMovedOn(s, c)
    ensures HasMovedOn(Step(s, e), c) && ((e.Call? || e.Resume?) ==> e.c != c)
  {
  }

  lemma {:induction false} ExtraStarter(events: seq<Event>, i: nat, key: Key)
    requires Run(events).Some? && i < |events| && IsExtra(events, i, key)
    ensures events[i].Call? || events[i].Resume?
    ensures MayRepeat(events, CallerOf(events[i]), key) && HasMovedOn(At(events, i + 1), CallerOf(events[i]))
  {
    PrefixRuns(events, i);
    StoredValueIsComputedAgainIff(events, i, key);
    StepStartsIff(At(events, i), events[i], key);
  }

  lemma {:induction false} StartersAreDistinct(events: seq<Event>, n: nat, key: Key)
    requires Run(events).Some? && n <= |events|
    ensures |Starters(events, n, key)| == ExtraFlights(events, n, key)
    ensures forall c :: c in Starters(events, n, key) ==> HasMovedOn(At(events, n), c)
    ensures forall c :: c in Starters(events, n, key) ==> MayRepeat(events, c, key)
    decreases n
  {
    if n > 0 {
      var i := n - 1;
      PrefixRuns(events, i);
      StartersAreDistinct(events, i, key);
      var before := Starters(events, i, key);
      forall c | c in before ensures HasMovedOn(At(events, n), c) && ((events[i].Call? || events[i].Resume?) ==> events[i].c != c) {
        MovedOnStays(At(events, i), events[i], c);
      }
      if IsExtra(events, i, key) {
        ExtraStarter(events, i, key);
        assert Starters(events, n, key) == before + {CallerOf(events[i])};
      }
    }
  }

  /** A key is computed again at most once for each caller that forces it or resumes stale. */
  lemma {:induction false} ExtraFlightsAreBounded(events: seq<Event>, key: Key, callers: set<CallerId>)
    requires Run(events).Some? && forall c :: MayRepeat(events, c, key) ==> c in callers
    ensures ExtraFlights(events, |events|, key) <= |callers|
  {
    StartersAreDistinct(events, |events|, key);
    var starters := Starters(events, |events|, key);
    assert starters <= callers;
    SmallerSet(starters, callers);
  }

  lemma {:induction false} SmallerSet<T>(a: set<T>, b: set<T>)
    requires a <= b
    ensures |a| <= |b|
  {
    assert b == a + (b - a);
  }

  /** The race is real: two callers miss, the first computes and stores, the second computes again. */
  lemma {:induction false} StaleMissComputesAgain(key: Key, v: Value) returns (events: seq<Event>)
    ensures var after := RunFrom(Init(), events);
      && after.Some? && key in after.value.store && |after.value.flights| == 2 && after.value.flights[1].stage == Computing
    ensures forall i :: 0 <= i < |events| ==> !events[i].Drop? && !events[i].Put? && (events[i].Call? ==> !events[i].force)
  {
    var first := [Call(0, key, false, false), Call(1, key, false, false), Read(0), Read(1)];
    var second := [Resume(0, false), FactoryEnds(0, Some(v)), StoreEnds(0, true)];
    var third := [Await(0), Resume(1, false)];
    BothMiss(key);
    FirstComputes(key, v);
    ThenTheOther(key, v);
    RunJoin(Init(), first, second);
    RunJoin(Init(), first + second, third);
    events := first + second + third;
  }

  /** So does a value set directly between a caller's read and its resumption. */
  lemma {:induction false} SetBehindAMiss(key: Key, v: Value) returns (events: seq<Event>)
    ensures events == [Call(0, key, false, false), Read(0), Put(key, v), Resume(0, false)]
    ensures var after := RunFrom(Init(), events);
      && after.Some? && key in after.value.store && |after.value.flights| == 1 && after.value.flights[0].stage == Computing
  {
    var s1 := Init().(callers := map[0 := Reading(key)]);
    var s2 := Init().(callers := map[0 := Resuming(key, None)]);
    var s3 := s2.(store := map[key := v]);
    assert Step(Init(), Call(0, key, false, false)) == s1;
    assert Step(s1, Read(0)) == s2 by { assert s1.callers[0 := Resuming(key, None)] == s2.callers; }
    assert Step(s2, Put(key, v)) == s3;
    RunStep(s3, Resume(0, false), []);
    RunStep(s2, Put(key, v), [Resume(0, false)]);
    RunStep(s1, Read(0), [Put(key, v), Resume(0, false)]);
    RunStep(Init(), Call(0, key, false, false), [Read(0), Put(key, v), Resume(0, false)]);
    events := [Call(0, key, false, false)] + [Read(0), Put(key, v), Resume(0, false)];
  }

  function AfterBothMiss(key: Key): State {
    State(map[], map[], [], map[0 := Resuming(key, None), 1 := Resuming(key, None)])
  }

  lemma {:induction false} BothMiss(key: Key)
    ensures RunFrom(Init(), [Call(0, key, false, false), Call(1, key, false, false), Read(0), Read(1)]) == Some(AfterBothMiss(key))
  {
    var s1 := Init().(callers := map[0 := Reading(key)]);
    var s2 := Init().(callers := map[0 := Reading(key), 1 := Reading(key)]);
    var s3 := Init().(callers := map[0 := Resuming(key, None), 1 := Reading(key)]);
    assert Step(Init(), Call(0, key, false, false)) == s1;
    assert Step(s1, Call(1, key, false, false)) == s2 by { assert s1.callers[1 := Reading(key)] == s2.callers; }
    assert Step(s2, Read(0)) == s3 by { assert s2.callers[0 := Resuming(key, None)] == s3.callers; }
    assert Step(s3, Read(1)) == AfterBothMiss(key) by {
      assert s3.callers[1 := Resuming(key, None)] == AfterBothMiss(key).callers;
    }
    RunStep(s3, Read(1), []);
    RunStep(s2, Read(0), [Read(1)]);
    RunStep(s1, Call(1, key, false, false), [Read(0), Read(1)]);
    RunStep(Init(), Call(0, key, false, false), [Call(1, key, false, false), Read(0), Read(1)]);
  }

  function FirstFlight(key: Key, v: Value, stage: Stage): State {
    State(if stage.Settled? then map[key := v] else map[], map[key := 0], [Flight(key, 0, stage)],
          map[0 := Owning(0), 1 := Resuming(key, None)])
  }

  lemma {:induction false} FirstComputes(key: Key, v: Value)
    ensures RunFrom(AfterBothMiss(key), [Resume(0, false), FactoryEnds(0, Some(v)), StoreEnds(0, true)])
         == Some(FirstFlight(key, v, Settled(Some(v))))
  {
    var s0, s1, s2 := AfterBothMiss(key), FirstFlight(key, v, Computing), FirstFlight(key, v, Storing(v));
    var s3 := FirstFlight(key, v, Settled(Some(v)));
    assert Step(s0, Resume(0, false)) == s1 by { assert s0.callers[0 := Owning(0)] == s1.callers; }
    assert Step(s1, FactoryEnds(0, Some(v))) == s2 by { assert s1.flights[0 := s2.flights[0]] == s2.flights; }
    assert Step(s2, StoreEnds(0, true)) == s3 by { assert s2.flights[0 := s3.flights[0]] == s3.flights; }
    RunStep(s2, StoreEnds(0, true), []);
    RunStep(s1, FactoryEnds(0, Some(v)), [StoreEnds(0, true)]);
    RunStep(s0, Resume(0, false), [FactoryEnds(0, Some(v)), StoreEnds(0, true)]);
  }

  lemma {:induction false} ThenTheOther(key: Key, v: Value)
    ensures var after := RunFrom(FirstFlight(key, v, Settled(Some(v))), [Await(0), Resume(1, false)]);
      after.Some? && key in after.value.store && |after.value.flights| == 2 && after.value.flights[1].stage == Computing
  {
    var s3 := FirstFlight(key, v, Settled(Some(v)));
    var s4 := s3.(inFlight := map[], callers := map[0 := Returned(Some(v)), 1 := Resuming(key, None)]);
    assert Step(s3, Await(0)) == s4 by {
      assert s3.callers[0 := Returned(Some(v))] == s4.callers;
      assert s3.inFlight - {key} == map[];
    }
    RunStep(s4, Resume(1, false), []);
    RunStep(s3, Await(0), [Resume(1, false)]);
  }

  lemma {:induction false} RunJoin(s: State, a: seq<Event>, b: seq<Event>)
    requires RunFrom(s, a).Some?
    ensures RunFrom(s, a + b) == RunFrom(RunFrom(s, a).value, b)
    decreases a
  {
    if a == [] {
      assert a + b == b;
    } else {
      assert (a + b)[1..] == a[1..] + b;
      RunJoin(Step(s, a[0]), a[1..], b);
    }
  }

  lemma {:induction false} RunStep(s: State, e: Event, rest: seq<Event>)
    requires Enabled(s, e)
    ensures RunFrom(s, [e] + rest) == RunFrom(Step(s, e), rest)
  {
    assert ([e] + rest)[1..] == rest;
  }

  /** A caller that begins once a value is stored, and while it is, returns it without computing. */
  lemma {:induction false} LateCallerHits(s: State, c: CallerId, key: Key, lock: bool, between: seq<Event>)
    requires key in s.store && Enabled(s, Read(c)) && s.callers[c] == Reading(key)
    requires RunFrom(Step(s, Read(c)), between).Some?
    requires forall i :: 0 <= i < |between| ==> !Concerns(between[i], c)
    ensures var t := RunFrom(Step(s, Read(c)), between).value;
      && Enabled(t, Resume(c, lock))
      && Step(t, Resume(c, lock)).callers[c] == Returned(Some(s.store[key]))
      && Step(t, Resume(c, lock)).flights == t.flights
  {
    PhaseStays(Step(s, Read(c)), between, c);
  }

  ghost predicate Concerns(e: Event, c: CallerId) {
    (e.Call? || e.Read? || e.Resume? || e.Await?) && e.c == c
  }

  lemma {:induction false} PhaseStays(s: State, events: seq<Event>, c: CallerId)
    requires c in s.callers && RunFrom(s, events).Some?
    requires forall i :: 0 <= i < |events| ==> !Concerns(events[i], c)
    ensures c in RunFrom(s, events).value.callers && RunFrom(s, events).value.callers[c] == s.callers[c]
    decreases events
  {
    if events != [] {
      assert !Concerns(events[0], c);
      PhaseStays(Step(s, events[0]), events[1..], c);
    }
  }
}
