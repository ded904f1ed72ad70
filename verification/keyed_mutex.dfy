/**
 The keyed mutex of the rate limiters: a map from key to the promise (the tail) that the next
 call on the key must wait for.

 Every call is identified by its arrival number.  One transition is one promise reaction or one
 answer of the asynchronous store; they may happen in any order their guards allow.
 */
module KeyedMutex {
  import opened ExpiringStore

  type Key = string

  /** What the guarded function does with what it read: its result and the slot it leaves. */
  datatype Effect<R, S> = Effect(result: R, slot: Option<S>)

  /**
   Waiting: behind `prev`.  Started: the function runs and has asked the store for the slot.
   HasRead: the store has answered.  Settled: the result promise is fulfilled or rejected.
   Done: the tail promise is fulfilled.  Cleaned: the clean-up reaction has run.
   */
  datatype Phase<I, S> =
    | Waiting
    | Started(input: I)
    | HasRead(input: I, snapshot: Option<S>)
    | Settled
    | Done
    | Cleaned

  datatype Call<I, S> = Call(key: Key, prev: Option<nat>, phase: Phase<I, S>)

  /** A completed operation, in order of completion. */
  datatype Completed<I, R> = Completed(id: nat, key: Key, input: I, result: R)

  datatype State<I, R, S> = State(
    calls: seq<Call<I, S>>, tails: map<Key, nat>, store: map<Key, S>, log: seq<Completed<I, R>>)

  datatype Event<I> =
    | Arrive(key: Key)
    | Start(id: nat, input: I)
    | Read(id: nat)
    | Write(id: nat)
    | Fail(id: nat)
    | SettleTail(id: nat)
    | CleanUp(id: nat)

  function Lookup<S>(store: map<Key, S>, key: Key): Option<S> {
    if key in store then Some(store[key]) else None
  }

  function Store<S>(store: map<Key, S>, key: Key, slot: Option<S>): (r: map<Key, S>)
    ensures Lookup(r, key) == slot
    ensures forall k :: k != key ==> Lookup(r, k) == Lookup(store, k)
  {
    match slot
    case None => store - {key}
    case Some(v) => store[key := v]
  }

  predicate TailSettled<I, S>(c: Call<I, S>) {
    c.phase.Done? || c.phase.Cleaned?
  }

  predicate Enabled<I, R, S>(s: State<I, R, S>, e: Event<I>) {
    match e
    case Arrive(_) => true
    case Start(id, _) =>
      && id < |s.calls| && s.calls[id].phase.Waiting?
      && var prev := s.calls[id].prev;
         prev.Some? ==> prev.value < |s.calls| && TailSettled(s.calls[prev.value])
    case Read(id) => id < |s.calls| && s.calls[id].phase.Started?
    case Write(id) => id < |s.calls| && s.calls[id].phase.HasRead?
    case Fail(id) => id < |s.calls| && (s.calls[id].phase.Started? || s.calls[id].phase.HasRead?)
    case SettleTail(id) => id < |s.calls| && s.calls[id].phase.Settled?
    case CleanUp(id) => id < |s.calls| && s.calls[id].phase.Done?
  }

  function SetPhase<I, R, S>(s: State<I, R, S>, id: nat, phase: Phase<I, S>): State<I, R, S>
    requires id < |s.calls|
  {
    s.(calls := s.calls[id := s.calls[id].(phase := phase)])
  }

  function Step<I, R, S>(f: (I, Option<S>) -> Effect<R, S>, s: State<I, R, S>, e: Event<I>): State<I, R, S>
    requires Enabled(s, e)
  {
    match e
    case Arrive(key) =>
      s.(calls := s.calls + [Call(key, Lookup(s.tails, key), Waiting)], tails := s.tails[key := |s.calls|])
    case Start(id, input) => SetPhase(s, id, Started(input))
    case Read(id) =>
      SetPhase(s, id, HasRead(s.calls[id].phase.input, Lookup(s.store, s.calls[id].key)))
    case Write(id) =>
      var key, input := s.calls[id].key, s.calls[id].phase.input;
      var effect := f(input, s.calls[id].phase.snapshot);
      SetPhase(s, id, Settled).(
        store := Store(s.store, key, effect.slot),
        log := s.log + [Completed(id, key, input, effect.result)])
    case Fail(id) => SetPhase(s, id, Settled)
    case SettleTail(id) => SetPhase(s, id, Done)
    case CleanUp(id) =>
      var key := s.calls[id].key;
      SetPhase(s, id, Cleaned).(
        tails := if Lookup(s.tails, key) == Some(id) then s.tails - {key} else s.tails)
  }

  /** The state after a run; None if some event of it was not enabled. */
  function Run<I, R, S>(f: (I, Option<S>) -> Effect<R, S>, events: seq<Event<I>>): Option<State<I, R, S>> {
    if events == [] then Some(State([], map[], map[], []))
    else
      var last := |events| - 1;
      match Run(f, events[..last])
      case None => None
      case Some(s) => if Enabled(s, events[last]) then Some(Step(f, s, events[last])) else None
  }

  // ----- The invariant ------------------------------------------------------------------

  /** Every call on the key that arrived before `id` is over. */
  ghost predicate EarlierOver<I, R, S>(s: State<I, R, S>, id: nat)
    requires id < |s.calls|
  {
    forall i :: 0 <= i < id && s.calls[i].key == s.calls[id].key ==> TailSettled(s.calls[i])
  }

  ghost predicate LinkOk<I, R, S>(s: State<I, R, S>, id: nat)
    requires id < |s.calls|
  {
    match s.calls[id].prev
    case None => EarlierOver(s, id)
    case Some(p) =>
      && p < id && s.calls[p].key == s.calls[id].key
      && forall i :: p < i < id ==> s.calls[i].key != s.calls[id].key
  }

  ghost predicate TailOk<I, R, S>(s: State<I, R, S>, key: Key) {
    match Lookup(s.tails, key)
    case None => forall i :: 0 <= i < |s.calls| && s.calls[i].key == key ==> TailSettled(s.calls[i])
    case Some(t) =>
      && t < |s.calls| && s.calls[t].key == key
      && forall i :: t < i < |s.calls| ==> s.calls[i].key != key
  }

  ghost predicate Inv<I, R, S>(s: State<I, R, S>) {
    && (forall id :: 0 <= id < |s.calls| ==> LinkOk(s, id))
    && (forall id :: 0 <= id < |s.calls| && !s.calls[id].phase.Waiting? ==> EarlierOver(s, id))
    && (forall key :: TailOk(s, key))
    && (forall id :: 0 <= id < |s.calls| && s.calls[id].phase.HasRead? ==>
          s.calls[id].phase.snapshot == Lookup(s.store, s.calls[id].key))
  }

  /** A call that may start has nothing unfinished before it. */
  lemma StartIsSafe<I, R, S>(s: State<I, R, S>, id: nat, input: I)
    requires Inv(s) && Enabled(s, Start(id, input))
    ensures EarlierOver(s, id)
  {
    assert LinkOk(s, id);
    var prev := s.calls[id].prev;
    if prev.Some? {
      assert EarlierOver(s, prev.value);
    }
  }

  /** Calls only move forward: what was over stays over, links and keys stay. */
  ghost predicate Advances<I, R, S>(s: State<I, R, S>, t: State<I, R, S>) {
    && |s.calls| == |t.calls|
    && forall i :: 0 <= i < |s.calls| ==>
         s.calls[i].key == t.calls[i].key && s.calls[i].prev == t.calls[i].prev
         && (TailSettled(s.calls[i]) ==> TailSettled(t.calls[i]))
  }

  lemma LinksKept<I, R, S>(s: State<I, R, S>, t: State<I, R, S>)
    requires Inv(s) && Advances(s, t)
    ensures forall id :: 0 <= id < |t.calls| ==> LinkOk(t, id)
    ensures forall id :: 0 <= id < |t.calls| && EarlierOver(s, id) ==> EarlierOver(t, id)
    ensures s.tails == t.tails ==> forall key :: TailOk(t, key)
  {
    forall id | 0 <= id < |t.calls|
      ensures LinkOk(t, id)
    {
      assert LinkOk(s, id);
    }
    if s.tails == t.tails {
      forall key
        ensures TailOk(t, key)
      {
        assert TailOk(s, key);
      }
    }
  }

  lemma ArrivePreserves<I, R, S>(f: (I, Option<S>) -> Effect<R, S>, s: State<I, R, S>, key: Key)
    requires Inv(s)
    ensures Inv(Step(f, s, Arrive(key)))
  {
    var t := Step(f, s, Arrive(key));
    var n := |s.calls|;
    assert forall i :: 0 <= i < n ==> t.calls[i] == s.calls[i];
    assert TailOk(s, key);
    forall id | 0 <= id < |t.calls|
      ensures LinkOk(t, id)
    {
      if id < n {
        assert LinkOk(s, id);
      }
    }
    forall id | 0 <= id < |t.calls| && !t.calls[id].phase.Waiting?
      ensures EarlierOver(t, id)
    {
      assert EarlierOver(s, id);
    }
    forall k
      ensures TailOk(t, k)
    {
      assert TailOk(s, k);
    }
  }

  lemma StartPreserves<I, R, S>(f: (I, Option<S>) -> Effect<R, S>, s: State<I, R, S>, id: nat, input: I)
    requires Inv(s) && Enabled(s, Start(id, input))
    ensures Inv(Step(f, s, Start(id, input)))
  {
    StartIsSafe(s, id, input);
    LinksKept(s, Step(f, s, Start(id, input)));
  }

  /** Two calls on one key are never both between their start and the end of their tail. */
  lemma OneActive<I, R, S>(s: State<I, R, S>, i: nat, j: nat)
    requires Inv(s) && i < |s.calls| && j < |s.calls| && s.calls[i].key == s.calls[j].key
    requires Active(s.calls[i]) && Active(s.calls[j])
    ensures i == j
  {
    assert EarlierOver(s, i) && EarlierOver(s, j);
  }

  predicate Active<I, S>(c: Call<I, S>) {
    c.phase.Started? || c.phase.HasRead? || c.phase.Settled?
  }

  lemma WritePreserves<I, R, S>(f: (I, Option<S>) -> Effect<R, S>, s: State<I, R, S>, id: nat)
    requires Inv(s) && Enabled(s, Write(id))
    ensures Inv(Step(f, s, Write(id)))
  {
    var t := Step(f, s, Write(id));
    LinksKept(s, t);
    forall j | 0 <= j < |t.calls| && t.calls[j].phase.HasRead?
      ensures t.calls[j].phase.snapshot == Lookup(t.store, t.calls[j].key)
    {
      if t.calls[j].key == t.calls[id].key {
        OneActive(s, id, j);
      }
    }
  }

  lemma CleanUpPreserves<I, R, S>(f: (I, Option<S>) -> Effect<R, S>, s: State<I, R, S>, id: nat)
    requires Inv(s) && Enabled(s, CleanUp(id))
    ensures Inv(Step(f, s, CleanUp(id)))
  {
    var t := Step(f, s, CleanUp(id));
    LinksKept(s, t);
    forall key
      ensures TailOk(t, key)
    {
      assert TailOk(s, key);
      assert EarlierOver(s, id);
    }
  }

  lemma StepPreserves<I, R, S>(f: (I, Option<S>) -> Effect<R, S>, s: State<I, R, S>, e: Event<I>)
    requires Inv(s) && Enabled(s, e)
    ensures Inv(Step(f, s, e))
  {
    match e
    case Arrive(key) => ArrivePreserves(f, s, key);
    case Start(id, input) => StartPreserves(f, s, id, input);
    case Write(id) => WritePreserves(f, s, id);
    case CleanUp(id) => CleanUpPreserves(f, s, id);
    case _ => LinksKept(s, Step(f, s, e));
  }

  lemma {:induction false} EveryRunKeepsInv<I, R, S>(f: (I, Option<S>) -> Effect<R, S>, events: seq<Event<I>>)
    requires Run(f, events).Some?
    ensures Inv(Run(f, events).value)
  {
    if events != [] {
      var last := |events| - 1;
      EveryRunKeepsInv(f, events[..last]);
      StepPreserves(f, Run(f, events[..last]).value, events[last]);
    }
  }

  // ----- What every run keeps -----------------------------------------------------------

  /** At most one call on a key is active, and no call starts before an earlier one is over. */
  lemma {:induction false} MutualExclusion<I, R, S>(f: (I, Option<S>) -> Effect<R, S>, events: seq<Event<I>>, i: nat, j: nat)
    requires Run(f, events).Some?
    requires i < j < |Run(f, events).value.calls|
    requires Run(f, events).value.calls[i].key == Run(f, events).value.calls[j].key
    ensures var s := Run(f, events).value;
            && !(Active(s.calls[i]) && Active(s.calls[j]))
            && (!s.calls[j].phase.Waiting? ==> TailSettled(s.calls[i]))
  {
    EveryRunKeepsInv(f, events);
    var s := Run(f, events).value;
    if !s.calls[j].phase.Waiting? {
      assert EarlierOver(s, j);
    }
  }

  /** While a call on the key is not over, the map still points to the key's newest call. */
  lemma {:induction false} TailStaysWhileQueued<I, R, S>(f: (I, Option<S>) -> Effect<R, S>, events: seq<Event<I>>, i: nat)
    requires Run(f, events).Some? && i < |Run(f, events).value.calls|
    requires !TailSettled(Run(f, events).value.calls[i])
    ensures var s := Run(f, events).value;
            var key := s.calls[i].key;
            key in s.tails && i <= s.tails[key] < |s.calls| && s.calls[s.tails[key]].key == key
            && forall k :: s.tails[key] < k < |s.calls| ==> s.calls[k].key != key
  {
    EveryRunKeepsInv(f, events);
    assert TailOk(Run(f, events).value, Run(f, events).value.calls[i].key);
  }

  /** A key in the map has a last call that has not been cleaned up. */
  ghost predicate TailsInUse<I, R, S>(s: State<I, R, S>) {
    forall key :: key in s.tails ==>
      s.tails[key] < |s.calls| && s.calls[s.tails[key]].key == key && !s.calls[s.tails[key]].phase.Cleaned?
  }

  lemma {:induction false} EveryRunUsesTails<I, R, S>(f: (I, Option<S>) -> Effect<R, S>, events: seq<Event<I>>)
    requires Run(f, events).Some?
    ensures TailsInUse(Run(f, events).value)
  {
    if events != [] {
      var last := |events| - 1;
      EveryRunUsesTails(f, events[..last]);
      StepUsesTails(f, Run(f, events[..last]).value, events[last]);
    }
  }

  lemma {:induction false} StepUsesTails<I, R, S>(f: (I, Option<S>) -> Effect<R, S>, s: State<I, R, S>, e: Event<I>)
    requires TailsInUse(s) && Enabled(s, e)
    ensures TailsInUse(Step(f, s, e))
  {
    var t := Step(f, s, e);
    if e.Arrive? {
      assert forall i :: 0 <= i < |s.calls| ==> t.calls[i] == s.calls[i];
    } else if e.CleanUp? {
      forall key | key in t.tails ensures t.tails[key] != e.id {
        assert key in s.tails;
      }
    } else {
      assert t.tails == s.tails;
    }
  }

  /** Once all calls on a key are cleaned up, the map has forgotten it. */
  lemma {:induction false} NoTailIsLeft<I, R, S>(f: (I, Option<S>) -> Effect<R, S>, events: seq<Event<I>>, key: Key)
    requires Run(f, events).Some?
    requires forall i :: 0 <= i < |Run(f, events).value.calls| && Run(f, events).value.calls[i].key == key ==>
      Run(f, events).value.calls[i].phase.Cleaned?
    ensures key !in Run(f, events).value.tails
  {
    EveryRunUsesTails(f, events);
  }

  /** Whatever has happened, the first unfinished call on a key can make its next step. */
  lemma {:induction false} FirstUnfinishedCanMove<I, R, S>(f: (I, Option<S>) -> Effect<R, S>, events: seq<Event<I>>, id: nat, input: I)
    requires Run(f, events).Some? && id < |Run(f, events).value.calls|
    requires !TailSettled(Run(f, events).value.calls[id]) && EarlierOver(Run(f, events).value, id)
    ensures var s := Run(f, events).value;
            Enabled(s, Start(id, input)) || Enabled(s, Read(id)) || Enabled(s, Write(id))
            || Enabled(s, SettleTail(id))
  {
    EveryRunKeepsInv(f, events);
    assert LinkOk(Run(f, events).value, id);
  }

  /** The own steps of a call that waits: it starts, reads, writes (or fails), and its tail is fulfilled. */
  function OwnSteps<I>(id: nat, input: I, fails: bool): seq<Event<I>> {
    [Start(id, input), Read(id)] + [if fails then Fail(id) else Write(id)] + [SettleTail(id)]
  }

  /** A call that waits for nothing can go through by its own steps, whether the function succeeds or fails. */
  lemma {:induction false} FirstUnfinishedFinishes<I, R, S>(
    f: (I, Option<S>) -> Effect<R, S>, events: seq<Event<I>>, id: nat, input: I, fails: bool)
    requires Run(f, events).Some? && id < |Run(f, events).value.calls|
    requires Run(f, events).value.calls[id].phase.Waiting? && EarlierOver(Run(f, events).value, id)
    ensures var s, after := Run(f, events).value, Run(f, events + OwnSteps(id, input, fails));
      && after.Some? && id < |after.value.calls| && after.value.calls == s.calls[id := s.calls[id].(phase := Done)]
      && after.value.tails == s.tails
      && (fails ==> after.value.store == s.store && after.value.log == s.log)
      && (!fails ==>
            var effect := f(input, Lookup(s.store, s.calls[id].key));
            && after.value.log == s.log + [Completed(id, s.calls[id].key, input, effect.result)]
            && Lookup(after.value.store, s.calls[id].key) == effect.slot)
  {
    EveryRunKeepsInv(f, events);
    var s := Run(f, events).value;
    assert LinkOk(s, id);
    var last := if fails then Fail(id) else Write(id);
    var s1 := OneMore(f, events, Start(id, input));
    var s2 := OneMore(f, events + [Start(id, input)], Read(id));
    var s3 := OneMore(f, events + [Start(id, input)] + [Read(id)], last);
    var s4 := OneMore(f, events + [Start(id, input)] + [Read(id)] + [last], SettleTail(id));
    assert events + [Start(id, input)] + [Read(id)] + [last] + [SettleTail(id)] == events + OwnSteps(id, input, fails);
  }

  lemma {:induction false} OneMore<I, R, S>(f: (I, Option<S>) -> Effect<R, S>, events: seq<Event<I>>, e: Event<I>)
    returns (s: State<I, R, S>)
    requires Run(f, events).Some? && Enabled(Run(f, events).value, e)
    ensures Run(f, events + [e]) == Some(s) && s == Step(f, Run(f, events).value, e)
  {
    assert (events + [e])[..|events|] == events;
    s := Step(f, Run(f, events).value, e);
  }

  // ----- Serializability ----------------------------------------------------------------

  /** The operations run one after the other: the store they leave and their results. */
  function Serial<I, R, S>(f: (I, Option<S>) -> Effect<R, S>, ops: seq<(Key, I)>): (map<Key, S>, seq<R>) {
    if ops == [] then (map[], [])
    else
      var (store, results) := Serial(f, ops[..|ops| - 1]);
      var (key, input) := ops[|ops| - 1];
      var effect := f(input, Lookup(store, key));
      (Store(store, key, effect.slot), results + [effect.result])
  }

  function Ops<I, R>(log: seq<Completed<I, R>>): (r: seq<(Key, I)>)
    ensures |r| == |log| && forall i :: 0 <= i < |log| ==> r[i] == (log[i].key, log[i].input)
  {
    seq(|log|, i requires 0 <= i < |log| => (log[i].key, log[i].input))
  }

  function LogResults<I, R>(log: seq<Completed<I, R>>): (r: seq<R>)
    ensures |r| == |log| && forall i :: 0 <= i < |log| ==> r[i] == log[i].result
  {
    seq(|log|, i requires 0 <= i < |log| => log[i].result)
  }

  /** The log is the serial run, and on each key it is in arrival order. */
  ghost predicate LogOk<I, R, S>(f: (I, Option<S>) -> Effect<R, S>, s: State<I, R, S>) {
    && Serial(f, Ops(s.log)) == (s.store, LogResults(s.log))
    && (forall a :: 0 <= a < |s.log| ==>
          s.log[a].id < |s.calls| && s.calls[s.log[a].id].key == s.log[a].key
          && (s.calls[s.log[a].id].phase.Settled? || TailSettled(s.calls[s.log[a].id])))
    && (forall a, b :: 0 <= a < b < |s.log| && s.log[a].key == s.log[b].key ==> s.log[a].id < s.log[b].id)
  }

  lemma WriteKeepsLog<I, R, S>(f: (I, Option<S>) -> Effect<R, S>, s: State<I, R, S>, id: nat)
    requires Inv(s) && LogOk(f, s) && Enabled(s, Write(id))
    ensures LogOk(f, Step(f, s, Write(id)))
  {
    var t := Step(f, s, Write(id));
    var entry := t.log[|s.log|];
    assert Ops(t.log)[..|s.log|] == Ops(s.log);
    assert LogResults(t.log) == LogResults(s.log) + [entry.result];
    forall a | 0 <= a < |s.log| && s.log[a].key == entry.key
      ensures s.log[a].id < id
    {
      assert EarlierOver(s, s.log[a].id);
    }
  }

  lemma OthersKeepLog<I, R, S>(f: (I, Option<S>) -> Effect<R, S>, s: State<I, R, S>, e: Event<I>)
    requires LogOk(f, s) && Enabled(s, e) && !e.Write?
    ensures LogOk(f, Step(f, s, e))
  {
    var t := Step(f, s, e);
    assert t.log == s.log && t.store == s.store;
    assert forall i :: 0 <= i < |s.calls| ==> t.calls[i].key == s.calls[i].key;
    assert forall i :: 0 <= i < |s.calls| && (s.calls[i].phase.Settled? || TailSettled(s.calls[i])) ==>
             t.calls[i].phase.Settled? || TailSettled(t.calls[i]);
  }

  lemma {:induction false} EveryRunIsSerial<I, R, S>(f: (I, Option<S>) -> Effect<R, S>, events: seq<Event<I>>)
    requires Run(f, events).Some?
    ensures LogOk(f, Run(f, events).value)
  {
    if events != [] {
      var last := |events| - 1;
      EveryRunIsSerial(f, events[..last]);
      EveryRunKeepsInv(f, events[..last]);
      var s := Run(f, events[..last]).value;
      if events[last].Write? {
        WriteKeepsLog(f, s, events[last].id);
      } else {
        OthersKeepLog(f, s, events[last]);
      }
    }
  }

  // ----- One key --------------------------------------------------------------------------

  /** The inputs of the completed operations on one key, in order. */
  function InputsOn<I, R>(log: seq<Completed<I, R>>, key: Key): seq<I> {
    if log == [] then []
    else
      var last := log[|log| - 1];
      InputsOn(log[..|log| - 1], key) + (if last.key == key then [last.input] else [])
  }

  function ResultsOn<I, R>(log: seq<Completed<I, R>>, key: Key): seq<R> {
    if log == [] then []
    else
      var last := log[|log| - 1];
      ResultsOn(log[..|log| - 1], key) + (if last.key == key then [last.result] else [])
  }

  /** The function applied to the inputs one after the other, to one slot. */
  function SlotFrom<I, R, S>(f: (I, Option<S>) -> Effect<R, S>, slot: Option<S>, inputs: seq<I>): Option<S>
    decreases inputs
  {
    if inputs == [] then slot else SlotFrom(f, f(inputs[0], slot).slot, inputs[1..])
  }

  function ResultsFrom<I, R, S>(f: (I, Option<S>) -> Effect<R, S>, slot: Option<S>, inputs: seq<I>): seq<R>
    decreases inputs
  {
    if inputs == [] then []
    else [f(inputs[0], slot).result] + ResultsFrom(f, f(inputs[0], slot).slot, inputs[1..])
  }

  lemma {:induction false} OneMoreInput<I, R, S>(f: (I, Option<S>) -> Effect<R, S>, slot: Option<S>, inputs: seq<I>, input: I)
    ensures var effect := f(input, SlotFrom(f, slot, inputs));
            && SlotFrom(f, slot, inputs + [input]) == effect.slot
            && ResultsFrom(f, slot, inputs + [input]) == ResultsFrom(f, slot, inputs) + [effect.result]
    decreases inputs
  {
    if inputs == [] {
      assert [input][1..] == [];
    } else {
      assert (inputs + [input])[1..] == inputs[1..] + [input];
      OneMoreInput(f, f(inputs[0], slot).slot, inputs[1..], input);
    }
  }

  /** On each key the completed operations are a sequential run of the function on that key's slot. */
  lemma {:induction false} KeyIsSequential<I, R, S>(f: (I, Option<S>) -> Effect<R, S>, log: seq<Completed<I, R>>, key: Key)
    requires Serial(f, Ops(log)).1 == LogResults(log)
    ensures Lookup(Serial(f, Ops(log)).0, key) == SlotFrom(f, None, InputsOn(log, key))
    ensures ResultsOn(log, key) == ResultsFrom(f, None, InputsOn(log, key))
  {
    if log != [] {
      var last, before := log[|log| - 1], log[..|log| - 1];
      assert Ops(log)[..|log| - 1] == Ops(before);
      assert LogResults(log)[..|log| - 1] == LogResults(before);
      KeyIsSequential(f, before, key);
      OneMoreInput(f, None, InputsOn(before, key), last.input);
      assert InputsOn(before, key) + [] == InputsOn(before, key);
      assert ResultsOn(before, key) + [] == ResultsOn(before, key);
    }
  }
}
