/**
 Both rate limiters behind the keyed mutex: what is granted on a key when calls arrive, start,
 read, write and fail in any order.
 */
module ConcurrentLimiters {
  import opened ExpiringStore
  import opened KeyedMutex
  import FixedWindow
  import TokenBucket

  type Answer = Option<Result>

  // ----- The clock ------------------------------------------------------------------------

  /** The event starts a call on the key; the call reads the clock then. */
  ghost predicate StartsOn<S>(s: State<Request, Answer, S>, e: Event<Request>, key: Key) {
    e.Start? && e.id < |s.calls| && s.calls[e.id].key == key
  }

  ghost predicate Positive(r: Request) {
    r.op.Consume? ==> r.op.units > 0.0
  }

  /** The readings on the key do not go back, and costs are positive, as is checked before a call queues. */
  ghost predicate GoodStarts<S>(s: State<Request, Answer, S>, events: seq<Event<Request>>, key: Key) {
    && (forall i :: 0 <= i < |events| && StartsOn(s, events[i], key) ==> Positive(events[i].input))
    && (forall i, j :: 0 <= i < j < |events| && StartsOn(s, events[i], key) && StartsOn(s, events[j], key) ==>
          events[i].input.now <= events[j].input.now)
  }

  predicate Begun<I, S>(c: Call<I, S>) {
    c.phase.Started? || c.phase.HasRead?
  }

  /** Completed calls on the key are in the order of their readings, running ones come later, none after `t`. */
  ghost predicate InTimeOrder<S>(s: State<Request, Answer, S>, key: Key, t: real) {
    && (forall a :: 0 <= a < |s.log| && s.log[a].key == key ==>
          s.log[a].input.now <= t && Positive(s.log[a].input))
    && (forall a, b :: 0 <= a < b < |s.log| && s.log[a].key == key && s.log[b].key == key ==>
          s.log[a].input.now <= s.log[b].input.now)
    && (forall id :: 0 <= id < |s.calls| && s.calls[id].key == key && Begun(s.calls[id]) ==>
          s.calls[id].phase.input.now <= t && Positive(s.calls[id].phase.input))
    && (forall a, id | 0 <= a < |s.log| && s.log[a].key == key && 0 <= id < |s.calls| ::
          s.calls[id].key == key && Begun(s.calls[id]) ==> s.log[a].input.now <= s.calls[id].phase.input.now)
  }

  lemma StepKeepsTimeOrder<S>(f: (Request, Option<S>) -> Effect<Answer, S>, s: State<Request, Answer, S>,
                              e: Event<Request>, key: Key, t: real)
    requires Inv(s) && Enabled(s, e) && InTimeOrder(s, key, t)
    requires StartsOn(s, e, key) ==> e.input.now == t && Positive(e.input)
    ensures InTimeOrder(Step(f, s, e), key, t)
  {
    if e.Write? {
      WriteKeepsTimeOrder(f, s, e, key, t);
    }
  }

  lemma {:induction false} WriteKeepsTimeOrder<S>(f: (Request, Option<S>) -> Effect<Answer, S>, s: State<Request, Answer, S>,
                                                  e: Event<Request>, key: Key, t: real)
    requires Inv(s) && Enabled(s, e) && InTimeOrder(s, key, t) && e.Write?
    ensures InTimeOrder(Step(f, s, e), key, t)
  {
    var next := Step(f, s, e);
    forall id | 0 <= id < |next.calls| && next.calls[id].key == s.calls[e.id].key && Begun(next.calls[id])
      ensures false
    {
      OneActive(s, id, e.id);
    }
  }

  lemma KeysStay<S>(f: (Request, Option<S>) -> Effect<Answer, S>, s: State<Request, Answer, S>, e: Event<Request>)
    requires Enabled(s, e)
    ensures var next := Step(f, s, e);
      |s.calls| <= |next.calls| && forall i :: 0 <= i < |s.calls| ==> next.calls[i].key == s.calls[i].key
  {
  }

  lemma {:induction false} ReadingsAreOrdered<S>(f: (Request, Option<S>) -> Effect<Answer, S>,
                                                 events: seq<Event<Request>>, key: Key, t: real)
    requires Run(f, events).Some? && GoodStarts(Run(f, events).value, events, key)
    requires forall i :: 0 <= i < |events| && StartsOn(Run(f, events).value, events[i], key) ==> events[i].input.now <= t
    ensures InTimeOrder(Run(f, events).value, key, t)
  {
    if events != [] {
      var e, before := events[|events| - 1], events[..|events| - 1];
      var s := Run(f, before).value;
      KeysStay(f, s, e);
      var at := if StartsOn(s, e, key) then e.input.now else t;
      assert StartsOn(s, e, key) ==> StartsOn(Run(f, events).value, events[|events| - 1], key);
      forall i | 0 <= i < |before| && StartsOn(s, before[i], key)
        ensures StartsOn(Run(f, events).value, events[i], key)
      {
      }
      ReadingsAreOrdered(f, before, key, at);
      EveryRunKeepsInv(f, before);
      StepKeepsTimeOrder(f, s, e, key, at);
    }
  }

  lemma {:induction false} InputFromLog(log: seq<Completed<Request, Answer>>, key: Key, i: nat) returns (a: nat)
    requires i < |InputsOn(log, key)|
    ensures a < |log| && log[a].key == key && log[a].input == InputsOn(log, key)[i]
  {
    var before := log[..|log| - 1];
    if i < |InputsOn(before, key)| {
      a := InputFromLog(before, key, i);
    } else {
      a := |log| - 1;
    }
  }

  lemma {:induction false} OrderedLog<S>(s: State<Request, Answer, S>, log: seq<Completed<Request, Answer>>, key: Key, t: real)
    requires InTimeOrder(s, key, t) && log <= s.log
    ensures Sorted(InputsOn(log, key)) && PositiveCosts(InputsOn(log, key))
  {
    if log != [] {
      var before, last := log[..|log| - 1], log[|log| - 1];
      OrderedLog(s, before, key, t);
      forall i | 0 <= i < |InputsOn(before, key)| && last.key == key
        ensures InputsOn(before, key)[i].now <= last.input.now
      {
        var a := InputFromLog(before, key, i);
        assert s.log[a] == before[a] && s.log[|log| - 1] == last;
      }
    }
  }

  /** With good starts, the completed requests on the key are sorted by their readings. */
  lemma {:induction false} KeyIsSorted<S>(f: (Request, Option<S>) -> Effect<Answer, S>, events: seq<Event<Request>>, key: Key)
    requires Run(f, events).Some? && GoodStarts(Run(f, events).value, events, key)
    ensures var requests := InputsOn(Run(f, events).value.log, key); Sorted(requests) && PositiveCosts(requests)
  {
    var s := Run(f, events).value;
    var t := LastReading(s, events, key);
    ReadingsAreOrdered(f, events, key, t);
    OrderedLog(s, s.log, key, t);
  }

  lemma {:induction false} LastReading<S>(s: State<Request, Answer, S>, events: seq<Event<Request>>, key: Key) returns (t: real)
    ensures forall i :: 0 <= i < |events| && StartsOn(s, events[i], key) ==> events[i].input.now <= t
  {
    t := 0.0;
    if events != [] {
      var e := events[|events| - 1];
      var before := LastReading(s, events[..|events| - 1], key);
      t := if StartsOn(s, e, key) then Max(before, e.input.now) else before;
    }
  }

  // ----- What is granted --------------------------------------------------------------------

  /** Units the results granted to requests made at a time inside. */
  function GrantedBy(requests: seq<Request>, results: seq<Answer>, inside: real -> bool): real
    requires |requests| == |results|
    decreases requests
  {
    if requests == [] then 0.0
    else
      (if requests[0].op.Consume? && results[0].Some? && results[0].value.allowed && inside(requests[0].now)
       then requests[0].op.units else 0.0)
      + GrantedBy(requests[1..], results[1..], inside)
  }

  // ----- The token bucket -------------------------------------------------------------------

  type BucketSlot = Entry<TokenBucket.Bucket>

  /** The guarded body of the limiter's operations, over the expiring store. */
  function BucketBody(c: TokenBucket.Config): (Request, Option<BucketSlot>) -> Effect<Answer, BucketSlot>
    requires TokenBucket.ValidConfig(c)
  {
    (r: Request, slot: Option<BucketSlot>) =>
      Effect(TokenBucket.ResultOf(c, Value(Live(slot, r.now)), r), TokenBucket.SlotAfter(c, slot, r))
  }

  lemma {:induction false} BucketResults(c: TokenBucket.Config, slot: Option<BucketSlot>, requests: seq<Request>)
    requires TokenBucket.ValidConfig(c)
    ensures ResultsFrom(BucketBody(c), slot, requests) == TokenBucket.ExpiringResults(c, slot, requests)
    decreases requests
  {
    if requests != [] {
      BucketResults(c, TokenBucket.SlotAfter(c, slot, requests[0]), requests[1..]);
    }
  }

  lemma {:induction false} BucketGrants(c: TokenBucket.Config, state: Option<TokenBucket.Bucket>,
                                        requests: seq<Request>, from: real, until: real)
    requires TokenBucket.ValidConfig(c)
    ensures |TokenBucket.Results(c, state, requests)| == |requests|
    ensures GrantedBy(requests, TokenBucket.Results(c, state, requests), t => from <= t <= until)
         == TokenBucket.Granted(c, state, requests, from, until)
    decreases requests
  {
    if requests != [] {
      var next := TokenBucket.StateAfter(c, state, requests[0]);
      BucketGrants(c, next, requests[1..], from, until);
      assert TokenBucket.Results(c, state, requests)[1..] == TokenBucket.Results(c, next, requests[1..]);
    }
  }

  /**
   In every interleaving, if the clock does not go back on the key, calls on the key are granted no
   more than the bucket allows in [from, until].
   */
  lemma {:induction false} ConcurrentBucketBound(c: TokenBucket.Config, events: seq<Event<Request>>, key: Key, from: real, until: real)
    requires TokenBucket.ValidConfig(c) && from <= until
    requires Run(BucketBody(c), events).Some? && GoodStarts(Run(BucketBody(c), events).value, events, key)
    ensures var log := Run(BucketBody(c), events).value.log;
            var requests, results := InputsOn(log, key), ResultsOn(log, key);
            && |results| == |requests|
            && results == TokenBucket.Results(c, None, requests)
            && GrantedBy(requests, results, t => from <= t <= until)
                 <= c.capacity + ResetBudget(c.capacity, requests, from, until) + c.ratePerMs * (until - from)
  {
    var log := Run(BucketBody(c), events).value.log;
    var requests := InputsOn(log, key);
    EveryRunIsSerial(BucketBody(c), events);
    KeyIsSequential(BucketBody(c), log, key);
    BucketResults(c, None, requests);
    KeyIsSorted(BucketBody(c), events, key);
    TokenBucket.ExpiryInvisible(c, requests);
    BucketGrants(c, None, requests, from, until);
    TokenBucket.BucketBound(c, requests, from, until);
  }

  // ----- The fixed window -------------------------------------------------------------------

  type WindowSlot = Entry<FixedWindow.Window>

  function WindowBody(c: FixedWindow.Config): (Request, Option<WindowSlot>) -> Effect<Answer, WindowSlot> {
    (r: Request, slot: Option<WindowSlot>) =>
      Effect(FixedWindow.ResultOf(c, Value(Live(slot, r.now)), r), FixedWindow.SlotAfter(c, slot, r))
  }

  lemma {:induction false} WindowResults(c: FixedWindow.Config, slot: Option<WindowSlot>, requests: seq<Request>)
    ensures ResultsFrom(WindowBody(c), slot, requests) == FixedWindow.ExpiringResults(c, slot, requests)
    decreases requests
  {
    if requests != [] {
      WindowResults(c, FixedWindow.SlotAfter(c, slot, requests[0]), requests[1..]);
    }
  }

  lemma {:induction false} WindowGrants(c: FixedWindow.Config, state: Option<FixedWindow.Window>, requests: seq<Request>, from: real)
    ensures |FixedWindow.Results(c, state, requests)| == |requests|
    ensures GrantedBy(requests, FixedWindow.Results(c, state, requests), t => from <= t < from + c.windowMs)
         == FixedWindow.Granted(c, state, requests, from)
    decreases requests
  {
    if requests != [] {
      var next := FixedWindow.StateAfter(c, state, requests[0]);
      WindowGrants(c, next, requests[1..], from);
      assert FixedWindow.Results(c, state, requests)[1..] == FixedWindow.Results(c, next, requests[1..]);
    }
  }

  /**
   In every interleaving, if the clock does not go back on the key, calls on the key are granted less
   than twice the limit in any half-open window length, and a limit more per reset in it.
   */
  lemma {:induction false} ConcurrentWindowBound(c: FixedWindow.Config, events: seq<Event<Request>>, key: Key, from: real)
    requires FixedWindow.ValidConfig(c)
    requires Run(WindowBody(c), events).Some? && GoodStarts(Run(WindowBody(c), events).value, events, key)
    ensures var log := Run(WindowBody(c), events).value.log;
            var requests, results := InputsOn(log, key), ResultsOn(log, key);
            && |results| == |requests|
            && results == FixedWindow.Results(c, None, requests)
            && GrantedBy(requests, results, t => from <= t < from + c.windowMs)
                 < 2.0 * c.limit + FixedWindow.ResetsIn(c, requests, from)
  {
    var log := Run(WindowBody(c), events).value.log;
    var requests := InputsOn(log, key);
    EveryRunIsSerial(WindowBody(c), events);
    KeyIsSequential(WindowBody(c), log, key);
    WindowResults(c, None, requests);
    KeyIsSorted(WindowBody(c), events, key);
    FixedWindow.ExpiryInvisible(c, requests);
    WindowGrants(c, None, requests, from);
    FixedWindow.WindowBound(c, requests, from);
  }
}
