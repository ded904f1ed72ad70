/** The fixed window limiter over the expiring store. */
module FixedWindow {
  import opened ExpiringStore

  datatype Config = Config(limit: real, windowMs: real)

  predicate ValidConfig(c: Config) {
    c.limit > 0.0 && c.windowMs > 0.0
  }

  datatype Window = Window(count: real, windowStart: real)

  function Evaluate(c: Config, state: Option<Window>, now: real): Window {
    if state.None? || now - state.value.windowStart >= c.windowMs then Window(0.0, now) else state.value
  }

  function ToResult(c: Config, w: Window, now: real, allowed: bool): Result {
    var resetAt := w.windowStart + c.windowMs;
    Result(allowed, c.limit, Max(0.0, c.limit - w.count), resetAt,
           if allowed then 0.0 else Max(0.0, resetAt - now))
  }

  predicate Allowed(c: Config, state: Option<Window>, now: real, units: real) {
    Evaluate(c, state, now).count + units <= c.limit
  }

  function Counted(c: Config, state: Option<Window>, now: real, units: real): Window {
    var w := Evaluate(c, state, now);
    Window(w.count + units, w.windowStart)
  }

  function ResultOf(c: Config, state: Option<Window>, r: Request): Option<Result> {
    var w := Evaluate(c, state, r.now);
    match r.op
    case Consume(units) =>
      if Allowed(c, state, r.now, units) then Some(ToResult(c, Counted(c, state, r.now, units), r.now, true))
      else Some(ToResult(c, w, r.now, false))
    case Peek => Some(ToResult(c, w, r.now, w.count < c.limit))
    case Reset => None
  }

  /** The stored state after a request: only a granted one is written. */
  function StateAfter(c: Config, state: Option<Window>, r: Request): Option<Window> {
    match r.op
    case Consume(units) =>
      if Allowed(c, state, r.now, units) then Some(Counted(c, state, r.now, units)) else state
    case Peek => state
    case Reset => None
  }

  function Results(c: Config, state: Option<Window>, requests: seq<Request>): seq<Option<Result>>
    decreases requests
  {
    if requests == [] then []
    else [ResultOf(c, state, requests[0])] + Results(c, StateAfter(c, state, requests[0]), requests[1..])
  }

  // ----- The bound ----------------------------------------------------------------------

  /** Units one request is granted, if its time is in [from, from + windowMs). */
  function Grant(c: Config, state: Option<Window>, r: Request, from: real): real {
    if r.op.Consume? && from <= r.now < from + c.windowMs && Allowed(c, state, r.now, r.op.units)
    then r.op.units else 0.0
  }

  function Granted(c: Config, state: Option<Window>, requests: seq<Request>, from: real): real
    decreases requests
  {
    if requests == [] then 0.0
    else
      Grant(c, state, requests[0], from) + Granted(c, StateAfter(c, state, requests[0]), requests[1..], from)
  }

  ghost predicate Sane(c: Config, state: Option<Window>) {
    state.Some? ==> 0.0 < state.value.count <= c.limit
  }

  /** What the interval can still be granted: the rest of the open window and one window more. */
  function Potential(c: Config, state: Option<Window>, from: real): real {
    if state.None? then c.limit
    else if state.value.windowStart >= from then c.limit - state.value.count
    else 2.0 * c.limit - state.value.count
  }

  function ResetsIn(c: Config, requests: seq<Request>, from: real): (sum: real)
    requires ValidConfig(c)
    ensures sum >= 0.0
  {
    ResetBudget(c.limit, requests, from, from + c.windowMs)
  }

  lemma StepPotential(c: Config, state: Option<Window>, r: Request, from: real)
    requires ValidConfig(c) && Sane(c, state)
    requires r.op.Consume? ==> r.op.units > 0.0
    ensures Sane(c, StateAfter(c, state, r))
    ensures from <= r.now && !r.op.Reset? ==>
              Grant(c, state, r, from) + Potential(c, StateAfter(c, state, r), from) <= Potential(c, state, from)
              || r.now >= from + c.windowMs
  {
  }

  lemma LaterOnes(requests: seq<Request>)
    requires requests != [] && Sorted(requests) && PositiveCosts(requests)
    ensures Sorted(requests[1..]) && PositiveCosts(requests[1..])
    ensures forall i :: 0 <= i < |requests[1..]| ==> requests[0].now <= requests[1..][i].now
  {
  }

  lemma {:induction false} NothingAfter(c: Config, state: Option<Window>, requests: seq<Request>, from: real)
    requires forall i :: 0 <= i < |requests| ==> requests[i].now >= from + c.windowMs
    ensures Granted(c, state, requests, from) == 0.0
    decreases requests
  {
    if requests != [] {
      NothingAfter(c, StateAfter(c, state, requests[0]), requests[1..], from);
    }
  }

  lemma {:induction false} GrantedFrom(c: Config, state: Option<Window>, requests: seq<Request>, from: real)
    requires ValidConfig(c) && Sane(c, state) && Sorted(requests) && PositiveCosts(requests)
    requires forall i :: 0 <= i < |requests| ==> from <= requests[i].now
    ensures Granted(c, state, requests, from)
         <= Potential(c, state, from) + ResetsIn(c, requests, from)
    decreases requests
  {
    if requests == [] || requests[0].now >= from + c.windowMs {
      NothingAfter(c, state, requests, from);
    } else {
      LaterOnes(requests);
      StepPotential(c, state, requests[0], from);
      GrantedFrom(c, StateAfter(c, state, requests[0]), requests[1..], from);
    }
  }

  lemma {:induction false} GrantedWithin(c: Config, state: Option<Window>, requests: seq<Request>, from: real)
    requires ValidConfig(c) && Sane(c, state) && Sorted(requests) && PositiveCosts(requests)
    ensures Granted(c, state, requests, from) < 2.0 * c.limit + ResetsIn(c, requests, from)
    decreases requests
  {
    if requests == [] || requests[0].now >= from {
      GrantedFrom(c, state, requests, from);
    } else {
      LaterOnes(requests);
      StepPotential(c, state, requests[0], from);
      GrantedWithin(c, StateAfter(c, state, requests[0]), requests[1..], from);
    }
  }

  /**
   With a clock that never goes back, any half-open interval of one window length is granted
   less than twice the limit, and one limit more for each reset in it.
   */
  lemma {:induction false} WindowBound(c: Config, requests: seq<Request>, from: real)
    requires ValidConfig(c) && Sorted(requests) && PositiveCosts(requests)
    ensures Granted(c, None, requests, from) < 2.0 * c.limit + ResetsIn(c, requests, from)
  {
    GrantedWithin(c, None, requests, from);
  }

  /** Twice the limit is approached as closely as one likes. */
  lemma {:induction false} WindowBoundIsTight(c: Config, gap: real)
    requires ValidConfig(c) && 0.0 < gap < c.limit
    ensures exists requests, from ::
              Sorted(requests) && PositiveCosts(requests)
              && ResetsIn(c, requests, from) == 0.0
              && Granted(c, None, requests, from) == 2.0 * c.limit - gap
  {
    var w := c.windowMs;
    var first := Request(Consume(gap), 0.0);
    var second := Request(Consume(c.limit - gap), w / 2.0);
    var third := Request(Consume(c.limit), w);
    var requests := [first, second, third];
    var from := w / 2.0;
    assert requests[1..] == [second, third] && [second, third][1..] == [third] && [third][1..] == [];
    var s1 := StateAfter(c, None, first);
    assert s1 == Some(Window(gap, 0.0));
    var s2 := StateAfter(c, s1, second);
    assert s2 == Some(Window(c.limit, 0.0));
    var s3 := StateAfter(c, s2, third);
    assert Granted(c, s3, [], from) == 0.0;
    assert Granted(c, s2, [third], from) == c.limit;
    assert Granted(c, s1, [second, third], from) == 2.0 * c.limit - gap;
    assert Granted(c, None, requests, from) == 2.0 * c.limit - gap;
    assert Sorted(requests) && PositiveCosts(requests) && ResetsIn(c, requests, from) == 0.0;
  }

  /**
   A denied request that fits the window succeeds after a wait exactly when the wait is at
   least the reported one, as long as nothing else is consumed.
   */
  lemma RetryAfterIsLeast(c: Config, state: Option<Window>, now: real, units: real, wait: real)
    requires ValidConfig(c) && 0.0 < units <= c.limit && wait >= 0.0
    requires !Allowed(c, state, now, units)
    ensures Allowed(c, state, now + wait, units)
       <==> wait >= ResultOf(c, state, Request(Consume(units), now)).value.retryAfterMs
  {
  }

  /** After a consume or a peek, more units are granted at once exactly up to the reported rest. */
  lemma {:induction false} RemainingIsExact(c: Config, state: Option<Window>, r: Request, units: real)
    requires ValidConfig(c) && !r.op.Reset? && units > 0.0
    ensures Allowed(c, StateAfter(c, state, r), r.now, units) <==> units <= ResultOf(c, state, r).value.remaining
    ensures ResultOf(c, state, r).value.limit == c.limit
  {
  }

  /** The reported reset is the first time a new window opens, if one is open after the request; otherwise one length away. */
  lemma {:induction false} ResetAtIsFirst(c: Config, state: Option<Window>, r: Request, t: real)
    requires ValidConfig(c) && Sane(c, state) && !r.op.Reset? && (r.op.Consume? ==> r.op.units > 0.0) && r.now <= t
    ensures var res, after := ResultOf(c, state, r).value, StateAfter(c, state, r);
      if after.Some? && Evaluate(c, after, r.now).count > 0.0
      then Evaluate(c, after, t) == Window(0.0, t) <==> t >= res.resetAt
      else res.resetAt == r.now + c.windowMs
  {
  }

  /** A refused request reports the time to the reset, a granted one no wait. */
  lemma {:induction false} WaitIsToTheReset(c: Config, state: Option<Window>, r: Request)
    requires ValidConfig(c) && !r.op.Reset?
    ensures var res := ResultOf(c, state, r).value;
      && (res.allowed ==> res.retryAfterMs == 0.0)
      && (!res.allowed ==> r.now + res.retryAfterMs == res.resetAt)
      && (r.op.Peek? ==> (res.allowed <==> res.remaining > 0.0))
      && (r.op.Consume? ==> (res.allowed <==> Allowed(c, state, r.now, r.op.units)))
  {
  }

  lemma OversizedNeverAllowed(c: Config, state: Option<Window>, now: real, units: real)
    requires ValidConfig(c) && Sane(c, state) && units > c.limit
    ensures !Allowed(c, state, now, units)
  {
  }

  // ----- Expiry is invisible ------------------------------------------------------------

  function Stored(c: Config, w: Window, now: real): Entry<Window> {
    Entry(w, now + Max(1.0, w.windowStart + c.windowMs - now))
  }

  /** The store slot after a request, on the store that drops expired entries. */
  function SlotAfter(c: Config, slot: Option<Entry<Window>>, r: Request): Option<Entry<Window>> {
    var live := Live(slot, r.now);
    match r.op
    case Consume(units) =>
      if Allowed(c, Value(live), r.now, units) then Some(Stored(c, Counted(c, Value(live), r.now, units), r.now))
      else live
    case Peek => live
    case Reset => None
  }

  function ExpiringResults(c: Config, slot: Option<Entry<Window>>, requests: seq<Request>): seq<Option<Result>>
    decreases requests
  {
    if requests == [] then []
    else
      [ResultOf(c, Value(Live(slot, requests[0].now)), requests[0])]
      + ExpiringResults(c, SlotAfter(c, slot, requests[0]), requests[1..])
  }

  /** The slot holds the kept state, or the kept window has ended by `now`. */
  ghost predicate SameWindow(c: Config, kept: Option<Window>, slot: Option<Entry<Window>>, now: real) {
    if slot.Some? then
      kept == Some(slot.value.value) && slot.value.expiresAt >= slot.value.value.windowStart + c.windowMs
    else
      kept.None? || now - kept.value.windowStart >= c.windowMs
  }

  lemma {:induction false} ExpiryInvisibleFrom(c: Config, kept: Option<Window>, slot: Option<Entry<Window>>,
                                               requests: seq<Request>, now: real)
    requires ValidConfig(c) && Sorted(requests) && SameWindow(c, kept, slot, now)
    requires requests != [] ==> now <= requests[0].now
    ensures ExpiringResults(c, slot, requests) == Results(c, kept, requests)
    decreases requests
  {
    if requests != [] {
      var r := requests[0];
      assert SameWindow(c, kept, Live(slot, r.now), r.now);
      assert Evaluate(c, kept, r.now) == Evaluate(c, Value(Live(slot, r.now)), r.now);
      ExpiryInvisibleFrom(c, StateAfter(c, kept, r), SlotAfter(c, slot, r), requests[1..], r.now);
    }
  }

  /** The results over the expiring store are those over a store that keeps everything. */
  lemma {:induction false} ExpiryInvisible(c: Config, requests: seq<Request>)
    requires ValidConfig(c) && Sorted(requests)
    ensures ExpiringResults(c, None, requests) == Results(c, None, requests)
  {
    if requests != [] {
      ExpiryInvisibleFrom(c, None, None, requests, requests[0].now);
    }
  }

  // ----- The limiter --------------------------------------------------------------------

  class Limiter {
    const config: Config
    var entries: map<string, Entry<Window>>

    function Slot(key: string): Option<Entry<Window>>
      reads this
    {
      if key in entries then Some(entries[key]) else None
    }

    constructor (config: Config)
      ensures this.config == config && entries == map[]
    {
      this.config := config;
      entries := map[];
    }

    /** The store's `get`: drops the entry of `key` if it has expired. */
    method Get(key: string, now: real) returns (entry: Option<Entry<Window>>)
      modifies this
      ensures entry == Live(old(Slot(key)), now) == Slot(key)
      ensures entry.Some? <==> old(Slot(key)).Some? && now < old(Slot(key)).value.expiresAt
      ensures forall k :: k != key ==> (k in entries <==> k in old(entries))
      ensures forall k :: k != key && k in entries ==> entries[k] == old(entries)[k]
    {
      entry := Live(Slot(key), now);
      if entry == None {
        entries := entries - {key};
      }
    }

    /** Runs one request on `key`; a cost that is not positive is refused untouched. */
    method Handle(key: string, r: Request) returns (result: Option<Result>, invalid: bool)
      modifies this
      ensures invalid == (r.op.Consume? && r.op.units <= 0.0)
      ensures invalid ==> result == None && entries == old(entries)
      ensures !invalid ==> result == ResultOf(config, Value(Live(old(Slot(key)), r.now)), r)
      ensures !invalid ==> Slot(key) == SlotAfter(config, old(Slot(key)), r)
      ensures forall k :: k != key ==> (k in entries <==> k in old(entries))
      ensures forall k :: k != key && k in entries ==> entries[k] == old(entries)[k]
    {
      if r.op.Consume? && r.op.units <= 0.0 {
        return None, true;
      }
      if r.op.Reset? {
        entries := entries - {key};
        return None, false;
      }
      var entry := Get(key, r.now);
      var state := Evaluate(config, Value(entry), r.now);
      if r.op.Peek? {
        return Some(ToResult(config, state, r.now, state.count < config.limit)), false;
      }
      var units := r.op.units;
      if state.count + units > config.limit {
        return Some(ToResult(config, state, r.now, false)), false;
      }
      var next := Window(state.count + units, state.windowStart);
      entries := entries[key := Stored(config, next, r.now)];
      return Some(ToResult(config, next, r.now, true)), false;
    }
  }
}
