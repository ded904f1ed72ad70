/** The token bucket limiter over the expiring store. */
module TokenBucket {
  import opened ExpiringStore

  datatype Config = Config(capacity: real, ratePerMs: real)

  predicate ValidConfig(c: Config) {
    c.capacity > 0.0 && c.ratePerMs > 0.0
  }

  /** The limiter's settings; None where one of the three options is not positive. */
  function Configure(capacity: real, refillTokens: real, refillIntervalMs: real): (c: Option<Config>)
    ensures c.Some? <==> capacity > 0.0 && refillTokens > 0.0 && refillIntervalMs > 0.0
    ensures c.Some? ==> ValidConfig(c.value) && c.value.ratePerMs * refillIntervalMs == refillTokens
  {
    if capacity > 0.0 && refillTokens > 0.0 && refillIntervalMs > 0.0 then
      QuotientPositive(refillTokens, refillIntervalMs);
      Some(Config(capacity, refillTokens / refillIntervalMs))
    else None
  }

  lemma QuotientPositive(x: real, y: real)
    requires x > 0.0 && y > 0.0
    ensures x / y > 0.0
  {
    assert (x / y) * y == x;
    if x / y <= 0.0 {
      ScaleMonotone(y, x / y, 0.0);
    }
  }

  datatype Bucket = Bucket(tokens: real, updatedAt: real)

  function CurrentTokens(c: Config, state: Option<Bucket>, now: real): real
    requires ValidConfig(c)
  {
    match state
    case None => c.capacity
    case Some(b) => Min(c.capacity, b.tokens + Max(0.0, now - b.updatedAt) * c.ratePerMs)
  }

  function ToResult(c: Config, tokens: real, now: real, allowed: bool): Result
    requires ValidConfig(c)
  {
    Result(allowed, c.capacity, tokens.Floor as real, now + Ceil((c.capacity - tokens) / c.ratePerMs) as real,
           if allowed then 0.0 else Max(1.0, Ceil(1.0 / c.ratePerMs) as real))
  }

  predicate Allowed(c: Config, state: Option<Bucket>, now: real, units: real)
    requires ValidConfig(c)
  {
    CurrentTokens(c, state, now) >= units
  }

  function ConsumeResult(c: Config, state: Option<Bucket>, now: real, units: real): (r: Result)
    requires ValidConfig(c)
    ensures r.allowed == Allowed(c, state, now, units)
  {
    var tokens := CurrentTokens(c, state, now);
    if tokens < units then
      ToResult(c, tokens, now, false).(retryAfterMs := Ceil((units - tokens) / c.ratePerMs) as real)
    else ToResult(c, tokens - units, now, true)
  }

  function ConsumeState(c: Config, state: Option<Bucket>, now: real, units: real): Bucket
    requires ValidConfig(c)
  {
    var tokens := CurrentTokens(c, state, now);
    Bucket(if tokens < units then tokens else tokens - units, now)
  }

  function ResultOf(c: Config, state: Option<Bucket>, r: Request): Option<Result>
    requires ValidConfig(c)
  {
    match r.op
    case Consume(units) => Some(ConsumeResult(c, state, r.now, units))
    case Peek =>
      var tokens := CurrentTokens(c, state, r.now);
      Some(ToResult(c, tokens, r.now, tokens >= 1.0))
    case Reset => None
  }

  /** The stored state after a request, on a store that never expires. */
  function StateAfter(c: Config, state: Option<Bucket>, r: Request): Option<Bucket>
    requires ValidConfig(c)
  {
    match r.op
    case Consume(units) => Some(ConsumeState(c, state, r.now, units))
    case Peek => state
    case Reset => None
  }

  function Results(c: Config, state: Option<Bucket>, requests: seq<Request>): seq<Option<Result>>
    requires ValidConfig(c)
    decreases requests
  {
    if requests == [] then []
    else [ResultOf(c, state, requests[0])] + Results(c, StateAfter(c, state, requests[0]), requests[1..])
  }

  // ----- The bound ----------------------------------------------------------------------

  /** Units one request is granted, if its time is in [from, until]. */
  function Grant(c: Config, state: Option<Bucket>, r: Request, from: real, until: real): real
    requires ValidConfig(c)
  {
    if r.op.Consume? && from <= r.now <= until && Allowed(c, state, r.now, r.op.units)
    then r.op.units else 0.0
  }

  function Granted(c: Config, state: Option<Bucket>, requests: seq<Request>, from: real, until: real): real
    requires ValidConfig(c)
    decreases requests
  {
    if requests == [] then 0.0
    else
      Grant(c, state, requests[0], from, until)
      + Granted(c, StateAfter(c, state, requests[0]), requests[1..], from, until)
  }

  lemma TokensGrow(c: Config, state: Option<Bucket>, t: real, now: real)
    requires ValidConfig(c) && t <= now
    ensures CurrentTokens(c, state, t) <= CurrentTokens(c, state, now)
    ensures CurrentTokens(c, state, now) <= CurrentTokens(c, state, t) + c.ratePerMs * (now - t)
  {
    if state.Some? {
      var b := state.value;
      var from, until := Max(0.0, t - b.updatedAt), Max(0.0, now - b.updatedAt);
      assert from <= until <= from + (now - t);
      LevelGrows(c, b.tokens, from, until, now - t);
    } else {
      GrowProduct(c.ratePerMs, 0.0, 0.0, now - t);
    }
  }

  lemma LevelGrows(c: Config, tokens: real, a: real, b: real, d: real)
    requires ValidConfig(c) && a <= b <= a + d
    ensures Min(c.capacity, tokens + a * c.ratePerMs) <= Min(c.capacity, tokens + b * c.ratePerMs)
    ensures Min(c.capacity, tokens + b * c.ratePerMs)
         <= Min(c.capacity, tokens + a * c.ratePerMs) + c.ratePerMs * d
  {
    var x, y, more := a * c.ratePerMs, b * c.ratePerMs, c.ratePerMs * d;
    GrowProduct(c.ratePerMs, a, b, d);
    assert x <= y <= x + more;
    MinGrows(c.capacity, tokens + x, tokens + y, more);
  }

  lemma GrowProduct(rate: real, a: real, b: real, d: real)
    requires rate > 0.0 && a <= b <= a + d
    ensures a * rate <= b * rate <= a * rate + rate * d
    ensures rate * d >= 0.0
  {
    ScaleMonotone(rate, a, b);
    ScaleMonotone(rate, b, a + d);
    ScaleMonotone(rate, 0.0, d);
    assert rate * (a + d) == rate * a + rate * d;
  }

  lemma MinGrows(cap: real, x: real, y: real, d: real)
    requires x <= y <= x + d
    ensures Min(cap, x) <= Min(cap, y) <= Min(cap, x) + d
  {
  }

  lemma TokensAfterConsume(c: Config, state: Option<Bucket>, now: real, units: real)
    requires ValidConfig(c)
    ensures CurrentTokens(c, Some(ConsumeState(c, state, now, units)), now)
         <= if Allowed(c, state, now, units)
            then CurrentTokens(c, state, now) - units else CurrentTokens(c, state, now)
  {
  }

  lemma LaterOnes(requests: seq<Request>)
    requires requests != [] && Sorted(requests)
    ensures Sorted(requests[1..])
    ensures forall i :: 0 <= i < |requests[1..]| ==> requests[0].now <= requests[1..][i].now
  {
  }

  lemma {:induction false} NothingAfter(c: Config, state: Option<Bucket>, requests: seq<Request>, from: real, until: real)
    requires ValidConfig(c)
    requires forall i :: 0 <= i < |requests| ==> requests[i].now > until
    ensures Granted(c, state, requests, from, until) == 0.0
    decreases requests
  {
    if requests != [] {
      NothingAfter(c, StateAfter(c, state, requests[0]), requests[1..], from, until);
    }
  }

  ghost predicate Sane(c: Config, state: Option<Bucket>) {
    state.Some? ==> state.value.tokens >= 0.0
  }

  lemma TokensNonnegative(c: Config, state: Option<Bucket>, now: real)
    requires ValidConfig(c) && Sane(c, state)
    ensures 0.0 <= CurrentTokens(c, state, now) <= c.capacity
  {
    if state.Some? {
      ScaleMonotone(c.ratePerMs, 0.0, Max(0.0, now - state.value.updatedAt));
    }
  }

  lemma SaneAfter(c: Config, state: Option<Bucket>, r: Request)
    requires ValidConfig(c) && Sane(c, state)
    ensures Sane(c, StateAfter(c, state, r))
  {
    TokensNonnegative(c, state, r.now);
  }

  /** A reset grants nothing but fills the bucket. */
  function Refill(c: Config, r: Request): real {
    if r.op.Reset? then c.capacity else 0.0
  }

  lemma StepTokens(c: Config, state: Option<Bucket>, r: Request, from: real, at: real, until: real)
    requires ValidConfig(c) && Sane(c, state) && from <= at <= r.now <= until
    ensures Grant(c, state, r, from, until) + CurrentTokens(c, StateAfter(c, state, r), r.now)
         <= CurrentTokens(c, state, at) + c.ratePerMs * (r.now - at) + Refill(c, r)
  {
    var before, here := CurrentTokens(c, state, at), CurrentTokens(c, state, r.now);
    var earned := c.ratePerMs * (r.now - at);
    TokensNonnegative(c, state, r.now);
    TokensNonnegative(c, state, at);
    GrowProduct(c.ratePerMs, 0.0, 0.0, r.now - at);
    assert 0.0 <= here <= before + earned by { TokensGrow(c, state, at, r.now); }
    match r.op
    case Consume(units) =>
      TokensAfterConsume(c, state, r.now, units);
    case Peek =>
    case Reset =>
  }

  /** What holds from time `at` on: the tokens at hand, the refill and the resets bound the grants. */
  ghost predicate Bounded(c: Config, state: Option<Bucket>, requests: seq<Request>, from: real, at: real, until: real)
    requires ValidConfig(c)
  {
    Granted(c, state, requests, from, until)
      <= CurrentTokens(c, state, at) + c.ratePerMs * (until - at) + ResetBudget(c.capacity, requests, from, until)
  }

  lemma NothingBounded(c: Config, state: Option<Bucket>, requests: seq<Request>, from: real, at: real, until: real)
    requires ValidConfig(c) && Sane(c, state) && at <= until
    requires forall i :: 0 <= i < |requests| ==> requests[i].now > until
    ensures Bounded(c, state, requests, from, at, until)
  {
    NothingAfter(c, state, requests, from, until);
    assert CurrentTokens(c, state, at) >= 0.0 by { TokensNonnegative(c, state, at); }
    assert c.ratePerMs * (until - at) >= 0.0 by { GrowProduct(c.ratePerMs, 0.0, 0.0, until - at); }
  }

  lemma StepBounded(c: Config, state: Option<Bucket>, requests: seq<Request>, from: real, at: real, until: real)
    requires ValidConfig(c) && Sane(c, state) && requests != []
    requires from <= at <= requests[0].now <= until
    requires Bounded(c, StateAfter(c, state, requests[0]), requests[1..], from, requests[0].now, until)
    ensures Bounded(c, state, requests, from, at, until)
  {
    var r, rest := requests[0], requests[1..];
    var next := StateAfter(c, state, r);
    StepTokens(c, state, r, from, at, until);
    SplitProduct(c.ratePerMs, at, r.now, until);
    AddUp(Grant(c, state, r, from, until), Granted(c, next, rest, from, until),
          CurrentTokens(c, state, at), CurrentTokens(c, next, r.now),
          c.ratePerMs * (r.now - at), c.ratePerMs * (until - r.now), c.ratePerMs * (until - at),
          Refill(c, r), ResetBudget(c.capacity, rest, from, until));
  }

  lemma AddUp(grant: real, later: real, before: real, here: real,
              earned1: real, earned2: real, earned: real, refill: real, resets: real)
    requires grant + here <= before + earned1 + refill
    requires later <= here + earned2 + resets
    requires earned == earned1 + earned2
    ensures grant + later <= before + earned + (refill + resets)
  {
  }

  lemma {:induction false} GrantedFrom(c: Config, state: Option<Bucket>, requests: seq<Request>,
                                       from: real, at: real, until: real)
    requires ValidConfig(c) && Sane(c, state) && Sorted(requests) && from <= at <= until
    requires forall i :: 0 <= i < |requests| ==> at <= requests[i].now
    ensures Bounded(c, state, requests, from, at, until)
    decreases requests
  {
    if requests == [] || requests[0].now > until {
      NothingBounded(c, state, requests, from, at, until);
    } else {
      LaterOnes(requests);
      SaneAfter(c, state, requests[0]);
      GrantedFrom(c, StateAfter(c, state, requests[0]), requests[1..], from, requests[0].now, until);
      StepBounded(c, state, requests, from, at, until);
    }
  }

  lemma SplitProduct(rate: real, a: real, b: real, d: real)
    ensures rate * (d - a) == rate * (b - a) + rate * (d - b)
  {
    assert d - a == (b - a) + (d - b);
  }

  lemma {:induction false} GrantedWithin(c: Config, state: Option<Bucket>, requests: seq<Request>, from: real, until: real)
    requires ValidConfig(c) && Sane(c, state) && Sorted(requests) && from <= until
    ensures Granted(c, state, requests, from, until)
         <= c.capacity + ResetBudget(c.capacity, requests, from, until) + c.ratePerMs * (until - from)
    decreases requests
  {
    if requests == [] || requests[0].now >= from {
      assert CurrentTokens(c, state, from) <= c.capacity by { TokensNonnegative(c, state, from); }
      GrantedFrom(c, state, requests, from, from, until);
    } else {
      var r, rest := requests[0], requests[1..];
      LaterOnes(requests);
      SaneAfter(c, state, r);
      GrantedWithin(c, StateAfter(c, state, r), rest, from, until);
      assert Granted(c, state, requests, from, until) == Granted(c, StateAfter(c, state, r), rest, from, until);
      assert ResetBudget(c.capacity, requests, from, until) == ResetBudget(c.capacity, rest, from, until);
    }
  }

  /**
   With a clock that never goes back, the units granted in [from, until] are at most the
   capacity, once more for each reset in that time, plus the refill.
   */
  lemma {:induction false} BucketBound(c: Config, requests: seq<Request>, from: real, until: real)
    requires ValidConfig(c) && Sorted(requests) && from <= until
    ensures Granted(c, None, requests, from, until)
         <= c.capacity + ResetBudget(c.capacity, requests, from, until) + c.ratePerMs * (until - from)
  {
    GrantedWithin(c, None, requests, from, until);
  }

  // ----- The reported wait --------------------------------------------------------------

  /** After a denial, the same request a wait later. */
  function AllowedAfter(c: Config, state: Option<Bucket>, now: real, units: real, wait: real): bool
    requires ValidConfig(c)
  {
    Allowed(c, Some(ConsumeState(c, state, now, units)), now + wait, units)
  }

  lemma WaitForTokens(c: Config, tokens: real, units: real, q: real, wait: int)
    requires ValidConfig(c) && units <= c.capacity && q * c.ratePerMs == units - tokens
    ensures Min(c.capacity, tokens + (wait as real) * c.ratePerMs) >= units <==> wait >= Ceil(q)
  {
    if wait >= Ceil(q) {
      ScaleMonotone(c.ratePerMs, q, wait as real);
    } else {
      ScaleStrict(c.ratePerMs, wait as real, q);
    }
  }

  lemma ScaleStrict(k: real, x: real, y: real)
    requires k > 0.0 && x < y
    ensures k * x < k * y
  {
    assert k * y - k * x == k * (y - x);
  }

  /**
   A denied request that fits the bucket succeeds after a whole number of milliseconds exactly
   when that wait is at least the reported one.
   */
  lemma RetryAfterIsLeast(c: Config, state: Option<Bucket>, now: real, units: real, wait: nat)
    requires ValidConfig(c) && units <= c.capacity
    requires !Allowed(c, state, now, units)
    ensures AllowedAfter(c, state, now, units, wait as real)
       <==> wait as real >= ConsumeResult(c, state, now, units).retryAfterMs
  {
    DeniedReport(c, state, now, units);
    WaitIsMissing(c, state, now, units, wait);
    SameOrder(wait, Ceil(Missing(c, CurrentTokens(c, state, now), units)));
  }

  lemma WaitIsMissing(c: Config, state: Option<Bucket>, now: real, units: real, wait: nat)
    requires ValidConfig(c) && units <= c.capacity
    requires !Allowed(c, state, now, units)
    ensures AllowedAfter(c, state, now, units, wait as real) <==> wait >= Ceil(Missing(c, CurrentTokens(c, state, now), units))
  {
    var tokens := CurrentTokens(c, state, now);
    AllowedAfterIs(c, state, now, units, wait as real);
    WaitForTokens(c, tokens, units, Missing(c, tokens, units), wait);
  }

  lemma {:induction false} AllowedAfterIs(c: Config, state: Option<Bucket>, now: real, units: real, wait: real)
    requires ValidConfig(c) && !Allowed(c, state, now, units) && wait >= 0.0
    ensures AllowedAfter(c, state, now, units, wait)
       <==> Min(c.capacity, CurrentTokens(c, state, now) + wait * c.ratePerMs) >= units
  {
    DeniedReport(c, state, now, units);
    LaterTokens(c, CurrentTokens(c, state, now), now, wait);
  }

  lemma {:induction false} SameOrder(a: int, b: int)
    ensures a >= b <==> a as real >= b as real
  {
  }

  /** The refill time, in milliseconds, that brings `tokens` up to `units`. */
  function Missing(c: Config, tokens: real, units: real): (q: real)
    requires ValidConfig(c)
    ensures q * c.ratePerMs == units - tokens
  {
    (units - tokens) / c.ratePerMs
  }

  lemma DeniedReport(c: Config, state: Option<Bucket>, now: real, units: real)
    requires ValidConfig(c) && !Allowed(c, state, now, units)
    ensures var tokens := CurrentTokens(c, state, now);
            ConsumeState(c, state, now, units) == Bucket(tokens, now) &&
            ConsumeResult(c, state, now, units).retryAfterMs == Ceil(Missing(c, tokens, units)) as real
  {
  }

  lemma LaterTokens(c: Config, tokens: real, now: real, wait: real)
    requires ValidConfig(c) && wait >= 0.0
    ensures CurrentTokens(c, Some(Bucket(tokens, now)), now + wait)
         == Min(c.capacity, tokens + wait * c.ratePerMs)
  {
    assert now + wait - now == wait;
  }

  /** What is left at hand after a consume or a peek, and when a caller that leaves the bucket alone finds it full. */
  lemma {:induction false} ReportIsOfState(c: Config, state: Option<Bucket>, r: Request)
    requires ValidConfig(c) && !r.op.Reset? && (r.op.Consume? ==> r.op.units > 0.0)
    ensures var res, left := ResultOf(c, state, r).value, CurrentTokens(c, StateAfter(c, state, r), r.now);
      && res.limit == c.capacity && left <= c.capacity
      && res.remaining == left.Floor as real
      && res.resetAt == r.now + Ceil((c.capacity - left) / c.ratePerMs) as real
  {
    var tokens := CurrentTokens(c, state, r.now);
    if r.op.Consume? {
      var b := ConsumeState(c, state, r.now, r.op.units);
      assert CurrentTokens(c, Some(b), r.now) == Min(c.capacity, b.tokens + 0.0 * c.ratePerMs);
    }
  }

  /** After a consume or a peek, a whole number of units more is granted at once exactly up to the reported rest. */
  lemma {:induction false} RemainingIsExact(c: Config, state: Option<Bucket>, r: Request, n: nat)
    requires ValidConfig(c) && !r.op.Reset? && (r.op.Consume? ==> r.op.units > 0.0)
    ensures Allowed(c, StateAfter(c, state, r), r.now, n as real) <==> n as real <= ResultOf(c, state, r).value.remaining
  {
    ReportIsOfState(c, state, r);
    WholeBelow(CurrentTokens(c, StateAfter(c, state, r), r.now), n);
  }

  lemma {:induction false} WholeBelow(x: real, n: int)
    ensures n as real <= x <==> n as real <= x.Floor as real
  {
    if n as real <= x {
      assert n <= x.Floor;
    }
  }

  /** With a clock that has not gone back, the bucket, left alone, is full after a whole wait exactly from the reset time on. */
  lemma {:induction false} ResetAtIsLeast(c: Config, state: Option<Bucket>, r: Request, wait: nat)
    requires ValidConfig(c) && !r.op.Reset? && (r.op.Consume? ==> r.op.units > 0.0)
    requires state.Some? ==> state.value.updatedAt <= r.now
    ensures CurrentTokens(c, StateAfter(c, state, r), r.now + wait as real) == c.capacity
       <==> r.now + wait as real >= ResultOf(c, state, r).value.resetAt
  {
    var after := StateAfter(c, state, r);
    var q := Missing(c, CurrentTokens(c, after, r.now), c.capacity);
    ReportIsOfState(c, state, r);
    FullAfter(c, after, r.now, q, wait);
    SameOrder(wait, Ceil(q));
  }

  lemma {:induction false} FullAfter(c: Config, state: Option<Bucket>, now: real, q: real, wait: nat)
    requires ValidConfig(c) && (state.Some? ==> state.value.updatedAt <= now)
    requires q * c.ratePerMs == c.capacity - CurrentTokens(c, state, now)
    ensures CurrentTokens(c, state, now + wait as real) == c.capacity <==> wait >= Ceil(q)
  {
    var left := CurrentTokens(c, state, now);
    TokensLater(c, state, now, wait as real);
    WaitForTokens(c, left, c.capacity, q, wait);
  }

  lemma {:induction false} TokensLater(c: Config, state: Option<Bucket>, now: real, wait: real)
    requires ValidConfig(c) && wait >= 0.0 && (state.Some? ==> state.value.updatedAt <= now)
    ensures CurrentTokens(c, state, now + wait) == Min(c.capacity, CurrentTokens(c, state, now) + wait * c.ratePerMs)
  {
    if state.Some? {
      var b := state.value;
      var spent := now - b.updatedAt;
      assert now + wait - b.updatedAt == spent + wait;
      AddRates(spent, wait, c.ratePerMs);
    } else {
      ScaleMonotone(c.ratePerMs, 0.0, wait);
    }
  }

  lemma {:induction false} AddRates(x: real, y: real, rate: real)
    requires x >= 0.0 && y >= 0.0 && rate > 0.0
    ensures (x + y) * rate == x * rate + y * rate && y * rate >= 0.0
  {
    ScaleMonotone(rate, 0.0, y);
  }

  /** A refused peek reports the least whole wait in which one unit is refilled; a granted one no wait. */
  lemma {:induction false} PeekReportsOneUnit(c: Config, state: Option<Bucket>, now: real, wait: nat)
    requires ValidConfig(c)
    ensures var res := ResultOf(c, state, Request(Peek, now)).value;
      && (res.allowed <==> Allowed(c, state, now, 1.0))
      && (res.allowed ==> res.retryAfterMs == 0.0)
      && (!res.allowed ==> (wait as real >= res.retryAfterMs <==> wait as real * c.ratePerMs >= 1.0))
  {
    var q := 1.0 / c.ratePerMs;
    assert q * c.ratePerMs == 1.0;
    QuotientPositive(1.0, c.ratePerMs);
    SameOrder(wait, Ceil(q));
    SameOrder(Ceil(q), 1);
    if wait >= Ceil(q) {
      ScaleMonotone(c.ratePerMs, q, wait as real);
    } else {
      ScaleStrict(c.ratePerMs, wait as real, q);
    }
  }

  /** A request above the capacity is never granted, so no wait it is told is long enough. */
  lemma OversizedNeverAllowed(c: Config, state: Option<Bucket>, now: real, units: real, wait: real)
    requires ValidConfig(c) && units > c.capacity
    ensures !ConsumeResult(c, state, now, units).allowed && !AllowedAfter(c, state, now, units, wait)
  {
  }

  // ----- Expiry is invisible ------------------------------------------------------------

  function FullRefillMs(c: Config): int
    requires ValidConfig(c)
  {
    Ceil(c.capacity / c.ratePerMs)
  }

  function Stored(c: Config, b: Bucket, now: real): Entry<Bucket>
    requires ValidConfig(c)
  {
    Entry(b, now + FullRefillMs(c) as real)
  }

  /** The store slot after a request, on the store that drops expired entries. */
  function SlotAfter(c: Config, slot: Option<Entry<Bucket>>, r: Request): Option<Entry<Bucket>>
    requires ValidConfig(c)
  {
    var live := Live(slot, r.now);
    match r.op
    case Consume(units) => Some(Stored(c, ConsumeState(c, Value(live), r.now, units), r.now))
    case Peek => live
    case Reset => None
  }

  function ExpiringResults(c: Config, slot: Option<Entry<Bucket>>, requests: seq<Request>): seq<Option<Result>>
    requires ValidConfig(c)
    decreases requests
  {
    if requests == [] then []
    else
      [ResultOf(c, Value(Live(slot, requests[0].now)), requests[0])]
      + ExpiringResults(c, SlotAfter(c, slot, requests[0]), requests[1..])
  }

  /** The slot holds the kept state, or the kept state is a full bucket by `now`. */
  ghost predicate SameBudget(c: Config, kept: Option<Bucket>, slot: Option<Entry<Bucket>>, now: real)
    requires ValidConfig(c)
  {
    if slot.Some? then
      kept == Some(slot.value.value) && Sane(c, kept)
      && slot.value.expiresAt == slot.value.value.updatedAt + FullRefillMs(c) as real
    else
      Sane(c, kept) && CurrentTokens(c, kept, now) == c.capacity
  }

  lemma ExpiredIsFull(c: Config, b: Bucket, now: real)
    requires ValidConfig(c) && b.tokens >= 0.0 && now >= b.updatedAt + FullRefillMs(c) as real
    ensures CurrentTokens(c, Some(b), now) == c.capacity
  {
    var q := c.capacity / c.ratePerMs;
    assert q * c.ratePerMs == c.capacity;
    QuotientPositive(c.capacity, c.ratePerMs);
    var waited := now - b.updatedAt;
    assert waited >= q > 0.0;
    assert waited * c.ratePerMs >= c.capacity by { ScaleMonotone(c.ratePerMs, q, waited); }
  }

  lemma StaysFull(c: Config, kept: Option<Bucket>, t: real, now: real)
    requires ValidConfig(c) && Sane(c, kept) && t <= now && CurrentTokens(c, kept, t) == c.capacity
    ensures CurrentTokens(c, kept, now) == c.capacity
  {
    TokensGrow(c, kept, t, now);
    TokensNonnegative(c, kept, now);
  }

  lemma {:induction false} ExpiryInvisibleFrom(c: Config, kept: Option<Bucket>, slot: Option<Entry<Bucket>>,
                                               requests: seq<Request>, now: real)
    requires ValidConfig(c) && Sorted(requests) && SameBudget(c, kept, slot, now)
    requires requests != [] ==> now <= requests[0].now
    ensures ExpiringResults(c, slot, requests) == Results(c, kept, requests)
    decreases requests
  {
    if requests != [] {
      var r := requests[0];
      if slot.None? {
        StaysFull(c, kept, now, r.now);
      } else if r.now >= slot.value.expiresAt {
        ExpiredIsFull(c, slot.value.value, r.now);
      }
      var live := Live(slot, r.now);
      assert SameBudget(c, kept, live, r.now);
      assert CurrentTokens(c, kept, r.now) == CurrentTokens(c, Value(live), r.now);
      TokensNonnegative(c, kept, r.now);
      assert SameBudget(c, StateAfter(c, kept, r), SlotAfter(c, slot, r), r.now);
      LaterOnes(requests);
      ExpiryInvisibleFrom(c, StateAfter(c, kept, r), SlotAfter(c, slot, r), requests[1..], r.now);
    }
  }

  /** The results over the expiring store are those over a store that keeps everything. */
  lemma {:induction false} ExpiryInvisible(c: Config, requests: seq<Request>)
    requires ValidConfig(c) && Sorted(requests)
    ensures ExpiringResults(c, None, requests) == Results(c, None, requests)
  {
    if requests != [] {
      ExpiryInvisibleFrom(c, None, None, requests, requests[0].now);
    }
  }

  // ----- The limiter --------------------------------------------------------------------

  class Limiter {
    const config: Config
    var entries: map<string, Entry<Bucket>>

    predicate Valid() {
      ValidConfig(config)
    }

    function Slot(key: string): Option<Entry<Bucket>>
      reads this
    {
      if key in entries then Some(entries[key]) else None
    }

    constructor (config: Config)
      requires ValidConfig(config)
      ensures Valid() && this.config == config && entries == map[]
    {
      this.config := config;
      entries := map[];
    }

    /** The store's `get`: drops the entry of `key` if it has expired. */
    method Get(key: string, now: real) returns (entry: Option<Entry<Bucket>>)
      modifies this
      ensures entry == Live(old(Slot(key)), now) == Slot(key)
      ensures entry.Some? <==> old(Slot(key)).Some? && now < old(Slot(key)).value.expiresAt
      ensures forall k :: k != key ==> (k in entries <==> k in old(entries))
      ensures forall k :: k != key && k in entries ==> entries[k] == old(entries)[k]
    {
      entry := Live(Slot(key), now);
      if entry == None {
        entries := entries - {key};
      }
    }

    /** Runs one request on `key`; a cost that is not positive is refused untouched. */
    method Handle(key: string, r: Request) returns (result: Option<Result>, invalid: bool)
      requires Valid()
      modifies this
      ensures invalid == (r.op.Consume? && r.op.units <= 0.0)
      ensures invalid ==> result == None && entries == old(entries)
      ensures !invalid ==> result == ResultOf(config, Value(Live(old(Slot(key)), r.now)), r)
      ensures !invalid ==> Slot(key) == SlotAfter(config, old(Slot(key)), r)
      ensures forall k :: k != key ==> (k in entries <==> k in old(entries))
      ensures forall k :: k != key && k in entries ==> entries[k] == old(entries)[k]
    {
      if r.op.Consume? && r.op.units <= 0.0 {
        return None, true;
      }
      if r.op.Reset? {
        entries := entries - {key};
        return None, false;
      }
      var entry := Get(key, r.now);
      var tokens := CurrentTokens(config, Value(entry), r.now);
      if r.op.Peek? {
        return Some(ToResult(config, tokens, r.now, tokens >= 1.0)), false;
      }
      var units := r.op.units;
      var next;
      if tokens < units {
        next := Bucket(tokens, r.now);
        result := Some(ToResult(config, tokens, r.now, false)
                       .(retryAfterMs := Ceil((units - tokens) / config.ratePerMs) as real));
      } else {
        next := Bucket(tokens - units, r.now);
        result := Some(ToResult(config, next.tokens, r.now, true));
      }
      entries := entries[key := Stored(config, next, r.now)];
      invalid := false;
    }
  }
}
