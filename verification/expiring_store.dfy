/**
 A cache store whose entries expire, and what both rate limiters over it share. Times and
 quantities are reals; the limiter and the store read one clock.
 */
module ExpiringStore {

  datatype Option<T> = None | Some(value: T)

  datatype Entry<S> = Entry(value: S, expiresAt: real)

  /** What the memory store returns for a slot: an expired entry is dropped. */
  function Live<S>(slot: Option<Entry<S>>, now: real): Option<Entry<S>> {
    if slot.Some? && now >= slot.value.expiresAt then None else slot
  }

  function Value<S>(slot: Option<Entry<S>>): Option<S> {
    match slot
    case None => None
    case Some(entry) => Some(entry.value)
  }

  /** What a limiter is asked to do. */
  datatype Op = Consume(units: real) | Peek | Reset

  datatype Request = Request(op: Op, now: real)

  datatype Result = Result(allowed: bool, limit: real, remaining: real, resetAt: real, retryAfterMs: real)

  ghost predicate Sorted(requests: seq<Request>) {
    forall i, j :: 0 <= i < j < |requests| ==> requests[i].now <= requests[j].now
  }

  /** Costs that are not positive are rejected before anything is read. */
  ghost predicate PositiveCosts(requests: seq<Request>) {
    forall i :: 0 <= i < |requests| && requests[i].op.Consume? ==> requests[i].op.units > 0.0
  }

  function Max(x: real, y: real): real {
    if x < y then y else x
  }

  function Min(x: real, y: real): real {
    if x < y then x else y
  }

  function Ceil(x: real): (n: int)
    ensures (n as real) - 1.0 < x <= n as real
  {
    -((-x).Floor)
  }

  /** `amount` for every reset with a time in [from, until]. */
  function ResetBudget(amount: real, requests: seq<Request>, from: real, until: real): (sum: real)
    requires amount >= 0.0
    ensures sum >= 0.0
    ensures (forall i :: 0 <= i < |requests| ==> !requests[i].op.Reset?) ==> sum == 0.0
  {
    if requests == [] then 0.0
    else
      (if requests[0].op.Reset? && from <= requests[0].now <= until then amount else 0.0)
      + ResetBudget(amount, requests[1..], from, until)
  }

  lemma ScaleMonotone(k: real, x: real, y: real)
    requires k >= 0.0 && x <= y
    ensures k * x <= k * y
  {
    assert k * y - k * x == k * (y - x);
  }
}
