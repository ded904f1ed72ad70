/**
 The buffered log sink: chunks wait in a buffer, a flush hands them to the inner sink as one
 batch, and a flush that fails, at once or later, puts its chunks back.

 `State` also records what the environment has seen (`written`, `delivered`, the batches whose
 promise is still open), so that what becomes of each chunk can be stated over whole runs.
 */
module BufferedSink {

  type Byte = b: int | 0 <= b < 256
  type Chunk = seq<Byte>

  datatype Option<T> = None | Some(value: T)

  /** Flush thresholds; an absent one is infinite. */
  datatype Limits = Limits(maxRecords: Option<nat>, maxBytes: Option<nat>, flushOnError: bool)

  /** How the inner sink answers one `write`. */
  datatype Response = Accepted | Threw | Promised

  datatype State = State(
    chunks: seq<Chunk>, byteLength: nat, closed: bool,
    inFlight: seq<seq<Chunk>>, delivered: seq<Chunk>, written: seq<Chunk>)

  const EMPTY := State([], 0, false, [], [], [])

  function Join<T>(parts: seq<seq<T>>): seq<T> {
    if parts == [] then [] else parts[0] + Join(parts[1..])
  }

  lemma {:induction false} JoinAppend<T>(a: seq<seq<T>>, b: seq<seq<T>>)
    ensures Join(a + b) == Join(a) + Join(b)
  {
    if a == [] {
      assert a + b == b;
    } else {
      assert (a + b)[1..] == a[1..] + b;
      JoinAppend(a[1..], b);
    }
  }

  lemma JoinOne<T>(part: seq<T>)
    ensures Join([part]) == part
  {
    assert [part][1..] == [];
  }

  lemma {:induction false} JoinSplit<T>(parts: seq<seq<T>>, k: nat)
    requires k < |parts|
    ensures Join(parts) == Join(parts[..k]) + parts[k] + Join(parts[k + 1..])
  {
    JoinAppend(parts[..k], parts[k..]);
    assert parts == parts[..k] + parts[k..];
  }

  // ----- The steps ----------------------------------------------------------------------

  function Flush(s: State, response: Response): State {
    if s.chunks == [] then s
    else match response
      case Accepted => s.(chunks := [], byteLength := 0, delivered := s.delivered + s.chunks)
      case Threw => s
      case Promised => s.(chunks := [], byteLength := 0, inFlight := s.inFlight + [s.chunks])
  }

  predicate MustFlush(limits: Limits, s: State, isError: bool) {
    || (limits.maxRecords.Some? && |s.chunks| >= limits.maxRecords.value)
    || (limits.maxBytes.Some? && s.byteLength >= limits.maxBytes.value)
    || (limits.flushOnError && isError)
  }

  function Push(s: State, line: Chunk): State {
    s.(chunks := s.chunks + [line], byteLength := s.byteLength + |line|, written := s.written + [line])
  }

  function Write(limits: Limits, s: State, line: Chunk, isError: bool, response: Response): State {
    if s.closed then s
    else
      var pushed := Push(s, line);
      if MustFlush(limits, pushed, isError) then Flush(pushed, response) else pushed
  }

  function Resolve(s: State, k: nat): State {
    if k >= |s.inFlight| then s
    else s.(inFlight := s.inFlight[..k] + s.inFlight[k + 1..], delivered := s.delivered + s.inFlight[k])
  }

  function Reject(s: State, k: nat): State {
    if k >= |s.inFlight| then s
    else
      s.(inFlight := s.inFlight[..k] + s.inFlight[k + 1..],
         chunks := s.inFlight[k] + s.chunks,
         byteLength := s.byteLength + |Join(s.inFlight[k])|)
  }

  datatype Event =
    | WriteEvent(line: Chunk, isError: bool, response: Response)
    | FlushEvent(response: Response)
    | CloseEvent(response: Response)
    | ResolveEvent(batch: nat)
    | RejectEvent(batch: nat)

  function Step(limits: Limits, s: State, e: Event): State {
    match e
    case WriteEvent(line, isError, response) => Write(limits, s, line, isError, response)
    case FlushEvent(response) => Flush(s, response)
    case CloseEvent(response) => Flush(s.(closed := true), response)
    case ResolveEvent(k) => Resolve(s, k)
    case RejectEvent(k) => Reject(s, k)
  }

  function Run(limits: Limits, s: State, events: seq<Event>): State {
    if events == [] then s
    else Step(limits, Run(limits, s, events[..|events| - 1]), events[|events| - 1])
  }

  /** A run takes its steps one after the other; a write is refused exactly by a closed sink, and closing lasts. */
  lemma {:induction false} RunTakesEveryStep(limits: Limits, s: State, events: seq<Event>, e: Event)
    ensures var before, after := Run(limits, s, events), Run(limits, s, events + [e]);
      && after == Step(limits, before, e)
      && after.written == before.written + (if e.WriteEvent? && !before.closed then [e.line] else [])
      && after.closed == (before.closed || e.CloseEvent?)
  {
    assert (events + [e])[..|events|] == events;
  }

  // ----- Conservation -------------------------------------------------------------------

  /** Every written chunk, in one of the three places a chunk can be. */
  function Accounted(s: State): seq<Chunk> {
    s.delivered + Join(s.inFlight) + s.chunks
  }

  ghost predicate Conserved(s: State) {
    && multiset(Accounted(s)) == multiset(s.written)
    && s.byteLength == |Join(s.chunks)|
    && forall i :: 0 <= i < |s.inFlight| ==> s.inFlight[i] != []
  }

  lemma MultisetOfThree<T>(a: seq<T>, b: seq<T>, c: seq<T>)
    ensures multiset(a + b + c) == multiset(a) + multiset(b) + multiset(c)
  {
  }

  lemma FlushConserves(s: State, response: Response)
    requires Conserved(s)
    ensures Conserved(Flush(s, response))
    ensures Accounted(Flush(s, response)) == Accounted(s) || response == Accepted
  {
    if s.chunks != [] && response == Promised {
      JoinAppend(s.inFlight, [s.chunks]);
      JoinOne(s.chunks);
      assert Accounted(Flush(s, response)) == Accounted(s);
    } else if s.chunks != [] && response == Accepted {
      MultisetOfThree(s.delivered, Join(s.inFlight), s.chunks);
      MultisetOfThree(s.delivered + s.chunks, Join(s.inFlight), []);
    }
  }

  lemma PushConserves(s: State, line: Chunk)
    requires Conserved(s)
    ensures Conserved(Push(s, line))
  {
    JoinAppend(s.chunks, [line]);
    JoinOne(line);
    assert Accounted(Push(s, line)) == Accounted(s) + [line];
  }

  /** What settling batch `k` does to the accounted chunks: it moves that batch. */
  lemma SettleAccounts(s: State, k: nat)
    requires k < |s.inFlight|
    ensures var before, after := Join(s.inFlight[..k]), Join(s.inFlight[k + 1..]);
            && Accounted(s) == s.delivered + before + s.inFlight[k] + after + s.chunks
            && Accounted(Resolve(s, k)) == s.delivered + s.inFlight[k] + before + after + s.chunks
            && Accounted(Reject(s, k)) == s.delivered + before + after + s.inFlight[k] + s.chunks
  {
    var before, after := Join(s.inFlight[..k]), Join(s.inFlight[k + 1..]);
    JoinSplit(s.inFlight, k);
    JoinAppend(s.inFlight[..k], s.inFlight[k + 1..]);
    RegroupFive(s.delivered, before, s.inFlight[k], after, s.chunks);
  }

  lemma {:induction false} RegroupFive<T>(d: seq<T>, before: seq<T>, batch: seq<T>, after: seq<T>, c: seq<T>)
    ensures d + (before + batch + after) + c == d + before + batch + after + c
    ensures (d + batch) + (before + after) + c == d + batch + before + after + c
    ensures d + (before + after) + (batch + c) == d + before + after + batch + c
  {
  }

  lemma MultisetOfFive<T>(a: seq<T>, b: seq<T>, c: seq<T>, d: seq<T>, e: seq<T>)
    ensures multiset(a + b + c + d + e)
         == multiset(a) + multiset(b) + multiset(c) + multiset(d) + multiset(e)
  {
  }

  lemma SettleAccountsSame(s: State, k: nat)
    requires k < |s.inFlight|
    ensures multiset(Accounted(Resolve(s, k))) == multiset(Accounted(s))
    ensures multiset(Accounted(Reject(s, k))) == multiset(Accounted(s))
  {
    var d, batch, c := s.delivered, s.inFlight[k], s.chunks;
    var before, after := Join(s.inFlight[..k]), Join(s.inFlight[k + 1..]);
    SettleAccounts(s, k);
    MultisetOfFive(d, before, batch, after, c);
    MultisetOfFive(d, batch, before, after, c);
    MultisetOfFive(d, before, after, batch, c);
  }

  lemma SettleConserves(s: State, k: nat)
    requires Conserved(s)
    ensures Conserved(Resolve(s, k)) && Conserved(Reject(s, k))
  {
    if k < |s.inFlight| {
      SettleAccountsSame(s, k);
      JoinAppend(s.inFlight[k], s.chunks);
    }
  }

  /**
   In every run of writes, flushes, a close and promises that settle in any order, each
   written chunk is delivered, in flight or buffered, exactly once, and the byte count is the
   total of the buffered chunks.
   */
  lemma {:induction false} EveryRunConserves(limits: Limits, events: seq<Event>)
    ensures Conserved(Run(limits, EMPTY, events))
  {
    if events != [] {
      var last := |events| - 1;
      EveryRunConserves(limits, events[..last]);
      var s := Run(limits, EMPTY, events[..last]);
      match events[last]
      case WriteEvent(line, isError, response) =>
        PushConserves(s, line);
        FlushConserves(Push(s, line), response);
      case FlushEvent(response) => FlushConserves(s, response);
      case CloseEvent(response) => FlushConserves(s.(closed := true), response);
      case ResolveEvent(k) => SettleConserves(s, k);
      case RejectEvent(k) => SettleConserves(s, k);
    }
  }

  // ----- Order --------------------------------------------------------------------------

  ghost predicate InOrder(s: State) {
    Accounted(s) == s.written
  }

  lemma FlushInOrder(s: State, response: Response)
    requires InOrder(s) && (response == Accepted ==> s.chunks == [] || s.inFlight == [])
    ensures InOrder(Flush(s, response))
  {
    JoinAppend(s.inFlight, [s.chunks]);
    JoinOne(s.chunks);
    assert response == Accepted && s.chunks != [] ==> Accounted(Flush(s, response)) == Accounted(s);
    assert response == Promised && s.chunks != [] ==> Accounted(Flush(s, response)) == Accounted(s);
  }

  lemma PushInOrder(s: State, line: Chunk)
    requires InOrder(s)
    ensures InOrder(Push(s, line))
  {
    assert Accounted(Push(s, line)) == Accounted(s) + [line];
  }

  ghost predicate Answers(e: Event, response: Response) {
    (e.WriteEvent? || e.FlushEvent? || e.CloseEvent?) && e.response == response
  }

  lemma SynchronousStep(limits: Limits, s: State, e: Event)
    requires InOrder(s) && s.inFlight == [] && !Answers(e, Promised)
    ensures var s' := Step(limits, s, e); InOrder(s') && s'.inFlight == []
  {
    match e
    case WriteEvent(line, isError, response) =>
      PushInOrder(s, line);
      FlushInOrder(Push(s, line), response);
    case FlushEvent(response) => FlushInOrder(s, response);
    case CloseEvent(response) =>
      assert InOrder(s.(closed := true));
      FlushInOrder(s.(closed := true), response);
    case _ =>
  }

  /** With a sink that never answers with a promise, delivered then buffered is what was written. */
  lemma {:induction false} SynchronousSinkKeepsOrder(limits: Limits, events: seq<Event>)
    requires forall i :: 0 <= i < |events| ==> !Answers(events[i], Promised)
    ensures var s := Run(limits, EMPTY, events);
            InOrder(s) && s.inFlight == [] && s.delivered + s.chunks == s.written
  {
    var s := Run(limits, EMPTY, events);
    if events != [] {
      var last := |events| - 1;
      SynchronousSinkKeepsOrder(limits, events[..last]);
      SynchronousStep(limits, Run(limits, EMPTY, events[..last]), events[last]);
    }
    assert s.delivered + [] + s.chunks == s.delivered + s.chunks;
  }

  ghost predicate Distinct<T>(s: seq<T>) {
    forall i, j :: 0 <= i < j < |s| ==> s[i] != s[j]
  }

  lemma SwapChangesOrder<T>(a: seq<T>, x: seq<T>, y: seq<T>, b: seq<T>)
    requires Distinct(a + x + y + b)
    ensures a + x + y + b == a + y + x + b <==> x == [] || y == []
  {
    if x == [] || y == [] {
      assert a + x + y == a + y + x;
    } else {
      assert (a + x + y + b)[|a|] == x[0];
      assert (a + y + x + b)[|a|] == y[0];
      assert (a + x + y + b)[|a| + |x|] == y[0];
    }
  }

  lemma {:induction false} JoinNonempty<T>(parts: seq<seq<T>>)
    requires forall i :: 0 <= i < |parts| ==> parts[i] != []
    ensures Join(parts) == [] <==> parts == []
  {
  }

  /** A batch that resolves must be the oldest in flight, a batch that is rejected the newest. */
  lemma {:induction false} SettlingKeepsOrderIff(s: State, k: nat)
    requires Conserved(s) && InOrder(s) && Distinct(s.written) && k < |s.inFlight|
    ensures InOrder(Resolve(s, k)) <==> k == 0
    ensures InOrder(Reject(s, k)) <==> k == |s.inFlight| - 1
  {
    var d, batch, c := s.delivered, s.inFlight[k], s.chunks;
    var before, after := Join(s.inFlight[..k]), Join(s.inFlight[k + 1..]);
    SettleAccounts(s, k);
    JoinNonempty(s.inFlight[..k]);
    JoinNonempty(s.inFlight[k + 1..]);
    assert d + before + batch + after + c == d + before + batch + (after + c);
    assert d + batch + before + after + c == d + batch + before + (after + c);
    SwapChangesOrder(d, before, batch, after + c);
    SwapChangesOrder(d + before, batch, after, c);
  }

  /** A batch the sink accepts at once overtakes whatever is still in flight. */
  lemma {:induction false} FlushKeepsOrderIff(s: State, response: Response)
    requires Conserved(s) && InOrder(s) && Distinct(s.written)
    ensures InOrder(Flush(s, response)) <==> !(response == Accepted && s.chunks != [] && s.inFlight != [])
  {
    if response == Accepted && s.chunks != [] {
      var d, flying, c := s.delivered, Join(s.inFlight), s.chunks;
      JoinNonempty(s.inFlight);
      assert Accounted(s) == d + flying + c + [];
      assert Accounted(Flush(s, response)) == d + c + flying + [];
      SwapChangesOrder(d, flying, c, []);
    } else {
      FlushInOrder(s, response);
    }
  }

  /** The event lets no chunk overtake an earlier one. */
  ghost predicate KeepsOrder(limits: Limits, s: State, e: Event) {
    match e
    case WriteEvent(line, isError, response) =>
      response == Accepted && !s.closed && MustFlush(limits, Push(s, line), isError) ==> s.inFlight == []
    case FlushEvent(response) => response == Accepted && s.chunks != [] ==> s.inFlight == []
    case CloseEvent(response) => response == Accepted && s.chunks != [] ==> s.inFlight == []
    case ResolveEvent(k) => k < |s.inFlight| ==> k == 0
    case RejectEvent(k) => k < |s.inFlight| ==> k == |s.inFlight| - 1
  }

  lemma {:induction false} StepKeepsOrderIff(limits: Limits, s: State, e: Event)
    requires Conserved(s) && InOrder(s) && Distinct(Step(limits, s, e).written)
    ensures InOrder(Step(limits, s, e)) <==> KeepsOrder(limits, s, e)
  {
    match e
    case WriteEvent(line, isError, response) =>
      if !s.closed {
        PushConserves(s, line);
        PushInOrder(s, line);
        FlushKeepsOrderIff(Push(s, line), response);
      }
    case FlushEvent(response) => FlushKeepsOrderIff(s, response);
    case CloseEvent(response) =>
      assert Accounted(s.(closed := true)) == Accounted(s);
      FlushKeepsOrderIff(s.(closed := true), response);
    case ResolveEvent(k) => if k < |s.inFlight| { SettlingKeepsOrderIff(s, k); }
    case RejectEvent(k) => if k < |s.inFlight| { SettlingKeepsOrderIff(s, k); }
  }

  /** After each event of the run. */
  ghost predicate AlwaysInOrder(limits: Limits, events: seq<Event>) {
    && InOrder(Run(limits, EMPTY, events))
    && (events != [] ==> AlwaysInOrder(limits, events[..|events| - 1]))
  }

  /** Each event of the run, in the state it meets. */
  ghost predicate NoneOvertakes(limits: Limits, events: seq<Event>) {
    events != [] ==>
      var before := events[..|events| - 1];
      NoneOvertakes(limits, before) && KeepsOrder(limits, Run(limits, EMPTY, before), events[|events| - 1])
  }

  lemma {:induction false} WrittenGrows(limits: Limits, s: State, e: Event)
    ensures s.written <= Step(limits, s, e).written
  {
  }

  /**
   Chunks keep their order throughout a run exactly if no event of it lets one overtake: batches
   resolve oldest first and are rejected newest first, and nothing is accepted at once while
   another batch is in flight.
   */
  lemma {:induction false} RunKeepsOrderIff(limits: Limits, events: seq<Event>)
    requires Distinct(Run(limits, EMPTY, events).written)
    ensures AlwaysInOrder(limits, events) <==> NoneOvertakes(limits, events)
  {
    if events != [] {
      var before, e := events[..|events| - 1], events[|events| - 1];
      var s := Run(limits, EMPTY, before);
      WrittenGrows(limits, s, e);
      RunKeepsOrderIff(limits, before);
      if AlwaysInOrder(limits, before) {
        EveryRunConserves(limits, before);
        StepKeepsOrderIff(limits, s, e);
      }
    }
  }

  // ----- The sink -----------------------------------------------------------------------

  /** Copies the chunks into one array of the recorded size. */
  method ConcatChunks(chunks: seq<Chunk>, byteLength: nat) returns (output: array<Byte>)
    requires byteLength == |Join(chunks)|
    ensures fresh(output) && output[..] == Join(chunks)
  {
    output := new Byte[byteLength](_ => 0);
    var offset := 0;
    assert chunks[..0] == [];
    for i := 0 to |chunks|
      invariant offset == |Join(chunks[..i])|
      invariant offset + |Join(chunks[i..])| == output.Length
      invariant output[..offset] == Join(chunks[..i])
    {
      var chunk := chunks[i];
      assert chunks[i..][1..] == chunks[i + 1..];
      assert chunks[..i + 1] == chunks[..i] + [chunk];
      JoinAppend(chunks[..i], [chunk]);
      JoinOne(chunk);
      forall k | 0 <= k < |chunk| {
        output[offset + k] := chunk[k];
      }
      assert output[..offset + |chunk|] == Join(chunks[..i]) + chunk;
      offset := offset + |chunk|;
    }
    assert chunks[..|chunks|] == chunks;
    assert output[..] == output[..offset];
  }

  /** What a call on the sink ends with. */
  datatype Ending = Returned | Rethrown | Pending | ClosedSink

  /** When the inner sink is closed: at once, when the last batch's promise is fulfilled, or not at all. */
  datatype Closing = Now | WhenFulfilled | Never

  class Sink {
    const limits: Limits
    var chunks: seq<Chunk>
    var byteLength: nat
    var closed: bool
    /** Batches whose write has not settled yet, oldest first. */
    var inFlight: seq<seq<Chunk>>
    ghost var delivered: seq<Chunk>
    ghost var written: seq<Chunk>

    ghost function Value(): State
      reads this
    {
      State(chunks, byteLength, closed, inFlight, delivered, written)
    }

    /** The byte count is right, so that a batch fits the array it is copied into. */
    ghost predicate Valid()
      reads this
    {
      byteLength == |Join(chunks)|
    }

    constructor (limits: Limits)
      ensures this.limits == limits && Value() == EMPTY && Valid()
    {
      this.limits := limits;
      chunks, byteLength, closed := [], 0, false;
      inFlight, delivered, written := [], [], [];
    }

    /** `batch` is what the inner sink is given; it answers with `response`. */
    method FlushNow(response: Response) returns (batch: Option<seq<Byte>>, ending: Ending)
      requires Valid()
      modifies this
      ensures Value() == Flush(old(Value()), response) && Valid()
      ensures batch == if old(chunks) == [] then None else Some(Join(old(chunks)))
      ensures ending == if old(chunks) == [] || response == Accepted then Returned
                        else if response == Threw then Rethrown else Pending
    {
      if chunks == [] {
        return None, Returned;
      }
      var pendingChunks, pendingByteLength := chunks, byteLength;
      var bytes := ConcatChunks(pendingChunks, pendingByteLength);
      batch := Some(bytes[..]);
      chunks := [];
      byteLength := 0;
      match response
      case Accepted =>
        delivered := delivered + pendingChunks;
        ending := Returned;
      case Threw =>
        chunks := pendingChunks + chunks;
        byteLength := byteLength + pendingByteLength;
        ending := Rethrown;
      case Promised =>
        inFlight := inFlight + [pendingChunks];
        ending := Pending;
    }

    method WriteLine(line: Chunk, isError: bool, response: Response) returns (ending: Ending)
      requires Valid()
      modifies this
      ensures Value() == Write(limits, old(Value()), line, isError, response) && Valid()
      ensures ending == if old(closed) then ClosedSink
                        else if !MustFlush(limits, Push(old(Value()), line), isError) || response == Accepted then Returned
                        else if response == Threw then Rethrown else Pending
    {
      if closed {
        return ClosedSink;
      }
      JoinAppend(chunks, [line]);
      JoinOne(line);
      chunks := chunks + [line];
      byteLength := byteLength + |line|;
      written := written + [line];
      if MustFlushNow(isError) {
        var _, end := FlushNow(response);
        return end;
      }
      return Returned;
    }

    predicate MustFlushNow(isError: bool)
      reads this
      ensures MustFlushNow(isError) == MustFlush(limits, Value(), isError)
    {
      || (limits.maxRecords.Some? && |chunks| >= limits.maxRecords.value)
      || (limits.maxBytes.Some? && byteLength >= limits.maxBytes.value)
      || (limits.flushOnError && isError)
    }

    /** The promise of batch `k` is fulfilled. */
    method Fulfilled(k: nat)
      requires Valid() && k < |inFlight|
      modifies this
      ensures Value() == Resolve(old(Value()), k) && Valid()
    {
      delivered := delivered + inFlight[k];
      inFlight := inFlight[..k] + inFlight[k + 1..];
    }

    /** The promise of batch `k` is rejected: its chunks go back in front of the buffer. */
    method Rejected(k: nat)
      requires Valid() && k < |inFlight|
      modifies this
      ensures Value() == Reject(old(Value()), k) && Valid()
    {
      JoinAppend(inFlight[k], chunks);
      var pendingByteLength := Total(inFlight[k]);
      chunks := inFlight[k] + chunks;
      byteLength := byteLength + pendingByteLength;
      inFlight := inFlight[..k] + inFlight[k + 1..];
    }

    method Close(response: Response) returns (ending: Ending, closing: Closing)
      requires Valid()
      modifies this
      ensures Value() == Step(limits, old(Value()), CloseEvent(response)) && Valid()
      ensures ending == if old(chunks) == [] || response == Accepted then Returned
                        else if response == Threw then Rethrown else Pending
      ensures closing == if ending == Returned then Now else if ending == Pending then WhenFulfilled else Never
    {
      closed := true;
      var _, end := FlushNow(response);
      if end == Rethrown {
        return end, Never;
      }
      return end, if end == Pending then WhenFulfilled else Now;
    }
  }

  function Total(chunks: seq<Chunk>): (n: nat)
    ensures n == |Join(chunks)|
  {
    if chunks == [] then 0 else |chunks[0]| + Total(chunks[1..])
  }
}
