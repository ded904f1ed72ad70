/**
 RESP2: the reader as a function of the unread stream, the encoding of reply trees, and what
 reading makes of every encoding.
 */
module Resp {

  type Byte = b: int | 0 <= b < 256

  const CR: Byte := 13
  const LF: Byte := 10
  const PLUS: Byte := 43
  const MINUS: Byte := 45
  const COLON: Byte := 58
  const DOLLAR: Byte := 36
  const STAR: Byte := 42
  const ZERO: Byte := 48

  datatype Option<T> = None | Some(value: T)

  /** A reply as the server encodes it (RESP protocol specification, RESP2 types). */
  datatype Wire =
    | Simple(text: seq<Byte>)
    | Failure(text: seq<Byte>)
    | Integer(value: int)
    | Bulk(body: seq<Byte>)
    | NullBulk
    | NullArray
    | Array(items: seq<Wire>)

  /** A reply as the client returns it. */
  datatype Reply = Text(bytes: seq<Byte>) | Number(value: int) | Null | Items(items: seq<Reply>)

  /** What one call of the reader ends with. */
  datatype Result =
    | Value(reply: Reply)
    | RedisError(message: seq<Byte>)
    | UnexpectedReply(line: seq<Byte>)
    | ConnectionClosed
    | MalformedLength(line: seq<Byte>)

  // ----- Lines --------------------------------------------------------------------------

  predicate CrlfAt(s: seq<Byte>, i: int) {
    0 <= i && i + 1 < |s| && s[i] == CR && s[i + 1] == LF
  }

  predicate NoCrlf(s: seq<Byte>) {
    forall i :: 0 <= i < |s| ==> !CrlfAt(s, i)
  }

  /** The index of the first CR LF pair at or after `from`, or -1. */
  function FirstCrlf(s: seq<Byte>, from: nat): (index: int)
    ensures index == -1 || (from <= index && CrlfAt(s, index))
    ensures forall j :: from <= j && (index == -1 || j < index) ==> !CrlfAt(s, j)
    decreases |s| - from
  {
    if from + 1 >= |s| then -1
    else if CrlfAt(s, from) then from
    else FirstCrlf(s, from + 1)
  }

  // ----- Decimal numbers ----------------------------------------------------------------

  function Digits(n: nat): (r: seq<Byte>)
    ensures |r| > 0 && forall i :: 0 <= i < |r| ==> ZERO <= r[i] <= ZERO + 9
  {
    if n < 10 then [ZERO + n] else Digits(n / 10) + [ZERO + n % 10]
  }

  function Decimal(n: int): (r: seq<Byte>)
    ensures NoCrlf(r) && CR !in r
  {
    if n < 0 then [MINUS] + Digits(-n) else Digits(n)
  }

  function ParseDigits(s: seq<Byte>): (r: Option<int>)
    ensures r.Some? ==> r.value >= 0
  {
    if s == [] then None
    else
      var last := s[|s| - 1];
      if !(ZERO <= last <= ZERO + 9) then None
      else if |s| == 1 then Some(last - ZERO)
      else match ParseDigits(s[..|s| - 1])
        case None => None
        case Some(high) => Some(10 * high + (last - ZERO))
  }

  /** `Number(text)` for texts of the form `-?[0-9]+`; every other text is None. */
  function ParseDecimal(s: seq<Byte>): Option<int> {
    if s != [] && s[0] == MINUS then
      match ParseDigits(s[1..])
      case None => None
      case Some(n) => Some(-n)
    else
      match ParseDigits(s)
      case None => None
      case Some(n) => Some(n)
  }

  lemma {:induction false} ParseDigitsOfDigits(n: nat)
    ensures ParseDigits(Digits(n)) == Some(n)
  {
    if n >= 10 {
      ParseDigitsOfDigits(n / 10);
      var r := Digits(n);
      assert r[..|r| - 1] == Digits(n / 10);
    }
  }

  lemma {:induction false} DecimalRoundTrip(n: int)
    ensures ParseDecimal(Decimal(n)) == Some(n)
  {
    if n < 0 {
      var m: nat := -n;
      ParseDigitsOfDigits(m);
      NegativeText(Digits(m));
      assert Decimal(n) == [MINUS] + Digits(m);
    } else {
      ParseDigitsOfDigits(n);
    }
  }

  lemma {:induction false} NegativeText(digits: seq<Byte>)
    ensures ParseDecimal([MINUS] + digits)
         == match ParseDigits(digits) case None => None case Some(n) => Some(-n)
  {
    assert ([MINUS] + digits)[1..] == digits;
  }

  // ----- The reader as a function of the stream -------------------------------------------

  /** One reply from the front of `s`, with the unread suffix. */
  function Read(s: seq<Byte>): (r: (Result, seq<Byte>))
    ensures |r.1| <= |s|
    ensures r.0.Value? ==> |r.1| < |s|
    decreases |s|, 0, 0
  {
    var end := FirstCrlf(s, 0);
    if end == -1 then (ConnectionClosed, s)
    else Dispatch(s[..end], s[end + 2..])
  }

  /** The reply announced by `line`, read from the stream after it. */
  function Dispatch(line: seq<Byte>, rest: seq<Byte>): (r: (Result, seq<Byte>))
    ensures |r.1| <= |rest|
    decreases |rest|, 2, 0
  {
    if line == [] then (UnexpectedReply(line), rest)
    else if line[0] == PLUS then (Value(Text(line[1..])), rest)
    else if line[0] == MINUS then (RedisError(line[1..]), rest)
    else if line[0] == COLON then
      match ParseDecimal(line[1..])
      case Some(n) => (Value(Number(n)), rest)
      case None => (MalformedLength(line), rest)
    else if line[0] == DOLLAR then
      match ParseDecimal(line[1..])
      case Some(n) =>
        if n == -1 then (Value(Null), rest)
        else if n < -1 then (MalformedLength(line), rest)
        else ReadBulk(rest, n)
      case None => (MalformedLength(line), rest)
    else if line[0] == STAR then
      match ParseDecimal(line[1..])
      case Some(n) =>
        if n == -1 then (Value(Null), rest)
        else ReadItems(rest, n)
      case None => (MalformedLength(line), rest)
    else (UnexpectedReply(line), rest)
  }

  function ReadBulk(s: seq<Byte>, length: nat): (r: (Result, seq<Byte>))
    ensures |r.1| <= |s|
  {
    if |s| < length + 2 then (ConnectionClosed, s)
    else (Value(Text(s[..length])), s[length + 2..])
  }

  /** `count` replies in a row; the first one that is not a value ends the array. */
  function ReadItems(s: seq<Byte>, count: int): (r: (Result, seq<Byte>))
    ensures |r.1| <= |s|
    ensures r.0.Value? ==> r.0.reply.Items?
    decreases |s|, 1, count
  {
    if count <= 0 then (Value(Items([])), s)
    else
      var (first, rest) := Read(s);
      if !first.Value? then (first, rest)
      else
        var (others, rest') := ReadItems(rest, count - 1);
        (Prepend([first.reply], others), rest')
  }

  function Prepend(head: seq<Reply>, tail: Result): (r: Result)
    requires tail.Value? ==> tail.reply.Items?
    ensures r.Value? ==> r.reply.Items?
  {
    if tail.Value? then Value(Items(head + tail.reply.items)) else tail
  }

  lemma PrependTwice(a: seq<Reply>, b: seq<Reply>, tail: Result)
    requires tail.Value? ==> tail.reply.Items?
    ensures Prepend(a, Prepend(b, tail)) == Prepend(a + b, tail)
  {
    if tail.Value? {
      assert a + (b + tail.reply.items) == a + b + tail.reply.items;
    }
  }

  lemma PrependNothing(tail: Result)
    requires tail.Value? ==> tail.reply.Items?
    ensures Prepend([], tail) == tail
  {
    if tail.Value? {
      assert [] + tail.reply.items == tail.reply.items;
    }
  }

  // ----- The encoding ---------------------------------------------------------------------

  /** What a server may send: lines without a CR LF pair. */
  predicate WellFormed(w: Wire)
    decreases w
  {
    match w
    case Simple(text) => NoCrlf(text)
    case Failure(text) => NoCrlf(text)
    case Array(items) => forall i :: 0 <= i < |items| ==> WellFormed(items[i])
    case _ => true
  }

  predicate ErrorFree(w: Wire)
    decreases w
  {
    match w
    case Failure(_) => false
    case Array(items) => forall i :: 0 <= i < |items| ==> ErrorFree(items[i])
    case _ => true
  }

  function Encode(w: Wire): seq<Byte>
    decreases w, 1
  {
    match w
    case Simple(text) => [PLUS] + text + [CR, LF]
    case Failure(text) => [MINUS] + text + [CR, LF]
    case Integer(n) => [COLON] + Decimal(n) + [CR, LF]
    case Bulk(body) => [DOLLAR] + Decimal(|body|) + [CR, LF] + body + [CR, LF]
    case NullBulk => [DOLLAR] + Decimal(-1) + [CR, LF]
    case NullArray => [STAR] + Decimal(-1) + [CR, LF]
    case Array(items) => [STAR] + Decimal(|items|) + [CR, LF] + EncodeAll(items)
  }

  function EncodeAll(items: seq<Wire>): seq<Byte>
    decreases items, 0
  {
    if items == [] then [] else Encode(items[0]) + EncodeAll(items[1..])
  }

  /** The bytes on the wire, by their ASCII codes: "+", "-", ":", "$", "*", CR and LF. */
  lemma {:induction false} WireBytes(w: Wire)
    ensures match w
      case Simple(text) => Encode(w) == [43] + text + [13, 10]
      case Failure(text) => Encode(w) == [45] + text + [13, 10]
      case Integer(n) => Encode(w) == [58] + Decimal(n) + [13, 10]
      case Bulk(body) => Encode(w) == [36] + Decimal(|body|) + [13, 10] + body + [13, 10]
      case NullBulk => Encode(w) == [36, 45, 49, 13, 10]
      case NullArray => Encode(w) == [42, 45, 49, 13, 10]
      case Array(items) => Encode(w) == [42] + Decimal(|items|) + [13, 10] + EncodeAll(items)
  {
    DecimalBytes(-1);
    DecimalBytes(1);
    assert Decimal(-1) == [45, 49];
  }

  /** Numbers are written in base ten with the ASCII digits. */
  lemma {:induction false} DecimalBytes(n: int)
    ensures 0 <= n < 10 ==> Decimal(n) == [48 + n]
    ensures n >= 10 ==> Decimal(n) == Decimal(n / 10) + [48 + n % 10]
    ensures n < 0 ==> Decimal(n) == [45] + Decimal(-n)
  {
  }

  /** The client value of an error-free reply. */
  function ValueOf(w: Wire): Reply
    requires ErrorFree(w)
    decreases w, 1
  {
    match w
    case Simple(text) => Text(text)
    case Integer(n) => Number(n)
    case Bulk(body) => Text(body)
    case NullBulk => Null
    case NullArray => Null
    case Array(items) => Items(ValuesOf(items))
  }

  function ValuesOf(items: seq<Wire>): (r: seq<Reply>)
    requires forall i :: 0 <= i < |items| ==> ErrorFree(items[i])
    ensures |r| == |items|
    decreases items, 0
  {
    if items == [] then [] else [ValueOf(items[0])] + ValuesOf(items[1..])
  }

  /** A line `p body CR LF` at the front of the stream is split off exactly. */
  lemma {:induction false} LineSplit(p: Byte, body: seq<Byte>, rest: seq<Byte>)
    requires NoCrlf(body) && p != CR
    ensures FirstCrlf([p] + body + [CR, LF] + rest, 0) == |body| + 1
    ensures ([p] + body + [CR, LF] + rest)[..|body| + 1] == [p] + body
    ensures ([p] + body + [CR, LF] + rest)[|body| + 3..] == rest
  {
    var s := [p] + body + [CR, LF] + rest;
    assert CrlfAt(s, |body| + 1);
    forall j | 0 <= j < |body| + 1
      ensures !CrlfAt(s, j)
    {
      if j > 0 && j < |body| {
        assert !CrlfAt(body, j - 1);
      }
    }
  }

  lemma {:induction false} ReadLineOf(p: Byte, body: seq<Byte>, rest: seq<Byte>)
    requires NoCrlf(body) && p != CR
    ensures Read([p] + body + [CR, LF] + rest) == Dispatch([p] + body, rest)
    ensures ([p] + body)[1..] == body
  {
    LineSplit(p, body, rest);
  }

  // ----- What a reply means to the reader ---------------------------------------------------

  /**
   The reader's result on the encoding of `w`, and the part of that encoding it leaves unread:
   an error reply is thrown where it stands, so whatever follows it inside an array stays.
   */
  function Outcome(w: Wire): (r: (Result, seq<Byte>))
    decreases w, 1
  {
    match w
    case Simple(text) => (Value(Text(text)), [])
    case Failure(text) => (RedisError(text), [])
    case Integer(n) => (Value(Number(n)), [])
    case Bulk(body) => (Value(Text(body)), [])
    case NullBulk => (Value(Null), [])
    case NullArray => (Value(Null), [])
    case Array(items) => Outcomes(items)
  }

  function Outcomes(items: seq<Wire>): (r: (Result, seq<Byte>))
    ensures r.0.Value? ==> r.0.reply.Items?
    decreases items, 0
  {
    if items == [] then (Value(Items([])), [])
    else
      var (first, left) := Outcome(items[0]);
      if !first.Value? then (first, left + EncodeAll(items[1..]))
      else
        var (others, left') := Outcomes(items[1..]);
        (Prepend([first.reply], others), left')
  }

  lemma {:induction false} ErrorFreeOutcome(w: Wire)
    requires ErrorFree(w)
    ensures Outcome(w) == (Value(ValueOf(w)), [])
    decreases w, 1
  {
    if w.Array? {
      ErrorFreeOutcomes(w.items);
    }
  }

  lemma {:induction false} ErrorFreeOutcomes(items: seq<Wire>)
    requires forall i :: 0 <= i < |items| ==> ErrorFree(items[i])
    ensures Outcomes(items) == (Value(Items(ValuesOf(items))), [])
    decreases items, 0
  {
    if items != [] {
      ErrorFreeOutcome(items[0]);
      ErrorFreeOutcomes(items[1..]);
    }
  }

  /** On every well-formed reply the reader produces exactly its outcome. */
  lemma {:induction false} ReadEncoded(w: Wire, rest: seq<Byte>)
    requires WellFormed(w)
    ensures Read(Encode(w) + rest) == (Outcome(w).0, Outcome(w).1 + rest)
    decreases w, 1
  {
    assert [] + rest == rest;
    match w
    case Simple(text) =>
      ReadLineOf(PLUS, text, rest);
    case Failure(text) =>
      ReadLineOf(MINUS, text, rest);
    case Integer(n) =>
      DecimalRoundTrip(n);
      ReadLineOf(COLON, Decimal(n), rest);
    case Bulk(body) =>
      ReadBulkEncoded(body, rest);
    case NullBulk =>
      DecimalRoundTrip(-1);
      ReadLineOf(DOLLAR, Decimal(-1), rest);
    case NullArray =>
      DecimalRoundTrip(-1);
      ReadLineOf(STAR, Decimal(-1), rest);
    case Array(items) =>
      ReadArrayHeader(items, rest);
      ReadItemsEncoded(items, rest);
  }

  lemma {:induction false} ReadBulkEncoded(body: seq<Byte>, rest: seq<Byte>)
    ensures Read(Encode(Bulk(body)) + rest) == (Value(Text(body)), rest)
  {
    var n := Decimal(|body|);
    var after := body + [CR, LF] + rest;
    assert Encode(Bulk(body)) + rest == [DOLLAR] + n + [CR, LF] + after;
    ReadLineOf(DOLLAR, n, after);
    DispatchBulk(|body|, after);
    assert after[..|body|] == body && after[|body| + 2..] == rest;
  }

  lemma {:induction false} DispatchBulk(length: nat, after: seq<Byte>)
    ensures Dispatch([DOLLAR] + Decimal(length), after) == ReadBulk(after, length)
  {
    DecimalRoundTrip(length);
    assert ([DOLLAR] + Decimal(length))[1..] == Decimal(length);
  }

  lemma {:induction false} ReadArrayHeader(items: seq<Wire>, rest: seq<Byte>)
    ensures Read(Encode(Array(items)) + rest) == ReadItems(EncodeAll(items) + rest, |items|)
  {
    var n := Decimal(|items|);
    var after := EncodeAll(items) + rest;
    DecimalRoundTrip(|items|);
    ReadLineOf(STAR, n, after);
    assert Encode(Array(items)) + rest == [STAR] + n + [CR, LF] + after;
  }

  lemma {:induction false} ReadItemsEncoded(items: seq<Wire>, rest: seq<Byte>)
    requires forall i :: 0 <= i < |items| ==> WellFormed(items[i])
    ensures ReadItems(EncodeAll(items) + rest, |items|) == (Outcomes(items).0, Outcomes(items).1 + rest)
    decreases items, 0
  {
    if items == [] {
      assert EncodeAll(items) + rest == rest;
    } else {
      var more := EncodeAll(items[1..]);
      ReadEncoded(items[0], more + rest);
      ReadItemsEncoded(items[1..], rest);
      assert EncodeAll(items) + rest == Encode(items[0]) + (more + rest);
      ReadItemsStep(items, more, rest);
    }
  }

  /** One element more, from what reading it and reading the others leaves. */
  lemma {:induction false} ReadItemsStep(items: seq<Wire>, more: seq<Byte>, rest: seq<Byte>)
    requires items != [] && more == EncodeAll(items[1..])
    requires Read(Encode(items[0]) + (more + rest)) == (Outcome(items[0]).0, Outcome(items[0]).1 + (more + rest))
    requires ReadItems(more + rest, |items| - 1) == (Outcomes(items[1..]).0, Outcomes(items[1..]).1 + rest)
    ensures ReadItems(Encode(items[0]) + (more + rest), |items|) == (Outcomes(items).0, Outcomes(items).1 + rest)
  {
    var (first, left) := Outcome(items[0]);
    if first.Value? {
      ValueLeavesNothing(items[0]);
      assert left + (more + rest) == more + rest;
    } else {
      assert left + (more + rest) == left + more + rest;
    }
  }

  lemma {:induction false} ValueLeavesNothing(w: Wire)
    ensures Outcome(w).0.Value? ==> Outcome(w).1 == []
    decreases w, 1
  {
    if w.Array? {
      ValuesLeaveNothing(w.items);
    }
  }

  lemma {:induction false} ValuesLeaveNothing(items: seq<Wire>)
    ensures Outcomes(items).0.Value? ==> Outcomes(items).1 == []
    decreases items, 0
  {
    if items != [] {
      ValuesLeaveNothing(items[1..]);
    }
  }

  /** Reading undoes encoding and leaves the rest of the stream untouched. */
  lemma {:induction false} RoundTrip(w: Wire, rest: seq<Byte>)
    requires WellFormed(w) && ErrorFree(w)
    ensures Read(Encode(w) + rest) == (Value(ValueOf(w)), rest)
  {
    ReadEncoded(w, rest);
    ErrorFreeOutcome(w);
    assert [] + rest == rest;
  }

  /**
   An error inside an array leaves the reader inside that array: the next call returns the
   array's next element instead of the next reply.
   */
  lemma {:induction false} ErrorInsideArrayDesynchronizes(message: seq<Byte>, next: Wire, rest: seq<Byte>)
    requires NoCrlf(message) && WellFormed(next) && ErrorFree(next)
    ensures var s := Encode(Array([Failure(message), next])) + rest;
            Read(s) == (RedisError(message), Encode(next) + rest) &&
            Read(Read(s).1) == (Value(ValueOf(next)), rest)
  {
    var items := [Failure(message), next];
    assert EncodeAll(items[1..]) == Encode(next) by {
      assert items[1..] == [next] && [next][1..] == [];
    }
    assert Outcome(items[0]) == (RedisError(message), []);
    assert [] + Encode(next) == Encode(next);
    assert Outcomes(items) == (RedisError(message), Encode(next));
    ReadEncoded(Array(items), rest);
    RoundTrip(next, rest);
  }

  // ----- More data never changes a reply ----------------------------------------------------

  lemma {:induction false} FirstCrlfExtends(s: seq<Byte>, t: seq<Byte>)
    requires FirstCrlf(s, 0) != -1
    ensures FirstCrlf(s + t, 0) == FirstCrlf(s, 0)
  {
    var end := FirstCrlf(s, 0);
    assert CrlfAt(s + t, end);
    forall j | 0 <= j < end
      ensures !CrlfAt(s + t, j)
    {
      assert !CrlfAt(s, j);
    }
  }

  /** Once a call completes, bytes that arrive later only extend the unread suffix. */
  lemma {:induction false} ReadMore(s: seq<Byte>, t: seq<Byte>)
    requires !Read(s).0.ConnectionClosed?
    ensures Read(s + t) == (Read(s).0, Read(s).1 + t)
    decreases |s|, 0, 0
  {
    FirstCrlfExtends(s, t);
    var end := FirstCrlf(s, 0);
    assert (s + t)[..end] == s[..end];
    assert (s + t)[end + 2..] == s[end + 2..] + t;
    DispatchMore(s[..end], s[end + 2..], t);
  }

  lemma {:induction false} DispatchMore(line: seq<Byte>, s: seq<Byte>, t: seq<Byte>)
    requires !Dispatch(line, s).0.ConnectionClosed?
    ensures Dispatch(line, s + t) == (Dispatch(line, s).0, Dispatch(line, s).1 + t)
    decreases |s|, 2, 0
  {
    if line != [] && line[0] == DOLLAR && ParseDecimal(line[1..]).Some? {
      var n := ParseDecimal(line[1..]).value;
      if 0 <= n && n + 2 <= |s| {
        assert (s + t)[..n] == s[..n] && (s + t)[n + 2..] == s[n + 2..] + t;
      }
    } else if line != [] && line[0] == STAR && ParseDecimal(line[1..]).Some? {
      var n := ParseDecimal(line[1..]).value;
      if n != -1 {
        ItemsMore(s, n, t);
      }
    }
  }

  lemma {:induction false} ItemsMore(s: seq<Byte>, count: int, t: seq<Byte>)
    requires !ReadItems(s, count).0.ConnectionClosed?
    ensures ReadItems(s + t, count) == (ReadItems(s, count).0, ReadItems(s, count).1 + t)
    decreases |s|, 1, count
  {
    if count > 0 {
      ReadMore(s, t);
      if Read(s).0.Value? {
        ItemsMore(Read(s).1, count - 1, t);
      }
    }
  }

  /** A reply that has not arrived in full is never returned, not even in part. */
  lemma {:induction false} PartialReplyWaits(w: Wire, part: seq<Byte>)
    requires WellFormed(w) && ErrorFree(w)
    requires part < Encode(w)
    ensures Read(part).0.ConnectionClosed?
  {
    if !Read(part).0.ConnectionClosed? {
      var t := Encode(w)[|part|..];
      assert part + t == Encode(w) == Encode(w) + [] && |Read(part).1 + t| > 0;
      ReadMore(part, t);
      RoundTrip(w, []);
      assert false;
    }
  }
}
