/**
 The Redis client: its command encoder, and the connection that reads replies from a compacted
 byte buffer which the socket refills in arbitrary chunks.
 */
module RedisClient {
  import opened Resp

  // ----- Commands ---------------------------------------------------------------------------

  function Flatten(chunks: seq<seq<Byte>>): seq<Byte> {
    if chunks == [] then [] else chunks[0] + Flatten(chunks[1..])
  }

  lemma {:induction false} FlattenSnoc(chunks: seq<seq<Byte>>, last: seq<Byte>)
    ensures Flatten(chunks + [last]) == Flatten(chunks) + last
  {
    if chunks == [] {
      assert [last][1..] == [];
    } else {
      assert (chunks + [last])[1..] == chunks[1..] + [last];
      FlattenSnoc(chunks[1..], last);
    }
  }

  function Bulks(args: seq<seq<Byte>>): (r: seq<Wire>)
    ensures |r| == |args|
    ensures forall i :: 0 <= i < |args| ==> r[i] == Bulk(args[i])
  {
    if args == [] then [] else [Bulk(args[0])] + Bulks(args[1..])
  }

  function Texts(args: seq<seq<Byte>>): seq<Reply> {
    if args == [] then [] else [Text(args[0])] + Texts(args[1..])
  }

  /** What a command sends is read back as exactly its arguments, whatever bytes they hold. */
  lemma {:induction false} CommandRoundTrip(args: seq<seq<Byte>>, rest: seq<Byte>)
    ensures Read(Encode(Array(Bulks(args))) + rest) == (Value(Items(Texts(args))), rest)
  {
    RoundTrip(Array(Bulks(args)), rest);
    ValuesOfBulks(args);
  }

  lemma {:induction false} ValuesOfBulks(args: seq<seq<Byte>>)
    ensures ValuesOf(Bulks(args)) == Texts(args)
  {
    if args != [] {
      assert Bulks(args)[1..] == Bulks(args[1..]);
      ValuesOfBulks(args[1..]);
    }
  }

  lemma {:induction false} EncodeAllSnoc(items: seq<Wire>, last: Wire)
    ensures EncodeAll(items + [last]) == EncodeAll(items) + Encode(last)
  {
    if items == [] {
      assert [last][1..] == [];
    } else {
      assert (items + [last])[1..] == items[1..] + [last];
      EncodeAllSnoc(items[1..], last);
    }
  }

  lemma BulksTake(args: seq<seq<Byte>>, i: nat)
    requires i < |args|
    ensures Bulks(args[..i + 1]) == Bulks(args[..i]) + [Bulk(args[i])]
  {
  }

  lemma {:induction false} BulkChunks(chunks: seq<seq<Byte>>, body: seq<Byte>)
    ensures Flatten(chunks + [[DOLLAR] + Decimal(|body|) + [CR, LF]] + [body] + [[CR, LF]])
         == Flatten(chunks) + Encode(Bulk(body))
  {
    var size := [DOLLAR] + Decimal(|body|) + [CR, LF];
    FlattenSnoc(chunks, size);
    FlattenSnoc(chunks + [size], body);
    FlattenSnoc(chunks + [size] + [body], [CR, LF]);
  }

  /** Copies the chunks one after the other into one fresh array. */
  method Concat(chunks: seq<seq<Byte>>) returns (output: array<Byte>)
    ensures fresh(output) && output[..] == Flatten(chunks)
  {
    var total := 0;
    for i := 0 to |chunks|
      invariant total == |Flatten(chunks[..i])|
    {
      assert chunks[..i + 1] == chunks[..i] + [chunks[i]];
      FlattenSnoc(chunks[..i], chunks[i]);
      total := total + |chunks[i]|;
    }
    assert chunks[..|chunks|] == chunks;
    output := new Byte[total](_ => 0);
    var offset := 0;
    for i := 0 to |chunks|
      invariant offset == |Flatten(chunks[..i])|
      invariant offset <= output.Length == |Flatten(chunks)|
      invariant output[..offset] == Flatten(chunks[..i])
    {
      var chunk := chunks[i];
      assert chunks[..i + 1] == chunks[..i] + [chunk];
      FlattenSnoc(chunks[..i], chunk);
      FlattenFits(chunks, i + 1);
      forall k | 0 <= k < |chunk| {
        output[offset + k] := chunk[k];
      }
      assert output[..offset + |chunk|] == Flatten(chunks[..i]) + chunk;
      offset := offset + |chunk|;
    }
    assert output[..] == output[..offset];
  }

  lemma {:induction false} FlattenFits(chunks: seq<seq<Byte>>, i: nat)
    requires i <= |chunks|
    ensures |Flatten(chunks[..i])| <= |Flatten(chunks)|
    decreases |chunks| - i
  {
    if i < |chunks| {
      assert chunks[..i + 1] == chunks[..i] + [chunks[i]];
      FlattenSnoc(chunks[..i], chunks[i]);
      FlattenFits(chunks, i + 1);
    } else {
      assert chunks[..i] == chunks;
    }
  }

  lemma {:induction false} OneMoreBulk(chunks: seq<seq<Byte>>, header: seq<Byte>, args: seq<seq<Byte>>, i: nat)
    requires i < |args| && Flatten(chunks) == header + EncodeAll(Bulks(args[..i]))
    ensures var body := args[i];
      Flatten(chunks + [[DOLLAR] + Decimal(|body|) + [CR, LF]] + [body] + [[CR, LF]])
        == header + EncodeAll(Bulks(args[..i + 1]))
  {
    BulkChunks(chunks, args[i]);
    BulksTake(args, i);
    EncodeAllSnoc(Bulks(args[..i]), Bulk(args[i]));
  }

  /** The bytes `send` writes for a command. */
  method EncodeCommand(args: seq<seq<Byte>>) returns (data: array<Byte>)
    ensures fresh(data) && data[..] == Encode(Array(Bulks(args)))
  {
    var header := [STAR] + Decimal(|args|) + [CR, LF];
    var chunks := [header];
    assert Flatten(chunks) == header by { assert chunks[1..] == []; }
    assert EncodeAll(Bulks(args[..0])) == [];
    for i := 0 to |args|
      invariant Flatten(chunks) == header + EncodeAll(Bulks(args[..i]))
    {
      OneMoreBulk(chunks, header, args, i);
      var body := args[i];
      chunks := chunks + [[DOLLAR] + Decimal(|body|) + [CR, LF]] + [body] + [[CR, LF]];
    }
    assert args[..|args|] == args;
    data := Concat(chunks);
  }

  // ----- The connection ---------------------------------------------------------------------

  /** First CR LF pair of the buffer at or after `from`, or -1. */
  method IndexOfCrlf(buffer: array<Byte>, from: nat) returns (index: int)
    ensures index == -1 || (from <= index && CrlfAt(buffer[..], index))
    ensures forall j :: from <= j && (index == -1 || j < index) ==> !CrlfAt(buffer[..], j)
  {
    var i := from;
    while i + 1 < buffer.Length
      invariant from <= i
      invariant forall j :: from <= j < i ==> !CrlfAt(buffer[..], j)
    {
      if buffer[i] == CR && buffer[i + 1] == LF {
        return i;
      }
      i := i + 1;
    }
    return -1;
  }

  class RedisConnection {
    /** Bytes received and not yet compacted away; those before `offset` are consumed. */
    var buffer: array<Byte>
    var offset: nat
    /** What the socket will still deliver, one element a read; none left means closed. */
    var incoming: seq<seq<Byte>>

    predicate Valid()
      reads this, buffer
    {
      offset <= buffer.Length
    }

    /** Everything still to be read: the unread part of the buffer, then the socket. */
    function Stream(): seq<Byte>
      requires Valid()
      reads this, buffer
    {
      buffer[offset..] + Flatten(incoming)
    }

    constructor (incoming: seq<seq<Byte>>)
      ensures Valid() && Stream() == Flatten(incoming) && fresh(buffer)
    {
      this.buffer := new Byte[0];
      this.offset := 0;
      this.incoming := incoming;
    }

    /** Compacts the buffer and appends one chunk from the socket. */
    method Fill() returns (open: bool)
      requires Valid()
      modifies this
      ensures Valid() && Stream() == old(Stream())
      ensures open == (old(incoming) != [])
      ensures open ==> incoming == old(incoming)[1..]
      ensures !open ==> incoming == [] && buffer == old(buffer) && offset == old(offset)
      ensures buffer == old(buffer) || fresh(buffer)
      ensures buffer.Length - offset >= old(buffer.Length - offset)
    {
      if incoming == [] {
        return false;
      }
      var read := incoming[0];
      var remaining := buffer.Length - offset;
      var merged := new Byte[remaining + |read|];
      forall k | 0 <= k < remaining {
        merged[k] := buffer[offset + k];
      }
      forall k | 0 <= k < |read| {
        merged[remaining + k] := read[k];
      }
      assert merged[..] == buffer[offset..] + read;
      incoming := incoming[1..];
      buffer := merged;
      offset := 0;
      assert merged[0..] == merged[..];
      return true;
    }

    /** The next line without its CR LF, or nothing when the socket closes first. */
    method ReadLine() returns (line: Option<seq<Byte>>)
      requires Valid()
      modifies this
      ensures Valid() && (buffer == old(buffer) || fresh(buffer))
      ensures var s, end := old(Stream()), FirstCrlf(old(Stream()), 0);
              if end == -1 then line == None && Stream() == s
              else line == Some(s[..end]) && Stream() == s[end + 2..]
    {
      ghost var s := Stream();
      while true
        invariant Valid() && Stream() == s && (buffer == old(buffer) || fresh(buffer))
        decreases |incoming|
      {
        var index := IndexOfCrlf(buffer, offset);
        if index != -1 {
          LineInBuffer(buffer[..], offset, index, Flatten(incoming));
          line := Some(buffer[offset..index]);
          offset := index + 2;
          return;
        }
        if incoming == [] {
          NoLineInBuffer(buffer[..], offset);
          assert s == buffer[..][offset..];
        }
        var open := Fill();
        if !open {
          return None;
        }
      }
    }

    /** `length` bytes and the two that end them; nothing when the socket closes first. */
    method ReadBulkBody(length: nat) returns (result: Result)
      requires Valid()
      modifies this
      ensures Valid() && (buffer == old(buffer) || fresh(buffer))
      ensures (result, Stream()) == ReadBulk(old(Stream()), length)
    {
      ghost var s := Stream();
      while buffer.Length - offset < length + 2
        invariant Valid() && Stream() == s && (buffer == old(buffer) || fresh(buffer))
        decreases |incoming|
      {
        var open := Fill();
        if !open {
          return ConnectionClosed;
        }
      }
      result := Value(Text(buffer[offset..offset + length]));
      assert buffer[offset..offset + length] == s[..length];
      assert buffer[offset + length + 2..] + Flatten(incoming) == s[length + 2..];
      offset := offset + length + 2;
    }

    /** `count` replies; the first that is not a value ends the call. */
    method ReadArray(count: int) returns (result: Result)
      requires Valid()
      modifies this
      ensures Valid() && (buffer == old(buffer) || fresh(buffer))
      ensures (result, Stream()) == ReadItems(old(Stream()), count)
      decreases |Stream()|, 1
    {
      ghost var rest := Stream();
      var items: seq<Reply> := [];
      var index := 0;
      PrependNothing(ReadItems(rest, count).0);
      while index < count
        invariant 0 <= index && (index <= count || index == 0)
        invariant Valid() && (buffer == old(buffer) || fresh(buffer))
        invariant |Stream()| <= |rest|
        invariant var (others, left) := ReadItems(Stream(), count - index);
                  ReadItems(rest, count) == (Prepend(items, others), left)
      {
        var item := ReadReply();
        if !item.Value? {
          return item;
        }
        PrependTwice(items, [item.reply], ReadItems(Stream(), count - index - 1).0);
        items := items + [item.reply];
        index := index + 1;
      }
      assert items + [] == items;
      return Value(Items(items));
    }

    /** One reply: what `Read` says of the unread stream, however it was cut into chunks. */
    method ReadReply() returns (result: Result)
      requires Valid()
      modifies this
      ensures Valid() && (buffer == old(buffer) || fresh(buffer))
      ensures (result, Stream()) == Read(old(Stream()))
      decreases |Stream()|, 0
    {
      var next := ReadLine();
      if next == None {
        return ConnectionClosed;
      }
      var line := next.value;
      if line == [] {
        return UnexpectedReply(line);
      }
      ghost var rest := Stream();
      var text := line[1..];
      var prefix := line[0];
      if prefix == PLUS {
        return Value(Text(text));
      } else if prefix == MINUS {
        return RedisError(text);
      } else if prefix == COLON {
        var number := ParseDecimal(text);
        return if number.Some? then Value(Number(number.value)) else MalformedLength(line);
      } else if prefix == DOLLAR {
        var length := ParseDecimal(text);
        if length == None || length.value < -1 {
          return MalformedLength(line);
        }
        if length.value == -1 {
          return Value(Null);
        }
        result := ReadBulkBody(length.value);
      } else if prefix == STAR {
        var count := ParseDecimal(text);
        if count == None {
          return MalformedLength(line);
        }
        if count.value == -1 {
          return Value(Null);
        }
        result := ReadArray(count.value);
      } else {
        return UnexpectedReply(line);
      }
    }
  }

  lemma LineInBuffer(buffer: seq<Byte>, offset: nat, index: nat, later: seq<Byte>)
    requires offset <= index && CrlfAt(buffer, index)
    requires forall j :: offset <= j < index ==> !CrlfAt(buffer, j)
    ensures var s := buffer[offset..] + later;
            FirstCrlf(s, 0) == index - offset &&
            s[..index - offset] == buffer[offset..index] &&
            s[index - offset + 2..] == buffer[index + 2..] + later
  {
    var s := buffer[offset..] + later;
    assert CrlfAt(s, index - offset);
    forall j | 0 <= j < index - offset
      ensures !CrlfAt(s, j)
    {
      assert !CrlfAt(buffer, offset + j);
    }
  }

  lemma NoLineInBuffer(buffer: seq<Byte>, offset: nat)
    requires offset <= |buffer|
    requires forall j :: offset <= j ==> !CrlfAt(buffer, j)
    ensures FirstCrlf(buffer[offset..], 0) == -1
  {
    var s := buffer[offset..];
    if FirstCrlf(s, 0) != -1 {
      assert CrlfAt(s, FirstCrlf(s, 0));
      assert CrlfAt(buffer, offset + FirstCrlf(s, 0));
    }
  }
}
