/**
 SQL fragments and the renderer that turns a fragment into text and parameters.
 */
module SqlText {

  datatype Option<T> = None | Some(value: T)

  datatype Dialect = Generic | Postgres | Sqlite | MySql

  /** A bound parameter or a column's value: NULL or a scalar. */
  datatype Value = Null | Scalar(n: int)

  /** A dotted identifier, by its parts. */
  type Path = seq<string>

  // ----- Fragments and their rendering ----------------------------------------------------

  datatype Chunk =
    | Text(text: string)
    | Raw(text: string)
    | Identifier(path: Path)
    | Param(value: Value)
    | Nested(sql: Sql)

  datatype Sql = Sql(chunks: seq<Chunk>)

  function Quote(d: Dialect): char {
    if d == MySql then '`' else '"'
  }

  function QuoteIdentifier(path: Path, d: Dialect): string {
    if path == [] then ""
    else if |path| == 1 then [Quote(d)] + path[0] + [Quote(d)]
    else [Quote(d)] + path[0] + [Quote(d), '.'] + QuoteIdentifier(path[1..], d)
  }

  function DigitChar(n: nat): (c: char)
    requires n < 10
    ensures IsDigit(c)
  {
    '0' + n as char
  }

  predicate IsDigit(c: char) {
    '0' <= c <= '9'
  }

  function Decimal(n: nat): (s: string)
    ensures s != "" && forall i :: 0 <= i < |s| ==> IsDigit(s[i])
  {
    if n < 10 then [DigitChar(n)] else Decimal(n / 10) + [DigitChar(n % 10)]
  }

  function Placeholder(n: nat, d: Dialect): string {
    if d == Postgres then "$" + Decimal(n) else "?"
  }

  /** The parameters of a fragment, in the order of its flattened tree. */
  function Params(sql: Sql): seq<Value>
    decreases sql, 1
  {
    ChunkParams(sql.chunks)
  }

  function OneParams(chunk: Chunk): seq<Value>
    decreases chunk, 2
  {
    match chunk
    case Param(v) => [v]
    case Nested(sql) => Params(sql)
    case _ => []
  }

  function ChunkParams(chunks: seq<Chunk>): seq<Value>
    decreases chunks, 0
  {
    if chunks == [] then [] else OneParams(chunks[0]) + ChunkParams(chunks[1..])
  }

  /** The rendered text, when `n` parameters have been numbered before. */
  function RenderText(sql: Sql, d: Dialect, n: nat): string
    decreases sql, 1
  {
    RenderChunks(sql.chunks, d, n)
  }

  function RenderOne(chunk: Chunk, d: Dialect, n: nat): string
    decreases chunk, 2
  {
    match chunk
    case Text(text) => text
    case Raw(text) => text
    case Identifier(path) => QuoteIdentifier(path, d)
    case Param(_) => Placeholder(n + 1, d)
    case Nested(sql) => RenderText(sql, d, n)
  }

  function RenderChunks(chunks: seq<Chunk>, d: Dialect, n: nat): string
    decreases chunks, 0
  {
    if chunks == [] then ""
    else RenderOne(chunks[0], d, n) + RenderChunks(chunks[1..], d, n + |OneParams(chunks[0])|)
  }

  lemma {:induction false} RenderCons(chunk: Chunk, rest: seq<Chunk>, d: Dialect, n: nat)
    ensures RenderChunks([chunk] + rest, d, n)
         == RenderOne(chunk, d, n) + RenderChunks(rest, d, n + |OneParams(chunk)|)
    ensures ChunkParams([chunk] + rest) == OneParams(chunk) + ChunkParams(rest)
  {
    assert ([chunk] + rest)[1..] == rest;
  }

  /** The renderer's mutable state. */
  class RenderState {
    var text: string
    var params: seq<Value>
    const dialect: Dialect

    constructor (dialect: Dialect)
      ensures text == "" && params == [] && this.dialect == dialect
    {
      this.dialect := dialect;
      text, params := "", [];
    }

    /** One chunk: its text is appended, and its parameters are pushed before their placeholders. */
    method RenderChunk(chunk: Chunk)
      modifies this
      ensures text == old(text) + RenderOne(chunk, dialect, |old(params)|)
      ensures params == old(params) + OneParams(chunk)
      decreases chunk, 0
    {
      match chunk
      case Text(t) => text := text + t;
      case Raw(t) => text := text + t;
      case Identifier(path) => text := text + QuoteIdentifier(path, dialect);
      case Param(v) =>
        params := params + [v];
        text := text + Placeholder(|params|, dialect);
      case Nested(sql) => RenderInto(sql);
    }

    method RenderInto(query: Sql)
      modifies this
      ensures text == old(text) + RenderText(query, dialect, |old(params)|)
      ensures params == old(params) + Params(query)
      decreases query, 0
    {
      var chunks := query.chunks;
      ghost var text0, params0 := text, params;
      assert chunks[..0] == [];
      for i := 0 to |chunks|
        invariant text == text0 + RenderChunks(chunks[..i], dialect, |params0|)
        invariant params == params0 + ChunkParams(chunks[..i])
      {
        assert chunks[i] < query;
        ghost var done, doneText, doneParams := chunks[..i], RenderChunks(chunks[..i], dialect, |params0|), ChunkParams(chunks[..i]);
        RenderChunk(chunks[i]);
        RenderSnoc(done, chunks[i], dialect, |params0|);
        assert chunks[..i + 1] == done + [chunks[i]];
        Regroup(text0, doneText, RenderOne(chunks[i], dialect, |params0| + |doneParams|));
        Regroup(params0, doneParams, OneParams(chunks[i]));
      }
      assert chunks[..|chunks|] == chunks;
    }
  }

  lemma Regroup<T>(a: seq<T>, b: seq<T>, c: seq<T>)
    ensures (a + b) + c == a + (b + c)
  {
  }

  lemma {:induction false} RenderSnoc(chunks: seq<Chunk>, last: Chunk, d: Dialect, n: nat)
    ensures RenderChunks(chunks + [last], d, n)
         == RenderChunks(chunks, d, n) + RenderOne(last, d, n + |ChunkParams(chunks)|)
    ensures ChunkParams(chunks + [last]) == ChunkParams(chunks) + OneParams(last)
    decreases chunks
  {
    if chunks == [] {
      RenderCons(last, [], d, n);
      assert [last] + [] == chunks + [last];
    } else {
      var head, tail := chunks[0], chunks[1..];
      var m := n + |OneParams(head)|;
      RenderSnoc(tail, last, d, m);
      RenderCons(head, tail + [last], d, n);
      assert [head] + (tail + [last]) == chunks + [last];
      Regroup(OneParams(head), ChunkParams(tail), OneParams(last));
      Regroup(RenderOne(head, d, n), RenderChunks(tail, d, m), RenderOne(last, d, m + |ChunkParams(tail)|));
    }
  }

  // ----- Placeholder k stands for parameter k, in a text that ignores the values -------------

  /** The texts before, between and after the parameters of a fragment. */
  function Literals(chunks: seq<Chunk>, d: Dialect): (r: seq<string>)
    ensures |r| == |ChunkParams(chunks)| + 1
    decreases chunks, 0
  {
    if chunks == [] then [""] else Splice(OneLiterals(chunks[0], d), Literals(chunks[1..], d))
  }

  function OneLiterals(chunk: Chunk, d: Dialect): (r: seq<string>)
    ensures |r| == |OneParams(chunk)| + 1
    decreases chunk, 2
  {
    match chunk
    case Text(text) => [text]
    case Raw(text) => [text]
    case Identifier(path) => [QuoteIdentifier(path, d)]
    case Param(_) => ["", ""]
    case Nested(sql) => Literals(sql.chunks, d)
  }

  /** Two lists of texts, the last of the first run into the first of the second. */
  function Splice(a: seq<string>, b: seq<string>): (r: seq<string>)
    requires a != [] && b != []
    ensures |r| == |a| + |b| - 1
  {
    if |a| == 1 then [a[0] + b[0]] + b[1..] else [a[0]] + Splice(a[1..], b)
  }

  /** Texts with placeholders n + 1, n + 2, ... between them. */
  function Interleave(texts: seq<string>, d: Dialect, n: nat): string
    requires texts != []
  {
    if |texts| == 1 then texts[0] else texts[0] + Placeholder(n + 1, d) + Interleave(texts[1..], d, n + 1)
  }

  lemma {:induction false} InterleaveSplice(a: seq<string>, b: seq<string>, d: Dialect, n: nat)
    requires a != [] && b != []
    ensures Interleave(Splice(a, b), d, n) == Interleave(a, d, n) + Interleave(b, d, n + |a| - 1)
    decreases a
  {
    if |a| == 1 {
      InterleaveFirst(a[0], b, d, n);
    } else {
      var rest := Splice(a[1..], b);
      InterleaveSplice(a[1..], b, d, n + 1);
      assert Splice(a, b)[1..] == rest && Splice(a, b)[0] == a[0];
      Regroup(a[0] + Placeholder(n + 1, d), Interleave(a[1..], d, n + 1), Interleave(b, d, n + |a| - 1));
    }
  }

  lemma {:induction false} InterleaveFirst(first: string, b: seq<string>, d: Dialect, n: nat)
    requires b != []
    ensures Interleave([first + b[0]] + b[1..], d, n) == first + Interleave(b, d, n)
  {
    var joined := [first + b[0]] + b[1..];
    assert joined[1..] == b[1..];
    if |b| > 1 {
      var more := Placeholder(n + 1, d) + Interleave(b[1..], d, n + 1);
      assert (first + b[0]) + Placeholder(n + 1, d) + Interleave(b[1..], d, n + 1) == first + (b[0] + more);
      assert b[0] + Placeholder(n + 1, d) + Interleave(b[1..], d, n + 1) == b[0] + more;
    }
  }

  /** The rendered text is the literal texts with placeholders counted up between them. */
  lemma {:induction false} TextIsInterleaved(chunks: seq<Chunk>, d: Dialect, n: nat)
    ensures RenderChunks(chunks, d, n) == Interleave(Literals(chunks, d), d, n)
    decreases chunks, 0
  {
    if chunks != [] {
      var k := n + |OneParams(chunks[0])|;
      OneTextIsInterleaved(chunks[0], d, n);
      TextIsInterleaved(chunks[1..], d, k);
      InterleaveSplice(OneLiterals(chunks[0], d), Literals(chunks[1..], d), d, n);
    }
  }

  lemma {:induction false} OneTextIsInterleaved(chunk: Chunk, d: Dialect, n: nat)
    ensures RenderOne(chunk, d, n) == Interleave(OneLiterals(chunk, d), d, n)
    decreases chunk, 2
  {
    match chunk
    case Nested(sql) => TextIsInterleaved(sql.chunks, d, n);
    case Param(_) =>
      assert OneLiterals(chunk, d)[1..] == [""];
      assert "" + Placeholder(n + 1, d) + "" == Placeholder(n + 1, d);
    case _ =>
  }

  /** The fragment with every parameter replaced by NULL. */
  function Erase(chunks: seq<Chunk>): (r: seq<Chunk>)
    decreases chunks, 0
  {
    if chunks == [] then [] else [EraseOne(chunks[0])] + Erase(chunks[1..])
  }

  function EraseOne(chunk: Chunk): Chunk
    decreases chunk, 2
  {
    match chunk
    case Param(_) => Param(Null)
    case Nested(sql) => Nested(Sql(Erase(sql.chunks)))
    case _ => chunk
  }

  lemma {:induction false} EraseKeepsLiterals(chunks: seq<Chunk>, d: Dialect)
    ensures Literals(Erase(chunks), d) == Literals(chunks, d)
    decreases chunks, 0
  {
    if chunks != [] {
      assert Erase(chunks)[1..] == Erase(chunks[1..]);
      EraseOneKeepsLiterals(chunks[0], d);
      EraseKeepsLiterals(chunks[1..], d);
    }
  }

  lemma {:induction false} EraseOneKeepsLiterals(chunk: Chunk, d: Dialect)
    ensures OneLiterals(EraseOne(chunk), d) == OneLiterals(chunk, d)
    decreases chunk, 2
  {
    match chunk
    case Nested(sql) => EraseKeepsLiterals(sql.chunks, d);
    case _ =>
  }

  /** Fragments that differ in parameter values only have one text and equally many parameters. */
  lemma {:induction false} TextIgnoresValues(a: Sql, b: Sql, d: Dialect, n: nat)
    requires Erase(a.chunks) == Erase(b.chunks)
    ensures RenderText(a, d, n) == RenderText(b, d, n) && |Params(a)| == |Params(b)|
  {
    EraseKeepsLiterals(a.chunks, d);
    EraseKeepsLiterals(b.chunks, d);
    TextIsInterleaved(a.chunks, d, n);
    TextIsInterleaved(b.chunks, d, n);
  }

  // ----- Fragment constructors ------------------------------------------------------------

  function RawSql(text: string): Sql {
    Sql([Raw(text)])
  }

  function JoinChunks(items: seq<Sql>, separator: Sql): seq<Chunk> {
    if items == [] then []
    else if |items| == 1 then [Nested(items[0])]
    else [Nested(items[0]), Nested(separator)] + JoinChunks(items[1..], separator)
  }

  /** `joinSql`. */
  function JoinSql(items: seq<Sql>, separator: Sql): Sql {
    Sql(JoinChunks(items, separator))
  }
}
