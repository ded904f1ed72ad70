/**
 The condition builders, their three-valued meaning, and the tokens their rendered text is
 spelled with.
 */
module Conditions {
  import opened SqlText
  import opened SqlReading

  // ----- Builders ----------------------------------------------------------------------------

  datatype Operator = Eq | Ne | Gt | Gte | Lt | Lte | Like | ILike

  function OperatorText(o: Operator): string {
    match o
    case Eq => "="
    case Ne => "<>"
    case Gt => ">"
    case Gte => ">="
    case Lt => "<"
    case Lte => "<="
    case Like => "like"
    case ILike => "ilike"
  }

  datatype Operand = Column(path: Path) | Bound(value: Value)

  /** A condition, by the builder calls that made it. */
  datatype Condition =
    | Compare(column: Path, operator: Operator, right: Operand)
    | InList(column: Path, values: seq<Value>, negated: bool)
    | NullTest(column: Path, negated: bool)
    | Junction(conjunction: bool, args: seq<Condition>)
    | Not(arg: Condition)

  /** The conditions that are given; missing ones are dropped. */
  function Given(conditions: seq<Option<Condition>>): (r: seq<Condition>)
    ensures forall c :: c in r <==> Some(c) in conditions
  {
    if conditions == [] then []
    else
      assert conditions == [conditions[0]] + conditions[1..];
      (if conditions[0].Some? then [conditions[0].value] else []) + Given(conditions[1..])
  }

  /** `and(...)` and `or(...)`; None where they throw. */
  function Combine(conjunction: bool, conditions: seq<Option<Condition>>): Option<Condition> {
    var given := Given(conditions);
    if given == [] then None
    else if |given| == 1 then Some(given[0])
    else Some(Junction(conjunction, given))
  }

  /** What the builders can produce from valid column names. */
  ghost predicate Proper(c: Condition)
    decreases c, 0
  {
    match c
    case Compare(column, _, right) => ValidPath(column) && (right.Column? ==> ValidPath(right.path))
    case InList(column, _, _) => ValidPath(column)
    case NullTest(column, _) => ValidPath(column)
    case Junction(_, args) => |args| >= 2 && AllProper(args)
    case Not(arg) => Proper(arg)
  }

  ghost predicate AllProper(args: seq<Condition>)
    decreases args, 1
  {
    args == [] || (Proper(args[0]) && AllProper(args[1..]))
  }

  // ----- The fragment a condition holds ------------------------------------------------------

  function ColumnSql(path: Path): Sql {
    Sql([Identifier(path)])
  }

  function ValueSqls(values: seq<Value>): seq<Sql> {
    if values == [] then [] else [Sql([Param(values[0])])] + ValueSqls(values[1..])
  }

  function JunctionWord(conjunction: bool): string {
    if conjunction then "and" else "or"
  }

  function ConditionSql(c: Condition): Sql
    decreases c, 0
  {
    match c
    case Compare(column, operator, right) =>
      Sql([Nested(ColumnSql(column)), Text(" "), Nested(RawSql(OperatorText(operator))), Text(" "),
           RightChunk(right)])
    case InList(column, values, negated) =>
      if values == [] then RawSql(EmptyListText(negated))
      else
        Sql([Nested(ColumnSql(column)), Text(" "), Nested(RawSql(InText(negated))), Text(" ("),
             Nested(JoinSql(ValueSqls(values), RawSql(", "))), Text(")")])
    case NullTest(column, negated) =>
      Sql([Nested(ColumnSql(column)), Text(if negated then " is not null" else " is null")])
    case Junction(conjunction, args) =>
      ChainSql(conjunction, args)
    case Not(arg) =>
      Sql([Text("not ("), Nested(ConditionSql(arg)), Text(")")])
  }

  function ParenthesizedSqls(args: seq<Condition>): seq<Sql>
    decreases args, 1
  {
    if args == [] then []
    else [Bracketed(args[0])] + ParenthesizedSqls(args[1..])
  }

  // ----- Three-valued meaning ----------------------------------------------------------------

  datatype Truth = True | Unknown | False

  /**
   Column values (one integer a scalar), how the database orders scalars, and which texts it takes
   for matching a pattern, with and without regard to case.
   */
  datatype Env = Env(
    column: Path -> Value, below: (int, int) -> bool, matches: (int, int) -> bool, matchesAnyCase: (int, int) -> bool)

  /** What a builder promises of two scalars. */
  function Holds(o: Operator, a: int, b: int, env: Env): bool {
    match o
    case Eq => a == b
    case Ne => a != b
    case Gt => env.below(b, a)
    case Gte => env.below(b, a) || a == b
    case Lt => env.below(a, b)
    case Lte => env.below(a, b) || a == b
    case Like => env.matches(a, b)
    case ILike => env.matchesAnyCase(a, b)
  }

  function Bool(b: bool): Truth {
    if b then True else False
  }

  function Negate(t: Truth): Truth {
    match t case True => False case Unknown => Unknown case False => True
  }

  function Both(a: Truth, b: Truth): Truth {
    if a == False || b == False then False else if a == True && b == True then True else Unknown
  }

  function Either(a: Truth, b: Truth): Truth {
    Negate(Both(Negate(a), Negate(b)))
  }

  /**
   What the builders promise. Membership of NULL, or in a list with a NULL that does not hold
   the value, is unknown; a junction is decided by one deciding argument.
   */
  function Meaning(c: Condition, env: Env): Truth
    decreases c, 0
  {
    match c
    case Compare(column, operator, right) =>
      var left := env.column(column);
      var other := match right case Column(path) => env.column(path) case Bound(value) => value;
      if left == Null || other == Null then Unknown else Bool(Holds(operator, left.n, other.n, env))
    case InList(column, values, negated) =>
      var x := env.column(column);
      var member :=
        if values == [] then False
        else if x == Null then Unknown
        else if x in values then True
        else if Null in values then Unknown
        else False;
      if negated then Negate(member) else member
    case NullTest(column, negated) => Bool((env.column(column) == Null) != negated)
    case Junction(conjunction, args) =>
      var deciding := if conjunction then False else True;
      if SomeMeans(args, deciding, env) then deciding
      else if SomeMeans(args, Unknown, env) then Unknown
      else Negate(deciding)
    case Not(arg) => Negate(Meaning(arg, env))
  }

  predicate SomeMeans(args: seq<Condition>, t: Truth, env: Env)
    decreases args, 1
  {
    args != [] && (Meaning(args[0], env) == t || SomeMeans(args[1..], t, env))
  }

  /** `and` and `or` mean the junction of the conditions given, and throw exactly when there is none. */
  lemma {:induction false} CombineMeans(conjunction: bool, conditions: seq<Option<Condition>>, env: Env)
    ensures Combine(conjunction, conditions) == None <==> forall c :: c in conditions ==> c == None
    ensures Combine(conjunction, conditions).Some? ==>
              Meaning(Combine(conjunction, conditions).value, env) == Meaning(Junction(conjunction, Given(conditions)), env)
  {
    var given := Given(conditions);
    if x :| x in conditions && x.Some? {
      var c := x.value;
      assert Some(c) in conditions;
      assert c in given;
    }
    if |given| == 1 {
      SingleMeans(conjunction, given[0], env);
      assert given == [given[0]];
    }
    if given != [] {
      assert given[0] in given;
    }
  }

  /** Combining proper conditions gives a proper one. */
  lemma {:induction false} CombineIsProper(conjunction: bool, conditions: seq<Option<Condition>>)
    requires forall c: Condition :: Some(c) in conditions ==> Proper(c)
    requires Combine(conjunction, conditions).Some?
    ensures Proper(Combine(conjunction, conditions).value)
  {
    ProperItems(Given(conditions));
  }

  lemma {:induction false} SingleMeans(conjunction: bool, c: Condition, env: Env)
    ensures Meaning(Junction(conjunction, [c]), env) == Meaning(c, env)
  {
    assert [c][1..] == [];
    assert forall t :: SomeMeans([c], t, env) <==> Meaning(c, env) == t;
  }

  lemma {:induction false} ProperItems(args: seq<Condition>)
    requires forall c :: c in args ==> Proper(c)
    ensures AllProper(args)
  {
    if args != [] {
      assert args[0] in args;
      ProperItems(args[1..]);
    }
  }

  // ----- The tokens a condition is spelled with ----------------------------------------------

  function TokensOf(c: Condition, n: nat): seq<Token>
    decreases c, 0
  {
    match c
    case Compare(column, operator, right) =>
      [Name(column),
       if operator == Like || operator == ILike then Word(OperatorText(operator)) else Symbol(OperatorText(operator)),
       match right case Column(path) => Name(path) case Bound(_) => Place(n + 1)]
    case InList(column, values, negated) =>
      if values == [] then [Number(1), Symbol("="), Number(if negated then 1 else 0)]
      else
        [Name(column)] + InWords(negated) + [Open] + ListTokens(|values|, n) + [Close]
    case NullTest(column, negated) =>
      [Name(column)] + NullWords(negated)
    case Junction(conjunction, args) => ChainTokens(conjunction, args, n)
    case Not(arg) => [Word("not"), Open] + TokensOf(arg, n) + [Close]
  }

  /** `count` placeholders from n + 1 on, with commas between them. */
  function ListTokens(count: nat, n: nat): seq<Token> {
    if count == 0 then []
    else if count == 1 then [Place(n + 1)]
    else [Place(n + 1), Comma] + ListTokens(count - 1, n + 1)
  }

  function ChainTokens(conjunction: bool, args: seq<Condition>, n: nat): seq<Token>
    decreases args, 1
  {
    if args == [] then []
    else
      [Open] + TokensOf(args[0], n) + [Close]
      + (if |args| == 1 then []
         else [Word(JunctionWord(conjunction))] + ChainTokens(conjunction, args[1..], n + ParamCount(args[0])))
  }

  function ParamCount(c: Condition): nat {
    |Params(ConditionSql(c))|
  }

  // ----- Rendering a condition spells its tokens ----------------------------------------------

  lemma Regroup4(a: string, b: string, c: string, e: string)
    ensures a + (b + c + e) == (a + b) + c + e
  {
  }

  lemma {:induction false} SpellMore(token: Token, more: seq<Token>, d: Dialect)
    requires more != []
    ensures SpellAll([token] + more, d) == Spell(token, d) + Gap(token, more[0]) + SpellAll(more, d)
  {
    assert ([token] + more)[1..] == more;
  }

  lemma {:induction false} SpellJoin(a: seq<Token>, b: seq<Token>, d: Dialect)
    requires a != [] && b != []
    ensures SpellAll(a + b, d) == SpellAll(a, d) + Gap(a[|a| - 1], b[0]) + SpellAll(b, d)
    decreases a
  {
    if |a| == 1 {
      assert a == [a[0]];
      SpellMore(a[0], b, d);
    } else {
      var tail := a[1..];
      assert a == [a[0]] + tail && a + b == [a[0]] + (tail + b);
      SpellMore(a[0], tail, d);
      SpellMore(a[0], tail + b, d);
      SpellJoin(tail, b, d);
      Regroup4(Spell(a[0], d) + Gap(a[0], tail[0]), SpellAll(tail, d), Gap(tail[|tail| - 1], b[0]), SpellAll(b, d));
    }
  }

  /** A phrase can stand in brackets: it neither starts nor ends like a bracketed list's edge. */
  ghost predicate Phrase(tokens: seq<Token>) {
    tokens != [] && tokens[0] != Close && tokens[0] != Comma && tokens[|tokens| - 1] != Open
  }

  lemma {:induction false} SpellBracketed(tokens: seq<Token>, d: Dialect)
    requires Phrase(tokens)
    ensures SpellAll([Open] + tokens + [Close], d) == "(" + SpellAll(tokens, d) + ")"
  {
    var front := [Open] + tokens;
    SpellMore(Open, tokens, d);
    SpellJoin(front, [Close], d);
    BracketText(SpellAll(tokens, d));
  }

  lemma {:induction false} BracketText(text: string)
    ensures "(" + "" + text + "" + ")" == "(" + text + ")"
  {
  }

  lemma {:induction false} RenderBracketed(before: string, sql: Sql, after: string, d: Dialect, n: nat)
    ensures RenderChunks([Text(before), Nested(sql), Text(after)], d, n) == before + RenderText(sql, d, n) + after
    ensures ChunkParams([Text(before), Nested(sql), Text(after)]) == Params(sql)
  {
    var last := [Text(after)];
    RenderCons(Text(after), [], d, n + |Params(sql)|);
    assert [Text(after)] + [] == last;
    RenderCons(Nested(sql), last, d, n);
    RenderCons(Text(before), [Nested(sql)] + last, d, n);
    assert [Text(before)] + ([Nested(sql)] + last) == [Text(before), Nested(sql), Text(after)];
  }

  lemma {:induction false} RenderLeaf(chunk: Chunk, d: Dialect, n: nat)
    ensures RenderChunks([chunk], d, n) == RenderOne(chunk, d, n)
    ensures ChunkParams([chunk]) == OneParams(chunk)
  {
    RenderCons(chunk, [], d, n);
    assert [chunk] + [] == [chunk];
  }

  lemma {:induction false} RenderRaw(text: string, d: Dialect, n: nat)
    ensures RenderText(RawSql(text), d, n) == text && Params(RawSql(text)) == []
  {
    RenderLeaf(Raw(text), d, n);
  }

  /** The start of a test: a column, a space, an operator. */
  lemma {:induction false} RenderTest(column: Path, operator: string, rest: seq<Chunk>, d: Dialect, n: nat)
    ensures RenderChunks([Nested(ColumnSql(column)), Text(" "), Nested(RawSql(operator))] + rest, d, n)
         == QuoteIdentifier(column, d) + " " + operator + RenderChunks(rest, d, n)
    ensures ChunkParams([Nested(ColumnSql(column)), Text(" "), Nested(RawSql(operator))] + rest) == ChunkParams(rest)
  {
    var second := [Text(" "), Nested(RawSql(operator))] + rest;
    RenderLeaf(Identifier(column), d, n);
    RenderOperator(operator, rest, d, n);
    RenderCons(Nested(ColumnSql(column)), second, d, n);
    assert [Nested(ColumnSql(column)), Text(" "), Nested(RawSql(operator))] + rest
        == [Nested(ColumnSql(column))] + second;
    TestText(QuoteIdentifier(column, d), operator, RenderChunks(rest, d, n));
  }

  lemma {:induction false} TestText(name: string, operator: string, rest: string)
    ensures name + (" " + (operator + rest)) == name + " " + operator + rest
  {
  }

  lemma {:induction false} RenderOperator(operator: string, rest: seq<Chunk>, d: Dialect, n: nat)
    ensures RenderChunks([Text(" "), Nested(RawSql(operator))] + rest, d, n) == " " + (operator + RenderChunks(rest, d, n))
    ensures ChunkParams([Text(" "), Nested(RawSql(operator))] + rest) == ChunkParams(rest)
  {
    var second := [Nested(RawSql(operator))] + rest;
    RenderRaw(operator, d, n);
    RenderCons(Nested(RawSql(operator)), rest, d, n);
    RenderCons(Text(" "), second, d, n);
    assert [Text(" "), Nested(RawSql(operator))] + rest == [Text(" ")] + second;
  }

  /** Three tokens with a space on each side of the middle one. */
  lemma {:induction false} SpellThree(a: Token, b: Token, c: Token, d: Dialect)
    requires a != Open && b != Open && b != Close && b != Comma && c != Close && c != Comma
    ensures SpellAll([a, b, c], d) == Spell(a, d) + " " + Spell(b, d) + (" " + Spell(c, d))
  {
    assert [b, c] == [b] + [c] && [a, b, c] == [a] + [b, c];
    SpellMore(b, [c], d);
    SpellMore(a, [b, c], d);
    Regroup(Spell(b, d), " ", Spell(c, d));
    Regroup(Spell(a, d) + " ", Spell(b, d), " " + Spell(c, d));
  }

  function RightChunk(right: Operand): Chunk {
    match right case Column(path) => Nested(ColumnSql(path)) case Bound(value) => Param(value)
  }

  lemma {:induction false} RenderRight(right: Operand, d: Dialect, n: nat)
    ensures RenderChunks([Text(" "), RightChunk(right)], d, n)
         == " " + RightText(right, d, n)
    ensures ChunkParams([Text(" "), RightChunk(right)]) == match right case Column(_) => [] case Bound(v) => [v]
  {
    var last := RightChunk(right);
    RenderLeaf(last, d, n);
    RenderCons(Text(" "), [last], d, n);
    assert [Text(" "), last] == [Text(" ")] + [last];
    if right.Column? {
      RenderLeaf(Identifier(right.path), d, n);
    }
  }

  function RightText(right: Operand, d: Dialect, n: nat): string {
    match right case Column(path) => QuoteIdentifier(path, d) case Bound(_) => Placeholder(n + 1, d)
  }

  lemma {:induction false} SpellCompare(c: Condition, d: Dialect, n: nat)
    requires c.Compare?
    ensures SpellAll(TokensOf(c, n), d)
         == QuoteIdentifier(c.column, d) + " " + OperatorText(c.operator) + (" " + RightText(c.right, d, n))
  {
    var ts := TokensOf(c, n);
    SpellThree(ts[0], ts[1], ts[2], d);
    assert ts == [ts[0], ts[1], ts[2]];
    assert Spell(ts[1], d) == OperatorText(c.operator);
    assert Spell(ts[2], d) == RightText(c.right, d, n);
  }

  lemma {:induction false} RenderCompare(c: Condition, d: Dialect, n: nat)
    requires c.Compare?
    ensures RenderText(ConditionSql(c), d, n) == SpellAll(TokensOf(c, n), d)
    ensures Params(ConditionSql(c)) == match c.right case Column(_) => [] case Bound(v) => [v]
  {
    var rest := [Text(" "), RightChunk(c.right)];
    RenderTest(c.column, OperatorText(c.operator), rest, d, n);
    RenderRight(c.right, d, n);
    assert ConditionSql(c).chunks
        == [Nested(ColumnSql(c.column)), Text(" "), Nested(RawSql(OperatorText(c.operator)))] + rest;
    SpellCompare(c, d, n);
  }

  function NullWords(negated: bool): seq<Token> {
    if negated then [Word("is"), Word("not"), Word("null")] else [Word("is"), Word("null")]
  }

  lemma {:induction false} SpellNullWords(negated: bool, d: Dialect)
    ensures " " + SpellAll(NullWords(negated), d) == if negated then " is not null" else " is null"
  {
    if negated {
      SpellThree(Word("is"), Word("not"), Word("null"), d);
    } else {
      SpellMore(Word("is"), [Word("null")], d);
      assert NullWords(negated) == [Word("is")] + [Word("null")];
    }
  }

  lemma {:induction false} RenderNullTest(c: Condition, d: Dialect, n: nat)
    requires c.NullTest?
    ensures RenderText(ConditionSql(c), d, n) == SpellAll(TokensOf(c, n), d)
    ensures Params(ConditionSql(c)) == []
  {
    var text := if c.negated then " is not null" else " is null";
    RenderLeaf(Identifier(c.column), d, n);
    RenderLeaf(Text(text), d, n);
    RenderCons(Nested(ColumnSql(c.column)), [Text(text)], d, n);
    assert ConditionSql(c).chunks == [Nested(ColumnSql(c.column))] + [Text(text)];
    var words := NullWords(c.negated);
    SpellNullWords(c.negated, d);
    SpellMore(Name(c.column), words, d);
    assert TokensOf(c, n) == [Name(c.column)] + words;
    Regroup(QuoteIdentifier(c.column, d), " ", SpellAll(words, d));
  }

  lemma {:induction false} SpellListMore(count: nat, d: Dialect, n: nat)
    requires count > 1
    ensures SpellAll(ListTokens(count, n), d)
         == Placeholder(n + 1, d) + (", " + SpellAll(ListTokens(count - 1, n + 1), d))
  {
    SpellCommaMore(Place(n + 1), ListTokens(count - 1, n + 1), d);
  }

  lemma {:induction false} SpellCommaMore(first: Token, tokens: seq<Token>, d: Dialect)
    requires first.Place? && tokens != [] && tokens[0].Place?
    ensures SpellAll([first, Comma] + tokens, d) == Spell(first, d) + (", " + SpellAll(tokens, d))
  {
    SpellMore(Comma, tokens, d);
    SpellMore(first, [Comma] + tokens, d);
    GroupPair(first, Comma, tokens);
    CommaText(Spell(first, d), SpellAll(tokens, d));
  }

  lemma {:induction false} GroupPair(first: Token, second: Token, tokens: seq<Token>)
    ensures [first, second] + tokens == [first] + ([second] + tokens)
  {
  }

  lemma {:induction false} CommaText(a: string, t: string)
    ensures a + "" + ("," + " " + t) == a + (", " + t)
  {
  }

  lemma {:induction false} RenderValues(values: seq<Value>, d: Dialect, n: nat)
    requires values != []
    ensures RenderText(JoinSql(ValueSqls(values), RawSql(", ")), d, n) == SpellAll(ListTokens(|values|, n), d)
    ensures Params(JoinSql(ValueSqls(values), RawSql(", "))) == values
    decreases values
  {
    var item := Sql([Param(values[0])]);
    RenderLeaf(Param(values[0]), d, n);
    if |values| == 1 {
      assert values[1..] == [] && values == [values[0]];
      RenderLeaf(Nested(item), d, n);
    } else {
      RenderValues(values[1..], d, n + 1);
      RenderMoreValues(values, d, n);
    }
  }

  lemma {:induction false} RenderMoreValues(values: seq<Value>, d: Dialect, n: nat)
    requires |values| > 1
    requires RenderText(JoinSql(ValueSqls(values[1..]), RawSql(", ")), d, n + 1)
          == SpellAll(ListTokens(|values| - 1, n + 1), d)
    requires Params(JoinSql(ValueSqls(values[1..]), RawSql(", "))) == values[1..]
    ensures RenderText(JoinSql(ValueSqls(values), RawSql(", ")), d, n) == SpellAll(ListTokens(|values|, n), d)
    ensures Params(JoinSql(ValueSqls(values), RawSql(", "))) == values
  {
    RenderValueMore(values, d, n);
    SpellListMore(|values|, d, n);
    assert values == [values[0]] + values[1..];
  }

  lemma {:induction false} RenderValueMore(values: seq<Value>, d: Dialect, n: nat)
    requires |values| > 1
    ensures RenderText(JoinSql(ValueSqls(values), RawSql(", ")), d, n)
         == Placeholder(n + 1, d) + (", " + RenderText(JoinSql(ValueSqls(values[1..]), RawSql(", ")), d, n + 1))
    ensures Params(JoinSql(ValueSqls(values), RawSql(", "))) == [values[0]] + Params(JoinSql(ValueSqls(values[1..]), RawSql(", ")))
  {
    var item, more := Sql([Param(values[0])]), ValueSqls(values[1..]);
    RenderLeaf(Param(values[0]), d, n);
    assert ValueSqls(values) == [item] + more;
    RenderJoinMore(item, more, ", ", d, n);
  }

  /** One item more in front of a joined list. */
  lemma RenderJoinMore(item: Sql, more: seq<Sql>, separator: string, d: Dialect, n: nat)
    requires more != []
    ensures RenderText(JoinSql([item] + more, RawSql(separator)), d, n)
         == RenderText(item, d, n) + (separator + RenderText(JoinSql(more, RawSql(separator)), d, n + |Params(item)|))
    ensures Params(JoinSql([item] + more, RawSql(separator))) == Params(item) + Params(JoinSql(more, RawSql(separator)))
  {
    var rest := JoinChunks(more, RawSql(separator));
    RenderSeparated(item, separator, rest, d, n);
    JoinMoreChunks(item, more, RawSql(separator));
  }

  lemma {:induction false} JoinMoreChunks(item: Sql, more: seq<Sql>, separator: Sql)
    requires more != []
    ensures JoinChunks([item] + more, separator) == [Nested(item)] + ([Nested(separator)] + JoinChunks(more, separator))
  {
    assert ([item] + more)[1..] == more;
    var rest := JoinChunks(more, separator);
    assert [Nested(item), Nested(separator)] + rest == [Nested(item)] + ([Nested(separator)] + rest);
  }

  lemma {:induction false} RenderSeparated(item: Sql, separator: string, rest: seq<Chunk>, d: Dialect, n: nat)
    ensures var chunks := [Nested(item)] + ([Nested(RawSql(separator))] + rest);
      && RenderChunks(chunks, d, n)
           == RenderText(item, d, n) + (separator + RenderChunks(rest, d, n + |Params(item)|))
      && ChunkParams(chunks) == Params(item) + ChunkParams(rest)
  {
    var m := n + |Params(item)|;
    RenderRaw(separator, d, m);
    RenderCons(Nested(RawSql(separator)), rest, d, m);
    RenderCons(Nested(item), [Nested(RawSql(separator))] + rest, d, n);
  }

  lemma {:induction false} ListIsPhrase(count: nat, n: nat)
    requires count > 0
    ensures Phrase(ListTokens(count, n)) && ListTokens(count, n)[|ListTokens(count, n)| - 1].Place?
  {
    if count > 1 {
      ListIsPhrase(count - 1, n + 1);
    }
  }

  function InWords(negated: bool): seq<Token> {
    if negated then [Word("not"), Word("in")] else [Word("in")]
  }

  function InText(negated: bool): string {
    if negated then "not in" else "in"
  }

  lemma {:induction false} SpellInWords(negated: bool, d: Dialect)
    ensures SpellAll(InWords(negated), d) == InText(negated)
  {
    if negated {
      SpellMore(Word("not"), [Word("in")], d);
      assert InWords(negated) == [Word("not")] + [Word("in")];
    }
  }

  lemma {:induction false} SpellAfterName(column: Path, words: seq<Token>, bracketed: seq<Token>, d: Dialect)
    requires words != [] && words[0].Word? && words[|words| - 1].Word? && bracketed != [] && bracketed[0] == Open
    ensures SpellAll([Name(column)] + (words + bracketed), d)
         == QuoteIdentifier(column, d) + " " + (SpellAll(words, d) + " " + SpellAll(bracketed, d))
  {
    SpellJoin(words, bracketed, d);
    SpellMore(Name(column), words + bracketed, d);
  }

  lemma {:induction false} SpellInList(column: Path, negated: bool, items: seq<Token>, d: Dialect)
    requires Phrase(items)
    ensures SpellAll([Name(column)] + InWords(negated) + [Open] + items + [Close], d)
         == QuoteIdentifier(column, d) + " " + InText(negated) + (" (" + SpellAll(items, d) + ")")
  {
    var words, bracketed := InWords(negated), [Open] + items + [Close];
    SpellBracketed(items, d);
    SpellInWords(negated, d);
    SpellAfterName(column, words, bracketed, d);
    GroupTokens(Name(column), words, items);
    GroupInList(QuoteIdentifier(column, d), InText(negated), SpellAll(items, d));
  }

  lemma {:induction false} GroupTokens(first: Token, words: seq<Token>, items: seq<Token>)
    ensures [first] + words + [Open] + items + [Close] == [first] + (words + ([Open] + items + [Close]))
  {
  }

  lemma GroupInList(name: string, operator: string, body: string)
    ensures name + " " + (operator + " " + ("(" + body + ")")) == name + " " + operator + (" (" + body + ")")
  {
    assert " " + ("(" + body + ")") == " (" + body + ")";
    Regroup(operator, " ", "(" + body + ")");
    Regroup(name + " ", operator, " (" + body + ")");
  }

  lemma {:induction false} RenderInList(c: Condition, d: Dialect, n: nat)
    requires c.InList? && c.values != []
    ensures RenderText(ConditionSql(c), d, n) == SpellAll(TokensOf(c, n), d)
    ensures Params(ConditionSql(c)) == c.values
  {
    var list := JoinSql(ValueSqls(c.values), RawSql(", "));
    var rest := [Text(" ("), Nested(list), Text(")")];
    RenderValues(c.values, d, n);
    RenderBracketed(" (", list, ")", d, n);
    RenderTest(c.column, InText(c.negated), rest, d, n);
    assert ConditionSql(c).chunks
        == [Nested(ColumnSql(c.column)), Text(" "), Nested(RawSql(InText(c.negated)))] + rest;
    ListIsPhrase(|c.values|, n);
    SpellInList(c.column, c.negated, ListTokens(|c.values|, n), d);
  }

  /** The parameters of a junction's arguments, in order. */
  function ArgParams(args: seq<Condition>): seq<Value> {
    if args == [] then [] else Params(ConditionSql(args[0])) + ArgParams(args[1..])
  }

  /** The rendered text of a condition is the spelling of its tokens. */
  lemma {:induction false} RenderCondition(c: Condition, d: Dialect, n: nat)
    requires Proper(c)
    ensures RenderText(ConditionSql(c), d, n) == SpellAll(TokensOf(c, n), d)
    decreases c, 0
  {
    match c
    case Compare(_, _, _) => RenderCompare(c, d, n);
    case InList(_, values, negated) =>
      if values == [] { RenderEmptyList(c, d, n); } else { RenderInList(c, d, n); }
    case NullTest(_, _) => RenderNullTest(c, d, n);
    case Junction(conjunction, args) => RenderChain(conjunction, args, d, n);
    case Not(arg) =>
      RenderCondition(arg, d, n);
      RenderBracketed("not (", ConditionSql(arg), ")", d, n);
      IsPhrase(arg, n);
      SpellNot(TokensOf(arg, n), d);
  }

  lemma {:induction false} SpellNot(inner: seq<Token>, d: Dialect)
    requires Phrase(inner)
    ensures SpellAll([Word("not"), Open] + inner + [Close], d) == "not (" + SpellAll(inner, d) + ")"
  {
    SpellBracketed(inner, d);
    SpellNotBefore([Open] + inner + [Close], d);
    GroupNot(inner);
    NotText(SpellAll(inner, d));
  }

  lemma {:induction false} SpellNotBefore(bracketed: seq<Token>, d: Dialect)
    requires bracketed != [] && bracketed[0] == Open
    ensures SpellAll([Word("not")] + bracketed, d) == "not" + " " + SpellAll(bracketed, d)
  {
    SpellMore(Word("not"), bracketed, d);
  }

  lemma {:induction false} GroupNot(inner: seq<Token>)
    ensures [Word("not"), Open] + inner + [Close] == [Word("not")] + ([Open] + inner + [Close])
  {
  }

  lemma {:induction false} NotText(text: string)
    ensures "not" + " " + ("(" + text + ")") == "not (" + text + ")"
  {
  }

  lemma {:induction false} IsPhrase(c: Condition, n: nat)
    requires Proper(c)
    ensures Phrase(TokensOf(c, n))
  {
    match c
    case Junction(conjunction, args) => ChainIsPhrase(conjunction, args, n);
    case _ =>
  }

  lemma {:induction false} ChainIsPhrase(conjunction: bool, args: seq<Condition>, n: nat)
    requires args != []
    ensures Phrase(ChainTokens(conjunction, args, n)) && ChainTokens(conjunction, args, n)[0] == Open
    decreases args
  {
    if |args| > 1 {
      ChainIsPhrase(conjunction, args[1..], n + ParamCount(args[0]));
    }
  }

  function EmptyListText(negated: bool): string {
    if negated then "1 = 1" else "1 = 0"
  }

  lemma SpellEmptyList(negated: bool, d: Dialect)
    ensures SpellAll([Number(1), Symbol("="), Number(if negated then 1 else 0)], d) == EmptyListText(negated)
  {
    var one, bit := Decimal(1), Decimal(if negated then 1 else 0);
    assert one == "1" && bit == if negated then "1" else "0";
    SpellThree(Number(1), Symbol("="), Number(if negated then 1 else 0), d);
    assert one + " " + "=" + (" " + bit) == EmptyListText(negated);
  }

  lemma {:induction false} RenderEmptyList(c: Condition, d: Dialect, n: nat)
    requires c.InList? && c.values == []
    ensures RenderText(ConditionSql(c), d, n) == SpellAll(TokensOf(c, n), d)
    ensures Params(ConditionSql(c)) == []
  {
    RenderRaw(EmptyListText(c.negated), d, n);
    SpellEmptyList(c.negated, d);
  }

  lemma {:induction false} ConditionParams(c: Condition)
    ensures c.Compare? ==> Params(ConditionSql(c)) == match c.right case Column(_) => [] case Bound(v) => [v]
    ensures c.InList? ==> Params(ConditionSql(c)) == c.values
    ensures c.NullTest? ==> Params(ConditionSql(c)) == []
    ensures c.Junction? && c.args != [] ==> Params(ConditionSql(c)) == ArgParams(c.args)
    ensures c.Not? ==> Params(ConditionSql(c)) == Params(ConditionSql(c.arg))
  {
    match c
    case Compare(_, _, _) => RenderCompare(c, Generic, 0);
    case InList(_, values, _) =>
      if values == [] { RenderEmptyList(c, Generic, 0); } else { RenderInList(c, Generic, 0); }
    case NullTest(_, _) => RenderNullTest(c, Generic, 0);
    case Junction(conjunction, args) =>
      if args != [] { ChainParams(args, " " + JunctionWord(conjunction) + " "); }
    case Not(arg) => RenderBracketed("not (", ConditionSql(arg), ")", Generic, 0);
  }

  lemma {:induction false} ChainParams(args: seq<Condition>, separator: string)
    requires args != []
    ensures Params(JoinSql(ParenthesizedSqls(args), RawSql(separator))) == ArgParams(args)
    decreases args
  {
    var item := Bracketed(args[0]);
    RenderBracketed("(", ConditionSql(args[0]), ")", Generic, 0);
    assert ParenthesizedSqls(args) == [item] + ParenthesizedSqls(args[1..]);
    if |args| == 1 {
      assert args[1..] == [];
      RenderLeaf(Nested(item), Generic, 0);
    } else {
      ChainParams(args[1..], separator);
      RenderJoinMore(item, ParenthesizedSqls(args[1..]), separator, Generic, 0);
    }
  }

  function Bracketed(c: Condition): Sql {
    Sql([Text("("), Nested(ConditionSql(c)), Text(")")])
  }

  lemma {:induction false} RenderBracketedCondition(c: Condition, d: Dialect, n: nat)
    requires RenderText(ConditionSql(c), d, n) == SpellAll(TokensOf(c, n), d) && Phrase(TokensOf(c, n))
    ensures RenderText(Bracketed(c), d, n) == SpellAll([Open] + TokensOf(c, n) + [Close], d)
    ensures Params(Bracketed(c)) == Params(ConditionSql(c))
  {
    RenderBracketed("(", ConditionSql(c), ")", d, n);
    SpellBracketed(TokensOf(c, n), d);
  }

  function ChainSql(conjunction: bool, args: seq<Condition>): Sql
    decreases args, 2
  {
    JoinSql(ParenthesizedSqls(args), RawSql(" " + JunctionWord(conjunction) + " "))
  }

  lemma {:induction false} RenderSingle(conjunction: bool, args: seq<Condition>, d: Dialect, n: nat)
    requires |args| == 1
    ensures RenderText(ChainSql(conjunction, args), d, n) == RenderText(Bracketed(args[0]), d, n)
    ensures ChainTokens(conjunction, args, n) == [Open] + TokensOf(args[0], n) + [Close]
  {
    assert ParenthesizedSqls(args[1..]) == [];
    assert ParenthesizedSqls(args) == [Bracketed(args[0])];
    RenderLeaf(Nested(Bracketed(args[0])), d, n);
  }

  lemma RenderLonger(conjunction: bool, args: seq<Condition>, d: Dialect, n: nat)
    requires |args| > 1
    ensures RenderText(ChainSql(conjunction, args), d, n)
         == RenderText(Bracketed(args[0]), d, n) + (" " + JunctionWord(conjunction) + " "
            + RenderText(ChainSql(conjunction, args[1..]), d, n + ParamCount(args[0])))
  {
    var separator := " " + JunctionWord(conjunction) + " ";
    RenderBracketed("(", ConditionSql(args[0]), ")", d, n);
    RenderJoinMore(Bracketed(args[0]), ParenthesizedSqls(args[1..]), separator, d, n);
  }

  lemma {:induction false} RenderChain(conjunction: bool, args: seq<Condition>, d: Dialect, n: nat)
    requires args != [] && AllProper(args)
    ensures RenderText(ChainSql(conjunction, args), d, n) == SpellAll(ChainTokens(conjunction, args, n), d)
    decreases args, 1
  {
    RenderCondition(args[0], d, n);
    IsPhrase(args[0], n);
    RenderBracketedCondition(args[0], d, n);
    if |args| == 1 {
      RenderSingle(conjunction, args, d, n);
    } else {
      RenderChain(conjunction, args[1..], d, n + ParamCount(args[0]));
      JoinRendered(conjunction, args, d, n);
    }
  }

  lemma {:induction false} JoinRendered(conjunction: bool, args: seq<Condition>, d: Dialect, n: nat)
    requires |args| > 1
    requires RenderText(Bracketed(args[0]), d, n) == SpellAll([Open] + TokensOf(args[0], n) + [Close], d)
    requires RenderText(ChainSql(conjunction, args[1..]), d, n + ParamCount(args[0]))
          == SpellAll(ChainTokens(conjunction, args[1..], n + ParamCount(args[0])), d)
    ensures RenderText(ChainSql(conjunction, args), d, n) == SpellAll(ChainTokens(conjunction, args, n), d)
  {
    var more, m := args[1..], n + ParamCount(args[0]);
    RenderLonger(conjunction, args, d, n);
    ChainIsPhrase(conjunction, more, m);
    SpellChain([Open] + TokensOf(args[0], n) + [Close], JunctionWord(conjunction), ChainTokens(conjunction, more, m), d);
  }

  lemma {:induction false} SpellChain(first: seq<Token>, word: string, more: seq<Token>, d: Dialect)
    requires first != [] && first[|first| - 1] == Close && more != [] && more[0] == Open
    ensures SpellAll(first + ([Word(word)] + more), d) == SpellAll(first, d) + (" " + word + " " + SpellAll(more, d))
  {
    SpellMore(Word(word), more, d);
    SpellJoin(first, [Word(word)] + more, d);
    var text := SpellAll(more, d);
    Regroup(SpellAll(first, d), " ", word + " " + text);
    assert " " + (word + " " + text) == " " + word + " " + text;
  }

  // ----- Placeholders are numbered like the parameters ----------------------------------------

  function PlaceCount(tokens: seq<Token>): nat {
    if tokens == [] then 0 else (if tokens[0].Place? then 1 else 0) + PlaceCount(tokens[1..])
  }

  lemma {:induction false} NumberedJoin(a: seq<Token>, b: seq<Token>, n: nat)
    requires Numbered(a, n) && Numbered(b, n + PlaceCount(a))
    ensures Numbered(a + b, n) && PlaceCount(a + b) == PlaceCount(a) + PlaceCount(b)
    decreases a
  {
    if a == [] {
      assert a + b == b;
    } else {
      assert (a + b)[1..] == a[1..] + b;
      NumberedJoin(a[1..], b, if a[0].Place? then n + 1 else n);
    }
  }

  lemma {:induction false} PlainTokens(tokens: seq<Token>, n: nat)
    requires forall i :: 0 <= i < |tokens| ==> !tokens[i].Place?
    ensures Numbered(tokens, n) && PlaceCount(tokens) == 0
  {
    if tokens != [] {
      PlainTokens(tokens[1..], n);
    }
  }

  /** A phrase between words and brackets that hold no placeholder. */
  lemma {:induction false} NumberedBetween(before: seq<Token>, phrase: seq<Token>, n: nat)
    requires forall i :: 0 <= i < |before| ==> !before[i].Place?
    requires Numbered(phrase, n)
    ensures Numbered(before + phrase + [Close], n) && PlaceCount(before + phrase + [Close]) == PlaceCount(phrase)
  {
    PlainTokens(before, n);
    NumberedJoin(before, phrase, n);
    PlainTokens([Close], n + PlaceCount(phrase));
    NumberedJoin(before + phrase, [Close], n);
  }

  lemma {:induction false} NumberedList(count: nat, n: nat)
    ensures Numbered(ListTokens(count, n), n) && PlaceCount(ListTokens(count, n)) == count
    ensures AllValid(ListTokens(count, n))
  {
    if count == 1 {
      assert [Place(n + 1)][1..] == [];
    } else if count > 1 {
      NumberedList(count - 1, n + 1);
      var more := ListTokens(count - 1, n + 1);
      assert ([Place(n + 1), Comma] + more)[1..] == [Comma] + more;
      assert ([Comma] + more)[1..] == more;
    }
  }

  lemma {:induction false} CompareNumbered(c: Condition, n: nat)
    requires Proper(c) && c.Compare?
    ensures AllValid(TokensOf(c, n)) && Numbered(TokensOf(c, n), n) && PlaceCount(TokensOf(c, n)) == ParamCount(c)
  {
    ConditionParams(c);
    var ts := TokensOf(c, n);
    var start, last := ts[..2], ts[2];
    PlainTokens(start, n);
    assert ts == start + [last];
    assert [last][1..] == [];
    NumberedJoin(start, [last], n);
  }

  lemma {:induction false} NullTestNumbered(c: Condition, n: nat)
    requires Proper(c) && (c.NullTest? || (c.InList? && c.values == []))
    ensures AllValid(TokensOf(c, n)) && Numbered(TokensOf(c, n), n) && PlaceCount(TokensOf(c, n)) == ParamCount(c)
  {
    ConditionParams(c);
    var ts := TokensOf(c, n);
    assert ParamCount(c) == 0;
    assert forall i :: 0 <= i < |ts| ==> ValidToken(ts[i]) && !ts[i].Place?;
    PlainTokens(ts, n);
  }

  lemma {:induction false} InListNumbered(c: Condition, n: nat)
    requires Proper(c) && c.InList? && c.values != []
    ensures AllValid(TokensOf(c, n)) && Numbered(TokensOf(c, n), n) && PlaceCount(TokensOf(c, n)) == ParamCount(c)
  {
    ConditionParams(c);
    var before := [Name(c.column)] + InWords(c.negated) + [Open];
    assert AllValid(before);
    NumberedList(|c.values|, n);
    NumberedBetween(before, ListTokens(|c.values|, n), n);
  }

  lemma {:induction false} TokensNumbered(c: Condition, n: nat)
    requires Proper(c)
    ensures AllValid(TokensOf(c, n)) && Numbered(TokensOf(c, n), n) && PlaceCount(TokensOf(c, n)) == ParamCount(c)
    decreases c, 0
  {
    match c
    case Compare(_, _, _) => CompareNumbered(c, n);
    case InList(_, values, _) => if values == [] { NullTestNumbered(c, n); } else { InListNumbered(c, n); }
    case NullTest(_, _) => NullTestNumbered(c, n);
    case Junction(conjunction, args) =>
      ConditionParams(c);
      ChainNumbered(conjunction, args, n);
    case Not(arg) =>
      ConditionParams(c);
      TokensNumbered(arg, n);
      NumberedBetween([Word("not"), Open], TokensOf(arg, n), n);
  }

  lemma {:induction false} ChainNumbered(conjunction: bool, args: seq<Condition>, n: nat)
    requires AllProper(args)
    ensures AllValid(ChainTokens(conjunction, args, n)) && Numbered(ChainTokens(conjunction, args, n), n)
    ensures PlaceCount(ChainTokens(conjunction, args, n)) == |ArgParams(args)|
    decreases args, 1
  {
    if args != [] {
      var m := n + ParamCount(args[0]);
      TokensNumbered(args[0], n);
      NumberedBetween([Open], TokensOf(args[0], n), n);
      var first := [Open] + TokensOf(args[0], n) + [Close];
      if |args| == 1 {
        assert first + [] == first;
      } else {
        ChainNumbered(conjunction, args[1..], m);
        WordBetween(first, JunctionWord(conjunction), ChainTokens(conjunction, args[1..], m), n);
      }
    }
  }

  lemma {:induction false} WordBetween(first: seq<Token>, word: string, more: seq<Token>, n: nat)
    requires AllValid(first) && Numbered(first, n) && ValidToken(Word(word))
    requires AllValid(more) && Numbered(more, n + PlaceCount(first))
    ensures var all := first + ([Word(word)] + more);
      AllValid(all) && Numbered(all, n) && PlaceCount(all) == PlaceCount(first) + PlaceCount(more)
  {
    PlainTokens([Word(word)], n + PlaceCount(first));
    NumberedJoin([Word(word)], more, n + PlaceCount(first));
    NumberedJoin(first, [Word(word)] + more, n);
  }

  /** The text of a condition lexes to its tokens. */
  lemma {:induction false} ConditionTokens(c: Condition, d: Dialect)
    requires Proper(c)
    ensures Tokens(RenderText(ConditionSql(c), d, 0), d, 0) == Some(TokensOf(c, 0))
  {
    RenderCondition(c, d, 0);
    IsPhrase(c, 0);
    TokensNumbered(c, 0);
    ReadSpelled(TokensOf(c, 0), d, 0, 0);
  }
}
