/**
 A recursive-descent reading of condition tokens with SQL's precedence, and the main result:
 rendering and reading keep the meaning.
 */
module ConditionReading {
  import opened SqlText
  import opened SqlReading
  import opened Conditions

  datatype Atom = ColumnAtom(path: Path) | PlaceAtom(n: nat) | NumberAtom(n: nat)

  datatype Tree =
    | Comparison(left: Atom, operator: string, right: Atom)
    | Membership(left: Atom, items: seq<Atom>, negated: bool)
    | Nullness(left: Atom, negated: bool)
    | And(first: Tree, second: Tree)
    | Or(first: Tree, second: Tree)
    | Negation(inner: Tree)

  // ----- Parser --------------------------------------------------------------------------------

  function ReadAtom(token: Token): Option<Atom> {
    match token
    case Name(path) => Some(ColumnAtom(path))
    case Place(n) => Some(PlaceAtom(n))
    case Number(n) => Some(NumberAtom(n))
    case _ => None
  }

  function ComparisonOf(token: Token): Option<string> {
    match token
    case Symbol(s) => if s in ["=", "<>", ">", ">=", "<", "<="] then Some(s) else None
    case Word(w) => if w in ["like", "ilike"] then Some(w) else None
    case _ => None
  }

  /** Atoms with commas between them, up to a closing bracket. */
  function ReadItems(tokens: seq<Token>): (r: Option<(seq<Atom>, seq<Token>)>)
    ensures r.Some? ==> |r.value.1| < |tokens|
  {
    if |tokens| < 2 || ReadAtom(tokens[0]) == None then None
    else
      var item := ReadAtom(tokens[0]).value;
      if tokens[1] == Close then Some(([item], tokens[2..]))
      else if tokens[1] != Comma then None
      else
        match ReadItems(tokens[2..])
        case None => None
        case Some((items, rest)) => Some(([item] + items, rest))
  }

  function ReadMembership(left: Atom, negated: bool, tokens: seq<Token>): (r: Option<(Tree, seq<Token>)>)
    ensures r.Some? ==> |r.value.1| < |tokens|
  {
    match ReadItems(tokens)
    case None => None
    case Some((items, rest)) => Some((Membership(left, items, negated), rest))
  }

  function ReadTest(tokens: seq<Token>): (r: Option<(Tree, seq<Token>)>)
    ensures r.Some? ==> |r.value.1| < |tokens|
  {
    if |tokens| < 3 || ReadAtom(tokens[0]) == None then None
    else
      var left := ReadAtom(tokens[0]).value;
      if ComparisonOf(tokens[1]).Some? then
        match ReadAtom(tokens[2])
        case None => None
        case Some(right) => Some((Comparison(left, ComparisonOf(tokens[1]).value, right), tokens[3..]))
      else if tokens[1] == Word("is") then
        if tokens[2] == Word("null") then Some((Nullness(left, false), tokens[3..]))
        else if tokens[2] == Word("not") && |tokens| > 3 && tokens[3] == Word("null") then
          Some((Nullness(left, true), tokens[4..]))
        else None
      else if tokens[1] == Word("in") && tokens[2] == Open then ReadMembership(left, false, tokens[3..])
      else if tokens[1] == Word("not") && tokens[2] == Word("in") && |tokens| > 3 && tokens[3] == Open then
        ReadMembership(left, true, tokens[4..])
      else None
  }

  /** OR binds loosest: conjunctions with "or" between them. */
  function ReadOr(tokens: seq<Token>): (r: Option<(Tree, seq<Token>)>)
    ensures r.Some? ==> |r.value.1| < |tokens|
    decreases |tokens|, 3
  {
    match ReadAnd(tokens)
    case None => None
    case Some((first, rest)) =>
      if rest == [] || rest[0] != Word("or") then Some((first, rest))
      else
        match ReadOr(rest[1..])
        case None => None
        case Some((second, after)) => Some((Or(first, second), after))
  }

  function ReadAnd(tokens: seq<Token>): (r: Option<(Tree, seq<Token>)>)
    ensures r.Some? ==> |r.value.1| < |tokens|
    decreases |tokens|, 2
  {
    match ReadNot(tokens)
    case None => None
    case Some((first, rest)) =>
      if rest == [] || rest[0] != Word("and") then Some((first, rest))
      else
        match ReadAnd(rest[1..])
        case None => None
        case Some((second, after)) => Some((And(first, second), after))
  }

  /** NOT binds tightest, and brackets hold a whole condition. */
  function ReadNot(tokens: seq<Token>): (r: Option<(Tree, seq<Token>)>)
    ensures r.Some? ==> |r.value.1| < |tokens|
    decreases |tokens|, 1
  {
    if tokens == [] then None
    else if tokens[0] == Word("not") then
      match ReadNot(tokens[1..])
      case None => None
      case Some((inner, rest)) => Some((Negation(inner), rest))
    else if tokens[0] == Open then
      match ReadOr(tokens[1..])
      case None => None
      case Some((inner, rest)) => if rest == [] || rest[0] != Close then None else Some((inner, rest[1..]))
    else ReadTest(tokens)
  }

  /** A whole text read as one condition. */
  function Read(text: string, d: Dialect): Option<Tree> {
    match Tokens(text, d, 0)
    case None => None
    case Some(tokens) =>
      match ReadOr(tokens)
      case Some((tree, rest)) => if rest == [] then Some(tree) else None
      case None => None
  }

  // ----- Meaning of a parsed condition ---------------------------------------------------------

  /** A placeholder stands for the parameter of its number. */
  function AtomValue(a: Atom, params: seq<Value>, env: Env): Value {
    match a
    case ColumnAtom(path) => env.column(path)
    case PlaceAtom(n) => if 1 <= n <= |params| then params[n - 1] else Null
    case NumberAtom(n) => Scalar(n)
  }

  /** SQL's comparisons, by their symbols: unknown if either side is NULL. */
  function CompareValues(symbol: string, a: Value, b: Value, env: Env): Truth {
    if a == Null || b == Null then Unknown
    else if symbol == "=" then Bool(a.n == b.n)
    else if symbol == "<>" then Bool(a.n != b.n)
    else if symbol == "<" then Bool(env.below(a.n, b.n))
    else if symbol == "<=" then Bool(env.below(a.n, b.n) || a.n == b.n)
    else if symbol == ">" then Bool(env.below(b.n, a.n))
    else if symbol == ">=" then Bool(env.below(b.n, a.n) || a.n == b.n)
    else if symbol == "like" then Bool(env.matches(a.n, b.n))
    else Bool(env.matchesAnyCase(a.n, b.n))
  }

  /** `x IN (a, b, ...)` is `x = a OR x = b OR ...`. */
  function EvalMembership(x: Value, items: seq<Atom>, params: seq<Value>, env: Env): Truth {
    if items == [] then False
    else Either(CompareValues("=", x, AtomValue(items[0], params, env), env),
                EvalMembership(x, items[1..], params, env))
  }

  function Eval(tree: Tree, params: seq<Value>, env: Env): Truth {
    match tree
    case Comparison(left, operator, right) =>
      CompareValues(operator, AtomValue(left, params, env), AtomValue(right, params, env), env)
    case Membership(left, items, negated) =>
      var member := EvalMembership(AtomValue(left, params, env), items, params, env);
      if negated then Negate(member) else member
    case Nullness(left, negated) => Bool((AtomValue(left, params, env) == Null) != negated)
    case And(first, second) => Both(Eval(first, params, env), Eval(second, params, env))
    case Or(first, second) => Either(Eval(first, params, env), Eval(second, params, env))
    case Negation(inner) => Negate(Eval(inner, params, env))
  }

  // ----- The tree a condition is read as -------------------------------------------------------

  function PlaceAtoms(count: nat, n: nat): seq<Atom> {
    if count == 0 then [] else [PlaceAtom(n + 1)] + PlaceAtoms(count - 1, n + 1)
  }

  function TreeOf(c: Condition, n: nat): Tree
    requires Proper(c)
    decreases c, 0
  {
    match c
    case Compare(column, operator, right) =>
      Comparison(ColumnAtom(column), OperatorText(operator),
                 match right case Column(path) => ColumnAtom(path) case Bound(_) => PlaceAtom(n + 1))
    case InList(column, values, negated) =>
      if values == [] then Comparison(NumberAtom(1), "=", NumberAtom(if negated then 1 else 0))
      else Membership(ColumnAtom(column), PlaceAtoms(|values|, n), negated)
    case NullTest(column, negated) => Nullness(ColumnAtom(column), negated)
    case Junction(conjunction, args) => ChainTree(conjunction, args, n)
    case Not(arg) => Negation(TreeOf(arg, n))
  }

  function ChainTree(conjunction: bool, args: seq<Condition>, n: nat): Tree
    requires args != [] && AllProper(args)
    decreases args, 1
  {
    var first := TreeOf(args[0], n);
    if |args| == 1 then first
    else
      var rest := ChainTree(conjunction, args[1..], n + ParamCount(args[0]));
      if conjunction then And(first, rest) else Or(first, rest)
  }

  /** What follows a whole condition: nothing, or the bracket that holds it. */
  ghost predicate Stops(rest: seq<Token>) {
    rest == [] || rest[0] == Close
  }

  lemma {:induction false} ReadList(count: nat, n: nat, rest: seq<Token>)
    requires count > 0
    ensures ReadItems(ListTokens(count, n) + [Close] + rest) == Some((PlaceAtoms(count, n), rest))
    decreases count
  {
    var tokens := ListTokens(count, n) + [Close] + rest;
    if count == 1 {
      assert PlaceAtoms(count - 1, n + 1) == [];
      assert PlaceAtoms(count, n) == [PlaceAtom(n + 1)];
      assert ListTokens(count, n) == [Place(n + 1)];
      assert tokens == [Place(n + 1), Close] + rest;
      assert tokens[2..] == rest;
    } else {
      var more := ListTokens(count - 1, n + 1) + [Close] + rest;
      assert tokens == [Place(n + 1), Comma] + more;
      assert tokens[2..] == more;
      ReadList(count - 1, n + 1, rest);
    }
  }

  lemma {:induction false} ReadCompare(c: Condition, n: nat, rest: seq<Token>)
    requires c.Compare? && Proper(c)
    ensures ReadNot(TokensOf(c, n) + rest) == Some((TreeOf(c, n), rest))
  {
    var tokens := TokensOf(c, n) + rest;
    assert tokens[3..] == rest;
    assert ComparisonOf(tokens[1]) == Some(OperatorText(c.operator));
  }

  lemma {:induction false} ReadEmptyList(c: Condition, n: nat, rest: seq<Token>)
    requires c.InList? && c.values == [] && Proper(c)
    ensures ReadNot(TokensOf(c, n) + rest) == Some((TreeOf(c, n), rest))
  {
    var tokens := TokensOf(c, n) + rest;
    assert tokens[3..] == rest;
    assert ComparisonOf(tokens[1]) == Some("=");
  }

  lemma {:induction false} ReadNullTest(c: Condition, n: nat, rest: seq<Token>)
    requires c.NullTest? && Proper(c)
    ensures ReadNot(TokensOf(c, n) + rest) == Some((TreeOf(c, n), rest))
  {
    var tokens := TokensOf(c, n) + rest;
    if c.negated { assert tokens[4..] == rest; } else { assert tokens[3..] == rest; }
  }

  lemma {:induction false} ReadInTest(column: Path, negated: bool, items: seq<Token>, atoms: seq<Atom>, rest: seq<Token>)
    requires ReadItems(items) == Some((atoms, rest)) && items != []
    ensures ReadNot([Name(column)] + InWords(negated) + [Open] + items)
         == Some((Membership(ColumnAtom(column), atoms, negated), rest))
  {
    var tokens := [Name(column)] + InWords(negated) + [Open] + items;
    if negated {
      assert tokens == [Name(column), Word("not"), Word("in"), Open] + items;
      assert tokens[4..] == items;
    } else {
      assert tokens == [Name(column), Word("in"), Open] + items;
      assert tokens[3..] == items;
    }
  }

  lemma {:induction false} ReadSimple(c: Condition, n: nat, rest: seq<Token>)
    requires Proper(c) && !c.Junction? && !c.Not?
    ensures ReadNot(TokensOf(c, n) + rest) == Some((TreeOf(c, n), rest))
  {
    match c
    case Compare(_, _, _) => ReadCompare(c, n, rest);
    case InList(column, values, negated) =>
      if values == [] {
        ReadEmptyList(c, n, rest);
      } else {
        var list := ListTokens(|values|, n);
        var items := list + [Close] + rest;
        ReadList(|values|, n, rest);
        ReadInTest(column, negated, items, PlaceAtoms(|values|, n), rest);
        var before := [Name(column)] + InWords(negated) + [Open];
        assert before + list + [Close] + rest == before + items;
      }
    case NullTest(_, _) => ReadNullTest(c, n, rest);
  }

  /** A bracketed condition is read as that condition, whatever follows. */
  lemma {:induction false} ReadBracketed(c: Condition, n: nat, rest: seq<Token>)
    requires Proper(c)
    ensures ReadNot([Open] + TokensOf(c, n) + [Close] + rest) == Some((TreeOf(c, n), rest))
    decreases c, 2
  {
    var tokens := [Open] + TokensOf(c, n) + [Close] + rest;
    var inner := [Close] + rest;
    assert tokens[1..] == TokensOf(c, n) + inner;
    ReadCondition(c, n, inner);
    assert inner[1..] == rest;
  }

  lemma {:induction false} ReadNegation(inner: seq<Token>, tree: Tree, rest: seq<Token>)
    requires ReadNot(inner) == Some((tree, rest)) && Stops(rest)
    ensures ReadOr([Word("not")] + inner) == Some((Negation(tree), rest))
  {
    var tokens := [Word("not")] + inner;
    assert tokens[0] == Word("not") && tokens[1..] == inner;
    assert ReadNot(tokens) == Some((Negation(tree), rest));
    assert ReadAnd(tokens) == Some((Negation(tree), rest));
  }

  lemma {:induction false} ReadCondition(c: Condition, n: nat, rest: seq<Token>)
    requires Proper(c) && Stops(rest)
    ensures ReadOr(TokensOf(c, n) + rest) == Some((TreeOf(c, n), rest))
    decreases c, 1
  {
    var tokens := TokensOf(c, n) + rest;
    match c
    case Junction(conjunction, args) =>
      if conjunction { ReadConjunction(args, n, rest); } else { ReadDisjunction(args, n, rest); }
    case Not(arg) =>
      var inner := [Open] + TokensOf(arg, n) + [Close] + rest;
      ReadBracketed(arg, n, rest);
      assert tokens == [Word("not")] + inner;
      ReadNegation(inner, TreeOf(arg, n), rest);
    case _ => ReadSimple(c, n, rest);
  }

  lemma ChainSplit(conjunction: bool, args: seq<Condition>, n: nat, rest: seq<Token>)
    requires |args| > 1
    ensures ChainTokens(conjunction, args, n) + rest
         == [Open] + TokensOf(args[0], n) + [Close]
            + ([Word(JunctionWord(conjunction))]
               + (ChainTokens(conjunction, args[1..], n + ParamCount(args[0])) + rest))
  {
  }

  lemma {:induction false} ChainSingle(conjunction: bool, args: seq<Condition>, n: nat, rest: seq<Token>)
    requires |args| == 1
    ensures ChainTokens(conjunction, args, n) + rest == [Open] + TokensOf(args[0], n) + [Close] + rest
  {
  }

  lemma {:induction false} ReadConjunction(args: seq<Condition>, n: nat, rest: seq<Token>)
    requires args != [] && AllProper(args) && Stops(rest)
    ensures ReadAnd(ChainTokens(true, args, n) + rest) == Some((ChainTree(true, args, n), rest))
    decreases args, 3
  {
    if |args| == 1 {
      ChainSingle(true, args, n, rest);
      ReadBracketed(args[0], n, rest);
    } else {
      var m := n + ParamCount(args[0]);
      var more := ChainTokens(true, args[1..], m) + rest;
      var after := [Word("and")] + more;
      ChainSplit(true, args, n, rest);
      ReadBracketed(args[0], n, after);
      assert after[1..] == more;
      ReadConjunction(args[1..], m, rest);
    }
  }

  lemma {:induction false} ReadDisjunction(args: seq<Condition>, n: nat, rest: seq<Token>)
    requires args != [] && AllProper(args) && Stops(rest)
    ensures ReadOr(ChainTokens(false, args, n) + rest) == Some((ChainTree(false, args, n), rest))
    decreases args, 3
  {
    if |args| == 1 {
      ChainSingle(false, args, n, rest);
      ReadBracketed(args[0], n, rest);
    } else {
      var m := n + ParamCount(args[0]);
      var more := ChainTokens(false, args[1..], m) + rest;
      var after := [Word("or")] + more;
      ChainSplit(false, args, n, rest);
      ReadBracketed(args[0], n, after);
      assert after[1..] == more;
      ReadDisjunction(args[1..], m, rest);
    }
  }

  // ----- The tree means what the condition means -----------------------------------------------

  /** The parameters from position n on are exactly `own`. */
  ghost predicate Placed(params: seq<Value>, n: nat, own: seq<Value>) {
    n + |own| <= |params| && params[n..n + |own|] == own
  }

  lemma PlacedSplit(params: seq<Value>, n: nat, a: seq<Value>, b: seq<Value>)
    requires Placed(params, n, a + b)
    ensures Placed(params, n, a) && Placed(params, n + |a|, b)
  {
    var own := params[n..n + |a + b|];
    assert params[n..n + |a|] == own[..|a|] == a;
    assert params[n + |a|..n + |a| + |b|] == own[|a|..] == b;
  }

  lemma {:induction false} MembershipMeans(x: Value, values: seq<Value>, params: seq<Value>, n: nat, env: Env)
    requires Placed(params, n, values) && values != []
    ensures EvalMembership(x, PlaceAtoms(|values|, n), params, env) == Member(x, values)
    decreases values
  {
    var more := values[1..];
    assert values == [values[0]] + more;
    PlacedSplit(params, n, [values[0]], more);
    assert params[n..n + 1][0] == params[n];
    FirstPlace(x, |values|, params, n, env);
    if more != [] {
      MembershipMeans(x, more, params, n + 1, env);
    }
    EitherMember(x, values[0], more, env);
  }

  /** One more value to compare with. */
  lemma {:induction false} EitherMember(x: Value, first: Value, more: seq<Value>, env: Env)
    ensures Either(CompareValues("=", x, first, env), Member(x, more)) == Member(x, [first] + more)
  {
  }

  /** Whether a value is in a list, in three-valued logic. */
  function Member(x: Value, values: seq<Value>): Truth {
    if values == [] then False
    else if x == Null then Unknown else if x in values then True else if Null in values then Unknown else False
  }

  lemma {:induction false} FirstPlace(x: Value, count: nat, params: seq<Value>, n: nat, env: Env)
    requires count > 0
    ensures EvalMembership(x, PlaceAtoms(count, n), params, env)
         == Either(CompareValues("=", x, AtomValue(PlaceAtom(n + 1), params, env), env),
                   EvalMembership(x, PlaceAtoms(count - 1, n + 1), params, env))
  {
    assert PlaceAtoms(count, n)[1..] == PlaceAtoms(count - 1, n + 1);
  }

  /** The symbol a builder writes means in SQL what the builder promises. */
  lemma {:induction false} SymbolMeans(o: Operator, a: Value, b: Value, env: Env)
    ensures CompareValues(OperatorText(o), a, b, env)
         == if a == Null || b == Null then Unknown else Bool(Holds(o, a.n, b.n, env))
  {
    match o
    case Eq =>
    case Ne =>
    case Gt =>
    case Gte =>
    case Lt =>
    case Lte =>
    case Like =>
    case ILike =>
  }

  lemma {:induction false} TreeMeans(c: Condition, params: seq<Value>, n: nat, env: Env)
    requires Proper(c)
    requires Placed(params, n, Params(ConditionSql(c)))
    ensures Eval(TreeOf(c, n), params, env) == Meaning(c, env)
    decreases c, 0
  {
    ConditionParams(c);
    match c
    case Compare(_, operator, right) =>
      SymbolMeans(operator, env.column(c.column), match right case Column(path) => env.column(path) case Bound(value) => value, env);
      if right.Bound? {
        assert params[n..n + 1][0] == params[n];
      }
    case InList(column, values, _) =>
      if values != [] {
        MembershipMeans(env.column(column), values, params, n, env);
      }
    case NullTest(_, _) =>
    case Junction(conjunction, args) => ChainMeans(conjunction, args, params, n, env);
    case Not(arg) => TreeMeans(arg, params, n, env);
  }

  lemma {:induction false} ChainMeans(conjunction: bool, args: seq<Condition>, params: seq<Value>, n: nat, env: Env)
    requires args != [] && AllProper(args)
    requires Placed(params, n, ArgParams(args))
    ensures Eval(ChainTree(conjunction, args, n), params, env) == Meaning(Junction(conjunction, args), env)
    decreases args, 1
  {
    PlacedSplit(params, n, Params(ConditionSql(args[0])), ArgParams(args[1..]));
    TreeMeans(args[0], params, n, env);
    if |args| == 1 {
      assert args == [args[0]];
      SingleMeans(conjunction, args[0], env);
    } else {
      ChainMeans(conjunction, args[1..], params, n + ParamCount(args[0]), env);
    }
  }

  /**
   The main result: whatever the builders made, in every dialect, its text is read back with the
   precedence of SQL as a condition with the same three-valued meaning under its parameters, and
   its placeholders are numbered 1, 2, ... with one parameter each.
   */
  lemma {:induction false} RenderedConditionKeepsItsMeaning(c: Condition, d: Dialect, env: Env)
    requires Proper(c)
    ensures var text, params := RenderText(ConditionSql(c), d, 0), Params(ConditionSql(c));
      && Read(text, d).Some?
      && Eval(Read(text, d).value, params, env) == Meaning(c, env)
      && Tokens(text, d, 0).Some?
      && Numbered(Tokens(text, d, 0).value, 0)
      && PlaceCount(Tokens(text, d, 0).value) == |params|
  {
    var params := Params(ConditionSql(c));
    ConditionTokens(c, d);
    TokensNumbered(c, 0);
    ReadCondition(c, 0, []);
    assert TokensOf(c, 0) + [] == TokensOf(c, 0);
    assert params[0..|params|] == params;
    TreeMeans(c, params, 0, env);
  }
}
