/**
 Reading rendered text back into tokens, and spelling tokens as text.
 */
module SqlReading {
  import opened SqlText

  datatype Token =
    | Open
    | Close
    | Comma
    | Word(word: string)
    | Symbol(symbol: string)
    | Name(path: Path)
    | Place(n: nat)
    | Number(n: nat)

  // ----- Tokens of a text -----------------------------------------------------------------

  predicate IsLetter(c: char) {
    'a' <= c <= 'z'
  }

  predicate IsIdentifierChar(c: char) {
    ('a' <= c <= 'z') || ('A' <= c <= 'Z') || ('0' <= c <= '9') || c == '_'
  }

  predicate IsSymbolChar(c: char) {
    c == '=' || c == '<' || c == '>'
  }

  /** The characters a part of an identifier may have. */
  lemma {:induction false} IdentifierChars(c: char, i: nat)
    ensures IsIdentifierChar(c) ==> c in "ABCDEFGHIJKLMNOPQRSTUVWXYZ" || c in "abcdefghijklmnopqrstuvwxyz" || c in "0123456789_"
    ensures i < 26 ==> IsIdentifierChar("ABCDEFGHIJKLMNOPQRSTUVWXYZ"[i]) && IsIdentifierChar("abcdefghijklmnopqrstuvwxyz"[i])
    ensures i < 11 ==> IsIdentifierChar("0123456789_"[i])
  {
    Capitals(c, i);
    Letters(c, i);
    Digits(c, i);
  }

  lemma {:induction false} Capitals(c: char, i: nat)
    ensures 'A' <= c <= 'Z' ==> c in "ABCDEFGHIJKLMNOPQRSTUVWXYZ"
    ensures i < 26 ==> 'A' <= "ABCDEFGHIJKLMNOPQRSTUVWXYZ"[i] <= 'Z'
  {
    var capitals := "ABCDEFGHIJKLMNOPQRSTUVWXYZ";
    if 'A' <= c <= 'Z' {
      assert capitals[c as int - 'A' as int] == c;
    }
  }

  lemma {:induction false} Letters(c: char, i: nat)
    ensures 'a' <= c <= 'z' ==> c in "abcdefghijklmnopqrstuvwxyz"
    ensures i < 26 ==> 'a' <= "abcdefghijklmnopqrstuvwxyz"[i] <= 'z'
  {
    var letters := "abcdefghijklmnopqrstuvwxyz";
    if 'a' <= c <= 'z' {
      assert letters[c as int - 'a' as int] == c;
    }
  }

  lemma {:induction false} Digits(c: char, i: nat)
    ensures '0' <= c <= '9' || c == '_' ==> c in "0123456789_"
    ensures i < 11 ==> '0' <= "0123456789_"[i] <= '9' || "0123456789_"[i] == '_'
  {
    var digits := "0123456789_";
    if '0' <= c <= '9' {
      assert digits[c as int - '0' as int] == c;
    } else if c == '_' {
      assert digits[10] == c;
    }
  }

  function RunLength(t: string, p: char -> bool): (n: nat)
    ensures n <= |t|
  {
    if t != "" && p(t[0]) then 1 + RunLength(t[1..], p) else 0
  }

  lemma {:induction false} RunOf(s: string, rest: string, p: char -> bool)
    requires forall i :: 0 <= i < |s| ==> p(s[i])
    requires rest != "" ==> !p(rest[0])
    ensures RunLength(s + rest, p) == |s|
  {
    if s == "" {
      assert s + rest == rest;
    } else {
      assert (s + rest)[1..] == s[1..] + rest;
      RunOf(s[1..], rest, p);
    }
  }

  function ParseDecimal(s: string): nat
    requires forall i :: 0 <= i < |s| ==> IsDigit(s[i])
  {
    if s == "" then 0
    else
      var last := s[|s| - 1];
      assert IsDigit(last);
      10 * ParseDecimal(s[..|s| - 1]) + (last as int - '0' as int)
  }

  lemma {:induction false} DecimalReadBack(n: nat)
    ensures ParseDecimal(Decimal(n)) == n
  {
    if n >= 10 {
      DecimalReadBack(n / 10);
      assert Decimal(n)[..|Decimal(n)| - 1] == Decimal(n / 10);
    } else {
      assert Decimal(n)[..0] == "";
    }
  }

  /** What encloses a part of an identifier in a dialect. */
  function NameQuote(d: Dialect): char {
    match d
    case MySql => '`'
    case Generic => '"'
    case Postgres => '"'
    case Sqlite => '"'
  }

  /** A quoted identifier path at the front of `t`, and what follows it. */
  function ReadPath(t: string, d: Dialect): Option<(Path, string)>
    decreases |t|
  {
    if t == "" || t[0] != NameQuote(d) then None
    else
      var n := RunLength(t[1..], IsIdentifierChar);
      var part, rest := t[1..n + 1], t[n + 1..];
      if rest == "" || rest[0] != NameQuote(d) then None
      else if |rest| > 1 && rest[1] == '.' then
        match ReadPath(rest[2..], d)
        case None => None
        case Some((path, after)) => Some(([part] + path, after))
      else Some(([part], rest[1..]))
  }

  lemma {:induction false} ReadPathShrinks(t: string, d: Dialect)
    requires ReadPath(t, d).Some?
    ensures |ReadPath(t, d).value.1| < |t|
    decreases |t|
  {
    var n := RunLength(t[1..], IsIdentifierChar);
    var rest := t[n + 1..];
    if |rest| > 1 && rest[1] == '.' {
      ReadPathShrinks(rest[2..], d);
    }
  }

  function Cons(token: Token, rest: Option<seq<Token>>): Option<seq<Token>> {
    match rest
    case None => None
    case Some(tokens) => Some([token] + tokens)
  }

  /** The tokens of a text; `n` unnumbered placeholders have been read before. */
  function Tokens(t: string, d: Dialect, n: nat): Option<seq<Token>>
    decreases |t|
  {
    if t == "" then Some([])
    else if t[0] == ' ' then Tokens(t[1..], d, n)
    else if t[0] == '(' then Cons(Open, Tokens(t[1..], d, n))
    else if t[0] == ')' then Cons(Close, Tokens(t[1..], d, n))
    else if t[0] == ',' then Cons(Comma, Tokens(t[1..], d, n))
    else if t[0] == '?' then
      if d == Postgres then None else Cons(Place(n + 1), Tokens(t[1..], d, n + 1))
    else if t[0] == '$' then
      var k := RunLength(t[1..], IsDigit);
      RunIsRun(t[1..], IsDigit);
      if d != Postgres || k == 0 then None
      else Cons(Place(ParseDecimal(t[1..][..k])), Tokens(t[1..][k..], d, n))
    else if IsDigit(t[0]) then
      var k := RunLength(t, IsDigit);
      RunIsRun(t, IsDigit);
      Cons(Number(ParseDecimal(t[..k])), Tokens(t[k..], d, n))
    else if IsLetter(t[0]) then
      var k := RunLength(t, IsLetter);
      Cons(Word(t[..k]), Tokens(t[k..], d, n))
    else if IsSymbolChar(t[0]) then
      var k := RunLength(t, IsSymbolChar);
      Cons(Symbol(t[..k]), Tokens(t[k..], d, n))
    else if t[0] == NameQuote(d) && ReadPath(t, d).Some? then
      ReadPathShrinks(t, d);
      var (path, rest) := ReadPath(t, d).value;
      Cons(Name(path), Tokens(rest, d, n))
    else None
  }

  lemma {:induction false} RunIsRun(t: string, p: char -> bool)
    ensures forall i :: 0 <= i < RunLength(t, p) ==> p(t[i])
  {
    if t != "" && p(t[0]) {
      RunIsRun(t[1..], p);
    }
  }

  // ----- Spelling tokens --------------------------------------------------------------------

  function Spell(token: Token, d: Dialect): string {
    match token
    case Open => "("
    case Close => ")"
    case Comma => ","
    case Word(w) => w
    case Symbol(s) => s
    case Name(path) => QuoteIdentifier(path, d)
    case Place(n) => Placeholder(n, d)
    case Number(n) => Decimal(n)
  }

  /** One space between tokens, but none after "(" and none before ")" and ",". */
  function Gap(left: Token, right: Token): string {
    if left == Open || right == Close || right == Comma then "" else " "
  }

  function SpellAll(tokens: seq<Token>, d: Dialect): string {
    if tokens == [] then ""
    else if |tokens| == 1 then Spell(tokens[0], d)
    else Spell(tokens[0], d) + Gap(tokens[0], tokens[1]) + SpellAll(tokens[1..], d)
  }

  ghost predicate ValidPart(part: string) {
    part != "" && forall k :: 0 <= k < |part| ==> IsIdentifierChar(part[k])
  }

  ghost predicate ValidPath(path: Path) {
    path != [] && forall i :: 0 <= i < |path| ==> ValidPart(path[i])
  }

  ghost predicate ValidToken(token: Token) {
    match token
    case Word(w) => w != "" && forall i :: 0 <= i < |w| ==> IsLetter(w[i])
    case Symbol(s) => s != "" && forall i :: 0 <= i < |s| ==> IsSymbolChar(s[i])
    case Name(path) => ValidPath(path)
    case _ => true
  }

  /** Placeholders count up from n + 1 in the order they stand. */
  ghost predicate Numbered(tokens: seq<Token>, n: nat)
    decreases tokens
  {
    tokens == []
    || (if tokens[0].Place? then tokens[0].n == n + 1 && Numbered(tokens[1..], n + 1)
        else Numbered(tokens[1..], n))
  }

  /** What may follow a token in a text: the end, a space, ")" or ",". */
  ghost predicate Ends(rest: string) {
    rest == "" || rest[0] == ' ' || rest[0] == ')' || rest[0] == ','
  }

  /** A quoted part at the front of a text, up to its closing quote. */
  lemma ReadPart(part: string, after: string, d: Dialect)
    requires ValidPart(part)
    ensures var t := [Quote(d)] + part + [Quote(d)] + after;
      && t[0] == Quote(d)
      && RunLength(t[1..], IsIdentifierChar) == |part|
      && t[1..|part| + 1] == part
      && t[|part| + 1..] == [Quote(d)] + after
  {
    var t := [Quote(d)] + part + [Quote(d)] + after;
    var closed := [Quote(d)] + after;
    RunOf(part, closed, IsIdentifierChar);
    assert t[1..] == part + closed;
  }

  lemma {:induction false} ReadQuoted(path: Path, rest: string, d: Dialect)
    requires ValidPath(path) && Ends(rest)
    ensures ReadPath(QuoteIdentifier(path, d) + rest, d) == Some((path, rest))
    decreases path
  {
    assert ValidPart(path[0]);
    if |path| == 1 {
      ReadLastPart(path[0], rest, d);
      assert path == [path[0]];
    } else {
      var more := path[1..];
      ValidTail(path);
      ReadQuoted(more, rest, d);
      var tail := QuoteIdentifier(more, d) + rest;
      ReadFirstPart(path[0], more, tail, rest, d);
      QuotedSplit(path, rest, d);
      assert path == [path[0]] + more;
    }
  }

  lemma ValidTail(path: Path)
    requires ValidPath(path) && |path| > 1
    ensures ValidPath(path[1..])
  {
    var more := path[1..];
    forall i | 0 <= i < |more| ensures ValidPart(more[i]) {
      assert more[i] == path[i + 1];
    }
  }

  lemma {:induction false} QuotedSplit(path: Path, rest: string, d: Dialect)
    requires |path| > 1
    ensures QuoteIdentifier(path, d) + rest
         == [Quote(d)] + path[0] + [Quote(d)] + ("." + (QuoteIdentifier(path[1..], d) + rest))
  {
    var q, part, quoted := [Quote(d)], path[0], QuoteIdentifier(path[1..], d);
    DotSplit(q, part, quoted, rest);
    assert [Quote(d), '.'] == q + ".";
  }

  lemma DotSplit(q: string, part: string, quoted: string, rest: string)
    ensures q + part + (q + ".") + quoted + rest == q + part + q + ("." + (quoted + rest))
  {
  }

  lemma {:induction false} ReadLastPart(part: string, rest: string, d: Dialect)
    requires ValidPart(part) && Ends(rest)
    ensures ReadPath([Quote(d)] + part + [Quote(d)] + rest, d) == Some(([part], rest))
  {
    ReadPart(part, rest, d);
    var closed := [Quote(d)] + rest;
    assert closed[1..] == rest;
    assert |closed| > 1 ==> closed[1] == rest[0];
  }

  lemma {:induction false} ReadFirstPart(part: string, path: Path, tail: string, rest: string, d: Dialect)
    requires ValidPart(part) && ReadPath(tail, d) == Some((path, rest))
    ensures ReadPath([Quote(d)] + part + [Quote(d)] + ("." + tail), d) == Some(([part] + path, rest))
  {
    ReadPart(part, "." + tail, d);
    var closed := [Quote(d)] + ("." + tail);
    assert closed[1] == '.' && closed[2..] == tail;
  }

  // ----- A spelled token is read back, whatever follows it in a text ----------------------

  /** The first character of a text decides which kind of token it starts. */
  lemma {:induction false} ReadWord(w: string, rest: string, d: Dialect, n: nat)
    requires ValidToken(Word(w)) && Ends(rest)
    ensures Tokens(w + rest, d, n) == Cons(Word(w), Tokens(rest, d, n))
  {
    var t := w + rest;
    RunOf(w, rest, IsLetter);
    assert IsLetter(t[0]) by { assert t[0] == w[0]; }
    assert t[..|w|] == w && t[|w|..] == rest;
  }

  lemma {:induction false} ReadSymbol(s: string, rest: string, d: Dialect, n: nat)
    requires ValidToken(Symbol(s)) && Ends(rest)
    ensures Tokens(s + rest, d, n) == Cons(Symbol(s), Tokens(rest, d, n))
  {
    var t := s + rest;
    RunOf(s, rest, IsSymbolChar);
    assert IsSymbolChar(t[0]) by { assert t[0] == s[0]; }
    assert t[..|s|] == s && t[|s|..] == rest;
  }

  lemma {:induction false} ReadNumber(k: nat, rest: string, d: Dialect, n: nat)
    requires Ends(rest)
    ensures Tokens(Decimal(k) + rest, d, n) == Cons(Number(k), Tokens(rest, d, n))
  {
    var digits := Decimal(k);
    var t := digits + rest;
    RunOf(digits, rest, IsDigit);
    DecimalReadBack(k);
    assert IsDigit(t[0]) by { assert t[0] == digits[0]; }
    assert t[..|digits|] == digits && t[|digits|..] == rest;
  }

  lemma {:induction false} ReadPathToken(t: string, path: Path, rest: string, d: Dialect, n: nat)
    requires ReadPath(t, d) == Some((path, rest))
    ensures Tokens(t, d, n) == Cons(Name(path), Tokens(rest, d, n))
  {
    var c := t[0];
    assert c == Quote(d);
    assert !IsDigit(c) && !IsLetter(c) && !IsSymbolChar(c);
  }

  lemma {:induction false} ReadName(path: Path, rest: string, d: Dialect, n: nat)
    requires ValidPath(path) && Ends(rest)
    ensures Tokens(QuoteIdentifier(path, d) + rest, d, n) == Cons(Name(path), Tokens(rest, d, n))
  {
    ReadQuoted(path, rest, d);
    ReadPathToken(QuoteIdentifier(path, d) + rest, path, rest, d, n);
  }

  lemma {:induction false} ReadNumbered(k: nat, rest: string, n: nat)
    requires Ends(rest)
    ensures Tokens("$" + Decimal(k) + rest, Postgres, n) == Cons(Place(k), Tokens(rest, Postgres, n))
  {
    var digits := Decimal(k);
    var t := "$" + digits + rest;
    assert t[1..] == digits + rest;
    RunOf(digits, rest, IsDigit);
    DecimalReadBack(k);
    assert t[1..][..|digits|] == digits && t[1..][|digits|..] == rest;
  }

  lemma {:induction false} ReadUnnumbered(rest: string, d: Dialect, n: nat)
    requires d != Postgres
    ensures Tokens("?" + rest, d, n) == Cons(Place(n + 1), Tokens(rest, d, n + 1))
  {
    assert ("?" + rest)[1..] == rest;
  }

  lemma {:induction false} ReadMark(token: Token, rest: string, d: Dialect, n: nat)
    requires token == Open || token == Close || token == Comma
    ensures Tokens(Spell(token, d) + rest, d, n) == Cons(token, Tokens(rest, d, n))
  {
    assert (Spell(token, d) + rest)[1..] == rest;
  }

  /** How many unnumbered placeholders have been read after one more token. */
  function After(token: Token, d: Dialect, n: nat): nat {
    if token.Place? && d != Postgres then n + 1 else n
  }

  lemma {:induction false} ReadToken(token: Token, rest: string, d: Dialect, n: nat)
    requires ValidToken(token) && (token.Place? && d != Postgres ==> token.n == n + 1)
    requires token == Open || Ends(rest)
    ensures Tokens(Spell(token, d) + rest, d, n) == Cons(token, Tokens(rest, d, After(token, d, n)))
  {
    match token
    case Word(w) => ReadWord(w, rest, d, n);
    case Symbol(s) => ReadSymbol(s, rest, d, n);
    case Name(path) => ReadName(path, rest, d, n);
    case Place(k) => if d == Postgres { ReadNumbered(k, rest, n); } else { ReadUnnumbered(rest, d, n); }
    case Number(k) => ReadNumber(k, rest, d, n);
    case _ => ReadMark(token, rest, d, n);
  }

  ghost predicate AllValid(tokens: seq<Token>) {
    forall i :: 0 <= i < |tokens| ==> ValidToken(tokens[i])
  }

  /** A spelled token list is read back as that list. */
  lemma {:induction false} ReadSpelled(tokens: seq<Token>, d: Dialect, n: nat, m: nat)
    requires AllValid(tokens) && Numbered(tokens, n) && (d == Postgres || m == n)
    requires tokens != [] && tokens[|tokens| - 1] != Open
    ensures Tokens(SpellAll(tokens, d), d, m) == Some(tokens)
    decreases tokens
  {
    var token := tokens[0];
    if |tokens| == 1 {
      ReadToken(token, "", d, m);
      assert Spell(token, d) + "" == SpellAll(tokens, d);
      assert tokens == [token] + [];
    } else {
      ReadSpelled(tokens[1..], d, if token.Place? then n + 1 else n, After(token, d, m));
      ReadOneMore(token, tokens[1..], d, m);
      assert tokens == [token] + tokens[1..];
    }
  }

  lemma {:induction false} ReadOneMore(token: Token, more: seq<Token>, d: Dialect, m: nat)
    requires ValidToken(token) && (token.Place? && d != Postgres ==> token.n == m + 1) && more != [] && ValidToken(more[0])
    requires Tokens(SpellAll(more, d), d, After(token, d, m)) == Some(more)
    ensures Tokens(SpellAll([token] + more, d), d, m) == Some([token] + more)
  {
    var gap, text := Gap(token, more[0]), SpellAll(more, d);
    SpelledStart(more, d);
    assert Tokens(gap + text, d, After(token, d, m)) == Some(more) by {
      if gap == " " { assert (gap + text)[1..] == text; } else { assert gap + text == text; }
    }
    ReadToken(token, gap + text, d, m);
    Regroup(Spell(token, d), gap, text);
    assert ([token] + more)[1..] == more;
  }

  lemma {:induction false} SpelledStart(tokens: seq<Token>, d: Dialect)
    requires tokens != []
    ensures Spell(tokens[0], d) <= SpellAll(tokens, d)
  {
  }
}
