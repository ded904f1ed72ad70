/**
 The migration checksum: text normalization over UTF-16 code units and an FNV-1a hash in
 32-bit modular arithmetic.
 */
module Checksum {

  type Unit = u: int | 0 <= u < 0x1_0000
  type Text = seq<Unit>

  const TAB: Unit := 9
  const LF: Unit := 10
  const CR: Unit := 13
  const SPACE: Unit := 32

  // ----- Lines --------------------------------------------------------------------------

  /** The code units the normalization knows: tab, line feed, carriage return and space. */
  lemma {:induction false} UnitsAre(u: Unit)
    ensures Blank(u) <==> u == ' ' as int || u == '\t' as int
    ensures LF == '\n' as int && CR == '\r' as int
  {
  }

  predicate Blank(u: Unit) {
    u == SPACE || u == TAB
  }

  /** `text.replace(/\r\n?/g, "\n")`. */
  function UnifyEndings(t: Text): (r: Text)
    ensures CR !in r
    decreases |t|
  {
    if t == [] then []
    else if t[0] == CR && |t| > 1 && t[1] == LF then [LF] + UnifyEndings(t[2..])
    else if t[0] == CR then [LF] + UnifyEndings(t[1..])
    else [t[0]] + UnifyEndings(t[1..])
  }

  /** `text.split("\n")`. */
  function Split(t: Text): (lines: seq<Text>)
    ensures |lines| > 0
    ensures forall i :: 0 <= i < |lines| ==> LF !in lines[i]
    ensures CR !in t ==> forall i :: 0 <= i < |lines| ==> CR !in lines[i]
  {
    if t == [] then [[]]
    else
      var rest := Split(t[1..]);
      if t[0] == LF then [[]] + rest else [[t[0]] + rest[0]] + rest[1..]
  }

  /** `lines.join(ending)`. */
  function JoinWith(lines: seq<Text>, ending: Text): Text {
    if lines == [] then []
    else if |lines| == 1 then lines[0]
    else lines[0] + ending + JoinWith(lines[1..], ending)
  }

  function Join(lines: seq<Text>): Text {
    JoinWith(lines, [LF])
  }

  /** `line.replace(/[ \t]+$/u, "")`. */
  function StripLine(line: Text): (r: Text)
    ensures r <= line
    ensures r != [] ==> !Blank(r[|r| - 1])
  {
    if line != [] && Blank(line[|line| - 1]) then StripLine(line[..|line| - 1]) else line
  }

  function StripLines(lines: seq<Text>): (r: seq<Text>)
    ensures |r| == |lines| && forall i :: 0 <= i < |lines| ==> r[i] == StripLine(lines[i])
  {
    seq(|lines|, i requires 0 <= i < |lines| => StripLine(lines[i]))
  }

  /** `text.replace(/\n+$/u, "")`. */
  function DropFinalNewlines(t: Text): Text {
    if t != [] && t[|t| - 1] == LF then DropFinalNewlines(t[..|t| - 1]) else t
  }

  function Normalize(t: Text): Text {
    DropFinalNewlines(Join(StripLines(Split(UnifyEndings(t)))))
  }

  // ----- Normal form ----------------------------------------------------------------------

  ghost predicate PlainLines(lines: seq<Text>) {
    forall i :: 0 <= i < |lines| ==> LF !in lines[i] && CR !in lines[i]
  }

  /** Without its empty lines at the end; one line always stays. */
  function DropEmptyTail(lines: seq<Text>): (r: seq<Text>)
    requires lines != []
    ensures r != [] && r <= lines
    ensures |r| > 1 ==> r[|r| - 1] != []
  {
    if |lines| > 1 && lines[|lines| - 1] == [] then DropEmptyTail(lines[..|lines| - 1]) else lines
  }

  lemma {:induction false} SplitJoin(lines: seq<Text>)
    requires lines != [] && forall i :: 0 <= i < |lines| ==> LF !in lines[i]
    ensures Split(Join(lines)) == lines
    decreases |lines|, |lines[0]|
  {
    if lines[0] == [] {
      if |lines| > 1 {
        assert Join(lines) == [LF] + Join(lines[1..]);
        SplitJoin(lines[1..]);
        assert lines == [[]] + lines[1..];
      } else {
        assert lines == [[]];
      }
    } else {
      var first, rest := lines[0][0], [lines[0][1..]] + lines[1..];
      assert first != LF by { assert first in lines[0]; }
      JoinHead(first, rest);
      assert [first] + rest[0] == lines[0];
      assert lines == [[first] + rest[0]] + rest[1..];
      forall i | 0 <= i < |rest|
        ensures LF !in rest[i]
      {
        assert i == 0 || rest[i] == lines[i];
      }
      SplitJoin(rest);
      assert ([first] + Join(rest))[1..] == Join(rest);
    }
  }

  lemma JoinHead(u: Unit, rest: seq<Text>)
    requires rest != []
    ensures Join([[u] + rest[0]] + rest[1..]) == [u] + Join(rest)
  {
    var lines := [[u] + rest[0]] + rest[1..];
    assert lines[1..] == rest[1..];
  }

  lemma {:induction false} JoinSnoc(lines: seq<Text>, last: Text, ending: Text)
    requires lines != []
    ensures JoinWith(lines + [last], ending) == JoinWith(lines, ending) + ending + last
  {
    if |lines| == 1 {
      assert (lines + [last])[1..] == [last];
    } else {
      assert (lines + [last])[1..] == lines[1..] + [last];
      JoinSnoc(lines[1..], last, ending);
    }
  }

  lemma {:induction false} UnifyPlain(t: Text)
    requires CR !in t
    ensures UnifyEndings(t) == t
  {
    if t != [] {
      UnifyPlain(t[1..]);
    }
  }

  lemma {:induction false} DropFinalIsDropEmptyTail(lines: seq<Text>)
    requires lines != [] && forall i :: 0 <= i < |lines| ==> LF !in lines[i]
    ensures DropFinalNewlines(Join(lines)) == Join(DropEmptyTail(lines))
  {
    if |lines| > 1 {
      var before, last := lines[..|lines| - 1], lines[|lines| - 1];
      assert lines == before + [last];
      JoinSnoc(before, last, [LF]);
      if last == [] {
        assert Join(lines) == Join(before) + [LF];
        assert Join(lines)[..|Join(lines)| - 1] == Join(before);
        DropFinalIsDropEmptyTail(before);
      } else {
        assert Join(lines)[|Join(lines)| - 1] == last[|last| - 1];
      }
    } else if lines[0] != [] {
      assert lines[0][|lines[0]| - 1] in lines[0];
    }
  }

  /** The lines that normalization keeps of a list of lines. */
  function Canonical(lines: seq<Text>): (r: seq<Text>)
    requires lines != []
    ensures r != []
  {
    DropEmptyTail(StripLines(lines))
  }

  lemma {:induction false} NormalizeLines(t: Text)
    ensures Normalize(t) == Join(Canonical(Split(UnifyEndings(t))))
  {
    var lines := StripLines(Split(UnifyEndings(t)));
    forall i | 0 <= i < |lines|
      ensures LF !in lines[i]
    {
      assert lines[i] <= Split(UnifyEndings(t))[i];
    }
    DropFinalIsDropEmptyTail(lines);
  }

  lemma CanonicalIsPlain(lines: seq<Text>)
    requires lines != [] && PlainLines(lines)
    ensures PlainLines(Canonical(lines)) && Canonical(Canonical(lines)) == Canonical(lines)
  {
    var kept := Canonical(lines);
    forall i | 0 <= i < |kept|
      ensures LF !in kept[i] && CR !in kept[i] && StripLine(kept[i]) == kept[i]
    {
      assert kept[i] == StripLine(lines[i]) && kept[i] <= lines[i];
    }
    assert StripLines(kept) == kept;
  }

  lemma {:induction false} PlainJoin(lines: seq<Text>)
    requires PlainLines(lines)
    ensures CR !in Join(lines)
  {
    if |lines| > 1 {
      PlainJoin(lines[1..]);
    }
  }

  /** The text of a list of plain lines normalizes to the text of its canonical lines. */
  lemma NormalizeJoin(lines: seq<Text>)
    requires lines != [] && PlainLines(lines)
    ensures Normalize(Join(lines)) == Join(Canonical(lines))
  {
    PlainJoin(lines);
    UnifyPlain(Join(lines));
    SplitJoin(lines);
    NormalizeLines(Join(lines));
  }

  lemma NormalizeIdempotent(t: Text)
    ensures Normalize(Normalize(t)) == Normalize(t)
  {
    var lines := Split(UnifyEndings(t));
    NormalizeLines(t);
    CanonicalIsPlain(lines);
    NormalizeJoin(Canonical(lines));
  }

  // ----- What normalization ignores, exactly -------------------------------------------------

  predicate LineEnding(e: Text) {
    e == [LF] || e == [CR, LF] || e == [CR]
  }

  lemma {:induction false} UnifyAppend(line: Text, rest: Text)
    requires CR !in line
    ensures UnifyEndings(line + rest) == line + UnifyEndings(rest)
  {
    if line == [] {
      assert line + rest == rest;
    } else {
      assert (line + rest)[1..] == line[1..] + rest;
      UnifyAppend(line[1..], rest);
    }
  }

  /** A text with one line-ending style throughout is the text of its lines. */
  lemma {:induction false} UnifyJoin(lines: seq<Text>, ending: Text)
    requires PlainLines(lines) && LineEnding(ending)
    ensures UnifyEndings(JoinWith(lines, ending)) == Join(lines)
  {
    if |lines| == 1 {
      UnifyPlain(lines[0]);
    } else if |lines| > 1 {
      var rest := JoinWith(lines[1..], ending);
      UnifyJoin(lines[1..], ending);
      if ending == [CR] && rest != [] {
        NoLeadingLf(lines[1..]);
      }
      UnifyLine(lines[0], ending, rest);
      assert JoinWith(lines, ending) == lines[0] + ending + rest;
      assert Join(lines) == lines[0] + [LF] + Join(lines[1..]);
    }
  }

  lemma {:induction false} UnifyLine(line: Text, ending: Text, rest: Text)
    requires CR !in line && LineEnding(ending) && (ending == [CR] && rest != [] ==> rest[0] != LF)
    ensures UnifyEndings(line + ending + rest) == line + [LF] + UnifyEndings(rest)
  {
    var more := ending + rest;
    assert line + ending + rest == line + more;
    UnifyAppend(line, more);
    UnifyOneEnding(ending, rest);
    var unified := UnifyEndings(rest);
    assert UnifyEndings(more) == [LF] + unified;
    assert line + ([LF] + unified) == line + [LF] + unified;
  }

  lemma {:induction false} UnifyOneEnding(ending: Text, rest: Text)
    requires LineEnding(ending) && (ending == [CR] && rest != [] ==> rest[0] != LF)
    ensures UnifyEndings(ending + rest) == [LF] + UnifyEndings(rest)
  {
    var t := ending + rest;
    if ending == [CR, LF] {
      assert t[2..] == rest;
    } else {
      assert t[1..] == rest;
    }
  }

  lemma {:induction false} NoLeadingLf(lines: seq<Text>)
    requires PlainLines(lines) && lines != [] && JoinWith(lines, [CR]) != []
    ensures JoinWith(lines, [CR])[0] != LF
  {
    if lines[0] != [] {
      assert lines[0][0] in lines[0];
    }
  }

  ghost predicate AllBlank(t: Text) {
    forall i :: 0 <= i < |t| ==> Blank(t[i])
  }

  /** `b` is `a` with blanks added at line ends and blank lines added at the end. */
  ghost predicate PaddedLines(a: seq<Text>, b: seq<Text>) {
    && |a| <= |b|
    && (forall i :: 0 <= i < |a| ==> a[i] <= b[i] && AllBlank(b[i][|a[i]|..]))
    && (forall i :: |a| <= i < |b| ==> AllBlank(b[i]))
  }

  lemma {:induction false} StripPadding(line: Text, blanks: Text)
    requires AllBlank(blanks)
    ensures StripLine(line + blanks) == StripLine(line)
  {
    if blanks == [] {
      assert line + blanks == line;
    } else {
      var whole := line + blanks;
      assert whole[..|whole| - 1] == line + blanks[..|blanks| - 1];
      StripPadding(line, blanks[..|blanks| - 1]);
    }
  }

  lemma {:induction false} DropPadding(a: seq<Text>, b: seq<Text>)
    requires a != [] && a <= b && forall i :: |a| <= i < |b| ==> b[i] == []
    ensures DropEmptyTail(b) == DropEmptyTail(a)
  {
    if |a| < |b| {
      DropPadding(a, b[..|b| - 1]);
    } else {
      assert a == b;
    }
  }

  lemma PaddingIsCanonicallyEqual(a: seq<Text>, b: seq<Text>)
    requires a != [] && PaddedLines(a, b)
    ensures Canonical(b) == Canonical(a)
  {
    forall i | 0 <= i < |a|
      ensures StripLine(b[i]) == StripLine(a[i])
    {
      assert b[i] == a[i] + b[i][|a[i]|..];
      StripPadding(a[i], b[i][|a[i]|..]);
    }
    forall i | |a| <= i < |b|
      ensures StripLine(b[i]) == []
    {
      StripPadding([], b[i]);
      assert [] + b[i] == b[i];
    }
    DropPadding(StripLines(a), StripLines(b));
  }

  /** Line-ending style, trailing blanks and trailing blank lines leave no trace. */
  lemma {:induction false} NormalizeIgnoresLayout(a: seq<Text>, b: seq<Text>, ending: Text)
    requires a != [] && PlainLines(a) && PlainLines(b) && PaddedLines(a, b) && LineEnding(ending)
    ensures Normalize(JoinWith(b, ending)) == Normalize(Join(a))
  {
    UnifyJoin(b, ending);
    PlainJoin(b);
    UnifyPlain(Join(b));
    NormalizeJoin(b);
    NormalizeJoin(a);
    PaddingIsCanonicallyEqual(a, b);
  }

  /** Nothing else is ignored: equal normal forms mean equal canonical lines. */
  lemma {:induction false} NormalizeEqualIff(a: Text, b: Text)
    ensures Normalize(a) == Normalize(b)
       <==> Canonical(Split(UnifyEndings(a))) == Canonical(Split(UnifyEndings(b)))
  {
    NormalizeLines(a);
    NormalizeLines(b);
    CanonicalIsPlain(Split(UnifyEndings(a)));
    CanonicalIsPlain(Split(UnifyEndings(b)));
    SplitJoin(Canonical(Split(UnifyEndings(a))));
    SplitJoin(Canonical(Split(UnifyEndings(b))));
  }

  // ----- The hash ---------------------------------------------------------------------------

  const M := 0x1_0000_0000
  const FNV_OFFSET := 2_166_136_261
  const FNV_PRIME := 16_777_619
  /** FNV_PRIME * FNV_INVERSE == 3_513_497 * M + 1. */
  const FNV_INVERSE := 899_433_627

  /** Bitwise exclusive or of two unsigned words. */
  function Xor(a: nat, b: nat): (r: nat)
    decreases a + b
  {
    if a == 0 && b == 0 then 0 else (if a % 2 != b % 2 then 1 else 0) + 2 * Xor(a / 2, b / 2)
  }

  function Pow2(n: nat): (r: nat)
    ensures r > 0
  {
    if n == 0 then 1 else 2 * Pow2(n - 1)
  }

  lemma {:induction false} XorFits(a: nat, b: nat, bits: nat)
    requires a < Pow2(bits) && b < Pow2(bits)
    ensures Xor(a, b) < Pow2(bits)
    decreases bits
  {
    if bits > 0 {
      XorFits(a / 2, b / 2, bits - 1);
    }
  }

  lemma {:induction false} XorBits(a: nat, b: nat)
    ensures Xor(a, b) / 2 == Xor(a / 2, b / 2)
    ensures Xor(a, b) % 2 == if a % 2 != b % 2 then 1 else 0
  {
  }

  lemma {:induction false} XorCancels(a: nat, b: nat)
    ensures Xor(Xor(a, b), b) == a
    decreases a + b
  {
    if a != 0 || b != 0 {
      var x := Xor(a, b);
      XorBits(a, b);
      XorBits(x, b);
      XorCancels(a / 2, b / 2);
      assert Xor(x, b) / 2 == a / 2 && Xor(x, b) % 2 == a % 2;
    }
  }

  lemma {:induction false} XorCommutes(a: nat, b: nat)
    ensures Xor(a, b) == Xor(b, a)
    decreases a + b
  {
    if a != 0 || b != 0 {
      XorCommutes(a / 2, b / 2);
    }
  }

  type Word = h: int | 0 <= h < 0x1_0000_0000

  lemma {:induction false} XorWord(h: Word, u: Unit)
    ensures Xor(h, u) < M
  {
    assert Pow2(8) == 256;
    assert Pow2(16) == 0x1_0000 by { Pow2Sum(8, 8); }
    assert Pow2(32) == M by { Pow2Sum(16, 16); }
    XorFits(h, u, 32);
  }

  lemma {:induction false} Pow2Sum(a: nat, b: nat)
    ensures Pow2(a + b) == Pow2(a) * Pow2(b)
  {
    if a > 0 {
      Pow2Sum(a - 1, b);
    }
  }

  /** `Math.imul(h, 16777619)`, read as an unsigned word. */
  function TimesPrime(h: Word): Word {
    (h * FNV_PRIME) % M
  }

  lemma ModIs(x: int, q: int, r: int)
    requires x == M * q + r && 0 <= r < M
    ensures x % M == r
  {
  }

  /** Multiplying by the prime can be undone, so it is a bijection on words. */
  lemma TimesPrimeInvertible(h: Word)
    ensures (TimesPrime(h) * FNV_INVERSE) % M == h
  {
    var q := (h * FNV_PRIME) / M;
    assert TimesPrime(h) == h * FNV_PRIME - M * q;
    assert FNV_PRIME * FNV_INVERSE == 3_513_497 * M + 1;
    ModIs(TimesPrime(h) * FNV_INVERSE, h * 3_513_497 - q * FNV_INVERSE, h);
  }

  function HashStep(h: Word, u: Unit): Word {
    XorWord(h, u);
    TimesPrime(Xor(h, u))
  }

  function HashFrom(h: Word, t: Text): Word
    decreases |t|
  {
    if t == [] then h else HashFrom(HashStep(h, t[0]), t[1..])
  }

  function Hash(t: Text): Word {
    HashFrom(FNV_OFFSET, t)
  }

  /** One step loses nothing: neither of the state nor of the unit. */
  lemma {:induction false} HashStepInjective(h: Word, k: Word, u: Unit, v: Unit)
    requires HashStep(h, u) == HashStep(k, v)
    ensures Xor(h, u) == Xor(k, v)
    ensures u == v ==> h == k
    ensures h == k ==> u == v
  {
    XorWord(h, u);
    XorWord(k, v);
    TimesPrimeInvertible(Xor(h, u));
    TimesPrimeInvertible(Xor(k, v));
    XorCancels(h, u);
    XorCancels(k, v);
    XorCommutes(h, u);
    XorCommutes(k, v);
    XorCancels(u, h);
    XorCancels(v, k);
  }

  lemma {:induction false} HashFromInjective(h: Word, k: Word, t: Text)
    ensures HashFrom(h, t) == HashFrom(k, t) <==> h == k
    decreases |t|
  {
    if t != [] {
      HashFromInjective(HashStep(h, t[0]), HashStep(k, t[0]), t[1..]);
      if HashStep(h, t[0]) == HashStep(k, t[0]) {
        HashStepInjective(h, k, t[0], t[0]);
      }
    }
  }

  lemma {:induction false} HashAppend(h: Word, a: Text, b: Text)
    ensures HashFrom(h, a + b) == HashFrom(HashFrom(h, a), b)
    decreases |a|
  {
    if a == [] {
      assert a + b == b;
    } else {
      assert (a + b)[1..] == a[1..] + b;
      HashAppend(HashStep(h, a[0]), a[1..], b);
    }
  }

  /** What follows a collision cannot undo it, and what follows a difference cannot hide it. */
  lemma CommonSuffix(a: Text, b: Text, suffix: Text)
    ensures Hash(a + suffix) == Hash(b + suffix) <==> Hash(a) == Hash(b)
  {
    HashAppend(FNV_OFFSET, a, suffix);
    HashAppend(FNV_OFFSET, b, suffix);
    HashFromInjective(Hash(a), Hash(b), suffix);
  }

  /** Replacing exactly one code unit always changes the hash. */
  lemma OneUnitChangesHash(t: Text, i: nat, u: Unit)
    requires i < |t| && u != t[i]
    ensures Hash(t[i := u]) != Hash(t)
  {
    var before, after := t[..i], t[i + 1..];
    assert t == before + [t[i]] + after && t[i := u] == before + [u] + after;
    CommonSuffix(before + [t[i]], before + [u], after);
    HashAppend(FNV_OFFSET, before, [t[i]]);
    HashAppend(FNV_OFFSET, before, [u]);
    assert [t[i]][1..] == [] && [u][1..] == [];
    if HashStep(Hash(before), t[i]) == HashStep(Hash(before), u) {
      HashStepInjective(Hash(before), Hash(before), t[i], u);
    }
  }

  /** The source's loop. */
  method HashString(input: Text) returns (hash: Word)
    ensures hash == Hash(input)
  {
    hash := FNV_OFFSET;
    assert input[0..] == input;
    for index := 0 to |input|
      invariant HashFrom(hash, input[index..]) == Hash(input)
    {
      assert input[index..][1..] == input[index + 1..];
      hash := HashStep(hash, input[index]);
    }
  }

  // ----- The checksum -----------------------------------------------------------------------

  function Digit(d: nat): (u: Unit)
    requires d < 36
    ensures d < 10 ==> u == 48 + d
    ensures d >= 10 ==> u == 87 + d
  {
    if d < 10 then 48 + d else 87 + d
  }

  /** `(n).toString(36)`. */
  function Base36(n: nat): (r: Text)
    ensures |r| > 0 && (|r| == 1 <==> n < 36)
  {
    if n < 36 then [Digit(n)] else Base36(n / 36) + [Digit(n % 36)]
  }

  lemma {:induction false} Base36Injective(m: nat, n: nat)
    requires Base36(m) == Base36(n)
    ensures m == n
  {
    var a, b := Base36(m), Base36(n);
    assert a[|a| - 1] == Digit(m % 36) && b[|b| - 1] == Digit(n % 36);
    if m >= 36 && n >= 36 {
      assert a[..|a| - 1] == Base36(m / 36) && b[..|b| - 1] == Base36(n / 36);
      Base36Injective(m / 36, n / 36);
    }
  }

  /** "migr_". */
  const PREFIX: Text := [109, 105, 103, 114, 95]

  function Render(h: Word): Text {
    PREFIX + Base36(h)
  }

  lemma RenderInjective(h: Word, k: Word)
    ensures Render(h) == Render(k) <==> h == k
  {
    if Render(h) == Render(k) {
      assert Render(h)[5..] == Base36(h) && Render(k)[5..] == Base36(k);
      Base36Injective(h, k);
    }
  }

  /** The printed hash starts with "migr_" and goes on with the digits 0-9, a-z to base 36. */
  lemma {:induction false} RenderIs(h: Word)
    ensures |Render(h)| > 5 && forall i :: 0 <= i < 5 ==> Render(h)[i] == "migr_"[i] as int
    ensures ReadBase36(Render(h)[5..]) == Some(h)
  {
    assert Render(h)[5..] == Base36(h);
    Base36ReadsBack(h);
  }

  datatype Option<T> = None | Some(value: T)

  /** Reads digits 0-9, a-z to base 36. */
  function ReadBase36(t: Text): Option<nat> {
    if t == [] then Some(0)
    else
      var u := t[|t| - 1];
      match ReadBase36(t[..|t| - 1])
      case None => None
      case Some(high) =>
        if '0' as int <= u <= '9' as int then Some(36 * high + u - '0' as int)
        else if 'a' as int <= u <= 'z' as int then Some(36 * high + 10 + u - 'a' as int)
        else None
  }

  lemma {:induction false} Base36ReadsBack(n: nat)
    ensures ReadBase36(Base36(n)) == Some(n)
  {
    if n >= 36 {
      Base36ReadsBack(n / 36);
      assert Base36(n)[..|Base36(n)| - 1] == Base36(n / 36);
    } else {
      assert Base36(n)[..0] == [];
    }
  }

  /** The published values of 32-bit FNV-1a for the empty text and for "a". */
  lemma {:induction false} KnownHashes()
    ensures Hash([]) == 0x811C_9DC5
    ensures Hash(['a' as int]) == 0xE40C_292C
  {
    var a: Text := ['a' as int];
    assert a[1..] == [];
    assert HashFrom(HashStep(FNV_OFFSET, 97), a[1..]) == HashStep(FNV_OFFSET, 97);
    OffsetXorA();
    var x: int := 0x811C_9DA4;
    assert x * FNV_PRIME == M * 8_461_672 + 0xE40C_292C;
    ModIs(x * FNV_PRIME, 8_461_672, 0xE40C_292C);
  }

  lemma {:induction false} OffsetXorA()
    ensures Xor(FNV_OFFSET, 97) == 0x811C_9DA4
  {
    XorZero(16_922_939);
    assert Xor(33_845_879, 1) == 33_845_878;
    assert Xor(67_691_758, 3) == 67_691_757;
    assert Xor(135_383_516, 6) == 135_383_514;
    assert Xor(270_767_032, 12) == 270_767_028;
    assert Xor(541_534_065, 24) == 541_534_057;
    assert Xor(1_083_068_130, 48) == 1_083_068_114;
  }

  lemma {:induction false} XorZero(a: nat)
    ensures Xor(a, 0) == a
  {
    if a > 0 {
      XorZero(a / 2);
    }
  }

  /** A migration as the checksum sees it; `down` is empty where there is none. */
  datatype Migration = Migration(id: Text, kind: Text, up: Text, down: Text)

  function HashInput(m: Migration): Text {
    Join([m.id, m.kind, Normalize(m.up), Normalize(m.down)])
  }

  function ChecksumOf(m: Migration): Text {
    Render(Hash(HashInput(m)))
  }

  /** The checksum always notices one changed code unit of its input. */
  lemma ChecksumNoticesOneUnit(m: Migration, n: Migration, i: nat, u: Unit)
    requires i < |HashInput(m)| && HashInput(n) == HashInput(m)[i := u] && u != HashInput(m)[i]
    ensures ChecksumOf(m) != ChecksumOf(n)
  {
    OneUnitChangesHash(HashInput(m), i, u);
    RenderInjective(Hash(HashInput(m)), Hash(HashInput(n)));
  }

  lemma HashInputIs(m: Migration)
    ensures HashInput(m) == m.id + [LF] + (m.kind + [LF] + (Normalize(m.up) + [LF] + Normalize(m.down)))
  {
    var up, down := Normalize(m.up), Normalize(m.down);
    JoinCons(up, [down]);
    JoinCons(m.kind, [up, down]);
    JoinCons(m.id, [m.kind, up, down]);
    assert [up] + [down] == [up, down];
    assert [m.kind] + [up, down] == [m.kind, up, down];
    assert [m.id] + [m.kind, up, down] == [m.id, m.kind, up, down];
  }

  lemma JoinCons(first: Text, rest: seq<Text>)
    requires rest != []
    ensures Join([first] + rest) == first + [LF] + Join(rest)
    ensures |rest| == 1 ==> Join(rest) == rest[0]
  {
    assert ([first] + rest)[1..] == rest;
  }

  lemma SplitAtLf(a: Text, b: Text, c: Text, d: Text)
    requires LF !in a && LF !in c && a + [LF] + b == c + [LF] + d
    ensures a == c && b == d
  {
    var s := a + [LF] + b;
    FirstLfOf(a, b);
    FirstLfOf(c, d);
    assert a == s[..|a|] && c == s[..|c|];
    assert b == s[|a| + 1..] && d == s[|c| + 1..];
  }

  function FirstLf(t: Text): nat {
    if t == [] || t[0] == LF then 0 else 1 + FirstLf(t[1..])
  }

  lemma {:induction false} FirstLfOf(a: Text, b: Text)
    requires LF !in a
    ensures FirstLf(a + [LF] + b) == |a|
  {
    if a != [] {
      assert (a + [LF] + b)[0] == a[0] && a[0] in a;
      assert (a + [LF] + b)[1..] == a[1..] + [LF] + b;
      FirstLfOf(a[1..], b);
    }
  }

  /**
   What the hash input identifies, exactly: the id, the kind, and the two steps put one after
   the other.  Ids and kinds hold no line feed.
   */
  lemma HashInputEqualIff(m: Migration, n: Migration)
    requires LF !in m.id && LF !in m.kind && LF !in n.id && LF !in n.kind
    ensures HashInput(m) == HashInput(n)
       <==> m.id == n.id && m.kind == n.kind
            && Normalize(m.up) + [LF] + Normalize(m.down) == Normalize(n.up) + [LF] + Normalize(n.down)
  {
    HashInputIs(m);
    HashInputIs(n);
    var a, b := Normalize(m.up) + [LF] + Normalize(m.down), Normalize(n.up) + [LF] + Normalize(n.down);
    if HashInput(m) == HashInput(n) {
      SplitAtLf(m.id, m.kind + [LF] + a, n.id, n.kind + [LF] + b);
      SplitAtLf(m.kind, a, n.kind, b);
    }
  }

  lemma {:induction false} SameHashInput(m: Migration, n: Migration, body: Text)
    requires m.id == n.id && m.kind == n.kind
    requires Normalize(m.up) + [LF] + Normalize(m.down) == body == Normalize(n.up) + [LF] + Normalize(n.down)
    ensures HashInput(m) == HashInput(n)
  {
    HashInputIs(m);
    HashInputIs(n);
  }

  lemma {:induction false} JoinLast(first: seq<Text>, line: Text)
    requires first != []
    ensures Join(first + [line]) == Join(first) + [LF] + line
  {
    JoinSnoc(first, line, [LF]);
  }

  /** So a line moved from the end of `up` to the start of `down` keeps the checksum. */
  lemma {:induction false} MovedLineKeepsChecksum(id: Text, kind: Text, first: seq<Text>, line: Text, rest: seq<Text>)
    requires first != [] && rest != []
    requires PlainLines(first) && PlainLines([line]) && PlainLines(rest)
    requires Canonical(first) == first && Canonical(first + [line]) == first + [line]
    requires Canonical(rest) == rest && Canonical([line] + rest) == [line] + rest
    ensures ChecksumOf(Migration(id, kind, Join(first + [line]), Join(rest)))
         == ChecksumOf(Migration(id, kind, Join(first), Join([line] + rest)))
  {
    KeptText(first);
    KeptText(rest);
    KeptText(first + [line]);
    KeptText([line] + rest);
    MovedLine(id, kind, first, line, rest);
  }

  lemma {:induction false} KeptText(lines: seq<Text>)
    requires lines != [] && PlainLines(lines) && Canonical(lines) == lines
    ensures Normalize(Join(lines)) == Join(lines)
  {
    NormalizeJoin(lines);
  }

  lemma {:induction false} MovedLine(id: Text, kind: Text, first: seq<Text>, line: Text, rest: seq<Text>)
    requires first != [] && rest != []
    requires Normalize(Join(first)) == Join(first) && Normalize(Join(rest)) == Join(rest)
    requires Normalize(Join(first + [line])) == Join(first + [line])
    requires Normalize(Join([line] + rest)) == Join([line] + rest)
    ensures HashInput(Migration(id, kind, Join(first + [line]), Join(rest)))
         == HashInput(Migration(id, kind, Join(first), Join([line] + rest)))
  {
    var long, short, before, after := Join(first + [line]), Join(first), Join(rest), Join([line] + rest);
    JoinLast(first, line);
    JoinCons(line, rest);
    assert short + [LF] + line + [LF] + before == short + [LF] + (line + [LF] + before);
    SameHashInput(Migration(id, kind, long, before), Migration(id, kind, short, after), long + [LF] + before);
  }
}
