/**
 The expression trees of libapparmor_re, the strings they match, and the reader
 that turns regex text into a tree (parse.y and the escape reader of lib.c).

 Input symbols are integers: 0..255 are bytes and OOB is the out-of-band
 transition, which no byte stream can produce.
 */
module Regex {

  type Word = seq<int>

  const OOB: int := -1

  datatype Re =
    | Eps
    | Chr(c: int)
    | AnyChar
    | CharSet(chars: set<int>)
    | NotCharSet(chars: set<int>)
    | Cat(l: Re, r: Re)
    | Alt(l: Re, r: Re)
    | Star(e: Re)
    | Plus(e: Re)

  /** `w` is matched by `re`. `.` and `[^...]` never match an out-of-band symbol. */
  ghost predicate Matches(re: Re, w: Word)
    decreases re, |w|
  {
    match re
    case Eps => w == []
    case Chr(c) => w == [c]
    case AnyChar => |w| == 1 && 0 <= w[0]
    case CharSet(cs) => |w| == 1 && w[0] in cs
    case NotCharSet(cs) => |w| == 1 && 0 <= w[0] && w[0] !in cs
    case Cat(l, r) => exists k :: 0 <= k <= |w| && Matches(l, w[..k]) && Matches(r, w[k..])
    case Alt(l, r) => Matches(l, w) || Matches(r, w)
    case Star(e) => w == [] || exists k :: 0 < k <= |w| && Matches(e, w[..k]) && Matches(re, w[k..])
    case Plus(e) => Matches(e, w) || exists k :: 0 < k <= |w| && Matches(e, w[..k]) && Matches(re, w[k..])
  }

  // ----- Languages -----

  type Language = iset<Word>

  ghost function Lang(re: Re): Language
  {
    iset w: Word | Matches(re, w)
  }

  /** The language of the empty word alone. */
  ghost function Unit(): Language
  {
    iset w: Word | |w| == 0
  }

  /** `w` is a word of `a` up to `k` and a word of `b` from there on. */
  ghost predicate CutAt(a: Language, b: Language, w: Word, k: int)
  {
    0 <= k <= |w| && w[..k] in a && w[k..] in b
  }

  ghost predicate Cuttable(a: Language, b: Language, w: Word)
  {
    exists k :: CutAt(a, b, w, k)
  }

  ghost function Concat(a: Language, b: Language): Language
  {
    iset w: Word | Cuttable(a, b, w)
  }

  /** A cut in `a` and then in what is left can be made in the other order. */
  lemma CutLeft(a: Language, b: Language, c: Language, w: Word)
    requires w in Concat(Concat(a, b), c)
    ensures w in Concat(a, Concat(b, c))
  {
    var k :| CutAt(Concat(a, b), c, w, k);
    var u := w[..k];
    var j :| CutAt(a, b, u, j);
    assert u[..j] == w[..j] && u[j..] == w[j..][..k - j] && w[j..][k - j..] == w[k..];
    assert CutAt(b, c, w[j..], k - j);
    assert CutAt(a, Concat(b, c), w, j);
  }

  lemma CutRight(a: Language, b: Language, c: Language, w: Word)
    requires w in Concat(a, Concat(b, c))
    ensures w in Concat(Concat(a, b), c)
  {
    var j :| CutAt(a, Concat(b, c), w, j);
    var v := w[j..];
    var i :| CutAt(b, c, v, i);
    var k := j + i;
    assert w[..k][..j] == w[..j] && w[..k][j..] == v[..i] && v[i..] == w[k..];
    assert CutAt(a, b, w[..k], j);
    assert CutAt(Concat(a, b), c, w, k);
  }

  lemma ConcatAssoc(a: Language, b: Language, c: Language)
    ensures Concat(Concat(a, b), c) == Concat(a, Concat(b, c))
  {
    forall w | w in Concat(Concat(a, b), c) ensures w in Concat(a, Concat(b, c)) {
      CutLeft(a, b, c, w);
    }
    forall w | w in Concat(a, Concat(b, c)) ensures w in Concat(Concat(a, b), c) {
      CutRight(a, b, c, w);
    }
  }

  lemma UnitLeft(a: Language, w: Word)
    ensures w in Concat(Unit(), a) <==> w in a
  {
    assert w[..0] == [] && w[0..] == w;
    if w in a {
      assert CutAt(Unit(), a, w, 0);
    }
    if k :| CutAt(Unit(), a, w, k) {
      assert k == 0;
    }
  }

  lemma UnitRight(a: Language, w: Word)
    ensures w in Concat(a, Unit()) <==> w in a
  {
    var n := |w|;
    assert w[..n] == w && w[n..] == [];
    if w in a {
      assert CutAt(a, Unit(), w, n);
    }
    if k :| CutAt(a, Unit(), w, k) {
      assert |w[k..]| == 0;
      assert k == n;
    }
  }

  lemma ConcatUnitLeft(a: Language)
    ensures Concat(Unit(), a) == a
  {
    forall w ensures w in Concat(Unit(), a) <==> w in a {
      UnitLeft(a, w);
    }
  }

  lemma ConcatUnitRight(a: Language)
    ensures Concat(a, Unit()) == a
  {
    forall w ensures w in Concat(a, Unit()) <==> w in a {
      UnitRight(a, w);
    }
  }

  lemma EmptyIsUnit()
    ensures Lang(Eps) == Unit()
  {
  }

  /** What is read from an empty start. */
  lemma FromEmpty(l: Language)
    ensures Concat(Lang(Eps), l) == l
  {
    EmptyIsUnit();
    ConcatUnitLeft(l);
  }

  lemma ConcatUnit(a: Language)
    ensures Concat(Unit(), a) == a
    ensures Concat(a, Unit()) == a
  {
    ConcatUnitLeft(a);
    ConcatUnitRight(a);
  }

  lemma CatCut(l: Re, r: Re, w: Word)
    ensures Matches(Cat(l, r), w) <==> w in Concat(Lang(l), Lang(r))
  {
    if Matches(Cat(l, r), w) {
      var k :| 0 <= k <= |w| && Matches(l, w[..k]) && Matches(r, w[k..]);
      assert CutAt(Lang(l), Lang(r), w, k);
    }
    if w in Concat(Lang(l), Lang(r)) {
      var k :| CutAt(Lang(l), Lang(r), w, k);
      assert Matches(l, w[..k]) && Matches(r, w[k..]);
    }
  }

  lemma LangCat(l: Re, r: Re)
    ensures Lang(Cat(l, r)) == Concat(Lang(l), Lang(r))
  {
    forall w ensures w in Lang(Cat(l, r)) <==> w in Concat(Lang(l), Lang(r)) {
      CatCut(l, r, w);
    }
  }

  lemma LangAlt(l: Re, r: Re)
    ensures Lang(Alt(l, r)) == Lang(l) + Lang(r)
  {
  }

  /** An expression that matches exactly the single symbols of `cs`... */
  ghost predicate OneOf(e: Re, p: int -> bool)
  {
    forall w: Word :: Matches(e, w) <==> |w| == 1 && p(w[0])
  }

  /** ...matches under a star exactly the words over those symbols. */
  lemma {:induction false} StarOfSymbols(e: Re, p: int -> bool, w: Word)
    requires OneOf(e, p)
    ensures Matches(Star(e), w) <==> forall i :: 0 <= i < |w| ==> p(w[i])
    decreases |w|
  {
    if w != [] {
      StarOfSymbols(e, p, w[1..]);
      if Matches(Star(e), w) {
        var k :| 0 < k <= |w| && Matches(e, w[..k]) && Matches(Star(e), w[k..]);
        assert |w[..k]| == 1;
        assert w[..k][0] == w[0];
        forall i | 0 <= i < |w| ensures p(w[i]) {
          if i > 0 { assert w[i] == w[1..][i - 1]; }
        }
      }
      if forall i :: 0 <= i < |w| ==> p(w[i]) {
        assert w[..1][0] == w[0];
        assert Matches(e, w[..1]);
      }
    }
  }

  // ----- Reading regex text -----

  /** One token of regex_lex: a character or an operator. `Bad` is an escape
      the lexer cannot get past. */
  datatype Token = Char(c: int) | Op(op: char) | Bad

  predicate IsOperator(c: char)
  {
    c == '*' || c == '+' || c == '.' || c == '|' || c == '^' || c == '-' ||
    c == '[' || c == ']' || c == '(' || c == ')'
  }

  const LEX_ESCAPES := "*+.|^$-[](){}"

  /** chrtoi: value of a digit in `base`, or -1. */
  function DigitValue(c: char, base: nat): int
  {
    var v := if '0' <= c <= '9' then c as int - '0' as int
             else if 'a' <= c <= 'z' then c as int - 'a' as int + 10
             else if 'A' <= c <= 'Z' then c as int - 'A' as int + 10
             else -1;
    if v >= base then -1 else v
  }

  /** The numeric escapes: `\\ooo`, `\\dddd` and `\\xhh`. */
  datatype Radix = Octal | Decimal | Hex

  function Base(r: Radix): nat { match r case Octal => 8 case Decimal => 10 case Hex => 16 }

  /** The most digits an escape has. */
  function Limit(r: Radix): nat { if r == Hex then 2 else 3 }

  function Scaled(r: Radix, val: nat): nat
  {
    match r
    case Octal => 8 * val
    case Decimal => 10 * val
    case Hex => 16 * val
  }

  predicate IsDigit(c: char, r: Radix) { 0 <= DigitValue(c, Base(r)) }

  /** strntol: the value of at most `n` leading digits that stays within 255, and how many were used. */
  function Number(s: string, r: Radix, n: nat, val: nat): (v: (nat, nat))
    ensures v.1 <= |s| && v.1 <= n
    ensures v.1 == 0 ==> v.0 == val
    decreases n
  {
    if n == 0 || s == [] || !IsDigit(s[0], r) then (val, 0)
    else
      var tmp := Scaled(r, val) + DigitValue(s[0], Base(r));
      if tmp > 255 then (val, 0)
      else
        var rest := Number(s[1..], r, n - 1, tmp);
        (rest.0, rest.1 + 1)
  }

  lemma {:induction false} OnlyDigits(s: string, r: Radix, n: nat, val: nat)
    ensures forall i :: 0 <= i < Number(s, r, n, val).1 ==> IsDigit(s[i], r)
    decreases n
  {
    if Number(s, r, n, val).1 > 0 {
      OnlyDigits(s[1..], r, n - 1, Scaled(r, val) + DigitValue(s[0], Base(r)));
      assert forall i :: 0 < i < Number(s, r, n, val).1 ==> s[i] == s[1..][i - 1];
    }
  }

  function Digits(r: Radix, s: string): (nat, nat) { Number(s, r, Limit(r), 0) }

  /** Outcome of reading an escape: its character and length, or no escape. */
  datatype Escape = NoEscape | Escaped(c: int, len: nat)

  /** str_escseq: the text after a backslash; characters in `extra` stand for themselves. */
  function ReadEscape(s: string, extra: string): (r: Escape)
    requires s != []
    ensures r.Escaped? ==> 1 <= r.len <= |s|
  {
    var c := s[0];
    if '0' <= c <= '7' then
      var v := Digits(Octal, s);
      if v.1 == 0 then NoEscape else Escaped(v.0, v.1)
    else if c == '\\' || c == '"' then Escaped(c as int, 1)
    else if c == 'd' || c == 'x' then
      var v := Digits(if c == 'd' then Decimal else Hex, s[1..]);
      if v.1 == 0 then NoEscape else Escaped(v.0, v.1 + 1)
    else if c == 'a' then Escaped(7, 1)
    else if c == 'e' then Escaped(27, 1)
    else if c == 'f' then Escaped(12, 1)
    else if c == 'n' then Escaped(10, 1)
    else if c == 'r' then Escaped(13, 1)
    else if c == 't' then Escaped(9, 1)
    else if c in extra then Escaped(c as int, 1)
    else NoEscape
  }

  datatype Tokens = End | Tok(head: Token, tail: Tokens)

  function Count(ts: Tokens): nat
  {
    if ts.End? then 0 else 1 + Count(ts.tail)
  }

  predicate Starts(ts: Tokens, op: char) { ts.Tok? && ts.head == Op(op) }

  /** regex_lex, run to the end of the text. */
  function Lex(s: string): Tokens
  {
    if s == [] then End
    else if s[0] == '\\' then
      if |s| == 1 then Tok(Bad, End)
      else
        var e := ReadEscape(s[1..], LEX_ESCAPES);
        if e.NoEscape? then Tok(Bad, End) else Tok(Char(e.c), Lex(s[1 + e.len..]))
    else Tok(if IsOperator(s[0]) then Op(s[0]) else Char(s[0] as int), Lex(s[1..]))
  }

  datatype Parse<T> = Fail | Ok(value: T, rest: Tokens)

  /** The member a token names inside a character class (cset_charN). */
  function ClassMember(t: Token): int
  {
    match t
    case Char(c) => c
    case Op(o) => if o in "[*+.|()^" then o as int else -1
    case Bad => -1
  }

  function Between(a: int, b: int): (r: set<int>)
    ensures forall x :: x in r <==> a <= x <= b
    decreases b - a
  {
    if a > b then {} else {a} + Between(a + 1, b)
  }

  /** insert_char_range: the ends may come in either order. */
  function Range(a: int, b: int): set<int>
  {
    if a <= b then Between(a, b) else Between(b, a)
  }

  /** A class member `c` or a range from `c`, then cset_chars and the closing bracket. */
  function ParseMember(c: int, ts: Tokens, acc: set<int>): (p: Parse<set<int>>)
    ensures p.Ok? ==> Count(p.rest) < Count(ts)
    decreases ts, 1
  {
    if c < 0 then Fail
    else if Starts(ts, '-') then
      if ts.tail.End? || ClassMember(ts.tail.head) < 0 then Fail
      else ParseClass(ts.tail.tail, acc + Range(c, ClassMember(ts.tail.head)))
    else ParseClass(ts, acc + {c})
  }

  /** cset_chars followed by the closing bracket. */
  function ParseClass(ts: Tokens, acc: set<int>): (p: Parse<set<int>>)
    ensures p.Ok? ==> Count(p.rest) < Count(ts)
    decreases ts, 0
  {
    if ts.End? then Fail
    else if ts.head == Op(']') then Ok(acc, ts.tail)
    else ParseMember(ClassMember(ts.head), ts.tail, acc)
  }

  /** charset: like cset_chars, but the first member may be `]` or `-` and may not be `^`. */
  function ParseCharset(ts: Tokens): (p: Parse<set<int>>)
    ensures p.Ok? ==> Count(p.rest) < Count(ts)
  {
    if ts.End? || ts.head == Op('^') then Fail
    else if ts.head == Op(']') || ts.head == Op('-') then ParseMember(ts.head.op as int, ts.tail, {})
    else ParseMember(ClassMember(ts.head), ts.tail, {})
  }

  /** What follows an opening bracket. */
  function ParseBracket(ts: Tokens): (p: Parse<Re>)
    ensures p.Ok? ==> Count(p.rest) < Count(ts)
  {
    if Starts(ts, '^') then
      var cs := if Starts(ts.tail, '^') then ParseClass(ts.tail.tail, {'^' as int}) else ParseCharset(ts.tail);
      if cs.Ok? then Ok(NotCharSet(cs.value), cs.rest) else Fail
    else
      var cs := ParseCharset(ts);
      if cs.Ok? then Ok(CharSet(cs.value), cs.rest) else Fail
  }

  function CatAll(acc: Re, next: Re): Re
  {
    if acc == Eps then next else Cat(acc, next)
  }

  /** term */
  function ParseTerm(ts: Tokens): (p: Parse<Re>)
    requires ts.Tok?
    ensures p.Ok? ==> Count(p.rest) < Count(ts)
    decreases Count(ts), 0
  {
    match ts.head
    case Bad => Fail
    case Char(c) => Ok(Chr(c), ts.tail)
    case Op(o) =>
      if o == '.' then Ok(AnyChar, ts.tail)
      else if o == '^' || o == '-' || o == ']' then Ok(Chr(o as int), ts.tail)
      else if o == '(' then
        var inner := ParseRegex(ts.tail);
        if inner.Ok? && Starts(inner.rest, ')') then Ok(inner.value, inner.rest.tail) else Fail
      else if o == '[' then ParseBracket(ts.tail)
      else Fail
  }

  /** terms0, continuing after `acc`: stops before `|`, `)` or the end. */
  function ParseTerms(acc: Re, ts: Tokens): (p: Parse<Re>)
    ensures p.Ok? ==> Count(p.rest) <= Count(ts)
    decreases Count(ts), 1
  {
    if ts.End? || Starts(ts, '|') || Starts(ts, ')') then Ok(acc, ts)
    else
      var t := ParseTerm(ts);
      if t.Fail? then Fail
      else if Starts(t.rest, '*') then ParseTerms(CatAll(acc, Star(t.value)), t.rest.tail)
      else if Starts(t.rest, '+') then ParseTerms(CatAll(acc, Plus(t.value)), t.rest.tail)
      else ParseTerms(CatAll(acc, t.value), t.rest)
  }

  /** The alternatives that follow `acc`. */
  function ParseAlternatives(acc: Re, ts: Tokens): (p: Parse<Re>)
    ensures p.Ok? ==> Count(p.rest) <= Count(ts)
    decreases Count(ts), 2
  {
    if !Starts(ts, '|') then Ok(acc, ts)
    else
      var t := ParseTerms(Eps, ts.tail);
      if t.Fail? then Fail else ParseAlternatives(Alt(acc, t.value), t.rest)
  }

  function ParseRegex(ts: Tokens): (p: Parse<Re>)
    ensures p.Ok? ==> Count(p.rest) <= Count(ts)
    decreases Count(ts), 3
  {
    var t := ParseTerms(Eps, ts);
    if t.Fail? then Fail else ParseAlternatives(t.value, t.rest)
  }

  /** regex_parse: the tree for a whole text, if it is in the grammar. */
  function ReadRegex(s: string): Parse<Re>
  {
    var p := ParseRegex(Lex(s));
    if p.Ok? && p.rest.End? then p else Fail
  }
}
