/**
 The regex grammar reads the emitted text back as an expression with the glob's meaning.
 */
module GlobReadBack {
  import opened Regex
  import opened GlobScanner
  import opened GlobGrammar
  import opened GlobMeaning
  import opened GlobCompile

  // ----- The emitted text, in front of `rest` -----

  function EmitNul(mode: Mode, rest: string): string
  {
    if mode == Default then ['\\'] + (['x'] + (['0'] + (['0'] + rest))) else rest
  }

  function EmitSeg(mode: Mode, rest: string): string
  {
    ['['] + (['^'] + (['/'] + EmitNul(mode, [']'] + rest)))
  }

  function EmitAny(mode: Mode, rest: string): string
  {
    if mode == Default then ['['] + (['^'] + EmitNul(mode, [']'] + (['*'] + rest))) else ['.'] + (['*'] + rest)
  }

  function EmitLiteral(c: char, quoted: bool, rest: string): string
  {
    if IsEscaped(c, quoted) then ['\\'] + ([c] + rest) else [c] + rest
  }

  function EmitItem(i: Item, mode: Mode, rest: string): string
  {
    match i
    case Lit(c, quoted) => EmitLiteral(c, quoted, rest)
    case Num(radix, digits) => NumberText(radix, digits) + rest
    case Wild => EmitSeg(mode, ['*'] + rest)
    case Quest => EmitSeg(mode, rest)
    case Class(body) => ['['] + EmitClass(body, [']'] + rest)
    case Group(first, more) =>
      ['('] + EmitGlob(first, mode, false, false, ['|'] + EmitBranches(more, mode, [')'] + rest))
  }

  function EmitClass(ms: seq<ClassPiece>, rest: string): string
  {
    if ms == [] then rest
    else if IsClassEscaped(ms[0]) then ['\\'] + ([ms[0].c] + EmitClass(ms[1..], rest))
    else [ms[0].c] + EmitClass(ms[1..], rest)
  }

  function EmitStars(fills: bool, several: bool, mode: Mode, rest: string): string
  {
    var stars := if several then EmitAny(mode, rest) else EmitSeg(mode, ['*'] + rest);
    if fills then EmitSeg(mode, stars) else stars
  }

  function EmitGlob(g: Glob, mode: Mode, slash: bool, top: bool, rest: string): string
  {
    match g
    case Empty => rest
    case Cons(Wild, Cons(Wild, tail)) =>
      EmitStars(slash && ComponentEnds(tail, top), true, mode, EmitGlob(tail, mode, false, top, rest))
    case Cons(Wild, tail) =>
      EmitStars(slash && ComponentEnds(tail, top), false, mode, EmitGlob(tail, mode, false, top, rest))
    case Cons(i, tail) => EmitItem(i, mode, EmitGlob(tail, mode, After(i) == Slash, top, rest))
  }

  function EmitBranches(bs: Branches, mode: Mode, rest: string): string
  {
    match bs
    case Last(b) => EmitGlob(b, mode, false, false, rest)
    case Next(b, more) => EmitGlob(b, mode, false, false, ['|'] + EmitBranches(more, mode, rest))
  }

  // ----- Lexing it -----

  function Plainly(c: char): Token
  {
    if IsOperator(c) then Op(c) else Char(c as int)
  }

  lemma LexPlain(c: char, rest: string)
    requires c != '\\'
    ensures Lex([c] + rest) == Tok(Plainly(c), Lex(rest))
  {
    assert ([c] + rest)[1..] == rest;
  }

  predicate Escapes(c: char) { c == '\\' || c == '*' || IsBracket(c) || IsAnchor(c) || IsForeign(c) || IsCEscape(c) }

  lemma EscapeValue(c: char, rest: string)
    requires Escapes(c)
    ensures ReadEscape([c] + rest, LEX_ESCAPES) == Escaped(LiteralValue(c, true), 1)
  {
  }

  lemma LexEscape(s: string, v: int, n: nat, rest: string)
    requires s != [] && ReadEscape(s, LEX_ESCAPES) == Escaped(v, n) && s[n..] == rest
    ensures Lex(['\\'] + s) == Tok(Char(v), Lex(rest))
  {
    assert (['\\'] + s)[1..] == s && (['\\'] + s)[1 + n..] == rest;
  }

  lemma LexQuoted(c: char, rest: string)
    requires Escapes(c)
    ensures Lex(['\\'] + ([c] + rest)) == Tok(Char(LiteralValue(c, true)), Lex(rest))
  {
    EscapeValue(c, rest);
    LexEscape([c] + rest, LiteralValue(c, true), 1, rest);
  }

  lemma HexZero(rest: string)
    ensures Number(['0'] + (['0'] + rest), Hex, 2, 0) == (0, 2)
  {
    var t := ['0'] + rest;
    assert (['0'] + t)[1..] == t && t[1..] == rest;
    assert Number(rest, Hex, 0, 0) == (0, 0);
    assert Number(t, Hex, 1, 0) == (0, 1);
  }

  lemma LexNul(mode: Mode, rest: string)
    requires mode == Default
    ensures Lex(EmitNul(mode, rest)) == Tok(Char(0), Lex(rest))
  {
    var t := ['0'] + (['0'] + rest);
    var s := ['x'] + t;
    HexZero(rest);
    assert s[1..] == t;
    assert ReadEscape(s, LEX_ESCAPES) == Escaped(0, 3);
    assert s[3..] == rest;
    LexEscape(s, 0, 3, rest);
  }

  function SegTokens(mode: Mode, ts: Tokens): Tokens
  {
    var close := Tok(Op(']'), ts);
    Tok(Op('['), Tok(Op('^'), Tok(Char(SLASH), if mode == Default then Tok(Char(0), close) else close)))
  }

  lemma LexNegated(rest: string)
    ensures Lex(['['] + (['^'] + rest)) == Tok(Op('['), Tok(Op('^'), Lex(rest)))
  {
    LexPlain('[', ['^'] + rest);
    LexPlain('^', rest);
  }

  lemma LexSegment(mode: Mode, rest: string)
    ensures Lex(EmitSeg(mode, rest)) == SegTokens(mode, Lex(rest))
  {
    var r := EmitNul(mode, [']'] + rest);
    LexNegated(['/'] + r);
    LexPlain('/', r);
    if mode == Default { LexNul(mode, [']'] + rest); }
    LexPlain(']', rest);
  }

  function AnyTokens(mode: Mode, ts: Tokens): Tokens
  {
    var star := Tok(Op('*'), ts);
    if mode == Default then Tok(Op('['), Tok(Op('^'), Tok(Char(0), Tok(Op(']'), star)))) else Tok(Op('.'), star)
  }

  lemma LexAny(mode: Mode, rest: string)
    ensures Lex(EmitAny(mode, rest)) == AnyTokens(mode, Lex(rest))
  {
    LexPlain('*', rest);
    if mode == Default {
      var r := EmitNul(mode, [']'] + (['*'] + rest));
      LexNegated(r);
      LexNul(mode, [']'] + (['*'] + rest));
      LexPlain(']', ['*'] + rest);
    } else {
      LexPlain('.', ['*'] + rest);
    }
  }

  lemma LexLiteral(i: Item, rest: string)
    requires i.Lit? && (i.quoted || !IsMeta(i.c))
    ensures Lex(EmitLiteral(i.c, i.quoted, rest))
         == Tok(if i.c == '-' then Op('-') else Char(LiteralValue(i.c, i.quoted)), Lex(rest))
  {
    if IsEscaped(i.c, i.quoted) {
      LexQuoted(i.c, rest);
    } else {
      LexPlain(i.c, rest);
    }
  }

  lemma LexNumber(r: Radix, digits: string, rest: string)
    requires WellFormedNumber(r, digits) && ReadAlone(Num(r, digits), rest)
    ensures Lex(NumberText(r, digits) + rest) == Tok(Char(NumberValue(r, digits)), Lex(rest))
  {
    var s, n := Marker(r) + (digits + rest), |Marker(r)| + |digits|;
    assert NumberText(r, digits) + rest == ['\\'] + s && s[n..] == rest;
    ReadNumber(r, digits, rest, LEX_ESCAPES);
    LexEscape(s, NumberValue(r, digits), n, rest);
  }

  // ----- Parsing it -----

  function SegRe(mode: Mode): Re
  {
    NotCharSet(if mode == Default then {SLASH, 0} else {SLASH})
  }

  function AnyRe(mode: Mode): Re
  {
    if mode == Default then NotCharSet({0}) else AnyChar
  }

  lemma ParseSegment(mode: Mode, ts: Tokens)
    ensures ParseTerm(SegTokens(mode, ts)) == Ok(SegRe(mode), ts)
  {
    var close := Tok(Op(']'), ts);
    if mode == Default {
      assert {} + {SLASH} + {0} == {SLASH, 0};
      assert ParseClass(close, {} + {SLASH} + {0}) == Ok({SLASH, 0}, ts);
      assert ParseClass(Tok(Char(0), close), {} + {SLASH}) == Ok({SLASH, 0}, ts);
    } else {
      assert {} + {SLASH} == {SLASH};
      assert ParseClass(close, {} + {SLASH}) == Ok({SLASH}, ts);
    }
  }

  lemma ParseAny(mode: Mode, ts: Tokens)
    ensures ParseTerm(AnyTokens(mode, ts)) == Ok(AnyRe(mode), Tok(Op('*'), ts))
  {
    if mode == Default {
      assert {} + {0} == {0};
      assert ParseClass(Tok(Op(']'), Tok(Op('*'), ts)), {} + {0}) == Ok({0}, Tok(Op('*'), ts));
    }
  }

  /** No quantifier is waiting, so a term just read stands as it is. */
  predicate Settled(ts: Tokens) { !Starts(ts, '*') && !Starts(ts, '+') }

  lemma TermStep(acc: Re, ts: Tokens, e: Re, rest: Tokens)
    requires ts.Tok? && ParseTerm(ts) == Ok(e, rest) && Settled(rest)
    ensures ParseTerms(acc, ts) == ParseTerms(CatAll(acc, e), rest)
  {
  }

  /** Terms read up to the end of the text are the whole regex. */
  lemma ReadBack(text: string, e: Re)
    requires ParseTerms(Eps, Lex(text)) == ParseTerms(e, Lex(""))
    ensures ReadRegex(text) == Ok(e, End)
  {
    assert Lex("") == End;
    assert ParseTerms(e, End) == Ok(e, End);
    assert ParseAlternatives(e, End) == Ok(e, End);
  }

  lemma StarStep(acc: Re, ts: Tokens, e: Re, rest: Tokens)
    requires ts.Tok? && ParseTerm(ts) == Ok(e, Tok(Op('*'), rest))
    ensures ParseTerms(acc, ts) == ParseTerms(CatAll(acc, Star(e)), rest)
  {
  }

  lemma CatAllLang(acc: Re, e: Re)
    ensures Lang(CatAll(acc, e)) == Concat(Lang(acc), Lang(e))
  {
    if acc == Eps {
      assert Lang(Eps) == Unit();
      ConcatUnit(Lang(e));
    } else {
      LangCat(acc, e);
    }
  }

  // ----- What the emitted stars match -----

  lemma SegmentLang(mode: Mode)
    ensures Lang(SegRe(mode)) == iset w: Word | |w| == 1 && Segment(mode, w[0])
    ensures Lang(Star(SegRe(mode))) == StarLang(mode, false, false)
    ensures Lang(Star(AnyRe(mode))) == StarLang(mode, true, false)
  {
    assert OneOf(SegRe(mode), x => Segment(mode, x));
    assert OneOf(AnyRe(mode), x => Wildcard(mode, x));
    forall w: Word
      ensures w in Lang(Star(SegRe(mode))) <==> w in StarLang(mode, false, false)
      ensures w in Lang(Star(AnyRe(mode))) <==> w in StarLang(mode, true, false)
    {
      StarOfSymbols(SegRe(mode), x => Segment(mode, x), w);
      StarOfSymbols(AnyRe(mode), x => Wildcard(mode, x), w);
    }
  }

  lemma FillingWord(mode: Mode, several: bool, w: Word)
    ensures w in Concat(Lang(SegRe(mode)), StarLang(mode, several, false)) <==> w in StarLang(mode, several, true)
  {
    var a, b := Lang(SegRe(mode)), StarLang(mode, several, false);
    SegmentLang(mode);
    if w in Concat(a, b) {
      var k :| CutAt(a, b, w, k);
      assert k == 1 && w[..1][0] == w[0];
      assert forall i :: 1 <= i < |w| ==> w[i] == w[1..][i - 1];
    }
    if w in StarLang(mode, several, true) {
      assert w[..1][0] == w[0];
      assert CutAt(a, b, w, 1);
    }
  }

  lemma FillingStars(mode: Mode, several: bool)
    ensures Concat(Lang(SegRe(mode)), StarLang(mode, several, false)) == StarLang(mode, several, true)
  {
    forall w ensures
        w in Concat(Lang(SegRe(mode)), StarLang(mode, several, false)) <==> w in StarLang(mode, several, true) {
      FillingWord(mode, several, w);
    }
  }

  lemma AbsorbedWord(mode: Mode, several: bool, fills: bool, w: Word)
    ensures w in Concat(StarLang(mode, true, fills), StarLang(mode, several, false)) <==>
      w in StarLang(mode, true, fills)
  {
    var a, b := StarLang(mode, true, fills), StarLang(mode, several, false);
    if w in Concat(a, b) {
      var k :| CutAt(a, b, w, k);
      forall i | 0 <= i < |w| ensures Wildcard(mode, w[i]) {
        if i < k { assert w[i] == w[..k][i]; } else { assert w[i] == w[k..][i - k]; }
      }
      if fills { assert w[..k][0] == w[0]; }
    }
    if w in a {
      var n := |w|;
      assert w[..n] == w && w[n..] == [];
      assert CutAt(a, b, w, n);
    }
  }

  lemma StarsAbsorb(mode: Mode, several: bool, fills: bool)
    ensures Concat(StarLang(mode, true, fills), StarLang(mode, several, false)) == StarLang(mode, true, fills)
  {
    var a, b := StarLang(mode, true, fills), StarLang(mode, several, false);
    forall w ensures w in Concat(a, b) <==> w in a {
      AbsorbedWord(mode, several, fills, w);
    }
  }

  lemma ParseStars(fills: bool, several: bool, mode: Mode, rest: string, acc: Re) returns (acc': Re)
    ensures ParseTerms(acc, Lex(EmitStars(fills, several, mode, rest))) == ParseTerms(acc', Lex(rest))
    ensures Lang(acc') == Concat(Lang(acc), StarLang(mode, several, fills))
  {
    var stars := if several then EmitAny(mode, rest) else EmitSeg(mode, ['*'] + rest);
    var e := Star(if several then AnyRe(mode) else SegRe(mode));
    LexPlain('*', rest);
    LexAny(mode, rest);
    LexSegment(mode, ['*'] + rest);
    SegmentLang(mode);
    acc' := acc;
    if fills {
      LexSegment(mode, stars);
      ParseSegment(mode, Lex(stars));
      TermStep(acc, Lex(EmitSeg(mode, stars)), SegRe(mode), Lex(stars));
      acc' := CatAll(acc, SegRe(mode));
      CatAllLang(acc, SegRe(mode));
      ConcatAssoc(Lang(acc), Lang(SegRe(mode)), StarLang(mode, several, false));
      FillingStars(mode, several);
    }
    CatAllLang(acc', e);
    if several { ParseAny(mode, Lex(rest)); } else { ParseSegment(mode, Lex(['*'] + rest)); }
    StarStep(acc', Lex(stars), e.e, Lex(rest));
    acc' := CatAll(acc', e);
  }
}
