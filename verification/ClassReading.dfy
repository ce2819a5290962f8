/**
 Two more things the regex reader makes of classes: a quoted comma stops it, and where wildcards may match NUL it takes
 two stars for two members.
 */
module ClassReading {
  import opened Strings
  import opened Regex
  import opened GlobScanner
  import opened GlobGrammar
  import opened GlobMeaning
  import opened GlobCompile
  import opened GlobReadBack
  import opened GlobParse
  import opened GlobTheorem
  import opened GlobReadable
  import opened ClassWildcards

  // ----- A quoted comma -----

  /** The reader must come to a token it does not know. */
  predicate Doomed(ts: Tokens)
  {
    && ts.Tok? && ts.head != Op('|') && ts.head != Op('(') && ts.head != Op(')')
    && (ts.head == Bad || Doomed(ts.tail))
  }

  lemma {:induction false} DoomedClass(ts: Tokens, acc: set<int>)
    requires Doomed(ts)
    ensures ParseClass(ts, acc).Ok? ==> Doomed(ParseClass(ts, acc).rest)
    decreases ts, 0
  {
    if ts.head != Op(']') { DoomedMember(ts, ClassMember(ts.head), acc); }
  }

  lemma {:induction false} DoomedMember(ts: Tokens, c: int, acc: set<int>)
    requires Doomed(ts) && (ts.head == Bad ==> c < 0)
    ensures ParseMember(c, ts.tail, acc).Ok? ==> Doomed(ParseMember(c, ts.tail, acc).rest)
    decreases ts.tail, 1
  {
    if c >= 0 {
      if Starts(ts.tail, '-') {
        var end := ts.tail.tail;
        assert Doomed(ts.tail) && Doomed(end);
        if ClassMember(end.head) >= 0 { DoomedClass(end.tail, acc + Range(c, ClassMember(end.head))); }
      } else {
        DoomedClass(ts.tail, acc + {c});
      }
    }
  }

  lemma {:induction false} DoomedCharset(ts: Tokens)
    requires Doomed(ts)
    ensures ParseCharset(ts).Ok? ==> Doomed(ParseCharset(ts).rest)
  {
    if ts.head == Op(']') || ts.head == Op('-') {
      DoomedMember(ts, ts.head.op as int, {});
    } else {
      DoomedMember(ts, ClassMember(ts.head), {});
    }
  }

  lemma {:induction false} DoomedTerm(ts: Tokens)
    requires Doomed(ts)
    ensures ParseTerm(ts).Ok? ==> Doomed(ParseTerm(ts).rest)
  {
    if ts.head == Op('[') {
      var inner := ts.tail;
      assert Doomed(inner) && (inner.head == Op('^') ==> Doomed(inner.tail));
      if !Starts(inner, '^') {
        DoomedCharset(inner);
      } else if Starts(inner.tail, '^') {
        DoomedClass(inner.tail.tail, {'^' as int});
      } else {
        DoomedCharset(inner.tail);
      }
    }
  }

  lemma {:induction false} DoomedTerms(acc: Re, ts: Tokens)
    requires Doomed(ts)
    ensures ParseTerms(acc, ts) == Fail
    decreases Count(ts)
  {
    DoomedTerm(ts);
    var t := ParseTerm(ts);
    if t.Ok? {
      if Starts(t.rest, '*') {
        DoomedTerms(CatAll(acc, Star(t.value)), t.rest.tail);
      } else if Starts(t.rest, '+') {
        DoomedTerms(CatAll(acc, Plus(t.value)), t.rest.tail);
      } else {
        DoomedTerms(CatAll(acc, t.value), t.rest);
      }
    }
  }

  lemma DoomedStars(fills: bool, several: bool, mode: Mode, r: string)
    requires Doomed(Lex(r))
    ensures Doomed(Lex(EmitStars(fills, several, mode, r))) && Doomed(Lex(EmitSeg(mode, r)))
  {
    var stars := if several then EmitAny(mode, r) else EmitSeg(mode, ['*'] + r);
    LexPlain('*', r);
    LexAny(mode, r);
    LexSegment(mode, ['*'] + r);
    LexSegment(mode, r);
    DoomedTokens(mode, Lex(r));
    DoomedTokens(mode, Lex(['*'] + r));
    LexSegment(mode, stars);
    DoomedTokens(mode, Lex(stars));
  }

  lemma DoomedTokens(mode: Mode, ts: Tokens)
    requires Doomed(ts)
    ensures Doomed(SegTokens(mode, ts)) && Doomed(AnyTokens(mode, ts))
  {
    var close, star := Tok(Op(']'), ts), Tok(Op('*'), ts);
    var any := Tok(Op(']'), star);
    assert Doomed(close) && Doomed(star) && Doomed(any) && Doomed(Tok(Char(0), close)) && Doomed(Tok(Char(0), any));
    var end := if mode == Default then Tok(Char(0), close) else close;
    assert Doomed(Tok(Char(SLASH), end)) && Doomed(Tok(Op('^'), Tok(Char(SLASH), end)));
    assert Doomed(Tok(Op('^'), Tok(Char(0), any)));
  }

  lemma {:induction false} DoomedPieces(ps: seq<ClassPiece>, mode: Mode, slash: bool, r: string)
    requires AllScanned(ps) && Quoted(',') in ps
    ensures Doomed(Lex(EmitPieces(ps, mode, slash, r)))
    decreases |ps|
  {
    if ps[0] == Quoted(',') {
      LexComma(EmitPieces(ps[1..], mode, false, r));
    } else if ps[0] == STAR {
      var tail := PastStar(ps);
      assert ps == ps[..|ps| - |tail|] + tail && Quoted(',') in tail;
      DoomedPieces(tail, mode, false, r);
      DoomedStars(slash && ComponentEnds(Outside(tail), false), Paired(ps), mode, EmitPieces(tail, mode, false, r));
    } else {
      var slash' := ps[0].c == '/';
      assert ps == [ps[0]] + ps[1..];
      DoomedPieces(ps[1..], mode, slash', r);
      var text := EmitPieces(ps[1..], mode, slash', r);
      if ps[0] == QUEST { DoomedStars(false, false, mode, text); } else { LexClassChar(ps[0], text); }
    }
  }

  /** Wildcards or not: a class with a quoted comma is accepted and cannot be read back, whatever follows. */
  lemma {:induction false} QuotedCommaIsUnreadable(body: seq<ClassPiece>, mode: Mode, buffer: string)
    returns (text: string)
    requires AllScanned(body) && Quoted(',') in body
    ensures Convert("[" + ClassText(body) + "]", false, mode, buffer).0 != Invalid
    ensures Convert("[" + ClassText(body) + "]", false, mode, buffer).1 == buffer + text && Unreadable(text)
  {
    text := PiecesOutput(body, mode, buffer);
    forall acc, rest ensures ParseTerms(acc, Lex(text + rest)) == Fail {
      assert text + rest == ['['] + EmitPieces(body, mode, false, [']'] + rest);
      DoomedPieces(body, mode, false, [']'] + rest);
      LexPlain('[', EmitPieces(body, mode, false, [']'] + rest));
      DoomedTerms(acc, Lex(text + rest));
    }
  }

  // ----- Two stars where NUL may be matched -----

  function Tame(t: Token): Token { if t == Op('.') || t == Op('*') then Char(t.op as int) else t }

  /** The tokens of a class, with members for the operators that are members there. */
  function Tamed(ts: Tokens): Tokens
  {
    if ts.End? || ts.head == Op(']') then ts else Tok(Tame(ts.head), Tamed(ts.tail))
  }

  lemma TameMember(t: Token)
    ensures ClassMember(Tame(t)) == ClassMember(t) && (Tame(t) == Op('-') <==> t == Op('-'))
    ensures (Tame(t) == Op('^') <==> t == Op('^')) && (Tame(t) == Op(']') <==> t == Op(']'))
  {
    assert "[*+.|()^"[1] == '*' && "[*+.|()^"[3] == '.';
  }

  lemma {:induction false} TamedClass(ts: Tokens, acc: set<int>)
    ensures ParseClass(Tamed(ts), acc) == ParseClass(ts, acc)
    decreases ts, 0
  {
    if ts.Tok? && ts.head != Op(']') {
      TameMember(ts.head);
      TamedMember(ClassMember(ts.head), ts.tail, acc);
    }
  }

  lemma {:induction false} TamedMember(c: int, ts: Tokens, acc: set<int>)
    ensures ParseMember(c, Tamed(ts), acc) == ParseMember(c, ts, acc)
    decreases ts, 1
  {
    if c >= 0 && ts.Tok? {
      TameMember(ts.head);
      if ts.head != Op('-') {
        TamedClass(ts, acc + {c});
      } else if ts.tail.Tok? {
        TameMember(ts.tail.head);
        if ts.tail.head != Op(']') && ClassMember(ts.tail.head) >= 0 {
          TamedClass(ts.tail.tail, acc + Range(c, ClassMember(ts.tail.head)));
        }
      }
    }
  }

  lemma {:induction false} TamedCharset(ts: Tokens)
    requires ts.Tok? && ts.head != Op(']')
    ensures ParseCharset(Tamed(ts)) == ParseCharset(ts)
  {
    TameMember(ts.head);
    TamedMember(if ts.head == Op('-') then '-' as int else ClassMember(ts.head), ts.tail, {});
  }

  lemma {:induction false} TamedBracket(ts: Tokens, us: Tokens)
    requires ts.Tok? && us.Tok? && ts.head != Op(']') && us.head != Op(']') && Tamed(ts) == Tamed(us)
    ensures ParseBracket(ts) == ParseBracket(us)
  {
    TameMember(ts.head);
    TameMember(us.head);
    if ts.head != Op('^') {
      TamedCharset(ts);
      TamedCharset(us);
    } else {
      TamedNegated(ts.tail, us.tail);
    }
  }

  lemma {:induction false} TamedNegated(ts: Tokens, us: Tokens)
    requires Tamed(ts) == Tamed(us)
    ensures Starts(ts, '^') == Starts(us, '^')
    ensures Starts(ts, '^') ==> ParseClass(ts.tail, {'^' as int}) == ParseClass(us.tail, {'^' as int})
    ensures !Starts(ts, '^') ==> ParseCharset(ts) == ParseCharset(us)
  {
    if ts.Tok? && us.Tok? {
      TameMember(ts.head);
      TameMember(us.head);
      if Starts(ts, '^') {
        TamedClass(ts.tail, {'^' as int});
        TamedClass(us.tail, {'^' as int});
      } else if ts.head != Op(']') {
        TamedCharset(ts);
        TamedCharset(us);
      }
    }
  }

  /** `.*` and the members `.` and `*`. */
  lemma TamedPair(r: string)
    ensures Tamed(Lex(EmitAny(Null, r))) == Tamed(Lex(EmitClass([Quoted('.'), Quoted('*')], r)))
    ensures var ts := Lex(EmitClass([Quoted('.'), Quoted('*')], r)); ts.Tok? && ts.head != Op(']')
  {
    LexAny(Null, r);
    DotAndStar(r);
  }

  lemma DotAndStar(r: string)
    ensures Lex(EmitClass([Quoted('.'), Quoted('*')], r)) == Tok(Char('.' as int), Tok(Char('*' as int), Lex(r)))
  {
    var ms, star := [Quoted('.'), Quoted('*')], ['\\'] + (['*'] + r);
    assert ms[1..] == [Quoted('*')] && ms[1..][1..] == [];
    assert EmitClass(ms[1..], r) == star;
    assert EmitClass(ms, r) == ['\\'] + (['.'] + star);
    LexQuoted('*', r);
    LexQuoted('.', star);
  }

  lemma {:induction false} TamedPrefix(ms: seq<ClassPiece>, r: string, r': string)
    requires AllCopied(ms) && Tamed(Lex(r)) == Tamed(Lex(r')) && Lex(r).Tok? && Lex(r').Tok?
    requires Lex(r).head != Op(']') && Lex(r').head != Op(']')
    ensures var ts, us := Lex(EmitClass(ms, r)), Lex(EmitClass(ms, r'));
            Tamed(ts) == Tamed(us) && ts.Tok? && us.Tok? && ts.head != Op(']') && us.head != Op(']')
    decreases |ms|
  {
    if ms != [] {
      var t, t' := EmitClass(ms[1..], r), EmitClass(ms[1..], r');
      TamedPrefix(ms[1..], r, r');
      if ms[0] == Quoted(',') {
        LexComma(t);
        LexComma(t');
      } else {
        LexClassChar(ms[0], t);
        LexClassChar(ms[0], t');
      }
    }
  }

  lemma {:induction false} PairEmits(ms: seq<ClassPiece>, ps: seq<ClassPiece>, r: string)
    requires AllCopied(ms) && !Fills(ms, [STAR, STAR] + ps)
    ensures EmitPieces(ms + ([STAR, STAR] + ps), Null, false, r)
         == EmitClass(ms, EmitAny(Null, EmitPieces(ps, Null, false, r)))
    ensures EmitPieces(ms + ([Quoted('.'), Quoted('*')] + ps), Null, false, r)
         == EmitClass(ms, EmitClass([Quoted('.'), Quoted('*')], EmitPieces(ps, Null, false, r)))
  {
    var ws, ds, t := [STAR, STAR] + ps, [Quoted('.'), Quoted('*')], EmitPieces(ps, Null, false, r);
    assert PastStar(ws) == ps && Paired(ws);
    CopiedFirst(ms, ws, Null, false, r);
    CopiedFirst(ms, ds + ps, Null, false, r);
    CopiedFirst(ds, ps, Null, EndInSlash(ms), r);
  }

  /** In a class of a pattern whose wildcards may match NUL, two stars that do not fill a component are read as the
      members `.` and `*`: the class is read like the one with those. */
  lemma {:induction false} StarsAreMembers(ms: seq<ClassPiece>, ps: seq<ClassPiece>, buffer: string)
    returns (text: string, text': string)
    requires AllCopied(ms) && AllScanned(ps) && !Fills(ms, [STAR, STAR] + ps)
    ensures Convert("[" + ClassText(ms + ([STAR, STAR] + ps)) + "]", false, Null, buffer).1 == buffer + text
    ensures Convert("[" + ClassText(ms + ([Quoted('.'), Quoted('*')] + ps)) + "]", false, Null, buffer).1
         == buffer + text'
    ensures forall acc, rest :: ParseTerms(acc, Lex(text + rest)) == ParseTerms(acc, Lex(text' + rest))
  {
    var body, body' := ms + ([STAR, STAR] + ps), ms + ([Quoted('.'), Quoted('*')] + ps);
    text := PiecesOutput(body, Null, buffer);
    text' := PiecesOutput(body', Null, buffer);
    forall acc, rest ensures ParseTerms(acc, Lex(text + rest)) == ParseTerms(acc, Lex(text' + rest)) {
      var t, t' := EmitPieces(body, Null, false, [']'] + rest), EmitPieces(body', Null, false, [']'] + rest);
      assert text + rest == ['['] + t && text' + rest == ['['] + t';
      PairReads(ms, ps, [']'] + rest);
      SameClassTerm(acc, t, t');
    }
  }

  lemma {:induction false} PairReads(ms: seq<ClassPiece>, ps: seq<ClassPiece>, r: string)
    requires AllCopied(ms) && !Fills(ms, [STAR, STAR] + ps)
    ensures ParseBracket(Lex(EmitPieces(ms + ([STAR, STAR] + ps), Null, false, r)))
         == ParseBracket(Lex(EmitPieces(ms + ([Quoted('.'), Quoted('*')] + ps), Null, false, r)))
  {
    var t, ds := EmitPieces(ps, Null, false, r), [Quoted('.'), Quoted('*')];
    PairEmits(ms, ps, r);
    TamedPair(t);
    LexAny(Null, t);
    TamedPrefix(ms, EmitAny(Null, t), EmitClass(ds, t));
    TamedBracket(Lex(EmitClass(ms, EmitAny(Null, t))), Lex(EmitClass(ms, EmitClass(ds, t))));
  }

  lemma SameClassTerm(acc: Re, t: string, t': string)
    requires ParseBracket(Lex(t)) == ParseBracket(Lex(t'))
    ensures ParseTerms(acc, Lex(['['] + t)) == ParseTerms(acc, Lex(['['] + t'))
  {
    LexPlain('[', t);
    LexPlain('[', t');
  }
}
