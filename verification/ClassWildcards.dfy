/**
 What a bare `*` or `?` means inside a character class: the scanner expands it there, and the bracket of the expansion
 ends the class.
 */
module ClassWildcards {
  import opened Strings
  import opened Regex
  import opened GlobScanner
  import opened GlobGrammar
  import opened GlobMeaning
  import opened GlobCompile
  import opened GlobReadBack
  import opened GlobParse
  import opened GlobTheorem
  import opened GlobReadable

  // ----- Class pieces among which are wildcards -----

  const STAR := Raw('*')
  const QUEST := Raw('?')

  predicate IsWildcard(p: ClassPiece) { p == STAR || p == QUEST }

  predicate AllScanned(ps: seq<ClassPiece>) { forall i :: 0 <= i < |ps| ==> IsWildcard(ps[i]) || Copied(ps[i]) }

  /** Two stars stand for one wildcard. */
  predicate Paired(ps: seq<ClassPiece>) { |ps| >= 2 && ps[0] == STAR && ps[1] == STAR }

  function PastStar(ps: seq<ClassPiece>): seq<ClassPiece>
    requires ps != []
  {
    if Paired(ps) then ps[2..] else ps[1..]
  }

  /** The pieces as the items they are outside a class. */
  function Outside(ps: seq<ClassPiece>): Glob
  {
    if ps == [] then Empty
    else Cons(if ps[0] == STAR then Wild else if ps[0] == QUEST then Quest else Lit(ps[0].c, ps[0].Quoted?),
              Outside(ps[1..]))
  }

  lemma OutsideStar(ps: seq<ClassPiece>)
    requires ps != [] && ps[0] == STAR
    ensures var g := Outside(ps);
            && g.head.Wild? && (g.tail.Cons? && g.tail.head.Wild? <==> Paired(ps))
            && PastPair(g) == Outside(PastStar(ps))
  {
    if Paired(ps) { assert ps[1..][1..] == ps[2..]; }
  }

  // ----- What the scanner appends for them -----

  function OntoPieces(pcre: string, ps: seq<ClassPiece>, mode: Mode): string
    decreases |ps|
  {
    if ps == [] then pcre
    else if ps[0] == STAR then
      OntoPieces(OntoStars(pcre, Outside(PastStar(ps)), StarsText(Paired(ps), mode), mode, false), PastStar(ps), mode)
    else if ps[0] == QUEST then OntoPieces(pcre + SegText(mode), ps[1..], mode)
    else OntoPieces(pcre + ClassCharText(ps[0]), ps[1..], mode)
  }

  lemma {:induction false} PastStarsOfPieces(ps: seq<ClassPiece>, rest: string)
    ensures var past := PastStars(ThenClass(ps, [']'] + rest));
            (past == "" || past[0] == '/') <==> ComponentEnds(Outside(ps), false)
    decreases |ps|
  {
    if ps != [] {
      var r := ThenClass(ps[1..], [']'] + rest);
      if ps[0] == STAR {
        assert (['*'] + r)[1..] == r;
        PastStarsOfPieces(ps[1..], rest);
      }
    }
  }

  lemma {:induction false} RunStarPiece(ps: seq<ClassPiece>, rest: string, st: State, mode: Mode)
    requires ps != [] && ps[0] == STAR && Reading(st.ctl)
    ensures Run(ThenClass(ps, [']'] + rest), st, mode)
         == Run(ThenClass(PastStar(ps), [']'] + rest),
                State(st.ctl, OntoStars(st.pcre, Outside(PastStar(ps)), StarsText(Paired(ps), mode), mode, false)),
                mode)
  {
    var close := [']'] + rest;
    var s, r := ThenClass(ps, close), ThenClass(ps[1..], close);
    assert s == ['*'] + r && s[1..] == r;
    PastStarsOfPieces(ps, rest);
    OutsideStar(ps);
    EndsAlike(ps);
    if Paired(ps) {
      assert ps[1..][1..] == ps[2..];
      assert r == ['*'] + ThenClass(ps[2..], close);
      assert s[2..] == ThenClass(ps[2..], close);
    }
    RunTurn(s, st, mode);
  }

  lemma {:induction false} EndsAlike(ps: seq<ClassPiece>)
    requires ps != [] && ps[0] == STAR
    ensures ComponentEnds(Outside(ps), false) == ComponentEnds(Outside(PastStar(ps)), false)
  {
    if Paired(ps) { assert ps[1..][1..] == ps[2..]; }
  }

  lemma {:induction false} RunPieces(ps: seq<ClassPiece>, rest: string, st: State, mode: Mode)
    requires AllScanned(ps) && Reading(st.ctl)
    ensures Run(ThenClass(ps, [']'] + rest), st, mode)
         == Run([']'] + rest, State(st.ctl, OntoPieces(st.pcre, ps, mode)), mode)
    decreases |ps|
  {
    if ps != [] {
      var r := ThenClass(ps[1..], [']'] + rest);
      if ps[0] == STAR {
        RunStarPiece(ps, rest, st, mode);
        RunPieces(PastStar(ps), rest,
                  State(st.ctl, OntoStars(st.pcre, Outside(PastStar(ps)), StarsText(Paired(ps), mode), mode, false)),
                  mode);
      } else if ps[0] == QUEST {
        RunOne('?', r, st, mode);
        RunPieces(ps[1..], rest, State(st.ctl, st.pcre + SegText(mode)), mode);
      } else {
        RunClassChar(ps[0], r, st, mode);
        RunPieces(ps[1..], rest, State(st.ctl, st.pcre + ClassCharText(ps[0])), mode);
      }
    }
  }

  /** The same text, in front of `rest`; `slash` says that one was just written. */
  function EmitPieces(ps: seq<ClassPiece>, mode: Mode, slash: bool, rest: string): string
    decreases |ps|
  {
    if ps == [] then rest
    else if ps[0] == STAR then
      EmitStars(slash && ComponentEnds(Outside(PastStar(ps)), false), Paired(ps), mode,
                EmitPieces(PastStar(ps), mode, false, rest))
    else if ps[0] == QUEST then EmitSeg(mode, EmitPieces(ps[1..], mode, false, rest))
    else EmitPiece(ps[0], EmitPieces(ps[1..], mode, ps[0].c == '/', rest))
  }

  lemma PieceEnds(pcre: string, p: ClassPiece, mode: Mode)
    ensures EndsInSlash(pcre + ClassCharText(p)) <==> p.c == '/'
    ensures !EndsInSlash(pcre + SegText(mode))
  {
    var text := ClassCharText(p);
    assert (pcre + text)[|pcre + text| - 1] == text[|text| - 1] == p.c;
    assert (pcre + SegText(mode))[|pcre + SegText(mode)| - 1] == ']';
  }

  lemma {:induction false} PiecesSpelled(pcre: string, ps: seq<ClassPiece>, mode: Mode, rest: string)
    ensures OntoPieces(pcre, ps, mode) + rest == pcre + EmitPieces(ps, mode, EndsInSlash(pcre), rest)
    decreases |ps|, 1
  {
    if ps != [] {
      if ps[0] == STAR {
        StarPieceSpelled(pcre, ps, mode, rest);
      } else {
        OnePieceSpelled(pcre, ps, mode, rest);
      }
    }
  }

  lemma {:induction false} StarPieceSpelled(pcre: string, ps: seq<ClassPiece>, mode: Mode, rest: string)
    requires ps != [] && ps[0] == STAR
    ensures OntoPieces(pcre, ps, mode) + rest == pcre + EmitPieces(ps, mode, EndsInSlash(pcre), rest)
    decreases |ps|, 0
  {
    var tail, several := Outside(PastStar(ps)), Paired(ps);
    PiecesSpelled(OntoStars(pcre, tail, StarsText(several, mode), mode, false), PastStar(ps), mode, rest);
    StarsEnd(pcre, tail, several, mode, false);
    StarsSpelled(pcre, tail, several, mode, false, EmitPieces(PastStar(ps), mode, false, rest));
  }

  lemma {:induction false} OnePieceSpelled(pcre: string, ps: seq<ClassPiece>, mode: Mode, rest: string)
    requires ps != [] && ps[0] != STAR
    ensures OntoPieces(pcre, ps, mode) + rest == pcre + EmitPieces(ps, mode, EndsInSlash(pcre), rest)
    decreases |ps|, 0
  {
    var text := if ps[0] == QUEST then SegText(mode) else ClassCharText(ps[0]);
    var r := EmitPieces(ps[1..], mode, ps[0].c == '/', rest);
    PieceEnds(pcre, ps[0], mode);
    PiecesSpelled(pcre + text, ps[1..], mode, rest);
    PieceSpelled(ps[0], mode, r);
    Shift(pcre, text, r);
  }

  lemma PieceSpelled(p: ClassPiece, mode: Mode, r: string)
    ensures EmitPiece(p, r) == ClassCharText(p) + r && EmitSeg(mode, r) == SegText(mode) + r
  {
    SegmentSpelled(mode, r);
  }

  // ----- How they read outside a class -----

  /** Pieces that read as terms: no bracket opens another class, and no comma keeps a quote. */
  predicate Loose(ps: seq<ClassPiece>)
  {
    forall i :: 0 <= i < |ps| ==>
      IsWildcard(ps[i]) || (Copied(ps[i]) && ps[i] != Raw('[') && ps[i] != Quoted(','))
  }

  /** What ends a run of loose pieces: the bracket that ends the class, or one that opens another. */
  predicate Ends(more: seq<ClassPiece>) { more == [] || more[0] == Raw('[') }

  lemma {:induction false} PiecesSettled(ps: seq<ClassPiece>, more: seq<ClassPiece>, mode: Mode, slash: bool,
                                         rest: string)
    requires Loose(ps) && Ends(more)
    ensures Settled(Lex(EmitPieces(ps + more, mode, slash, [']'] + rest)))
  {
    var qs := ps + more;
    if qs == [] {
      LexPlain(']', rest);
    } else if qs[0] == STAR {
      var r := EmitPieces(PastStar(qs), mode, false, [']'] + rest);
      LexAny(mode, r);
      LexSegment(mode, ['*'] + r);
      LexSegment(mode, if Paired(qs) then EmitAny(mode, r) else EmitSeg(mode, ['*'] + r));
    } else if qs[0] == QUEST {
      LexSegment(mode, EmitPieces(qs[1..], mode, false, [']'] + rest));
    } else {
      LexClassChar(qs[0], EmitPieces(qs[1..], mode, qs[0].c == '/', [']'] + rest));
    }
  }

  lemma PieceTerm(p: ClassPiece, ts: Tokens)
    requires Copied(p) && p != Raw('[') && p != Quoted(',')
    ensures ParseTerm(Tok(MemberToken(p), ts)) == Ok(Chr(MemberValue(p)), ts)
  {
  }

  /** Behind the pieces a slash has just been written. */
  predicate SlashBehind(ps: seq<ClassPiece>, slash: bool) { if ps == [] then slash else ps[|ps| - 1].c == '/' }

  lemma {:induction false} ParsePieces(ps: seq<ClassPiece>, more: seq<ClassPiece>, mode: Mode, slash: bool,
                                       rest: string, acc: Re)
    returns (acc': Re)
    requires Loose(ps) && Ends(more)
    ensures ParseTerms(acc, Lex(EmitPieces(ps + more, mode, slash, [']'] + rest)))
         == ParseTerms(acc', Lex(EmitPieces(more, mode, SlashBehind(ps, slash), [']'] + rest)))
    ensures Lang(acc') == Concat(Lang(acc), EmittedLang(Outside(ps), mode, slash, false))
    decreases |ps|, 1
  {
    if ps == [] {
      assert ps + more == more;
      acc' := acc;
      ConcatUnitRight(Lang(acc));
    } else if ps[0] == STAR {
      acc' := ParseStarPiece(ps, more, mode, slash, rest, acc);
    } else {
      var slash' := ps[0].c == '/';
      assert (ps + more)[0] == ps[0] && (ps + more)[1..] == ps[1..] + more;
      var r := EmitPieces(ps[1..] + more, mode, slash', [']'] + rest);
      PiecesSettled(ps[1..], more, mode, slash', rest);
      var g := Outside(ps);
      var acc1 := ParseOnePiece(ps[0], mode, r, acc);
      acc' := ParsePieces(ps[1..], more, mode, slash', rest, acc1);
      ConcatAssoc(Lang(acc), ItemLang(g.head, mode), EmittedLang(g.tail, mode, slash', false));
      FirstItem(g, mode, slash, Other, false);
    }
  }

  /** Nothing that ends a run of loose pieces ends a path component or continues a run of stars. */
  lemma {:induction false} StarsApart(ps: seq<ClassPiece>, more: seq<ClassPiece>)
    requires ps != [] && ps[0] == STAR && Ends(more)
    ensures Paired(ps + more) == Paired(ps) && PastStar(ps + more) == PastStar(ps) + more
    ensures ComponentEnds(Outside(PastStar(ps) + more), false) == ComponentEnds(Outside(PastStar(ps)), false)
  {
    EndsApart(PastStar(ps), more);
  }

  lemma {:induction false} EndsApart(ps: seq<ClassPiece>, more: seq<ClassPiece>)
    requires Ends(more)
    ensures ComponentEnds(Outside(ps + more), false) == ComponentEnds(Outside(ps), false)
    decreases |ps|
  {
    if ps == [] {
      assert ps + more == more;
    } else {
      assert (ps + more)[0] == ps[0] && (ps + more)[1..] == ps[1..] + more;
      if ps[0] == STAR { EndsApart(ps[1..], more); }
    }
  }

  lemma {:induction false} StarEmits(ps: seq<ClassPiece>, more: seq<ClassPiece>, mode: Mode, slash: bool, r: string)
    requires Loose(ps) && ps != [] && ps[0] == STAR && Ends(more)
    ensures var tail := PastStar(ps);
            && EmitPieces(ps + more, mode, slash, r)
               == EmitStars(slash && ComponentEnds(Outside(tail), false), Paired(ps), mode,
                            EmitPieces(tail + more, mode, false, r))
            && SlashBehind(tail, false) == SlashBehind(ps, slash) && Loose(tail)
  {
    StarsApart(ps, more);
    assert (ps + more)[0] == STAR;
  }

  lemma {:induction false} ParseStarPiece(ps: seq<ClassPiece>, more: seq<ClassPiece>, mode: Mode, slash: bool,
                                          rest: string, acc: Re)
    returns (acc': Re)
    requires Loose(ps) && Ends(more) && ps != [] && ps[0] == STAR
    ensures ParseTerms(acc, Lex(EmitPieces(ps + more, mode, slash, [']'] + rest)))
         == ParseTerms(acc', Lex(EmitPieces(more, mode, SlashBehind(ps, slash), [']'] + rest)))
    ensures Lang(acc') == Concat(Lang(acc), EmittedLang(Outside(ps), mode, slash, false))
    decreases |ps|, 0
  {
    var tail := PastStar(ps);
    var fills := slash && ComponentEnds(Outside(tail), false);
    StarEmits(ps, more, mode, slash, [']'] + rest);
    var acc1 := ParseStars(fills, Paired(ps), mode, EmitPieces(tail + more, mode, false, [']'] + rest), acc);
    acc' := ParsePieces(tail, more, mode, false, rest, acc1);
    StarPieceLang(ps, mode, slash);
    ConcatAssoc(Lang(acc), StarLang(mode, Paired(ps), fills), EmittedLang(Outside(tail), mode, false, false));
  }

  /** The bracket that should have ended the class. */
  lemma {:induction false} ParseBracketAlone(rest: string, acc: Re) returns (acc': Re)
    requires Settled(Lex(rest))
    ensures ParseTerms(acc, Lex([']'] + rest)) == ParseTerms(acc', Lex(rest))
    ensures Lang(acc') == Concat(Lang(acc), Lang(Chr(']' as int)))
  {
    var e := Chr(']' as int);
    LexPlain(']', rest);
    TermStep(acc, Lex([']'] + rest), e, Lex(rest));
    CatAllLang(acc, e);
    acc' := CatAll(acc, e);
  }

  lemma {:induction false} StarPieceLang(ps: seq<ClassPiece>, mode: Mode, slash: bool)
    requires ps != [] && ps[0] == STAR
    ensures var tail := Outside(PastStar(ps));
            EmittedLang(Outside(ps), mode, slash, false)
            == Concat(StarLang(mode, Paired(ps), slash && ComponentEnds(tail, false)),
                      EmittedLang(tail, mode, false, false))
  {
    var g := Outside(ps);
    OutsideStar(ps);
    assert g == Cons(Wild, g.tail);
    if Paired(ps) { assert g.tail == Cons(Wild, g.tail.tail); }
  }

  lemma {:induction false} ParseOnePiece(p: ClassPiece, mode: Mode, r: string, acc: Re) returns (acc': Re)
    requires Loose([p]) && p != STAR && Settled(Lex(r))
    ensures ParseTerms(acc, Lex(if p == QUEST then EmitSeg(mode, r) else EmitPiece(p, r))) == ParseTerms(acc', Lex(r))
    ensures Lang(acc') == Concat(Lang(acc), ItemLang(Outside([p]).head, mode))
  {
    assert [p][0] == p;
    var e := if p == QUEST then SegRe(mode) else Chr(MemberValue(p));
    if p == QUEST {
      LexSegment(mode, r);
      ParseSegment(mode, Lex(r));
    } else {
      LexClassChar(p, r);
      PieceTerm(p, Lex(r));
    }
    TermStep(acc, Lex(if p == QUEST then EmitSeg(mode, r) else EmitPiece(p, r)), e, Lex(r));
    CatAllLang(acc, e);
    acc' := CatAll(acc, e);
    OnePieceLang(p, mode, e);
  }

  lemma OnePieceLang(p: ClassPiece, mode: Mode, e: Re)
    requires p != STAR && e == if p == QUEST then SegRe(mode) else Chr(MemberValue(p))
    ensures Lang(e) == ItemLang(Outside([p]).head, mode)
  {
    if p == QUEST {
      SegmentLang(mode);
    } else {
      assert Lang(e) == ItemLang(Lit(p.c, p.Quoted?), mode);
    }
  }

  // ----- The class that a wildcard ends -----

  /** The pieces an expanded wildcard adds to the class it stands in, up to its own closing bracket. */
  function Opening(mode: Mode, any: bool): seq<ClassPiece>
  {
    [Raw('['), Raw('^')] + (if any then [] else [Raw('/')]) + (if mode == Default then [Raw('\0')] else [])
  }

  predicate EndInSlash(ms: seq<ClassPiece>) { ms != [] && ms[|ms| - 1].c == '/' }

  /** Stars behind `ms` that fill a path component: one symbol is expanded in front of them. */
  predicate Fills(ms: seq<ClassPiece>, ws: seq<ClassPiece>)
    requires ws != []
  {
    ws[0] == STAR && EndInSlash(ms) && ComponentEnds(Outside(PastStar(ws)), false)
  }

  /** The class is repeated: it took the place of the symbols that stars loop over. */
  predicate Looped(ms: seq<ClassPiece>, ws: seq<ClassPiece>)
    requires ws != []
  {
    ws[0] == STAR && !Fills(ms, ws)
  }

  /** The class that is read. */
  function Shut(ms: seq<ClassPiece>, ws: seq<ClassPiece>, mode: Mode): seq<ClassPiece>
    requires ws != []
  {
    Unquoted(ms + Opening(mode, Looped(ms, ws) && Paired(ws)))
  }

  /** The pieces that are left outside it. */
  function Left(ms: seq<ClassPiece>, ws: seq<ClassPiece>): seq<ClassPiece>
    requires ws != []
  {
    if Fills(ms, ws) then ws else PastStar(ws)
  }

  /** In a pattern that may match NUL, two stars add no bracket. */
  predicate EndsClass(ms: seq<ClassPiece>, ws: seq<ClassPiece>, mode: Mode)
    requires ws != []
  {
    mode == Default || !Looped(ms, ws) || !Paired(ws)
  }

  lemma {:induction false} OpeningTokens(mode: Mode, z: string)
    ensures Lex(ClosedClass(Opening(mode, false), z)) == SegTokens(mode, Lex(z))
    ensures mode == Default ==>
      Lex(ClosedClass(Opening(mode, true), z)) == Tok(Op('['), Tok(Op('^'), Tok(Char(0), Tok(Op(']'), Lex(z)))))
  {
    var nul: seq<ClassPiece> := if mode == Default then [Raw('\0')] else [];
    var end := ClosedClass(nul, z);
    LexPlain(']', z);
    if mode == Default {
      assert nul[1..] == [] && ClosedClass([], z) == [']'] + z && end == ['\0'] + ([']'] + z);
      LexPlain('\0', [']'] + z);
      assert Lex(end) == Tok(Char(0), Tok(Op(']'), Lex(z)));
    }
    LexPlain('/', end);
    LexNegated(end);
    LexNegated(['/'] + end);
    var slash := [Raw('/')] + nul;
    assert slash[1..] == nul && ClosedClass(slash, z) == ['/'] + end;
    OpeningText(nul, z);
    OpeningText(slash, z);
    assert Opening(mode, true) == [Raw('['), Raw('^')] + nul;
    assert Opening(mode, false) == [Raw('['), Raw('^')] + slash;
    assert Lex(ClosedClass(Opening(mode, false), z)) == Tok(Op('['), Tok(Op('^'), Tok(Char(SLASH), Lex(end))));
  }

  lemma OpeningText(ms: seq<ClassPiece>, z: string)
    ensures ClosedClass([Raw('['), Raw('^')] + ms, z) == ['['] + (['^'] + ClosedClass(ms, z))
  {
    var body, tail := [Raw('['), Raw('^')] + ms, [Raw('^')] + ms;
    assert tail[1..] == ms && ClosedClass(tail, z) == ['^'] + ClosedClass(ms, z);
    assert body[1..] == tail && ClosedClass(body, z) == ['['] + ClosedClass(tail, z);
  }

  /** What stands behind the bracket that ends the class. */
  function Beyond(ms: seq<ClassPiece>, ws: seq<ClassPiece>, mode: Mode, rest: string): string
    requires ws != []
  {
    var text := EmitPieces(Left(ms, ws), mode, false, rest);
    if Looped(ms, ws) then ['*'] + text else text
  }

  lemma {:induction false} WildcardTokens(ms: seq<ClassPiece>, ws: seq<ClassPiece>, mode: Mode, rest: string)
    requires ws != [] && IsWildcard(ws[0]) && EndsClass(ms, ws, mode)
    ensures Lex(EmitPieces(ws, mode, EndInSlash(ms), rest))
         == Lex(ClosedClass(Opening(mode, Looped(ms, ws) && Paired(ws)), Beyond(ms, ws, mode, rest)))
  {
    var z := Beyond(ms, ws, mode, rest);
    OpeningTokens(mode, z);
    LexSegment(mode, z);
    if Looped(ms, ws) && Paired(ws) {
      var text := EmitPieces(PastStar(ws), mode, false, rest);
      LexAny(mode, text);
      LexPlain('*', text);
    }
  }

  /** The tokens of a class depend on those behind it only. */
  lemma {:induction false} SameTokens(ms: seq<ClassPiece>, r: string, r': string)
    requires AllCopied(ms) && Lex(r) == Lex(r')
    ensures Lex(EmitClass(ms, r)) == Lex(EmitClass(ms, r'))
    decreases |ms|
  {
    if ms != [] {
      var t, t' := EmitClass(ms[1..], r), EmitClass(ms[1..], r');
      SameTokens(ms[1..], r, r');
      if ms[0] == Quoted(',') {
        LexComma(t);
        LexComma(t');
      } else {
        LexClassChar(ms[0], t);
        LexClassChar(ms[0], t');
      }
    }
  }

  lemma {:induction false} EmitClassJoin(ms: seq<ClassPiece>, ps: seq<ClassPiece>, r: string)
    ensures EmitClass(ms + ps, r) == EmitClass(ms, EmitClass(ps, r))
    decreases |ms|
  {
    if ms == [] {
      assert ms + ps == ps;
    } else {
      assert (ms + ps)[0] == ms[0] && (ms + ps)[1..] == ms[1..] + ps;
      EmitClassJoin(ms[1..], ps, r);
    }
  }

  lemma {:induction false} CopiedFirst(ms: seq<ClassPiece>, ws: seq<ClassPiece>, mode: Mode, slash: bool, r: string)
    requires AllCopied(ms)
    ensures EmitPieces(ms + ws, mode, slash, r)
         == EmitClass(ms, EmitPieces(ws, mode, if ms == [] then slash else EndInSlash(ms), r))
    decreases |ms|
  {
    if ms == [] {
      assert ms + ws == ws;
    } else {
      assert (ms + ws)[0] == ms[0] && (ms + ws)[1..] == ms[1..] + ws;
      CopiedFirst(ms[1..], ws, mode, ms[0].c == '/', r);
      assert ms[1..] != [] ==> EndInSlash(ms[1..]) == EndInSlash(ms);
    }
  }

  /** The whole class reads as a class that ends early, in front of what is left. */
  lemma {:induction false} ShutTokens(ms: seq<ClassPiece>, ws: seq<ClassPiece>, mode: Mode, r: string)
    requires AllCopied(ms) && ws != [] && IsWildcard(ws[0]) && EndsClass(ms, ws, mode)
    ensures Lex(['['] + EmitPieces(ms + ws, mode, false, r))
         == Lex(['['] + ClosedClass(Shut(ms, ws, mode), Beyond(ms, ws, mode, r)))
  {
    var opening, z := Opening(mode, Looped(ms, ws) && Paired(ws)), Beyond(ms, ws, mode, r);
    CopiedFirst(ms, ws, mode, false, r);
    WildcardTokens(ms, ws, mode, r);
    SameTokens(ms, EmitPieces(ws, mode, EndInSlash(ms), r), ClosedClass(opening, z));
    EmitClassJoin(ms, opening, [']'] + z);
    UnquotedText(ms + opening, [']'] + z);
    LexPlain('[', EmitPieces(ms + ws, mode, false, r));
    LexPlain('[', ClosedClass(Shut(ms, ws, mode), z));
  }

  // ----- Main result -----

  /** Words all of whose symbols are in the class. */
  ghost function Loop(body: seq<ClassPiece>): Language
  {
    iset w: Word | forall i :: 0 <= i < |w| ==> 0 <= w[i] && InClass(body, w[i])
  }

  lemma LoopLang(body: seq<ClassPiece>, mode: Mode)
    ensures Lang(Star(ClassRe(body))) == Loop(body)
  {
    var p := x => 0 <= x && InClass(body, x);
    ClassLang(body, mode);
    assert OneOf(ClassRe(body), p) by {
      forall w: Word ensures Matches(ClassRe(body), w) <==> |w| == 1 && p(w[0]) {
        assert w in Lang(ClassRe(body)) <==> w in ItemLang(Class(body), mode);
      }
    }
    forall w ensures w in Lang(Star(ClassRe(body))) <==> w in Loop(body) {
      StarOfSymbols(ClassRe(body), p, w);
    }
  }

  /** The class that is left, once or repeated. */
  ghost function ShutLang(ms: seq<ClassPiece>, ws: seq<ClassPiece>, mode: Mode): Language
    requires ws != []
  {
    var body := Shut(ms, ws, mode);
    if Looped(ms, ws) then Loop(body) else ItemLang(Class(body), mode)
  }

  /** ...and then a glob and a bracket. */
  ghost function WildcardLang(ms: seq<ClassPiece>, ws: seq<ClassPiece>, mode: Mode): Language
    requires ws != []
  {
    Concat(Concat(ShutLang(ms, ws, mode), GlobLang(Outside(Left(ms, ws)), mode, Other, false)), Lang(Chr(']' as int)))
  }

  /** No text that goes on like this is a regex. */
  ghost predicate Unreadable(text: string)
  {
    forall acc, rest :: ParseTerms(acc, Lex(text + rest)) == Fail
  }

  /** The class, and the loose pieces behind it. */
  lemma {:induction false} ParseShut(ms: seq<ClassPiece>, ws: seq<ClassPiece>, ps: seq<ClassPiece>,
                                     more: seq<ClassPiece>, mode: Mode, rest: string, acc: Re)
    returns (acc': Re)
    requires AllCopied(ms) && ws != [] && IsWildcard(ws[0]) && EndsClass(ms, ws, mode)
    requires PlainClass(Shut(ms, ws, mode)) && Left(ms, ws) == ps + more && Loose(ps) && Ends(more)
    ensures ParseTerms(acc, Lex(['['] + EmitPieces(ms + ws, mode, false, [']'] + rest)))
         == ParseTerms(acc', Lex(EmitPieces(more, mode, SlashBehind(ps, false), [']'] + rest)))
    ensures Lang(acc') == Concat(Lang(acc), Concat(ShutLang(ms, ws, mode), GlobLang(Outside(ps), mode, Other, false)))
  {
    var r, body, left := [']'] + rest, Shut(ms, ws, mode), Left(ms, ws);
    var z, text := Beyond(ms, ws, mode, r), EmitPieces(left, mode, false, r);
    var ts := Lex(['['] + ClosedClass(body, z));
    ShutTokens(ms, ws, mode, r);
    ParseClassItem(body, z);
    PiecesSettled(ps, more, mode, false, rest);
    var e := ClassRe(body);
    if Looped(ms, ws) {
      LexPlain('*', text);
      StarStep(acc, ts, e, Lex(text));
      e := Star(e);
      LoopLang(body, mode);
    } else {
      TermStep(acc, ts, e, Lex(z));
      ClassLang(body, mode);
    }
    CatAllLang(acc, e);
    acc' := ParsePieces(ps, more, mode, false, rest, CatAll(acc, e));
    EmittedIsMeant(Outside(ps), mode, false, false);
    ConcatAssoc(Lang(acc), Lang(e), GlobLang(Outside(ps), mode, Other, false));
  }

  lemma {:induction false} FailShut(ms: seq<ClassPiece>, ws: seq<ClassPiece>, mode: Mode, r: string, acc: Re)
    requires AllCopied(ms) && ws != [] && IsWildcard(ws[0]) && EndsClass(ms, ws, mode)
    requires !PlainClass(Shut(ms, ws, mode))
    ensures ParseTerms(acc, Lex(['['] + EmitPieces(ms + ws, mode, false, r))) == Fail
  {
    var body, z := Shut(ms, ws, mode), Beyond(ms, ws, mode, r);
    ShutTokens(ms, ws, mode, r);
    ShutIsBare(ms, ws, mode);
    BadClass(body, z);
    LexPlain('[', ClosedClass(body, z));
    FailedTerm(acc, Lex(['['] + ClosedClass(body, z)));
  }

  lemma {:induction false} ShutIsBare(ms: seq<ClassPiece>, ws: seq<ClassPiece>, mode: Mode)
    requires AllCopied(ms) && ws != []
    ensures var body := Shut(ms, ws, mode); AllCopied(body) && Bare(body) && Members(body) != []
  {
    var opening := Opening(mode, Looped(ms, ws) && Paired(ws));
    assert |opening| >= 2 && AllCopied(opening);
    UnquotedCopied(ms + opening);
    UnquotedIsBare(ms + opening);
    UnquotedLength(ms + opening);
  }

  lemma {:induction false} UnquotedLength(body: seq<ClassPiece>)
    ensures |Unquoted(body)| == |body|
    decreases |body|
  {
    if body != [] { UnquotedLength(body[1..]); }
  }

  /** What the scanner appends for a class with wildcards. */
  lemma {:induction false} PiecesOutput(body: seq<ClassPiece>, mode: Mode, buffer: string) returns (text: string)
    requires AllScanned(body)
    ensures Convert("[" + ClassText(body) + "]", false, mode, buffer).0 != Invalid
    ensures Convert("[" + ClassText(body) + "]", false, mode, buffer).1 == buffer + text
    ensures forall rest :: text + rest == ['['] + EmitPieces(body, mode, false, [']'] + rest)
  {
    var pcre := buffer + "[";
    var st := State(START.(inClass := true, ptype := Regular), pcre);
    ThenIsClassText(body, [']'] + "");
    assert "[" + ClassText(body) + "]" == ['['] + ThenClass(body, [']'] + "");
    RunOpenClass(ThenClass(body, [']'] + ""), State(START, buffer), mode);
    RunPieces(body, "", st, mode);
    RunCloseClass("", State(st.ctl, OntoPieces(pcre, body, mode)), mode);
    text := ['['] + EmitPieces(body, mode, false, [']'] + "");
    var end := OntoPieces(pcre, body, mode) + "]";
    forall rest ensures end + rest == buffer + (['['] + EmitPieces(body, mode, false, [']'] + rest)) {
      PiecesSpelled(pcre, body, mode, [']'] + rest);
      Shift(buffer, "[", EmitPieces(body, mode, false, [']'] + rest));
      Shift(OntoPieces(pcre, body, mode), "]", rest);
    }
    assert end + "" == end == buffer + text;
    forall rest ensures text + rest == ['['] + EmitPieces(body, mode, false, [']'] + rest) {
      SamePrefix(buffer, text, end, rest, ['['] + EmitPieces(body, mode, false, [']'] + rest));
    }
  }

  /** A wildcard ends the class it stands in. What was in front of it and the symbols it excludes are the members;
      a star repeats the class, unless it fills a path component; and the rest of the class is read as a glob, with
      a bracket behind it. When those members are not in the grammar of character sets, nothing is read. */
  lemma {:induction false} WildcardEndsClass(ms: seq<ClassPiece>, ws: seq<ClassPiece>, mode: Mode, buffer: string)
    returns (text: string)
    requires AllCopied(ms) && ws != [] && IsWildcard(ws[0]) && AllScanned(ws) && EndsClass(ms, ws, mode)
    ensures Convert("[" + ClassText(ms + ws) + "]", false, mode, buffer).0 != Invalid
    ensures Convert("[" + ClassText(ms + ws) + "]", false, mode, buffer).1 == buffer + text
    ensures PlainClass(Shut(ms, ws, mode)) && Loose(Left(ms, ws)) ==> Denotes(text, WildcardLang(ms, ws, mode))
    ensures !PlainClass(Shut(ms, ws, mode)) ==> Unreadable(text)
  {
    text := PiecesOutput(ms + ws, mode, buffer);
    if !PlainClass(Shut(ms, ws, mode)) {
      forall acc, rest ensures ParseTerms(acc, Lex(text + rest)) == Fail {
        FailShut(ms, ws, mode, [']'] + rest, acc);
        assert text + rest == ['['] + EmitPieces(ms + ws, mode, false, [']'] + rest);
      }
    } else if Loose(Left(ms, ws)) {
      var l := WildcardLang(ms, ws, mode);
      forall acc, rest | Settled(Lex(rest)) && NoDigit(rest) ensures AddsTo(acc, text, rest, l) {
        var acc' := ReadWildcard(ms, ws, mode, rest, acc);
        assert text + rest == ['['] + EmitPieces(ms + ws, mode, false, [']'] + rest);
      }
    }
  }

  lemma {:induction false} ReadWildcard(ms: seq<ClassPiece>, ws: seq<ClassPiece>, mode: Mode, rest: string, acc: Re)
    returns (acc': Re)
    requires AllCopied(ms) && ws != [] && IsWildcard(ws[0]) && EndsClass(ms, ws, mode)
    requires PlainClass(Shut(ms, ws, mode)) && Loose(Left(ms, ws)) && Settled(Lex(rest))
    ensures ParseTerms(acc, Lex(['['] + EmitPieces(ms + ws, mode, false, [']'] + rest))) == ParseTerms(acc', Lex(rest))
    ensures Lang(acc') == Concat(Lang(acc), WildcardLang(ms, ws, mode))
  {
    var left := Left(ms, ws);
    assert left + [] == left;
    var acc1 := ParseShut(ms, ws, left, [], mode, rest, acc);
    acc' := ParseBracketAlone(rest, acc1);
    ConcatAssoc(Lang(acc), Concat(ShutLang(ms, ws, mode), GlobLang(Outside(left), mode, Other, false)),
                Lang(Chr(']' as int)));
  }

  /** A bare bracket behind the wildcard opens another class, which may have wildcards of its own. */
  lemma {:induction false} BracketOpensAgain(ms: seq<ClassPiece>, ws: seq<ClassPiece>, ps: seq<ClassPiece>,
                                             qs: seq<ClassPiece>, mode: Mode, inner: string, l: Language,
                                             buffer: string)
    returns (text: string)
    requires AllCopied(ms) && ws != [] && IsWildcard(ws[0]) && AllScanned(ws) && EndsClass(ms, ws, mode)
    requires PlainClass(Shut(ms, ws, mode)) && Left(ms, ws) == ps + ([Raw('[')] + qs) && Loose(ps)
    requires Convert("[" + ClassText(qs) + "]", false, mode, "").1 == inner && Denotes(inner, l)
    ensures Convert("[" + ClassText(ms + ws) + "]", false, mode, buffer).0 != Invalid
    ensures Convert("[" + ClassText(ms + ws) + "]", false, mode, buffer).1 == buffer + text
    ensures Denotes(text, Concat(Concat(ShutLang(ms, ws, mode), GlobLang(Outside(ps), mode, Other, false)), l))
  {
    text := PiecesOutput(ms + ws, mode, buffer);
    LaterScanned(ms, ws, ps, qs);
    var inner' := PiecesOutput(qs, mode, "");
    assert "" + inner' == inner';
    var front := Concat(ShutLang(ms, ws, mode), GlobLang(Outside(ps), mode, Other, false));
    forall acc, rest | Settled(Lex(rest)) && NoDigit(rest) ensures AddsTo(acc, text, rest, Concat(front, l)) {
      var acc1 := ParseShut(ms, ws, ps, [Raw('[')] + qs, mode, rest, acc);
      OpensWith(qs, mode, SlashBehind(ps, false), rest);
      assert text + rest == ['['] + EmitPieces(ms + ws, mode, false, [']'] + rest);
      assert inner + rest == ['['] + EmitPieces(qs, mode, false, [']'] + rest);
      assert AddsTo(acc1, inner, rest, l);
      ConcatAssoc(Lang(acc), front, l);
    }
  }

  lemma LaterScanned(ms: seq<ClassPiece>, ws: seq<ClassPiece>, ps: seq<ClassPiece>, qs: seq<ClassPiece>)
    requires ws != [] && AllScanned(ws) && Left(ms, ws) == ps + ([Raw('[')] + qs)
    ensures AllScanned(qs)
  {
    var left, n := Left(ms, ws), |ps| + 1;
    assert AllScanned(left);
    assert qs == left[n..];
  }

  lemma OpensWith(qs: seq<ClassPiece>, mode: Mode, slash: bool, rest: string)
    ensures EmitPieces([Raw('[')] + qs, mode, slash, [']'] + rest) == ['['] + EmitPieces(qs, mode, false, [']'] + rest)
  {
    var ps := [Raw('[')] + qs;
    assert ps[0] == Raw('[') && ps[1..] == qs;
  }

  // ----- What such a class can never match -----

  predicate EndsInBracket(w: Word) { w != [] && w[|w| - 1] == ']' as int }

  lemma {:induction false} WildcardWordsEndInBracket(ms: seq<ClassPiece>, ws: seq<ClassPiece>, mode: Mode, w: Word)
    requires ws != [] && w in WildcardLang(ms, ws, mode)
    ensures EndsInBracket(w)
  {
    var a := Concat(ShutLang(ms, ws, mode), GlobLang(Outside(Left(ms, ws)), mode, Other, false));
    var k :| CutAt(a, Lang(Chr(']' as int)), w, k);
    assert w[k..] == [']' as int] && w[|w| - 1] == w[k..][0];
  }
}
