/**
 The regex grammar reads the text of every item, glob and branch, in any context.
 */
module GlobParse {
  import opened Strings
  import opened Regex
  import opened GlobScanner
  import opened GlobGrammar
  import opened GlobMeaning
  import opened GlobCompile
  import opened GlobReadBack

  // ----- Character classes -----

  /** How the regex reader sees a member of a class. */
  function MemberToken(p: ClassPiece): Token
  {
    if p.c == '^' || IsDash(p) || p == Raw('[') then Op(p.c) else Char(MemberValue(p))
  }

  function EmitPiece(p: ClassPiece, rest: string): string
  {
    if IsClassEscaped(p) then ['\\'] + ([p.c] + rest) else [p.c] + rest
  }

  lemma EscapedPiece(p: ClassPiece)
    requires Copied(p) && p != Quoted(',') && IsClassEscaped(p)
    ensures Escapes(p.c) && MemberToken(p) == Char(LiteralValue(p.c, true))
  {
  }

  lemma BarePiece(p: ClassPiece)
    requires Copied(p) && !IsClassEscaped(p)
    ensures p.c != '\\' && MemberToken(p) == Plainly(p.c)
  {
  }

  lemma LexClassChar(p: ClassPiece, rest: string)
    requires Copied(p) && p != Quoted(',')
    ensures Lex(EmitPiece(p, rest)) == Tok(MemberToken(p), Lex(rest))
  {
    if IsClassEscaped(p) {
      EscapedPiece(p);
      LexQuoted(p.c, rest);
    } else {
      BarePiece(p);
      LexPlain(p.c, rest);
    }
  }

  lemma MemberNamed(p: ClassPiece)
    requires Ordinary(p)
    ensures ClassMember(MemberToken(p)) == MemberValue(p) >= 0 && MemberToken(p) != Op(']') && MemberToken(p) != Op('-')
  {
    assert "[*+.|()^"[0] == '[' && "[*+.|()^"[7] == '^';
  }

  lemma ReadMember(t: Token, ts: Tokens, acc: set<int>)
    requires ClassMember(t) >= 0 && t != Op(']') && !Starts(ts, '-')
    ensures ParseClass(Tok(t, ts), acc) == ParseClass(ts, acc + {ClassMember(t)})
  {
  }

  lemma ReadRange(t: Token, u: Token, ts: Tokens, acc: set<int>)
    requires ClassMember(t) >= 0 && t != Op(']') && ClassMember(u) >= 0
    ensures ParseClass(Tok(t, Tok(Op('-'), Tok(u, ts))), acc)
          == ParseClass(ts, acc + Range(ClassMember(t), ClassMember(u)))
  {
  }

  /** The text of a list of pieces, in front of the bracket that closes the class. */
  function ClosedClass(ms: seq<ClassPiece>, rest: string): string { EmitClass(ms, [']'] + rest) }

  lemma {:induction false} ParseMembers(ms: seq<ClassPiece>, rest: string, acc: set<int>)
    requires OrdinaryMembers(ms)
    ensures ParseClass(Lex(ClosedClass(ms, rest)), acc) == Ok(acc + MemberSet(ms), Lex(rest))
    decreases |ms|
  {
    if ms == [] {
      LexPlain(']', rest);
      assert acc + {} == acc;
    } else {
      var c := MemberValue(ms[0]);
      MemberNamed(ms[0]);
      LexClassChar(ms[0], ClosedClass(ms[1..], rest));
      if |ms| >= 3 && ms[1] == Raw('-') {
        ParseRange(ms, rest, acc);
        ParseMembers(ms[3..], rest, acc + Range(c, MemberValue(ms[2])));
        assert acc + Range(c, MemberValue(ms[2])) + MemberSet(ms[3..]) == acc + MemberSet(ms);
      } else {
        NoDashAhead(ms[1..], rest);
        ReadMember(MemberToken(ms[0]), Lex(ClosedClass(ms[1..], rest)), acc);
        ParseMembers(ms[1..], rest, acc + {c});
        assert acc + {c} + MemberSet(ms[1..]) == acc + MemberSet(ms);
      }
    }
  }

  lemma ParseRange(ms: seq<ClassPiece>, rest: string, acc: set<int>)
    requires |ms| >= 3 && Ordinary(ms[0]) && ms[1] == Raw('-') && Ordinary(ms[2])
    ensures ParseClass(Lex(ClosedClass(ms, rest)), acc)
         == ParseClass(Lex(ClosedClass(ms[3..], rest)), acc + Range(MemberValue(ms[0]), MemberValue(ms[2])))
  {
    var tail := ClosedClass(ms[3..], rest);
    assert ms[1..][0] == ms[1] && ms[1..][1..] == ms[2..] && ms[2..][0] == ms[2] && ms[2..][1..] == ms[3..];
    LexClassChar(ms[0], ClosedClass(ms[1..], rest));
    LexClassChar(ms[1], ClosedClass(ms[2..], rest));
    LexClassChar(ms[2], tail);
    MemberNamed(ms[0]);
    MemberNamed(ms[2]);
    ReadRange(MemberToken(ms[0]), MemberToken(ms[2]), Lex(tail), acc);
  }

  lemma NoDashAhead(ms: seq<ClassPiece>, rest: string)
    requires OrdinaryMembers(ms)
    ensures !Starts(Lex(ClosedClass(ms, rest)), '-')
  {
    if ms == [] {
      LexPlain(']', rest);
    } else {
      LexClassChar(ms[0], ClosedClass(ms[1..], rest));
    }
  }

  /** A charset that begins with a dash or with an ordinary member other than `^`. */
  lemma CharsetOfMembers(ms: seq<ClassPiece>, rest: string)
    requires ms != [] && ms[0].c != '^' && MembersAfterDash(ms)
    ensures ParseCharset(Lex(ClosedClass(ms, rest))) == Ok(MemberSet(ms), Lex(rest))
    ensures !Starts(Lex(ClosedClass(ms, rest)), '^')
  {
    LexClassChar(ms[0], ClosedClass(ms[1..], rest));
    assert {} + MemberSet(ms) == MemberSet(ms);
    if !IsDash(ms[0]) {
      MemberNamed(ms[0]);
      ParseMembers(ms, rest, {});
    } else if |ms| >= 3 && ms[1] == Raw('-') {
      RangeFromDash(ms, rest);
      var cs := Range(MemberValue(ms[0]), MemberValue(ms[2]));
      ParseMembers(ms[3..], rest, {} + cs);
      assert {} + cs + MemberSet(ms[3..]) == MemberSet(ms);
    } else {
      NoDashAhead(ms[1..], rest);
      ParseMembers(ms[1..], rest, {} + {MemberValue(ms[0])});
      NoRange(ms);
    }
  }

  lemma RangeFromDash(ms: seq<ClassPiece>, rest: string)
    requires |ms| >= 3 && IsDash(ms[0]) && ms[1] == Raw('-') && Ordinary(ms[2])
    ensures ParseCharset(Lex(ClosedClass(ms, rest)))
         == ParseClass(Lex(ClosedClass(ms[3..], rest)), {} + Range(MemberValue(ms[0]), MemberValue(ms[2])))
  {
    assert ms[1..][0] == ms[1] && ms[1..][1..] == ms[2..] && ms[2..][0] == ms[2] && ms[2..][1..] == ms[3..];
    LexClassChar(ms[0], ClosedClass(ms[1..], rest));
    LexClassChar(ms[1], ClosedClass(ms[2..], rest));
    LexClassChar(ms[2], ClosedClass(ms[3..], rest));
    MemberNamed(ms[2]);
  }

  /** A leading dash that no other one follows starts no range. */
  lemma NoRange(ms: seq<ClassPiece>)
    requires ms != [] && OrdinaryMembers(ms[1..])
    ensures {} + {MemberValue(ms[0])} + MemberSet(ms[1..]) == MemberSet(ms)
  {
    if |ms| >= 3 { assert ms[1..][0] == ms[1]; }
  }

  /** A second `^` behind that of a negated class is a member. */
  lemma CaretFirst(ms: seq<ClassPiece>, rest: string)
    requires ms != [] && ms[0].c == '^' && OrdinaryMembers(ms[1..])
    ensures Starts(Lex(ClosedClass(ms, rest)), '^')
    ensures ParseClass(Lex(ClosedClass(ms, rest)).tail, {'^' as int}) == Ok(MemberSet(ms), Lex(rest))
  {
    LexClassChar(ms[0], ClosedClass(ms[1..], rest));
    ParseMembers(ms[1..], rest, {'^' as int});
    NoRange(ms);
  }

  function ClassRe(body: seq<ClassPiece>): Re
  {
    if Negated(body) then NotCharSet(MemberSet(Members(body))) else CharSet(MemberSet(Members(body)))
  }

  lemma ParseClassItem(body: seq<ClassPiece>, rest: string)
    requires PlainClass(body)
    ensures Lex(['['] + ClosedClass(body, rest)).Tok?
    ensures ParseTerm(Lex(['['] + ClosedClass(body, rest))) == Ok(ClassRe(body), Lex(rest))
  {
    var ms := Members(body);
    PlainIsCopied(body);
    LexPlain('[', ClosedClass(body, rest));
    if Negated(body) { LexPlain('^', ClosedClass(ms, rest)); }
    if ms[0].c == '^' { CaretFirst(ms, rest); } else { CharsetOfMembers(ms, rest); }
  }

  lemma {:induction false} MembersAreBytes(ms: seq<ClassPiece>, x: int)
    requires x in MemberSet(ms)
    ensures 0 <= x
    decreases |ms|
  {
    if ms != [] {
      if |ms| >= 3 && ms[1] == Raw('-') {
        if x in MemberSet(ms[3..]) { MembersAreBytes(ms[3..], x); }
      } else {
        if x in MemberSet(ms[1..]) { MembersAreBytes(ms[1..], x); }
      }
    }
  }

  lemma ClassLang(body: seq<ClassPiece>, mode: Mode)
    ensures Lang(ClassRe(body)) == ItemLang(Class(body), mode)
  {
    forall x | x in MemberSet(Members(body)) ensures 0 <= x { MembersAreBytes(Members(body), x); }
  }

  // ----- Items, globs and branches -----

  /** No number that `rest` follows would run on. */
  predicate NoDigit(rest: string) { !DigitAhead(rest, Hex) }

  lemma NoDigitAlone(r: Radix, digits: string, rest: string)
    requires NoDigit(rest)
    ensures ReadAlone(Num(r, digits), rest)
  {
    if rest != "" && Extends(r, digits, rest[0]) { ExtendedByDigit(r, digits, rest[0]); }
  }

  /** A number in front of emitted text runs on only into a literal that is emitted bare. */
  lemma {:induction false} EmittedAlone(r: Radix, digits: string, g: Glob, mode: Mode, slash: bool, top: bool,
                                        rest: string)
    requires !RunsOn(r, digits, g) && NoDigit(rest)
    ensures ReadAlone(Num(r, digits), EmitGlob(g, mode, slash, top, rest))
  {
    var text := EmitGlob(g, mode, slash, top, rest);
    if g.Empty? {
      NoDigitAlone(r, digits, rest);
    } else if g.head.Wild? {
      StarsHead(slash, mode, text, g, top, rest);
      NoDigitAlone(r, digits, text);
    } else {
      var more := EmitGlob(g.tail, mode, After(g.head) == Slash, top, rest);
      ItemHead(g.head, mode, more);
      if !(g.head.Lit? && !IsEscaped(g.head.c, g.head.quoted)) { NoDigitAlone(r, digits, text); }
    }
  }

  lemma ItemHead(i: Item, mode: Mode, rest: string)
    requires !i.Wild?
    ensures var text := EmitItem(i, mode, rest);
            && text != ""
            && if i.Lit? && !IsEscaped(i.c, i.quoted) then text[0] == i.c else NoDigit(text)
  {
  }

  lemma StarsHead(slash: bool, mode: Mode, text: string, g: Glob, top: bool, rest: string)
    requires g.Cons? && g.head.Wild? && text == EmitGlob(g, mode, slash, top, rest)
    ensures NoDigit(text)
  {
    var several := g.tail.Cons? && g.tail.head.Wild?;
    var tail := if several then g.tail.tail else g.tail;
    assert text == EmitStars(slash && ComponentEnds(tail, top), several, mode, EmitGlob(tail, mode, false, top, rest));
  }

  lemma {:induction false} SettledAhead(g: Glob, mode: Mode, slash: bool, top: bool, rest: string, depth: nat)
    requires WellFormed(g, depth) && Settled(Lex(rest))
    ensures Settled(Lex(EmitGlob(g, mode, slash, top, rest)))
  {
    if g.Cons? {
      if g.head.Wild? {
        var tail := if g.tail.Cons? && g.tail.head.Wild? then g.tail.tail else g.tail;
        var several := g.tail.Cons? && g.tail.head.Wild?;
        var r := EmitGlob(tail, mode, false, top, rest);
        LexAny(mode, r);
        LexSegment(mode, ['*'] + r);
        LexSegment(mode, if several then EmitAny(mode, r) else EmitSeg(mode, ['*'] + r));
      } else {
        SettledItem(g.head, mode, EmitGlob(g.tail, mode, After(g.head) == Slash, top, rest), depth);
      }
    }
  }

  lemma {:induction false} SettledItem(i: Item, mode: Mode, r: string, depth: nat)
    requires WellFormedItem(i, depth) && !i.Wild?
    ensures Settled(Lex(EmitItem(i, mode, r)))
  {
    match i
    case Lit(c, quoted) => LexLiteral(i, r);
    case Num(radix, digits) => assert (NumberText(radix, digits) + r)[0] == '\\';
    case Quest => LexSegment(mode, r);
    case Class(body) => LexPlain('[', EmitClass(body, [']'] + r));
    case Group(first, more) =>
      LexPlain('(', EmitGlob(first, mode, false, false, ['|'] + EmitBranches(more, mode, [')'] + r)));
  }

  /** The language of the emitted text: every star or pair of stars adds its own loop. */
  ghost function EmittedLang(g: Glob, mode: Mode, slash: bool, top: bool): Language
  {
    match g
    case Empty => Unit()
    case Cons(Wild, Cons(Wild, tail)) =>
      Concat(StarLang(mode, true, slash && ComponentEnds(tail, top)), EmittedLang(tail, mode, false, top))
    case Cons(Wild, tail) =>
      Concat(StarLang(mode, false, slash && ComponentEnds(tail, top)), EmittedLang(tail, mode, false, top))
    case Cons(i, tail) => Concat(ItemLang(i, mode), EmittedLang(tail, mode, After(i) == Slash, top))
  }

  /** What is left behind a star or a pair of stars. */
  function PastPair(g: Glob): Glob
    requires g.Cons? && g.head.Wild?
  {
    if g.tail.Cons? && g.tail.head.Wild? then g.tail.tail else g.tail
  }

  lemma {:induction false} ParseGlob(g: Glob, mode: Mode, slash: bool, top: bool, rest: string, acc: Re, depth: nat)
    returns (acc': Re)
    requires WellFormed(g, depth) && IsFused(g) && Plain(g) && Settled(Lex(rest)) && NoDigit(rest)
    ensures ParseTerms(acc, Lex(EmitGlob(g, mode, slash, top, rest))) == ParseTerms(acc', Lex(rest))
    ensures Lang(acc') == Concat(Lang(acc), EmittedLang(g, mode, slash, top))
    decreases g, 1
  {
    if g.Empty? {
      acc' := acc;
      ConcatUnitRight(Lang(acc));
    } else if g.head.Wild? {
      acc' := ParseRun(g, mode, slash, top, rest, acc, depth);
    } else {
      acc' := ParseCons(g, mode, slash, top, rest, acc, depth);
    }
  }

  lemma {:induction false} ParseCons(g: Glob, mode: Mode, slash: bool, top: bool, rest: string, acc: Re, depth: nat)
    returns (acc': Re)
    requires WellFormed(g, depth) && IsFused(g) && Plain(g) && Settled(Lex(rest)) && NoDigit(rest)
    requires g.Cons? && !g.head.Wild?
    ensures ParseTerms(acc, Lex(EmitGlob(g, mode, slash, top, rest))) == ParseTerms(acc', Lex(rest))
    ensures Lang(acc') == Concat(Lang(acc), EmittedLang(g, mode, slash, top))
    decreases g, 0
  {
    var slash' := After(g.head) == Slash;
    if g.head.Num? { EmittedAlone(g.head.radix, g.head.digits, g.tail, mode, slash', top, rest); }
    SettledAhead(g.tail, mode, slash', top, rest, depth);
    var acc1 := ParseItem(g.head, mode, EmitGlob(g.tail, mode, slash', top, rest), acc, depth);
    acc' := ParseGlob(g.tail, mode, slash', top, rest, acc1, depth);
    ConcatAssoc(Lang(acc), ItemLang(g.head, mode), EmittedLang(g.tail, mode, slash', top));
  }

  lemma {:induction false} ParseRun(g: Glob, mode: Mode, slash: bool, top: bool, rest: string, acc: Re, depth: nat)
    returns (acc': Re)
    requires WellFormed(g, depth) && IsFused(g) && Plain(g) && Settled(Lex(rest)) && NoDigit(rest)
    requires g.Cons? && g.head.Wild?
    ensures ParseTerms(acc, Lex(EmitGlob(g, mode, slash, top, rest))) == ParseTerms(acc', Lex(rest))
    ensures Lang(acc') == Concat(Lang(acc), EmittedLang(g, mode, slash, top))
    decreases g, 0
  {
    var several, tail := g.tail.Cons? && g.tail.head.Wild?, PastPair(g);
    var fills := slash && ComponentEnds(tail, top);
    var acc1 := ParseStars(fills, several, mode, EmitGlob(tail, mode, false, top, rest), acc);
    acc' := ParseGlob(tail, mode, false, top, rest, acc1, depth);
    ConcatAssoc(Lang(acc), StarLang(mode, several, fills), EmittedLang(tail, mode, false, top));
  }

  lemma {:induction false} ParseItem(i: Item, mode: Mode, r: string, acc: Re, depth: nat) returns (acc': Re)
    requires WellFormedItem(i, depth) && IsFusedItem(i) && PlainItem(i) && !i.Wild? && Settled(Lex(r))
    requires i.Num? ==> ReadAlone(i, r)
    ensures ParseTerms(acc, Lex(EmitItem(i, mode, r))) == ParseTerms(acc', Lex(r))
    ensures Lang(acc') == Concat(Lang(acc), ItemLang(i, mode))
    decreases i, 2
  {
    var e: Re;
    match i {
      case Lit(c, quoted) =>
        LexLiteral(i, r);
        e := Chr(LiteralValue(c, quoted));
        assert Lang(e) == ItemLang(i, mode);
      case Num(radix, digits) =>
        LexNumber(radix, digits, r);
        e := Chr(NumberValue(radix, digits));
        assert Lang(e) == ItemLang(i, mode);
      case Quest =>
        LexSegment(mode, r);
        ParseSegment(mode, Lex(r));
        SegmentLang(mode);
        e := SegRe(mode);
      case Class(body) =>
        ParseClassItem(body, r);
        ClassLang(body, mode);
        e := ClassRe(body);
      case Group(first, more) =>
        e := ParseGroup(i, mode, r, depth);
    }
    TermStep(acc, Lex(EmitItem(i, mode, r)), e, Lex(r));
    CatAllLang(acc, e);
    acc' := CatAll(acc, e);
  }

  lemma {:induction false} ParseGroup(i: Item, mode: Mode, r: string, depth: nat) returns (e: Re)
    requires i.Group? && WellFormedItem(i, depth) && IsFusedItem(i) && PlainItem(i)
    ensures Lex(EmitItem(i, mode, r)).Tok? && ParseTerm(Lex(EmitItem(i, mode, r))) == Ok(e, Lex(r))
    ensures Lang(e) == ItemLang(i, mode)
    decreases i, 1
  {
    var bars := ['|'] + EmitBranches(i.more, mode, [')'] + r);
    var acc;
    acc, e := ParseInner(i.first, i.more, mode, r, depth);
    ReadParen(EmitGlob(i.first, mode, false, false, bars), bars, acc, e, r);
    GroupLang(i, mode);
  }

  /** Inside the parentheses: the first branch, then the others. */
  lemma {:induction false} ParseInner(first: Glob, more: Branches, mode: Mode, r: string, depth: nat)
    returns (acc: Re, e: Re)
    requires WellFormed(first, depth + 1) && WellFormedBranches(more, depth + 1)
    requires IsFused(first) && Plain(first) && AreFused(more) && PlainBranches(more)
    ensures
      var bars := ['|'] + EmitBranches(more, mode, [')'] + r);
      && ParseTerms(Eps, Lex(EmitGlob(first, mode, false, false, bars))) == ParseTerms(acc, Lex(bars))
      && Starts(Lex(bars), '|') && ParseAlternatives(acc, Lex(bars)) == Ok(e, Tok(Op(')'), Lex(r)))
    ensures Lang(e) == GlobLang(first, mode, Other, false) + BranchLang(more, mode)
    decreases Group(first, more), 0
  {
    var bars := ['|'] + EmitBranches(more, mode, [')'] + r);
    LexPlain('|', EmitBranches(more, mode, [')'] + r));
    acc := ParseGlob(first, mode, false, false, bars, Eps, depth + 1);
    EmptyStart(acc, first, mode);
    e := ParseBranches(more, mode, r, acc, depth + 1);
  }

  lemma ReadParen(inner: string, bars: string, acc: Re, e: Re, r: string)
    requires ParseTerms(Eps, Lex(inner)) == ParseTerms(acc, Lex(bars))
    requires Starts(Lex(bars), '|') || Starts(Lex(bars), ')')
    requires ParseAlternatives(acc, Lex(bars)) == Ok(e, Tok(Op(')'), Lex(r)))
    ensures Lex(['('] + inner).Tok? && ParseTerm(Lex(['('] + inner)) == Ok(e, Lex(r))
  {
    LexPlain('(', inner);
    ParenStep(Lex(inner), Lex(bars), acc, e, Lex(r));
  }

  lemma {:induction false} GroupLang(i: Item, mode: Mode)
    requires i.Group?
    ensures ItemLang(i, mode) == GlobLang(i.first, mode, Other, false) + BranchLang(i.more, mode)
  {
  }

  /** A parenthesised list of alternatives is one term. */
  lemma ParenStep(ts: Tokens, bars: Tokens, acc: Re, e: Re, rest: Tokens)
    requires ParseTerms(Eps, ts) == ParseTerms(acc, bars) && (Starts(bars, '|') || Starts(bars, ')'))
    requires ParseAlternatives(acc, bars) == Ok(e, Tok(Op(')'), rest))
    ensures ParseTerm(Tok(Op('('), ts)) == Ok(e, rest)
  {
    assert ParseTerms(acc, bars) == Ok(acc, bars);
    assert ParseRegex(ts) == Ok(e, Tok(Op(')'), rest));
  }

  /** What a branch read on its own denotes. */
  lemma {:induction false} EmptyStart(acc: Re, g: Glob, mode: Mode)
    requires Lang(acc) == Concat(Lang(Eps), EmittedLang(g, mode, false, false))
    ensures Lang(acc) == GlobLang(g, mode, Other, false)
  {
    FromEmpty(EmittedLang(g, mode, false, false));
    EmittedIsMeant(g, mode, false, false);
  }

  /** One alternative after a bar. */
  lemma BarStep(acc: Re, ts: Tokens, acc1: Re, rest: Tokens)
    requires ParseTerms(Eps, ts) == ParseTerms(acc1, rest) && (Starts(rest, '|') || Starts(rest, ')'))
    ensures ParseAlternatives(acc, Tok(Op('|'), ts)) == ParseAlternatives(Alt(acc, acc1), rest)
  {
    assert ParseTerms(acc1, rest) == Ok(acc1, rest);
  }

  lemma {:induction false} ParseBranch(b: Glob, mode: Mode, rest: string, acc: Re, depth: nat) returns (e: Re)
    requires WellFormed(b, depth) && IsFused(b) && Plain(b) && NoDigit(rest)
    requires Starts(Lex(rest), '|') || Starts(Lex(rest), ')')
    ensures ParseAlternatives(acc, Lex(['|'] + EmitGlob(b, mode, false, false, rest)))
          == ParseAlternatives(e, Lex(rest))
    ensures Lang(e) == Lang(acc) + GlobLang(b, mode, Other, false)
    decreases b, 2
  {
    var text := EmitGlob(b, mode, false, false, rest);
    LexPlain('|', text);
    var acc1 := ParseGlob(b, mode, false, false, rest, Eps, depth);
    EmptyStart(acc1, b, mode);
    LangAlt(acc, acc1);
    BarStep(acc, Lex(text), acc1, Lex(rest));
    e := Alt(acc, acc1);
  }

  lemma {:induction false} ParseBranches(bs: Branches, mode: Mode, r: string, acc: Re, depth: nat) returns (e: Re)
    requires WellFormedBranches(bs, depth) && AreFused(bs) && PlainBranches(bs)
    ensures ParseAlternatives(acc, Lex(['|'] + EmitBranches(bs, mode, [')'] + r))) == Ok(e, Tok(Op(')'), Lex(r)))
    ensures Lang(e) == Lang(acc) + BranchLang(bs, mode)
    decreases bs
  {
    match bs
    case Last(b) =>
      LexPlain(')', r);
      e := ParseBranch(b, mode, [')'] + r, acc, depth);
    case Next(b, more) =>
      var bars := EmitBranches(more, mode, [')'] + r);
      LexPlain('|', bars);
      var acc1 := ParseBranch(b, mode, ['|'] + bars, acc, depth);
      e := ParseBranches(more, mode, r, acc1, depth);
      assert Lang(e) == Lang(acc) + GlobLang(b, mode, Other, false) + BranchLang(more, mode);
  }

  // ----- Runs of stars collapse -----

  lemma Absorbed(any: Language, star: Language, emitted: Language, meant: Language)
    requires Concat(any, star) == any && Concat(any, emitted) == Concat(any, meant)
    ensures Concat(any, Concat(star, emitted)) == Concat(any, meant)
  {
    ConcatAssoc(any, star, emitted);
  }

  /** Inside a run of stars a further star has no meaning of its own. */
  lemma {:induction false} StarInRun(tail: Glob, mode: Mode, top: bool)
    ensures GlobLang(Cons(Wild, tail), mode, Stars, top) == GlobLang(tail, mode, Stars, top)
  {
    ConcatUnit(GlobLang(tail, mode, Stars, top));
  }

  /** The first star of a run, when one or more follow it. */
  lemma {:induction false} FirstStar(g: Glob, mode: Mode, before: Before, top: bool)
    requires g.Cons? && g.head.Wild? && before != Stars
    ensures GlobLang(Cons(Wild, g), mode, before, top)
         == Concat(StarLang(mode, true, before == Slash && ComponentEnds(g, top)), GlobLang(g, mode, Stars, top))
  {
  }

  lemma EndsAfterStars(tail: Glob, top: bool)
    ensures ComponentEnds(Cons(Wild, tail), top) == ComponentEnds(tail, top)
  {
  }

  lemma {:induction false} PairOfStars(tail: Glob, mode: Mode, slash: bool, top: bool)
    ensures GlobLang(Cons(Wild, Cons(Wild, tail)), mode, if slash then Slash else Other, top)
         == Concat(StarLang(mode, true, slash && ComponentEnds(tail, top)), GlobLang(tail, mode, Stars, top))
  {
    FirstStar(Cons(Wild, tail), mode, if slash then Slash else Other, top);
    StarInRun(tail, mode, top);
    EndsAfterStars(tail, top);
  }

  /** The language of a glob that begins with no star. */
  lemma {:induction false} FirstItem(g: Glob, mode: Mode, slash: bool, before: Before, top: bool)
    requires g.Cons? && !g.head.Wild?
    ensures EmittedLang(g, mode, slash, top)
         == Concat(ItemLang(g.head, mode), EmittedLang(g.tail, mode, After(g.head) == Slash, top))
    ensures GlobLang(g, mode, before, top) == Concat(ItemLang(g.head, mode), GlobLang(g.tail, mode, After(g.head), top))
  {
  }

  lemma {:induction false} FirstRun(g: Glob, mode: Mode, top: bool)
    requires g.Cons? && g.head.Wild?
    ensures EmittedLang(g, mode, false, top)
         == Concat(StarLang(mode, g.tail.Cons? && g.tail.head.Wild?, false), EmittedLang(PastPair(g), mode, false, top))
    ensures GlobLang(g, mode, Stars, top) == GlobLang(PastPair(g), mode, Stars, top)
  {
    StarInRun(g.tail, mode, top);
    if g.tail.Cons? && g.tail.head.Wild? { StarInRun(g.tail.tail, mode, top); }
  }

  lemma {:induction false} EmittedIsMeant(g: Glob, mode: Mode, slash: bool, top: bool)
    ensures EmittedLang(g, mode, slash, top) == GlobLang(g, mode, if slash then Slash else Other, top)
    decreases g, 1
  {
    if g.Cons? {
      if !g.head.Wild? {
        FirstItem(g, mode, slash, if slash then Slash else Other, top);
        EmittedIsMeant(g.tail, mode, After(g.head) == Slash, top);
      } else if g.tail.Cons? && g.tail.head.Wild? {
        PairOfStars(g.tail.tail, mode, slash, top);
        StarsSwallow(g.tail.tail, mode, slash && ComponentEnds(g.tail.tail, top), top);
      } else {
        EmittedIsMeant(g.tail, mode, false, top);
        SameWithoutStars(g.tail, mode, top);
      }
    }
  }

  lemma {:induction false} SameWithoutStars(g: Glob, mode: Mode, top: bool)
    requires !(g.Cons? && g.head.Wild?)
    ensures GlobLang(g, mode, Stars, top) == GlobLang(g, mode, Other, top)
  {
  }

  /** After a run that matches anything, further stars add nothing. */
  lemma {:induction false} StarsSwallow(g: Glob, mode: Mode, fills: bool, top: bool)
    ensures Concat(StarLang(mode, true, fills), EmittedLang(g, mode, false, top))
         == Concat(StarLang(mode, true, fills), GlobLang(g, mode, Stars, top))
    decreases g, 0
  {
    if g.Cons? && g.head.Wild? {
      var several := g.tail.Cons? && g.tail.head.Wild?;
      var tail := PastPair(g);
      StarsAbsorb(mode, several, fills);
      StarsSwallow(tail, mode, fills, top);
      FirstRun(g, mode, top);
      Absorbed(StarLang(mode, true, fills), StarLang(mode, several, false),
               EmittedLang(tail, mode, false, top), GlobLang(tail, mode, Stars, top));
    } else if g.Cons? {
      FirstItem(g, mode, false, Stars, top);
      EmittedIsMeant(g.tail, mode, After(g.head) == Slash, top);
    }
  }
}
