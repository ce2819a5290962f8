/**
 Which compiled patterns the regex reader accepts: exactly those whose classes, without the quotes they lose, are
 in its own grammar of character sets.
 */
module GlobReadable {
  import opened Strings
  import opened Regex
  import opened GlobScanner
  import opened GlobGrammar
  import opened GlobMeaning
  import opened GlobCompile
  import opened GlobReadBack
  import opened GlobParse
  import opened GlobTheorem

  // ----- Classes outside the grammar -----

  /** Dashes and carets are bare. */
  predicate Bare(ms: seq<ClassPiece>)
  {
    forall i :: 0 <= i < |ms| && (ms[i].c == '^' || IsDash(ms[i])) ==> ms[i].Raw?
  }

  lemma {:induction false} UnquotedIsBare(body: seq<ClassPiece>)
    ensures Bare(Unquoted(body))
    decreases |body|
  {
    if body != [] {
      UnquotedIsBare(body[1..]);
      assert Unquoted(body) == [Unquoted(body)[0]] + Unquoted(body[1..]);
    }
  }

  lemma LexComma(rest: string)
    ensures Lex(['\\'] + ([','] + rest)) == Tok(Bad, End)
  {
    var s := ['\\'] + ([','] + rest);
    assert s[1..] == [','] + rest;
  }

  /** A piece that is no member where one has to stand. */
  lemma NotAMember(ms: seq<ClassPiece>, rest: string)
    requires ms != [] && Copied(ms[0]) && !Ordinary(ms[0])
    ensures var ts := Lex(ClosedClass(ms, rest)); ts.Tok? && ClassMember(ts.head) < 0 && ts.head != Op(']')
    ensures ms[0] == Quoted(',') ==> Lex(ClosedClass(ms, rest)) == Tok(Bad, End)
  {
    if ms[0] == Quoted(',') {
      LexComma(ClosedClass(ms[1..], rest));
    } else {
      LexClassChar(ms[0], ClosedClass(ms[1..], rest));
    }
  }

  lemma ClassEnds(rest: string)
    ensures Lex(ClosedClass([], rest)) == Tok(Op(']'), Lex(rest)) && ClassMember(Op(']')) < 0
  {
    LexPlain(']', rest);
  }

  /** A dash with no end behind it for the range it starts. */
  lemma {:induction false} OpenRange(ms: seq<ClassPiece>, rest: string, c: int, acc: set<int>)
    requires AllCopied(ms) && ms != [] && IsDash(ms[0]) && c >= 0
    requires |ms| == 1 || !Ordinary(ms[1])
    ensures ParseMember(c, Lex(ClosedClass(ms, rest)), acc) == Fail
  {
    LexClassChar(ms[0], ClosedClass(ms[1..], rest));
    if |ms| == 1 {
      ClassEnds(rest);
    } else {
      NotAMember(ms[1..], rest);
    }
  }

  lemma {:induction false} BadMembers(ms: seq<ClassPiece>, rest: string, acc: set<int>)
    requires AllCopied(ms) && Bare(ms) && !OrdinaryMembers(ms)
    ensures ParseClass(Lex(ClosedClass(ms, rest)), acc) == Fail
    decreases |ms|
  {
    if !Ordinary(ms[0]) {
      NotAMember(ms, rest);
    } else {
      MemberNamed(ms[0]);
      LexClassChar(ms[0], ClosedClass(ms[1..], rest));
      BadRest(ms, rest, MemberValue(ms[0]), acc);
    }
  }

  /** What follows a member, or a dash that stands for itself. */
  lemma {:induction false} BadRest(ms: seq<ClassPiece>, rest: string, c: int, acc: set<int>)
    requires AllCopied(ms) && Bare(ms) && ms != [] && c >= 0
    requires if |ms| >= 3 && ms[1] == Raw('-') then !Ordinary(ms[2]) || !OrdinaryMembers(ms[3..])
             else !OrdinaryMembers(ms[1..])
    ensures ParseMember(c, Lex(ClosedClass(ms[1..], rest)), acc) == Fail
    decreases |ms|, 0
  {
    var tail := ms[1..];
    assert AllCopied(tail) && Bare(tail);
    if tail != [] && IsDash(tail[0]) {
      if |ms| == 2 || !Ordinary(ms[2]) {
        OpenRange(tail, rest, c, acc);
      } else {
        BadAfterRange(ms, rest, c, acc);
      }
    } else {
      BadMembers(tail, rest, acc + {c});
      if tail == [] { ClassEnds(rest); } else { NoDash(tail, rest); }
    }
  }

  lemma NoDash(ms: seq<ClassPiece>, rest: string)
    requires ms != [] && Copied(ms[0]) && !IsDash(ms[0])
    ensures !Starts(Lex(ClosedClass(ms, rest)), '-')
  {
    if ms[0] == Quoted(',') {
      LexComma(ClosedClass(ms[1..], rest));
    } else {
      LexClassChar(ms[0], ClosedClass(ms[1..], rest));
    }
  }

  lemma {:induction false} BadAfterRange(ms: seq<ClassPiece>, rest: string, c: int, acc: set<int>)
    requires AllCopied(ms) && Bare(ms) && |ms| >= 3 && c >= 0
    requires IsDash(ms[1]) && Ordinary(ms[2]) && !OrdinaryMembers(ms[3..])
    ensures ParseMember(c, Lex(ClosedClass(ms[1..], rest)), acc) == Fail
    decreases |ms| - 1, 1
  {
    assert ms[1..][0] == ms[1] && ms[1..][1..] == ms[2..] && ms[2..][0] == ms[2] && ms[2..][1..] == ms[3..];
    LexClassChar(ms[1], ClosedClass(ms[2..], rest));
    LexClassChar(ms[2], ClosedClass(ms[3..], rest));
    MemberNamed(ms[2]);
    BadMembers(ms[3..], rest, acc + Range(c, MemberValue(ms[2])));
  }

  lemma {:induction false} BadCharset(ms: seq<ClassPiece>, rest: string)
    requires AllCopied(ms) && Bare(ms) && ms != [] && ms[0].c != '^' && !MembersAfterDash(ms)
    ensures ParseCharset(Lex(ClosedClass(ms, rest))) == Fail
    ensures !Starts(Lex(ClosedClass(ms, rest)), '^')
  {
    if IsDash(ms[0]) {
      LexClassChar(ms[0], ClosedClass(ms[1..], rest));
      BadRest(ms, rest, '-' as int, {});
    } else if !Ordinary(ms[0]) {
      NotAMember(ms, rest);
    } else {
      LexClassChar(ms[0], ClosedClass(ms[1..], rest));
      MemberNamed(ms[0]);
      BadRest(ms, rest, MemberValue(ms[0]), {});
    }
  }

  /** A class with members outside the grammar stops the regex reader, whatever follows. */
  lemma {:induction false} BadClass(body: seq<ClassPiece>, rest: string)
    requires AllCopied(body) && Bare(body) && Members(body) != [] && !PlainClass(body)
    ensures Lex(['['] + ClosedClass(body, rest)).Tok?
    ensures ParseTerm(Lex(['['] + ClosedClass(body, rest))) == Fail
  {
    var ms := Members(body);
    assert AllCopied(ms) && Bare(ms);
    LexPlain('[', ClosedClass(body, rest));
    if Negated(body) { LexPlain('^', ClosedClass(ms, rest)); }
    if ms[0].c != '^' {
      BadCharset(ms, rest);
    } else {
      LexClassChar(ms[0], ClosedClass(ms[1..], rest));
      BadMembers(ms[1..], rest, {'^' as int});
    }
  }

  // ----- Trees with such a class -----

  lemma {:induction false} BadGlob(g: Glob, mode: Mode, slash: bool, top: bool, rest: string, acc: Re, depth: nat)
    requires WellFormed(g, depth) && IsFused(g) && CopiedClasses(g) && HaveMembers(g) && !Plain(g)
    requires Settled(Lex(rest)) && NoDigit(rest)
    ensures ParseTerms(acc, Lex(EmitGlob(g, mode, slash, top, rest))) == Fail
    decreases g, 2
  {
    if g.head.Wild? {
      BadRun(g, mode, slash, top, rest, acc, depth);
    } else if PlainItem(g.head) {
      BadTail(g, mode, slash, top, rest, acc, depth);
    } else {
      BadItem(g.head, mode, EmitGlob(g.tail, mode, After(g.head) == Slash, top, rest), acc, depth);
    }
  }

  lemma {:induction false} BadRun(g: Glob, mode: Mode, slash: bool, top: bool, rest: string, acc: Re, depth: nat)
    requires WellFormed(g, depth) && IsFused(g) && CopiedClasses(g) && HaveMembers(g) && !Plain(g)
    requires g.head.Wild? && Settled(Lex(rest)) && NoDigit(rest)
    ensures ParseTerms(acc, Lex(EmitGlob(g, mode, slash, top, rest))) == Fail
    decreases g, 1
  {
    var several, tail := g.tail.Cons? && g.tail.head.Wild?, PastPair(g);
    var fills := slash && ComponentEnds(tail, top);
    var acc1 := ParseStars(fills, several, mode, EmitGlob(tail, mode, false, top, rest), acc);
    BadGlob(tail, mode, false, top, rest, acc1, depth);
  }

  lemma {:induction false} BadTail(g: Glob, mode: Mode, slash: bool, top: bool, rest: string, acc: Re, depth: nat)
    requires WellFormed(g, depth) && IsFused(g) && CopiedClasses(g) && HaveMembers(g) && !Plain(g)
    requires !g.head.Wild? && PlainItem(g.head) && Settled(Lex(rest)) && NoDigit(rest)
    ensures ParseTerms(acc, Lex(EmitGlob(g, mode, slash, top, rest))) == Fail
    decreases g, 1
  {
    var slash' := After(g.head) == Slash;
    if g.head.Num? { EmittedAlone(g.head.radix, g.head.digits, g.tail, mode, slash', top, rest); }
    SettledAhead(g.tail, mode, slash', top, rest, depth);
    var acc1 := ParseItem(g.head, mode, EmitGlob(g.tail, mode, slash', top, rest), acc, depth);
    BadGlob(g.tail, mode, slash', top, rest, acc1, depth);
  }

  lemma FailedTerm(acc: Re, ts: Tokens)
    requires ts.Tok? && ParseTerm(ts) == Fail && ts.head != Op('|') && ts.head != Op(')')
    ensures ParseTerms(acc, ts) == Fail
  {
  }

  lemma {:induction false} BadItem(i: Item, mode: Mode, r: string, acc: Re, depth: nat)
    requires WellFormedItem(i, depth) && IsFusedItem(i) && CopiedItem(i) && HasMembers(i) && !PlainItem(i)
    ensures ParseTerms(acc, Lex(EmitItem(i, mode, r))) == Fail
    decreases i, 1
  {
    if i.Class? {
      UnquotedIsBare(i.body);
      BadClass(i.body, r);
      LexPlain('[', ClosedClass(i.body, r));
    } else {
      BadGroup(i, mode, r, depth);
      LexPlain('(', EmitGlob(i.first, mode, false, false, ['|'] + EmitBranches(i.more, mode, [')'] + r)));
    }
    FailedTerm(acc, Lex(EmitItem(i, mode, r)));
  }

  lemma {:induction false} BadGroup(i: Item, mode: Mode, r: string, depth: nat)
    requires i.Group? && WellFormedItem(i, depth) && IsFusedItem(i) && CopiedItem(i) && HasMembers(i) && !PlainItem(i)
    ensures Lex(EmitItem(i, mode, r)).Tok? && ParseTerm(Lex(EmitItem(i, mode, r))) == Fail
    decreases i, 0, 1
  {
    BadInner(i.first, i.more, mode, r, depth);
    LexPlain('(', EmitGlob(i.first, mode, false, false, ['|'] + EmitBranches(i.more, mode, [')'] + r)));
  }

  lemma {:induction false} BadInner(first: Glob, more: Branches, mode: Mode, r: string, depth: nat)
    requires WellFormed(first, depth + 1) && IsFused(first) && CopiedClasses(first) && HaveMembers(first)
    requires WellFormedBranches(more, depth + 1) && AreFused(more) && CopiedBranches(more) && BranchesHaveMembers(more)
    requires !Plain(first) || !PlainBranches(more)
    ensures ParseRegex(Lex(EmitGlob(first, mode, false, false, ['|'] + EmitBranches(more, mode, [')'] + r)))) == Fail
    decreases Group(first, more), 0, 0
  {
    var bars := ['|'] + EmitBranches(more, mode, [')'] + r);
    LexPlain('|', EmitBranches(more, mode, [')'] + r));
    if Plain(first) {
      var acc := ParseGlob(first, mode, false, false, bars, Eps, depth + 1);
      BadBranches(more, mode, r, acc, depth + 1);
      FailedParen(Lex(EmitGlob(first, mode, false, false, bars)), Lex(bars), acc);
    } else {
      BadGlob(first, mode, false, false, bars, Eps, depth + 1);
    }
  }

  lemma FailedParen(ts: Tokens, bars: Tokens, acc: Re)
    requires ParseTerms(Eps, ts) == ParseTerms(acc, bars) && Starts(bars, '|')
    requires ParseAlternatives(acc, bars) == Fail
    ensures ParseRegex(ts) == Fail
  {
    assert ParseTerms(acc, bars) == Ok(acc, bars);
  }

  lemma {:induction false} BadBranches(bs: Branches, mode: Mode, r: string, acc: Re, depth: nat)
    requires WellFormedBranches(bs, depth) && AreFused(bs) && CopiedBranches(bs) && BranchesHaveMembers(bs)
    requires !PlainBranches(bs)
    ensures ParseAlternatives(acc, Lex(['|'] + EmitBranches(bs, mode, [')'] + r))) == Fail
    decreases bs
  {
    var rest := if bs.Last? then [')'] + r else ['|'] + EmitBranches(bs.rest, mode, [')'] + r);
    LexPlain(rest[0], rest[1..]);
    assert rest == [rest[0]] + rest[1..];
    if Plain(bs.b) {
      var e := ParseBranch(bs.b, mode, rest, acc, depth);
      BadBranches(bs.rest, mode, r, e, depth);
    } else {
      var text := EmitGlob(bs.b, mode, false, false, rest);
      BadGlob(bs.b, mode, false, false, rest, Eps, depth);
      LexPlain('|', text);
    }
  }

  // ----- Main result -----

  lemma {:induction false} NotPlainFails(g: Glob, mode: Mode, slash: bool, acc: Re)
    requires WellFormed(g, 0) && CopiedClasses(g) && HaveMembers(g) && !Plain(g)
    ensures ParseTerms(acc, Lex(EmitGlob(g, mode, slash, true, ""))) == Fail
  {
    FusedText(g, mode, slash, true, "");
    FusedIsFused(g, 0);
    BadGlob(Fused(g), mode, slash, true, "", acc, 0);
  }

  /** A compiled pattern reads back exactly when each of its classes, without the quotes it loses, is in the
      grammar of character sets. */
  lemma {:induction false} ReadsBackIfPlain(g: Glob, mode: Mode, buffer: string, e: Re)
    requires WellFormed(g, 0) && AsRead(g) && CopiedClasses(g) && HaveMembers(g) && Opens(buffer, e)
    ensures
      var (ptype, pcre) := Convert(Text(g), false, mode, buffer);
      ptype != Invalid && (ReadRegex(pcre).Ok? <==> Plain(g))
  {
    if Plain(g) {
      CompiledRegex(g, mode, buffer, e);
    } else {
      var text := OutputText(g, mode, buffer);
      assert text + "" == text == EmitGlob(g, mode, EndsInSlash(buffer), true, "");
      NotPlainFails(g, mode, EndsInSlash(buffer), e);
      SettledAhead(g, mode, EndsInSlash(buffer), true, "", 0);
      assert ParseTerms(Eps, Lex(buffer + text)) == ParseTerms(e, Lex(text));
    }
  }
}
