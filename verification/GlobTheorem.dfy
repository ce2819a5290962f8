/**
 Compiling a glob preserves its meaning, up to what dropped quotes make of it.
 */
module GlobTheorem {
  import opened Strings
  import opened Regex
  import opened GlobScanner
  import opened GlobGrammar
  import opened GlobMeaning
  import opened GlobCompile
  import opened GlobReadBack
  import opened GlobParse

  // ----- The scanner's output is the text that was read back -----

  lemma SegmentSpelled(mode: Mode, rest: string)
    ensures EmitSeg(mode, rest) == SegText(mode) + rest
  {
  }

  lemma AnySpelled(mode: Mode, rest: string)
    ensures EmitAny(mode, rest) == AnyText(mode) + rest
  {
  }

  lemma {:induction false} ClassSpelled(pcre: string, ms: seq<ClassPiece>, rest: string)
    ensures OntoClass(pcre, ms) + rest == pcre + EmitClass(ms, rest)
    decreases |ms|
  {
    if ms != [] {
      var text := ClassCharText(ms[0]);
      ClassSpelled(pcre + text, ms[1..], rest);
      assert EmitClass(ms, rest) == text + EmitClass(ms[1..], rest);
      Shift(pcre, text, EmitClass(ms[1..], rest));
    }
  }

  lemma NumberEnd(pcre: string, r: Radix, digits: string)
    requires WellFormedNumber(r, digits)
    ensures !EndsInSlash(pcre + NumberText(r, digits))
  {
    OnlyDigits(digits, r, Limit(r), 0);
    assert (pcre + NumberText(r, digits))[|pcre + NumberText(r, digits)| - 1] == digits[|digits| - 1];
  }

  lemma {:induction false} ItemSpelled(pcre: string, i: Item, mode: Mode, rest: string, depth: nat)
    requires !i.Wild? && WellFormedItem(i, depth)
    ensures OntoItem(pcre, i, mode) + rest == pcre + EmitItem(i, mode, rest)
    ensures EndsInSlash(OntoItem(pcre, i, mode)) <==> After(i) == Slash
    decreases i, 1
  {
    match i
    case Lit(c, quoted) =>
      assert LiteralText(c, quoted) + rest == EmitLiteral(c, quoted, rest);
      Shift(pcre, LiteralText(c, quoted), rest);
    case Num(radix, digits) =>
      Shift(pcre, NumberText(radix, digits), rest);
      NumberEnd(pcre, radix, digits);
    case Quest =>
      SegmentSpelled(mode, rest);
      Shift(pcre, SegText(mode), rest);
    case Class(body) =>
      ClassSpelled(pcre + "[", body, [']'] + rest);
      Shift(OntoClass(pcre + "[", body), "]", rest);
      Shift(pcre, "[", EmitClass(body, [']'] + rest));
    case Group(first, more) =>
      GroupSpelled(pcre, i, mode, rest, depth);
  }

  lemma {:induction false} GroupSpelled(pcre: string, i: Item, mode: Mode, rest: string, depth: nat)
    requires i.Group? && WellFormedItem(i, depth)
    ensures OntoItem(pcre, i, mode) + rest == pcre + EmitItem(i, mode, rest)
    decreases i, 0
  {
    var bars := EmitBranches(i.more, mode, [')'] + rest);
    var head := OntoGlob(pcre + "(", i.first, mode, false);
    BranchesSpelled(head + "|", i.more, mode, [')'] + rest, depth + 1);
    Shift(OntoBranches(head + "|", i.more, mode), ")", rest);
    Shift(head, "|", bars);
    GlobSpelled(pcre + "(", i.first, mode, false, ['|'] + bars, depth + 1);
    Shift(pcre, "(", EmitGlob(i.first, mode, false, false, ['|'] + bars));
  }

  lemma {:induction false} BranchesSpelled(pcre: string, bs: Branches, mode: Mode, rest: string, depth: nat)
    requires !EndsInSlash(pcre) && WellFormedBranches(bs, depth)
    ensures OntoBranches(pcre, bs, mode) + rest == pcre + EmitBranches(bs, mode, rest)
    decreases bs
  {
    match bs
    case Last(b) => GlobSpelled(pcre, b, mode, false, rest, depth);
    case Next(b, more) =>
      var head := OntoGlob(pcre, b, mode, false);
      BranchesSpelled(head + "|", more, mode, rest, depth);
      Shift(head, "|", EmitBranches(more, mode, rest));
      GlobSpelled(pcre, b, mode, false, ['|'] + EmitBranches(more, mode, rest), depth);
  }

  function StarsText(several: bool, mode: Mode): string
  {
    if several then AnyText(mode) else SegText(mode) + "*"
  }

  /** A run without the symbol that fills a component. */
  lemma BareStars(several: bool, mode: Mode, rest: string)
    ensures EmitStars(false, several, mode, rest) == StarsText(several, mode) + rest
  {
    if several {
      AnySpelled(mode, rest);
    } else {
      SegmentSpelled(mode, ['*'] + rest);
      Shift(SegText(mode), "*", rest);
    }
  }

  lemma FilledStars(several: bool, mode: Mode, rest: string)
    ensures EmitStars(true, several, mode, rest) == SegText(mode) + (StarsText(several, mode) + rest)
  {
    BareStars(several, mode, rest);
    SegmentSpelled(mode, EmitStars(false, several, mode, rest));
  }

  lemma Spread(pcre: string, fill: string, stars: string, rest: string)
    ensures pcre + (fill + stars) + rest == pcre + (fill + (stars + rest))
    ensures fill == "" ==> pcre + (fill + stars) + rest == pcre + (stars + rest)
  {
    assert fill == "" ==> fill + stars == stars;
  }

  lemma StarsSpelled(pcre: string, tail: Glob, several: bool, mode: Mode, top: bool, rest: string)
    ensures OntoStars(pcre, tail, StarsText(several, mode), mode, top) + rest
            == pcre + EmitStars(EndsInSlash(pcre) && ComponentEnds(tail, top), several, mode, rest)
  {
    if EndsInSlash(pcre) && ComponentEnds(tail, top) {
      FilledStars(several, mode, rest);
      Spread(pcre, SegText(mode), StarsText(several, mode), rest);
    } else {
      BareStars(several, mode, rest);
      Spread(pcre, "", StarsText(several, mode), rest);
    }
  }

  lemma StarsEnd(pcre: string, tail: Glob, several: bool, mode: Mode, top: bool)
    ensures !EndsInSlash(OntoStars(pcre, tail, StarsText(several, mode), mode, top))
  {
  }

  lemma {:induction false} GlobSpelled(pcre: string, g: Glob, mode: Mode, top: bool, rest: string, depth: nat)
    requires WellFormed(g, depth)
    ensures OntoGlob(pcre, g, mode, top) + rest == pcre + EmitGlob(g, mode, EndsInSlash(pcre), top, rest)
    decreases g
  {
    if g.Cons? {
      if !g.head.Wild? {
        var pcre' := OntoItem(pcre, g.head, mode);
        GlobSpelled(pcre', g.tail, mode, top, rest, depth);
        ItemSpelled(pcre, g.head, mode, EmitGlob(g.tail, mode, After(g.head) == Slash, top, rest), depth);
      } else {
        var several := g.tail.Cons? && g.tail.head.Wild?;
        var tail := if several then g.tail.tail else g.tail;
        var pcre' := OntoStars(pcre, tail, if several then AnyText(mode) else SegText(mode) + "*", mode, top);
        GlobSpelled(pcre', tail, mode, top, rest, depth);
        StarsEnd(pcre, tail, several, mode, top);
        StarsSpelled(pcre, tail, several, mode, top, EmitGlob(tail, mode, false, top, rest));
      }
    }
  }

  // ----- What dropped quotes make of a tree -----

  lemma {:induction false} UnquotedText(body: seq<ClassPiece>, rest: string)
    ensures EmitClass(Unquoted(body), rest) == EmitClass(body, rest)
    decreases |body|
  {
    if body != [] {
      assert Unquoted(body)[1..] == Unquoted(body[1..]);
      UnquotedText(body[1..], rest);
    }
  }

  lemma {:induction false} UnquotedIsUnquoted(body: seq<ClassPiece>)
    ensures Unquoted(Unquoted(body)) == Unquoted(body)
    ensures WellFormedClass(body) ==> WellFormedClass(Unquoted(body))
    decreases |body|
  {
    if body != [] {
      var u := Unquoted(body);
      assert u[1..] == Unquoted(body[1..]);
      UnquotedIsUnquoted(body[1..]);
      if WellFormedClass(body) {
        assert WellFormedClass(body[1..]);
        assert u == [u[0]] + u[1..];
        forall i | 0 <= i < |u| ensures u[i].Quoted? || (u[i].c != ']' && u[i].c != '\\') {
          if i > 0 { assert u[i] == u[1..][i - 1]; }
        }
      }
    }
  }

  lemma {:induction false} FusedEnds(g: Glob, top: bool)
    ensures ComponentEnds(Fused(g), top) == ComponentEnds(g, top)
    decreases g
  {
    if g.Cons? {
      if g.head.Wild? { FusedEnds(g.tail, top); }
      if g.head.Num? { NumberHeads(g.head.radix, g.head.digits, g.tail); }
    }
  }

  lemma {:induction false} NumberHeads(r: Radix, digits: string, g: Glob)
    ensures var h := FusedNumber(r, digits, g); h.Cons? && h.head.Num?
    decreases g
  {
    if RunsOn(r, digits, g) { NumberHeads(r, digits + [g.head.c], g.tail); }
  }

  /** Joining a number with the literals it takes leaves the emitted text alone. */
  lemma {:induction false} FusedText(g: Glob, mode: Mode, slash: bool, top: bool, rest: string)
    ensures EmitGlob(Fused(g), mode, slash, top, rest) == EmitGlob(g, mode, slash, top, rest)
    decreases g, 0
  {
    if g.Cons? {
      if g.head.Wild? {
        var tail := if g.tail.Cons? && g.tail.head.Wild? then g.tail.tail else g.tail;
        FusedEnds(tail, top);
        FusedText(tail, mode, false, top, rest);
        if g.tail.Cons? && g.tail.head.Num? { NumberHeads(g.tail.head.radix, g.tail.head.digits, g.tail.tail); }
      } else if g.head.Num? {
        FusedNumberText(g.head.radix, g.head.digits, g.tail, mode, slash, top, rest);
      } else {
        FusedText(g.tail, mode, After(g.head) == Slash, top, rest);
        FusedItemText(g.head, mode, EmitGlob(g.tail, mode, After(g.head) == Slash, top, rest));
      }
    }
  }

  lemma {:induction false} FusedNumberText(r: Radix, digits: string, g: Glob, mode: Mode, slash: bool, top: bool,
                                           rest: string)
    ensures EmitGlob(FusedNumber(r, digits, g), mode, slash, top, rest)
         == NumberText(r, digits) + EmitGlob(g, mode, false, top, rest)
    decreases g, 1
  {
    if RunsOn(r, digits, g) {
      ExtendedByDigit(r, digits, g.head.c);
      var more := EmitGlob(g.tail, mode, false, top, rest);
      FusedNumberText(r, digits + [g.head.c], g.tail, mode, slash, top, rest);
      assert NumberText(r, digits + [g.head.c]) + more == NumberText(r, digits) + ([g.head.c] + more);
    } else {
      FusedText(g, mode, false, top, rest);
    }
  }

  lemma {:induction false} FusedItemText(i: Item, mode: Mode, rest: string)
    requires !i.Wild?
    ensures EmitItem(FusedItem(i), mode, rest) == EmitItem(i, mode, rest)
    decreases i, 0
  {
    if i.Class? {
      UnquotedText(i.body, [']'] + rest);
    } else if i.Group? {
      var bars := ['|'] + EmitBranches(i.more, mode, [')'] + rest);
      FusedBranchText(i.more, mode, [')'] + rest);
      FusedText(i.first, mode, false, false, bars);
    }
  }

  lemma {:induction false} FusedBranchText(bs: Branches, mode: Mode, rest: string)
    ensures EmitBranches(FusedBranches(bs), mode, rest) == EmitBranches(bs, mode, rest)
    decreases bs, 0
  {
    match bs
    case Last(b) => FusedText(b, mode, false, false, rest);
    case Next(b, more) =>
      FusedBranchText(more, mode, rest);
      FusedText(b, mode, false, false, ['|'] + EmitBranches(more, mode, rest));
  }

  predicate SameKind(g: Glob, h: Glob)
  {
    Plain(h) == Plain(g) && CopiedClasses(h) == CopiedClasses(g) && HaveMembers(h) == HaveMembers(g)
  }

  /** What comes out is a tree again, with nothing left to join. */
  lemma {:induction false} FusedIsFused(g: Glob, depth: nat)
    requires WellFormed(g, depth)
    ensures WellFormed(Fused(g), depth) && IsFused(Fused(g)) && SameKind(g, Fused(g))
    ensures Fused(g).Cons? && Fused(g).head.Lit? ==> g.Cons? && g.head == Fused(g).head
    decreases g, 0
  {
    if g.Cons? {
      if g.head.Num? {
        FusedNumberIsFused(g.head.radix, g.head.digits, g.tail, depth);
      } else {
        FusedItemIsFused(g.head, depth);
        FusedIsFused(g.tail, depth);
      }
    }
  }

  lemma {:induction false} FusedNumberIsFused(r: Radix, digits: string, g: Glob, depth: nat)
    requires WellFormedNumber(r, digits) && WellFormed(g, depth)
    ensures var h := FusedNumber(r, digits, g);
            WellFormed(h, depth) && SameKind(g, h) && IsFused(h) && h.Cons? && h.head.Num?
    decreases g, 1
  {
    if RunsOn(r, digits, g) {
      FusedNumberIsFused(r, digits + [g.head.c], g.tail, depth);
    } else {
      FusedIsFused(g, depth);
      var h := Cons(Num(r, digits), Fused(g));
      assert FusedNumber(r, digits, g) == h && !RunsOn(r, digits, h.tail);
      assert IsFusedItem(h.head) && !HeadRunsOn(h) && WellFormedItem(h.head, depth);
      assert PlainItem(h.head) && CopiedItem(h.head) && HasMembers(h.head) && SameKind(Fused(g), h);
    }
  }

  lemma {:induction false} FusedItemIsFused(i: Item, depth: nat)
    requires WellFormedItem(i, depth)
    ensures var h := FusedItem(i);
            && WellFormedItem(h, depth) && IsFusedItem(h)
            && PlainItem(h) == PlainItem(i) && CopiedItem(h) == CopiedItem(i) && HasMembers(h) == HasMembers(i)
    decreases i, 0
  {
    if i.Class? {
      UnquotedIsUnquoted(i.body);
      UnquotedCopied(i.body);
    } else if i.Group? {
      FusedIsFused(i.first, depth + 1);
      FusedBranchesAreFused(i.more, depth + 1);
    }
  }

  lemma {:induction false} FusedBranchesAreFused(bs: Branches, depth: nat)
    requires WellFormedBranches(bs, depth)
    ensures var h := FusedBranches(bs);
            && WellFormedBranches(h, depth) && AreFused(h) && PlainBranches(h) == PlainBranches(bs)
            && CopiedBranches(h) == CopiedBranches(bs) && BranchesHaveMembers(h) == BranchesHaveMembers(bs)
    decreases bs, 0
  {
    FusedIsFused(bs.b, depth);
    if bs.Next? { FusedBranchesAreFused(bs.rest, depth); }
  }

  /** Stars stay where they are. */
  lemma {:induction false} FusedStars(g: Glob)
    ensures Fused(g).Cons? == g.Cons?
    ensures g.Cons? ==> Fused(g).head.Wild? == g.head.Wild?
  {
    if g.Cons? && g.head.Num? { NumberHeads(g.head.radix, g.head.digits, g.tail); }
  }

  /** A clear tree means the same when it is joined. */
  lemma {:induction false} ClearMeansSame(g: Glob, mode: Mode, before: Before, top: bool)
    requires Clear(g)
    ensures GlobLang(Fused(g), mode, before, top) == GlobLang(g, mode, before, top)
    decreases g, 1
  {
    if g.Cons? {
      if g.head.Wild? {
        FusedEnds(g.tail, top);
        FusedStars(g.tail);
        ClearMeansSame(g.tail, mode, Stars, top);
      } else {
        ClearHead(g);
        ClearItemMeansSame(g.head, mode);
        ClearMeansSame(g.tail, mode, After(g.head), top);
        FirstItem(g, mode, false, before, top);
        FirstItem(Fused(g), mode, false, before, top);
      }
    }
  }

  lemma {:induction false} ClearHead(g: Glob)
    requires g.Cons? && !g.head.Wild? && !HeadRunsOn(g)
    ensures Fused(g) == Cons(FusedItem(g.head), Fused(g.tail))
    ensures !FusedItem(g.head).Wild? && After(FusedItem(g.head)) == After(g.head)
  {
  }

  lemma {:induction false} ClearItemMeansSame(i: Item, mode: Mode)
    requires ClearItem(i) && !i.Wild?
    ensures ItemLang(FusedItem(i), mode) == ItemLang(i, mode)
    decreases i, 0
  {
    if i.Group? {
      ClearMeansSame(i.first, mode, Other, false);
      ClearBranchesMeanSame(i.more, mode);
      GroupLang(i, mode);
      GroupLang(FusedItem(i), mode);
    }
  }

  lemma {:induction false} ClearBranchesMeanSame(bs: Branches, mode: Mode)
    requires ClearBranches(bs)
    ensures BranchLang(FusedBranches(bs), mode) == BranchLang(bs, mode)
    decreases bs, 0
  {
    ClearMeansSame(bs.b, mode, Other, false);
    if bs.Next? { ClearBranchesMeanSame(bs.rest, mode); }
  }

  // ----- Main result -----

  ghost predicate AddsTo(acc: Re, text: string, rest: string, l: Language)
  {
    exists acc' ::
      ParseTerms(acc, Lex(text + rest)) == ParseTerms(acc', Lex(rest)) && Lang(acc') == Concat(Lang(acc), l)
  }

  /** Wherever terms are read, `text` adds the words of `l` to the terms in front of it. */
  ghost predicate Denotes(text: string, l: Language)
  {
    forall acc, rest :: Settled(Lex(rest)) && NoDigit(rest) ==> AddsTo(acc, text, rest, l)
  }

  function Behind(buffer: string): Before { if EndsInSlash(buffer) then Slash else Other }

  /** What the scanner appends to a buffer is the text the tree emits. */
  lemma {:induction false} OutputText(g: Glob, mode: Mode, buffer: string) returns (text: string)
    requires WellFormed(g, 0) && AsRead(g) && CopiedClasses(g)
    ensures Convert(Text(g), false, mode, buffer).0 != Invalid
    ensures Convert(Text(g), false, mode, buffer).1 == buffer + text
    ensures forall rest :: text + rest == EmitGlob(g, mode, EndsInSlash(buffer), true, rest)
  {
    text := EmitGlob(g, mode, EndsInSlash(buffer), true, "");
    TreesAreAccepted(g, false, mode, buffer);
    var p := RunGlob(g, "", State(START, buffer), mode);
    ThenIsText(g, "");
    assert Text(g) + "" == Text(g);
    var pcre := OntoGlob(buffer, g, mode, true);
    GlobSpelled(buffer, g, mode, true, "", 0);
    forall rest ensures text + rest == EmitGlob(g, mode, EndsInSlash(buffer), true, rest) {
      GlobSpelled(buffer, g, mode, true, rest, 0);
      SamePrefix(buffer, text, pcre, rest, EmitGlob(g, mode, EndsInSlash(buffer), true, rest));
    }
    assert pcre + "" == pcre && text + "" == text;
  }

  lemma SamePrefix(buffer: string, text: string, pcre: string, rest: string, longer: string)
    requires pcre + "" == buffer + text && pcre + rest == buffer + longer
    ensures text + rest == longer
  {
    assert pcre + "" == pcre;
    assert buffer + (text + rest) == buffer + longer;
    assert (buffer + (text + rest))[|buffer|..] == text + rest && (buffer + longer)[|buffer|..] == longer;
  }

  lemma {:induction false} FusedDenotes(g: Glob, mode: Mode, slash: bool, text: string)
    requires WellFormed(g, 0) && IsFused(g) && Plain(g)
    requires forall rest :: text + rest == EmitGlob(g, mode, slash, true, rest)
    ensures Denotes(text, GlobLang(g, mode, if slash then Slash else Other, true))
  {
    EmittedIsMeant(g, mode, slash, true);
    var l := GlobLang(g, mode, if slash then Slash else Other, true);
    forall acc, rest | Settled(Lex(rest)) && NoDigit(rest) ensures AddsTo(acc, text, rest, l) {
      var acc' := ParseGlob(g, mode, slash, true, rest, acc, 0);
      assert text + rest == EmitGlob(g, mode, slash, true, rest);
    }
  }

  /** What a pattern appends to a buffer denotes the pattern's tree as the regex
      reader sees it. A clear tree means the same. */
  lemma {:induction false} CompilingPreservesMeaning(g: Glob, mode: Mode, buffer: string) returns (text: string)
    requires WellFormed(g, 0) && AsRead(g) && Plain(g)
    ensures Convert(Text(g), false, mode, buffer).0 != Invalid
    ensures Convert(Text(g), false, mode, buffer).1 == buffer + text
    ensures Denotes(text, GlobLang(Fused(g), mode, Behind(buffer), true))
    ensures Clear(g) ==> Denotes(text, GlobLang(g, mode, Behind(buffer), true))
  {
    PlainGlobIsCopied(g);
    text := OutputText(g, mode, buffer);
    FusedIsFused(g, 0);
    forall rest ensures text + rest == EmitGlob(Fused(g), mode, EndsInSlash(buffer), true, rest) {
      assert text + rest == EmitGlob(g, mode, EndsInSlash(buffer), true, rest);
      FusedText(g, mode, EndsInSlash(buffer), true, rest);
    }
    FusedDenotes(Fused(g), mode, EndsInSlash(buffer), text);
    if Clear(g) { ClearMeansSame(g, mode, Behind(buffer), true); }
  }

  /** A buffer that stands for `e` in front of any further terms. */
  ghost predicate Opens(buffer: string, e: Re)
  {
    forall rest :: Settled(Lex(rest)) ==> ParseTerms(Eps, Lex(buffer + rest)) == ParseTerms(e, Lex(rest))
  }

  lemma NothingOpens()
    ensures Opens("", Eps)
  {
    forall rest ensures ParseTerms(Eps, Lex("" + rest)) == ParseTerms(Eps, Lex(rest)) {
      assert "" + rest == rest;
    }
  }

  lemma {:induction false} DenotedText(buffer: string, e: Re, text: string, l: Language)
    requires Opens(buffer, e) && Denotes(text, l) && Settled(Lex(text))
    ensures ReadRegex(buffer + text).Ok?
    ensures Lang(ReadRegex(buffer + text).value) == Concat(Lang(e), l)
  {
    assert Settled(Lex("")) && text + "" == text;
    assert AddsTo(e, text, "", l);
    var e' :| ParseTerms(e, Lex(text + "")) == ParseTerms(e', Lex("")) && Lang(e') == Concat(Lang(e), l);
    assert ParseTerms(Eps, Lex(buffer + text)) == ParseTerms(e, Lex(text));
    ReadBack(buffer + text, e');
  }

  /** The whole regex, on a buffer that reads back by itself: it parses and
      matches exactly the words of the buffer followed by those of the pattern. */
  lemma {:induction false} CompiledRegex(g: Glob, mode: Mode, buffer: string, e: Re)
    requires WellFormed(g, 0) && AsRead(g) && Plain(g) && Opens(buffer, e)
    ensures
      var (ptype, pcre) := Convert(Text(g), false, mode, buffer);
      && ptype != Invalid
      && ReadRegex(pcre).Ok?
      && Lang(ReadRegex(pcre).value) == Concat(Lang(e), GlobLang(Fused(g), mode, Behind(buffer), true))
      && (Clear(g) ==> Lang(ReadRegex(pcre).value) == Concat(Lang(e), GlobLang(g, mode, Behind(buffer), true)))
  {
    PlainGlobIsCopied(g);
    var text := CompilingPreservesMeaning(g, mode, buffer);
    var text' := OutputText(g, mode, buffer);
    assert (buffer + text)[|buffer|..] == text && (buffer + text')[|buffer|..] == text';
    assert text + "" == text;
    SettledAhead(g, mode, EndsInSlash(buffer), true, "", 0);
    DenotedText(buffer, e, text, GlobLang(Fused(g), mode, Behind(buffer), true));
    if Clear(g) { ClearMeansSame(g, mode, Behind(buffer), true); }
  }
}
