/**
 When compiling a glob changes its meaning. The scanner drops the quote of a
 character that needs none, and the number in front of it then takes the bare
 character for one more digit. In a class, a dropped quote can make a member
 negate the class or start a range.
 */
module GlobChanges {
  import opened Regex
  import opened GlobScanner
  import opened GlobGrammar
  import opened GlobMeaning
  import opened GlobCompile
  import opened GlobReadBack
  import opened GlobParse
  import opened GlobTheorem
  import opened GlobReadable
  import opened ClassWildcards

  // ----- The length of a shortest word -----

  function Least(a: nat, b: nat): nat { if a < b then a else b }

  function Shortest(g: Glob, before: Before, top: bool): nat
  {
    match g
    case Empty => 0
    case Cons(Wild, tail) =>
      (if before == Slash && ComponentEnds(tail, top) then 1 else 0) + Shortest(tail, Stars, top)
    case Cons(i, tail) => ShortestItem(i) + Shortest(tail, After(i), top)
  }

  function ShortestItem(i: Item): nat
  {
    match i
    case Group(first, more) => Least(Shortest(first, Other, false), ShortestBranch(more))
    case Wild => 0
    case _ => 1
  }

  function ShortestBranch(bs: Branches): nat
  {
    match bs
    case Last(b) => Shortest(b, Other, false)
    case Next(b, more) => Least(Shortest(b, Other, false), ShortestBranch(more))
  }

  /** The shortest words of `l` have length `n`. */
  ghost predicate HasShortest(l: Language, n: nat)
  {
    (forall w :: w in l ==> n <= |w|) && exists w :: w in l && |w| == n
  }

  lemma ShortestOfConcat(a: Language, m: nat, b: Language, n: nat)
    requires HasShortest(a, m) && HasShortest(b, n)
    ensures HasShortest(Concat(a, b), m + n)
  {
    forall w | w in Concat(a, b) ensures m + n <= |w| {
      var k :| CutAt(a, b, w, k);
    }
    var u :| u in a && |u| == m;
    var v :| v in b && |v| == n;
    assert (u + v)[..m] == u && (u + v)[m..] == v;
    assert CutAt(a, b, u + v, m);
    assert u + v in Concat(a, b);
  }

  lemma ShortestOfUnion(a: Language, m: nat, b: Language, n: nat)
    requires HasShortest(a, m) && HasShortest(b, n)
    ensures HasShortest(a + b, Least(m, n))
  {
    var u :| u in a && |u| == m;
    var v :| v in b && |v| == n;
    assert u in a + b && v in a + b;
  }

  lemma ShortestIsOne(a: Language, n: nat, m: nat)
    requires HasShortest(a, n) && HasShortest(a, m)
    ensures n == m
  {
    var u :| u in a && |u| == n;
    var v :| v in a && |v| == m;
  }

  lemma ShortestOfStars(mode: Mode, several: bool, fills: bool)
    ensures HasShortest(StarLang(mode, several, fills), if fills then 1 else 0)
  {
    var w: Word := if fills then [1] else [];
    assert w in StarLang(mode, several, fills);
  }

  lemma ShortestOfUnit()
    ensures HasShortest(Unit(), 0)
  {
    var w: Word := [];
    assert w in Unit();
  }

  /** A symbol above all those of a finite set. */
  lemma {:induction false} Above(s: set<int>) returns (x: int)
    ensures 0 <= x && forall y :: y in s ==> y < x
    decreases s
  {
    if s == {} {
      x := 0;
    } else {
      assert (forall d: int :: d !in s) ==> s == {};
      var y :| y in s;
      x := Above(s - {y});
      forall z | z in s ensures z < (if y < x then x else y + 1) {
        if z != y { assert z in s - {y}; }
      }
      x := if y < x then x else y + 1;
    }
  }

  lemma {:induction false} ClassHasMember(body: seq<ClassPiece>) returns (x: int)
    requires Members(Unquoted(body)) != []
    ensures 0 <= x && InClass(body, x)
  {
    if Negated(body) {
      x := Above(MemberSet(Members(body)));
    } else {
      x := MemberValue(body[0]);
    }
  }

  lemma {:induction false} ShortestOfItem(i: Item, mode: Mode)
    requires HasMembers(i) && !i.Wild?
    ensures HasShortest(ItemLang(i, mode), ShortestItem(i))
    decreases i, 1
  {
    var w: Word;
    match i
    case Lit(c, quoted) =>
      w := [LiteralValue(c, quoted)];
      assert w in ItemLang(i, mode);
    case Num(radix, digits) =>
      w := [NumberValue(radix, digits)];
      assert w in ItemLang(i, mode);
    case Quest =>
      w := [1];
      assert w in ItemLang(i, mode);
    case Class(body) =>
      var x := ClassHasMember(body);
      w := [x];
      assert w in ItemLang(i, mode);
    case Group(first, more) =>
      ShortestOfGlob(first, mode, Other, false);
      ShortestOfBranches(more, mode);
      ShortestOfUnion(GlobLang(first, mode, Other, false), Shortest(first, Other, false),
                      BranchLang(more, mode), ShortestBranch(more));
  }

  lemma {:induction false} ShortestOfBranches(bs: Branches, mode: Mode)
    requires BranchesHaveMembers(bs)
    ensures HasShortest(BranchLang(bs, mode), ShortestBranch(bs))
    decreases bs, 1
  {
    ShortestOfGlob(bs.b, mode, Other, false);
    if bs.Next? {
      ShortestOfBranches(bs.rest, mode);
      ShortestOfUnion(GlobLang(bs.b, mode, Other, false), Shortest(bs.b, Other, false),
                      BranchLang(bs.rest, mode), ShortestBranch(bs.rest));
    }
  }

  lemma {:induction false} ShortestOfGlob(g: Glob, mode: Mode, before: Before, top: bool)
    requires HaveMembers(g)
    ensures HasShortest(GlobLang(g, mode, before, top), Shortest(g, before, top))
    decreases g, 1
  {
    if g.Empty? {
      ShortestOfUnit();
    } else if g.head.Wild? {
      ShortestOfRun(g, mode, before, top);
    } else {
      ShortestOfItem(g.head, mode);
      ShortestOfGlob(g.tail, mode, After(g.head), top);
      ShortestOfConcat(ItemLang(g.head, mode), ShortestItem(g.head),
                       GlobLang(g.tail, mode, After(g.head), top), Shortest(g.tail, After(g.head), top));
    }
  }

  lemma {:induction false} ShortestOfRun(g: Glob, mode: Mode, before: Before, top: bool)
    requires g.Cons? && g.head.Wild? && HaveMembers(g)
    ensures HasShortest(GlobLang(g, mode, before, top), Shortest(g, before, top))
    decreases g, 0
  {
    var fills := before == Slash && ComponentEnds(g.tail, top);
    var several := g.tail.Cons? && g.tail.head.Wild?;
    var run := if before == Stars then Unit() else StarLang(mode, several, fills);
    ShortestOfUnit();
    ShortestOfStars(mode, several, fills);
    ShortestOfGlob(g.tail, mode, Stars, top);
    ShortestOfConcat(run, if fills then 1 else 0, GlobLang(g.tail, mode, Stars, top), Shortest(g.tail, Stars, top));
  }

  // ----- Joining a number with a literal shortens the shortest word -----

  /** A number outside all groups runs on. */
  predicate RunsOnOutside(g: Glob)
  {
    g.Cons? && (HeadRunsOn(g) || RunsOnOutside(g.tail))
  }

  lemma {:induction false} FusedIsShorter(g: Glob, before: Before, top: bool)
    ensures Shortest(Fused(g), before, top) <= Shortest(g, before, top)
    ensures RunsOnOutside(g) ==> Shortest(Fused(g), before, top) < Shortest(g, before, top)
    decreases g, 0
  {
    if g.Cons? {
      if g.head.Num? {
        FusedNumberIsShorter(g.head.radix, g.head.digits, g.tail, before, top);
      } else if g.head.Wild? {
        FusedEnds(g.tail, top);
        FusedIsShorter(g.tail, Stars, top);
      } else {
        FusedItemIsShorter(g.head);
        FusedIsShorter(g.tail, After(g.head), top);
      }
    }
  }

  lemma {:induction false} FusedNumberIsShorter(r: Radix, digits: string, g: Glob, before: Before, top: bool)
    ensures Shortest(FusedNumber(r, digits, g), before, top) <= 1 + Shortest(g, Other, top)
    ensures RunsOn(r, digits, g) || RunsOnOutside(g) ==>
      Shortest(FusedNumber(r, digits, g), before, top) < 1 + Shortest(g, Other, top)
    decreases g, 1
  {
    if RunsOn(r, digits, g) {
      ExtendedByDigit(r, digits, g.head.c);
      FusedNumberIsShorter(r, digits + [g.head.c], g.tail, before, top);
      assert Shortest(g, Other, top) == 1 + Shortest(g.tail, Other, top);
    } else {
      FusedIsShorter(g, Other, top);
      assert Shortest(FusedNumber(r, digits, g), before, top) == 1 + Shortest(Fused(g), Other, top);
    }
  }

  lemma {:induction false} FusedItemIsShorter(i: Item)
    ensures ShortestItem(FusedItem(i)) <= ShortestItem(i)
    decreases i, 0
  {
    if i.Group? {
      FusedIsShorter(i.first, Other, false);
      FusedBranchIsShorter(i.more);
    }
  }

  lemma {:induction false} FusedBranchIsShorter(bs: Branches)
    ensures ShortestBranch(FusedBranches(bs)) <= ShortestBranch(bs)
    decreases bs, 0
  {
    FusedIsShorter(bs.b, Other, false);
    if bs.Next? { FusedBranchIsShorter(bs.rest); }
  }

  // ----- The shortest words of a concatenation determine those of its parts -----

  /** The words of `l` that have length `n` are words of `l'`. */
  ghost predicate ShortIn(l: Language, l': Language, n: nat)
  {
    forall w :: w in l && |w| == n ==> w in l'
  }

  lemma ShortestCut(a: Language, m: nat, b: Language, n: nat, w: Word)
    requires HasShortest(a, m) && HasShortest(b, n) && |w| == m + n && w in Concat(a, b)
    ensures w[..m] in a && w[m..] in b
  {
    var k :| CutAt(a, b, w, k);
    assert k == m;
  }

  lemma Joins(a: Language, b: Language, u: Word, v: Word)
    requires u in a && v in b
    ensures u + v in Concat(a, b)
  {
    assert (u + v)[..|u|] == u && (u + v)[|u|..] == v;
    assert CutAt(a, b, u + v, |u|);
  }

  /** Two shortest words, one of each part, are words of the other parts too. */
  lemma PartsOf(a: Language, b: Language, a': Language, m: nat, b': Language, n: nat, u: Word, v: Word)
    requires HasShortest(a', m) && HasShortest(b', n) && ShortIn(Concat(a, b), Concat(a', b'), m + n)
    requires u in a && |u| == m && v in b && |v| == n
    ensures u in a' && v in b'
  {
    Joins(a, b, u, v);
    ShortestCut(a', m, b', n, u + v);
    assert (u + v)[..m] == u && (u + v)[m..] == v;
  }

  lemma PartsIn(a: Language, b: Language, a': Language, m: nat, b': Language, n: nat)
    requires HasShortest(a, m) && HasShortest(b, n) && HasShortest(a', m) && HasShortest(b', n)
    requires ShortIn(Concat(a, b), Concat(a', b'), m + n)
    ensures ShortIn(a, a', m) && ShortIn(b, b', n)
  {
    var u0 :| u0 in a && |u0| == m;
    var v0 :| v0 in b && |v0| == n;
    forall u | u in a && |u| == m ensures u in a' { PartsOf(a, b, a', m, b', n, u, v0); }
    forall v | v in b && |v| == n ensures v in b' { PartsOf(a, b, a', m, b', n, u0, v); }
  }

  /** Two classes that match the same symbols have the same members and are negated alike. */
  lemma SameClasses(b: seq<ClassPiece>, c: seq<ClassPiece>, mode: Mode)
    requires ShortIn(ItemLang(Class(b), mode), ItemLang(Class(c), mode), 1)
    requires ShortIn(ItemLang(Class(c), mode), ItemLang(Class(b), mode), 1)
    ensures Negated(b) == Negated(c) && MemberSet(Members(b)) == MemberSet(Members(c))
  {
    var sb, sc := MemberSet(Members(b)), MemberSet(Members(c));
    var x := Above(sb + sc);
    assert x !in sb + sc;
    SameSymbol(b, c, mode, x);
    forall y ensures y in sb <==> y in sc {
      if y in sb { MembersAreBytes(Members(b), y); SameSymbol(b, c, mode, y); }
      if y in sc { MembersAreBytes(Members(c), y); SameSymbol(b, c, mode, y); }
    }
  }

  lemma SameSymbol(b: seq<ClassPiece>, c: seq<ClassPiece>, mode: Mode, x: int)
    requires ShortIn(ItemLang(Class(b), mode), ItemLang(Class(c), mode), 1)
    requires ShortIn(ItemLang(Class(c), mode), ItemLang(Class(b), mode), 1)
    requires 0 <= x
    ensures InClass(b, x) == InClass(c, x)
  {
    var w: Word := [x];
    assert w in ItemLang(Class(b), mode) <==> InClass(b, x);
    assert w in ItemLang(Class(c), mode) <==> InClass(c, x);
  }

  // ----- A change outside all groups shows -----

  /** A number runs on, or a class has other members without the quotes it loses. */
  predicate HeadChanges(g: Glob)
    requires g.Cons?
  {
    HeadRunsOn(g) || (g.head.Class? && !SameUnquoted(g.head.body))
  }

  predicate ChangesOutside(g: Glob)
  {
    g.Cons? && (HeadChanges(g) || ChangesOutside(g.tail))
  }

  /** The shortest words of `f` are words of `g`, and have the same length as those of `g`. */
  ghost predicate ShortWithin(f: Glob, g: Glob, mode: Mode, before: Before, top: bool)
  {
    && Shortest(f, before, top) == Shortest(g, before, top)
    && ShortIn(GlobLang(f, mode, before, top), GlobLang(g, mode, before, top), Shortest(g, before, top))
  }

  /** What the star at the head of `g` stands for. */
  ghost function RunLang(g: Glob, mode: Mode, before: Before, top: bool): Language
    requires g.Cons? && g.head.Wild?
  {
    if before == Stars then Unit()
    else StarLang(mode, g.tail.Cons? && g.tail.head.Wild?, before == Slash && ComponentEnds(g.tail, top))
  }

  function RunLength(g: Glob, before: Before, top: bool): nat
    requires g.Cons? && g.head.Wild?
  {
    if before == Slash && ComponentEnds(g.tail, top) then 1 else 0
  }

  lemma RunIsShort(g: Glob, mode: Mode, before: Before, top: bool)
    requires g.Cons? && g.head.Wild?
    ensures HasShortest(RunLang(g, mode, before, top), RunLength(g, before, top))
  {
    ShortestOfUnit();
    ShortestOfStars(mode, g.tail.Cons? && g.tail.head.Wild?, before == Slash && ComponentEnds(g.tail, top));
  }

  lemma {:induction false} RunFirst(g: Glob, mode: Mode, before: Before, top: bool)
    requires g.Cons? && g.head.Wild?
    ensures GlobLang(g, mode, before, top) == Concat(RunLang(g, mode, before, top), GlobLang(g.tail, mode, Stars, top))
    ensures Shortest(g, before, top) == RunLength(g, before, top) + Shortest(g.tail, Stars, top)
  {
  }

  lemma {:induction false} FusedRun(g: Glob, mode: Mode, before: Before, top: bool)
    requires g.Cons? && g.head.Wild?
    ensures var f := Fused(g);
            && f.Cons? && f.head.Wild? && f.tail == Fused(g.tail)
            && RunLang(f, mode, before, top) == RunLang(g, mode, before, top)
            && RunLength(f, before, top) == RunLength(g, before, top)
  {
    FusedEnds(g.tail, top);
    FusedStars(g.tail);
  }

  lemma {:induction false} TailWithin(f: Glob, g: Glob, mode: Mode, before: Before, top: bool)
    requires HaveMembers(f) && HaveMembers(g) && ShortWithin(f, g, mode, before, top)
    requires f.Cons? && f.head.Wild? && g.Cons? && g.head.Wild?
    requires RunLang(f, mode, before, top) == RunLang(g, mode, before, top)
    requires RunLength(f, before, top) == RunLength(g, before, top)
    ensures ShortWithin(f.tail, g.tail, mode, Stars, top)
  {
    var run := RunLang(g, mode, before, top);
    RunFirst(g, mode, before, top);
    RunFirst(f, mode, before, top);
    RunIsShort(g, mode, before, top);
    ShortestOfGlob(g.tail, mode, Stars, top);
    ShortestOfGlob(f.tail, mode, Stars, top);
    PartsIn(run, GlobLang(f.tail, mode, Stars, top), run, RunLength(g, before, top),
            GlobLang(g.tail, mode, Stars, top), Shortest(g.tail, Stars, top));
  }

  lemma {:induction false} ItemFirst(g: Glob, mode: Mode, before: Before, top: bool)
    requires g.Cons? && !g.head.Wild?
    ensures GlobLang(g, mode, before, top) == Concat(ItemLang(g.head, mode), GlobLang(g.tail, mode, After(g.head), top))
    ensures Shortest(g, before, top) == ShortestItem(g.head) + Shortest(g.tail, After(g.head), top)
  {
  }

  lemma {:induction false} HeadWithin(f: Glob, g: Glob, mode: Mode, before: Before, top: bool)
    requires HaveMembers(f) && HaveMembers(g) && ShortWithin(f, g, mode, before, top)
    requires f.Cons? && !f.head.Wild? && g.Cons? && !g.head.Wild? && After(f.head) == After(g.head)
    requires ShortestItem(f.head) == ShortestItem(g.head)
    ensures ShortWithin(f.tail, g.tail, mode, After(g.head), top)
    ensures ShortIn(ItemLang(f.head, mode), ItemLang(g.head, mode), ShortestItem(g.head))
  {
    var after := After(g.head);
    ItemFirst(f, mode, before, top);
    ItemFirst(g, mode, before, top);
    ShortestOfItem(f.head, mode);
    ShortestOfItem(g.head, mode);
    ShortestOfGlob(f.tail, mode, after, top);
    ShortestOfGlob(g.tail, mode, after, top);
    PartsIn(ItemLang(f.head, mode), GlobLang(f.tail, mode, after, top), ItemLang(g.head, mode), ShortestItem(g.head),
            GlobLang(g.tail, mode, after, top), Shortest(g.tail, after, top));
  }

  /** Nothing gets shorter, so no number runs on and the parts keep their lengths. */
  lemma {:induction false} SameLengths(g: Glob, before: Before, top: bool)
    requires g.Cons? && !g.head.Wild? && Shortest(Fused(g), before, top) == Shortest(g, before, top)
    ensures !HeadRunsOn(g) && Fused(g) == Cons(FusedItem(g.head), Fused(g.tail))
    ensures ShortestItem(FusedItem(g.head)) == ShortestItem(g.head)
  {
    FusedIsShorter(g, before, top);
    ClearHead(g);
    FusedItemIsShorter(g.head);
    FusedIsShorter(g.tail, After(g.head), top);
    ItemFirst(g, Default, before, top);
    ItemFirst(Fused(g), Default, before, top);
  }

  /** A tree whose shortest words are those of its joined form. */
  ghost predicate SameShort(g: Glob, mode: Mode, before: Before, top: bool)
  {
    ShortWithin(Fused(g), g, mode, before, top) && ShortWithin(g, Fused(g), mode, before, top)
  }

  lemma {:induction false} FusedHead(g: Glob, mode: Mode, before: Before, top: bool, depth: nat)
    requires WellFormed(g, depth) && HaveMembers(g) && g.Cons? && !g.head.Wild? && SameShort(g, mode, before, top)
    ensures !HeadChanges(g) && SameShort(g.tail, mode, After(g.head), top)
  {
    SameLengths(g, before, top);
    ClearHead(g);
    FusedIsFused(g, depth);
    HeadWithin(Fused(g), g, mode, before, top);
    HeadWithin(g, Fused(g), mode, before, top);
    if g.head.Class? { SameClasses(Unquoted(g.head.body), g.head.body, mode); }
  }

  lemma {:induction false} SameShortIsClear(g: Glob, mode: Mode, before: Before, top: bool, depth: nat)
    requires WellFormed(g, depth) && HaveMembers(g) && SameShort(g, mode, before, top)
    ensures !ChangesOutside(g)
    decreases g
  {
    if g.Cons? {
      if g.head.Wild? {
        FusedRun(g, mode, before, top);
        FusedIsFused(g, depth);
        TailWithin(Fused(g), g, mode, before, top);
        TailWithin(g, Fused(g), mode, before, top);
        SameShortIsClear(g.tail, mode, Stars, top, depth);
      } else {
        FusedHead(g, mode, before, top, depth);
        SameShortIsClear(g.tail, mode, After(g.head), top, depth);
      }
    }
  }

  // ----- Main results -----

  predicate NoGroups(g: Glob)
  {
    g.Empty? || (!g.head.Group? && NoGroups(g.tail))
  }

  lemma {:induction false} WithoutGroups(g: Glob)
    requires NoGroups(g)
    ensures Clear(g) <==> !ChangesOutside(g)
  {
    if g.Cons? { WithoutGroups(g.tail); }
  }

  /** A number that runs on outside all groups, or a class there that changes, changes what the pattern matches. */
  lemma {:induction false} ChangeShows(g: Glob, mode: Mode, before: Before, top: bool, depth: nat)
    requires WellFormed(g, depth) && HaveMembers(g) && ChangesOutside(g)
    ensures GlobLang(Fused(g), mode, before, top) != GlobLang(g, mode, before, top)
  {
    FusedIsFused(g, depth);
    ShortestOfGlob(g, mode, before, top);
    ShortestOfGlob(Fused(g), mode, before, top);
    if GlobLang(Fused(g), mode, before, top) == GlobLang(g, mode, before, top) {
      ShortestIsOne(GlobLang(g, mode, before, top), Shortest(g, before, top), Shortest(Fused(g), before, top));
      SameShortIsClear(g, mode, before, top, depth);
    }
  }

  /** The words a compiled pattern matches. */
  ghost function CompiledLang(aare: string, mode: Mode): Language
  {
    var r := ReadRegex(Convert(aare, false, mode, "").1);
    if r.Ok? then Lang(r.value) else iset{}
  }

  lemma {:induction false} CompiledMeaning(g: Glob, mode: Mode)
    requires WellFormed(g, 0) && AsRead(g) && Plain(g)
    ensures CompiledLang(Text(g), mode) == GlobLang(Fused(g), mode, Other, true)
  {
    NothingOpens();
    CompiledRegex(g, mode, "", Eps);
    FromEmpty(GlobLang(Fused(g), mode, Other, true));
  }

  lemma {:induction false} NothingCompiled(g: Glob, mode: Mode)
    requires WellFormed(g, 0) && AsRead(g) && CopiedClasses(g) && HaveMembers(g) && !Plain(g)
    ensures CompiledLang(Text(g), mode) != GlobLang(g, mode, Other, true)
  {
    NothingOpens();
    ReadsBackIfPlain(g, mode, "", Eps);
    ShortestOfGlob(g, mode, Other, true);
  }

  /** Compiling a pattern without groups keeps its meaning exactly when the regex reader can read
      its classes, none of its numbers runs on and none of its classes changes. With groups it keeps
      it when all this holds, and never when a class cannot be read or something outside all groups changes. */
  lemma {:induction false} MeaningIsKept(g: Glob, mode: Mode)
    requires WellFormed(g, 0) && AsRead(g) && CopiedClasses(g) && HaveMembers(g)
    ensures NoGroups(g) ==> (CompiledLang(Text(g), mode) == GlobLang(g, mode, Other, true) <==> Plain(g) && Clear(g))
    ensures Plain(g) && Clear(g) ==> CompiledLang(Text(g), mode) == GlobLang(g, mode, Other, true)
    ensures !Plain(g) || ChangesOutside(g) ==> CompiledLang(Text(g), mode) != GlobLang(g, mode, Other, true)
  {
    if Plain(g) {
      CompiledMeaning(g, mode);
      if Clear(g) { ClearMeansSame(g, mode, Other, true); }
      if ChangesOutside(g) { ChangeShows(g, mode, Other, true, 0); }
    } else {
      NothingCompiled(g, mode);
    }
    if NoGroups(g) { WithoutGroups(g); }
  }

  // ----- Patterns whose meaning changes -----

  function DigitOf(d: char): int { DigitValue(d, 16) }

  /** `\\x` with one digit, and then a quoted b... */
  function ShortHexB(d: char): Glob { Cons(Num(Hex, [d]), Cons(Lit('b', true), Empty)) }

  function LongHex(d: char): Glob { Cons(Num(Hex, [d, 'b']), Empty) }

  lemma ShortHexRunsOn(d: char)
    requires IsDigit(d, Hex)
    ensures WellFormedNumber(Hex, [d]) && NumberValue(Hex, [d]) == DigitOf(d)
    ensures WellFormedNumber(Hex, [d, 'b']) && NumberValue(Hex, [d, 'b']) == 16 * DigitOf(d) + 11
    ensures Extends(Hex, [d], 'b')
  {
    var v := DigitOf(d);
    assert [d][1..] == "" && [d, 'b'][1..] == "b" && "b"[1..] == "";
    assert Number("", Hex, 1, v) == (v, 0) && Number("", Hex, 0, 16 * v + 11) == (16 * v + 11, 0);
    assert Number("b", Hex, 1, v) == (16 * v + 11, 1);
    assert [d] + ['b'] == [d, 'b'];
  }

  lemma ShortHexTree(d: char, depth: nat)
    requires IsDigit(d, Hex)
    ensures var g := ShortHexB(d);
            && WellFormed(g, depth) && AsRead(g) && Plain(g) && Text(g) == "\\x" + [d] + "\\b"
            && RunsOnOutside(g) && RunsOn(Hex, [d], g.tail) && Fused(g) == LongHex(d)
  {
    ShortHexRunsOn(d);
    var tail := Cons(Lit('b', true), Empty);
    assert Text(Empty) == "" && Text(tail) == "\\b";
    if Extends(Hex, [d], '\\') { ExtendedByDigit(Hex, [d], '\\'); }
    assert RunsOn(Hex, [d], tail);
    assert FusedNumber(Hex, [d, 'b'], Empty) == LongHex(d);
    assert [d] + ['b'] == [d, 'b'];
    var g := ShortHexB(d);
    assert g.tail == tail && NumberText(Hex, [d]) == "\\x" + [d] && Text(g) == "\\x" + [d] + "\\b";
    assert AsRead(tail) && WellFormed(tail, depth) && Fused(g) == FusedNumber(Hex, [d], tail);
  }

  lemma {:induction false} ShortHexEmitted(d: char, mode: Mode)
    ensures EmitGlob(ShortHexB(d), mode, false, true, "") == "\\x" + [d, 'b']
  {
    var tail := Cons(Lit('b', true), Empty);
    assert EmitGlob(tail, mode, false, true, "") == ['b'] + "";
    assert EmitGlob(ShortHexB(d), mode, false, true, "") == NumberText(Hex, [d]) + (['b'] + "");
  }

  lemma {:induction false} ShortHexText(d: char, mode: Mode)
    requires IsDigit(d, Hex)
    ensures Convert("\\x" + [d] + "\\b", false, mode, "").1 == "\\x" + [d, 'b']
  {
    ShortHexTree(d, 0);
    PlainGlobIsCopied(ShortHexB(d));
    ShortHexEmitted(d, mode);
    var text := OutputText(ShortHexB(d), mode, "");
    assert text + "" == text && "" + text == text;
  }

  lemma TwoSymbols(a: int, b: int)
    ensures Concat(iset{[a]}, iset{[b]}) == iset{[a, b]}
  {
    forall w ensures w in Concat(iset{[a]}, iset{[b]}) <==> w in iset{[a, b]} {
      if w == [a, b] {
        assert w[..1] == [a] && w[1..] == [b];
        assert CutAt(iset{[a]}, iset{[b]}, w, 1);
      }
      if k :| CutAt(iset{[a]}, iset{[b]}, w, k) {
        assert w == w[..k] + w[k..];
      }
    }
  }

  lemma {:induction false} ShortHexLang(d: char, mode: Mode, top: bool)
    requires IsDigit(d, Hex)
    ensures GlobLang(ShortHexB(d), mode, Other, top) == iset{[DigitOf(d), 98]}
    ensures GlobLang(LongHex(d), mode, Other, top) == iset{[16 * DigitOf(d) + 11]}
  {
    ShortHexRunsOn(d);
    var v, g, h := DigitOf(d), ShortHexB(d), LongHex(d);
    FirstItem(g, mode, false, Other, top);
    FirstItem(g.tail, mode, false, Other, top);
    FirstItem(h, mode, false, Other, top);
    assert ItemLang(g.head, mode) == iset{[v]} && ItemLang(g.tail.head, mode) == iset{[98]};
    assert ItemLang(h.head, mode) == iset{[16 * v + 11]};
    ConcatUnitRight(iset{[98]});
    ConcatUnitRight(iset{[16 * v + 11]});
    TwoSymbols(v, 98);
  }

  /** ...compile to one byte. With the digit 0, the only one such an escape still has once the name
      has been processed, it is byte 11. */
  lemma {:induction false} QuotedDigitRunsOn(d: char, mode: Mode)
    requires IsDigit(d, Hex)
    ensures var g, text := ShortHexB(d), "\\x" + [d] + "\\b";
            && Text(g) == text && Convert(text, false, mode, "").1 == "\\x" + [d, 'b']
            && GlobLang(g, mode, Other, true) == iset{[DigitOf(d), 98]}
            && CompiledLang(text, mode) == iset{[16 * DigitOf(d) + 11]}
  {
    ShortHexTree(d, 0);
    ShortHexText(d, mode);
    ShortHexLang(d, mode, true);
    CompiledMeaning(ShortHexB(d), mode);
  }

  const ANYTHING := Cons(Wild, Cons(Wild, Empty))

  /** `{\\x1\\b,**}` */
  const HIDDEN := Cons(Group(ShortHexB('1'), Last(ANYTHING)), Empty)

  predicate Positive(w: Word) { forall i :: 0 <= i < |w| ==> 0 < w[i] }

  lemma BothPositive()
    ensures Positive([1, 98]) && Positive([27])
  {
  }

  lemma {:induction false} AnythingMatches(mode: Mode, w: Word)
    requires Positive(w)
    ensures w in GlobLang(ANYTHING, mode, Other, false)
  {
    PairOfStars(Empty, mode, false, false);
    ConcatUnitRight(StarLang(mode, true, false));
  }

  lemma {:induction false} HiddenTree()
    ensures WellFormed(HIDDEN, 0) && AsRead(HIDDEN) && Plain(HIDDEN) && !Clear(HIDDEN)
    ensures Fused(HIDDEN) == Cons(Group(LongHex('1'), Last(ANYTHING)), Empty)
  {
    ShortHexTree('1', 1);
    assert Fused(ANYTHING) == ANYTHING;
    assert FusedBranches(Last(ANYTHING)) == Last(ANYTHING);
  }

  lemma {:induction false} GroupOfTwo(g: Glob, w: Word, mode: Mode)
    requires GlobLang(g, mode, Other, false) == iset{w} && Positive(w)
    ensures GlobLang(Cons(Group(g, Last(ANYTHING)), Empty), mode, Other, true) == GlobLang(ANYTHING, mode, Other, false)
  {
    var i := Group(g, Last(ANYTHING));
    var any := GlobLang(ANYTHING, mode, Other, false);
    AnythingMatches(mode, w);
    FirstItem(Cons(i, Empty), mode, false, Other, true);
    GroupLang(i, mode);
    assert BranchLang(Last(ANYTHING), mode) == any;
    assert iset{w} + any == any;
    ConcatUnitRight(any);
  }

  lemma {:induction false} SameGroups(a: Glob, u: Word, b: Glob, v: Word, mode: Mode)
    requires GlobLang(a, mode, Other, false) == iset{u} && Positive(u)
    requires GlobLang(b, mode, Other, false) == iset{v} && Positive(v)
    ensures GlobLang(Cons(Group(a, Last(ANYTHING)), Empty), mode, Other, true)
         == GlobLang(Cons(Group(b, Last(ANYTHING)), Empty), mode, Other, true)
  {
    GroupOfTwo(a, u, mode);
    GroupOfTwo(b, v, mode);
  }

  lemma {:induction false} HiddenLang(mode: Mode)
    ensures GlobLang(Cons(Group(LongHex('1'), Last(ANYTHING)), Empty), mode, Other, true)
         == GlobLang(HIDDEN, mode, Other, true)
  {
    ShortHexLang('1', mode, false);
    BothPositive();
    SameGroups(ShortHexB('1'), [1, 98], LongHex('1'), [27], mode);
  }

  /** In a group, another branch can match both what was meant and what was made of it. */
  lemma {:induction false} GroupsMayHideIt(mode: Mode)
    ensures WellFormed(HIDDEN, 0) && AsRead(HIDDEN) && Plain(HIDDEN) && !Clear(HIDDEN)
    ensures CompiledLang(Text(HIDDEN), mode) == GlobLang(HIDDEN, mode, Other, true)
  {
    HiddenTree();
    CompiledMeaning(HIDDEN, mode);
    HiddenLang(mode);
  }

  // ----- Classes whose meaning changes -----

  /** `[\\^a]` is compiled like `[^a]`. */
  lemma QuotedCaretNegates()
    ensures var body := [Quoted('^'), Raw('a')];
            Unquoted(body) == [Raw('^'), Raw('a')] && PlainClass(Unquoted(body)) && !SameUnquoted(body)
  {
    var body := [Quoted('^'), Raw('a')];
    assert body[1..] == [Raw('a')] && [Raw('a')][1..] == [];
    assert Unquoted([Raw('a')]) == [Raw('a')];
    assert Unquoted(body)[1..] == [Raw('a')];
  }

  /** `[a\\-z]` is compiled like `[a-z]`, and `[,\\-.]` like `[,-.]`, which happens to have the same members. */
  lemma QuotedDashIsRange(a: char, z: char)
    requires Ordinary(Raw(a)) && Ordinary(Raw(z)) && a != '^' && z != '^' && a < z
    ensures var body := [Raw(a), Quoted('-'), Raw(z)];
            && Unquoted(body) == [Raw(a), Raw('-'), Raw(z)] && PlainClass(Unquoted(body))
            && (SameUnquoted(body) <==> a == ',' && z == '.')
  {
    var body, u, tail := [Raw(a), Quoted('-'), Raw(z)], [Raw(a), Raw('-'), Raw(z)], [Quoted('-'), Raw(z)];
    assert body[1..] == tail && tail[1..] == [Raw(z)] && [Raw(z)][1..] == [] && u[3..] == [];
    DashUnquoted(a, z);
    assert OrdinaryMembers([]) && MemberSet([]) == {};
    assert MemberSet(u) == Range(a as int, z as int) + {};
    assert MemberSet([Raw(z)]) == {z as int} + {};
    assert MemberSet(tail) == {'-' as int} + ({z as int} + {});
    assert MemberSet(body) == {a as int} + ({'-' as int} + ({z as int} + {}));
    DashInRange(a as int, z as int);
  }

  lemma DashUnquoted(a: char, z: char)
    requires a != '^' && a != '-' && z != '^' && z != '-'
    ensures Unquoted([Raw(a), Quoted('-'), Raw(z)]) == [Raw(a), Raw('-'), Raw(z)]
  {
    var body, tail := [Raw(a), Quoted('-'), Raw(z)], [Quoted('-'), Raw(z)];
    assert body[1..] == tail && tail[1..] == [Raw(z)] && [Raw(z)][1..] == [];
    assert Unquoted([Raw(z)]) == [Raw(z)];
    assert Unquoted(tail) == [Raw('-'), Raw(z)];
  }

  /** A range has three members, one of them the dash, only around the dash. */
  lemma DashInRange(a: int, z: int)
    requires a < z && a != 45 && z != 45
    ensures Range(a, z) == {a, 45, z} <==> a == 44 && z == 46
  {
    var r := Range(a, z);
    if r == {a, 45, z} {
      assert 45 in r && a + 1 in r;
      assert a + 2 <= z ==> a + 2 in r;
    }
  }

  /** No quoted dash stands where a bare one would make a range of its neighbours. */
  predicate DashesStay(ms: seq<ClassPiece>)
  {
    if |ms| < 3 then true
    else if ms[1] == Raw('-') then DashesStay(ms[3..])
    else ms[1] != Quoted('-') && DashesStay(ms[1..])
  }

  lemma {:induction false} SameMembers(ms: seq<ClassPiece>)
    requires DashesStay(ms)
    ensures MemberSet(Unquoted(ms)) == MemberSet(ms)
    decreases |ms|
  {
    if ms != [] {
      var u := Unquoted(ms);
      UnquotedLength(ms);
      assert u[1..] == Unquoted(ms[1..]) && MemberValue(u[0]) == MemberValue(ms[0]);
      if |ms| >= 3 && ms[1] == Raw('-') {
        UnquotedThird(ms);
        SameMembers(ms[3..]);
      } else {
        if |ms| >= 3 { UnquotedThird(ms); }
        SameMembers(ms[1..]);
      }
    }
  }

  lemma UnquotedThird(ms: seq<ClassPiece>)
    requires |ms| >= 3
    ensures var u := Unquoted(ms);
            |u| == |ms| && u[3..] == Unquoted(ms[3..]) && MemberValue(u[2]) == MemberValue(ms[2])
            && (u[1] == Raw('-') <==> IsDash(ms[1]))
  {
    var u, t, v := Unquoted(ms), ms[1..], Unquoted(ms[1..]);
    UnquotedLength(ms);
    assert t[1..] == ms[2..] && ms[2..][1..] == ms[3..];
    assert u[1..] == v && v[1..] == Unquoted(ms[2..]) && Unquoted(ms[2..])[1..] == Unquoted(ms[3..]);
    assert u[1] == v[0] && u[2] == v[1] == Unquoted(ms[2..])[0] && u[3..] == v[2..] == Unquoted(ms[2..])[1..];
  }

  /** A class changes when a quoted caret comes first, and only then or when a quoted dash stands in a range. */
  lemma {:induction false} QuotesThatChange(body: seq<ClassPiece>)
    ensures body != [] && body[0] == Quoted('^') ==> !SameUnquoted(body)
    ensures (body == [] || body[0] != Quoted('^')) && DashesStay(Members(body)) ==> SameUnquoted(body)
  {
    if body != [] && body[0] != Quoted('^') && DashesStay(Members(body)) {
      assert Unquoted(body)[1..] == Unquoted(body[1..]);
      SameMembers(Members(body));
    }
  }

  /** `[-a\\-a]`: in a range a quoted dash need not change the class, when the other members make up for it. */
  const DASHED := [Raw('-'), Raw('a'), Quoted('-'), Raw('a')]

  lemma DashedMembers()
    ensures MemberSet(DASHED) == {97, 45} && !DashesStay(DASHED)
  {
    var s, t, v := DASHED[1..], [Quoted('-'), Raw('a')], [Raw('a')];
    assert s == [Raw('a'), Quoted('-'), Raw('a')] && s[1..] == t && t[1..] == v && v[1..] == [];
    assert MemberSet(v) == {97} && MemberSet(t) == {45, 97} && MemberSet(s) == {97, 45};
  }

  lemma RangedMembers()
    ensures var u := [Raw('-'), Raw('a'), Raw('-'), Raw('a')];
            PlainClass(u) && MemberSet(u) == {97, 45}
  {
    var u, t := [Raw('-'), Raw('a'), Raw('-'), Raw('a')], [Raw('a'), Raw('-'), Raw('a')];
    assert u[1..] == t && t[3..] == [] && MemberSet([]) == {};
    assert MemberSet(t) == Range(97, 97) + {} && Range(97, 97) == {97};
    assert OrdinaryMembers([]) && OrdinaryMembers(t);
  }

  lemma QuotedDashMayNotMatter()
    ensures PlainClass(Unquoted(DASHED)) && !DashesStay(DASHED) && SameUnquoted(DASHED)
  {
    DashedMembers();
    RangedMembers();
    DashUnquoted('a', 'a');
    assert DASHED[1..] == [Raw('a'), Quoted('-'), Raw('a')];
    assert Unquoted(DASHED) == [Raw('-')] + [Raw('a'), Raw('-'), Raw('a')];
  }

  // ----- Empty classes, and classes with wildcards -----

  /** A class without members takes the bracket that ends it for one, and goes on. */
  lemma {:induction false} EmptyClassGoesOn(ms: seq<ClassPiece>, rest: string)
    requires OrdinaryMembers(ms)
    ensures var text := ['['] + ([']'] + ClosedClass(ms, rest));
            Lex(text).Tok? && ParseTerm(Lex(text)) == Ok(CharSet({']' as int} + MemberSet(ms)), Lex(rest))
  {
    var text := ClosedClass(ms, rest);
    LexPlain(']', text);
    LexPlain('[', [']'] + text);
    NoDashAhead(ms, rest);
    ParseMembers(ms, rest, {} + {']' as int});
    assert {} + {']' as int} + MemberSet(ms) == {']' as int} + MemberSet(ms);
  }

  /** `[]x[y]`. */
  const EMPTY_CLASS := Cons(Class([]), Cons(Lit('x', false), Cons(Class([Raw('y')]), Empty)))

  lemma EmptyClassTree()
    ensures WellFormed(EMPTY_CLASS, 0) && AsRead(EMPTY_CLASS) && CopiedClasses(EMPTY_CLASS)
    ensures Text(EMPTY_CLASS) == "[]x[y]"
  {
    var y := Cons(Class([Raw('y')]), Empty);
    var x := Cons(Lit('x', false), y);
    assert [Raw('y')][1..] == [] && ClassText([Raw('y')]) == "y" && ClassText([]) == "";
    assert Text(Empty) == "" && Text(y) == "[y]" && Text(x) == "x[y]";
    assert WellFormed(y, 0) && AsRead(y) && CopiedClasses(y);
    assert WellFormed(x, 0) && AsRead(x) && CopiedClasses(x);
  }

  lemma EmptyClassEmitted(mode: Mode)
    ensures EmitGlob(EMPTY_CLASS, mode, false, true, "")
         == ['['] + ([']'] + ClosedClass([Raw('x'), Raw('['), Raw('y')], ""))
  {
    var y := Cons(Class([Raw('y')]), Empty);
    var x := Cons(Lit('x', false), y);
    var text := ['['] + (['y'] + ([']'] + ""));
    assert [Raw('y')][1..] == [] && EmitClass([Raw('y')], [']'] + "") == ['y'] + ([']'] + "");
    assert EmitGlob(y, mode, false, true, "") == text;
    assert EmitGlob(x, mode, false, true, "") == ['x'] + text;
    var ms := [Raw('x'), Raw('['), Raw('y')];
    assert ms[1..] == [Raw('['), Raw('y')] && ms[1..][1..] == [Raw('y')];
    assert EmitClass(ms[1..], [']'] + "") == text && ClosedClass(ms, "") == ['x'] + text;
  }

  lemma {:induction false} EmptyClassMatches(text: string)
    requires text == ['['] + ([']'] + ClosedClass([Raw('x'), Raw('['), Raw('y')], ""))
    ensures ReadRegex(text).Ok? && ['x' as int] in Lang(ReadRegex(text).value)
  {
    var ms := [Raw('x'), Raw('['), Raw('y')];
    var e := CharSet({']' as int} + MemberSet(ms));
    assert ms[1..] == [Raw('['), Raw('y')] && ms[1..][1..] == [Raw('y')] && ms[1..][1..][1..] == [];
    assert OrdinaryMembers(ms[1..]) && OrdinaryMembers(ms) && MemberSet(ms) == {'x' as int} + MemberSet(ms[1..]);
    EmptyClassGoesOn(ms, "");
    assert Lex("") == End;
    TermStep(Eps, Lex(text), e, End);
    ReadBack(text, e);
    assert Matches(e, ['x' as int]);
  }

  lemma NothingInEmptyClass(g: Glob, mode: Mode)
    requires g.Cons? && g.head == Class([])
    ensures GlobLang(g, mode, Other, true) == iset{}
  {
    var a, b := ItemLang(g.head, mode), GlobLang(g.tail, mode, Other, true);
    assert forall w :: w !in a;
    assert forall w :: w !in Concat(a, b);
  }

  /** `[]x[y]` is read as one class, though as a glob it matches nothing. */
  lemma {:induction false} EmptyClassesMerge(mode: Mode)
    ensures WellFormed(EMPTY_CLASS, 0) && AsRead(EMPTY_CLASS) && Text(EMPTY_CLASS) == "[]x[y]"
    ensures Convert("[]x[y]", false, mode, "").0 != Invalid
    ensures GlobLang(EMPTY_CLASS, mode, Other, true) == iset{}
    ensures ['x' as int] in CompiledLang("[]x[y]", mode)
  {
    EmptyClassTree();
    NothingInEmptyClass(EMPTY_CLASS, mode);
    EmptyClassEmitted(mode);
    var text := OutputText(EMPTY_CLASS, mode, "");
    assert "" + text == text == text + "" == EmitGlob(EMPTY_CLASS, mode, false, true, "");
    EmptyClassMatches(text);
  }

  /** `[]` is accepted, and the regex reader fails on it. */
  lemma {:induction false} EmptyClassIsUnreadable(mode: Mode)
    ensures Convert("[]", false, mode, "").0 != Invalid && ReadRegex(Convert("[]", false, mode, "").1) == Fail
  {
    var g := Cons(Class([]), Empty);
    assert ClassText([]) == "" && Text(Empty) == "" && Text(g) == "[]";
    var text := OutputText(g, mode, "");
    assert "" + text == text == text + "" == EmitGlob(g, mode, false, true, "");
    assert EmitClass([], [']'] + "") == [']'] + "" && text == ['['] + ([']'] + "");
    NoSecondBracket(text);
  }

  lemma NoSecondBracket(text: string)
    requires text == ['['] + ([']'] + "")
    ensures ReadRegex(text) == Fail
  {
    LexPlain(']', "");
    LexPlain('[', [']'] + "");
    assert Lex("") == End && ParseClass(End, {} + {']' as int}) == Fail;
    FailedTerm(Eps, Lex(text));
  }

  lemma DenotedAlone(text: string, l: Language)
    requires Denotes(text, l)
    ensures ReadRegex(text).Ok? && Lang(ReadRegex(text).value) == l
  {
    assert text + "" == text && Lex("") == End;
    assert AddsTo(Eps, text, "", l);
    var e :| ParseTerms(Eps, Lex(text + "")) == ParseTerms(e, Lex("")) && Lang(e) == Concat(Lang(Eps), l);
    ReadBack(text, e);
    FromEmpty(l);
  }

  lemma UnreadableAlone(text: string)
    requires Unreadable(text)
    ensures ReadRegex(text) == Fail
  {
    assert text + "" == text;
    assert ParseTerms(Eps, Lex(text + "")) == Fail;
  }

  /** Every word that a class with a wildcard matches ends in the bracket that should have ended the class. */
  lemma {:induction false} StarInClassIsExpanded(ms: seq<ClassPiece>, ws: seq<ClassPiece>, mode: Mode, w: Word)
    requires AllCopied(ms) && ws != [] && IsWildcard(ws[0]) && EndsClass(ms, ws, mode)
    requires AllScanned(ws) && Loose(Left(ms, ws))
    requires w in CompiledLang("[" + ClassText(ms + ws) + "]", mode)
    ensures EndsInBracket(w)
  {
    var text := WildcardEndsClass(ms, ws, mode, "");
    assert "" + text == text;
    if PlainClass(Shut(ms, ws, mode)) {
      DenotedAlone(text, WildcardLang(ms, ws, mode));
      WildcardWordsEndInBracket(ms, ws, mode, w);
    } else {
      UnreadableAlone(text);
    }
  }
}
