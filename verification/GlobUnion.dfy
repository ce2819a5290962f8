/**
 A group in a glob against the globs with one branch each in its place: what rewriting a name with an alternation
 comes to when the name is compiled.
 */
module GlobUnion {
  import opened Strings
  import opened Regex
  import opened GlobScanner
  import opened GlobGrammar
  import opened GlobMeaning
  import opened GlobReadBack
  import opened GlobParse
  import opened GlobTheorem
  import opened GlobChanges

  function Append(g: Glob, h: Glob): Glob
  {
    match g
    case Empty => h
    case Cons(i, tail) => Cons(i, Append(tail, h))
  }

  lemma {:induction false} AppendedText(g: Glob, h: Glob)
    ensures Text(Append(g, h)) == Text(g) + Text(h)
  {
    match g
    case Empty =>
    case Cons(i, tail) =>
      AppendedText(tail, h);
      Shift(ItemText(i), Text(tail), Text(h));
  }

  predicate StarFirst(g: Glob) { g.Cons? && g.head.Wild? }

  predicate StarLast(g: Glob) { g.Cons? && if g.tail.Empty? then g.head.Wild? else StarLast(g.tail) }

  /** A branch that no star begins or ends. */
  predicate Firm(g: Glob) { !StarFirst(g) && !StarLast(g) }

  predicate BranchOf(b: Glob, bs: Branches) { b == bs.b || (bs.Next? && BranchOf(b, bs.rest)) }

  // ----- Joining globs -----

  lemma {:induction false} EndsWithin(g: Glob, h: Glob, top: bool)
    requires g.Cons? && !StarLast(g)
    ensures ComponentEnds(Append(g, h), top) == ComponentEnds(g, false)
    decreases g
  {
    if g.head.Wild? { EndsWithin(g.tail, h, top); }
  }

  /** What stands in front of a glob matters to the stars it begins with. */
  lemma {:induction false} AnyBefore(g: Glob, mode: Mode, before: Before, top: bool)
    requires !StarFirst(g)
    ensures GlobLang(g, mode, before, top) == GlobLang(g, mode, Other, top)
  {
    if g.Cons? {
      FirstItem(g, mode, false, before, top);
      FirstItem(g, mode, false, Other, top);
    }
  }

  /** The words of two globs between which no star stands. */
  lemma {:induction false} AppendedLang(g: Glob, h: Glob, mode: Mode, before: Before, top: bool)
    requires !StarLast(g) && !StarFirst(h)
    ensures GlobLang(Append(g, h), mode, before, top)
         == Concat(GlobLang(g, mode, before, false), GlobLang(h, mode, Other, top))
    decreases g
  {
    if g.Empty? {
      AnyBefore(h, mode, before, top);
      ConcatUnitLeft(GlobLang(h, mode, Other, top));
    } else {
      var next := if g.head.Wild? then Stars else After(g.head);
      AppendedLang(g.tail, h, mode, next, top);
      var a := HeadAlike(g, h, mode, before, top);
      ConcatAssoc(a, GlobLang(g.tail, mode, next, false), GlobLang(h, mode, Other, top));
    }
  }

  lemma {:induction false} HeadAlike(g: Glob, h: Glob, mode: Mode, before: Before, top: bool) returns (a: Language)
    requires g.Cons? && !StarLast(g)
    ensures var next := if g.head.Wild? then Stars else After(g.head);
            && GlobLang(g, mode, before, false) == Concat(a, GlobLang(g.tail, mode, next, false))
            && GlobLang(Append(g, h), mode, before, top) == Concat(a, GlobLang(Append(g.tail, h), mode, next, top))
  {
    if g.head.Wild? {
      EndsWithin(g.tail, h, top);
      a := RunLang(g, mode, before, false);
      RunFirst(g, mode, before, false);
      RunFirst(Append(g, h), mode, before, top);
    } else {
      a := ItemLang(g.head, mode);
      FirstItem(g, mode, false, before, false);
      FirstItem(Append(g, h), mode, false, before, top);
    }
  }

  // ----- A group -----

  /** One of the branches in the place of the group. */
  ghost predicate MatchedByOne(l: Glob, bs: Branches, r: Glob, mode: Mode, w: Word)
  {
    exists b :: BranchOf(b, bs) && w in GlobLang(Append(l, Append(b, r)), mode, Other, true)
  }

  predicate AllFirm(bs: Branches) { Firm(bs.b) && (bs.Next? ==> AllFirm(bs.rest)) }

  ghost predicate OneMatches(bs: Branches, mode: Mode, w: Word)
  {
    exists b :: BranchOf(b, bs) && w in GlobLang(b, mode, Other, false)
  }

  lemma {:induction false} BranchWords(bs: Branches, mode: Mode, w: Word)
    ensures w in BranchLang(bs, mode) <==> OneMatches(bs, mode, w)
    decreases bs
  {
    assert BranchOf(bs.b, bs);
    if bs.Next? {
      BranchWords(bs.rest, mode, w);
      assert w in BranchLang(bs, mode) <==>
          w in GlobLang(bs.b, mode, Other, false) || w in BranchLang(bs.rest, mode);
      if OneMatches(bs.rest, mode, w) {
        var b :| BranchOf(b, bs.rest) && w in GlobLang(b, mode, Other, false);
        assert BranchOf(b, bs);
      }
      if OneMatches(bs, mode, w) {
        var b :| BranchOf(b, bs) && w in GlobLang(b, mode, Other, false);
        if b != bs.b { assert BranchOf(b, bs.rest); }
      }
    } else {
      assert BranchLang(bs, mode) == GlobLang(bs.b, mode, Other, false);
    }
  }

  lemma {:induction false} FirmBranch(b: Glob, bs: Branches)
    requires AllFirm(bs) && BranchOf(b, bs)
    ensures Firm(b)
    decreases bs
  {
    if b != bs.b { FirmBranch(b, bs.rest); }
  }

  lemma {:induction false} StarFirstAppended(b: Glob, r: Glob)
    requires !StarFirst(b) && !StarFirst(r)
    ensures !StarFirst(Append(b, r))
  {
  }

  ghost function Around(l: Glob, mid: Language, r: Glob, mode: Mode): Language
  {
    Concat(GlobLang(l, mode, Other, false), Concat(mid, GlobLang(r, mode, Other, true)))
  }

  lemma {:induction false} InPlace(l: Glob, b: Glob, r: Glob, mode: Mode)
    requires !StarLast(l) && Firm(b) && !StarFirst(r)
    ensures GlobLang(Append(l, Append(b, r)), mode, Other, true) == Around(l, GlobLang(b, mode, Other, false), r, mode)
  {
    StarFirstAppended(b, r);
    AppendedLang(l, Append(b, r), mode, Other, true);
    AppendedLang(b, r, mode, Other, true);
  }

  lemma GroupInPlace(l: Glob, first: Glob, more: Branches, r: Glob, mode: Mode)
    requires !StarLast(l) && !StarFirst(r)
    ensures GlobLang(Append(l, Cons(Group(first, more), r)), mode, Other, true)
         == Around(l, BranchLang(Next(first, more), mode), r, mode)
  {
    var g := Cons(Group(first, more), r);
    AppendedLang(l, g, mode, Other, true);
    FirstItem(g, mode, false, Other, true);
    GroupLang(g.head, mode);
  }

  lemma AroundWord(l: Glob, mid: Language, r: Glob, mode: Mode, w: Word) returns (v: Word)
    requires w in Around(l, mid, r, mode)
    ensures v in mid && forall other: Language :: v in other ==> w in Around(l, other, r, mode)
  {
    var a, c := GlobLang(l, mode, Other, false), GlobLang(r, mode, Other, true);
    var k :| CutAt(a, Concat(mid, c), w, k);
    var x := w[k..];
    var j :| CutAt(mid, c, x, j);
    v := x[..j];
    forall other: Language | v in other ensures w in Around(l, other, r, mode) {
      assert CutAt(other, c, x, j);
      assert x in Concat(other, c);
      assert CutAt(a, Concat(other, c), w, k);
    }
  }

  /** A group matches what one of its branches matches in its place, when no star stands at an edge of a branch or next
      to the group. */
  lemma {:induction false} GroupIsUnion(l: Glob, first: Glob, more: Branches, r: Glob, mode: Mode, w: Word)
    requires !StarLast(l) && !StarFirst(r) && AllFirm(Next(first, more))
    ensures w in GlobLang(Append(l, Cons(Group(first, more), r)), mode, Other, true) <==>
      MatchedByOne(l, Next(first, more), r, mode, w)
  {
    var bs := Next(first, more);
    GroupInPlace(l, first, more, r, mode);
    if w in Around(l, BranchLang(bs, mode), r, mode) {
      var v := AroundWord(l, BranchLang(bs, mode), r, mode, w);
      BranchWords(bs, mode, v);
      var b :| BranchOf(b, bs) && v in GlobLang(b, mode, Other, false);
      FirmBranch(b, bs);
      InPlace(l, b, r, mode);
    }
    if b :| BranchOf(b, bs) && w in GlobLang(Append(l, Append(b, r)), mode, Other, true) {
      FirmBranch(b, bs);
      InPlace(l, b, r, mode);
      var v := AroundWord(l, GlobLang(b, mode, Other, false), r, mode, w);
      BranchWords(bs, mode, v);
    }
  }

  // ----- Compiled -----

  /** What compiling keeps exactly: the regex reader reads the classes, no number runs on and no class changes. */
  predicate Kept(g: Glob) { WellFormed(g, 0) && AsRead(g) && Plain(g) && Clear(g) }

  lemma {:induction false} KeptMeaning(g: Glob, mode: Mode)
    requires Kept(g)
    ensures CompiledLang(Text(g), mode) == GlobLang(g, mode, Other, true)
  {
    CompiledMeaning(g, mode);
    ClearMeansSame(g, mode, Other, true);
  }

  ghost predicate CompiledByOne(l: Glob, bs: Branches, r: Glob, mode: Mode, w: Word)
  {
    exists b :: BranchOf(b, bs) && w in CompiledLang(Text(l) + Text(b) + Text(r), mode)
  }

  lemma OneText(l: Glob, b: Glob, r: Glob)
    ensures Text(Append(l, Append(b, r))) == Text(l) + Text(b) + Text(r)
  {
    AppendedText(l, Append(b, r));
    AppendedText(b, r);
  }

  lemma GroupText(l: Glob, first: Glob, more: Branches, r: Glob)
    ensures Text(Append(l, Cons(Group(first, more), r)))
         == Text(l) + ("{" + Text(first) + "," + BranchText(more) + "}") + Text(r)
  {
    var g := Cons(Group(first, more), r);
    AppendedText(l, g);
    Shift(Text(l), ItemText(g.head), Text(r));
  }

  /** A rewritten name, compiled, matches what the names with one value each match when they are compiled. */
  lemma {:induction false} CompiledUnion(l: Glob, first: Glob, more: Branches, r: Glob, mode: Mode, w: Word)
    requires !StarLast(l) && !StarFirst(r) && AllFirm(Next(first, more))
    requires Kept(Append(l, Cons(Group(first, more), r)))
    requires forall b :: BranchOf(b, Next(first, more)) ==> Kept(Append(l, Append(b, r)))
    ensures w in CompiledLang(Text(l) + ("{" + Text(first) + "," + BranchText(more) + "}") + Text(r), mode) <==>
      CompiledByOne(l, Next(first, more), r, mode, w)
  {
    var bs, g := Next(first, more), Cons(Group(first, more), r);
    GroupText(l, first, more, r);
    KeptMeaning(Append(l, g), mode);
    GroupIsUnion(l, first, more, r, mode, w);
    forall b | BranchOf(b, bs)
      ensures CompiledLang(Text(l) + Text(b) + Text(r), mode) == GlobLang(Append(l, Append(b, r)), mode, Other, true)
    {
      OneText(l, b, r);
      KeptMeaning(Append(l, Append(b, r)), mode);
    }
  }

  // ----- Stars at the edge of a branch -----

  const DIRECTORY := Cons(Lit('x', false), Cons(Lit('/', false), Empty))
  const A_STAR := Cons(Wild, Empty)
  const A_B := Cons(Lit('b', false), Empty)

  lemma DirectoryLang(h: Glob, mode: Mode, top: bool)
    ensures GlobLang(Append(DIRECTORY, h), mode, Other, top)
         == Concat(Lang(Chr('x' as int)), Concat(Lang(Chr('/' as int)), GlobLang(h, mode, Slash, top)))
  {
    var t := Cons(Lit('/', false), h);
    assert Append(DIRECTORY.tail, h) == t && Append(DIRECTORY, h) == Cons(Lit('x', false), t);
    FirstItem(Cons(Lit('x', false), t), mode, false, Other, top);
    FirstItem(t, mode, false, Other, top);
    assert ItemLang(Lit('x', false), mode) == Lang(Chr('x' as int));
    assert ItemLang(Lit('/', false), mode) == Lang(Chr('/' as int));
  }

  /** Nothing behind `x/`. */
  lemma NothingBehind(l: Language)
    ensures ['x' as int, '/' as int] in Concat(Lang(Chr('x' as int)), Concat(Lang(Chr('/' as int)), l)) <==> [] in l
  {
    var a, b := Lang(Chr('x' as int)), Lang(Chr('/' as int));
    var w: Word := ['x' as int, '/' as int];
    assert w[1..] == ['/' as int] && w[..1] == ['x' as int];
    if w in Concat(a, Concat(b, l)) {
      var k :| CutAt(a, Concat(b, l), w, k);
      assert k == 1;
      var j :| CutAt(b, l, w[1..], j);
      assert j == 1 && w[1..][1..] == [];
    }
    if [] in l {
      assert w[1..][..1] == ['/' as int] && w[1..][1..] == [];
      assert CutAt(b, l, w[1..], 1);
      assert CutAt(a, Concat(b, l), w, 1);
    }
  }

  /** Behind `x/`, the group `{*,b}` matches nothing at all, which neither `*` nor `b` does there: in a group a star
      does not fill a component. */
  lemma {:induction false} StarInBranchFillsNothing(mode: Mode)
    ensures var w: Word := ['x' as int, '/' as int];
            && w in GlobLang(Append(DIRECTORY, Cons(Group(A_STAR, Last(A_B)), Empty)), mode, Other, true)
            && w !in GlobLang(Append(DIRECTORY, A_STAR), mode, Other, true)
            && w !in GlobLang(Append(DIRECTORY, A_B), mode, Other, true)
  {
    var g := Cons(Group(A_STAR, Last(A_B)), Empty);
    DirectoryLang(g, mode, true);
    DirectoryLang(A_STAR, mode, true);
    DirectoryLang(A_B, mode, true);
    NothingBehind(GlobLang(g, mode, Slash, true));
    NothingBehind(GlobLang(A_STAR, mode, Slash, true));
    NothingBehind(GlobLang(A_B, mode, Slash, true));
    EmptyInGroup(g, mode);
    NotEmptyAlone(mode);
  }

  lemma {:induction false} EmptyInGroup(g: Glob, mode: Mode)
    requires g == Cons(Group(A_STAR, Last(A_B)), Empty)
    ensures [] in GlobLang(g, mode, Slash, true)
  {
    FirstItem(g, mode, false, Slash, true);
    GroupLang(g.head, mode);
    ConcatUnitRight(ItemLang(g.head, mode));
    RunFirst(A_STAR, mode, Other, false);
    ConcatUnitRight(StarLang(mode, false, false));
    var w: Word := [];
    assert w in StarLang(mode, false, false);
  }

  lemma {:induction false} NotEmptyAlone(mode: Mode)
    ensures [] !in GlobLang(A_STAR, mode, Slash, true) && [] !in GlobLang(A_B, mode, Slash, true)
  {
    RunFirst(A_STAR, mode, Slash, true);
    ConcatUnitRight(StarLang(mode, false, true));
    FirstItem(A_B, mode, false, Slash, true);
    ConcatUnitRight(ItemLang(A_B.head, mode));
  }
}
