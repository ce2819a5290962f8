/**
 What a glob matches, and the text the scanner emits for its literals.
 */
module GlobMeaning {
  import opened Regex
  import opened GlobScanner
  import opened GlobGrammar

  // ----- The meaning of a glob -----

  const SLASH: int := '/' as int

  /** A symbol wildcards may match... */
  predicate Wildcard(mode: Mode, x: int) { 0 <= x && (mode == Default ==> x != 0) }

  /** ...and one that stays inside a path component. */
  predicate Segment(mode: Mode, x: int) { Wildcard(mode, x) && x != SLASH }

  /** What stands to the left of an item. */
  datatype Before = Slash | Stars | Other

  /** The run of stars in front of `g` is over, and a path component with it. */
  predicate ComponentEnds(g: Glob, top: bool)
  {
    match g
    case Empty => top
    case Cons(Wild, tail) => ComponentEnds(tail, top)
    case Cons(i, _) => i == Lit('/', false)
  }

  /** One star matches within a component, several match anything. A run that
      fills a component matches at least one character there. */
  ghost function StarLang(mode: Mode, several: bool, fills: bool): Language
  {
    iset w: Word |
      && (fills ==> w != [] && Segment(mode, w[0]))
      && (forall i :: 0 <= i < |w| ==> if several then Wildcard(mode, w[i]) else Segment(mode, w[i]))
  }

  /** `top` says that the pattern ends where `g` does. */
  ghost function GlobLang(g: Glob, mode: Mode, before: Before, top: bool): Language
  {
    match g
    case Empty => Unit()
    case Cons(Wild, tail) =>
      var several := tail.Cons? && tail.head.Wild?;
      Concat(if before == Stars then Unit()
             else StarLang(mode, several, before == Slash && ComponentEnds(tail, top)),
             GlobLang(tail, mode, Stars, top))
    case Cons(i, tail) =>
      Concat(ItemLang(i, mode), GlobLang(tail, mode, After(i), top))
  }

  /** A slash is seen in the text, so a numeric escape does not count as one. */
  function After(i: Item): Before
  {
    if i.Lit? && i.c == '/' then Slash else Other
  }

  ghost function ItemLang(i: Item, mode: Mode): Language
  {
    match i
    case Lit(c, quoted) => iset{[LiteralValue(c, quoted)]}
    case Num(radix, digits) => iset{[NumberValue(radix, digits) as int]}
    case Wild => StarLang(mode, false, false)
    case Quest => iset w: Word | |w| == 1 && Segment(mode, w[0])
    case Class(body) => iset w: Word | |w| == 1 && 0 <= w[0] && InClass(body, w[0])
    case Group(first, more) => GlobLang(first, mode, Other, false) + BranchLang(more, mode)
  }

  ghost function BranchLang(bs: Branches, mode: Mode): Language
  {
    match bs
    case Last(b) => GlobLang(b, mode, Other, false)
    case Next(b, rest) => GlobLang(b, mode, Other, false) + BranchLang(rest, mode)
  }

  function NumberValue(r: Radix, digits: string): nat { Digits(r, digits).0 }

  /** C escapes; any other quoted character stands for itself. */
  function LiteralValue(c: char, quoted: bool): int
  {
    if !quoted then c as int
    else match c
      case 'a' => 7
      case 'e' => 27
      case 'f' => 12
      case 'n' => 10
      case 'r' => 13
      case 't' => 9
      case _ => c as int
  }

  /** A piece of a class that the scanner copies or escapes, character by character. */
  predicate Copied(p: ClassPiece)
  {
    if p.Quoted? then !StartsNumber(p.c) else p.c != '\\' && p.c != '*' && p.c != '?' && p.c != ']'
  }

  predicate AllCopied(ms: seq<ClassPiece>) { forall i :: 0 <= i < |ms| ==> Copied(ms[i]) }

  predicate IsDash(p: ClassPiece) { p.c == '-' }

  /** A piece that is a member wherever it stands. Commas keep a quote that the regex
      reader does not know, and dashes lose theirs. */
  predicate Ordinary(p: ClassPiece)
  {
    Copied(p) && !IsDash(p) && p != Quoted(',')
  }

  /** Members and ranges; a range has a bare dash between its ends. */
  predicate OrdinaryMembers(ms: seq<ClassPiece>)
  {
    if ms == [] then true
    else if !Ordinary(ms[0]) then false
    else if |ms| >= 3 && ms[1] == Raw('-') then Ordinary(ms[2]) && OrdinaryMembers(ms[3..])
    else OrdinaryMembers(ms[1..])
  }

  predicate Negated(body: seq<ClassPiece>) { body != [] && body[0] == Raw('^') }

  function Members(body: seq<ClassPiece>): seq<ClassPiece>
  {
    if Negated(body) then body[1..] else body
  }

  /** Members and ranges, of which the first may begin with a dash. */
  predicate MembersAfterDash(ms: seq<ClassPiece>)
  {
    if ms == [] || !IsDash(ms[0]) then OrdinaryMembers(ms)
    else if |ms| >= 3 && ms[1] == Raw('-') then Ordinary(ms[2]) && OrdinaryMembers(ms[3..])
    else OrdinaryMembers(ms[1..])
  }

  /** A class with members, all ordinary. A dash may come first, as a member or as the start of a range.
      Behind the `^` of a negated class another one may not start a range. */
  predicate PlainClass(body: seq<ClassPiece>)
  {
    var ms := Members(body);
    ms != [] && if ms[0].c == '^' then Negated(body) && OrdinaryMembers(ms[1..]) else MembersAfterDash(ms)
  }

  /** In a class, carets and dashes lose their quotes. */
  function Unquoted(body: seq<ClassPiece>): seq<ClassPiece>
  {
    if body == [] then []
    else [if body[0].c == '^' || IsDash(body[0]) then Raw(body[0].c) else body[0]] + Unquoted(body[1..])
  }

  /** The class has the same members all the same. */
  predicate SameUnquoted(body: seq<ClassPiece>)
  {
    Negated(Unquoted(body)) == Negated(body) && MemberSet(Members(Unquoted(body))) == MemberSet(Members(body))
  }

  function MemberValue(p: ClassPiece): int { LiteralValue(p.c, p.Quoted?) }

  function MemberSet(ms: seq<ClassPiece>): set<int>
  {
    if ms == [] then {}
    else if |ms| >= 3 && ms[1] == Raw('-') then Range(MemberValue(ms[0]), MemberValue(ms[2])) + MemberSet(ms[3..])
    else {MemberValue(ms[0])} + MemberSet(ms[1..])
  }

  predicate InClass(body: seq<ClassPiece>, x: int)
  {
    (x in MemberSet(Members(body))) != Negated(body)
  }

  /** Every class is plain. */
  predicate Plain(g: Glob)
  {
    g.Empty? || (PlainItem(g.head) && Plain(g.tail))
  }

  predicate PlainItem(i: Item)
  {
    match i
    case Class(body) => PlainClass(Unquoted(body))
    case Group(first, more) => Plain(first) && PlainBranches(more)
    case _ => true
  }

  predicate PlainBranches(bs: Branches)
  {
    Plain(bs.b) && (bs.Next? ==> PlainBranches(bs.rest))
  }

  /** Classes are copied or escaped, character by character. */
  predicate CopiedClasses(g: Glob)
  {
    g.Empty? || (CopiedItem(g.head) && CopiedClasses(g.tail))
  }

  predicate CopiedItem(i: Item)
  {
    match i
    case Class(body) => AllCopied(body)
    case Group(first, more) => CopiedClasses(first) && CopiedBranches(more)
    case _ => true
  }

  predicate CopiedBranches(bs: Branches)
  {
    CopiedClasses(bs.b) && (bs.Next? ==> CopiedBranches(bs.rest))
  }

  /** Every class has a member, apart from the caret that negates it. */
  predicate HaveMembers(g: Glob)
  {
    g.Empty? || (HasMembers(g.head) && HaveMembers(g.tail))
  }

  predicate HasMembers(i: Item)
  {
    match i
    case Class(body) => Members(Unquoted(body)) != []
    case Group(first, more) => HaveMembers(first) && BranchesHaveMembers(more)
    case _ => true
  }

  predicate BranchesHaveMembers(bs: Branches)
  {
    HaveMembers(bs.b) && (bs.Next? ==> BranchesHaveMembers(bs.rest))
  }

  // ----- The text the scanner emits for a tree -----

  predicate IsCEscape(c: char)
  {
    c == '"' || c == 'a' || c == 'e' || c == 'f' || c == 'n' || c == 'r' || c == 't'
  }

  predicate IsEscaped(c: char, quoted: bool)
  {
    IsAnchor(c) || IsForeign(c) || (quoted && (c == '\\' || c == '*' || IsBracket(c) || IsCEscape(c)))
  }

  function LiteralText(c: char, quoted: bool): string
  {
    if IsEscaped(c, quoted) then ['\\', c] else [c]
  }

  /** Inside a class anchors are bare and a quoted comma is not. */
  predicate IsClassEscaped(p: ClassPiece)
  {
    IsForeign(p.c) || (p.Quoted? && (p.c == '\\' || p.c == '*' || p.c == ',' || IsBracket(p.c) || IsCEscape(p.c)))
  }

  function ClassCharText(p: ClassPiece): string
  {
    if IsClassEscaped(p) then ['\\', p.c] else [p.c]
  }

  // ----- What dropped quotes make of a tree -----

  /** The number in front of `g` takes the literal at its head for one more digit. */
  predicate RunsOn(r: Radix, digits: string, g: Glob)
  {
    g.Cons? && g.head.Lit? && !IsEscaped(g.head.c, g.head.quoted) && Extends(r, digits, g.head.c)
  }

  predicate HeadRunsOn(g: Glob)
    requires g.Cons?
  {
    g.head.Num? && RunsOn(g.head.radix, g.head.digits, g.tail)
  }

  /** No number runs on, and no class has other members without the quotes it loses. */
  predicate Clear(g: Glob)
  {
    g.Empty? || (ClearItem(g.head) && !HeadRunsOn(g) && Clear(g.tail))
  }

  predicate ClearItem(i: Item)
  {
    match i
    case Class(body) => SameUnquoted(body)
    case Group(first, more) => Clear(first) && ClearBranches(more)
    case _ => true
  }

  predicate ClearBranches(bs: Branches)
  {
    Clear(bs.b) && (bs.Next? ==> ClearBranches(bs.rest))
  }

  /** `g` as the regex reader sees it: a number that runs on joined with the literals
      it takes, and classes without the quotes they lose. */
  function Fused(g: Glob): Glob
    decreases g, 0
  {
    match g
    case Empty => Empty
    case Cons(Num(r, digits), tail) => FusedNumber(r, digits, tail)
    case Cons(i, tail) => Cons(FusedItem(i), Fused(tail))
  }

  function FusedNumber(r: Radix, digits: string, g: Glob): Glob
    decreases g, 1
  {
    if RunsOn(r, digits, g) then FusedNumber(r, digits + [g.head.c], g.tail)
    else Cons(Num(r, digits), Fused(g))
  }

  function FusedItem(i: Item): Item
    decreases i, 0
  {
    match i
    case Class(body) => Class(Unquoted(body))
    case Group(first, more) => Group(Fused(first), FusedBranches(more))
    case _ => i
  }

  function FusedBranches(bs: Branches): Branches
    decreases bs, 0
  {
    match bs
    case Last(b) => Last(Fused(b))
    case Next(b, more) => Next(Fused(b), FusedBranches(more))
  }

  /** A tree of that form: nothing is left to join, and classes have no quotes to lose. */
  predicate IsFused(g: Glob)
  {
    g.Empty? || (IsFusedItem(g.head) && !HeadRunsOn(g) && IsFused(g.tail))
  }

  predicate IsFusedItem(i: Item)
  {
    match i
    case Class(body) => Unquoted(body) == body
    case Group(first, more) => IsFused(first) && AreFused(more)
    case _ => true
  }

  predicate AreFused(bs: Branches)
  {
    IsFused(bs.b) && (bs.Next? ==> AreFused(bs.rest))
  }
}
