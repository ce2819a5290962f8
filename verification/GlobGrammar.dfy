/**
 The grammar of glob patterns, stated apart from the scanner: pattern trees and
 their text. The scanner accepts exactly the texts of well-formed trees, and its
 Basic / TailGlob / Regular verdict is a property of the tree.
 */
module GlobGrammar {
  import opened Regex
  import opened GlobScanner

  /** A piece of a character class: a bare character or a backslash and a character. */
  datatype ClassPiece = Raw(c: char) | Quoted(c: char)

  datatype Item =
    | Lit(c: char, quoted: bool)
    | Num(radix: Radix, digits: string)
    | Wild                                  // one `*`
    | Quest                                 // `?`
    | Class(body: seq<ClassPiece>)          // `[...]`
    | Group(first: Glob, more: Branches)    // `{first,more...}`, so at least two branches
  datatype Glob = Empty | Cons(head: Item, tail: Glob)
  datatype Branches = Last(b: Glob) | Next(b: Glob, rest: Branches)

  function Marker(r: Radix): string { match r case Octal => "" case Decimal => "d" case Hex => "x" }

  /** Every digit is used. */
  predicate WellFormedNumber(r: Radix, digits: string)
  {
    digits != "" && Digits(r, digits).1 == |digits|
  }

  /** One more digit would be used too. */
  predicate Extends(r: Radix, digits: string, c: char)
  {
    WellFormedNumber(r, digits + [c])
  }

  function NumberText(r: Radix, digits: string): string
  {
    ['\\'] + (Marker(r) + digits)
  }

  predicate StartsNumber(c: char) { '0' <= c <= '7' || c == 'd' || c == 'x' }

  predicate DigitAhead(next: string, r: Radix) { next != "" && IsDigit(next[0], r) }

  /** The scanner reads `i` as it stands in front of `next`: no digit that follows is part of it. */
  predicate ReadAlone(i: Item, next: string)
  {
    match i
    case Lit(c, quoted) =>
      quoted ==>
        && !('0' <= c <= '7')
        && (c == 'd' ==> !DigitAhead(next, Decimal))
        && (c == 'x' ==> !DigitAhead(next, Hex))
    case Num(radix, digits) => next == "" || !Extends(radix, digits, next[0])
    case _ => true
  }

  /** `g` is the reading the scanner gives its text: every numeric escape is one
      item with all the digits that belong to it. */
  predicate AsRead(g: Glob)
  {
    g.Empty? || (ReadAlone(g.head, Text(g.tail)) && AsReadItem(g.head) && AsRead(g.tail))
  }

  predicate AsReadItem(i: Item)
  {
    i.Group? ==> AsRead(i.first) && AsReadBranches(i.more)
  }

  predicate AsReadBranches(bs: Branches)
  {
    AsRead(bs.b) && (bs.Next? ==> AsReadBranches(bs.rest))
  }

  predicate IsLiteral(i: Item) { i.Lit? || i.Num? }

  predicate IsMeta(c: char) { c == '\\' || c == '*' || c == '?' || IsBracket(c) }

  /** `depth` counts the groups around `g`; inside a group a bare comma separates branches. */
  predicate WellFormed(g: Glob, depth: nat)
  {
    match g
    case Empty => true
    case Cons(head, tail) => WellFormedItem(head, depth) && WellFormed(tail, depth)
  }

  predicate WellFormedItem(i: Item, depth: nat)
  {
    match i
    case Lit(c, quoted) => quoted || (!IsMeta(c) && (c == ',' ==> depth == 0))
    case Num(radix, digits) => WellFormedNumber(radix, digits)
    case Class(body) => WellFormedClass(body)
    case Group(first, more) => depth < 49 && WellFormed(first, depth + 1) && WellFormedBranches(more, depth + 1)
    case _ => true
  }

  predicate WellFormedBranches(bs: Branches, depth: nat)
  {
    match bs
    case Last(b) => WellFormed(b, depth)
    case Next(b, rest) => WellFormed(b, depth) && WellFormedBranches(rest, depth)
  }

  predicate WellFormedClass(body: seq<ClassPiece>)
  {
    forall i :: 0 <= i < |body| ==> body[i].Quoted? || (body[i].c != ']' && body[i].c != '\\')
  }

  function PieceText(p: ClassPiece): string
  {
    if p.Quoted? then ['\\', p.c] else [p.c]
  }

  function ClassText(body: seq<ClassPiece>): string
  {
    if body == [] then "" else PieceText(body[0]) + ClassText(body[1..])
  }

  function ItemText(i: Item): string
  {
    match i
    case Lit(c, quoted) => if quoted then ['\\', c] else [c]
    case Num(radix, digits) => NumberText(radix, digits)
    case Wild => "*"
    case Quest => "?"
    case Class(body) => "[" + ClassText(body) + "]"
    case Group(first, more) => "{" + Text(first) + "," + BranchText(more) + "}"
  }

  function Text(g: Glob): string
  {
    match g
    case Empty => ""
    case Cons(head, tail) => ItemText(head) + Text(tail)
  }

  function BranchText(bs: Branches): string
  {
    match bs
    case Last(b) => Text(b)
    case Next(b, rest) => Text(b) + "," + BranchText(rest)
  }

  /** The verdict for a tree scanned from `p`; `last` says the pattern ends after `g`. */
  function Verdict(g: Glob, last: bool, p: Pattern): Pattern
  {
    match g
    case Empty => p
    case Cons(Lit(_, _), tail) => Verdict(tail, last, p)
    case Cons(Num(_, _), tail) => Verdict(tail, last, p)
    case Cons(Wild, Cons(Wild, tail)) =>
      Verdict(tail, last, if last && tail.Empty? && p == Basic then TailGlob else Regular)
    case Cons(_, tail) => Verdict(tail, last, Regular)
  }

  predicate OnlyLiterals(g: Glob)
  {
    g.Empty? || (IsLiteral(g.head) && OnlyLiterals(g.tail))
  }

  /** Literals and then exactly `**`. */
  predicate LiteralsThenTail(g: Glob)
  {
    g == Cons(Wild, Cons(Wild, Empty)) || (g.Cons? && IsLiteral(g.head) && LiteralsThenTail(g.tail))
  }

  // ----- The scanner's control flow, one character at a time -----

  /** Like Run, but without the text and with escapes read character by character. */
  function Walk(s: string, c: Control): Control
    decreases |s|
  {
    if s == [] || c.err then c
    else Walk(s[if !c.esc && StarPair(s) then 2 else 1..], NextControl(s, c))
  }

  predicate Inert(ch: char) { !IsMeta(ch) && ch != ',' }

  lemma {:induction false} WalkInert(s: string, k: nat, c: Control)
    requires k <= |s| && !c.esc && forall i :: 0 <= i < k ==> Inert(s[i])
    ensures Walk(s, c) == Walk(s[k..], c)
    decreases k
  {
    if k == 0 {
      assert s[0..] == s;
    } else if !c.err {
      WalkInert(s[1..], k - 1, c);
      assert s[1..][k - 1..] == s[k..];
    }
  }

  /** Numeric escapes swallow digits only, so they leave the control flow alone. */
  lemma EscapeIsInert(s: string)
    requires s != [] && !IsEscapable(s[0]) && ReadEscape(s, "").Escaped?
    ensures forall i :: 1 <= i < ReadEscape(s, "").len ==> Inert(s[i])
  {
    var e := ReadEscape(s, "");
    OnlyDigits(s, Octal, 3, 0);
    OnlyDigits(s[1..], Decimal, 3, 0);
    OnlyDigits(s[1..], Hex, 2, 0);
    forall i | 1 <= i < e.len ensures Inert(s[i]) {
      if '0' <= s[0] <= '7' {
        assert IsDigit(s[i], Octal);
      } else if s[0] == 'd' {
        assert s[i] == s[1..][i - 1] && IsDigit(s[i], Decimal);
      } else {
        assert s[i] == s[1..][i - 1] && IsDigit(s[i], Hex);
      }
    }
  }

  lemma {:induction false} RunWalks(s: string, st: State, mode: Mode)
    ensures Run(s, st, mode).ctl == Walk(s, st.ctl)
    decreases |s|
  {
    if s != [] && !st.ctl.err {
      var c, n := st.ctl, Consumed(s, st.ctl);
      RunWalks(s[n..], Turn(s, st, mode), mode);
      if c.esc && n > 1 {
        EscapeIsInert(s);
        WalkInert(s[1..], n - 1, c.(esc := false));
        assert s[1..][n - 1..] == s[n..];
      }
    }
  }

  // ----- Every tree is accepted -----

  predicate Idle(c: Control) { !c.esc && !c.inClass && !c.err }

  predicate EndsBranch(c: char) { c == ',' || c == '}' }

  /** What may follow a glob: the end, or the comma or brace that closes the branch it fills. */
  predicate Closes(rest: string, depth: nat)
  {
    if depth == 0 then rest == "" else rest != "" && EndsBranch(rest[0])
  }

  /** One turn over a character that does not start a pair of stars. */
  lemma WalkOne(ch: char, rest: string, c: Control)
    requires !c.err && (c.esc || ch != '*' || rest == "" || rest[0] != '*')
    ensures Walk([ch] + rest, c) == Walk(rest, NextControl([ch] + rest, c))
  {
    assert ([ch] + rest)[1..] == rest;
  }

  /** The flags while a character class is read. */
  predicate Reading(c: Control) { c.inClass && !c.esc && !c.err && c.ptype == Regular }

  predicate ClassRaw(ch: char) { ch != ']' && ch != '\\' }

  lemma RawStays(ch: char, rest: string, c: Control)
    requires Reading(c) && ClassRaw(ch)
    ensures NextControl([ch] + rest, c) == c
  {
  }

  lemma WalkPair(rest: string, c: Control)
    requires !c.err && !c.esc
    ensures Walk(['*'] + (['*'] + rest), c) == Walk(rest, NextControl(['*'] + (['*'] + rest), c))
  {
    var s := ['*'] + (['*'] + rest);
    assert StarPair(s) && s[2..] == rest;
  }

  /** Inside a class a bare character, a star too, is passed over. */
  lemma {:induction false} WalkRaw(ch: char, rest: string, c: Control)
    requires Reading(c) && ClassRaw(ch)
    ensures Walk([ch] + rest, c) == Walk(rest, c)
    decreases |rest|
  {
    RawStays(ch, rest, c);
    if ch == '*' && rest != "" && rest[0] == '*' {
      assert rest == ['*'] + rest[1..];
      WalkPair(rest[1..], c);
      WalkRaw('*', rest[1..], c);
    } else {
      WalkOne(ch, rest, c);
    }
  }

  /** Inside a class a quoted character is passed over. */
  lemma WalkQuoted(ch: char, rest: string, c: Control)
    requires Reading(c)
    ensures Walk(['\\'] + ([ch] + rest), c) == Walk(rest, c)
  {
    WalkOne('\\', [ch] + rest, c);
    WalkOne(ch, rest, c.(esc := true));
  }

  lemma WalkBracket(rest: string, c: Control)
    requires Reading(c)
    ensures Walk([']'] + rest, c) == Walk(rest, c.(inClass := false))
  {
    WalkOne(']', rest, c);
  }

  lemma ClassTextSplits(p: ClassPiece, a: string, rest: string)
    ensures PieceText(p) + a + "]" + rest ==
      if p.Quoted? then ['\\'] + ([p.c] + (a + "]" + rest)) else [p.c] + (a + "]" + rest)
  {
  }

  lemma {:induction false} WalkClass(body: seq<ClassPiece>, rest: string, c: Control)
    requires WellFormedClass(body) && Reading(c)
    ensures Walk(ClassText(body) + "]" + rest, c) == Walk(rest, c.(inClass := false))
    decreases |body|
  {
    if body == [] {
      assert ClassText(body) + "]" + rest == [']'] + rest;
      WalkBracket(rest, c);
    } else {
      var more := ClassText(body[1..]) + "]" + rest;
      ClassTextSplits(body[0], ClassText(body[1..]), rest);
      WalkClass(body[1..], rest, c);
      if body[0].Quoted? {
        WalkQuoted(body[0].c, more, c);
      } else {
        WalkRaw(body[0].c, more, c);
      }
    }
  }

  lemma DigitIsInert(c: char, r: Radix)
    requires IsDigit(c, r)
    ensures Inert(c) && c != '/' && c != '.' && c != '^'
  {
  }

  /** A character and what the escape leaves of the text, when that begins with characters of no effect. */
  lemma WalkEscape(ch: char, inert: string, rest: string, c: Control)
    requires Idle(c) && forall i :: 0 <= i < |inert| ==> Inert(inert[i])
    ensures Walk(['\\'] + ([ch] + (inert + rest)), c) == Walk(rest, c)
  {
    WalkOne('\\', [ch] + (inert + rest), c);
    WalkOne(ch, inert + rest, c.(esc := true));
    WalkInert(inert + rest, |inert|, c);
    assert (inert + rest)[|inert|..] == rest;
  }

  /** The digits of a numeric escape are passed over. */
  lemma WalkNumber(r: Radix, digits: string, rest: string, c: Control)
    requires WellFormedNumber(r, digits) && Idle(c)
    ensures Walk(NumberText(r, digits) + rest, c) == Walk(rest, c)
  {
    var t := Marker(r) + digits;
    OnlyDigits(digits, r, Limit(r), 0);
    forall i | 0 <= i < |digits| ensures Inert(digits[i]) { DigitIsInert(digits[i], r); }
    assert t == [t[0]] + t[1..] && forall i :: 1 <= i < |t| ==> Inert(t[i]);
    assert NumberText(r, digits) + rest == ['\\'] + ([t[0]] + (t[1..] + rest));
    WalkEscape(t[0], t[1..], rest, c);
  }

  lemma {:induction false} WalkItem(i: Item, rest: string, c: Control)
    requires WellFormedItem(i, Depth(c)) && Idle(c) && Depth(c) < MAX_ALT_DEPTH && !i.Wild?
    ensures Walk(ItemText(i) + rest, c) == Walk(rest, if IsLiteral(i) then c else c.(ptype := Regular))
    decreases i, 1
  {
    match i
    case Lit(ch, quoted) =>
      if quoted {
        assert ItemText(i) + rest == ['\\'] + ([ch] + rest);
        WalkOne('\\', [ch] + rest, c);
        WalkOne(ch, rest, c.(esc := true));
      } else {
        WalkOne(ch, rest, c);
      }
    case Num(radix, digits) => WalkNumber(radix, digits, rest, c);
    case Quest => WalkOne('?', rest, c);
    case Class(body) =>
      var r := ClassText(body) + "]" + rest;
      assert ItemText(i) + rest == ['['] + r;
      WalkOne('[', r, c);
      WalkClass(body, rest, c.(inClass := true, ptype := Regular));
    case Group(first, more) => WalkGroup(i, rest, c);
  }

  lemma {:induction false} WalkGlob(g: Glob, rest: string, c: Control)
    requires WellFormed(g, Depth(c)) && Idle(c) && Closes(rest, Depth(c)) && Depth(c) < MAX_ALT_DEPTH
    ensures Walk(Text(g) + rest, c) == Walk(rest, c.(ptype := Verdict(g, Depth(c) == 0, c.ptype)))
    decreases g
  {
    if g.Empty? {
      assert Text(g) + rest == rest;
    } else {
      var tail := g.tail;
      var r := Text(tail) + rest;
      assert Text(g) + rest == ItemText(g.head) + r;
      if !g.head.Wild? {
        WalkItem(g.head, r, c);
        WalkGlob(tail, rest, if IsLiteral(g.head) then c else c.(ptype := Regular));
      } else if tail.Cons? && tail.head.Wild? {
        var r' := Text(tail.tail) + rest;
        assert "*" + r == "**" + r';
        assert ("**" + r')[2..] == r';
        TextEmpty(tail.tail);
        WalkGlob(tail.tail, rest, NextControl("**" + r', c));
      } else {
        NoStarAhead(tail, rest, Depth(c));
        WalkOne('*', r, c);
        WalkGlob(tail, rest, c.(ptype := Regular));
      }
    }
  }

  /** `c` with one more open group that has seen `n` commas. */
  function Inside(c: Control, n: nat, p: Pattern): Control
  {
    c.(counts := c.counts + [n], ptype := p)
  }

  lemma WalkOpen(rest: string, c: Control)
    requires Idle(c)
    ensures Depth(c) < 49 ==> Walk("{" + rest, c) == Walk(rest, Inside(c, 0, Regular))
    ensures Depth(c) >= 49 ==> Walk("{" + rest, c).err
  {
    WalkOne('{', rest, c);
  }

  lemma WalkComma(rest: string, c: Control, n: nat, p: Pattern)
    requires Idle(c)
    ensures Walk("," + rest, Inside(c, n, p)) == Walk(rest, Inside(c, n + 1, p))
  {
    WalkOne(',', rest, Inside(c, n, p));
    assert Inside(c, n, p).counts[Depth(c) := n + 1] == c.counts + [n + 1];
  }

  lemma WalkClose(rest: string, c: Control, n: nat, p: Pattern)
    requires Idle(c)
    ensures n > 0 ==> Walk("}" + rest, Inside(c, n, p)) == Walk(rest, c.(ptype := p))
    ensures n == 0 ==> Walk("}" + rest, Inside(c, n, p)).err
  {
    WalkOne('}', rest, Inside(c, n, p));
    assert Inside(c, n, p).counts[..Depth(c)] == c.counts;
  }

  lemma GroupTextSplits(a: string, b: string, rest: string)
    ensures "{" + a + "," + b + "}" + rest == "{" + (a + ("," + (b + "}" + rest)))
  {
  }

  lemma BranchTextSplits(a: string, b: string, rest: string)
    ensures a + "," + b + "}" + rest == a + ("," + (b + "}" + rest))
    ensures a + "}" + rest == a + ("}" + rest)
  {
  }

  lemma {:induction false} WalkGroup(i: Item, rest: string, c: Control)
    requires i.Group? && WellFormedItem(i, Depth(c)) && Idle(c)
    ensures Walk(ItemText(i) + rest, c) == Walk(rest, c.(ptype := Regular))
    decreases i, 0
  {
    var r := BranchText(i.more) + "}" + rest;
    GroupTextSplits(Text(i.first), BranchText(i.more), rest);
    WalkOpen(Text(i.first) + ("," + r), c);
    VerdictKeepsRegular(i.first);
    WalkGlob(i.first, "," + r, Inside(c, 0, Regular));
    WalkComma(r, c, 0, Regular);
    WalkBranches(i.more, rest, c, 1);
  }

  lemma {:induction false} WalkBranches(bs: Branches, rest: string, c: Control, n: nat)
    requires Depth(c) < 49 && WellFormedBranches(bs, Depth(c) + 1) && Idle(c) && n > 0
    ensures Walk(BranchText(bs) + "}" + rest, Inside(c, n, Regular)) == Walk(rest, c.(ptype := Regular))
    decreases bs
  {
    VerdictKeepsRegular(bs.b);
    match bs
    case Last(b) =>
      BranchTextSplits(Text(b), "", rest);
      WalkGlob(b, "}" + rest, Inside(c, n, Regular));
      WalkClose(rest, c, n, Regular);
    case Next(b, more) =>
      var r := BranchText(more) + "}" + rest;
      BranchTextSplits(Text(b), BranchText(more), rest);
      WalkGlob(b, "," + r, Inside(c, n, Regular));
      WalkComma(r, c, n, Regular);
      WalkBranches(more, rest, c, n + 1);
  }

  lemma VerdictKeepsRegular(g: Glob)
    ensures Verdict(g, false, Regular) == Regular
  {
  }

  lemma TextEmpty(g: Glob)
    ensures Text(g) == "" <==> g.Empty?
  {
  }

  lemma NoStarAhead(g: Glob, rest: string, depth: nat)
    requires WellFormed(g, depth) && Closes(rest, depth) && !(g.Cons? && g.head.Wild?)
    ensures Text(g) + rest == "" || (Text(g) + rest)[0] != '*'
  {
  }

  // ----- Everything accepted is a tree -----

  lemma NothingUnclosed(c: Control)
    requires Reading(c)
    ensures !Finished(Walk("", c)) && !Finished(Walk(['\\'], c))
  {
    assert ['\\'] + "" == ['\\'];
    WalkOne('\\', "", c);
  }

  lemma {:induction false} SplitClass(s: string, c: Control) returns (body: seq<ClassPiece>, rest: string)
    requires Reading(c) && Finished(Walk(s, c))
    ensures WellFormedClass(body) && s == ClassText(body) + "]" + rest
    ensures Finished(Walk(rest, c.(inClass := false)))
    decreases |s|
  {
    NothingUnclosed(c);
    var tail := s[1..];
    assert s == [s[0]] + tail;
    if s[0] == ']' {
      WalkBracket(tail, c);
      body, rest := [], tail;
    } else if s[0] == '\\' {
      assert tail != [] && tail == [tail[0]] + tail[1..];
      WalkQuoted(tail[0], tail[1..], c);
      var more;
      more, rest := SplitClass(tail[1..], c);
      body := ClassCons(Quoted(tail[0]), more, rest);
    } else {
      WalkRaw(s[0], tail, c);
      var more;
      more, rest := SplitClass(tail, c);
      body := ClassCons(Raw(s[0]), more, rest);
    }
  }

  lemma ClassCons(p: ClassPiece, more: seq<ClassPiece>, rest: string) returns (body: seq<ClassPiece>)
    requires WellFormedClass(more) && (p.Raw? ==> ClassRaw(p.c))
    ensures WellFormedClass(body)
    ensures ClassText(body) + "]" + rest ==
      if p.Quoted? then ['\\'] + ([p.c] + (ClassText(more) + "]" + rest)) else [p.c] + (ClassText(more) + "]" + rest)
  {
    body := [p] + more;
    assert body[1..] == more;
    ClassTextSplits(p, ClassText(more), rest);
  }

  /** What follows a character that is not used does not matter. */
  lemma {:induction false} NumberIgnores(s: string, rest: string, r: Radix, n: nat, val: nat)
    requires Number(s, r, n, val).1 < |s|
    ensures Number(s + rest, r, n, val) == Number(s, r, n, val)
    decreases |s|
  {
    if Number(s, r, n, val).1 > 0 {
      assert (s + rest)[1..] == s[1..] + rest;
      NumberIgnores(s[1..], rest, r, n - 1, Scaled(r, val) + DigitValue(s[0], Base(r)));
    }
  }

  /** A digit more, if it is not used, changes nothing. */
  lemma {:induction false} OneMore(digits: string, c: char, r: Radix, n: nat, val: nat)
    requires Number(digits, r, n, val).1 == |digits|
    ensures Number(digits + [c], r, n, val).1 >= |digits|
    decreases |digits|
  {
    if digits != "" {
      assert (digits + [c])[1..] == digits[1..] + [c];
      OneMore(digits[1..], c, r, n - 1, Scaled(r, val) + DigitValue(digits[0], Base(r)));
    }
  }

  /** Two texts that begin with the same digit are read alike if what follows is. */
  lemma NumberAlike(s: string, t: string, r: Radix, n: nat, val: nat)
    requires s != "" && t != "" && s[0] == t[0] && Number(t, r, n, val).1 > 0
    requires n > 0 ==> var v := Scaled(r, val) + DigitValue(s[0], Base(r));
      0 <= v ==> Number(s[1..], r, n - 1, v) == Number(t[1..], r, n - 1, v)
    ensures Number(s, r, n, val) == Number(t, r, n, val)
  {
  }

  /** What a number uses of a text is a number by itself... */
  lemma {:induction false} NumberTakes(digits: string, rest: string, r: Radix, n: nat, val: nat)
    requires Number(digits + rest, r, n, val).1 == |digits|
    ensures Number(digits, r, n, val) == Number(digits + rest, r, n, val)
    decreases |digits|
  {
    if digits != "" {
      var t := digits + rest;
      assert t[0] == digits[0] && t[1..] == digits[1..] + rest;
      NumberTakes(digits[1..], rest, r, n - 1, Scaled(r, val) + DigitValue(digits[0], Base(r)));
      NumberAlike(digits, t, r, n, val);
    }
  }

  /** ...and the next character would not have been used. */
  lemma {:induction false} NumberLeaves(digits: string, rest: string, r: Radix, n: nat, val: nat)
    requires rest != "" && Number(digits + rest, r, n, val).1 == |digits|
    ensures Number(digits + [rest[0]], r, n, val).1 == |digits|
    decreases |digits|
  {
    if digits != "" {
      assert (digits + rest)[1..] == digits[1..] + rest && (digits + [rest[0]])[1..] == digits[1..] + [rest[0]];
      NumberLeaves(digits[1..], rest, r, n - 1, Scaled(r, val) + DigitValue(digits[0], Base(r)));
    }
  }

  /** A number stops in front of a character it has no use for. */
  lemma NumberStops(r: Radix, digits: string, rest: string)
    requires WellFormedNumber(r, digits) && ReadAlone(Num(r, digits), rest)
    ensures Digits(r, digits + rest) == Digits(r, digits)
  {
    if rest == "" {
      assert digits + rest == digits;
    } else {
      assert digits + [rest[0]] + rest[1..] == digits + rest;
      OneMore(digits, rest[0], r, Limit(r), 0);
      NumberIgnores(digits + [rest[0]], rest[1..], r, Limit(r), 0);
      NumberTakes(digits, [rest[0]], r, Limit(r), 0);
    }
  }

  lemma ExtendedByDigit(r: Radix, digits: string, c: char)
    requires Extends(r, digits, c)
    ensures IsDigit(c, r)
  {
    OnlyDigits(digits + [c], r, Limit(r), 0);
    assert (digits + [c])[|digits|] == c;
  }

  lemma EscapeByDigits(r: Radix, t: string, extra: string)
    requires t != "" && (r == Octal ==> IsDigit(t[0], Octal)) && Digits(r, t).1 > 0
    ensures ReadEscape(Marker(r) + t, extra) == Escaped(Digits(r, t).0, |Marker(r)| + Digits(r, t).1)
  {
    var s := Marker(r) + t;
    if r == Octal {
      assert s == t;
    } else {
      assert s[1..] == t;
    }
  }

  /** How an escape reader, the scanner's or the regex lexer's, reads a numeric escape. */
  lemma ReadNumber(r: Radix, digits: string, rest: string, extra: string)
    requires WellFormedNumber(r, digits) && ReadAlone(Num(r, digits), rest)
    ensures ReadEscape(Marker(r) + (digits + rest), extra) == Escaped(Digits(r, digits).0, |Marker(r)| + |digits|)
  {
    NumberStops(r, digits, rest);
    OnlyDigits(digits, r, Limit(r), 0);
    assert IsDigit(digits[0], r) && (digits + rest)[0] == digits[0];
    EscapeByDigits(r, digits + rest, extra);
  }

  lemma FirstDigit(s: string, r: Radix)
    ensures Digits(r, s).1 == 0 <==> !DigitAhead(s, r)
  {
  }

  function RadixOf(c: char): Radix { if c == 'd' then Decimal else if c == 'x' then Hex else Octal }

  lemma EscapeUsesDigits(t: string)
    requires t != "" && StartsNumber(t[0])
    ensures ReadEscape(t, "").Escaped? <==> Digits(RadixOf(t[0]), t[|Marker(RadixOf(t[0]))|..]).1 > 0
  {
    assert t[0..] == t;
  }

  lemma TakenDigits(s: string, r: Radix) returns (digits: string, rest: string)
    requires Digits(r, s).1 > 0
    ensures s == digits + rest && WellFormedNumber(r, digits) && ReadAlone(Num(r, digits), rest)
  {
    var k := Digits(r, s).1;
    digits, rest := s[..k], s[k..];
    assert digits + rest == s;
    NumberTakes(digits, rest, r, Limit(r), 0);
    if rest != "" { NumberLeaves(digits, rest, r, Limit(r), 0); }
  }

  /** The digits of a numeric escape end where the scanner stops reading them. */
  lemma SplitNumber(t: string) returns (r: Radix, digits: string, rest: string)
    requires t != "" && StartsNumber(t[0]) && ReadEscape(t, "").Escaped?
    ensures t == Marker(r) + digits + rest && WellFormedNumber(r, digits) && ReadAlone(Num(r, digits), rest)
    ensures |rest| < |t|
  {
    r := RadixOf(t[0]);
    EscapeUsesDigits(t);
    digits, rest := TakenDigits(t[|Marker(r)|..], r);
    assert t == Marker(r) + t[|Marker(r)|..];
  }

  lemma QuotedAlone(t: string)
    requires t != "" && (StartsNumber(t[0]) ==> ReadEscape(t, "").NoEscape?)
    ensures ReadAlone(Lit(t[0], true), t[1..])
  {
    FirstDigit(t, Octal);
    FirstDigit(t[1..], Decimal);
    FirstDigit(t[1..], Hex);
  }

  lemma ReadAloneInPart(i: Item, next: string, rest: string)
    requires ReadAlone(i, next + rest)
    ensures ReadAlone(i, next)
  {
  }

  lemma ConsAsRead(i: Item, g: Glob, rest: string) returns (h: Glob)
    requires AsReadItem(i) && AsRead(g) && ReadAlone(i, Text(g) + rest)
    ensures h == Cons(i, g) && AsRead(h) && Text(h) + rest == ItemText(i) + (Text(g) + rest)
  {
    h := Cons(i, g);
    ReadAloneInPart(i, Text(g), rest);
  }

  /** The longest glob at the head of accepted text; what is left closes the enclosing branch. */
  lemma {:induction false} SplitGlob(s: string, c: Control) returns (g: Glob, rest: string, p: Pattern)
    requires Idle(c) && Depth(c) < MAX_ALT_DEPTH && Finished(Walk(s, c))
    ensures WellFormed(g, Depth(c)) && AsRead(g) && s == Text(g) + rest && Closes(rest, Depth(c))
    ensures Finished(Walk(rest, c.(ptype := p)))
    decreases |s|, 2
  {
    if s == [] || (Depth(c) > 0 && EndsBranch(s[0])) {
      g, rest, p := Empty, s, c.ptype;
    } else if StarPair(s) {
      g, rest, p := SplitGlob(s[2..], NextControl(s, c));
      assert s == "*" + ("*" + s[2..]);
      g := ConsAsRead(Wild, g, rest);
      g := ConsAsRead(Wild, g, rest);
    } else {
      var i, s', p' := SplitItem(s, c);
      g, rest, p := SplitGlob(s', c.(ptype := p'));
      g := ConsAsRead(i, g, rest);
    }
  }

  lemma {:induction false} SplitItem(s: string, c: Control) returns (i: Item, rest: string, p: Pattern)
    requires s != [] && Idle(c) && Depth(c) < MAX_ALT_DEPTH && Finished(Walk(s, c))
    requires !(Depth(c) > 0 && EndsBranch(s[0])) && !StarPair(s)
    ensures WellFormedItem(i, Depth(c)) && AsReadItem(i) && s == ItemText(i) + rest && |rest| < |s|
    ensures ReadAlone(i, rest)
    ensures Finished(Walk(rest, c.(ptype := p)))
    decreases |s|, 1
  {
    assert s == [s[0]] + s[1..];
    WalkOne(s[0], s[1..], c);
    rest, p := s[1..], Regular;
    if s[0] == '\\' {
      i, rest := SplitEscape(s[1..], c);
      p := c.ptype;
    } else if s[0] == '*' {
      i := Wild;
    } else if s[0] == '?' {
      i := Quest;
    } else if s[0] == '[' {
      var body;
      body, rest := SplitClass(s[1..], c.(inClass := true, ptype := Regular));
      i := Class(body);
    } else if s[0] == '{' {
      i, rest := SplitGroup(s, c);
    } else {
      i, p := Lit(s[0], false), c.ptype;
    }
  }

  /** A numeric escape behind a backslash... */
  lemma NumberItem(t: string, c: Control) returns (i: Item, rest: string)
    requires Idle(c) && t != "" && StartsNumber(t[0]) && ReadEscape(t, "").Escaped?
    ensures i.Num? && WellFormedItem(i, Depth(c)) && ['\\'] + t == ItemText(i) + rest && |rest| < |t|
    ensures ReadAlone(i, rest) && Walk(['\\'] + t, c) == Walk(rest, c)
  {
    var r, digits;
    r, digits, rest := SplitNumber(t);
    i := Num(r, digits);
    assert ['\\'] + t == NumberText(r, digits) + rest;
    WalkNumber(r, digits, rest, c);
  }

  /** ...or a quoted character. */
  lemma QuotedItem(t: string, c: Control) returns (i: Item, rest: string)
    requires Idle(c) && t != "" && (StartsNumber(t[0]) ==> ReadEscape(t, "").NoEscape?)
    ensures i.Lit? && WellFormedItem(i, Depth(c)) && ['\\'] + t == ItemText(i) + rest && |rest| < |t|
    ensures ReadAlone(i, rest) && Walk(['\\'] + t, c) == Walk(rest, c)
  {
    QuotedAlone(t);
    i, rest := Lit(t[0], true), t[1..];
    assert t == [t[0]] + rest;
    WalkOne('\\', t, c);
    WalkOne(t[0], rest, c.(esc := true));
  }

  lemma NoBackslashLast(c: Control)
    requires Idle(c)
    ensures !Finished(Walk(['\\'] + "", c))
  {
    WalkOne('\\', "", c);
  }

  lemma SplitEscape(t: string, c: Control) returns (i: Item, rest: string)
    requires Idle(c) && Finished(Walk(['\\'] + t, c))
    ensures IsLiteral(i) && WellFormedItem(i, Depth(c)) && ['\\'] + t == ItemText(i) + rest && |rest| < |t|
    ensures ReadAlone(i, rest) && Finished(Walk(rest, c))
  {
    NoBackslashLast(c);
    if StartsNumber(t[0]) && ReadEscape(t, "").Escaped? {
      i, rest := NumberItem(t, c);
    } else {
      i, rest := QuotedItem(t, c);
    }
  }

  /** A group cannot close before its first comma. */
  lemma FirstComma(r: string, c: Control, p: Pattern)
    requires Idle(c) && Closes(r, Depth(c) + 1) && Finished(Walk(r, Inside(c, 0, p)))
    ensures r[0] == ',' && Finished(Walk(r[1..], Inside(c, 1, p)))
  {
    assert r == [r[0]] + r[1..];
    if r[0] == '}' { WalkClose(r[1..], c, 0, p); } else { WalkComma(r[1..], c, 0, p); }
  }

  lemma {:induction false} SplitGroup(s: string, c: Control) returns (i: Item, rest: string)
    requires s != [] && s[0] == '{' && Idle(c) && Depth(c) < MAX_ALT_DEPTH && Finished(Walk(s, c))
    ensures i.Group? && WellFormedItem(i, Depth(c)) && AsReadItem(i) && s == ItemText(i) + rest && |rest| < |s|
    ensures Finished(Walk(rest, c.(ptype := Regular)))
    decreases |s|, 0
  {
    assert s == "{" + s[1..];
    WalkOpen(s[1..], c);
    var first, r, p := SplitGlob(s[1..], Inside(c, 0, Regular));
    FirstComma(r, c, p);
    var more;
    more, rest := SplitBranches(r[1..], c, 1, p);
    assert r == "," + r[1..];
    GroupTextSplits(Text(first), BranchText(more), rest);
    i := Group(first, more);
  }

  lemma {:induction false} SplitBranches(s: string, c: Control, n: nat, p: Pattern)
    returns (bs: Branches, rest: string)
    requires Idle(c) && Depth(c) + 1 < MAX_ALT_DEPTH && n > 0
    requires Finished(Walk(s, Inside(c, n, p)))
    ensures WellFormedBranches(bs, Depth(c) + 1) && AsReadBranches(bs) && s == BranchText(bs) + "}" + rest
    ensures Finished(Walk(rest, c.(ptype := Regular)))
    decreases |s|, 3
  {
    var b, r, p' := SplitGlob(s, Inside(c, n, p));
    var r' := r[1..];
    assert r == [r[0]] + r';
    if r[0] == ',' {
      WalkComma(r', c, n, p');
      bs, rest := SplitBranches(r', c, n + 1, p');
      BranchTextSplits(Text(b), BranchText(bs), rest);
      bs := Next(b, bs);
    } else {
      WalkClose(r', c, n, p');
      FinishIgnoresType(r', c, p', Regular);
      bs, rest := Last(b), r';
      BranchTextSplits(Text(b), "", rest);
    }
  }

  lemma SameButType(s: string, c: Control, p: Pattern, q: Pattern)
    requires s != []
    ensures NextControl(s, c.(ptype := q))
          == NextControl(s, c.(ptype := p)).(ptype := NextControl(s, c.(ptype := q)).ptype)
  {
  }

  lemma WalkStep(s: string, c: Control)
    requires s != [] && !c.err
    ensures Walk(s, c) == Walk(s[if !c.esc && StarPair(s) then 2 else 1..], NextControl(s, c))
  {
  }

  lemma {:induction false} FinishIgnoresType(s: string, c: Control, p: Pattern, q: Pattern)
    ensures Finished(Walk(s, c.(ptype := p))) <==> Finished(Walk(s, c.(ptype := q)))
    decreases |s|
  {
    if s != [] && !c.err {
      var n := if !c.esc && StarPair(s) then 2 else 1;
      var cp, cq := NextControl(s, c.(ptype := p)), NextControl(s, c.(ptype := q));
      SameButType(s, c, p, q);
      WalkStep(s, c.(ptype := p));
      WalkStep(s, c.(ptype := q));
      FinishIgnoresType(s[n..], cp, cp.ptype, cq.ptype);
      assert cp == cp.(ptype := cp.ptype) && cq == cp.(ptype := cq.ptype);
    }
  }

  // ----- Main results -----

  lemma VerdictOfTree(g: Glob, p: Pattern)
    requires p == Basic || p == Regular
    ensures Verdict(g, true, p) != Invalid
    ensures Verdict(g, true, p) == Basic <==> p == Basic && OnlyLiterals(g)
    ensures Verdict(g, true, p) == TailGlob <==> p == Basic && LiteralsThenTail(g)
  {
  }

  /** The text of a tree is accepted, with the verdict its items call for. */
  lemma TreesAreAccepted(g: Glob, anchor: bool, mode: Mode, buffer: string)
    requires WellFormed(g, 0)
    ensures var t := Convert(Text(g), anchor, mode, buffer).0;
            && t != Invalid
            && (t == Basic <==> OnlyLiterals(g))
            && (t == TailGlob <==> LiteralsThenTail(g))
  {
    RunWalks(Text(g), State(START, if anchor then buffer + "^" else buffer), mode);
    assert Text(g) + "" == Text(g);
    WalkGlob(g, "", START);
    VerdictOfTree(g, Basic);
  }

  /** The scanner accepts exactly the texts of well-formed trees, and reads each as one. */
  lemma AcceptsExactlyTheGrammar(aare: string, anchor: bool, mode: Mode, buffer: string)
    ensures Convert(aare, anchor, mode, buffer).0 != Invalid <==> exists g :: WellFormed(g, 0) && Text(g) == aare
    ensures Convert(aare, anchor, mode, buffer).0 != Invalid ==>
      exists g :: WellFormed(g, 0) && AsRead(g) && Text(g) == aare
  {
    if Convert(aare, anchor, mode, buffer).0 != Invalid {
      RunWalks(aare, State(START, if anchor then buffer + "^" else buffer), mode);
      var g, rest, p := SplitGlob(aare, START);
      assert Text(g) + rest == Text(g);
    }
    if exists g :: WellFormed(g, 0) && Text(g) == aare {
      var g :| WellFormed(g, 0) && Text(g) == aare;
      TreesAreAccepted(g, anchor, mode, buffer);
    }
  }
}
