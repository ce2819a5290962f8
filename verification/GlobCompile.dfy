/**
 What the scanner appends to its buffer, item by item, when it reads the text of a tree.
 */
module GlobCompile {
  import opened Strings
  import opened Regex
  import opened GlobScanner
  import opened GlobGrammar
  import opened GlobMeaning

  // ----- Pattern text in front of `rest`, and regex text appended to `pcre` -----

  function ThenItem(i: Item, rest: string): string
  {
    match i
    case Lit(c, quoted) => if quoted then ['\\'] + ([c] + rest) else [c] + rest
    case Num(radix, digits) => NumberText(radix, digits) + rest
    case Wild => ['*'] + rest
    case Quest => ['?'] + rest
    case Class(body) => ['['] + ThenClass(body, [']'] + rest)
    case Group(first, more) => ['{'] + ThenGlob(first, [','] + ThenBranches(more, ['}'] + rest))
  }

  function ThenClass(body: seq<ClassPiece>, rest: string): string
  {
    if body == [] then rest else PieceText(body[0]) + ThenClass(body[1..], rest)
  }

  function ThenGlob(g: Glob, rest: string): string
  {
    match g
    case Empty => rest
    case Cons(head, tail) => ThenItem(head, ThenGlob(tail, rest))
  }

  function ThenBranches(bs: Branches, rest: string): string
  {
    match bs
    case Last(b) => ThenGlob(b, rest)
    case Next(b, more) => ThenGlob(b, [','] + ThenBranches(more, rest))
  }

  function OntoItem(pcre: string, i: Item, mode: Mode): string
    decreases i
  {
    match i
    case Lit(c, quoted) => pcre + LiteralText(c, quoted)
    case Num(radix, digits) => pcre + NumberText(radix, digits)
    case Wild => pcre + (SegText(mode) + "*")
    case Quest => pcre + SegText(mode)
    case Class(body) => OntoClass(pcre + "[", body) + "]"
    case Group(first, more) => OntoBranches(OntoGlob(pcre + "(", first, mode, false) + "|", more, mode) + ")"
  }

  function OntoClass(pcre: string, ms: seq<ClassPiece>): string
    decreases |ms|
  {
    if ms == [] then pcre else OntoClass(pcre + ClassCharText(ms[0]), ms[1..])
  }

  function OntoStars(pcre: string, tail: Glob, stars: string, mode: Mode, top: bool): string
  {
    pcre + ((if EndsInSlash(pcre) && ComponentEnds(tail, top) then SegText(mode) else "") + stars)
  }

  function OntoGlob(pcre: string, g: Glob, mode: Mode, top: bool): string
    decreases g
  {
    match g
    case Empty => pcre
    case Cons(Wild, Cons(Wild, tail)) => OntoGlob(OntoStars(pcre, tail, AnyText(mode), mode, top), tail, mode, top)
    case Cons(Wild, tail) => OntoGlob(OntoStars(pcre, tail, SegText(mode) + "*", mode, top), tail, mode, top)
    case Cons(i, tail) => OntoGlob(OntoItem(pcre, i, mode), tail, mode, top)
  }

  function OntoBranches(pcre: string, bs: Branches, mode: Mode): string
    decreases bs
  {
    match bs
    case Last(b) => OntoGlob(pcre, b, mode, false)
    case Next(b, rest) => OntoBranches(OntoGlob(pcre, b, mode, false) + "|", rest, mode)
  }

  // ----- One loop turn at a time -----

  /** A turn over a character that is neither the start of a pair of stars nor a numeric escape. */
  lemma RunOne(ch: char, rest: string, st: State, mode: Mode)
    requires !st.ctl.err && Consumed([ch] + rest, st.ctl) == 1
    ensures Run([ch] + rest, st, mode) == Run(rest, Turn([ch] + rest, st, mode), mode)
  {
    assert ([ch] + rest)[1..] == rest;
  }

  lemma RunBareChar(c: char, rest: string, st: State, mode: Mode)
    requires Reading(st.ctl) && Copied(Raw(c))
    ensures Run([c] + rest, st, mode) == Run(rest, State(st.ctl, st.pcre + ClassCharText(Raw(c))), mode)
  {
    RunOne(c, rest, st, mode);
  }

  lemma QuotedInClass(c: char, rest: string, ctl: Control)
    requires !StartsNumber(c) && ctl.esc && ctl.inClass
    ensures Consumed([c] + rest, ctl) == 1
    ensures EscapedText([c] + rest, ctl) == ClassCharText(Quoted(c))
  {
    var s := [c] + rest;
    assert s[..1] == [c];
  }

  lemma RunQuotedChar(c: char, rest: string, st: State, mode: Mode)
    requires Reading(st.ctl) && Copied(Quoted(c))
    ensures Run(['\\'] + ([c] + rest), st, mode) == Run(rest, State(st.ctl, st.pcre + ClassCharText(Quoted(c))), mode)
  {
    RunOne('\\', [c] + rest, st, mode);
    var st1 := State(st.ctl.(esc := true), st.pcre);
    assert st.pcre + "" == st.pcre;
    QuotedInClass(c, rest, st1.ctl);
    RunOne(c, rest, st1, mode);
  }

  lemma RunClassChar(p: ClassPiece, rest: string, st: State, mode: Mode)
    requires Reading(st.ctl) && Copied(p)
    ensures Run(PieceText(p) + rest, st, mode) == Run(rest, State(st.ctl, st.pcre + ClassCharText(p)), mode)
  {
    if p.Quoted? {
      assert PieceText(p) + rest == ['\\'] + ([p.c] + rest);
      RunQuotedChar(p.c, rest, st, mode);
    } else {
      RunBareChar(p.c, rest, st, mode);
    }
  }

  lemma RunOpenClass(rest: string, st: State, mode: Mode)
    requires Idle(st.ctl)
    ensures Run(['['] + rest, st, mode)
         == Run(rest, State(st.ctl.(inClass := true, ptype := Regular), st.pcre + "["), mode)
  {
    RunOne('[', rest, st, mode);
  }

  lemma RunCloseClass(rest: string, st: State, mode: Mode)
    requires st.ctl.inClass && !st.ctl.esc && !st.ctl.err
    ensures Run([']'] + rest, st, mode) == Run(rest, State(st.ctl.(inClass := false), st.pcre + "]"), mode)
  {
    RunOne(']', rest, st, mode);
  }

  lemma RunOpen(rest: string, st: State, mode: Mode)
    requires Idle(st.ctl) && Depth(st.ctl) < 49
    ensures Run(['{'] + rest, st, mode) == Run(rest, State(Inside(st.ctl, 0, Regular), st.pcre + "("), mode)
  {
    RunOne('{', rest, st, mode);
  }

  lemma RunComma(rest: string, c: Control, pcre: string, n: nat, p: Pattern, mode: Mode)
    requires Idle(c)
    ensures Run([','] + rest, State(Inside(c, n, p), pcre), mode)
         == Run(rest, State(Inside(c, n + 1, p), pcre + "|"), mode)
  {
    RunOne(',', rest, State(Inside(c, n, p), pcre), mode);
    assert Inside(c, n, p).counts[Depth(c) := n + 1] == c.counts + [n + 1];
  }

  lemma RunClose(rest: string, c: Control, pcre: string, n: nat, p: Pattern, mode: Mode)
    requires Idle(c) && n > 0
    ensures Run(['}'] + rest, State(Inside(c, n, p), pcre), mode)
         == Run(rest, State(c.(ptype := p), pcre + ")"), mode)
  {
    RunOne('}', rest, State(Inside(c, n, p), pcre), mode);
    assert Inside(c, n, p).counts[..Depth(c)] == c.counts;
  }

  lemma QuotedText(c: char, rest: string, ctl: Control)
    requires ReadAlone(Lit(c, true), rest) && ctl.esc && !ctl.inClass
    ensures Consumed([c] + rest, ctl) == 1
    ensures EscapedText([c] + rest, ctl) == LiteralText(c, true)
  {
    var s := [c] + rest;
    assert s[..1] == [c] && s[1..] == rest;
    FirstDigit(rest, Decimal);
    FirstDigit(rest, Hex);
  }

  lemma NumberHead(r: Radix, digits: string, rest: string)
    requires WellFormedNumber(r, digits)
    ensures var ch := (Marker(r) + (digits + rest))[0]; !IsEscapable(ch) && !IsForeign(ch)
  {
    OnlyDigits(digits, r, Limit(r), 0);
  }

  lemma NumberTurn(r: Radix, digits: string, rest: string, c: Control)
    requires WellFormedNumber(r, digits) && ReadAlone(Num(r, digits), rest) && c.esc
    ensures var s := Marker(r) + (digits + rest);
            Consumed(s, c) == |Marker(r)| + |digits| && EscapedText(s, c) == NumberText(r, digits)
  {
    var s, n := Marker(r) + (digits + rest), |Marker(r)| + |digits|;
    ReadNumber(r, digits, rest, "");
    NumberHead(r, digits, rest);
    assert s[..n] == Marker(r) + digits;
    assert "" + ("\\" + s[..n]) == NumberText(r, digits);
  }

  lemma NumberTextSplits(r: Radix, digits: string, rest: string)
    ensures var s := Marker(r) + (digits + rest);
            NumberText(r, digits) + rest == ['\\'] + s && s[|Marker(r)| + |digits|..] == rest
  {
  }

  lemma RunDigits(r: Radix, digits: string, rest: string, st: State, mode: Mode)
    requires WellFormedNumber(r, digits) && ReadAlone(Num(r, digits), rest) && st.ctl.esc && !st.ctl.err
    ensures Run(Marker(r) + (digits + rest), st, mode)
         == Run(rest, State(st.ctl.(esc := false), st.pcre + NumberText(r, digits)), mode)
  {
    NumberTurn(r, digits, rest, st.ctl);
    NumberTextSplits(r, digits, rest);
    RunTurn(Marker(r) + (digits + rest), st, mode);
  }

  lemma RunNumber(r: Radix, digits: string, rest: string, st: State, mode: Mode)
    requires WellFormedNumber(r, digits) && ReadAlone(Num(r, digits), rest) && Idle(st.ctl)
    ensures Run(NumberText(r, digits) + rest, st, mode)
         == Run(rest, State(st.ctl, st.pcre + NumberText(r, digits)), mode)
  {
    NumberTextSplits(r, digits, rest);
    RunOne('\\', Marker(r) + (digits + rest), st, mode);
    assert st.pcre + "" == st.pcre;
    RunDigits(r, digits, rest, State(st.ctl.(esc := true), st.pcre), mode);
  }

  lemma RunTurn(s: string, st: State, mode: Mode)
    requires s != "" && !st.ctl.err
    ensures Run(s, st, mode) == Run(s[Consumed(s, st.ctl)..], Turn(s, st, mode), mode)
  {
  }

  /** What may follow a glob is no digit. */
  lemma ReadAloneThen(i: Item, g: Glob, rest: string, depth: nat)
    requires ReadAlone(i, Text(g)) && Closes(rest, depth)
    ensures ReadAlone(i, ThenGlob(g, rest))
  {
    ThenIsText(g, rest);
    if i.Num? && Text(g) == "" && rest != "" && Extends(i.radix, i.digits, rest[0]) {
      ExtendedByDigit(i.radix, i.digits, rest[0]);
    }
  }

  lemma RunLiteral(i: Item, rest: string, st: State, mode: Mode)
    requires i.Lit? && WellFormedItem(i, Depth(st.ctl)) && ReadAlone(i, rest) && Idle(st.ctl)
    ensures Run(ThenItem(i, rest), st, mode) == Run(rest, State(st.ctl, OntoItem(st.pcre, i, mode)), mode)
  {
    if i.quoted {
      RunOne('\\', [i.c] + rest, st, mode);
      var st1 := State(st.ctl.(esc := true), st.pcre);
      assert st.pcre + "" == st.pcre;
      QuotedText(i.c, rest, st1.ctl);
      RunOne(i.c, rest, st1, mode);
    } else {
      RunOne(i.c, rest, st, mode);
    }
  }

  // ----- Whole trees -----

  lemma {:induction false} RunClassBody(ms: seq<ClassPiece>, rest: string, st: State, mode: Mode)
    requires Reading(st.ctl)
    requires forall i :: 0 <= i < |ms| ==> Copied(ms[i])
    ensures Run(ThenClass(ms, rest), st, mode) == Run(rest, State(st.ctl, OntoClass(st.pcre, ms)), mode)
    decreases |ms|
  {
    if ms != [] {
      RunClassChar(ms[0], ThenClass(ms[1..], rest), st, mode);
      RunClassBody(ms[1..], rest, State(st.ctl, st.pcre + ClassCharText(ms[0])), mode);
    }
  }

  lemma {:induction false} OrdinaryIsCopied(ms: seq<ClassPiece>)
    requires OrdinaryMembers(ms)
    ensures forall i :: 0 <= i < |ms| ==> Copied(ms[i])
    decreases |ms|
  {
    if ms != [] {
      if |ms| >= 3 && ms[1] == Raw('-') {
        OrdinaryIsCopied(ms[3..]);
        assert forall i :: 3 <= i < |ms| ==> ms[i] == ms[3..][i - 3];
      } else {
        OrdinaryIsCopied(ms[1..]);
        assert forall i :: 1 <= i < |ms| ==> ms[i] == ms[1..][i - 1];
      }
    }
  }

  lemma PlainIsCopied(body: seq<ClassPiece>)
    requires PlainClass(body)
    ensures AllCopied(body)
  {
    var ms := Members(body);
    if ms[0].c != '^' && !IsDash(ms[0]) {
      OrdinaryIsCopied(ms);
    } else if IsDash(ms[0]) && |ms| >= 3 && ms[1] == Raw('-') {
      OrdinaryIsCopied(ms[3..]);
      assert ms == [ms[0], ms[1], ms[2]] + ms[3..];
    } else {
      OrdinaryIsCopied(ms[1..]);
      assert ms == [ms[0]] + ms[1..];
    }
    assert forall i :: 0 <= i < |ms| ==> Copied(ms[i]);
    assert Negated(body) ==> body == [body[0]] + ms;
  }

  lemma {:induction false} UnquotedCopied(body: seq<ClassPiece>)
    ensures AllCopied(Unquoted(body)) == AllCopied(body)
    decreases |body|
  {
    if body != [] {
      var u := Unquoted(body);
      assert u[1..] == Unquoted(body[1..]) && Copied(u[0]) == Copied(body[0]);
      UnquotedCopied(body[1..]);
      assert body == [body[0]] + body[1..] && u == [u[0]] + u[1..];
    }
  }

  lemma {:induction false} PlainGlobIsCopied(g: Glob)
    requires Plain(g)
    ensures CopiedClasses(g)
    decreases g, 0
  {
    if g.Cons? {
      PlainItemIsCopied(g.head);
      PlainGlobIsCopied(g.tail);
    }
  }

  lemma {:induction false} PlainItemIsCopied(i: Item)
    requires PlainItem(i)
    ensures CopiedItem(i)
    decreases i, 1
  {
    if i.Class? {
      PlainIsCopied(Unquoted(i.body));
      UnquotedCopied(i.body);
    } else if i.Group? {
      PlainGlobIsCopied(i.first);
      PlainBranchesAreCopied(i.more);
    }
  }

  lemma {:induction false} PlainBranchesAreCopied(bs: Branches)
    requires PlainBranches(bs)
    ensures CopiedBranches(bs)
    decreases bs, 0
  {
    PlainGlobIsCopied(bs.b);
    if bs.Next? { PlainBranchesAreCopied(bs.rest); }
  }

  lemma RunClass(i: Item, rest: string, st: State, mode: Mode)
    requires i.Class? && AllCopied(i.body) && Idle(st.ctl)
    ensures Run(ThenItem(i, rest), st, mode)
         == Run(rest, State(st.ctl.(ptype := Regular), OntoItem(st.pcre, i, mode)), mode)
  {
    var body := i.body;
    var st1 := State(st.ctl.(inClass := true, ptype := Regular), st.pcre + "[");
    RunOpenClass(ThenClass(body, [']'] + rest), st, mode);
    RunClassBody(body, [']'] + rest, st1, mode);
    RunCloseClass(rest, State(st1.ctl, OntoClass(st1.pcre, body)), mode);
  }

  lemma {:induction false} RunItem(i: Item, rest: string, st: State, mode: Mode) returns (p: Pattern)
    requires WellFormedItem(i, Depth(st.ctl)) && CopiedItem(i) && Idle(st.ctl) && !i.Wild?
    requires AsReadItem(i) && ReadAlone(i, rest)
    ensures Run(ThenItem(i, rest), st, mode) == Run(rest, State(st.ctl.(ptype := p), OntoItem(st.pcre, i, mode)), mode)
    decreases i, 1
  {
    match i
    case Lit(c, quoted) =>
      p := st.ctl.ptype;
      RunLiteral(i, rest, st, mode);
    case Num(radix, digits) =>
      p := st.ctl.ptype;
      RunNumber(radix, digits, rest, st, mode);
    case Quest =>
      p := Regular;
      RunOne('?', rest, st, mode);
    case Class(body) =>
      p := Regular;
      RunClass(i, rest, st, mode);
    case Group(first, more) =>
      p := RunGroup(i, rest, st, mode);
  }

  lemma {:induction false} RunGroup(i: Item, rest: string, st: State, mode: Mode) returns (p: Pattern)
    requires i.Group? && WellFormedItem(i, Depth(st.ctl)) && AsReadItem(i) && CopiedItem(i) && Idle(st.ctl)
    ensures Run(ThenItem(i, rest), st, mode) == Run(rest, State(st.ctl.(ptype := p), OntoItem(st.pcre, i, mode)), mode)
    decreases i, 0
  {
    var r := [','] + ThenBranches(i.more, ['}'] + rest);
    RunOpen(ThenGlob(i.first, r), st, mode);
    p := RunGlob(i.first, r, State(Inside(st.ctl, 0, Regular), st.pcre + "("), mode);
    p := RunBranches(i.more, rest, st.ctl, OntoGlob(st.pcre + "(", i.first, mode, false), 0, p, mode);
  }

  /** A branch behind the `n`-th comma, up to what ends it. */
  lemma {:induction false} RunBranch(b: Glob, rest: string, c: Control, pcre: string, n: nat, p: Pattern, mode: Mode)
    returns (q: Pattern)
    requires Idle(c) && Depth(c) < 49 && WellFormed(b, Depth(c) + 1) && AsRead(b) && CopiedClasses(b)
    requires Closes(rest, Depth(c) + 1)
    ensures Run([','] + ThenGlob(b, rest), State(Inside(c, n, p), pcre), mode)
         == Run(rest, State(Inside(c, n + 1, q), OntoGlob(pcre + "|", b, mode, false)), mode)
    decreases b, 1
  {
    RunComma(ThenGlob(b, rest), c, pcre, n, p, mode);
    q := RunGlob(b, rest, State(Inside(c, n + 1, p), pcre + "|"), mode);
  }

  /** The branches after the `n`-th comma. */
  lemma {:induction false} RunBranches(bs: Branches, rest: string, c: Control, pcre: string, n: nat, p: Pattern,
                                       mode: Mode)
    returns (q: Pattern)
    requires Idle(c) && Depth(c) < 49 && WellFormedBranches(bs, Depth(c) + 1)
    requires AsReadBranches(bs) && CopiedBranches(bs)
    ensures Run([','] + ThenBranches(bs, ['}'] + rest), State(Inside(c, n, p), pcre), mode)
         == Run(rest, State(c.(ptype := q), OntoBranches(pcre + "|", bs, mode) + ")"), mode)
    decreases bs
  {
    var pcre' := OntoGlob(pcre + "|", bs.b, mode, false);
    match bs
    case Last(b) =>
      q := RunBranch(b, ['}'] + rest, c, pcre, n, p, mode);
      RunClose(rest, c, pcre', n + 1, q, mode);
    case Next(b, more) =>
      q := RunBranch(b, [','] + ThenBranches(more, ['}'] + rest), c, pcre, n, p, mode);
      q := RunBranches(more, rest, c, pcre', n + 1, q, mode);
  }

  lemma {:induction false} RunGlob(g: Glob, rest: string, st: State, mode: Mode) returns (p: Pattern)
    requires WellFormed(g, Depth(st.ctl)) && AsRead(g) && CopiedClasses(g)
    requires Idle(st.ctl) && Closes(rest, Depth(st.ctl))
    ensures Run(ThenGlob(g, rest), st, mode)
         == Run(rest, State(st.ctl.(ptype := p), OntoGlob(st.pcre, g, mode, Depth(st.ctl) == 0)), mode)
    decreases g, 0
  {
    if g.Empty? {
      p := st.ctl.ptype;
    } else if !g.head.Wild? {
      ReadAloneThen(g.head, g.tail, rest, Depth(st.ctl));
      p := RunItem(g.head, ThenGlob(g.tail, rest), st, mode);
      p := RunGlob(g.tail, rest, State(st.ctl.(ptype := p), OntoItem(st.pcre, g.head, mode)), mode);
    } else if g.tail.Cons? && g.tail.head.Wild? {
      assert ThenGlob(g.tail, rest) == ['*'] + ThenGlob(g.tail.tail, rest);
      p := RunPair(g.tail.tail, rest, st, mode);
      p := RunGlob(g.tail.tail, rest,
                   State(st.ctl.(ptype := p),
                         OntoStars(st.pcre, g.tail.tail, AnyText(mode), mode, Depth(st.ctl) == 0)), mode);
    } else {
      RunSingle(g.tail, rest, st, mode);
      p := RunGlob(g.tail, rest,
                   State(st.ctl.(ptype := Regular),
                         OntoStars(st.pcre, g.tail, SegText(mode) + "*", mode, Depth(st.ctl) == 0)), mode);
    }
  }

  lemma {:induction false} ThenIsText(g: Glob, rest: string)
    ensures ThenGlob(g, rest) == Text(g) + rest
    decreases g
  {
    if g.Cons? {
      ThenIsItemText(g.head, ThenGlob(g.tail, rest));
      ThenIsText(g.tail, rest);
    }
  }

  lemma {:induction false} ThenIsItemText(i: Item, rest: string)
    ensures ThenItem(i, rest) == ItemText(i) + rest
    decreases i, 1
  {
    match i
    case Lit(c, quoted) => assert ['\\'] + ([c] + rest) == ['\\', c] + rest;
    case Class(body) =>
      ThenIsClassText(body, [']'] + rest);
      ClassAssoc(ClassText(body), rest);
    case Group(first, more) => ThenIsGroupText(i, rest);
    case _ =>
  }

  lemma {:induction false} ThenIsGroupText(i: Item, rest: string)
    requires i.Group?
    ensures ThenItem(i, rest) == ItemText(i) + rest
    decreases i, 0
  {
    ThenIsBranchText(i.more, ['}'] + rest);
    ThenIsText(i.first, [','] + (BranchText(i.more) + (['}'] + rest)));
    GroupAssoc(Text(i.first), BranchText(i.more), rest);
  }

  lemma ClassAssoc(a: string, rest: string)
    ensures ['['] + (a + ([']'] + rest)) == "[" + a + "]" + rest
  {
  }

  lemma GroupAssoc(a: string, b: string, rest: string)
    ensures ['{'] + (a + ([','] + (b + (['}'] + rest)))) == "{" + a + "," + b + "}" + rest
  {
  }

  lemma ThenIsClassText(body: seq<ClassPiece>, rest: string)
    ensures ThenClass(body, rest) == ClassText(body) + rest
  {
  }

  lemma {:induction false} ThenIsBranchText(bs: Branches, rest: string)
    ensures ThenBranches(bs, rest) == BranchText(bs) + rest
    decreases bs
  {
    match bs
    case Last(b) => ThenIsText(b, rest);
    case Next(b, more) =>
      ThenIsText(b, [','] + ThenBranches(more, rest));
      ThenIsBranchText(more, rest);
  }

  // ----- Runs of stars -----

  lemma {:induction false} PastStarsOfGlob(g: Glob, rest: string, depth: nat)
    requires WellFormed(g, depth) && Closes(rest, depth)
    ensures var past := PastStars(ThenGlob(g, rest));
            (past == "" || past[0] == '/') <==> ComponentEnds(g, depth == 0)
    decreases g
  {
    if g.Cons? {
      var r := ThenGlob(g.tail, rest);
      if g.head.Wild? {
        assert (['*'] + r)[1..] == r;
        PastStarsOfGlob(g.tail, rest, depth);
      }
    }
  }

  /** A pair of stars in front of `tail`. */
  lemma RunPair(tail: Glob, rest: string, st: State, mode: Mode) returns (p: Pattern)
    requires WellFormed(tail, Depth(st.ctl)) && Idle(st.ctl) && Closes(rest, Depth(st.ctl))
    ensures Run(['*'] + (['*'] + ThenGlob(tail, rest)), st, mode)
         == Run(ThenGlob(tail, rest),
                State(st.ctl.(ptype := p), OntoStars(st.pcre, tail, AnyText(mode), mode, Depth(st.ctl) == 0)), mode)
  {
    var r := ThenGlob(tail, rest);
    var s := ['*'] + (['*'] + r);
    p := NextControl(s, st.ctl).ptype;
    var g := Cons(Wild, Cons(Wild, tail));
    PastStarsOfGlob(g, rest, Depth(st.ctl));
    assert ThenGlob(g.tail, rest) == ['*'] + r;
    assert ThenGlob(g, rest) == s && ComponentEnds(g, Depth(st.ctl) == 0) == ComponentEnds(tail, Depth(st.ctl) == 0);
    assert s[2..] == r;
  }

  /** A star in front of `tail` that is not half of a pair. */
  lemma RunSingle(tail: Glob, rest: string, st: State, mode: Mode)
    requires WellFormed(tail, Depth(st.ctl)) && Idle(st.ctl) && Closes(rest, Depth(st.ctl))
    requires !(tail.Cons? && tail.head.Wild?)
    ensures Run(['*'] + ThenGlob(tail, rest), st, mode)
         == Run(ThenGlob(tail, rest),
                State(st.ctl.(ptype := Regular),
                      OntoStars(st.pcre, tail, SegText(mode) + "*", mode, Depth(st.ctl) == 0)), mode)
  {
    PastStarsOfGlob(Cons(Wild, tail), rest, Depth(st.ctl));
    ThenIsText(tail, rest);
    NoStarAhead(tail, rest, Depth(st.ctl));
    RunOne('*', ThenGlob(tail, rest), st, mode);
  }
}
