/**
 The glob scanner of the policy compiler, convert_aaregex_to_pcre: one pass over
 the pattern with escape, character-class and alternation state, emitting regex text.
 */
module GlobScanner {
  import opened Strings
  import opened Regex

  /** glob_default forbids NUL in wildcards, glob_null allows it. */
  datatype Mode = Default | Null

  /** pattern_t */
  datatype Pattern = Basic | TailGlob | Regular | Invalid

  const MAX_ALT_DEPTH: nat := 50

  /** The scanner's flags. `counts` holds the comma count of each open group, innermost last. */
  datatype Control = Control(esc: bool, counts: seq<nat>, inClass: bool, ptype: Pattern, err: bool)

  const START := Control(false, [], false, Basic, false)

  function Depth(c: Control): nat { |c.counts| }

  predicate StarPair(s: string) { |s| >= 2 && s[0] == '*' && s[1] == '*' }

  /** The flags after the character at the head of `s`. */
  function NextControl(s: string, c: Control): Control
    requires s != []
  {
    var ch := s[0];
    if c.esc then c.(esc := false)
    else if ch == '\\' then c.(esc := true)
    else if ch == '*' then
      c.(ptype := if StarPair(s) && |s| == 2 && c.ptype == Basic then TailGlob else Regular)
    else if ch == '?' then c.(ptype := Regular)
    else if ch == '[' then c.(inClass := true, ptype := Regular)
    else if ch == ']' then c.(inClass := false, err := !c.inClass)
    else if c.inClass then c
    else if ch == '{' then
      if Depth(c) + 1 >= MAX_ALT_DEPTH then c.(err := true)
      else c.(counts := c.counts + [0], ptype := Regular)
    else if ch == '}' then
      if Depth(c) == 0 || c.counts[Depth(c) - 1] == 0 then c.(err := true)
      else c.(counts := c.counts[..Depth(c) - 1])
    else if ch == ',' && Depth(c) > 0 then
      c.(counts := c.counts[Depth(c) - 1 := c.counts[Depth(c) - 1] + 1])
    else c
  }

  predicate IsAnchor(c: char) { c == '^' || c == '$' }

  /** Regex operators that globs do not have. */
  predicate IsForeign(c: char) { c == '.' || c == '+' || c == '|' || c == '(' || c == ')' }

  predicate IsBracket(c: char) { c == '[' || c == ']' || c == '{' || c == '}' }

  /** Characters the scanner handles itself when they are escaped. */
  predicate IsEscapable(c: char)
  {
    c == '\\' || c == '*' || c == '?' || c == ',' || IsBracket(c) || IsAnchor(c)
  }

  /** How much of `s` one turn of the scanner loop uses. */
  function Consumed(s: string, c: Control): (n: nat)
    requires s != []
    ensures 1 <= n <= |s|
  {
    if c.esc then
      if IsEscapable(s[0]) then 1
      else var e := ReadEscape(s, ""); if e.Escaped? then e.len else 1
    else if StarPair(s) then 2 else 1
  }

  /** One path-segment character. */
  function SegText(mode: Mode): string
  {
    if mode == Default then "[^/\\x00]" else "[^/]"
  }

  /** Any run of characters. */
  function AnyText(mode: Mode): string
  {
    if mode == Default then "[^\\x00]*" else ".*"
  }

  /** What follows the run of stars at the head of `s`. */
  function PastStars(s: string): (r: string)
    ensures |r| <= |s|
  {
    if s != [] && s[0] == '*' then PastStars(s[1..]) else s
  }

  /** A star run fills a whole path component when it follows a slash and precedes a slash or the end. */
  predicate FillsComponent(s: string, pcre: string)
  {
    EndsInSlash(pcre) && (PastStars(s) == [] || PastStars(s)[0] == '/')
  }

  /** The text one turn appends for an escaped character. */
  function EscapedText(s: string, c: Control): string
    requires s != []
  {
    var ch := s[0];
    if ch == '\\' || ch == '*' || IsBracket(ch) then ['\\', ch]
    else if ch == '?' then [ch]
    else if ch == ',' then (if c.inClass then ['\\', ch] else [ch])
    else if IsAnchor(ch) then (if c.inClass then [ch] else ['\\', ch])
    else
      var e := ReadEscape(s, "");
      (if IsForeign(ch) then "\\" else "") +
      (if e.Escaped? then "\\" + s[..e.len] else [ch])
  }

  /** The text one turn appends to `pcre`. */
  function Appended(s: string, c: Control, pcre: string, mode: Mode): string
    requires s != []
  {
    var ch := s[0];
    if c.esc then EscapedText(s, c)
    else if ch == '\\' then ""
    else if ch == '*' then
      (if FillsComponent(s, pcre) then SegText(mode) else "") +
      (if StarPair(s) then AnyText(mode) else SegText(mode) + "*")
    else if ch == '?' then SegText(mode)
    else if ch == '{' && !c.inClass then (if Depth(c) + 1 >= MAX_ALT_DEPTH then "" else "(")
    else if ch == '}' && !c.inClass then ")"
    else if ch == ',' && !c.inClass && Depth(c) > 0 then "|"
    else if IsAnchor(ch) && !c.inClass then ['\\', ch]
    else if IsForeign(ch) then ['\\', ch]
    else [ch]
  }

  datatype State = State(ctl: Control, pcre: string)

  function Turn(s: string, st: State, mode: Mode): State
    requires s != []
  {
    State(NextControl(s, st.ctl), st.pcre + Appended(s, st.ctl, st.pcre, mode))
  }

  /** The scanner loop: runs until the end of the pattern or the first error. */
  function Run(s: string, st: State, mode: Mode): State
    decreases |s|
  {
    if s == [] || st.ctl.err then st
    else Run(s[Consumed(s, st.ctl)..], Turn(s, st, mode), mode)
  }

  /** The checks after the loop. */
  predicate Finished(c: Control)
  {
    !c.err && c.counts == [] && !c.inClass && !c.esc
  }

  function Convert(aare: string, anchor: bool, mode: Mode, pcre: string): (Pattern, string)
  {
    var st := Run(aare, State(START, if anchor then pcre + "^" else pcre), mode);
    if Finished(st.ctl) then (st.ctl.ptype, if anchor then st.pcre + "$" else st.pcre)
    else (Invalid, st.pcre)
  }

  // ----- The scanner loop as written, over a fixed nesting table -----

  /** The escaped half of the scanner's switch. */
  method EscapedCharacter(aare: string, sptr: nat, ghost c: Control, inCharClass: bool)
    returns (text: string, n: nat)
    requires sptr < |aare| && c.esc && inCharClass == c.inClass
    ensures text == EscapedText(aare[sptr..], c) && n == Consumed(aare[sptr..], c)
  {
    var ch := aare[sptr];
    text, n := [], 1;
    if ch == '\\' || ch == '*' || IsBracket(ch) {
      text := ['\\', ch];
    } else if ch == '?' {
      text := [ch];
    } else if ch == ',' {
      text := if inCharClass then ['\\', ch] else [ch];
    } else if IsAnchor(ch) {
      text := if inCharClass then [ch] else ['\\', ch];
    } else {
      if IsForeign(ch) { text := "\\"; }
      var e := ReadEscape(aare[sptr..], "");
      if e.Escaped? {
        text := text + ("\\" + aare[sptr..][..e.len]);
        n := e.len;
      } else {
        text := text + [ch];
      }
    }
  }

  /** Unescaped `*`: how the run is read and what it appends. */
  method StarCharacter(aare: string, sptr: nat, ghost c: Control, ptype: Pattern, pcre: string, mode: Mode)
    returns (text: string, n: nat, newType: Pattern)
    requires sptr < |aare| && aare[sptr] == '*' && !c.esc && ptype == c.ptype
    ensures text == Appended(aare[sptr..], c, pcre, mode) && n == Consumed(aare[sptr..], c)
    ensures NextControl(aare[sptr..], c) == c.(ptype := newType)
  {
    text := "";
    if EndsInSlash(pcre) {
      var rest := PastStars(aare[sptr..]);
      if rest == [] || rest[0] == '/' { text := SegText(mode); }
    }
    if sptr + 1 < |aare| && aare[sptr + 1] == '*' {
      newType := if sptr + 2 == |aare| && ptype == Basic then TailGlob else Regular;
      text, n := text + AnyText(mode), 2;
    } else {
      text, n, newType := text + (SegText(mode) + "*"), 1, Regular;
    }
  }

  ghost predicate NestingTable(table: seq<int>)
  {
    |table| == MAX_ALT_DEPTH && table[0] == 0 && forall i :: 0 <= i < |table| ==> table[i] >= 0
  }

  /** Unescaped `{`, `}` and `,` outside a character class, over the nesting table. */
  method GroupCharacter(ch: char, groupingCount: array<int>, depth: int, ghost c: Control, ghost s: string)
    returns (text: string, newDepth: int, error: bool)
    requires s != [] && s[0] == ch && (ch == '{' || ch == '}' || ch == ',')
    requires NestingTable(groupingCount[..]) && 0 <= depth < MAX_ALT_DEPTH
    requires !c.esc && !c.inClass && !c.err && c.counts == Counts(groupingCount[..], depth)
    modifies groupingCount
    ensures NestingTable(groupingCount[..]) && 0 <= newDepth
    ensures forall pcre, mode :: text == Appended(s, c, pcre, mode)
    ensures error == NextControl(s, c).err
    ensures !error ==> newDepth < MAX_ALT_DEPTH && NextControl(s, c).counts == Counts(groupingCount[..], newDepth)
  {
    ghost var table := groupingCount[..];
    text, newDepth, error := [ch], depth, false;
    if ch == '{' {
      newDepth := depth + 1;
      if newDepth >= MAX_ALT_DEPTH {
        error, text := true, "";
      } else {
        CountsPush(table, depth);
        groupingCount[newDepth] := 0;
        assert groupingCount[..] == table[newDepth := 0];
        text := "(";
      }
    } else if ch == '}' {
      if groupingCount[depth] == 0 { error := true; }
      newDepth := depth - 1;
      if newDepth < 0 { error, newDepth := true, 0; } else { CountsPop(table, depth); }
      text := ")";
    } else if depth > 0 {
      CountsBump(table, depth);
      groupingCount[depth] := groupingCount[depth] + 1;
      assert groupingCount[..] == table[depth := table[depth] + 1];
      text := "|";
    }
  }

  /** What one character appends, how far it reads, and the flags it leaves. */
  method ScanCharacter(aare: string, sptr: nat, escape: bool, inCharClass: bool, ptype: Pattern,
                       groupingCount: array<int>, inGrouping: int, ghost c: Control, pcre: string, mode: Mode)
    returns (text: string, n: nat, escape': bool, inCharClass': bool, ptype': Pattern, inGrouping': int, error: bool)
    requires sptr < |aare| && NestingTable(groupingCount[..]) && 0 <= inGrouping < MAX_ALT_DEPTH
    requires c == Control(escape, Counts(groupingCount[..], inGrouping), inCharClass, ptype, false)
    modifies groupingCount
    ensures NestingTable(groupingCount[..]) && 0 <= inGrouping' && (!error ==> inGrouping' < MAX_ALT_DEPTH)
    ensures n == Consumed(aare[sptr..], c) && text == Appended(aare[sptr..], c, pcre, mode)
    ensures error <==> NextControl(aare[sptr..], c).err
    ensures !error ==>
      NextControl(aare[sptr..], c)
      == Control(escape', Counts(groupingCount[..], inGrouping'), inCharClass', ptype', false)
  {
    var ch := aare[sptr];
    text, n, escape', inCharClass', ptype', inGrouping', error := "", 1, false, inCharClass, ptype, inGrouping, false;
    if ch == '\\' && !escape {
      escape' := true;
    } else if escape {
      text, n := EscapedCharacter(aare, sptr, c, inCharClass);
    } else if ch == '*' {
      text, n, ptype' := StarCharacter(aare, sptr, c, ptype, pcre, mode);
    } else if ch == '?' {
      text, ptype' := SegText(mode), Regular;
    } else if ch == '[' {
      text, inCharClass', ptype' := [ch], true, Regular;
    } else if ch == ']' {
      text, error, inCharClass' := [ch], !inCharClass, false;
    } else if (ch == '{' || ch == '}' || ch == ',') && !inCharClass {
      text, inGrouping', error := GroupCharacter(ch, groupingCount, inGrouping, c, aare[sptr..]);
      if ch == '{' && !error { ptype' := Regular; }
    } else if IsAnchor(ch) && !inCharClass {
      text := ['\\', ch];
    } else {
      text := if IsForeign(ch) then ['\\', ch] else [ch];
    }
  }

  /** The state a scan from a position ends in, as a function of the position and the state there. */
  type Outcome = (nat, State) -> State

  ghost predicate Scans(end: Outcome, aare: string, mode: Mode)
  {
    forall k: nat, st {:trigger Run(aare[k..], st, mode)} :: k <= |aare| ==> end(k, st) == Run(aare[k..], st, mode)
  }

  /** A turn leads to the same end; an error, or the end of the text, is the end. */
  lemma ScansOn(end: Outcome, aare: string, sptr: nat, st: State, n: nat, text: string, mode: Mode)
    requires Scans(end, aare, mode) && sptr < |aare| && !st.ctl.err
    requires n == Consumed(aare[sptr..], st.ctl) && text == Appended(aare[sptr..], st.ctl, st.pcre, mode)
    ensures 0 < n && sptr + n <= |aare|
    ensures var st' := State(NextControl(aare[sptr..], st.ctl), st.pcre + text);
            end(sptr, st) == end(sptr + n, st') && (st'.ctl.err ==> end(sptr, st) == st')
  {
    OneTurn(aare, sptr, st, n, text, mode);
  }

  lemma ScansOut(end: Outcome, aare: string, st: State, mode: Mode)
    requires Scans(end, aare, mode)
    ensures end(|aare|, st) == st
  {
    assert Run(aare[|aare|..], st, mode) == st;
  }

  /** The body of the scanner loop; st is the state the variables stand for. */
  method Advance(aare: string, sptr: nat, escape: bool, inCharClass: bool, ptype: Pattern,
                 groupingCount: array<int>, inGrouping: int, pcre: string, mode: Mode, ghost st: State,
                 ghost end: Outcome)
    returns (pcre': string, sptr': nat, escape': bool, inCharClass': bool, ptype': Pattern, inGrouping': int,
             error: bool, ghost st': State)
    requires sptr < |aare| && NestingTable(groupingCount[..]) && 0 <= inGrouping < MAX_ALT_DEPTH
    requires st == State(Control(escape, Counts(groupingCount[..], inGrouping), inCharClass, ptype, false), pcre)
    requires Scans(end, aare, mode)
    modifies groupingCount
    ensures NestingTable(groupingCount[..]) && 0 <= inGrouping' && (!error ==> inGrouping' < MAX_ALT_DEPTH)
    ensures sptr < sptr' <= |aare|
    ensures !error ==>
      st' == State(Control(escape', Counts(groupingCount[..], inGrouping'), inCharClass', ptype', false), pcre')
    ensures !error ==> end(sptr, st) == end(sptr', st')
    ensures error ==> end(sptr, st).ctl.err && end(sptr, st).pcre == pcre'
  {
    var text, n;
    text, n, escape', inCharClass', ptype', inGrouping', error :=
      ScanCharacter(aare, sptr, escape, inCharClass, ptype, groupingCount, inGrouping, st.ctl, pcre, mode);
    ScansOn(end, aare, sptr, st, n, text, mode);
    st' := State(NextControl(aare[sptr..], st.ctl), pcre + text);
    pcre', sptr' := pcre + text, sptr + n;
  }

  /** The scanner loop, from the flags at the start to those at the end of the text or at an error. */
  method ScanText(aare: string, start: string, mode: Mode, ghost end: Outcome)
    returns (pcre: string, escape: bool, inCharClass: bool, inGrouping: int, ptype: Pattern, error: bool)
    requires Scans(end, aare, mode)
    ensures var final := end(0, State(START, start));
            && final.pcre == pcre && final.ctl.err == error
            && (!error ==>
              && final.ctl.esc == escape && final.ctl.inClass == inCharClass
              && |final.ctl.counts| == inGrouping && final.ctl.ptype == ptype)
  {
    pcre := start;
    var sptr := 0;
    error, escape, inCharClass, inGrouping := false, false, false, 0;
    var groupingCount := new int[MAX_ALT_DEPTH](i => 0);
    ptype := Basic;
    ghost var st := State(START, pcre);
    ghost var final := end(0, st);
    assert Counts(groupingCount[..], 0) == [];

    while !error && sptr < |aare|
      invariant 0 <= sptr <= |aare|
      invariant NestingTable(groupingCount[..]) && 0 <= inGrouping && (!error ==> inGrouping < MAX_ALT_DEPTH)
      invariant !error ==>
        st == State(Control(escape, Counts(groupingCount[..], inGrouping), inCharClass, ptype, false), pcre)
      invariant !error ==> final == end(sptr, st)
      invariant error ==> final.ctl.err && final.pcre == pcre
      decreases !error, |aare| - sptr
    {
      pcre, sptr, escape, inCharClass, ptype, inGrouping, error, st :=
        Advance(aare, sptr, escape, inCharClass, ptype, groupingCount, inGrouping, pcre, mode, st, end);
    }
    ScansOut(end, aare, st, mode);
  }

  method ConvertAaregexToPcre(aare: string, anchor: bool, mode: Mode, buffer: string)
    returns (ptype: Pattern, pcre: string)
    ensures (ptype, pcre) == Convert(aare, anchor, mode, buffer)
  {
    pcre := buffer;
    if anchor { pcre := pcre + "^"; }
    var escape, inCharClass, inGrouping, error;
    ghost var end: Outcome := (k: nat, st: State) => if k <= |aare| then Run(aare[k..], st, mode) else st;
    assert aare[0..] == aare;
    pcre, escape, inCharClass, inGrouping, ptype, error := ScanText(aare, pcre, mode, end);
    if !error && (inGrouping > 0 || inCharClass) { error := true; }
    if !error && escape { error := true; }
    if !error && anchor { pcre := pcre + "$"; }
    if error { ptype := Invalid; }
  }

  lemma OneTurn(aare: string, sptr: nat, st: State, n: nat, text: string, mode: Mode)
    requires sptr < |aare| && !st.ctl.err
    requires n == Consumed(aare[sptr..], st.ctl) && text == Appended(aare[sptr..], st.ctl, st.pcre, mode)
    ensures sptr + n <= |aare|
    ensures Run(aare[sptr..], st, mode)
         == Run(aare[sptr + n..], State(NextControl(aare[sptr..], st.ctl), st.pcre + text), mode)
  {
    assert aare[sptr..][n..] == aare[sptr + n..];
  }

  /** The open groups' comma counts: entries 1..depth of the nesting table. */
  ghost function Counts(table: seq<int>, depth: int): seq<nat>
    requires 0 <= depth < |table|
    requires forall i :: 0 <= i < |table| ==> table[i] >= 0
  {
    table[1..depth + 1]
  }

  lemma CountsPush(table: seq<int>, depth: nat)
    requires depth + 1 < |table| && forall i :: 0 <= i < |table| ==> table[i] >= 0
    ensures Counts(table[depth + 1 := 0], depth + 1) == Counts(table, depth) + [0]
  {
  }

  lemma CountsPop(table: seq<int>, depth: nat)
    requires 0 < depth < |table| && forall i :: 0 <= i < |table| ==> table[i] >= 0
    ensures Counts(table, depth - 1) == Counts(table, depth)[..depth - 1]
    ensures Counts(table, depth)[depth - 1] == table[depth]
  {
  }

  lemma CountsBump(table: seq<int>, depth: nat)
    requires 0 < depth < |table| && forall i :: 0 <= i < |table| ==> table[i] >= 0
    ensures Counts(table[depth := table[depth] + 1], depth)
         == Counts(table, depth)[depth - 1 := Counts(table, depth)[depth - 1] + 1]
  {
  }
}
