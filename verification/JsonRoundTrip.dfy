/**
 Parsing what was printed gives the same tree back.
 */
module JsonRoundTrip {
  import opened Strings
  import opened Json

  // ----- Trees that can be printed and read back -----

  predicate NulFree(s: string) { forall i :: 0 <= i < |s| ==> s[i] != NUL }

  const NUMBER_BOUND: int := 1_000_000_000_000_000

  /** NUL-free strings, integers below 10^15 in magnitude, at most `room` levels of nesting. */
  predicate Printable(v: Value, room: int)
    decreases v
  {
    match v
    case Null => true
    case Bool(_) => true
    case Number(n) => -NUMBER_BOUND < n < NUMBER_BOUND
    case String(s) => NulFree(s)
    case Array(items) => room > 0 && forall i :: 0 <= i < |items| ==> Printable(items[i], room - 1)
    case Object(members) =>
      room > 0 && forall i :: 0 <= i < |members| ==> NulFree(members[i].key) && Printable(members[i].value, room - 1)
  }

  // ----- The printed text in front of `rest` -----

  function ThenEscape(s: string, rest: string): string
  {
    if s == [] then rest else EscapeChar(s[0]) + ThenEscape(s[1..], rest)
  }

  function ThenString(s: string, rest: string): string
  {
    ['"'] + ThenEscape(s, ['"'] + rest)
  }

  function ThenTabs(n: nat, rest: string): string
  {
    if n == 0 then rest else ['\t'] + ThenTabs(n - 1, rest)
  }

  function ThenValue(v: Value, fmt: bool, depth: nat, rest: string): string
    decreases v, 1
  {
    match v
    case Null => "null" + rest
    case Bool(b) => (if b then "true" else "false") + rest
    case Number(n) => PrintNumber(n) + rest
    case String(s) => ThenString(s, rest)
    case Array(items) => ['['] + ThenItems(items, fmt, depth + 1, [']'] + rest)
    case Object(members) => ['{'] + ThenBody(members, fmt, depth, ['}'] + rest)
  }

  /** The members of an object that itself sits `depth` deep. */
  function ThenBody(members: seq<Member>, fmt: bool, depth: nat, close: string): string
    decreases members, 1
  {
    if fmt then ['\n'] + ThenMembers(members, fmt, depth + 1, ThenTabs(depth, close))
    else ThenMembers(members, fmt, depth + 1, close)
  }

  function ThenItems(items: seq<Value>, fmt: bool, depth: nat, rest: string): string
    decreases items, 0
  {
    if items == [] then rest
    else if |items| == 1 then ThenValue(items[0], fmt, depth, rest)
    else
      var more := ThenItems(items[1..], fmt, depth, rest);
      ThenValue(items[0], fmt, depth, [','] + if fmt then [' '] + more else more)
  }

  function ThenMembers(members: seq<Member>, fmt: bool, depth: nat, rest: string): string
    decreases members, 0
  {
    if members == [] then rest
    else
      var more := ThenMembers(members[1..], fmt, depth, rest);
      var line := if fmt then ['\n'] + more else more;
      ThenMember(members[0], fmt, depth, if |members| > 1 then [','] + line else line)
  }

  function ThenMember(m: Member, fmt: bool, depth: nat, rest: string): string
    decreases m, 0
  {
    var value := ThenValue(m.value, fmt, depth, rest);
    var entry := ThenString(m.key, [':'] + if fmt then ['\t'] + value else value);
    if fmt then ThenTabs(depth, entry) else entry
  }

  // ----- Strings -----

  lemma FindQuotePast(c: char, t: string)
    ensures FindQuote(EscapeChar(c) + t) == if FindQuote(t) == -1 then -1 else |EscapeChar(c)| + FindQuote(t)
  {
    var e := EscapeChar(c);
    var s := e + t;
    if |e| == 1 {
      assert s[1..] == t;
    } else if |e| == 2 {
      assert s[2..] == t;
    } else {
      HexNotSpecial(c as int / 16);
      HexNotSpecial(c as int % 16);
      assert s[2..] == e[2..] + t;
      PlainRun(e[2..], t);
    }
  }

  lemma HexNotSpecial(n: nat)
    requires n < 16
    ensures HexDigit(n) != '"' && HexDigit(n) != '\\' && HexValue(HexDigit(n)) == n
  {
  }

  lemma {:induction false} PlainRun(p: string, t: string)
    requires forall i :: 0 <= i < |p| ==> p[i] != '"' && p[i] != '\\'
    ensures FindQuote(p + t) == if FindQuote(t) == -1 then -1 else |p| + FindQuote(t)
    decreases |p|
  {
    if p == [] {
      assert p + t == t;
    } else {
      assert (p + t)[1..] == p[1..] + t;
      PlainRun(p[1..], t);
    }
  }

  lemma {:induction false} QuoteFound(s: string, rest: string)
    ensures FindQuote(ThenEscape(s, ['"'] + rest)) == |Escape(s)|
    ensures ThenEscape(s, ['"'] + rest) == Escape(s) + (['"'] + rest)
    decreases |s|
  {
    if s != [] {
      QuoteFound(s[1..], rest);
      FindQuotePast(s[0], ThenEscape(s[1..], ['"'] + rest));
    }
  }

  lemma DecodeEscapeChar(c: char, t: string)
    requires c != NUL
    ensures Decode(EscapeChar(c) + t) == Then([c], Decode(t))
  {
    var e := EscapeChar(c);
    var s := e + t;
    if |e| == 1 {
      assert s[1..] == t;
    } else if |e| == 2 {
      assert s[2..] == t;
      assert SimpleEscape(e[1]) == c;
    } else {
      var hi, lo := c as int / 16, c as int % 16;
      HexNotSpecial(hi);
      HexNotSpecial(lo);
      assert s[2..][0] == '0' && s[2..][1] == '0' && s[2..][2] == HexDigit(hi) && s[2..][3] == HexDigit(lo);
      assert Hex4(s[2..]) == c as int;
      assert ReadUtf16(s) == Utf16([c], 6);
      assert s[6..] == t;
    }
  }

  lemma {:induction false} DecodeMore(s: string, e: string)
    requires s != [] && s[0] != NUL && Decode(e) == Text(s[1..])
    ensures Decode(EscapeChar(s[0]) + e) == Text(s)
  {
    DecodeEscapeChar(s[0], e);
    assert [s[0]] + s[1..] == s;
  }

  lemma {:induction false} DecodeEscape(s: string)
    requires NulFree(s)
    ensures Decode(Escape(s)) == Text(s)
    decreases |s|
  {
    if s != [] {
      DecodeEscape(s[1..]);
      DecodeMore(s, Escape(s[1..]));
    }
  }

  /** A literal whose closing quote is found at the end of e decodes as e does. */
  lemma {:induction false} LiteralReads(e: string, s: string, rest: string)
    requires FindQuote(e + (['"'] + rest)) == |e| && Decode(e) == Text(s)
    ensures ParseString(['"'] + (e + (['"'] + rest))) == Ok(s, rest)
  {
    var t := e + (['"'] + rest);
    assert (['"'] + t)[1..] == t;
    assert t[..|e|] == e && t[|e| + 1..] == rest;
  }

  /** String literals read back. */
  lemma StringReads(s: string, rest: string)
    requires NulFree(s)
    ensures ParseString(ThenString(s, rest)) == Ok(s, rest)
  {
    QuoteFound(s, rest);
    DecodeEscape(s);
    LiteralReads(Escape(s), s, rest);
  }

  // ----- Numbers -----

  function Pow10(k: nat): nat
  {
    if k == 0 then 1 else 10 * Pow10(k - 1)
  }

  lemma {:induction false} DigitCount(n: nat, k: nat)
    requires n < Pow10(k) && k > 0
    ensures |Digits(n)| <= k
    decreases k
  {
    if n >= 10 { DigitCount(n / 10, k - 1); }
  }

  lemma {:induction false} DigitsRead(n: nat, t: string)
    ensures ReadDigits(Digits(n) + t, 0, 0) == ReadDigits(t, n, |Digits(n)|)
    ensures forall i :: 0 <= i < |Digits(n)| ==> IsDigit(Digits(n)[i])
    decreases n
  {
    var d := [('0' as int + n % 10) as char];
    if n < 10 {
      assert (d + t)[1..] == t;
    } else {
      DigitsRead(n / 10, d + t);
      assert Digits(n) + t == Digits(n / 10) + (d + t);
      assert (d + t)[1..] == t;
    }
  }

  /** The end of a number shows: nothing that could continue it follows. */
  predicate Delimited(s: string)
  {
    s == [] || (!IsDigit(s[0]) && s[0] != '.' && s[0] != 'e' && s[0] != 'E')
  }

  lemma DigitsBounded(m: nat)
    requires m < NUMBER_BOUND
    ensures |Digits(m)| <= MAX_DIGITS
  {
    PowerOfTen();
    DigitCount(m, 15);
  }

  lemma DigitsEnd(m: nat, rest: string)
    requires Delimited(rest)
    ensures ReadDigits(Digits(m) + rest, 0, 0) == (m, |Digits(m)|, rest)
    ensures Digits(m) != [] && IsDigit(Digits(m)[0])
  {
    DigitsRead(m, rest);
  }

  lemma NumberOfDigits(t: string, m: nat, k: nat, rest: string)
    requires t != [] && IsDigit(t[0]) && ReadDigits(t, 0, 0) == (m, k, rest) && 0 < k <= MAX_DIGITS && Delimited(rest)
    ensures ParseNumber(t) == Ok(m, rest)
    ensures ParseNumber(['-'] + t) == Ok(0 - m, rest)
  {
    assert (['-'] + t)[1..] == t;
  }

  lemma NumberReads(n: int, rest: string)
    requires -NUMBER_BOUND < n < NUMBER_BOUND && Delimited(rest)
    ensures ParseNumber(PrintNumber(n) + rest) == Ok(n, rest)
    ensures PrintNumber(n) != [] && (PrintNumber(n)[0] == '-' || IsDigit(PrintNumber(n)[0]))
  {
    var m: nat := if n < 0 then -n else n;
    DigitsBounded(m);
    DigitsEnd(m, rest);
    NumberOfDigits(Digits(m) + rest, m, |Digits(m)|, rest);
    assert ['-'] + Digits(m) + rest == ['-'] + (Digits(m) + rest);
  }

  lemma PowerOfTen()
    ensures Pow10(15) == NUMBER_BOUND
  {
    assert Pow10(5) == 100_000;
    assert Pow10(10) == 10_000_000_000;
  }

  // ----- White space -----

  /** Text the parser will not skip. */
  predicate Solid(s: string) { s != [] && s[0] as int > 32 }

  lemma SkipSolid(s: string)
    requires Solid(s)
    ensures Skip(s) == s
  {
  }

  lemma SkipBlank(c: char, s: string)
    requires c as int <= 32 && Solid(s)
    ensures Skip([c] + s) == s
  {
    assert ([c] + s)[1..] == s && DropBlanks(s) == s;
  }

  lemma {:induction false} SkipTabs(n: nat, s: string)
    requires Solid(s)
    ensures DropBlanks(ThenTabs(n, s)) == s && Skip(ThenTabs(n, s)) == s
    ensures Skip(['\n'] + ThenTabs(n, s)) == s
    decreases n
  {
    var t := ThenTabs(n, s);
    if n > 0 {
      SkipTabs(n - 1, s);
      assert t[1..] == ThenTabs(n - 1, s);
    }
    assert (['\n'] + t)[1..] == t;
  }

  // ----- Values -----

  predicate StartsKeyword(s: string) { s != [] && (s[0] == 'n' || s[0] == 'f' || s[0] == 't') }

  lemma NotKeyword(s: string)
    requires !StartsKeyword(s)
    ensures !Prefixed(s, "null") && !Prefixed(s, "false") && !Prefixed(s, "true")
  {
  }

  lemma ValueStarts(v: Value, fmt: bool, depth: nat, rest: string, room: int)
    requires Printable(v, room) && Delimited(rest)
    ensures var s := ThenValue(v, fmt, depth, rest); Solid(s) && s[0] != ']' && s[0] != '}'
  {
    if v.Number? {
      NumberReads(v.n, rest);
      assert ThenValue(v, fmt, depth, rest)[0] == PrintNumber(v.n)[0];
    }
  }

  lemma KeywordReads(b: bool, rest: string, depth: nat)
    ensures ParseValue("null" + rest, depth) == Ok(Null, rest)
    ensures ParseValue((if b then "true" else "false") + rest, depth) == Ok(Bool(b), rest)
  {
    var s, t, f := "null" + rest, "true" + rest, "false" + rest;
    assert s[..4] == "null" && s[4..] == rest;
    assert t[..4] == "true" && t[4..] == rest && f[..5] == "false" && f[5..] == rest;
  }

  lemma {:induction false} ValueReads(v: Value, fmt: bool, depth: nat, rest: string, level: nat, room: nat)
    requires Printable(v, room) && level + room <= NESTING_LIMIT && Delimited(rest)
    ensures ParseValue(ThenValue(v, fmt, depth, rest), level) == Ok(v, rest)
    decreases v, 1
  {
    var s := ThenValue(v, fmt, depth, rest);
    match v
    case Null => KeywordReads(true, rest, level);
    case Bool(b) => KeywordReads(b, rest, level);
    case Number(n) =>
      NumberReads(n, rest);
      assert s[0] == PrintNumber(n)[0];
      NotKeyword(s);
    case String(str) =>
      NotKeyword(s);
      StringReads(str, rest);
    case Array(items) => ArrayReads(v, fmt, depth, rest, level, room);
    case Object(members) => ObjectReads(v, fmt, depth, rest, level, room);
  }

  /** From the list after the bracket to the array. */
  lemma ArrayFromItems(inner: string, level: nat, items: seq<Value>, rest: string)
    requires level < NESTING_LIMIT && ParseArray(inner, level + 1) == Ok(items, rest)
    ensures ParseValue(['['] + inner, level) == Ok(Array(items), rest)
  {
    NotKeyword(['['] + inner);
    assert (['['] + inner)[1..] == inner;
  }

  lemma {:induction false} EmptyItems(fmt: bool, depth: nat, rest: string, level: nat)
    requires level < NESTING_LIMIT
    ensures ParseValue(['['] + ThenItems([], fmt, depth, [']'] + rest), level) == Ok(Array([]), rest)
  {
    var close := [']'] + rest;
    SkipSolid(close);
    assert close[1..] == rest;
    ArrayFromItems(ThenItems([], fmt, depth, close), level, [], rest);
  }

  lemma FullItems(inner: string, level: nat, items: seq<Value>, rest: string)
    requires level < NESTING_LIMIT && Solid(inner) && inner[0] != ']'
    requires ParseElements(inner, level + 1) == Ok(items, rest)
    ensures ParseValue(['['] + inner, level) == Ok(Array(items), rest)
  {
    SkipSolid(inner);
    ArrayFromItems(inner, level, items, rest);
  }

  lemma {:induction false} ListReads(items: seq<Value>, fmt: bool, depth: nat, rest: string, level: nat, room: nat)
    requires room > 0 && level + room <= NESTING_LIMIT && AllPrintable(items, room - 1)
    ensures ParseValue(['['] + ThenItems(items, fmt, depth, [']'] + rest), level) == Ok(Array(items), rest)
    decreases items, 1
  {
    if items == [] {
      EmptyItems(fmt, depth, rest, level);
    } else {
      ItemsStart(items, fmt, depth, [']'] + rest, room - 1);
      ElementsRead(items, fmt, depth, rest, level + 1, room - 1);
      FullItems(ThenItems(items, fmt, depth, [']'] + rest), level, items, rest);
    }
  }

  lemma {:induction false} ArrayReads(v: Value, fmt: bool, depth: nat, rest: string, level: nat, room: nat)
    requires v.Array? && Printable(v, room) && level + room <= NESTING_LIMIT
    ensures ParseValue(ThenValue(v, fmt, depth, rest), level) == Ok(v, rest)
    decreases v, 0
  {
    ListReads(v.items, fmt, depth + 1, rest, level, room);
  }

  lemma ItemsStart(items: seq<Value>, fmt: bool, depth: nat, rest: string, room: int)
    requires items != [] && Delimited(rest) && AllPrintable(items, room)
    ensures var s := ThenItems(items, fmt, depth, rest); Solid(s) && s[0] != ']'
  {
    var after := if |items| == 1 then rest else
      var more := ThenItems(items[1..], fmt, depth, rest); [','] + if fmt then [' '] + more else more;
    ValueStarts(items[0], fmt, depth, after, room);
  }

  lemma LastElement(s: string, level: nat, v: Value, rest: string)
    requires Solid(s) && ParseValue(s, level) == Ok(v, [']'] + rest)
    ensures ParseElements(s, level) == Ok([v], rest)
  {
    SkipSolid(s);
    SkipSolid([']'] + rest);
    assert ([']'] + rest)[1..] == rest;
  }

  lemma NextElement(s: string, level: nat, v: Value, gap: string, more: string, vs: seq<Value>, rest: string)
    requires Solid(s) && ParseValue(s, level) == Ok(v, [','] + gap)
    requires Skip(gap) == Skip(more) && ParseElements(more, level) == Ok(vs, rest)
    ensures ParseElements(s, level) == Ok([v] + vs, rest)
  {
    SkipSolid(s);
    SkipSolid([','] + gap);
    assert ([','] + gap)[1..] == gap;
    SameElements(gap, more, level);
  }

  lemma GapSkips(fmt: bool, more: string)
    requires Solid(more)
    ensures Skip(if fmt then [' '] + more else more) == Skip(more)
  {
    SkipBlank(' ', more);
    SkipSolid(more);
  }

  predicate AllPrintable(items: seq<Value>, room: int)
  {
    forall i :: 0 <= i < |items| ==> Printable(items[i], room)
  }

  lemma {:induction false} OneItem(v: Value, fmt: bool, depth: nat, rest: string)
    ensures ThenItems([v], fmt, depth, rest) == ThenValue(v, fmt, depth, rest)
  {
    assert [v][1..] == [];
  }

  lemma {:induction false} MoreItems(items: seq<Value>, fmt: bool, depth: nat, rest: string)
    requires |items| > 1
    ensures
      var more := ThenItems(items[1..], fmt, depth, rest);
      ThenItems(items, fmt, depth, rest) == ThenValue(items[0], fmt, depth, [','] + if fmt then [' '] + more else more)
  {
  }

  lemma {:induction false} ElementsRead(items: seq<Value>, fmt: bool, depth: nat, rest: string, level: nat, room: nat)
    requires items != [] && level + room <= NESTING_LIMIT && AllPrintable(items, room)
    ensures ParseElements(ThenItems(items, fmt, depth, [']'] + rest), level) == Ok(items, rest)
    decreases items, 0
  {
    var close, v := [']'] + rest, items[0];
    ItemsStart(items, fmt, depth, close, room);
    if |items| == 1 {
      assert items == [v];
      OneItem(v, fmt, depth, close);
      ValueReads(v, fmt, depth, close, level, room);
      LastElement(ThenValue(v, fmt, depth, close), level, v, rest);
    } else {
      var more := ThenItems(items[1..], fmt, depth, close);
      var gap := if fmt then [' '] + more else more;
      MoreItems(items, fmt, depth, close);
      ValueReads(v, fmt, depth, [','] + gap, level, room);
      ElementsRead(items[1..], fmt, depth, rest, level, room);
      ItemsStart(items[1..], fmt, depth, close, room);
      GapSkips(fmt, more);
      NextElement(ThenValue(v, fmt, depth, [','] + gap), level, v, gap, more, items[1..], rest);
      assert items == [v] + items[1..];
    }
  }

  /** Leading white space does not matter to the element and member lists. */
  lemma SameElements(s: string, t: string, level: nat)
    requires Skip(s) == Skip(t)
    ensures ParseElements(s, level) == ParseElements(t, level)
  {
  }

  lemma SameMembers(s: string, t: string, level: nat)
    requires Skip(s) == Skip(t)
    ensures ParseMembers(s, level) == ParseMembers(t, level)
  {
    assert ParseKey(s) == ParseKey(t);
    assert ParseMember(s, level) == ParseMember(t, level);
  }

  lemma ObjectFromMembers(body: string, level: nat, members: seq<Member>, rest: string)
    requires level < NESTING_LIMIT && ParseObject(body, level + 1) == Ok(members, rest)
    ensures ParseValue(['{'] + body, level) == Ok(Object(members), rest)
  {
    NotKeyword(['{'] + body);
    assert (['{'] + body)[1..] == body;
  }

  lemma EmptyObject(fmt: bool, depth: nat, rest: string, level: nat)
    ensures ParseObject(ThenBody([], fmt, depth, ['}'] + rest), level) == Ok([], rest)
  {
    var close := ['}'] + rest;
    SkipTabs(depth, close);
    SkipSolid(close);
    assert close[1..] == rest;
  }

  /** The first key decides that the object is not empty. */
  lemma FullObject(body: string, inner: string, entry: string, level: nat, members: seq<Member>, rest: string)
    requires Solid(entry) && entry[0] == '"' && Skip(body) == entry && Skip(inner) == entry
    requires ParseMembers(inner, level) == Ok(members, rest)
    ensures ParseObject(body, level) == Ok(members, rest)
  {
    SkipSolid(entry);
    SameMembers(entry, inner, level);
  }

  lemma {:induction false} BodyReads(members: seq<Member>, fmt: bool, depth: nat, rest: string, level: nat, room: nat)
    requires members != [] && level + room <= NESTING_LIMIT
    requires AllMembersPrintable(members, room)
    ensures ParseObject(ThenBody(members, fmt, depth, ['}'] + rest), level) == Ok(members, rest)
    decreases members, 1
  {
    var close := ['}'] + rest;
    var end := if fmt then ThenTabs(depth, close) else close;
    var inner := ThenMembers(members, fmt, depth + 1, end);
    MembersRead(members, fmt, depth + 1, depth, rest, level, room);
    var entry := MembersStart(members, fmt, depth + 1, end);
    SkipTabs(depth + 1, entry);
    SkipSolid(entry);
    FullObject(ThenBody(members, fmt, depth, close), inner, entry, level, members, rest);
  }

  lemma {:induction false} ObjectReads(v: Value, fmt: bool, depth: nat, rest: string, level: nat, room: nat)
    requires v.Object? && Printable(v, room) && level + room <= NESTING_LIMIT
    ensures ParseValue(ThenValue(v, fmt, depth, rest), level) == Ok(v, rest)
    decreases v, 0
  {
    if v.members == [] {
      EmptyObject(fmt, depth, rest, level + 1);
    } else {
      BodyReads(v.members, fmt, depth, rest, level + 1, room - 1);
    }
    ObjectFromMembers(ThenBody(v.members, fmt, depth, ['}'] + rest), level, v.members, rest);
  }

  /** A member list starts with a key, behind its indentation. */
  lemma MembersStart(members: seq<Member>, fmt: bool, depth: nat, rest: string) returns (entry: string)
    requires members != []
    ensures Solid(entry) && entry[0] == '"'
    ensures ThenMembers(members, fmt, depth, rest) == if fmt then ThenTabs(depth, entry) else entry
  {
    var more := ThenMembers(members[1..], fmt, depth, rest);
    var line := if fmt then ['\n'] + more else more;
    var value := ThenValue(members[0].value, fmt, depth, if |members| > 1 then [','] + line else line);
    entry := ThenString(members[0].key, [':'] + if fmt then ['\t'] + value else value);
  }

  lemma {:induction false} MemberReads(m: Member, fmt: bool, depth: nat, rest: string, level: nat, room: nat)
    requires NulFree(m.key) && Printable(m.value, room) && level + room <= NESTING_LIMIT && Delimited(rest)
    ensures ParseMember(ThenMember(m, fmt, depth, rest), level) == Ok(m, rest)
    decreases m, 0
  {
    var value := ThenValue(m.value, fmt, depth, rest);
    var colon := [':'] + if fmt then ['\t'] + value else value;
    var entry := ThenString(m.key, colon);
    ValueStarts(m.value, fmt, depth, rest, room);
    ValueReads(m.value, fmt, depth, rest, level, room);
    SkipTabs(depth, entry);
    SkipSolid(entry);
    StringReads(m.key, colon);
    SkipSolid(colon);
    SkipBlank('\t', value);
    SkipSolid(value);
    assert colon[1..] == if fmt then ['\t'] + value else value;
    assert ParseKey(ThenMember(m, fmt, depth, rest)) == Ok(m.key, colon[1..]);
  }

  lemma LastMember(s: string, level: nat, m: Member, r: string, rest: string)
    requires ParseMember(s, level) == Ok(m, r) && Skip(r) == ['}'] + rest
    ensures ParseMembers(s, level) == Ok([m], rest)
  {
    assert (['}'] + rest)[1..] == rest;
  }

  lemma NextMember(s: string, level: nat, m: Member, line: string, more: string, ms: seq<Member>, rest: string)
    requires ParseMember(s, level) == Ok(m, [','] + line)
    requires Skip(line) == Skip(more) && ParseMembers(more, level) == Ok(ms, rest)
    ensures ParseMembers(s, level) == Ok([m] + ms, rest)
  {
    SkipSolid([','] + line);
    assert ([','] + line)[1..] == line;
    SameMembers(line, more, level);
  }

  /** The line break before the next member, or before the closing brace, does not matter. */
  lemma LineSkips(fmt: bool, tabs: nat, entry: string)
    requires Solid(entry)
    ensures var more := if fmt then ThenTabs(tabs, entry) else entry;
            Skip(if fmt then ['\n'] + more else more) == entry && Skip(more) == entry
  {
    SkipTabs(tabs, entry);
    SkipSolid(entry);
  }

  predicate AllMembersPrintable(members: seq<Member>, room: int)
  {
    forall i :: 0 <= i < |members| ==> NulFree(members[i].key) && Printable(members[i].value, room)
  }

  /** What stands behind the last member. */
  function ObjectEnd(fmt: bool, tabs: nat, rest: string): string
  {
    var close := ['}'] + rest;
    if fmt then ThenTabs(tabs, close) else close
  }

  lemma {:induction false} LastMemberRead(m: Member, fmt: bool, depth: nat, tabs: nat, rest: string, level: nat,
                                          room: nat)
    requires level + room <= NESTING_LIMIT && AllMembersPrintable([m], room)
    ensures ParseMembers(ThenMembers([m], fmt, depth, ObjectEnd(fmt, tabs, rest)), level) == Ok([m], rest)
    decreases m, 1
  {
    var end := ObjectEnd(fmt, tabs, rest);
    var line := if fmt then ['\n'] + end else end;
    OneMember(m, fmt, depth, end);
    assert [m][0] == m;
    MemberReads(m, fmt, depth, line, level, room);
    LineSkips(fmt, tabs, ['}'] + rest);
    LastMember(ThenMember(m, fmt, depth, line), level, m, line, rest);
  }

  lemma {:induction false} OneMember(m: Member, fmt: bool, depth: nat, end: string)
    ensures ThenMembers([m], fmt, depth, end) == ThenMember(m, fmt, depth, if fmt then ['\n'] + end else end)
  {
    assert [m][1..] == [];
    assert ThenMembers([m][1..], fmt, depth, end) == end;
  }

  lemma {:induction false} MoreMembersRead(m: Member, ms: seq<Member>, fmt: bool, depth: nat, tabs: nat, rest: string,
                                           level: nat, room: nat)
    requires ms != [] && level + room <= NESTING_LIMIT && NulFree(m.key) && Printable(m.value, room)
    requires ParseMembers(ThenMembers(ms, fmt, depth, ObjectEnd(fmt, tabs, rest)), level) == Ok(ms, rest)
    ensures ParseMembers(ThenMembers([m] + ms, fmt, depth, ObjectEnd(fmt, tabs, rest)), level) == Ok([m] + ms, rest)
    decreases m, 1
  {
    var end := ObjectEnd(fmt, tabs, rest);
    var more := ThenMembers(ms, fmt, depth, end);
    var line := if fmt then ['\n'] + more else more;
    MemberReads(m, fmt, depth, [','] + line, level, room);
    var entry := MembersStart(ms, fmt, depth, end);
    LineSkips(fmt, depth, entry);
    assert ([m] + ms)[0] == m && ([m] + ms)[1..] == ms;
    NextMember(ThenMembers([m] + ms, fmt, depth, end), level, m, line, more, ms, rest);
  }

  lemma {:induction false} MembersRead(members: seq<Member>, fmt: bool, depth: nat, tabs: nat, rest: string,
                                       level: nat, room: nat)
    requires members != [] && level + room <= NESTING_LIMIT && AllMembersPrintable(members, room)
    ensures ParseMembers(ThenMembers(members, fmt, depth, ObjectEnd(fmt, tabs, rest)), level) == Ok(members, rest)
    decreases members, 0
  {
    if |members| == 1 {
      assert members == [members[0]];
      LastMemberRead(members[0], fmt, depth, tabs, rest, level, room);
    } else {
      var m, ms := members[0], members[1..];
      assert members == [m] + ms;
      MembersRead(ms, fmt, depth, tabs, rest, level, room);
      MoreMembersRead(m, ms, fmt, depth, tabs, rest, level, room);
    }
  }

  // ----- The printed text is that text -----

  lemma {:induction false} EscapeSpelled(s: string, rest: string)
    ensures ThenEscape(s, rest) == Escape(s) + rest
    decreases |s|
  {
    if s != [] { EscapeSpelled(s[1..], rest); }
  }

  lemma StringSpelled(s: string, rest: string)
    ensures ThenString(s, rest) == PrintString(s) + rest
  {
    EscapeSpelled(s, ['"'] + rest);
  }

  lemma {:induction false} TabsSpelled(n: nat, rest: string)
    ensures ThenTabs(n, rest) == Tabs(n) + rest
    decreases n
  {
    if n > 0 { TabsSpelled(n - 1, rest); }
  }

  lemma {:induction false} ValueSpelled(v: Value, fmt: bool, depth: nat, rest: string)
    ensures ThenValue(v, fmt, depth, rest) == Print(v, fmt, depth) + rest
    decreases v, 1
  {
    match v
    case String(s) => StringSpelled(s, rest);
    case Array(items) =>
      ItemsSpelled(items, fmt, depth + 1, [']'] + rest);
      Bracketed("[", PrintItems(items, fmt, depth + 1), [], "]", rest);
    case Object(members) => ObjectSpelled(v, fmt, depth, rest);
    case _ =>
  }

  lemma Bracketed(a: string, b: string, c: string, d: string, rest: string)
    ensures a + b + c + d + rest == a + (b + (c + (d + rest)))
    ensures a + b + d + rest == a + (b + (d + rest))
  {
  }

  lemma {:induction false} ObjectSpelled(v: Value, fmt: bool, depth: nat, rest: string)
    requires v.Object?
    ensures ThenValue(v, fmt, depth, rest) == Print(v, fmt, depth) + rest
    decreases v, 0
  {
    var close := ['}'] + rest;
    var inner := PrintMembers(v.members, fmt, depth + 1);
    if fmt {
      TabsSpelled(depth, close);
      MembersSpelled(v.members, fmt, depth + 1, ThenTabs(depth, close));
      FormattedBraces(inner, Tabs(depth), rest);
    } else {
      MembersSpelled(v.members, fmt, depth + 1, close);
      PlainBraces(inner, rest);
    }
  }

  lemma FormattedBraces(inner: string, tabs: string, rest: string)
    ensures ['{'] + (['\n'] + (inner + (tabs + (['}'] + rest)))) == "{\n" + inner + tabs + ['}'] + rest
  {
  }

  lemma PlainBraces(inner: string, rest: string)
    ensures ['{'] + (inner + (['}'] + rest)) == "{" + inner + [] + ['}'] + rest
  {
  }

  lemma {:induction false} ItemsSpelled(items: seq<Value>, fmt: bool, depth: nat, rest: string)
    ensures ThenItems(items, fmt, depth, rest) == PrintItems(items, fmt, depth) + rest
    decreases items, 0
  {
    if |items| == 1 {
      ValueSpelled(items[0], fmt, depth, rest);
    } else if items != [] {
      var first, more := Print(items[0], fmt, depth), PrintItems(items[1..], fmt, depth);
      var sep := if fmt then ", " else ",";
      ItemsSpelled(items[1..], fmt, depth, rest);
      ValueSpelled(items[0], fmt, depth, sep + (more + rest));
      assert sep + (more + rest) == [','] + if fmt then [' '] + (more + rest) else more + rest;
      Shift(sep, more, rest);
      Shift(first, sep + more, rest);
    }
  }

  lemma {:induction false} MembersSpelled(members: seq<Member>, fmt: bool, depth: nat, rest: string)
    ensures ThenMembers(members, fmt, depth, rest) == PrintMembers(members, fmt, depth) + rest
    decreases members, 0
  {
    if members != [] {
      var first, more := PrintMember(members[0], fmt, depth), PrintMembers(members[1..], fmt, depth);
      var comma, eol := if |members| > 1 then "," else "", if fmt then "\n" else "";
      MembersSpelled(members[1..], fmt, depth, rest);
      var line := eol + (more + rest);
      assert line == if fmt then ['\n'] + (more + rest) else more + rest;
      assert comma + line == if |members| > 1 then [','] + line else line;
      MemberSpelled(members[0], fmt, depth, comma + line);
      Shift(eol, more, rest);
      Shift(comma, eol + more, rest);
      Shift(first, comma + (eol + more), rest);
    }
  }

  lemma {:induction false} MemberSpelled(m: Member, fmt: bool, depth: nat, rest: string)
    ensures ThenMember(m, fmt, depth, rest) == PrintMember(m, fmt, depth) + rest
    decreases m, 0
  {
    var key, value := PrintString(m.key), Print(m.value, fmt, depth);
    ValueSpelled(m.value, fmt, depth, rest);
    if fmt {
      assert [':'] + (['\t'] + (value + rest)) == ":\t" + (value + rest);
      EntrySpelled(m.key, ":\t", value, rest);
      TabsSpelled(depth, key + (":\t" + value) + rest);
      Shift(Tabs(depth), key + (":\t" + value), rest);
    } else {
      EntrySpelled(m.key, ":", value, rest);
      assert [] + (key + (":" + value)) == key + (":" + value);
    }
  }

  lemma EntrySpelled(key: string, colon: string, value: string, rest: string)
    ensures ThenString(key, colon + (value + rest)) == PrintString(key) + (colon + value) + rest
  {
    StringSpelled(key, colon + (value + rest));
    Shift(colon, value, rest);
    Shift(PrintString(key), colon + value, rest);
  }

  // ----- Main result -----

  /** Printing, formatted or not, and parsing gives the same tree, with the same order of children and keys. */
  lemma PrintThenParse(v: Value, fmt: bool)
    requires Printable(v, NESTING_LIMIT)
    ensures Parse(Print(v, fmt, 0)) == Ok(v, [NUL])
  {
    var s := Print(v, fmt, 0) + [NUL];
    ValueSpelled(v, fmt, 0, [NUL]);
    ValueStarts(v, fmt, 0, [NUL], NESTING_LIMIT);
    FirstByte(v, fmt, 0, [NUL]);
    SkipSolid(s);
    ValueReads(v, fmt, 0, [NUL], 0, NESTING_LIMIT);
  }

  /** Printed text does not look like it starts with a byte order mark. */
  lemma FirstByte(v: Value, fmt: bool, depth: nat, rest: string)
    requires v.Number? ==> -NUMBER_BOUND < v.n < NUMBER_BOUND
    requires Delimited(rest)
    ensures ThenValue(v, fmt, depth, rest) != [] && (ThenValue(v, fmt, depth, rest)[0] as int) < 0x80
  {
    if v.Number? {
      NumberReads(v.n, rest);
      assert ThenValue(v, fmt, depth, rest)[0] == PrintNumber(v.n)[0];
    }
  }

  // ----- What the parser returns can be printed -----

  /** Integers below 10^15 in magnitude, at most `room` levels of nesting. */
  predicate Fits(v: Value, room: int)
    decreases v
  {
    match v
    case Number(n) => -NUMBER_BOUND < n < NUMBER_BOUND
    case Array(items) => room > 0 && forall i :: 0 <= i < |items| ==> Fits(items[i], room - 1)
    case Object(members) => room > 0 && forall i :: 0 <= i < |members| ==> Fits(members[i].value, room - 1)
    case _ => true
  }

  /** No string or key of the tree holds a NUL. */
  predicate WithoutNul(v: Value)
    decreases v
  {
    match v
    case String(s) => NulFree(s)
    case Array(items) => forall i :: 0 <= i < |items| ==> WithoutNul(items[i])
    case Object(members) => forall i :: 0 <= i < |members| ==> NulFree(members[i].key) && WithoutNul(members[i].value)
    case _ => true
  }

  lemma {:induction false} FitsIsPrintable(v: Value, room: int)
    requires Fits(v, room) && WithoutNul(v)
    ensures Printable(v, room)
    decreases v
  {
    match v
    case Array(items) =>
      forall i | 0 <= i < |items| ensures Printable(items[i], room - 1) { FitsIsPrintable(items[i], room - 1); }
    case Object(members) =>
      forall i | 0 <= i < |members| ensures Printable(members[i].value, room - 1) {
        FitsIsPrintable(members[i].value, room - 1);
      }
    case _ =>
  }

  lemma {:induction false} DigitsBound(s: string, acc: nat, n: nat)
    requires acc < Pow10(n)
    ensures ReadDigits(s, acc, n).0 < Pow10(ReadDigits(s, acc, n).1)
    decreases |s|
  {
    if s != [] && IsDigit(s[0]) {
      DigitsBound(s[1..], acc * 10 + (s[0] as int - '0' as int), n + 1);
    }
  }

  lemma {:induction false} PowersGrow(n: nat, m: nat)
    requires n <= m
    ensures Pow10(n) <= Pow10(m)
    decreases m
  {
    if n < m { PowersGrow(n, m - 1); }
  }

  lemma NumberFits(s: string)
    requires Json.ParseNumber(s).Ok?
    ensures -NUMBER_BOUND < Json.ParseNumber(s).value < NUMBER_BOUND
  {
    var t := if s != [] && s[0] == '-' then s[1..] else s;
    DigitsBound(t, 0, 0);
    PowersGrow(ReadDigits(t, 0, 0).1, MAX_DIGITS);
    PowerOfTen();
  }

  lemma {:induction false} ParsedFits(s: string, depth: nat)
    requires depth <= NESTING_LIMIT && ParseValue(s, depth).Ok?
    ensures Fits(ParseValue(s, depth).value, NESTING_LIMIT - depth)
    decreases |s|, 1
  {
    var v := ParseValue(s, depth).value;
    if v.Number? {
      NumberFits(s);
    } else if v.Array? {
      ArrayFits(s[1..], depth + 1);
    } else if v.Object? {
      ObjectFits(s[1..], depth + 1);
    }
  }

  lemma {:induction false} ArrayFits(s: string, depth: nat)
    requires depth <= NESTING_LIMIT && ParseArray(s, depth).Ok?
    ensures forall i :: 0 <= i < |ParseArray(s, depth).value| ==>
      Fits(ParseArray(s, depth).value[i], NESTING_LIMIT - depth)
    decreases |s|, 3
  {
    if Skip(s)[0] != ']' { ElementsFit(Skip(s), depth); }
  }

  lemma {:induction false} ElementsFit(s: string, depth: nat)
    requires depth <= NESTING_LIMIT && ParseElements(s, depth).Ok?
    ensures forall i :: 0 <= i < |ParseElements(s, depth).value| ==>
      Fits(ParseElements(s, depth).value[i], NESTING_LIMIT - depth)
    decreases |s|, 2
  {
    var v := ParseValue(Skip(s), depth);
    ParsedFits(Skip(s), depth);
    var t := Skip(v.rest);
    if t[0] == ',' { ElementsFit(t[1..], depth); }
  }

  lemma {:induction false} ObjectFits(s: string, depth: nat)
    requires depth <= NESTING_LIMIT && ParseObject(s, depth).Ok?
    ensures forall i :: 0 <= i < |ParseObject(s, depth).value| ==>
      Fits(ParseObject(s, depth).value[i].value, NESTING_LIMIT - depth)
    decreases |s|, 4
  {
    if Skip(s)[0] != '}' { MembersFit(Skip(s), depth); }
  }

  lemma {:induction false} MembersFit(s: string, depth: nat)
    requires depth <= NESTING_LIMIT && ParseMembers(s, depth).Ok?
    ensures forall i :: 0 <= i < |ParseMembers(s, depth).value| ==>
      Fits(ParseMembers(s, depth).value[i].value, NESTING_LIMIT - depth)
    decreases |s|, 3
  {
    ParsedFits(Skip(ParseKey(s).rest), depth);
    var t := Skip(ParseMember(s, depth).rest);
    if t[0] == ',' { MembersFit(t[1..], depth); }
  }

  /** A text that parses to a tree without NUL can be printed again, and then parses to the same tree. */
  lemma {:induction false} ParsePrintParse(text: string, fmt: bool)
    requires Parse(text).Ok? && WithoutNul(Parse(text).value)
    ensures Parse(Print(Parse(text).value, fmt, 0)) == Ok(Parse(text).value, [NUL])
  {
    var s := text + [NUL];
    ParsedFits(Skip(if |s| > 4 && Prefixed(s, [0xEF as char, 0xBB as char, 0xBF as char]) then s[3..] else s), 0);
    FitsIsPrintable(Parse(text).value, NESTING_LIMIT);
    PrintThenParse(Parse(text).value, fmt);
  }

  /** A backslash left over by a short escape takes the closing quote. */
  lemma {:induction false} QuoteAfterShortEscape()
    ensures ParseString("\"\\u000\\\\\"") == Ok([NUL, '"'], "")
  {
    var body := "\\u000\\\\";
    ShortEscapeBody(body);
    assert body + (['"'] + "") == "\\u000\\\\\"";
    ShortEscapeQuote(body + (['"'] + ""));
    LiteralReads(body, [NUL, '"'], "");
    assert ['"'] + (body + (['"'] + "")) == "\"\\u000\\\\\"";
  }

  lemma ShortEscapeBody(body: string)
    requires body == "\\u000\\\\"
    ensures Decode(body) == Text([NUL, '"'])
  {
    assert ReadUtf16(body) == Utf16([NUL], 6);
    assert body[6..] == ['\\'];
    assert Decode(['\\']) == Text(['"']);
    assert [NUL] + ['"'] == [NUL, '"'];
  }

  lemma ShortEscapeQuote(s: string)
    requires s == "\\u000\\\\\""
    ensures FindQuote(s) == 7
  {
    var a, b, c, d, e := s[2..], s[3..], s[4..], s[5..], s[7..];
    assert a[1..] == b && b[1..] == c && c[1..] == d && d[2..] == e && e[0] == '"';
    assert FindQuote(e) == 0;
    assert FindQuote(d) == 2;
    assert FindQuote(c) == 3;
    assert FindQuote(b) == 4;
  }
}
