/**
 Patterns put together in one buffer: a list of values as alternatives
 (build_list_val_expr) and a pattern behind a class byte.
 */
module ValueLists {
  import opened Strings
  import opened Regex
  import opened GlobScanner
  import opened GlobGrammar
  import opened GlobMeaning
  import opened GlobReadBack
  import opened GlobParse
  import opened GlobTheorem
  import opened ByteText

  /** The values from the first on, each behind what the buffer already holds. */
  function Alternatives(buffer: string, list: seq<string>): (bool, string)
    requires list != []
    decreases |list|
  {
    var (ptype, pcre) := Convert(list[0], false, Default, buffer);
    if ptype == Invalid then (false, pcre)
    else if |list| == 1 then (true, pcre + ")")
    else Alternatives(pcre + "|", list[1..])
  }

  /** A missing list matches anything. */
  function ListExpr(buffer: string, list: seq<string>): (bool, string)
  {
    if list == [] then (true, buffer + ANY) else Alternatives(buffer + "(", list)
  }

  method BuildListValExpr(buffer: string, list: seq<string>) returns (ok: bool, out: string)
    ensures (ok, out) == ListExpr(buffer, list)
  {
    if list == [] {
      return true, buffer + ANY;
    }
    out := buffer + "(";
    var ptype;
    ptype, out := ConvertAaregexToPcre(list[0], false, Default, out);
    if ptype == Invalid { return false, out; }
    assert list[1..] != [] ==> Alternatives(out + "|", list[1..]) == ListExpr(buffer, list);
    for i := 1 to |list|
      invariant i < |list| ==> Alternatives(out + "|", list[i..]) == ListExpr(buffer, list)
      invariant i == |list| ==> (true, out + ")") == ListExpr(buffer, list)
    {
      ghost var was := out;
      out := out + "|";
      assert list[i..][0] == list[i] && list[i..][1..] == list[i + 1..];
      ptype, out := ConvertAaregexToPcre(list[i], false, Default, out);
      if ptype == Invalid { return false, out; }
    }
    return true, out + ")";
  }

  // ----- What the list denotes -----

  predicate AllAccepted(gs: seq<Glob>)
  {
    forall i :: 0 <= i < |gs| ==> Accepted(gs[i])
  }

  predicate Accepted(g: Glob) { WellFormed(g, 0) && AsRead(g) && Plain(g) }

  ghost function Meant(g: Glob): Language { GlobLang(Fused(g), Default, Other, true) }

  ghost predicate MeantByOne(gs: seq<Glob>, w: Word)
  {
    exists i :: 0 <= i < |gs| && w in Meant(gs[i])
  }

  ghost function AnyOf(gs: seq<Glob>): Language
  {
    iset w: Word | MeantByOne(gs, w)
  }

  function Texts(gs: seq<Glob>): seq<string>
  {
    if gs == [] then [] else [Text(gs[0])] + Texts(gs[1..])
  }

  /** What stands behind the first value: the other values, each after a bar, and the closing parenthesis. */
  ghost predicate Tail(text: string, l: Language)
  {
    forall acc, rest :: TailAt(acc, text, rest, l)
  }

  ghost predicate TailAt(acc: Re, text: string, rest: string, l: Language)
  {
    exists e :: ParseAlternatives(acc, Lex(text + rest)) == Ok(e, Tok(Op(')'), Lex(rest))) && Lang(e) == Lang(acc) + l
  }

  lemma CloseIsTail()
    ensures Tail(")", iset{})
  {
    forall acc, rest ensures TailAt(acc, ")", rest, iset{}) {
      LexPlain(')', rest);
      assert Lang(acc) + iset{} == Lang(acc);
      assert ParseAlternatives(acc, Lex(")" + rest)) == Ok(acc, Tok(Op(')'), Lex(rest)));
    }
  }

  /** A text that stands inside the parentheses closes what is in front of it. */
  predicate Ends(text: string) { text != "" && (text[0] == '|' || text[0] == ')') }

  lemma EndsReads(text: string, rest: string)
    requires Ends(text)
    ensures var ts := Lex(text + rest);
            Settled(ts) && NoDigit(text + rest) && (Starts(ts, '|') || Starts(ts, ')'))
  {
    assert text + rest == [text[0]] + (text[1..] + rest);
    LexPlain(text[0], text[1..] + rest);
  }

  lemma ReadValue(value: string, l: Language, tail: string, rest: string) returns (acc: Re)
    requires Denotes(value, l) && Ends(tail)
    ensures ParseTerms(Eps, Lex(value + (tail + rest))) == ParseTerms(acc, Lex(tail + rest)) && Lang(acc) == l
  {
    EndsReads(tail, rest);
    assert AddsTo(Eps, value, tail + rest, l);
    acc :| ParseTerms(Eps, Lex(value + (tail + rest))) == ParseTerms(acc, Lex(tail + rest))
        && Lang(acc) == Concat(Lang(Eps), l);
    FromEmpty(l);
  }

  lemma ReadTail(acc: Re, tail: string, more: Language, rest: string) returns (e: Re)
    requires Tail(tail, more)
    ensures ParseAlternatives(acc, Lex(tail + rest)) == Ok(e, Tok(Op(')'), Lex(rest))) && Lang(e) == Lang(acc) + more
  {
    assert TailAt(acc, tail, rest, more);
    e :| ParseAlternatives(acc, Lex(tail + rest)) == Ok(e, Tok(Op(')'), Lex(rest))) && Lang(e) == Lang(acc) + more;
  }

  lemma Regroup(open: char, value: string, tail: string, rest: string)
    ensures [open] + value + tail + rest == [open] + (value + (tail + rest))
  {
  }

  lemma BarAt(acc: Re, value: string, l: Language, tail: string, more: Language, rest: string)
    requires Denotes(value, l) && Ends(tail) && Tail(tail, more)
    ensures TailAt(acc, "|" + value + tail, rest, l + more)
  {
    var r := tail + rest;
    var acc1 := ReadValue(value, l, tail, rest);
    EndsReads(tail, rest);
    Regroup('|', value, tail, rest);
    LexPlain('|', value + r);
    BarStep(acc, Lex(value + r), acc1, Lex(r));
    LangAlt(acc, acc1);
    var e := ReadTail(Alt(acc, acc1), tail, more, rest);
    assert Lang(acc) + l + more == Lang(acc) + (l + more);
  }

  lemma BarTail(value: string, l: Language, tail: string, more: Language)
    requires Denotes(value, l) && Ends(tail) && Tail(tail, more)
    ensures Tail("|" + value + tail, l + more)
  {
    forall acc, rest ensures TailAt(acc, "|" + value + tail, rest, l + more) {
      BarAt(acc, value, l, tail, more, rest);
    }
  }

  lemma ParenAt(acc: Re, value: string, l: Language, tail: string, more: Language, rest: string)
    requires Denotes(value, l) && Ends(tail) && Tail(tail, more) && Settled(Lex(rest))
    ensures AddsTo(acc, "(" + value + tail, rest, l + more)
  {
    var r := tail + rest;
    var acc1 := ReadValue(value, l, tail, rest);
    EndsReads(tail, rest);
    var e := ReadTail(acc1, tail, more, rest);
    ReadParen(value + r, r, acc1, e, rest);
    Regroup('(', value, tail, rest);
    TermStep(acc, Lex(['('] + (value + r)), e, Lex(rest));
    CatAllLang(acc, e);
  }

  lemma ParenDenotes(value: string, l: Language, tail: string, more: Language)
    requires Denotes(value, l) && Ends(tail) && Tail(tail, more)
    ensures Denotes("(" + value + tail, l + more)
  {
    forall acc, rest | Settled(Lex(rest)) && NoDigit(rest) ensures AddsTo(acc, "(" + value + tail, rest, l + more) {
      ParenAt(acc, value, l, tail, more, rest);
    }
  }

  lemma AnyOfCons(gs: seq<Glob>)
    requires gs != []
    ensures AnyOf(gs) == Meant(gs[0]) + AnyOf(gs[1..])
  {
    forall w ensures MeantByOne(gs, w) <==> w in Meant(gs[0]) || MeantByOne(gs[1..], w) {
      if i :| 0 <= i < |gs| && w in Meant(gs[i]) {
        if i > 0 { assert gs[1..][i - 1] == gs[i]; }
      }
      if i :| 0 <= i < |gs[1..]| && w in Meant(gs[1..][i]) { assert gs[i + 1] == gs[1..][i]; }
    }
  }

  /** One value of the list. */
  lemma {:induction false} ValueText(g: Glob, buffer: string) returns (text: string)
    requires Accepted(g) && !EndsInSlash(buffer)
    ensures Convert(Text(g), false, Default, buffer).0 != Invalid
    ensures Convert(Text(g), false, Default, buffer).1 == buffer + text && Denotes(text, Meant(g))
  {
    text := CompilingPreservesMeaning(g, Default, buffer);
  }

  lemma ListStep(buffer: string, list: seq<string>, value: string)
    requires list != [] && Convert(list[0], false, Default, buffer).0 != Invalid
    requires Convert(list[0], false, Default, buffer).1 == buffer + value
    ensures Alternatives(buffer, list) == Others(buffer + value, list[1..])
  {
  }

  /** What is done behind a value. */
  function Others(buffer: string, list: seq<string>): (bool, string)
  {
    if list == [] then (true, buffer + ")") else Alternatives(buffer + "|", list)
  }

  lemma TextsTail(gs: seq<Glob>)
    requires gs != []
    ensures Texts(gs) != [] && Texts(gs)[0] == Text(gs[0]) && Texts(gs)[1..] == Texts(gs[1..])
  {
  }

  lemma {:induction false} OthersDenote(gs: seq<Glob>, buffer: string) returns (text: string)
    requires AllAccepted(gs)
    ensures Others(buffer, Texts(gs)) == (true, buffer + text)
    ensures Ends(text) && Tail(text, AnyOf(gs))
    decreases |gs|
  {
    if gs == [] {
      text := ")";
      CloseIsTail();
      assert AnyOf(gs) == iset{};
    } else {
      var value := ValueText(gs[0], buffer + "|");
      TextsTail(gs);
      ListStep(buffer + "|", Texts(gs), value);
      var more := OthersDenote(gs[1..], buffer + "|" + value);
      BarTail(value, Meant(gs[0]), more, AnyOf(gs[1..]));
      AnyOfCons(gs);
      text := "|" + value + more;
      Regroup3(buffer, "|", value, more);
    }
  }

  /** A list of patterns denotes the words that one of them matches. */
  lemma {:induction false} ListDenotesUnion(gs: seq<Glob>, buffer: string) returns (text: string)
    requires gs != [] && AllAccepted(gs)
    ensures ListExpr(buffer, Texts(gs)) == (true, buffer + text)
    ensures Denotes(text, AnyOf(gs))
  {
    var value := ValueText(gs[0], buffer + "(");
    TextsTail(gs);
    ListStep(buffer + "(", Texts(gs), value);
    var more := OthersDenote(gs[1..], buffer + "(" + value);
    ParenDenotes(value, Meant(gs[0]), more, AnyOf(gs[1..]));
    AnyOfCons(gs);
    text := "(" + value + more;
    Regroup3(buffer, "(", value, more);
  }

  // ----- A pattern behind a byte -----

  lemma {:induction false} ByteOpens(b: nat)
    requires b < 256
    ensures Opens(HexByte(b), Chr(b))
  {
    forall rest | Settled(Lex(rest)) ensures ParseTerms(Eps, Lex(HexByte(b) + rest)) == ParseTerms(Chr(b), Lex(rest)) {
      LexByte(b, rest);
      TermStep(Eps, Lex(HexByte(b) + rest), Chr(b), Lex(rest));
    }
  }

  lemma NoSlash(b: nat)
    requires b < 256
    ensures !EndsInSlash(HexByte(b))
  {
  }

  /** The class byte of a rule and then its first pattern. */
  lemma {:induction false} BehindByte(b: nat, g: Glob, mode: Mode)
    requires b < 256 && Accepted(g)
    ensures
      var (ptype, pcre) := Convert(Text(g), false, mode, HexByte(b));
      && ptype != Invalid
      && ReadRegex(pcre).Ok?
      && Lang(ReadRegex(pcre).value) == Concat(Lang(Chr(b)), GlobLang(Fused(g), mode, Other, true))
  {
    ByteOpens(b);
    NoSlash(b);
    CompiledRegex(g, mode, HexByte(b), Chr(b));
  }
}
