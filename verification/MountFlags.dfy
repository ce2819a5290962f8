/** Sets of mount flags as patterns over the ascending string of their flag numbers. */
module MountFlags {
  import opened ByteText
  import opened GlobReadBack
  import opened Ports
  import opened Regex

  // A flag word is the set of positions of its one bits.
  type Flags = set<int>

  const WIDTH := 32

  /** Every flag the compiler knows; bits 9, 22 and from 26 on are not among them. */
  const MS_ALL_FLAGS: Flags :=
    {0, 1, 2, 3, 4, 5, 6, 7, 8, 10, 11, 12, 13, 14, 15, 16, 17, 18, 19, 20, 21, 23, 24, 25}

  const NOTHING := "(" + HexByte(254) + "|)"

  /** What is written for bit i; nothing when the flag is neither required nor optional. */
  function FlagText(flags: Flags, optional: Flags, i: nat): string {
    if i >= WIDTH then ""
    else if i in optional then "(" + HexByte(i + 1) + "|)" else if i in flags then HexByte(i + 1) else ""
  }

  /** The texts from bit i on, put together. */
  function Joined(i: nat, text: nat -> string): string
    requires i <= WIDTH
    decreases WIDTH - i
  {
    if i == WIDTH then "" else text(i) + Joined(i + 1, text)
  }

  function Texts(flags: Flags, optional: Flags): nat -> string {
    (j: nat) => FlagText(flags, optional, j)
  }

  function TextFrom(i: nat, flags: Flags, optional: Flags): string
    requires i <= WIDTH
  {
    Joined(i, Texts(flags, optional))
  }

  function PatternText(flags: Flags, optional: Flags): string {
    if flags == MS_ALL_FLAGS then ANY
    else if TextFrom(0, flags, optional) == "" then NOTHING
    else TextFrom(0, flags, optional)
  }

  /** Room the pattern needs: its text and a terminator, and one byte more for the text that matches nothing. */
  function Room(flags: Flags, optional: Flags): nat {
    if flags != MS_ALL_FLAGS && TextFrom(0, flags, optional) == "" then 9 else |PatternText(flags, optional)| + 1
  }

  lemma Advance(buffer: string, text: string, later: string)
    ensures buffer + (text + later) == (buffer + text) + later
    ensures text == "" ==> buffer + (text + later) == buffer + later
  {
    assert text == "" ==> text + later == later;
  }

  /** Writes the texts one after the other while there is room. */
  method WriteAll(size: nat, text: nat -> string) returns (ok: bool, buffer: string)
    ensures ok <==> Joined(0, text) == "" || |Joined(0, text)| < size
    ensures ok ==> buffer == Joined(0, text)
  {
    buffer := "";
    var room := size;
    for i := 0 to WIDTH
      invariant buffer + Joined(i, text) == Joined(0, text)
      invariant room + |buffer| == size && (buffer == "" || room > 0)
    {
      Advance(buffer, text(i), Joined(i + 1, text));
      if text(i) != "" {
        if |text(i)| >= room {
          return false, buffer;
        }
        buffer := buffer + text(i);
        room := room - |text(i)|;
      }
    }
    ok := true;
  }

  method BuildMntFlags(size: nat, flags: Flags, optional: Flags) returns (ok: bool, buffer: string)
    ensures ok <==> Room(flags, optional) <= size
    ensures ok ==> buffer == PatternText(flags, optional)
  {
    if flags == MS_ALL_FLAGS {
      return |ANY| < size, ANY;
    }
    ok, buffer := WriteAll(size, Texts(flags, optional));
    if ok && buffer == "" {
      if size < 9 {
        return false, buffer;
      }
      buffer := NOTHING;
    }
  }

  // ----- What the pattern matches -----

  /** w spells the flags from bit i on: required ones are there, optional ones may be. */
  predicate Spells(i: nat, flags: Flags, optional: Flags, w: Word)
    requires i <= WIDTH
    decreases WIDTH - i
  {
    if i == WIDTH then w == []
    else
      var taken := w != [] && w[0] == i + 1 && Spells(i + 1, flags, optional, w[1..]);
      if i in optional then taken || Spells(i + 1, flags, optional, w)
      else if i in flags then taken
      else Spells(i + 1, flags, optional, w)
  }

  ghost function SpelledFrom(i: nat, flags: Flags, optional: Flags): Language
    requires i <= WIDTH
  {
    iset w: Word | Spells(i, flags, optional, w)
  }

  /** The ascending byte string of a set of flags, from bit i on. */
  function Encoding(i: nat, f: Flags): (w: Word)
    requires i <= WIDTH
    ensures forall k :: 0 <= k < |w| ==> i < w[k] <= WIDTH
    decreases WIDTH - i
  {
    if i == WIDTH then [] else (if i in f then [i + 1] else []) + Encoding(i + 1, f)
  }

  predicate Admits(i: nat, flags: Flags, optional: Flags, f: Flags) {
    forall j :: i <= j < WIDTH ==> (j in flags && j !in optional ==> j in f) && (j in f ==> j in flags || j in optional)
  }

  lemma AdmitsStep(i: nat, flags: Flags, optional: Flags, f: Flags)
    requires i < WIDTH
    ensures Admits(i, flags, optional, f) <==>
      && Admits(i + 1, flags, optional, f)
      && (i in flags && i !in optional ==> i in f) && (i in f ==> i in flags || i in optional)
  {}

  lemma {:induction false} EncodingStep(i: nat, f: Flags)
    requires i < WIDTH
    ensures Encoding(i, f) == if i in f then [i + 1] + Encoding(i + 1, f) else Encoding(i + 1, f)
  {
    assert [] + Encoding(i + 1, f) == Encoding(i + 1, f);
  }

  lemma {:induction false} SpellsEncoding(i: nat, flags: Flags, optional: Flags, f: Flags)
    requires i <= WIDTH
    ensures Spells(i, flags, optional, Encoding(i, f)) <==> Admits(i, flags, optional, f)
    decreases WIDTH - i
  {
    if i < WIDTH {
      SpellsEncoding(i + 1, flags, optional, f);
      AdmitsStep(i, flags, optional, f);
      EncodingStep(i, f);
      if i in f {
        SpellsTaken(i, flags, optional, Encoding(i + 1, f));
      } else {
        SpellsSkipped(i, flags, optional, Encoding(i + 1, f));
      }
    }
  }

  lemma {:induction false} SpellsTaken(i: nat, flags: Flags, optional: Flags, rest: Word)
    requires i < WIDTH
    ensures Spells(i, flags, optional, [i + 1] + rest) <==>
      (i in flags || i in optional) && Spells(i + 1, flags, optional, rest)
  {
    var w := [i + 1] + rest;
    assert w[0] == i + 1 && w[1..] == rest;
    NotLater(i + 1, flags, optional, w);
  }

  lemma {:induction false} SpellsSkipped(i: nat, flags: Flags, optional: Flags, rest: Word)
    requires i < WIDTH && (rest != [] ==> rest[0] != i + 1)
    ensures Spells(i, flags, optional, rest) <==>
      !(i in flags && i !in optional) && Spells(i + 1, flags, optional, rest)
  {}

  /** A word that starts with an earlier flag does not spell later ones. */
  lemma {:induction false} NotLater(i: nat, flags: Flags, optional: Flags, w: Word)
    requires i <= WIDTH && w != [] && w[0] <= i
    ensures !Spells(i, flags, optional, w)
    decreases WIDTH - i
  {
    if i < WIDTH {
      NotLater(i + 1, flags, optional, w);
    }
  }

  // ----- Reading the pattern back -----

  function OptionalText(b: nat): string
    requires b < 256
  {
    "(" + HexByte(b) + "|)"
  }

  lemma LexOptional(b: nat, rest: string)
    requires b < 256
    ensures Lex(OptionalText(b) + rest) == Tok(Op('('), Tok(Char(b), Tok(Op('|'), Tok(Op(')'), Lex(rest)))))
  {
    var close := [')'] + rest;
    var bar := ['|'] + close;
    LexOp(')', rest);
    LexOp('|', close);
    LexByte(b, bar);
    LexOp('(', HexByte(b) + bar);
    OptionalRegroup(HexByte(b), rest);
  }

  lemma OptionalRegroup(a: string, rest: string)
    ensures "(" + a + "|)" + rest == ['('] + (a + (['|'] + ([')'] + rest)))
  {
    assert "|)" == ['|'] + [')'];
  }

  lemma ParseOptional(b: nat, ts: Tokens)
    ensures ParseTerm(Tok(Op('('), Tok(Char(b), Tok(Op('|'), Tok(Op(')'), ts))))) == Ok(Alt(Chr(b), Eps), ts)
  {
    var close := Tok(Op(')'), ts);
    var bar := Tok(Op('|'), close);
    assert ParseTerms(Chr(b), bar) == Ok(Chr(b), bar);
    assert ParseTerms(Eps, Tok(Char(b), bar)) == Ok(Chr(b), bar);
    assert ParseTerms(Eps, close) == Ok(Eps, close);
    assert ParseAlternatives(Alt(Chr(b), Eps), close) == Ok(Alt(Chr(b), Eps), close);
    assert ParseAlternatives(Chr(b), bar) == Ok(Alt(Chr(b), Eps), close);
  }

  ghost function FlagRe(flags: Flags, optional: Flags, i: nat): Re {
    if i in optional then Alt(Chr(i + 1), Eps) else if i in flags then Chr(i + 1) else Eps
  }

  lemma FlagMatch(i: nat, flags: Flags, optional: Flags, u: Word)
    ensures Matches(FlagRe(flags, optional, i), u) <==>
      || (u == [i + 1] && (i in flags || i in optional))
      || (u == [] && (i in optional || i !in flags))
  {
    if i in optional {
      assert Matches(Alt(Chr(i + 1), Eps), u) <==> Matches(Chr(i + 1), u) || Matches(Eps, u);
    }
  }

  lemma FlagWord(i: nat, flags: Flags, optional: Flags, w: Word)
    requires i < WIDTH
    ensures w in Concat(Lang(FlagRe(flags, optional, i)), SpelledFrom(i + 1, flags, optional))
       <==> w in SpelledFrom(i, flags, optional)
  {
    var a, later := Lang(FlagRe(flags, optional, i)), SpelledFrom(i + 1, flags, optional);
    FlagMatch(i, flags, optional, []);
    assert w[0..] == w && w[..0] == [];
    if w in Concat(a, later) {
      var k :| CutAt(a, later, w, k);
      FlagMatch(i, flags, optional, w[..k]);
      assert k > 0 ==> w[..k][0] == w[0];
    }
    if w in SpelledFrom(i, flags, optional) {
      if w != [] && w[0] == i + 1 && w[1..] in later && (i in flags || i in optional) {
        assert w[..1] == [i + 1];
        FlagMatch(i, flags, optional, w[..1]);
        assert CutAt(a, later, w, 1);
      } else {
        assert CutAt(a, later, w, 0);
      }
    }
  }

  lemma FlagLang(i: nat, flags: Flags, optional: Flags)
    requires i < WIDTH
    ensures Concat(Lang(FlagRe(flags, optional, i)), SpelledFrom(i + 1, flags, optional))
         == SpelledFrom(i, flags, optional)
  {
    var a, later := Lang(FlagRe(flags, optional, i)), SpelledFrom(i + 1, flags, optional);
    forall w ensures w in Concat(a, later) <==> w in SpelledFrom(i, flags, optional) {
      FlagWord(i, flags, optional, w);
    }
  }

  lemma {:induction false} TextStep(i: nat, flags: Flags, optional: Flags)
    requires i < WIDTH
    ensures TextFrom(i, flags, optional) ==
      if i in optional then OptionalText(i + 1) + TextFrom(i + 1, flags, optional)
      else if i in flags then HexByte(i + 1) + TextFrom(i + 1, flags, optional)
      else TextFrom(i + 1, flags, optional)
  {
    var rest := TextFrom(i + 1, flags, optional);
    assert TextFrom(i, flags, optional) == FlagText(flags, optional, i) + rest;
    assert "" + rest == rest;
  }

  function FlagTokens(i: nat, flags: Flags, optional: Flags): Tokens
    requires i <= WIDTH
    decreases WIDTH - i
  {
    if i == WIDTH then End
    else
      var rest := FlagTokens(i + 1, flags, optional);
      if i in optional then Tok(Op('('), Tok(Char(i + 1), Tok(Op('|'), Tok(Op(')'), rest))))
      else if i in flags then Tok(Char(i + 1), rest)
      else rest
  }

  lemma {:induction false} LexFlag(i: nat, flags: Flags, optional: Flags)
    requires i < WIDTH
    ensures
      var rest := Lex(TextFrom(i + 1, flags, optional));
      Lex(TextFrom(i, flags, optional)) ==
        if i in optional then Tok(Op('('), Tok(Char(i + 1), Tok(Op('|'), Tok(Op(')'), rest))))
        else if i in flags then Tok(Char(i + 1), rest)
        else rest
  {
    TextStep(i, flags, optional);
    if i in optional {
      LexOptional(i + 1, TextFrom(i + 1, flags, optional));
    } else if i in flags {
      LexByte(i + 1, TextFrom(i + 1, flags, optional));
    }
  }

  lemma {:induction false} LexFlags(i: nat, flags: Flags, optional: Flags)
    requires i <= WIDTH
    ensures Lex(TextFrom(i, flags, optional)) == FlagTokens(i, flags, optional)
    decreases WIDTH - i
  {
    if i < WIDTH {
      LexFlags(i + 1, flags, optional);
      LexFlag(i, flags, optional);
    }
  }

  lemma {:induction false} TokensSettled(i: nat, flags: Flags, optional: Flags)
    requires i <= WIDTH
    ensures Settled(FlagTokens(i, flags, optional))
    decreases WIDTH - i
  {
    if i < WIDTH {
      TokensSettled(i + 1, flags, optional);
    }
  }

  /** Reading one flag's tokens. */
  lemma {:induction false} FlagStep(i: nat, flags: Flags, optional: Flags, acc: Re, ts: Tokens, rest: Tokens)
    returns (next: Re)
    requires i < WIDTH && ts == FlagTokens(i, flags, optional) && rest == FlagTokens(i + 1, flags, optional)
    ensures ParseTerms(acc, ts) == ParseTerms(next, rest)
    ensures Lang(next) == Concat(Lang(acc), Lang(FlagRe(flags, optional, i)))
  {
    var re := FlagRe(flags, optional, i);
    if i in optional || i in flags {
      TokensSettled(i + 1, flags, optional);
      if i in optional {
        ParseOptional(i + 1, rest);
      }
      TermStep(acc, ts, re, rest);
      next := CatAll(acc, re);
      CatAllLang(acc, re);
    } else {
      next := acc;
      assert Lang(Eps) == Unit();
      ConcatUnit(Lang(acc));
    }
  }

  /** The flags from i on extend what was read by one flag and the later ones. */
  lemma {:induction false} Extends(i: nat, flags: Flags, optional: Flags, acc: Re, next: Re, acc': Re)
    requires i < WIDTH && Lang(next) == Concat(Lang(acc), Lang(FlagRe(flags, optional, i)))
    requires Lang(acc') == Concat(Lang(next), SpelledFrom(i + 1, flags, optional))
    ensures Lang(acc') == Concat(Lang(acc), SpelledFrom(i, flags, optional))
  {
    FlagLang(i, flags, optional);
    ConcatAssoc(Lang(acc), Lang(FlagRe(flags, optional, i)), SpelledFrom(i + 1, flags, optional));
  }

  lemma {:induction false} NoneLeft(flags: Flags, optional: Flags, acc: Re)
    ensures ParseTerms(acc, End) == Ok(acc, End)
    ensures Lang(acc) == Concat(Lang(acc), SpelledFrom(WIDTH, flags, optional))
  {
    assert SpelledFrom(WIDTH, flags, optional) == Unit();
    ConcatUnit(Lang(acc));
  }

  lemma {:induction false} ParseFlags(i: nat, flags: Flags, optional: Flags, acc: Re, ts: Tokens) returns (acc': Re)
    requires i <= WIDTH && ts == FlagTokens(i, flags, optional)
    ensures ParseTerms(acc, ts) == Ok(acc', End)
    ensures Lang(acc') == Concat(Lang(acc), SpelledFrom(i, flags, optional))
    decreases WIDTH - i
  {
    if i == WIDTH {
      acc' := acc;
      NoneLeft(flags, optional, acc);
    } else {
      var rest := FlagTokens(i + 1, flags, optional);
      var next := FlagStep(i, flags, optional, acc, ts, rest);
      acc' := ParseFlags(i + 1, flags, optional, next, rest);
      Extends(i, flags, optional, acc, next, acc');
    }
  }

  predicate InWidth(f: Flags) {
    forall j :: j in f ==> 0 <= j < WIDTH
  }

  lemma AdmitsMeans(flags: Flags, optional: Flags, f: Flags)
    requires InWidth(flags) && InWidth(optional) && InWidth(f)
    ensures Admits(0, flags, optional, f) <==> flags - optional <= f <= flags + optional
  {
    if Admits(0, flags, optional, f) {
      forall j | j in flags - optional ensures j in f {
        assert 0 <= j < WIDTH;
      }
      forall j | j in f ensures j in flags + optional {
        assert 0 <= j < WIDTH;
      }
    }
    if flags - optional <= f <= flags + optional {
      forall j | 0 <= j < WIDTH
        ensures (j in flags && j !in optional ==> j in f) && (j in f ==> j in flags || j in optional)
      {
        assert j in flags - optional ==> j in f;
        assert j in f ==> j in flags + optional;
      }
    }
  }

  /** Whatever is not written at all is required or optional nowhere. */
  lemma {:induction false} NoText(i: nat, flags: Flags, optional: Flags, j: int)
    requires i <= j < WIDTH && TextFrom(i, flags, optional) == ""
    ensures j !in flags && j !in optional
    decreases WIDTH - i
  {
    assert TextFrom(i, flags, optional) == FlagText(flags, optional, i) + TextFrom(i + 1, flags, optional);
    assert |FlagText(flags, optional, i)| == 0 && TextFrom(i + 1, flags, optional) == "";
    if i < j {
      NoText(i + 1, flags, optional, j);
    }
  }

  lemma ReadNothing() returns (re: Re)
    ensures ReadRegex(NOTHING) == Ok(re, End)
    ensures forall w :: Matches(re, w) <==> w == [] || w == [254]
  {
    re := Alt(Chr(254), Eps);
    assert NOTHING + "" == NOTHING && NOTHING == OptionalText(254);
    LexOptional(254, "");
    ParseOptional(254, End);
    TermStep(Eps, Lex(NOTHING), re, End);
    ReadBack(NOTHING, re);
    forall w ensures Matches(re, w) <==> w == [] || w == [254] {
      assert Matches(re, w) <==> Matches(Chr(254), w) || Matches(Eps, w);
    }
  }

  /** The pattern read back spells the flags; the text that matches nothing spells the empty set. */
  lemma ReadPattern(flags: Flags, optional: Flags) returns (re: Re)
    requires InWidth(flags) && InWidth(optional) && flags != MS_ALL_FLAGS
    ensures ReadRegex(PatternText(flags, optional)) == Ok(re, End)
    ensures forall w :: w != [254] ==> (Matches(re, w) <==> Spells(0, flags, optional, w))
  {
    var text := TextFrom(0, flags, optional);
    if text == "" {
      re := ReadNothing();
      forall j | 0 <= j < WIDTH ensures j !in flags && j !in optional {
        NoText(0, flags, optional, j);
      }
      forall w ensures Spells(0, flags, optional, w) <==> w == [] {
        NoneSpelled(0, flags, optional, w);
      }
    } else {
      LexFlags(0, flags, optional);
      re := ParseFlags(0, flags, optional, Eps, Lex(text));
      ReadBack(text, re);
      assert Lang(Eps) == Unit();
      ConcatUnit(SpelledFrom(0, flags, optional));
      forall w ensures Matches(re, w) <==> Spells(0, flags, optional, w) {
        assert w in Lang(re) <==> w in SpelledFrom(0, flags, optional);
      }
    }
  }

  /** The pattern matches the string of a set of flags exactly when it has all required and no unnamed flags. */
  lemma MountFlagsAreExact(flags: Flags, optional: Flags) returns (re: Re)
    requires InWidth(flags) && InWidth(optional) && flags != MS_ALL_FLAGS
    ensures ReadRegex(PatternText(flags, optional)) == Ok(re, End)
    ensures forall f :: InWidth(f) ==> (Matches(re, Encoding(0, f)) <==> flags - optional <= f <= flags + optional)
  {
    re := ReadPattern(flags, optional);
    forall f | InWidth(f) ensures Matches(re, Encoding(0, f)) <==> flags - optional <= f <= flags + optional {
      SpellsEncoding(0, flags, optional, f);
      AdmitsMeans(flags, optional, f);
      NotThat(Encoding(0, f));
    }
  }

  lemma NotThat(w: Word)
    requires forall k :: 0 <= k < |w| ==> 0 < w[k] <= WIDTH
    ensures w != [254]
  {
    assert [254][0] == 254;
  }

  lemma {:induction false} NoneSpelled(i: nat, flags: Flags, optional: Flags, w: Word)
    requires i <= WIDTH && forall j :: i <= j < WIDTH ==> j !in flags && j !in optional
    ensures Spells(i, flags, optional, w) <==> w == []
    decreases WIDTH - i
  {
    if i < WIDTH {
      NoneSpelled(i + 1, flags, optional, w);
    }
  }

  lemma ReadAny()
    ensures ReadRegex(ANY) == Ok(Star(NotCharSet({0})), End)
  {
    LexAnyText("");
    assert ANY + "" == ANY;
    ParseAnyTokens(Tok(Op('*'), End));
    StarStep(Eps, Lex(ANY), NotCharSet({0}), End);
    ReadBack(ANY, Star(NotCharSet({0})));
  }

  /** When every flag is named, the pattern matches the string of any set of flags. */
  lemma AllFlagsMatchAny(optional: Flags, f: Flags)
    requires InWidth(f)
    ensures ReadRegex(PatternText(MS_ALL_FLAGS, optional)) == Ok(Star(NotCharSet({0})), End)
    ensures Matches(Star(NotCharSet({0})), Encoding(0, f))
  {
    ReadAny();
    NonzeroMatches(Encoding(0, f));
  }

  lemma NonzeroMatches(w: Word)
    requires forall k :: 0 <= k < |w| ==> 0 < w[k]
    ensures Matches(Star(NotCharSet({0})), w)
  {
    var p := c => c > 0;
    assert OneOf(NotCharSet({0}), p);
    StarOfSymbols(NotCharSet({0}), p, w);
  }
}
