/** What the patterns of unix and dbus rules match, put together from bytes, addresses and labels. */
module RulePatterns {
  import opened Strings
  import opened Regex
  import opened GlobScanner
  import opened GlobGrammar
  import opened GlobMeaning
  import opened GlobCompile
  import opened GlobReadBack
  import opened GlobParse
  import opened GlobTheorem
  import opened ByteText
  import opened ValueLists
  import Prefixes
  import RuleOrder
  import RuleTrees
  import RuleEncode

  // ----- Text that stands in front of anything -----

  /** Wherever a term can stand behind it, `text` adds the words of `l`. */
  ghost predicate Adds(text: string, l: Language)
  {
    forall acc, rest :: Settled(Lex(rest)) ==> AddsTo(acc, text, rest, l)
  }

  /** The text begins with a term. */
  ghost predicate Leads(text: string)
  {
    forall rest :: Settled(Lex(rest)) ==> Settled(Lex(text + rest))
  }

  ghost predicate Piece(text: string, l: Language) { Adds(text, l) && Leads(text) }

  /** A pattern that needs no digit to follow it. */
  ghost predicate Value(text: string, l: Language) { Denotes(text, l) && Leads(text) }

  lemma JoinAt(a: string, la: Language, b: string, lb: Language, acc: Re, rest: string)
    requires AddsTo(acc, a, b + rest, la) && forall e :: AddsTo(e, b, rest, lb)
    ensures AddsTo(acc, a + b, rest, Concat(la, lb))
  {
    assert (a + b) + rest == a + (b + rest);
    var e :| ParseTerms(acc, Lex(a + (b + rest))) == ParseTerms(e, Lex(b + rest)) && Lang(e) == Concat(Lang(acc), la);
    assert AddsTo(e, b, rest, lb);
    ConcatAssoc(Lang(acc), la, lb);
  }

  lemma LeadsBoth(a: string, b: string)
    requires Leads(a) && Leads(b)
    ensures Leads(a + b)
  {
    forall rest | Settled(Lex(rest)) ensures Settled(Lex(a + b + rest)) {
      assert a + b + rest == a + (b + rest);
    }
  }

  lemma JoinPieces(a: string, la: Language, b: string, lb: Language)
    requires Piece(a, la) && Piece(b, lb)
    ensures Piece(a + b, Concat(la, lb))
  {
    LeadsBoth(a, b);
    forall acc, rest | Settled(Lex(rest)) ensures AddsTo(acc, a + b, rest, Concat(la, lb)) {
      JoinAt(a, la, b, lb, acc, rest);
    }
  }

  lemma PieceThenValue(a: string, la: Language, b: string, lb: Language)
    requires Piece(a, la) && Value(b, lb)
    ensures Value(a + b, Concat(la, lb))
  {
    LeadsBoth(a, b);
    forall acc, rest | Settled(Lex(rest)) && NoDigit(rest) ensures AddsTo(acc, a + b, rest, Concat(la, lb)) {
      JoinAt(a, la, b, lb, acc, rest);
    }
  }

  /** A byte ends whatever number is in front of it. */
  lemma ValueThenPiece(a: string, la: Language, b: string, lb: Language)
    requires Value(a, la) && Piece(b, lb) && b != "" && !IsDigit(b[0], Hex)
    ensures Piece(a + b, Concat(la, lb))
  {
    LeadsBoth(a, b);
    forall acc, rest | Settled(Lex(rest)) ensures AddsTo(acc, a + b, rest, Concat(la, lb)) {
      assert (b + rest)[0] == b[0];
      JoinAt(a, la, b, lb, acc, rest);
    }
  }

  lemma TermAdds(acc: Re, text: string, rest: string, e: Re)
    requires Settled(Lex(rest)) && Lex(text + rest).Tok? && ParseTerm(Lex(text + rest)) == Ok(e, Lex(rest))
    ensures AddsTo(acc, text, rest, Lang(e))
  {
    TermStep(acc, Lex(text + rest), e, Lex(rest));
    CatAllLang(acc, e);
  }

  lemma StarAdds(acc: Re, text: string, rest: string, e: Re)
    requires Lex(text + rest).Tok? && ParseTerm(Lex(text + rest)) == Ok(e, Tok(Op('*'), Lex(rest)))
    ensures AddsTo(acc, text, rest, Lang(Star(e)))
  {
    StarStep(acc, Lex(text + rest), e, Lex(rest));
    CatAllLang(acc, Star(e));
  }

  // ----- The pieces -----

  ghost function Byte(b: int): Language { Lang(Chr(b)) }

  lemma BytePiece(b: nat)
    requires b < 256
    ensures Piece(HexByte(b), Byte(b))
  {
    forall acc, rest | Settled(Lex(rest))
      ensures AddsTo(acc, HexByte(b), rest, Byte(b)) && Settled(Lex(HexByte(b) + rest))
    {
      LexByte(b, rest);
      TermAdds(acc, HexByte(b), rest, Chr(b));
    }
  }

  lemma ZeroAndOne()
    ensures "\\x00" == HexByte(0) && "\\x01" == HexByte(1)
  {
  }

  lemma DotPiece()
    ensures Piece(".", Lang(AnyChar))
  {
    forall acc, rest | Settled(Lex(rest)) ensures AddsTo(acc, ".", rest, Lang(AnyChar)) && Settled(Lex("." + rest)) {
      LexPlain('.', rest);
      TermAdds(acc, ".", rest, AnyChar);
    }
  }

  lemma AnythingPiece()
    ensures Piece(".*", Lang(Star(AnyChar)))
  {
    forall acc, rest | Settled(Lex(rest))
      ensures AddsTo(acc, ".*", rest, Lang(Star(AnyChar))) && Settled(Lex(".*" + rest))
    {
      assert ".*" + rest == ['.'] + (['*'] + rest);
      LexPlain('*', rest);
      LexPlain('.', ['*'] + rest);
      StarAdds(acc, ".*", rest, AnyChar);
    }
  }

  lemma AnyLabelPiece()
    ensures Piece(ANY, Lang(Star(NotCharSet({0}))))
  {
    forall acc, rest | Settled(Lex(rest))
      ensures AddsTo(acc, ANY, rest, Lang(Star(NotCharSet({0})))) && Settled(Lex(ANY + rest))
    {
      LexAnyText(rest);
      ParseAnyTokens(Tok(Op('*'), Lex(rest)));
      StarAdds(acc, ANY, rest, NotCharSet({0}));
    }
  }

  /** Two bytes, the higher one first. */
  ghost function TwoBytes(v: int): Language { Concat(Byte(v % 65536 / 256), Byte(v % 256)) }

  lemma TwoBytesPiece(v: int)
    ensures Piece(RuleEncode.U16(v), TwoBytes(v))
  {
    BytePiece(v % 65536 / 256);
    BytePiece(v % 256);
    JoinPieces(HexByte(v % 65536 / 256), Byte(v % 65536 / 256), HexByte(v % 256), Byte(v % 256));
  }

  ghost function AnyTwo(): Language { Concat(Lang(AnyChar), Lang(AnyChar)) }

  lemma AnyTwoPiece()
    ensures Piece("..", AnyTwo())
  {
    DotPiece();
    JoinPieces(".", Lang(AnyChar), ".", Lang(AnyChar));
    assert "." + "." == "..";
  }

  ghost function Given(s: Prefixes.Option<string>, v: int): Language { if s.Some? then TwoBytes(v) else AnyTwo() }

  /** The class, the family, and the type and the protocol as far as the rule gives them. */
  ghost function SocketLang(netClass: nat, b: RuleOrder.Body): Language
    requires b.Unix?
  {
    Concat(Concat(Concat(Byte(netClass), TwoBytes(RuleOrder.AF_UNIX)), Given(b.sockType, b.sockTypeN)),
           Given(b.proto, b.protoN))
  }

  lemma SocketPiece(netClass: nat, b: RuleOrder.Body)
    requires netClass < 256 && b.Unix?
    ensures Piece(RuleEncode.SocketText(netClass, b), SocketLang(netClass, b))
  {
    var family := RuleEncode.U16(RuleOrder.AF_UNIX);
    var kind := if b.sockType.Some? then RuleEncode.U16(b.sockTypeN) else "..";
    var proto := if b.proto.Some? then RuleEncode.U16(b.protoN) else "..";
    BytePiece(netClass);
    TwoBytesPiece(RuleOrder.AF_UNIX);
    AnyTwoPiece();
    TwoBytesPiece(b.sockTypeN);
    TwoBytesPiece(b.protoN);
    JoinPieces(HexByte(netClass), Byte(netClass), family, TwoBytes(RuleOrder.AF_UNIX));
    var l := Concat(Byte(netClass), TwoBytes(RuleOrder.AF_UNIX));
    JoinPieces(HexByte(netClass) + family, l, kind, Given(b.sockType, b.sockTypeN));
    JoinPieces(HexByte(netClass) + family + kind, Concat(l, Given(b.sockType, b.sockTypeN)), proto,
               Given(b.proto, b.protoN));
  }

  // ----- Globs, labels and addresses -----

  lemma {:induction false} GlobValue(g: Glob, mode: Mode) returns (text: string)
    requires Accepted(g)
    ensures Convert(Text(g), false, mode, "").0 != Invalid && Convert(Text(g), false, mode, "").1 == text
    ensures Value(text, GlobLang(Fused(g), mode, Other, true))
  {
    text := CompilingPreservesMeaning(g, mode, "");
    PlainGlobIsCopied(g);
    var text' := OutputText(g, mode, "");
    assert "" + text == text && "" + text' == text';
    forall rest | Settled(Lex(rest)) ensures Settled(Lex(text + rest)) {
      SettledAhead(g, mode, false, true, rest, 0);
    }
  }

  /** A condition as it is written in the rule, if it is given. */
  function Written(g: Prefixes.Option<Glob>): Prefixes.Option<string>
  {
    if g.Some? then Prefixes.Some(Text(g.value)) else Prefixes.None
  }

  predicate AcceptedIfGiven(g: Prefixes.Option<Glob>) { g.Some? ==> Accepted(g.value) }

  /** A missing label matches anything without NUL. */
  ghost function LabelLang(g: Prefixes.Option<Glob>): Language
  {
    if g.Some? then Meant(g.value) else Lang(Star(NotCharSet({0})))
  }

  lemma {:induction false} LabelValue(g: Prefixes.Option<Glob>)
    requires AcceptedIfGiven(g)
    ensures RuleEncode.LabelOk(Written(g)) && Value(RuleEncode.LabelText(Written(g)), LabelLang(g))
  {
    if g.Some? {
      var text := GlobValue(g.value, Default);
    } else {
      AnyLabelPiece();
      assert "" + ANY == ANY;
    }
  }

  datatype Address = Anywhere | Unnamed | Autobound | Named(name: Glob)

  function AddressText(a: Address): Prefixes.Option<string>
  {
    match a
    case Anywhere => Prefixes.None
    case Unnamed => Prefixes.Some("none")
    case Autobound => Prefixes.Some("auto")
    case Named(name) => Prefixes.Some("@" + Text(name))
  }

  predicate AcceptedAddress(a: Address) { a.Named? ==> Accepted(a.name) }

  const HEX_CLASS := [Raw('0'), Raw('-'), Raw('9'), Raw('a'), Raw('-'), Raw('f')]

  ghost function HexDigitLang(): Language { Lang(ClassRe(HEX_CLASS)) }

  function AutoboundText(n: nat): string { if n == 0 then "\\x00" else AutoboundText(n - 1) + RuleEncode.HEX_DIGIT }

  /** NUL and hexadecimal digits, as the kernel makes them up. */
  ghost function AutoboundLang(n: nat): Language
  {
    if n == 0 then Byte(0) else Concat(AutoboundLang(n - 1), HexDigitLang())
  }

  /** Every address ends in NUL, and a name begins with it; wildcards of a name may match it. */
  ghost function AddressLang(a: Address): Language
  {
    match a
    case Anywhere => Concat(Lang(Star(AnyChar)), Byte(0))
    case Unnamed => Concat(Byte(1), Byte(0))
    case Autobound => Concat(AutoboundLang(5), Byte(0))
    case Named(name) => Concat(Concat(Byte(0), GlobLang(Fused(name), Null, Other, true)), Byte(0))
  }

  lemma HexDigitText(rest: string)
    ensures RuleEncode.HEX_DIGIT + rest == ['['] + ClosedClass(HEX_CLASS, rest)
  {
    var m := HEX_CLASS;
    assert m[2..] == m[1..][1..] && m[3..] == m[2..][1..];
    assert m[4..] == m[3..][1..] && m[5..] == m[4..][1..] && m[5..][1..] == [];
    var end := [']'] + rest;
    assert EmitClass(m[5..], end) == ['f'] + end && EmitClass(m[4..], end) == ['-'] + (['f'] + end);
    assert EmitClass(m[3..], end) == ['a'] + (['-'] + (['f'] + end));
    assert EmitClass(m[2..], end) == ['9'] + (['a'] + (['-'] + (['f'] + end)));
    assert EmitClass(m[1..], end) == ['-'] + (['9'] + (['a'] + (['-'] + (['f'] + end))));
  }

  lemma HexDigitIsPlain()
    ensures PlainClass(HEX_CLASS)
  {
    var m := HEX_CLASS;
    assert m[3..] == [Raw('a'), Raw('-'), Raw('f')] && m[3..][3..] == [] && OrdinaryMembers([]);
    assert OrdinaryMembers(m[3..]) && OrdinaryMembers(m);
  }

  lemma HexDigitPiece()
    ensures Piece(RuleEncode.HEX_DIGIT, HexDigitLang())
  {
    HexDigitIsPlain();
    forall acc, rest | Settled(Lex(rest))
      ensures AddsTo(acc, RuleEncode.HEX_DIGIT, rest, HexDigitLang()) && Settled(Lex(RuleEncode.HEX_DIGIT + rest))
    {
      HexDigitText(rest);
      ParseClassItem(HEX_CLASS, rest);
      LexPlain('[', ClosedClass(HEX_CLASS, rest));
      TermAdds(acc, RuleEncode.HEX_DIGIT, rest, ClassRe(HEX_CLASS));
    }
  }

  lemma {:induction false} AutoboundPiece(n: nat)
    ensures Piece(AutoboundText(n), AutoboundLang(n))
  {
    if n == 0 {
      BytePiece(0);
      ZeroAndOne();
    } else {
      AutoboundPiece(n - 1);
      HexDigitPiece();
      JoinPieces(AutoboundText(n - 1), AutoboundLang(n - 1), RuleEncode.HEX_DIGIT, HexDigitLang());
    }
  }

  lemma AutobindAddress()
    ensures RuleEncode.AUTOBIND_ADDRESS == AutoboundText(5)
  {
    var d := RuleEncode.HEX_DIGIT;
    assert AutoboundText(2) == "\\x00" + d + d;
    assert AutoboundText(4) == "\\x00" + d + d + d + d;
  }

  lemma NulPiece()
    ensures Piece("\\x00", Byte(0)) && "\\x00"[0] == '\\' && !IsDigit('\\', Hex)
  {
    BytePiece(0);
    ZeroAndOne();
  }

  lemma NamedText(name: Glob)
    ensures var (s, c) := (AddressText(Named(name)), Convert(Text(name), false, Null, ""));
            && (RuleEncode.AddrOk(s) <==> c.0 != Invalid)
            && RuleEncode.AddrText(s) == "\\x00" + c.1 + "\\x00"
  {
    var s := "@" + Text(name);
    assert s[0] == '@' && "none"[0] == 'n' && "auto"[0] == 'a' && s[1..] == Text(name);
    assert RuleEncode.Abstract(s) == Text(name) && !RuleEncode.IsSpecial(s);
  }

  lemma BetweenNuls(text: string, l: Language)
    requires Value(text, l)
    ensures Piece("\\x00" + text + "\\x00", Concat(Concat(Byte(0), l), Byte(0)))
  {
    NulPiece();
    PieceThenValue("\\x00", Byte(0), text, l);
    ValueThenPiece("\\x00" + text, Concat(Byte(0), l), "\\x00", Byte(0));
  }

  lemma {:induction false} NamedPiece(name: Glob)
    requires Accepted(name)
    ensures var a := Named(name);
            RuleEncode.AddrOk(AddressText(a)) && Piece(RuleEncode.AddrText(AddressText(a)), AddressLang(a))
  {
    var l := GlobLang(Fused(name), Null, Other, true);
    NamedText(name);
    var text := GlobValue(name, Null);
    BetweenNuls(text, l);
    assert AddressLang(Named(name)) == Concat(Concat(Byte(0), l), Byte(0));
    assert RuleEncode.AddrText(AddressText(Named(name))) == "\\x00" + text + "\\x00";
  }

  lemma {:induction false} AddressPiece(a: Address)
    requires AcceptedAddress(a)
    ensures RuleEncode.AddrOk(AddressText(a)) && Piece(RuleEncode.AddrText(AddressText(a)), AddressLang(a))
  {
    if a.Named? {
      NamedPiece(a.name);
    } else {
      OtherAddressPiece(a);
    }
  }

  lemma {:induction false} OtherAddressPiece(a: Address)
    requires !a.Named?
    ensures RuleEncode.AddrOk(AddressText(a)) && Piece(RuleEncode.AddrText(AddressText(a)), AddressLang(a))
  {
    NulPiece();
    var text, l := ".*", Lang(Star(AnyChar));
    if a.Anywhere? {
      AnythingPiece();
    } else if a.Unnamed? {
      text, l := "\\x01", Byte(1);
      BytePiece(1);
      ZeroAndOne();
    } else {
      text, l := RuleEncode.AUTOBIND_ADDRESS, AutoboundLang(5);
      AutoboundPiece(5);
      AutobindAddress();
    }
    JoinPieces(text, l, "\\x00", Byte(0));
    assert "auto" != "none";
  }

  // ----- The patterns of a unix rule -----

  datatype Conditions = Conditions(addr: Address, own: Prefixes.Option<Glob>,
                                   peerAddr: Address, peer: Prefixes.Option<Glob>)

  /** The rule is written with these conditions, and their globs are accepted. */
  predicate HasConditions(b: RuleOrder.Body, c: Conditions)
  {
    && b.Unix? && b.addr == AddressText(c.addr) && b.ownLabel == Written(c.own)
    && b.peerAddr == AddressText(c.peerAddr) && b.peerLabel == Written(c.peer)
    && AcceptedAddress(c.addr) && AcceptedIfGiven(c.own)
    && AcceptedAddress(c.peerAddr) && AcceptedIfGiven(c.peer)
  }

  /** The socket, its address, its label and a separator. */
  ghost function LocalLang(netClass: nat, b: RuleOrder.Body, c: Conditions): Language
    requires b.Unix?
  {
    Concat(Concat(Concat(SocketLang(netClass, b), AddressLang(c.addr)), LabelLang(c.own)), Byte(0))
  }

  lemma {:induction false} LocalPiece(netClass: nat, b: RuleOrder.Body, c: Conditions)
    requires netClass < 256 && HasConditions(b, c)
    ensures Piece(RuleEncode.LocalText(netClass, b), LocalLang(netClass, b, c))
  {
    var socket, addr := RuleEncode.SocketText(netClass, b), RuleEncode.AddrText(b.addr);
    var tag := RuleEncode.LabelText(b.ownLabel);
    var l := Concat(SocketLang(netClass, b), AddressLang(c.addr));
    SocketPiece(netClass, b);
    AddressPiece(c.addr);
    LabelValue(c.own);
    NulPiece();
    JoinPieces(socket, SocketLang(netClass, b), addr, AddressLang(c.addr));
    PieceThenValue(socket + addr, l, tag, LabelLang(c.own));
    ValueThenPiece(socket + addr + tag, Concat(l, LabelLang(c.own)), "\\x00", Byte(0));
  }

  /** The pattern reads back, and matches these words. */
  ghost predicate Matched(text: string, l: Language)
  {
    ReadRegex(text).Ok? && Lang(ReadRegex(text).value) == l
  }

  lemma ValueMatched(text: string, l: Language)
    requires Value(text, l)
    ensures Matched(text, l)
  {
    assert text + "" == text && Lex("") == End;
    assert AddsTo(Eps, text, "", l);
    var e :| ParseTerms(Eps, Lex(text + "")) == ParseTerms(e, Lex("")) && Lang(e) == Concat(Lang(Eps), l);
    ReadBack(text, e);
    FromEmpty(l);
  }

  lemma PieceMatched(text: string, l: Language)
    requires Piece(text, l)
    ensures Matched(text, l)
  {
    ValueMatched(text, l);
  }

  lemma {:induction false} SocketPatternWords(netClass: nat, b: RuleOrder.Body, c: Conditions)
    requires netClass < 256 && HasConditions(b, c)
    ensures Matched(RuleEncode.CreateTarget(netClass, b).pattern[0], SocketLang(netClass, b))
    ensures Matched(RuleEncode.AutobindTarget(netClass, b).pattern[0],
                    Concat(Concat(Concat(SocketLang(netClass, b), Byte(0)), LabelLang(c.own)), Byte(0)))
  {
    var socket, l := RuleEncode.SocketText(netClass, b), SocketLang(netClass, b);
    var tag := RuleEncode.LabelText(b.ownLabel);
    SocketPiece(netClass, b);
    PieceMatched(socket, l);
    NulPiece();
    LabelValue(c.own);
    JoinPieces(socket, l, "\\x00", Byte(0));
    PieceThenValue(socket + "\\x00", Concat(l, Byte(0)), tag, LabelLang(c.own));
    ValueThenPiece(socket + "\\x00" + tag, Concat(Concat(l, Byte(0)), LabelLang(c.own)), "\\x00", Byte(0));
    PieceMatched(socket + "\\x00" + tag + "\\x00", Concat(Concat(Concat(l, Byte(0)), LabelLang(c.own)), Byte(0)));
  }

  lemma {:induction false} CommandMatched(local: string, l: Language, command: nat)
    requires Piece(local, l) && command < 256
    ensures Matched(local + HexByte(command) + "..", Concat(Concat(l, Byte(command)), AnyTwo()))
  {
    BytePiece(command);
    AnyTwoPiece();
    JoinPieces(local, l, HexByte(command), Byte(command));
    JoinPieces(local + HexByte(command), Concat(l, Byte(command)), "..", AnyTwo());
    PieceMatched(local + HexByte(command) + "..", Concat(Concat(l, Byte(command)), AnyTwo()));
  }

  lemma {:induction false} LocalPatternWords(netClass: nat, b: RuleOrder.Body, c: Conditions)
    requires netClass < 256 && HasConditions(b, c)
    ensures var l := LocalLang(netClass, b, c);
            && Matched(RuleEncode.LocalTarget(netClass, b).pattern[0], l)
            && Matched(RuleEncode.ListenTarget(netClass, b).pattern[0],
                       Concat(Concat(l, Byte(RuleEncode.CMD_LISTEN)), AnyTwo()))
            && Matched(RuleEncode.OptTarget(netClass, b).pattern[0],
                       Concat(Concat(l, Byte(RuleEncode.CMD_OPT)), AnyTwo()))
  {
    var local, l := RuleEncode.LocalText(netClass, b), LocalLang(netClass, b, c);
    LocalPiece(netClass, b, c);
    PieceMatched(local, l);
    CommandMatched(local, l, RuleEncode.CMD_LISTEN);
    CommandMatched(local, l, RuleEncode.CMD_OPT);
  }

  lemma {:induction false} PeerPatternWords(netClass: nat, b: RuleOrder.Body, c: Conditions)
    requires netClass < 256 && HasConditions(b, c)
    ensures var l := LocalLang(netClass, b, c);
            Matched(RuleEncode.PeerTarget(netClass, b).pattern[0],
                    Concat(Concat(Concat(l, Byte(RuleEncode.CMD_ADDR)), AddressLang(c.peerAddr)), LabelLang(c.peer)))
  {
    var local, l, command := RuleEncode.LocalText(netClass, b), LocalLang(netClass, b, c), RuleEncode.CMD_ADDR;
    var addr, tag := RuleEncode.AddrText(b.peerAddr), RuleEncode.LabelText(b.peerLabel);
    LocalPiece(netClass, b, c);
    BytePiece(command);
    AddressPiece(c.peerAddr);
    LabelValue(c.peer);
    JoinPieces(local, l, HexByte(command), Byte(command));
    JoinPieces(local + HexByte(command), Concat(l, Byte(command)), addr, AddressLang(c.peerAddr));
    PieceThenValue(local + HexByte(command) + addr, Concat(Concat(l, Byte(command)), AddressLang(c.peerAddr)), tag,
                   LabelLang(c.peer));
    ValueMatched(local + HexByte(command) + addr + tag,
                 Concat(Concat(Concat(l, Byte(command)), AddressLang(c.peerAddr)), LabelLang(c.peer)));
  }

  // ----- The patterns of a dbus rule -----

  /** The conditions in the order in which their patterns are written. */
  function BusConditions(b: RuleOrder.Body): seq<Prefixes.Option<string>>
    requires b.Dbus?
  {
    [b.bus, b.name, b.peer, b.path, b.iface, b.member]
  }

  predicate HasBusConditions(b: RuleOrder.Body, c: seq<Prefixes.Option<Glob>>)
  {
    b.Dbus? && |c| == 6 && forall i :: 0 <= i < 6 ==> BusConditions(b)[i] == Written(c[i]) && AcceptedIfGiven(c[i])
  }

  lemma {:induction false} LabelMatched(g: Prefixes.Option<Glob>)
    requires AcceptedIfGiven(g)
    ensures RuleEncode.LabelOk(Written(g)) && Matched(RuleEncode.LabelText(Written(g)), LabelLang(g))
  {
    LabelValue(g);
    ValueMatched(RuleEncode.LabelText(Written(g)), LabelLang(g));
  }

  /** The first pattern stands behind the class byte. */
  lemma {:induction false} BusMatched(g: Prefixes.Option<Glob>, byte: nat)
    requires AcceptedIfGiven(g) && byte < 256
    ensures RuleEncode.GlobOk(Written(g), HexByte(byte))
    ensures Matched(RuleEncode.GlobText(Written(g), HexByte(byte)), Concat(Byte(byte), LabelLang(g)))
  {
    if g.Some? {
      BehindByte(byte, g.value, Default);
    } else {
      BytePiece(byte);
      AnyLabelPiece();
      JoinPieces(HexByte(byte), Byte(byte), ANY, LabelLang(g));
      PieceMatched(HexByte(byte) + ANY, Concat(Byte(byte), LabelLang(g)));
    }
  }

  ghost function DbusLang(c: seq<Prefixes.Option<Glob>>, i: nat): Language
    requires i < |c|
  {
    if i == 0 then Concat(Byte(RuleOrder.AA_CLASS_DBUS), LabelLang(c[0])) else LabelLang(c[i])
  }

  lemma DbusVecAt(b: RuleOrder.Body, i: nat)
    requires b.Dbus? && i < 6
    ensures var s := BusConditions(b)[i];
            RuleEncode.DbusVec(b)[i] == if i == 0 then RuleEncode.GlobText(s, HexByte(RuleOrder.AA_CLASS_DBUS))
                                        else RuleEncode.LabelText(s)
  {
  }

  /** The class byte and the bus name, and then one pattern for each of the other conditions. */
  lemma {:induction false} DbusPatternWords(b: RuleOrder.Body, c: seq<Prefixes.Option<Glob>>, i: nat)
    requires HasBusConditions(b, c) && i < 6
    ensures Matched(RuleEncode.DbusVec(b)[i], DbusLang(c, i))
  {
    DbusVecAt(b, i);
    if i == 0 { BusMatched(c[0], RuleOrder.AA_CLASS_DBUS); } else { LabelMatched(c[i]); }
  }

  // ----- Rules that are never refused -----

  lemma {:induction false} AllReadJoin(parts: seq<string>)
    requires parts != [] && forall i :: 0 <= i < |parts| ==> ReadRegex(parts[i]).Ok?
    ensures RuleTrees.Joined(parts, false).Some?
    decreases |parts|
  {
    if |parts| > 1 { AllReadJoin(parts[..|parts| - 1]); }
  }

  lemma OneTaken(t: RuleEncode.Target, l: Language)
    requires |t.pattern| == 1 && Matched(t.pattern[0], l)
    ensures RuleEncode.Taken(t)
  {
    AllReadJoin(t.pattern);
  }

  lemma SocketTaken(netClass: nat, b: RuleOrder.Body, c: Conditions, perms: Prefixes.Perms)
    requires netClass < 256 && HasConditions(b, c)
    ensures RuleEncode.AllTaken(RuleEncode.SocketTargets(netClass, b), perms)
  {
    SocketPatternWords(netClass, b, c);
    var create, autobind := RuleEncode.CreateTarget(netClass, b), RuleEncode.AutobindTarget(netClass, b);
    OneTaken(create, SocketLang(netClass, b));
    OneTaken(autobind, Concat(Concat(Concat(SocketLang(netClass, b), Byte(0)), LabelLang(c.own)), Byte(0)));
  }

  lemma LocalTaken(netClass: nat, b: RuleOrder.Body, c: Conditions, perms: Prefixes.Perms)
    requires netClass < 256 && HasConditions(b, c)
    ensures RuleEncode.AllTaken(RuleEncode.LocalTargets(netClass, b), perms)
  {
    LocalPatternWords(netClass, b, c);
    var l := LocalLang(netClass, b, c);
    OneTaken(RuleEncode.LocalTarget(netClass, b), l);
    OneTaken(RuleEncode.ListenTarget(netClass, b), Concat(Concat(l, Byte(RuleEncode.CMD_LISTEN)), AnyTwo()));
    OneTaken(RuleEncode.OptTarget(netClass, b), Concat(Concat(l, Byte(RuleEncode.CMD_OPT)), AnyTwo()));
  }

  lemma PeerTaken(netClass: nat, b: RuleOrder.Body, c: Conditions, perms: Prefixes.Perms)
    requires netClass < 256 && HasConditions(b, c)
    ensures RuleEncode.AllTaken([RuleEncode.PeerTarget(netClass, b)], perms)
  {
    PeerPatternWords(netClass, b, c);
    var l := LocalLang(netClass, b, c);
    OneTaken(RuleEncode.PeerTarget(netClass, b),
             Concat(Concat(Concat(l, Byte(RuleEncode.CMD_ADDR)), AddressLang(c.peerAddr)), LabelLang(c.peer)));
  }

  lemma {:induction false} UnixGlobsAreValid(b: RuleOrder.Body, c: Conditions, perms: Prefixes.Perms)
    requires HasConditions(b, c)
    ensures !RuleEncode.UnixGlobFails(b, perms)
  {
    AddressPiece(c.addr);
    AddressPiece(c.peerAddr);
    LabelValue(c.own);
    LabelValue(c.peer);
  }

  /** A unix rule whose globs are accepted is encoded, whatever its permissions. */
  lemma {:induction false} UnixIsEncoded(netClass: nat, b: RuleOrder.Body, c: Conditions, perms: Prefixes.Perms)
    requires netClass < 256 && HasConditions(b, c)
    ensures !RuleEncode.UnixFails(netClass, b, perms)
  {
    var socket, local := RuleEncode.SocketTargets(netClass, b), RuleEncode.LocalTargets(netClass, b);
    UnixGlobsAreValid(b, c, perms);
    SocketTaken(netClass, b, c, perms);
    LocalTaken(netClass, b, c, perms);
    PeerTaken(netClass, b, c, perms);
    RuleEncode.TakenBoth(socket, local, perms);
    RuleEncode.TakenBoth(socket + local, [RuleEncode.PeerTarget(netClass, b)], perms);
  }

  lemma {:induction false} DbusGlobsAreValid(b: RuleOrder.Body, c: seq<Prefixes.Option<Glob>>)
    requires HasBusConditions(b, c)
    ensures !RuleEncode.DbusGlobFails(b)
  {
    BusMatched(c[0], RuleOrder.AA_CLASS_DBUS);
    forall i | 1 <= i < 6 ensures RuleEncode.LabelOk(BusConditions(b)[i]) { LabelMatched(c[i]); }
    var s := BusConditions(b);
    assert s[0] == b.bus && s[1] == b.name && s[2] == b.peer && s[3] == b.path && s[4] == b.iface && s[5] == b.member;
  }

  lemma {:induction false} DbusIsEncoded(b: RuleOrder.Body, c: seq<Prefixes.Option<Glob>>, perms: Prefixes.Perms)
    requires HasBusConditions(b, c)
    ensures !RuleEncode.DbusFails(b, perms)
  {
    var vec := RuleEncode.DbusVec(b);
    DbusGlobsAreValid(b, c);
    forall i | 0 <= i < 6 ensures ReadRegex(vec[i]).Ok? { DbusPatternWords(b, c, i); }
    AllReadJoin(vec);
    AllReadJoin(vec[..2]);
    AllReadJoin(vec[..1]);
  }
}
