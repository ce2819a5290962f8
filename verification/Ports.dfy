/** Port ranges as two-byte patterns, and the tag that tells privileged, unprivileged and remote ports apart. */
module Ports {
  import opened ByteText
  import opened GlobReadBack
  import opened Regex

  const IPPORT_RESERVED := 1024

  // ----- Text, as the encoder writes it -----

  function GenByteRange(from: nat, to: nat): string
    requires from < 256 && to < 256
  {
    if from == 0 && to == 255 then "."
    else "[" + HexByte(from) + "-" + HexByte(to) + "]"
  }

  function GenPortCond(from: nat, to: nat): string
    requires from < 65536 && to < 65536
  {
    var fromHigh, toHigh := from / 256, to / 256;
    if from == to then
      if from != 0 then HexByte(fromHigh) + HexByte(from % 256) else ".."
    else if fromHigh == toHigh then
      HexByte(fromHigh) + GenByteRange(from % 256, to % 256)
    else
      "(" + HexByte(fromHigh) + GenByteRange(from % 256, 255) + "|" +
      (if toHigh - fromHigh > 1 then GenByteRange(fromHigh + 1, toHigh - 1) + "." + "|" else "") +
      HexByte(toHigh) + GenByteRange(0, to % 256) + ")"
  }

  datatype PortType = Unprivileged | Privileged | Remote

  function TypeByte(t: PortType): nat {
    match t case Unprivileged => 0 case Privileged => 1 case Remote => 2
  }

  function GenPortCondAutoType(from: nat, to: nat, isPeer: bool, isBind: bool): string
    requires from <= to < 65536
  {
    if isPeer then
      HexByte(TypeByte(Remote)) + GenPortCond(from, to)
    else if isBind && from < IPPORT_RESERVED then
      if to >= IPPORT_RESERVED then
        "(" + HexByte(TypeByte(Unprivileged)) + GenPortCond(IPPORT_RESERVED, to) + "|" +
        HexByte(TypeByte(Privileged)) + GenPortCond(from, IPPORT_RESERVED - 1) + ")"
      else
        HexByte(TypeByte(Privileged)) + GenPortCond(from, to)
    else
      HexByte(TypeByte(Unprivileged)) + GenPortCond(from, to)
  }

  // ----- One position of the pattern -----

  /** One byte written out, or a range of bytes. */
  datatype Symbol = One(b: nat) | Span(lo: nat, hi: nat)

  predicate Proper(y: Symbol) {
    match y
    case One(b) => b < 256
    case Span(lo, hi) => lo <= hi < 256
  }

  function SymbolText(y: Symbol): string
    requires Proper(y)
  {
    match y
    case One(b) => HexByte(b)
    case Span(lo, hi) => GenByteRange(lo, hi)
  }

  function SymbolRe(y: Symbol): Re {
    match y
    case One(b) => Chr(b)
    case Span(lo, hi) => if lo == 0 && hi == 255 then AnyChar else CharSet(Range(lo, hi))
  }

  /** The full span is written as any symbol, and so takes whatever is not out of band. */
  predicate Fits(y: Symbol, c: int) {
    match y
    case One(b) => c == b
    case Span(lo, hi) => lo <= c && (c <= hi || (lo == 0 && hi == 255))
  }

  lemma LexOp(c: char, rest: string)
    requires IsOperator(c)
    ensures Lex([c] + rest) == Tok(Op(c), Lex(rest))
  {
    LexPlain(c, rest);
  }

  lemma Regroup(a: string, b: string, c: string, d: string, e: string, rest: string)
    ensures a + b + c + d + e + rest == a + (b + (c + (d + (e + rest))))
  {}

  lemma LexSpan(lo: nat, hi: nat, rest: string)
    requires lo <= hi < 256 && !(lo == 0 && hi == 255)
    ensures Lex(GenByteRange(lo, hi) + rest) ==
      Tok(Op('['), Tok(Char(lo), Tok(Op('-'), Tok(Char(hi), Tok(Op(']'), Lex(rest))))))
  {
    var close := [']'] + rest;
    var high := HexByte(hi) + close;
    var dash := ['-'] + high;
    var low := HexByte(lo) + dash;
    LexOp(']', rest);
    LexByte(hi, close);
    LexOp('-', high);
    LexByte(lo, dash);
    LexOp('[', low);
    Regroup(['['], HexByte(lo), ['-'], HexByte(hi), [']'], rest);
  }

  lemma ParseSpan(lo: nat, hi: nat, ts: Tokens)
    requires lo <= hi < 256
    ensures ParseTerm(Tok(Op('['), Tok(Char(lo), Tok(Op('-'), Tok(Char(hi), Tok(Op(']'), ts)))))) ==
      Ok(CharSet(Range(lo, hi)), ts)
  {
    var close := Tok(Op(']'), ts);
    assert ParseClass(close, {} + Range(lo, hi)) == Ok({} + Range(lo, hi), ts);
    assert {} + Range(lo, hi) == Range(lo, hi);
    assert ParseMember(lo, Tok(Op('-'), Tok(Char(hi), close)), {}) == Ok(Range(lo, hi), ts);
  }

  /** A symbol is read back as one term. */
  lemma ReadSymbol(y: Symbol, rest: string)
    requires Proper(y)
    ensures var ts := Lex(SymbolText(y) + rest); ts.Tok? && ParseTerm(ts) == Ok(SymbolRe(y), Lex(rest))
    ensures !Starts(Lex(SymbolText(y) + rest), '*') && !Starts(Lex(SymbolText(y) + rest), '+')
    ensures !Starts(Lex(SymbolText(y) + rest), '|') && !Starts(Lex(SymbolText(y) + rest), ')')
  {
    if y.One? {
      LexByte(y.b, rest);
    } else if y.lo == 0 && y.hi == 255 {
      LexOp('.', rest);
    } else {
      LexSpan(y.lo, y.hi, rest);
      ParseSpan(y.lo, y.hi, Lex(rest));
    }
  }

  /** The text is followed by something a term ends at. */
  predicate Ends(rest: string) {
    Settled(Lex(rest))
  }

  lemma StepSymbol(acc: Re, y: Symbol, rest: string)
    requires Proper(y) && Ends(rest)
    ensures ParseTerms(acc, Lex(SymbolText(y) + rest)) == ParseTerms(CatAll(acc, SymbolRe(y)), Lex(rest))
  {
    ReadSymbol(y, rest);
    TermStep(acc, Lex(SymbolText(y) + rest), SymbolRe(y), Lex(rest));
  }

  lemma SymbolLang(y: Symbol, w: Word)
    requires Proper(y)
    ensures Matches(SymbolRe(y), w) <==> |w| == 1 && Fits(y, w[0])
  {}

  // ----- Two positions, and alternatives of them -----

  datatype Piece = Piece(high: Symbol, low: Symbol)

  predicate Whole(p: Piece) {
    Proper(p.high) && Proper(p.low)
  }

  predicate AllWhole(ps: seq<Piece>) {
    forall i :: 0 <= i < |ps| ==> Whole(ps[i])
  }

  /** How a range is cut into pieces that two symbols can cover. */
  function Pieces(from: nat, to: nat): (ps: seq<Piece>)
    requires from <= to < 65536
    ensures ps != [] && AllWhole(ps)
  {
    var fromHigh, toHigh := from / 256, to / 256;
    if from == to then
      if from != 0 then [Piece(One(fromHigh), One(from % 256))] else [Piece(Span(0, 255), Span(0, 255))]
    else if fromHigh == toHigh then
      [Piece(One(fromHigh), Span(from % 256, to % 256))]
    else
      [Piece(One(fromHigh), Span(from % 256, 255))] +
      (if toHigh - fromHigh > 1 then [Piece(Span(fromHigh + 1, toHigh - 1), Span(0, 255))] else []) +
      [Piece(One(toHigh), Span(0, to % 256))]
  }

  function PieceThen(p: Piece, rest: string): string
    requires Whole(p)
  {
    SymbolText(p.high) + (SymbolText(p.low) + rest)
  }

  /** Further alternatives in front of rest. */
  function AltsThen(ps: seq<Piece>, rest: string): string
    requires AllWhole(ps)
  {
    if ps == [] then rest else ['|'] + PieceThen(ps[0], AltsThen(ps[1..], rest))
  }

  function CondThen(ps: seq<Piece>, rest: string): string
    requires ps != [] && AllWhole(ps)
  {
    if |ps| == 1 then PieceThen(ps[0], rest)
    else ['('] + PieceThen(ps[0], AltsThen(ps[1..], [')'] + rest))
  }

  function PieceRe(p: Piece): Re {
    Cat(SymbolRe(p.high), SymbolRe(p.low))
  }

  function AltsRe(acc: Re, ps: seq<Piece>): Re
    decreases |ps|
  {
    if ps == [] then acc else AltsRe(Alt(acc, PieceRe(ps[0])), ps[1..])
  }

  function CondRe(ps: seq<Piece>): Re
    requires ps != []
  {
    AltsRe(PieceRe(ps[0]), ps[1..])
  }

  lemma AltsEnd(ps: seq<Piece>, rest: string)
    requires AllWhole(ps)
    ensures Ends(AltsThen(ps, [')'] + rest))
    ensures var ts := Lex(AltsThen(ps, [')'] + rest)); if ps == [] then Starts(ts, ')') else Starts(ts, '|')
  {
    if ps == [] {
      LexOp(')', rest);
    } else {
      LexOp('|', PieceThen(ps[0], AltsThen(ps[1..], [')'] + rest)));
    }
  }

  lemma StepPiece(acc: Re, p: Piece, rest: string)
    requires Whole(p) && Ends(rest)
    ensures ParseTerms(acc, Lex(PieceThen(p, rest))) ==
      ParseTerms(CatAll(CatAll(acc, SymbolRe(p.high)), SymbolRe(p.low)), Lex(rest))
  {
    ReadSymbol(p.low, rest);
    StepSymbol(acc, p.high, SymbolText(p.low) + rest);
    StepSymbol(CatAll(acc, SymbolRe(p.high)), p.low, rest);
  }

  /** A piece up to the end of an alternative. */
  lemma LastPiece(p: Piece, rest: string)
    requires Whole(p) && Ends(rest) && (Starts(Lex(rest), '|') || Starts(Lex(rest), ')'))
    ensures ParseTerms(Eps, Lex(PieceThen(p, rest))) == Ok(PieceRe(p), Lex(rest))
  {
    StepPiece(Eps, p, rest);
  }

  lemma {:induction false} ParseAlts(acc: Re, ps: seq<Piece>, rest: string)
    requires AllWhole(ps)
    ensures ParseAlternatives(acc, Lex(AltsThen(ps, [')'] + rest))) == Ok(AltsRe(acc, ps), Lex([')'] + rest))
    decreases |ps|
  {
    AltsEnd(ps, rest);
    if ps != [] {
      var tail := AltsThen(ps[1..], [')'] + rest);
      AltsEnd(ps[1..], rest);
      LexOp('|', PieceThen(ps[0], tail));
      LastPiece(ps[0], tail);
      ParseAlts(Alt(acc, PieceRe(ps[0])), ps[1..], rest);
    }
  }

  /** A parenthesised alternation is read back as one term. */
  lemma ReadAlternation(ps: seq<Piece>, rest: string)
    requires |ps| > 1 && AllWhole(ps)
    ensures var ts := Lex(CondThen(ps, rest)); ts.Tok? && ParseTerm(ts) == Ok(CondRe(ps), Lex(rest))
    ensures Starts(Lex(CondThen(ps, rest)), '(')
  {
    var tail := AltsThen(ps[1..], [')'] + rest);
    var inner := PieceThen(ps[0], tail);
    LexOp('(', inner);
    AltsEnd(ps[1..], rest);
    LastPiece(ps[0], tail);
    ParseAlts(PieceRe(ps[0]), ps[1..], rest);
    LexOp(')', rest);
    assert ParseRegex(Lex(inner)) == Ok(CondRe(ps), Lex([')'] + rest));
  }

  /** Reading a port condition extends what was read before it. */
  lemma StepCond(acc: Re, ps: seq<Piece>, rest: string) returns (acc': Re)
    requires ps != [] && AllWhole(ps) && Ends(rest)
    ensures ParseTerms(acc, Lex(CondThen(ps, rest))) == ParseTerms(acc', Lex(rest))
    ensures Lang(acc') == Concat(Lang(acc), Lang(CondRe(ps)))
  {
    if |ps| == 1 {
      var h, l := SymbolRe(ps[0].high), SymbolRe(ps[0].low);
      StepPiece(acc, ps[0], rest);
      acc' := CatAll(CatAll(acc, h), l);
      assert ps[1..] == [];
      assert CondRe(ps) == Cat(h, l);
      CatAllLang(CatAll(acc, h), l);
      CatAllLang(acc, h);
      ConcatAssoc(Lang(acc), Lang(h), Lang(l));
      LangCat(h, l);
    } else {
      ReadAlternation(ps, rest);
      TermStep(acc, Lex(CondThen(ps, rest)), CondRe(ps), Lex(rest));
      acc' := CatAll(acc, CondRe(ps));
      CatAllLang(acc, CondRe(ps));
    }
  }

  // ----- What the patterns match -----

  predicate PieceFits(p: Piece, w: Word) {
    |w| == 2 && Fits(p.high, w[0]) && Fits(p.low, w[1])
  }

  lemma PieceLang(p: Piece, w: Word)
    requires Whole(p)
    ensures Matches(PieceRe(p), w) <==> PieceFits(p, w)
  {
    forall k | 0 <= k <= |w|
      ensures Matches(SymbolRe(p.high), w[..k]) && Matches(SymbolRe(p.low), w[k..]) <==> k == 1 && PieceFits(p, w)
    {
      SymbolLang(p.high, w[..k]);
      SymbolLang(p.low, w[k..]);
    }
    if PieceFits(p, w) {
      assert Matches(SymbolRe(p.high), w[..1]) && Matches(SymbolRe(p.low), w[1..]);
    }
  }

  predicate SomeFits(ps: seq<Piece>, w: Word) {
    exists i :: 0 <= i < |ps| && PieceFits(ps[i], w)
  }

  lemma {:induction false} AltsLang(acc: Re, ps: seq<Piece>, w: Word)
    requires AllWhole(ps)
    ensures Matches(AltsRe(acc, ps), w) <==> Matches(acc, w) || SomeFits(ps, w)
    decreases |ps|
  {
    if ps != [] {
      AltsLang(Alt(acc, PieceRe(ps[0])), ps[1..], w);
      PieceLang(ps[0], w);
      assert SomeFits(ps, w) <==> PieceFits(ps[0], w) || SomeFits(ps[1..], w) by {
        if SomeFits(ps[1..], w) {
          var i :| 0 <= i < |ps[1..]| && PieceFits(ps[1..][i], w);
          assert ps[i + 1] == ps[1..][i];
        }
        if i :| 1 <= i < |ps| && PieceFits(ps[i], w) {
          assert ps[1..][i - 1] == ps[i];
        }
      }
    }
  }

  lemma CondLang(ps: seq<Piece>, w: Word)
    requires ps != [] && AllWhole(ps)
    ensures Matches(CondRe(ps), w) <==> SomeFits(ps, w)
  {
    AltsLang(PieceRe(ps[0]), ps[1..], w);
    PieceLang(ps[0], w);
    if SomeFits(ps[1..], w) {
      var i :| 0 <= i < |ps[1..]| && PieceFits(ps[1..][i], w);
      assert ps[i + 1] == ps[1..][i];
    }
    if i :| 1 <= i < |ps| && PieceFits(ps[i], w) {
      assert ps[1..][i - 1] == ps[i];
    }
  }

  predicate Bytes(w: Word) {
    forall i :: 0 <= i < |w| ==> 0 <= w[i] < 256
  }

  predicate InRange(from: nat, to: nat, w: Word) {
    |w| == 2 && from <= 256 * w[0] + w[1] <= to
  }

  /** The pieces of a range cover it, and nothing else. */
  lemma PiecesCover(from: nat, to: nat, w: Word)
    requires from <= to < 65536 && to != 0 && Bytes(w)
    ensures SomeFits(Pieces(from, to), w) <==> InRange(from, to, w)
  {
    var ps := Pieces(from, to);
    if |w| == 2 {
      var port := 256 * w[0] + w[1];
      assert port / 256 == w[0] && port % 256 == w[1];
      assert from == 256 * (from / 256) + from % 256 && to == 256 * (to / 256) + to % 256;
      if |ps| == 1 {
        assert SomeFits(ps, w) <==> PieceFits(ps[0], w);
      } else if |ps| == 2 {
        assert SomeFits(ps, w) <==> PieceFits(ps[0], w) || PieceFits(ps[1], w);
      } else {
        assert SomeFits(ps, w) <==> PieceFits(ps[0], w) || PieceFits(ps[1], w) || PieceFits(ps[2], w);
      }
    }
  }

  // ----- The encoder's text, taken apart -----

  lemma TwoParts(a: string, b: string, rest: string)
    ensures a + b + rest == a + (b + rest)
  {}

  lemma TwoPieces(a: string, b: string, c: string, d: string, rest: string)
    ensures "(" + a + b + "|" + "" + c + d + ")" + rest == ['('] + (a + (b + (['|'] + (c + (d + ([')'] + rest))))))
  {}

  lemma ThreePieces(a: string, b: string, c: string, d: string, e: string, f: string, rest: string)
    ensures "(" + a + b + "|" + (c + d + "|") + e + f + ")" + rest ==
      ['('] + (a + (b + (['|'] + (c + (d + (['|'] + (e + (f + ([')'] + rest)))))))))
  {
    var l := e + (f + ([')'] + rest));
    assert "(" + a + b + "|" + (c + d + "|") + e + f + ")" + rest == "(" + a + b + "|" + (c + d + "|") + l;
    assert (c + d + "|") + l == c + (d + (['|'] + l));
    var m := c + (d + (['|'] + l));
    assert "(" + a + b + "|" + m == ['('] + (a + (b + (['|'] + m)));
  }

  lemma CondOfOne(p: Piece, rest: string)
    requires Whole(p)
    ensures SymbolText(p.high) + SymbolText(p.low) + rest == CondThen([p], rest)
  {
    TwoParts(SymbolText(p.high), SymbolText(p.low), rest);
  }

  lemma AltsOne(p: Piece, rest: string)
    requires Whole(p)
    ensures AltsThen([p], rest) == ['|'] + PieceThen(p, rest)
  {
    assert [p][1..] == [];
  }

  lemma CondOfTwo(p: Piece, q: Piece, rest: string)
    requires Whole(p) && Whole(q)
    ensures
      "(" + SymbolText(p.high) + SymbolText(p.low) + "|" + "" + SymbolText(q.high) + SymbolText(q.low) + ")" + rest
      == CondThen([p, q], rest)
  {
    assert [p, q][1..] == [q];
    AltsOne(q, [')'] + rest);
    TwoPieces(SymbolText(p.high), SymbolText(p.low), SymbolText(q.high), SymbolText(q.low), rest);
  }

  lemma CondOfThree(p: Piece, q: Piece, r: Piece, rest: string)
    requires Whole(p) && Whole(q) && Whole(r)
    ensures "(" + SymbolText(p.high) + SymbolText(p.low) + "|" + (SymbolText(q.high) + SymbolText(q.low) + "|") +
      SymbolText(r.high) + SymbolText(r.low) + ")" + rest == CondThen([p, q, r], rest)
  {
    assert [p, q, r][1..] == [q, r] && [q, r][1..] == [r];
    AltsOne(r, [')'] + rest);
    ThreePieces(SymbolText(p.high), SymbolText(p.low), SymbolText(q.high), SymbolText(q.low),
      SymbolText(r.high), SymbolText(r.low), rest);
  }

  lemma SpelledOne(from: nat, rest: string)
    requires from < 65536
    ensures GenPortCond(from, from) + rest == CondThen(Pieces(from, from), rest)
  {
    if from == 0 {
      CondOfOne(Piece(Span(0, 255), Span(0, 255)), rest);
      assert ".." == "." + ".";
    } else {
      CondOfOne(Piece(One(from / 256), One(from % 256)), rest);
    }
  }

  lemma SpelledWithin(from: nat, to: nat, rest: string)
    requires from < to < 65536 && from / 256 == to / 256
    ensures GenPortCond(from, to) + rest == CondThen(Pieces(from, to), rest)
  {
    CondOfOne(Piece(One(from / 256), Span(from % 256, to % 256)), rest);
  }

  lemma SpelledAcross(from: nat, to: nat, rest: string)
    requires from <= to < 65536 && from / 256 + 1 == to / 256
    ensures GenPortCond(from, to) + rest == CondThen(Pieces(from, to), rest)
  {
    var p, q := Piece(One(from / 256), Span(from % 256, 255)), Piece(One(to / 256), Span(0, to % 256));
    assert Pieces(from, to) == [p, q];
    CondOfTwo(p, q, rest);
  }

  lemma SpelledOver(from: nat, to: nat, rest: string)
    requires from <= to < 65536 && from / 256 + 1 < to / 256
    ensures GenPortCond(from, to) + rest == CondThen(Pieces(from, to), rest)
  {
    var p, r := Piece(One(from / 256), Span(from % 256, 255)), Piece(One(to / 256), Span(0, to % 256));
    var q := Piece(Span(from / 256 + 1, to / 256 - 1), Span(0, 255));
    assert Pieces(from, to) == [p, q, r];
    CondOfThree(p, q, r, rest);
  }

  lemma Spelled(from: nat, to: nat, rest: string)
    requires from <= to < 65536
    ensures GenPortCond(from, to) + rest == CondThen(Pieces(from, to), rest)
  {
    if from == to {
      SpelledOne(from, rest);
    } else if from / 256 == to / 256 {
      SpelledWithin(from, to, rest);
    } else if from / 256 + 1 == to / 256 {
      SpelledAcross(from, to, rest);
    } else {
      SpelledOver(from, to, rest);
    }
  }

  /** A condition on its own is read back as its alternatives. */
  lemma ReadCond(ps: seq<Piece>) returns (re: Re)
    requires ps != [] && AllWhole(ps)
    ensures ReadRegex(CondThen(ps, "")) == Ok(re, End)
    ensures forall w :: Matches(re, w) <==> SomeFits(ps, w)
  {
    re := StepCond(Eps, ps, "");
    ReadBack(CondThen(ps, ""), re);
    assert Lang(Eps) == Unit();
    ConcatUnit(Lang(CondRe(ps)));
    forall w ensures Matches(re, w) <==> SomeFits(ps, w) {
      assert w in Lang(re) <==> w in Lang(CondRe(ps));
      CondLang(ps, w);
    }
  }

  /** The pattern of a port range matches exactly the ports in it, high byte first. */
  lemma PortRangesAreExact(from: nat, to: nat) returns (re: Re)
    requires from <= to < 65536 && to != 0
    ensures ReadRegex(GenPortCond(from, to)) == Ok(re, End)
    ensures forall w :: Bytes(w) ==> (Matches(re, w) <==> InRange(from, to, w))
  {
    Spelled(from, to, "");
    assert GenPortCond(from, to) + "" == GenPortCond(from, to);
    re := ReadCond(Pieces(from, to));
    forall w | Bytes(w) ensures Matches(re, w) <==> InRange(from, to, w) {
      PiecesCover(from, to, w);
    }
  }

  /** The range 0-0 stands for no condition: its pattern matches every port. */
  lemma ZeroMeansAny(w: Word) returns (re: Re)
    requires Bytes(w)
    ensures ReadRegex(GenPortCond(0, 0)) == Ok(re, End)
    ensures Matches(re, w) <==> |w| == 2
  {
    var ps := Pieces(0, 0);
    Spelled(0, 0, "");
    assert GenPortCond(0, 0) + "" == GenPortCond(0, 0);
    re := ReadCond(ps);
    assert |w| == 2 ==> PieceFits(ps[0], w);
  }

  // ----- Tagged ports -----

  /** A tag byte and a port in the range. */
  predicate Tagged(t: PortType, from: nat, to: nat, w: Word) {
    |w| == 3 && w[0] == TypeByte(t) && InRange(from, to, w[1..])
  }

  /** Reading a tagged condition from the start. */
  lemma StepTagged(t: PortType, from: nat, to: nat, rest: string) returns (re: Re)
    requires from <= to < 65536 && to != 0 && Ends(rest)
    ensures ParseTerms(Eps, Lex(HexByte(TypeByte(t)) + (GenPortCond(from, to) + rest))) == ParseTerms(re, Lex(rest))
    ensures forall w :: Bytes(w) ==> (Matches(re, w) <==> Tagged(t, from, to, w))
  {
    var ps := Pieces(from, to);
    Spelled(from, to, rest);
    CondEnds(ps, rest);
    StepSymbol(Eps, One(TypeByte(t)), CondThen(ps, rest));
    var tag := Chr(TypeByte(t));
    re := StepCond(tag, ps, rest);
    forall w | Bytes(w) ensures Matches(re, w) <==> Tagged(t, from, to, w) {
      assert w in Lang(re) <==> w in Concat(Lang(tag), Lang(CondRe(ps)));
      TaggedWord(t, from, to, w);
    }
  }

  lemma CondEnds(ps: seq<Piece>, rest: string)
    requires ps != [] && AllWhole(ps)
    ensures Ends(CondThen(ps, rest))
  {
    if |ps| == 1 {
      ReadSymbol(ps[0].high, SymbolText(ps[0].low) + rest);
    } else {
      ReadAlternation(ps, rest);
    }
  }

  lemma TaggedWord(t: PortType, from: nat, to: nat, w: Word)
    requires from <= to < 65536 && to != 0 && Bytes(w)
    ensures w in Concat(Lang(Chr(TypeByte(t))), Lang(CondRe(Pieces(from, to)))) <==> Tagged(t, from, to, w)
  {
    var ps := Pieces(from, to);
    var tag := Chr(TypeByte(t));
    if w in Concat(Lang(tag), Lang(CondRe(ps))) {
      var k :| CutAt(Lang(tag), Lang(CondRe(ps)), w, k);
      assert w[..k] == [TypeByte(t)];
      assert k == 1 && w[..1][0] == w[0];
      CondLang(ps, w[1..]);
      PiecesCover(from, to, w[1..]);
    }
    if Tagged(t, from, to, w) {
      assert w[..1] == [TypeByte(t)];
      CondLang(ps, w[1..]);
      PiecesCover(from, to, w[1..]);
      assert CutAt(Lang(tag), Lang(CondRe(ps)), w, 1);
    }
  }

  /** A single tagged condition, as the whole text. */
  lemma ReadTagged(t: PortType, from: nat, to: nat) returns (re: Re)
    requires from <= to < 65536 && to != 0
    ensures ReadRegex(HexByte(TypeByte(t)) + GenPortCond(from, to)) == Ok(re, End)
    ensures forall w :: Bytes(w) ==> (Matches(re, w) <==> Tagged(t, from, to, w))
  {
    re := StepTagged(t, from, to, "");
    assert GenPortCond(from, to) + "" == GenPortCond(from, to);
    ReadBack(HexByte(TypeByte(t)) + GenPortCond(from, to), re);
  }

  lemma BothRegroup(a: string, b: string, c: string, d: string)
    ensures "(" + a + b + "|" + c + d + ")" == ['('] + (a + (b + (['|'] + (c + (d + ([')'] + ""))))))
  {}

  /** A tagged condition up to the end of an alternative. */
  lemma TaggedAlternative(t: PortType, from: nat, to: nat, rest: string) returns (re: Re)
    requires from <= to < 65536 && to != 0 && Ends(rest) && (Starts(Lex(rest), '|') || Starts(Lex(rest), ')'))
    ensures ParseTerms(Eps, Lex(HexByte(TypeByte(t)) + (GenPortCond(from, to) + rest))) == Ok(re, Lex(rest))
    ensures forall w :: Bytes(w) ==> (Matches(re, w) <==> Tagged(t, from, to, w))
  {
    re := StepTagged(t, from, to, rest);
  }

  /** A range across the privilege boundary: two tagged conditions in parentheses. */
  lemma ReadBoth(from: nat, to: nat) returns (re: Re)
    requires from < IPPORT_RESERVED <= to < 65536
    ensures ReadRegex(GenPortCondAutoType(from, to, false, true)) == Ok(re, End)
    ensures forall w :: Bytes(w) ==> (Matches(re, w) <==>
      Tagged(Unprivileged, IPPORT_RESERVED, to, w) || Tagged(Privileged, from, IPPORT_RESERVED - 1, w))
  {
    var a, c := HexByte(TypeByte(Unprivileged)), HexByte(TypeByte(Privileged));
    var b, d := GenPortCond(IPPORT_RESERVED, to), GenPortCond(from, IPPORT_RESERVED - 1);
    var close := [')'] + "";
    var second := c + (d + close);
    var bar := ['|'] + second;
    var first := a + (b + bar);
    BothRegroup(a, b, c, d);
    LexOp(')', "");
    LexOp('|', second);
    LexOp('(', first);
    var r1 := TaggedAlternative(Unprivileged, IPPORT_RESERVED, to, bar);
    var r2 := TaggedAlternative(Privileged, from, IPPORT_RESERVED - 1, close);
    re := Alt(r1, r2);
    InParentheses(r1, r2, first, second, close);
    ReadBack(['('] + first, re);
  }

  lemma InParentheses(r1: Re, r2: Re, first: string, second: string, close: string)
    requires ParseTerms(Eps, Lex(first)) == Ok(r1, Tok(Op('|'), Lex(second)))
    requires ParseTerms(Eps, Lex(second)) == Ok(r2, Lex(close)) && Lex(close) == Tok(Op(')'), End)
    requires Lex(['('] + first) == Tok(Op('('), Lex(first))
    ensures ParseTerms(Eps, Lex(['('] + first)) == ParseTerms(Alt(r1, r2), Lex(""))
  {
    var rest := Lex(close);
    assert ParseAlternatives(Alt(r1, r2), rest) == Ok(Alt(r1, r2), rest);
    assert ParseAlternatives(r1, Tok(Op('|'), Lex(second))) == Ok(Alt(r1, r2), rest);
    assert ParseRegex(Lex(first)) == Ok(Alt(r1, r2), rest);
    assert ParseTerm(Tok(Op('('), Lex(first))) == Ok(Alt(r1, r2), End);
    TermStep(Eps, Tok(Op('('), Lex(first)), Alt(r1, r2), End);
  }

  /** The tag a port gets: remote for the peer; when binding, privileged exactly below 1024. */
  function TagOf(isPeer: bool, isBind: bool, port: int): PortType {
    if isPeer then Remote else if isBind && port < IPPORT_RESERVED then Privileged else Unprivileged
  }

  predicate TaggedPort(from: nat, to: nat, isPeer: bool, isBind: bool, w: Word) {
    |w| == 3 && var port := 256 * w[1] + w[2]; from <= port <= to && w[0] == TypeByte(TagOf(isPeer, isBind, port))
  }

  /** The tagged pattern accepts exactly the ports of the range, each under its own tag. */
  lemma TaggedPortsAreExact(from: nat, to: nat, isPeer: bool, isBind: bool) returns (re: Re)
    requires from <= to < 65536 && to != 0
    ensures ReadRegex(GenPortCondAutoType(from, to, isPeer, isBind)) == Ok(re, End)
    ensures forall w :: Bytes(w) ==> (Matches(re, w) <==> TaggedPort(from, to, isPeer, isBind, w))
  {
    if isPeer {
      re := ReadTagged(Remote, from, to);
    } else if isBind && from < IPPORT_RESERVED {
      if to >= IPPORT_RESERVED {
        re := ReadBoth(from, to);
      } else {
        re := ReadTagged(Privileged, from, to);
      }
    } else {
      re := ReadTagged(Unprivileged, from, to);
    }
  }
}
