/** Bytes as the encoders write them into regex text: `\x` and two lower-case hex digits. */
module ByteText {
  import opened Regex
  import opened GlobReadBack

  function HexChar(d: nat): (c: char)
    requires d < 16
    ensures DigitValue(c, 16) == d
  {
    if d < 10 then '0' + d as char else 'a' + (d - 10) as char
  }

  function HexByte(b: nat): string
    requires b < 256
  {
    ['\\'] + (['x'] + ([HexChar(b / 16)] + [HexChar(b % 16)]))
  }

  lemma TwoDigits(h: nat, l: nat, rest: string)
    requires h < 16 && l < 16
    ensures Number([HexChar(h)] + ([HexChar(l)] + rest), Hex, 2, 0) == (16 * h + l, 2)
  {
    var t := [HexChar(l)] + rest;
    assert ([HexChar(h)] + t)[1..] == t && t[1..] == rest;
    assert Number(rest, Hex, 0, 16 * h + l) == (16 * h + l, 0);
    assert Number(t, Hex, 1, h) == (16 * h + l, 1);
  }

  /** The reader takes a written byte back in as that byte. */
  lemma LexByte(b: nat, rest: string)
    requires b < 256
    ensures Lex(HexByte(b) + rest) == Tok(Char(b), Lex(rest))
  {
    var t := [HexChar(b / 16)] + ([HexChar(b % 16)] + rest);
    var s := ['x'] + t;
    TwoDigits(b / 16, b % 16, rest);
    assert s[1..] == t && s[3..] == rest;
    assert ReadEscape(s, LEX_ESCAPES) == Escaped(b, 3);
    LexEscape(s, b, 3, rest);
    assert HexByte(b) + rest == ['\\'] + s;
  }

  /** default_match_pattern: any run of bytes but NUL. */
  const ANY := "[^\\000]*"

  lemma ThreeZeros(rest: string)
    ensures ReadEscape(['0'] + (['0'] + (['0'] + rest)), LEX_ESCAPES) == Escaped(0, 3)
  {
    var one := ['0'] + rest;
    var two := ['0'] + one;
    assert one[1..] == rest && two[1..] == one && (['0'] + two)[1..] == two;
    assert Number(rest, Octal, 0, 0) == (0, 0);
    assert Number(one, Octal, 1, 0) == (0, 1);
    assert Number(two, Octal, 2, 0) == (0, 2);
  }

  lemma AnySpelled(rest: string)
    ensures ANY + rest == ['['] + (['^'] + (['\\'] + (['0'] + (['0'] + (['0'] + ([']'] + (['*'] + rest)))))))
  {
  }

  lemma LexAnyText(rest: string)
    ensures Lex(ANY + rest) == Tok(Op('['), Tok(Op('^'), Tok(Char(0), Tok(Op(']'), Tok(Op('*'), Lex(rest))))))
  {
    var star := ['*'] + rest;
    var close := [']'] + star;
    var digits := ['0'] + (['0'] + (['0'] + close));
    LexPlain('*', rest);
    LexPlain(']', star);
    ThreeZeros(close);
    assert digits[3..] == close;
    LexEscape(digits, 0, 3, close);
    LexPlain('^', ['\\'] + digits);
    LexPlain('[', ['^'] + (['\\'] + digits));
    AnySpelled(rest);
  }

  lemma ParseAnyTokens(ts: Tokens)
    ensures ParseTerm(Tok(Op('['), Tok(Op('^'), Tok(Char(0), Tok(Op(']'), ts))))) == Ok(NotCharSet({0}), ts)
  {
    assert {} + {0} == {0};
    assert ParseClass(Tok(Op(']'), ts), {} + {0}) == Ok({0}, ts);
    assert ParseMember(0, Tok(Op(']'), ts), {}) == Ok({0}, ts);
  }
}
