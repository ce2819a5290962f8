/**
 cJSON's text format: what the printer writes for a tree and what the parser
 reads from a text. Text is a string of byte values.
 */
module Json {

  datatype Value =
    | Null
    | Bool(b: bool)
    | Number(n: int)
    | String(s: string)
    | Array(items: seq<Value>)
    | Object(members: seq<Member>)
  datatype Member = Member(key: string, value: Value)

  const NESTING_LIMIT: nat := 1000
  const NUL: char := '\0'

  // ----- Printing -----

  function HexDigit(n: nat): char
    requires n < 16
  {
    if n < 10 then ('0' as int + n) as char else ('a' as int + n - 10) as char
  }

  /** The escape of one character inside a string literal. */
  function EscapeChar(c: char): string
  {
    if c == '"' || c == '\\' then ['\\', c]
    else if c as int >= 32 then [c]
    else if c as int == 8 then ['\\', 'b']
    else if c as int == 12 then ['\\', 'f']
    else if c as int == 10 then ['\\', 'n']
    else if c as int == 13 then ['\\', 'r']
    else if c as int == 9 then ['\\', 't']
    else ['\\', 'u', '0', '0', HexDigit(c as int / 16), HexDigit(c as int % 16)]
  }

  function Escape(s: string): string
  {
    if s == [] then [] else EscapeChar(s[0]) + Escape(s[1..])
  }

  function PrintString(s: string): string
  {
    ['"'] + (Escape(s) + ['"'])
  }

  function Digits(n: nat): string
  {
    if n < 10 then [('0' as int + n) as char] else Digits(n / 10) + [('0' as int + n % 10) as char]
  }

  function PrintNumber(n: int): string
  {
    if n < 0 then ['-'] + Digits(-n) else Digits(n)
  }

  function Tabs(n: nat): string
  {
    if n == 0 then [] else ['\t'] + Tabs(n - 1)
  }

  /** The text of a value; `depth` is the nesting around it. */
  function Print(v: Value, fmt: bool, depth: nat): string
  {
    match v
    case Null => "null"
    case Bool(b) => if b then "true" else "false"
    case Number(n) => PrintNumber(n)
    case String(s) => PrintString(s)
    case Array(items) => ['['] + PrintItems(items, fmt, depth + 1) + [']']
    case Object(members) =>
      (if fmt then "{\n" else "{") + PrintMembers(members, fmt, depth + 1) +
      (if fmt then Tabs(depth) else []) + ['}']
  }

  function PrintItems(items: seq<Value>, fmt: bool, depth: nat): string
  {
    if items == [] then []
    else if |items| == 1 then Print(items[0], fmt, depth)
    else Print(items[0], fmt, depth) + ((if fmt then ", " else ",") + PrintItems(items[1..], fmt, depth))
  }

  function PrintMembers(members: seq<Member>, fmt: bool, depth: nat): string
  {
    if members == [] then []
    else PrintMember(members[0], fmt, depth) +
         ((if |members| > 1 then "," else "") + ((if fmt then "\n" else "") + PrintMembers(members[1..], fmt, depth)))
  }

  function PrintMember(m: Member, fmt: bool, depth: nat): string
  {
    (if fmt then Tabs(depth) else []) +
    (PrintString(m.key) + ((if fmt then ":\t" else ":") + Print(m.value, fmt, depth)))
  }

  // ----- Parsing -----

  /** A value read from the front of a text and the rest of it, or a failure. */
  datatype Read<T> = Fail | Ok(value: T, rest: string)

  function DropBlanks(s: string): (r: string)
    ensures |r| <= |s|
  {
    if s != [] && s[0] as int <= 32 then DropBlanks(s[1..]) else s
  }

  /** buffer_skip_whitespace: control characters and spaces, but never past the last character. */
  function Skip(s: string): (r: string)
    ensures |r| <= |s|
  {
    if s == [] then s
    else
      var r := DropBlanks(s);
      if r == [] then [s[|s| - 1]] else r
  }

  /** Distance to the closing quote of a literal, if there is one. */
  function FindQuote(s: string): (r: int)
    ensures r == -1 || 0 <= r < |s|
  {
    if s == [] then -1
    else if s[0] == '"' then 0
    else if s[0] == '\\' then
      if |s| < 2 then -1
      else var r := FindQuote(s[2..]); if r == -1 then -1 else r + 2
    else var r := FindQuote(s[1..]); if r == -1 then -1 else r + 1
  }

  function HexValue(c: char): int
  {
    if '0' <= c <= '9' then c as int - '0' as int
    else if 'A' <= c <= 'F' then c as int - 'A' as int + 10
    else if 'a' <= c <= 'f' then c as int - 'a' as int + 10
    else -1
  }

  /** parse_hex4: a bad digit makes the whole number zero. */
  function Hex4(s: string): (r: nat)
    requires |s| >= 4
    ensures r < 0x1_0000
  {
    var a, b, c, d := HexValue(s[0]), HexValue(s[1]), HexValue(s[2]), HexValue(s[3]);
    if a < 0 || b < 0 || c < 0 || d < 0 then 0 else ((a * 16 + b) * 16 + c) * 16 + d
  }

  /** Section 3 of RFC 3629. */
  function Utf8(cp: nat): string
    requires cp < 0x11_0000
  {
    if cp < 0x80 then [cp as char]
    else if cp < 0x800 then [(0xC0 + cp / 64) as char, (0x80 + cp % 64) as char]
    else if cp < 0x1_0000 then
      [(0xE0 + cp / 4096) as char, (0x80 + cp / 64 % 64) as char, (0x80 + cp % 64) as char]
    else
      [(0xF0 + cp / 262144) as char, (0x80 + cp / 4096 % 64) as char, (0x80 + cp / 64 % 64) as char,
       (0x80 + cp % 64) as char]
  }

  /** One \uXXXX literal or a surrogate pair of them: the bytes and how much text it took. */
  datatype Literal = BadLiteral | Utf16(bytes: string, len: nat)

  function ReadUtf16(s: string): (r: Literal)
    ensures r.Utf16? ==> 6 <= r.len <= |s|
  {
    if |s| < 6 then BadLiteral
    else
      var first := Hex4(s[2..]);
      if 0xDC00 <= first <= 0xDFFF then BadLiteral
      else if 0xD800 <= first <= 0xDBFF then
        if |s| < 12 || s[6] != '\\' || s[7] != 'u' then BadLiteral
        else
          var second := Hex4(s[8..]);
          if second < 0xDC00 || second > 0xDFFF then BadLiteral
          else Utf16(Utf8(0x1_0000 + (first % 0x400) * 0x400 + second % 0x400), 12)
      else Utf16(Utf8(first), 6)
  }

  /** The character a two-character escape stands for, or NUL. */
  function SimpleEscape(c: char): char
  {
    match c
    case 'b' => 8 as char
    case 'f' => 12 as char
    case 'n' => 10 as char
    case 'r' => 13 as char
    case 't' => 9 as char
    case '"' => c
    case '\\' => c
    case '/' => c
    case _ => NUL
  }

  /** The decoded text between the quotes. */
  datatype Decoded = Undecodable | Text(s: string)

  /** A quote follows `s`; a backslash at its end escapes that quote. */
  function Decode(s: string): Decoded
  {
    if s == [] then Text([])
    else if s[0] != '\\' then Then([s[0]], Decode(s[1..]))
    else if |s| < 2 then Text(['"'])
    else if s[1] == 'u' then
      var u := ReadUtf16(s);
      if u.BadLiteral? then Undecodable else Then(u.bytes, Decode(s[u.len..]))
    else if SimpleEscape(s[1]) == NUL then Undecodable
    else Then([SimpleEscape(s[1])], Decode(s[2..]))
  }

  function Then(s: string, d: Decoded): Decoded
  {
    if d.Undecodable? then d else Text(s + d.s)
  }

  function ParseString(s: string): (r: Read<string>)
    ensures r.Ok? ==> |r.rest| < |s|
  {
    if s == [] || s[0] != '"' then Fail
    else
      var n := FindQuote(s[1..]);
      if n == -1 then Fail
      else
        var d := Decode(s[1..][..n]);
        if d.Undecodable? then Fail else Ok(d.s, s[1..][n + 1..])
  }

  predicate IsDigit(c: char) { '0' <= c <= '9' }

  /** Leading digits, added to `acc`; `n` counts them. */
  function ReadDigits(s: string, acc: nat, n: nat): (r: (nat, nat, string))
    ensures |r.2| <= |s| && n <= r.1 && |s| - |r.2| == r.1 - n
  {
    if s != [] && IsDigit(s[0]) then ReadDigits(s[1..], acc * 10 + (s[0] as int - '0' as int), n + 1)
    else (acc, n, s)
  }

  const MAX_DIGITS: nat := 15

  /** Integers of up to 15 digits; fractions, exponents and longer numbers are not modelled. */
  function ParseNumber(s: string): (r: Read<int>)
    ensures r.Ok? ==> |r.rest| < |s|
  {
    var negative := s != [] && s[0] == '-';
    var (v, n, rest) := ReadDigits(if negative then s[1..] else s, 0, 0);
    if n == 0 || n > MAX_DIGITS || (rest != [] && (rest[0] == '.' || rest[0] == 'e' || rest[0] == 'E')) then Fail
    else Ok(if negative then 0 - v as int else v as int, rest)
  }

  predicate Prefixed(s: string, p: string): (r: bool)
    ensures r && p != [] ==> s != [] && s[0] == p[0]
  {
    |s| >= |p| && s[..|p|] == p
  }

  function ParseValue(s: string, depth: nat): (r: Read<Value>)
    ensures r.Ok? ==> |r.rest| < |s|
    decreases |s|, 1
  {
    if Prefixed(s, "null") then Ok(Null, s[4..])
    else if Prefixed(s, "false") then Ok(Bool(false), s[5..])
    else if Prefixed(s, "true") then Ok(Bool(true), s[4..])
    else if s == [] then Fail
    else if s[0] == '"' then
      var r := ParseString(s); if r.Fail? then Fail else Ok(String(r.value), r.rest)
    else if s[0] == '-' || IsDigit(s[0]) then
      var r := ParseNumber(s); if r.Fail? then Fail else Ok(Number(r.value), r.rest)
    else if s[0] == '[' && depth < NESTING_LIMIT then
      var r := ParseArray(s[1..], depth + 1); if r.Fail? then Fail else Ok(Array(r.value), r.rest)
    else if s[0] == '{' && depth < NESTING_LIMIT then
      var r := ParseObject(s[1..], depth + 1); if r.Fail? then Fail else Ok(Object(r.value), r.rest)
    else Fail
  }

  /** What follows an opening bracket. */
  function ParseArray(s: string, depth: nat): (r: Read<seq<Value>>)
    ensures r.Ok? ==> |r.rest| < |s|
    decreases |s|, 3
  {
    var t := Skip(s);
    if t == [] then Fail
    else if t[0] == ']' then Ok([], t[1..])
    else ParseElements(t, depth)
  }

  /** One or more elements and the closing bracket. */
  function ParseElements(s: string, depth: nat): (r: Read<seq<Value>>)
    ensures r.Ok? ==> |r.rest| < |s|
    decreases |s|, 2
  {
    var v := ParseValue(Skip(s), depth);
    if v.Fail? then Fail
    else
      var t := Skip(v.rest);
      if t == [] then Fail
      else if t[0] == ',' then
        var more := ParseElements(t[1..], depth);
        if more.Fail? then Fail else Ok([v.value] + more.value, more.rest)
      else if t[0] == ']' then Ok([v.value], t[1..])
      else Fail
  }

  /** What follows an opening brace. */
  function ParseObject(s: string, depth: nat): (r: Read<seq<Member>>)
    ensures r.Ok? ==> |r.rest| < |s|
    decreases |s|, 4
  {
    var t := Skip(s);
    if t == [] then Fail
    else if t[0] == '}' then Ok([], t[1..])
    else ParseMembers(t, depth)
  }

  /** A key and its colon. */
  function ParseKey(s: string): (r: Read<string>)
    ensures r.Ok? ==> |r.rest| < |s|
  {
    var key := ParseString(Skip(s));
    if key.Fail? then Fail
    else
      var t := Skip(key.rest);
      if t == [] || t[0] != ':' then Fail else Ok(key.value, t[1..])
  }

  function ParseMember(s: string, depth: nat): (r: Read<Member>)
    ensures r.Ok? ==> |r.rest| < |s|
    decreases |s|, 2
  {
    var key := ParseKey(s);
    if key.Fail? then Fail
    else
      var v := ParseValue(Skip(key.rest), depth);
      if v.Fail? then Fail else Ok(Member(key.value, v.value), v.rest)
  }

  /** One or more members and the closing brace. */
  function ParseMembers(s: string, depth: nat): (r: Read<seq<Member>>)
    ensures r.Ok? ==> |r.rest| < |s|
    decreases |s|, 3
  {
    var m := ParseMember(s, depth);
    if m.Fail? then Fail
    else
      var t := Skip(m.rest);
      if t == [] then Fail
      else if t[0] == ',' then
        var more := ParseMembers(t[1..], depth);
        if more.Fail? then Fail else Ok([m.value] + more.value, more.rest)
      else if t[0] == '}' then Ok([m.value], t[1..])
      else Fail
  }

  /** cJSON_Parse: the buffer includes the terminating NUL; a byte order mark is skipped. */
  function Parse(text: string): Read<Value>
  {
    var s := text + [NUL];
    ParseValue(Skip(if |s| > 4 && Prefixed(s, [0xEF as char, 0xBB as char, 0xBF as char]) then s[3..] else s), 0)
  }
}
