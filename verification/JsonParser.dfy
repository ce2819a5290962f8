/**
 The parser as it runs: a buffer with an offset and a nesting depth that its
 methods move, reading lists in loops. Each method does what the text format says.
 */
module JsonParser {
  import opened Json

  /** `done` followed by what is read from the rest of a list. */
  ghost function After<T>(done: seq<T>, r: Read<seq<T>>): Read<seq<T>>
  {
    if r.Fail? then Fail else Ok(done + r.value, r.rest)
  }

  /** utf16_literal_to_utf8's output loop: continuation bytes from the back, then the first byte. */
  method EncodeUtf8(codepoint: nat) returns (bytes: string)
    requires codepoint < 0x11_0000
    ensures bytes == Utf8(codepoint)
  {
    var length :=
      if codepoint < 0x80 then 1 else if codepoint < 0x800 then 2 else if codepoint < 0x1_0000 then 3 else 4;
    var mark := if length == 1 then 0 else if length == 2 then 0xC0 else if length == 3 then 0xE0 else 0xF0;
    var position, cp := length - 1, codepoint;
    bytes := [];
    while position > 0
      invariant 0 <= position < length && |bytes| == length - 1 - position
      invariant cp == (match |bytes|
        case 0 => codepoint
        case 1 => codepoint / 64
        case 2 => codepoint / 4096
        case _ => codepoint / 262144)
      invariant |bytes| >= 1 ==> bytes[|bytes| - 1] == (0x80 + codepoint % 64) as char
      invariant |bytes| >= 2 ==> bytes[|bytes| - 2] == (0x80 + codepoint / 64 % 64) as char
      invariant |bytes| >= 3 ==> bytes[|bytes| - 3] == (0x80 + codepoint / 4096 % 64) as char
    {
      bytes := [(0x80 + cp % 64) as char] + bytes;
      cp, position := cp / 64, position - 1;
    }
    bytes := [(mark + cp) as char] + bytes;
  }

  /** parse_hex4's loop. */
  method ParseHex4(s: string) returns (h: nat)
    requires |s| >= 4
    ensures h == Hex4(s)
  {
    h := 0;
    for i := 0 to 4
      invariant forall j :: 0 <= j < i ==> HexValue(s[j]) >= 0
      invariant i == 1 ==> h == HexValue(s[0]) * 16
      invariant i == 2 ==> h == (HexValue(s[0]) * 16 + HexValue(s[1])) * 16
      invariant i == 3 ==> h == ((HexValue(s[0]) * 16 + HexValue(s[1])) * 16 + HexValue(s[2])) * 16
      invariant i == 0 ==> h == 0
      invariant i == 4 ==> h == ((HexValue(s[0]) * 16 + HexValue(s[1])) * 16 + HexValue(s[2])) * 16 + HexValue(s[3])
    {
      var d := HexValue(s[i]);
      if d < 0 { return 0; }
      h := h + d;
      if i < 3 { h := h * 16; }
    }
  }

  /** utf16_literal_to_utf8: one \uXXXX literal, or two that form a surrogate pair. */
  method Utf16LiteralToUtf8(s: string) returns (u: Literal)
    ensures u == ReadUtf16(s)
  {
    if |s| < 6 { return BadLiteral; }
    var first := ParseHex4(s[2..]);
    if 0xDC00 <= first <= 0xDFFF { return BadLiteral; }
    var codepoint, len := first, 6;
    if 0xD800 <= first <= 0xDBFF {
      if |s| < 12 || s[6] != '\\' || s[7] != 'u' { return BadLiteral; }
      var second := ParseHex4(s[8..]);
      if second < 0xDC00 || second > 0xDFFF { return BadLiteral; }
      codepoint, len := 0x1_0000 + (first % 0x400) * 0x400 + second % 0x400, 12;
    }
    var bytes := EncodeUtf8(codepoint);
    u := Utf16(bytes, len);
  }

  /** What follows an element decides how the list goes on. */
  lemma BehindElement(s: string, depth: nat, v: Value, rest: string)
    requires Json.ParseValue(Skip(s), depth) == Ok(v, rest)
    ensures
      var t := Skip(rest);
      Json.ParseElements(s, depth) ==
        if t == [] then Fail
        else if t[0] == ',' then After([v], Json.ParseElements(t[1..], depth))
        else if t[0] == ']' then Ok([v], t[1..]) else Fail
  {
  }

  lemma BehindMember(s: string, depth: nat, m: Member, rest: string)
    requires Json.ParseMember(s, depth) == Ok(m, rest)
    ensures
      var t := Skip(rest);
      Json.ParseMembers(s, depth) ==
        if t == [] then Fail
        else if t[0] == ',' then After([m], Json.ParseMembers(t[1..], depth))
        else if t[0] == '}' then Ok([m], t[1..]) else Fail
  {
  }

  /** The string literal from the quote at `start` to the one at `end`. */
  lemma LiteralAt(content: string, start: nat, end: nat)
    requires start < end < |content| && content[start] == '"' && FindQuote(content[start + 1..]) == end - start - 1
    ensures
      var d := Decode(content[start + 1..end]);
      Json.ParseString(content[start..]) == if d.Undecodable? then Fail else Ok(d.s, content[end + 1..])
  {
    var s, n := content[start..], end - start - 1;
    assert s[1..] == content[start + 1..];
    assert s[1..][..n] == content[start + 1..end] && s[1..][n + 1..] == content[end + 1..];
  }

  class ParseBuffer {
    const content: string
    var offset: nat
    var depth: nat

    constructor (text: string)
      ensures content == text + [NUL] && offset == 0 && depth == 0
    {
      content, offset, depth := text + [NUL], 0, 0;
    }

    ghost predicate Valid()
      reads this
    {
      offset <= |content|
    }

    /** The text still to be read. */
    ghost function Rest(): string
      requires Valid()
      reads this
    {
      content[offset..]
    }

    method SkipWhitespace()
      requires Valid()
      modifies this`offset
      ensures Valid() && offset >= old(offset) && Rest() == Skip(old(Rest()))
    {
      if offset >= |content| { return; }
      ghost var start := Rest();
      while offset < |content| && content[offset] as int <= 32
        invariant old(offset) <= offset <= |content|
        invariant DropBlanks(Rest()) == DropBlanks(start)
      {
        assert Rest()[1..] == content[offset + 1..];
        offset := offset + 1;
      }
      if offset == |content| {
        offset := offset - 1;
        assert start[|start| - 1] == content[|content| - 1];
      }
    }

    /** The position of the closing quote of the literal that starts before `start`, or -1. */
    method ClosingQuote(start: nat) returns (end: int)
      requires start <= |content|
      ensures if FindQuote(content[start..]) == -1 then end == -1 else end == start + FindQuote(content[start..])
      ensures end == -1 || (start <= end < |content| && content[end] == '"')
    {
      end := start;
      while end < |content| && content[end] != '"'
        invariant start <= end <= |content|
        invariant FindQuote(content[start..])
               == if FindQuote(content[end..]) == -1 then -1 else end - start + FindQuote(content[end..])
      {
        ghost var t := content[end..];
        if content[end] == '\\' {
          if end + 1 >= |content| { return -1; }
          assert t[2..] == content[end + 2..];
          end := end + 1;
        } else {
          assert t[1..] == content[end + 1..];
        }
        end := end + 1;
      }
      if end >= |content| { end := -1; }
    }

    method ParseString() returns (ok: bool, value: string)
      requires Valid()
      modifies this`offset
      ensures Valid()
      ensures offset >= old(offset)
      ensures ok <==> Json.ParseString(old(Rest())).Ok?
      ensures ok ==> Json.ParseString(old(Rest())) == Ok(value, Rest())
    {
      if offset >= |content| || content[offset] != '"' { return false, []; }
      assert Rest()[1..] == content[offset + 1..];
      var end := ClosingQuote(offset + 1);
      if end == -1 { return false, []; }
      LiteralAt(content, offset, end);
      ok, value := DecodeLiteral(offset + 1, end);
      if ok { offset := end + 1; }
    }

    /** What is still to be decoded of the literal that the quote at `end` closes. */
    ghost function Left(i: nat, end: nat): Decoded
      requires end <= |content|
    {
      if i <= end then Decode(content[i..end]) else Text([])
    }

    /** One character or escape of the literal that the quote at `end` closes. */
    method DecodeOne(i: nat, end: nat) returns (ok: bool, bytes: string, n: nat)
      requires i < end < |content| && content[end] == '"'
      ensures 0 < n && i + n <= end + 1
      ensures !ok ==> Decode(content[i..end]) == Undecodable
      ensures ok ==> Decode(content[i..end]) == Then(bytes, Left(i + n, end))
    {
      ghost var t := content[i..end];
      ok, bytes, n := true, [content[i]], 1;
      if content[i] != '\\' {
        assert t[1..] == content[i + 1..end];
      } else if content[i + 1] == 'u' {
        var u := Utf16LiteralToUtf8(content[i..end]);
        if u.BadLiteral? { return false, [], 1; }
        bytes, n := u.bytes, u.len;
        assert t[n..] == content[i + n..end];
      } else {
        var c := SimpleEscape(content[i + 1]);
        if c == NUL { return false, [], 1; }
        bytes, n := [c], 2;
        assert [c] + [] == [c];
        if i + 2 <= end { assert t[2..] == content[i + 2..end]; }
      }
    }

    /** The loop through the string literal between `start` and the quote at `end`. */
    method DecodeLiteral(start: nat, end: nat) returns (ok: bool, value: string)
      requires start <= end < |content| && content[end] == '"'
      ensures if ok then Decode(content[start..end]) == Text(value) else Decode(content[start..end]) == Undecodable
    {
      ok, value := true, [];
      var i := start;
      ghost var whole, left := Left(start, end), Left(start, end);
      while i < end
        invariant start <= i <= end + 1
        invariant whole == Then(value, left) && left == Left(i, end)
        decreases end + 1 - i
      {
        var bytes, n;
        ok, bytes, n := DecodeOne(i, end);
        if !ok { return; }
        ThenThen(value, bytes, Left(i + n, end));
        value, i, left := value + bytes, i + n, Left(i + n, end);
      }
      assert left == Text([]) && value + [] == value;
    }

    method ParseNumber() returns (ok: bool, value: int)
      requires Valid()
      modifies this`offset
      ensures Valid()
      ensures ok <==> Json.ParseNumber(old(Rest())).Ok?
      ensures ok ==> Json.ParseNumber(old(Rest())) == Ok(value, Rest())
    {
      var negative := offset < |content| && content[offset] == '-';
      var start := if negative then offset + 1 else offset;
      ghost var text := content[start..];
      assert negative ==> text == old(Rest())[1..];
      var end, v: nat := start, 0;
      while end < |content| && IsDigit(content[end])
        invariant start <= end <= |content|
        invariant ReadDigits(text, 0, 0) == ReadDigits(content[end..], v, end - start)
      {
        assert content[end..][1..] == content[end + 1..];
        v, end := v * 10 + (content[end] as int - '0' as int), end + 1;
      }
      var n := end - start;
      if n == 0 || n > MAX_DIGITS ||
         (end < |content| && (content[end] == '.' || content[end] == 'e' || content[end] == 'E')) {
        return false, 0;
      }
      ok, value, offset := true, if negative then 0 - v else v, end;
    }

    /** The text ahead starts with `word`. */
    method Sees(word: string) returns (r: bool)
      requires Valid()
      ensures r == Prefixed(Rest(), word)
    {
      r := offset + |word| <= |content| && content[offset..offset + |word|] == word;
      if offset + |word| <= |content| { assert Rest()[..|word|] == content[offset..offset + |word|]; }
    }

    method ParseValue() returns (ok: bool, v: Value)
      requires Valid()
      modifies this
      ensures Valid()
      ensures ok <==> Json.ParseValue(old(Rest()), old(depth)).Ok?
      ensures ok ==> Json.ParseValue(old(Rest()), old(depth)) == Ok(v, Rest())
      ensures ok ==> depth == old(depth) && offset > old(offset)
      decreases |content| - offset, 5
    {
      ghost var s := Rest();
      var n := Sees("null");
      if n { offset := offset + 4; return true, Null; }
      var f := Sees("false");
      if f { offset := offset + 5; return true, Bool(false); }
      var t := Sees("true");
      if t { offset := offset + 4; return true, Bool(true); }
      ok, v := false, Null;
      if offset >= |content| { return; }
      var c := content[offset];
      if c == '"' {
        var str;
        ok, str := ParseString();
        v := String(str);
      } else if c == '-' || IsDigit(c) {
        var num;
        ok, num := ParseNumber();
        v := Number(num);
      } else if c == '[' && depth < NESTING_LIMIT {
        var items;
        ok, items := ParseArray();
        v := Array(items);
      } else if c == '{' && depth < NESTING_LIMIT {
        var members;
        ok, members := ParseObject();
        v := Object(members);
      }
    }

    method ParseArray() returns (ok: bool, items: seq<Value>)
      requires Valid() && offset < |content| && content[offset] == '[' && depth < NESTING_LIMIT
      modifies this
      ensures Valid()
      ensures ok <==> Json.ParseArray(old(Rest())[1..], old(depth) + 1).Ok?
      ensures ok ==> Json.ParseArray(old(Rest())[1..], old(depth) + 1) == Ok(items, Rest())
      ensures ok ==> depth == old(depth) && offset > old(offset)
      decreases |content| - offset, 4
    {
      ghost var inner := Rest()[1..];
      depth, offset, items := depth + 1, offset + 1, [];
      assert Rest() == inner;
      SkipWhitespace();
      ghost var t := Rest();
      if offset >= |content| { return false, []; }
      if content[offset] == ']' {
        depth, offset := depth - 1, offset + 1;
        assert t[1..] == Rest();
        return true, [];
      }
      ok, items := Elements(old(offset));
      if ok { depth := depth - 1; }
    }

    method ParseObject() returns (ok: bool, members: seq<Member>)
      requires Valid() && offset < |content| && content[offset] == '{' && depth < NESTING_LIMIT
      modifies this
      ensures Valid()
      ensures ok <==> Json.ParseObject(old(Rest())[1..], old(depth) + 1).Ok?
      ensures ok ==> Json.ParseObject(old(Rest())[1..], old(depth) + 1) == Ok(members, Rest())
      ensures ok ==> depth == old(depth) && offset > old(offset)
      decreases |content| - offset, 4
    {
      ghost var inner := Rest()[1..];
      depth, offset, members := depth + 1, offset + 1, [];
      assert Rest() == inner;
      SkipWhitespace();
      ghost var t := Rest();
      if offset >= |content| { return false, []; }
      if content[offset] == '}' {
        depth, offset := depth - 1, offset + 1;
        assert t[1..] == Rest();
        return true, [];
      }
      ok, members := Members(old(offset));
      if ok { depth := depth - 1; }
    }

    method ParseKey() returns (ok: bool, key: string)
      requires Valid()
      modifies this`offset
      ensures Valid() && offset >= old(offset)
      ensures ok <==> Json.ParseKey(old(Rest())).Ok?
      ensures ok ==> Json.ParseKey(old(Rest())) == Ok(key, Rest())
    {
      SkipWhitespace();
      ok, key := ParseString();
      if !ok { return; }
      SkipWhitespace();
      ghost var t := Rest();
      if offset >= |content| || content[offset] != ':' { ok := false; return; }
      offset := offset + 1;
      assert t[1..] == Rest();
    }

    method ParseMember(ghost low: nat) returns (ok: bool, m: Member)
      requires Valid() && low < offset
      modifies this
      ensures Valid()
      ensures ok <==> Json.ParseMember(old(Rest()), old(depth)).Ok?
      ensures ok ==> Json.ParseMember(old(Rest()), old(depth)) == Ok(m, Rest())
      ensures ok ==> depth == old(depth) && offset > old(offset)
      decreases |content| - low, 1
    {
      m := Member([], Null);
      var key;
      ok, key := ParseKey();
      if !ok { return; }
      SkipWhitespace();
      var v;
      ok, v := ParseValue();
      m := Member(key, v);
    }

    /** A comma or the closing bracket, after blanks. */
    method Separator(close: char) returns (ok: bool, more: bool)
      requires Valid()
      modifies this`offset
      ensures Valid()
      ensures var t := Skip(old(Rest())); ok <==> t != [] && (t[0] == ',' || t[0] == close)
      ensures
        var t := Skip(old(Rest()));
        ok ==> Rest() == t[1..] && (more <==> t[0] == ',') && offset > old(offset)
    {
      more := false;
      SkipWhitespace();
      ghost var t := Rest();
      ok := offset < |content| && (content[offset] == ',' || content[offset] == close);
      if ok {
        more := content[offset] == ',';
        offset := offset + 1;
        assert t[1..] == Rest();
      }
    }

    /** One turn of the loop over object members. */
    method NextMember(ghost low: nat) returns (ok: bool, m: Member, more: bool)
      requires Valid() && low < offset
      modifies this
      ensures Valid()
      ensures !ok ==> Json.ParseMembers(old(Rest()), old(depth)).Fail?
      ensures ok ==> depth == old(depth) && offset > old(offset)
      ensures ok && more ==> Json.ParseMembers(old(Rest()), depth) == After([m], Json.ParseMembers(Rest(), depth))
      ensures ok && !more ==> Json.ParseMembers(old(Rest()), depth) == Ok([m], Rest())
      decreases |content| - low, 2
    {
      more := false;
      ok, m := ParseMember(low);
      if !ok { return; }
      BehindMember(old(Rest()), depth, m, Rest());
      ok, more := Separator('}');
    }

    /** The do-while loop over object members. */
    method Members(ghost low: nat) returns (ok: bool, members: seq<Member>)
      requires Valid() && low < offset
      modifies this
      ensures Valid()
      ensures ok <==> Json.ParseMembers(old(Rest()), old(depth)).Ok?
      ensures ok ==> Json.ParseMembers(old(Rest()), old(depth)) == Ok(members, Rest())
      ensures ok ==> depth == old(depth) && offset > low
      decreases |content| - low, 3
    {
      members := [];
      ghost var target := Json.ParseMembers(Rest(), depth);
      AfterNone(target);
      while true
        invariant Valid() && depth == old(depth) && low < offset
        invariant target == After(members, Json.ParseMembers(Rest(), depth))
        decreases |content| - offset
      {
        var m, more;
        ok, m, more := NextMember(low);
        if !ok { return false, []; }
        AfterOne(members, m, Json.ParseMembers(Rest(), depth));
        members := members + [m];
        if !more { return true, members; }
      }
    }

    /** One turn of the loop over array elements. */
    method NextElement(ghost low: nat) returns (ok: bool, v: Value, more: bool)
      requires Valid() && low < offset
      modifies this
      ensures Valid()
      ensures !ok ==> Json.ParseElements(old(Rest()), old(depth)).Fail?
      ensures ok ==> depth == old(depth) && offset > old(offset)
      ensures ok && more ==> Json.ParseElements(old(Rest()), depth) == After([v], Json.ParseElements(Rest(), depth))
      ensures ok && !more ==> Json.ParseElements(old(Rest()), depth) == Ok([v], Rest())
      decreases |content| - low, 2
    {
      more := false;
      SkipWhitespace();
      ok, v := ParseValue();
      if !ok { return; }
      BehindElement(old(Rest()), depth, v, Rest());
      ok, more := Separator(']');
    }

    /** The do-while loop over array elements. */
    method Elements(ghost low: nat) returns (ok: bool, items: seq<Value>)
      requires Valid() && low < offset
      modifies this
      ensures Valid()
      ensures ok <==> Json.ParseElements(old(Rest()), old(depth)).Ok?
      ensures ok ==> Json.ParseElements(old(Rest()), old(depth)) == Ok(items, Rest())
      ensures ok ==> depth == old(depth) && offset > low
      decreases |content| - low, 3
    {
      items := [];
      ghost var target := Json.ParseElements(Rest(), depth);
      AfterNone(target);
      while true
        invariant Valid() && depth == old(depth) && low < offset
        invariant target == After(items, Json.ParseElements(Rest(), depth))
        decreases |content| - offset
      {
        var v, more;
        ok, v, more := NextElement(low);
        if !ok { return false, []; }
        AfterOne(items, v, Json.ParseElements(Rest(), depth));
        items := items + [v];
        if !more { return true, items; }
      }
    }
  }

  /** cJSON_Parse: the tree at the front of a text; what follows it is ignored. */
  method ParseText(text: string) returns (ok: bool, v: Value)
    ensures ok <==> Parse(text).Ok?
    ensures ok ==> Parse(text).value == v
  {
    var buffer := new ParseBuffer(text);
    var mark := [0xEF as char, 0xBB as char, 0xBF as char];
    var bom := buffer.Sees(mark);
    assert buffer.Rest() == text + [NUL];
    if |buffer.content| > 4 && bom { buffer.offset := 3; }
    buffer.SkipWhitespace();
    ok, v := buffer.ParseValue();
  }

  lemma AfterNone<T>(r: Read<seq<T>>)
    ensures After([], r) == r
  {
    if r.Ok? { assert [] + r.value == r.value; }
  }

  lemma AfterOne<T>(done: seq<T>, x: T, r: Read<seq<T>>)
    ensures After(done, After([x], r)) == After(done + [x], r)
  {
    if r.Ok? { assert done + ([x] + r.value) == done + [x] + r.value; }
  }

  lemma ThenThen(a: string, b: string, d: Decoded)
    ensures Then(a, Then(b, d)) == Then(a + b, d)
  {
    if d.Text? { assert a + (b + d.s) == a + b + d.s; }
  }
}
