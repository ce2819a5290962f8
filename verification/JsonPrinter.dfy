/**
 The printer as it runs: a buffer that grows at the end, and a nesting depth
 that arrays and objects move while they print their children in loops.
 */
module JsonPrinter {
  import opened Json

  class PrintBuffer {
    var text: string
    var depth: nat
    const format: bool

    constructor (format: bool)
      ensures text == "" && depth == 0 && this.format == format
    {
      text, depth, this.format := "", 0, format;
    }

    method Append(s: string)
      modifies this`text
      ensures text == old(text) + s
    {
      text := text + s;
    }

    /** print_string_ptr's loop over the characters. */
    method PrintString(s: string)
      modifies this`text
      ensures text == old(text) + Json.PrintString(s)
    {
      var literal := ['"'];
      for i := 0 to |s|
        invariant literal + Escape(s[i..]) == ['"'] + Escape(s)
      {
        assert s[i..][1..] == s[i + 1..];
        literal := literal + EscapeChar(s[i]);
      }
      assert literal == ['"'] + Escape(s);
      text := text + (literal + ['"']);
      assert literal + ['"'] == Json.PrintString(s);
    }

    method Indent(n: nat)
      modifies this`text
      ensures text == old(text) + Tabs(n)
    {
      for i := 0 to n
        invariant text + Tabs(n - i) == old(text) + Tabs(n)
      {
        assert Tabs(n - i) == ['\t'] + Tabs(n - i - 1);
        text := text + ['\t'];
      }
    }

    method PrintValue(v: Value)
      modifies this
      ensures text == old(text) + Print(v, format, depth) && depth == old(depth)
      decreases v, 1
    {
      match v
      case Null => Append("null");
      case Bool(b) => Append(if b then "true" else "false");
      case Number(n) => Append(PrintNumber(n));
      case String(s) => PrintString(s);
      case Array(items) => PrintArray(items);
      case Object(members) => PrintObject(members);
    }

    method PrintArray(items: seq<Value>)
      modifies this
      ensures text == old(text) + (['['] + PrintItems(items, format, depth + 1) + [']']) && depth == old(depth)
      decreases items, 0
    {
      Append("[");
      depth := depth + 1;
      ghost var whole := text + PrintItems(items, format, depth);
      for i := 0 to |items|
        invariant depth == old(depth) + 1
        invariant text + PrintItems(items[i..], format, depth) == whole
      {
        ghost var before := text;
        PrintValue(items[i]);
        if i + 1 < |items| { Append(if format then ", " else ","); }
        ItemStep(items, i, format, depth, before);
      }
      assert text + [] == whole;
      Append("]");
      depth := depth - 1;
      Regroup(old(text), "[", PrintItems(items, format, depth + 1), "]");
      assert ['['] + (PrintItems(items, format, depth + 1) + [']'])
          == ['['] + PrintItems(items, format, depth + 1) + [']'];
    }

    method PrintMember(m: Member)
      modifies this
      ensures text == old(text) + Json.PrintMember(m, format, depth) && depth == old(depth)
      decreases m, 0
    {
      if format { Indent(depth); }
      PrintString(m.key);
      Append(if format then ":\t" else ":");
      PrintValue(m.value);
      MemberPieces(old(text), m, format, depth);
    }

    /** The loop over the members of an object. */
    method PrintLines(members: seq<Member>)
      modifies this
      ensures text == old(text) + PrintMembers(members, format, depth) && depth == old(depth)
      decreases members, 0
    {
      ghost var whole := text + PrintMembers(members, format, depth);
      for i := 0 to |members|
        invariant depth == old(depth)
        invariant text + PrintMembers(members[i..], format, depth) == whole
      {
        ghost var before := text;
        PrintMember(members[i]);
        if i + 1 < |members| { Append(","); }
        if format { Append("\n"); }
        MemberStep(members, i, format, depth, before);
      }
      assert text + [] == whole;
    }

    method PrintObject(members: seq<Member>)
      modifies this
      ensures depth == old(depth)
      ensures text == old(text) + Print(Object(members), format, depth)
      decreases members, 1
    {
      Append(if format then "{\n" else "{");
      depth := depth + 1;
      PrintLines(members);
      if format { Indent(depth - 1); }
      Append("}");
      depth := depth - 1;
      ObjectPieces(old(text), members, format, depth);
    }
  }

  lemma ItemStep(items: seq<Value>, i: nat, fmt: bool, depth: nat, before: string)
    requires i < |items|
    ensures var sep := if i + 1 < |items| then (if fmt then ", " else ",") else "";
            before + Print(items[i], fmt, depth) + sep + PrintItems(items[i + 1..], fmt, depth)
            == before + PrintItems(items[i..], fmt, depth)
    ensures i + 1 == |items| ==>
              before + Print(items[i], fmt, depth) + PrintItems(items[i + 1..], fmt, depth)
              == before + PrintItems(items[i..], fmt, depth)
  {
    assert items[i..][1..] == items[i + 1..] && items[i..][0] == items[i];
    var first, more := Print(items[i], fmt, depth), PrintItems(items[i + 1..], fmt, depth);
    if i + 1 < |items| {
      var sep := if fmt then ", " else ",";
      Regroup(before, first, sep, more);
    }
  }

  lemma Regroup(a: string, b: string, c: string, d: string)
    ensures a + b + c + d == a + (b + (c + d))
  {
  }

  lemma MemberPieces(before: string, m: Member, fmt: bool, depth: nat)
    ensures fmt ==>
              before + Tabs(depth) + PrintString(m.key) + ":\t" + Print(m.value, fmt, depth)
              == before + PrintMember(m, fmt, depth)
    ensures !fmt ==>
      before + PrintString(m.key) + ":" + Print(m.value, fmt, depth) == before + PrintMember(m, fmt, depth)
  {
    var key, value := PrintString(m.key), Print(m.value, fmt, depth);
    if fmt {
      Regroup(before + Tabs(depth), key, ":\t", value);
      Regroup(before, Tabs(depth), key + (":\t" + value), []);
    } else {
      Regroup(before, key, ":", value);
      assert [] + (key + (":" + value)) == key + (":" + value);
    }
  }

  lemma MemberStep(members: seq<Member>, i: nat, fmt: bool, depth: nat, before: string)
    requires i < |members|
    ensures var first, more := PrintMember(members[i], fmt, depth), PrintMembers(members[i + 1..], fmt, depth);
            var whole := before + PrintMembers(members[i..], fmt, depth);
            && (i + 1 < |members| && fmt ==> before + first + "," + "\n" + more == whole)
            && (i + 1 < |members| && !fmt ==> before + first + "," + more == whole)
            && (i + 1 == |members| && fmt ==> before + first + "\n" + more == whole)
            && (i + 1 == |members| && !fmt ==> before + first + more == whole)
  {
    assert members[i..][1..] == members[i + 1..] && members[i..][0] == members[i];
    var first, more := PrintMember(members[i], fmt, depth), PrintMembers(members[i + 1..], fmt, depth);
    Regroup(before + first, ",", "\n", more);
    Regroup(before, first, ",", "\n" + more);
    Regroup(before, first, ",", more);
    Regroup(before, first, "\n", more);
    assert "" + more == more && "" + ("\n" + more) == "\n" + more;
    assert before + first + ("," + ("\n" + more)) == before + (first + ("," + ("\n" + more)));
  }

  lemma ObjectPieces(before: string, members: seq<Member>, fmt: bool, depth: nat)
    ensures var inner := PrintMembers(members, fmt, depth + 1);
            && (fmt ==> before + "{\n" + inner + Tabs(depth) + "}" == before + Print(Object(members), fmt, depth))
            && (!fmt ==> before + "{" + inner + "}" == before + Print(Object(members), fmt, depth))
  {
    var inner := PrintMembers(members, fmt, depth + 1);
    Regroup(before, "{\n" + inner, Tabs(depth), "}");
    Regroup(before, "{", inner, "}");
    assert "{" + inner + [] == "{" + inner;
  }
}
