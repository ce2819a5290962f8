/**
 When rewriting a reference changes what a name stands for. A comma or a brace
 written between the values of a variable is quoted by a backslash that trimming
 leaves at the end of a value, and a bare comma in a value splits it.
 */
module RewritingChanges {
  import opened Strings
  import opened Expansion
  import opened Alternation
  import opened Variables
  import opened Rewriting
  import GlobScanner
  import GlobGrammar

  // ----- Text without bare braces stands for itself -----

  function Spelled(v: Value): (s: string)
    requires Free(v)
    ensures |s| == |v|
  {
    seq(|v|, i requires 0 <= i < |v| => v[i].c)
  }

  predicate IsBrace(c: char) { c == '{' || c == '}' }

  predicate BraceFree(v: Value, f: Flags)
  {
    v == [] || (v[0].Ch? && !(f == CLEAN && IsBrace(v[0].c)) && BraceFree(v[1..], NextFlags(v[0].c, f)))
  }

  /** Text without bare braces that leaves neither a quote nor a class open. */
  predicate Literal(v: Value)
  {
    Free(v) && BraceFree(v, CLEAN) && FlagsAfter(v, CLEAN) == CLEAN
  }

  /** The flags after a string, and the bare commas in it. */
  function FlagsOf(s: string, f: Flags): Flags
  {
    if s == [] then f else FlagsOf(s[1..], NextFlags(s[0], f))
  }

  function Commas(s: string, f: Flags): nat
  {
    if s == [] then 0 else (if f == CLEAN && s[0] == ',' then 1 else 0) + Commas(s[1..], NextFlags(s[0], f))
  }

  lemma {:induction false} SpelledFlags(v: Value, f: Flags)
    requires Free(v)
    ensures FlagsOf(Spelled(v), f) == FlagsAfter(v, f)
    decreases |v|
  {
    if v != [] {
      assert Spelled(v)[1..] == Spelled(v[1..]);
      SpelledFlags(v[1..], NextFlags(v[0].c, f));
    }
  }

  lemma SpelledJoin(a: Value, b: Value)
    requires Free(a) && Free(b)
    ensures Free(a + b) && Spelled(a + b) == Spelled(a) + Spelled(b)
  {
  }

  lemma {:induction false} CommasJoin(a: string, b: string, f: Flags)
    ensures Commas(a + b, f) == Commas(a, f) + Commas(b, FlagsOf(a, f))
    ensures FlagsOf(a + b, f) == FlagsOf(b, FlagsOf(a, f))
    decreases |a|
  {
    if a == [] {
      assert a + b == b;
    } else {
      assert (a + b)[1..] == a[1..] + b;
      CommasJoin(a[1..], b, NextFlags(a[0], f));
    }
  }

  lemma {:induction false} BraceFreeJoin(a: Value, b: Value, f: Flags)
    ensures BraceFree(a + b, f) <==> BraceFree(a, f) && BraceFree(b, FlagsAfter(a, f))
    decreases |a|
  {
    if a == [] {
      assert a + b == b;
    } else {
      assert (a + b)[1..] == a[1..] + b;
      if a[0].Ch? { BraceFreeJoin(a[1..], b, NextFlags(a[0].c, f)); }
    }
  }

  function Heard(v: Value, st: Stack): string
    requires Free(v)
  {
    if Active(st) then Spelled(v) else ""
  }

  /** Text without bare braces, and in a group without bare commas, is copied while its branch is taken. */
  lemma {:induction false} LiteralRuns(v: Value, st: Stack, f: Flags, out: string, end: State)
    requires Free(v) && BraceFree(v, f) && (st.Bottom? || Commas(Spelled(v), f) == 0)
    ensures Runs(v, State(st, f), out, end) <==> out == Heard(v, st) && end == State(st, FlagsAfter(v, f))
    decreases |v|
  {
    if v == [] {
      assert Spelled(v) == "";
    } else {
      var c, s := v[0].c, State(st, f);
      var next := State(st, NextFlags(c, f));
      assert Spelled(v) == [c] + Spelled(v[1..]) && Spelled(v)[1..] == Spelled(v[1..]);
      assert Heard(v, st) == Output(c, s) + Heard(v[1..], st);
      LiteralStep(c, st, f);
      if Runs(v, s, out, end) {
        var n, out' := RunsUncons(v, s, out, end);
        LiteralRuns(v[1..], st, next.flags, out', end);
      }
      if out == Heard(v, st) && end == State(st, FlagsAfter(v, f)) {
        LiteralRuns(v[1..], st, next.flags, Heard(v[1..], st), end);
        RunsConsOf(v, s, next, Heard(v[1..], st), end);
      }
    }
  }

  lemma LiteralStep(c: char, st: Stack, f: Flags)
    requires !(f == CLEAN && (IsBrace(c) || (c == ',' && !st.Bottom?)))
    ensures forall n :: Step(c, State(st, f), n) <==> n == State(st, NextFlags(c, f))
    ensures Output(c, State(st, f)) == if Active(st) then [c] else ""
  {
  }

  lemma LiteralDenotes(v: Value, o: string)
    requires Literal(v)
    ensures Denotes(v, o) <==> o == Spelled(v)
  {
    LiteralRuns(v, Bottom, CLEAN, o, START);
  }

  // ----- What a group of such texts is read as -----

  /** A step inside a group that nothing surrounds. */
  lemma GroupStep(c: char, b: Branch, f: Flags, next: State)
    requires Step(c, State(Group(b, Bottom), f), next) && !(f == CLEAN && IsBrace(c))
    ensures next == State(Group(next.stack.branch, Bottom), NextFlags(c, f))
    ensures
      var o, b' := Output(c, State(Group(b, Bottom), f)), next.stack.branch;
      if f == CLEAN && c == ',' then
        o == "" && if b == Taking then b' == Done else if b == Waiting then b' == Waiting || b' == Taking else b' == b
      else
        b' == b && o == if b == Taking then [c] else ""
  {
  }

  /** Text without bare braces does not close the group it stands in. */
  lemma {:induction false} NeverCloses(v: Value, b: Branch, f: Flags, out: string, end: State)
    requires BraceFree(v, f) && Runs(v, State(Group(b, Bottom), f), out, end)
    ensures end.stack != Bottom
    decreases |v|
  {
    if v != [] {
      var next, out' := RunsUncons(v, State(Group(b, Bottom), f), out, end);
      GroupStep(v[0].c, b, f, next);
      NeverCloses(v[1..], next.stack.branch, next.flags, out', end);
    }
  }

  /** The brace that should close a group does, and what follows is copied. */
  lemma Closing(b: Branch, f: Flags, R: Value, x: string)
    requires Literal(R) && !f.inClass && Runs([Ch('}')] + R, State(Group(b, Bottom), f), x, START)
    ensures f == CLEAN && b != Waiting && x == Spelled(R)
  {
    var v, s := [Ch('}')] + R, State(Group(b, Bottom), f);
    var next, out' := RunsUncons(v, s, x, START);
    assert v[1..] == R;
    if f != CLEAN {
      NeverCloses(R, b, next.flags, out', START);
    }
    LiteralRuns(R, Bottom, CLEAN, out', START);
  }

  /** Where the string a branch adds begins to be read from. */
  function Since(b: Branch, f: Flags): Flags { if b == Taking then f else CLEAN }

  /** A branch adds no bare comma, and leaves nothing open. */
  predicate Adds(b: Branch, f: Flags, y: string)
  {
    (b == Done ==> y == "") && Commas(y, Since(b, f)) == 0 && FlagsOf(y, Since(b, f)) == CLEAN
  }

  lemma AddsStep(c: char, b: Branch, f: Flags, next: State, y: string)
    requires b != Dead && Step(c, State(Group(b, Bottom), f), next) && !(f == CLEAN && IsBrace(c))
    requires Adds(next.stack.branch, next.flags, y)
    ensures Adds(b, f, Output(c, State(Group(b, Bottom), f)) + y)
  {
    GroupStep(c, b, f, next);
    if b == Taking && next.stack.branch == Taking {
      assert ([c] + y)[1..] == y;
    } else {
      assert "" + y == y;
    }
  }

  lemma {:induction false} NoCommaAdded(Y: Value, b: Branch, f: Flags, R: Value, x: string) returns (y: string)
    requires b != Dead && BraceFree(Y, f) && Free(Y) && !FlagsAfter(Y, f).inClass && Literal(R)
    requires Runs(Y + ([Ch('}')] + R), State(Group(b, Bottom), f), x, START)
    ensures x == y + Spelled(R) && Adds(b, f, y)
    decreases |Y|
  {
    var v, s := Y + ([Ch('}')] + R), State(Group(b, Bottom), f);
    if Y == [] {
      assert v == [Ch('}')] + R;
      Closing(b, f, R, x);
      y := "";
    } else {
      var next, x' := RunsUncons(v, s, x, START);
      assert v[0] == Y[0] && v[1..] == Y[1..] + ([Ch('}')] + R);
      GroupStep(Y[0].c, b, f, next);
      var y' := NoCommaAdded(Y[1..], next.stack.branch, next.flags, R, x');
      AddsStep(Y[0].c, b, f, next, y');
      y := Output(Y[0].c, s) + y';
      Shift(Output(Y[0].c, s), y', Spelled(R));
    }
  }

  /** The values with commas between them. */
  function Body(vs: seq<Value>): Value
    requires vs != []
  {
    if |vs| == 1 then vs[0] else vs[0] + ([Ch(',')] + Body(vs[1..]))
  }

  lemma {:induction false} BodyCloses(vs: seq<Value>)
    requires vs != []
    ensures Branches(vs) == Body(vs) + [Ch('}')]
    decreases |vs|
  {
    if |vs| > 1 {
      BodyCloses(vs[1..]);
      assert [Ch(',')] + (Body(vs[1..]) + [Ch('}')]) == [Ch(',')] + Body(vs[1..]) + [Ch('}')];
      assert vs[0] + ([Ch(',')] + Body(vs[1..]) + [Ch('}')]) == vs[0] + ([Ch(',')] + Body(vs[1..])) + [Ch('}')];
    }
  }

  /** A value as trimming may leave it: a quote may be left open at its end. */
  predicate Trimmed(v: Value)
  {
    Free(v) && BraceFree(v, CLEAN) && !FlagsAfter(v, CLEAN).inClass
  }

  predicate AllTrimmed(vs: seq<Value>) { forall i :: 0 <= i < |vs| ==> Trimmed(vs[i]) }

  lemma {:induction false} BodyTrimmed(vs: seq<Value>)
    requires vs != [] && AllTrimmed(vs)
    ensures Trimmed(Body(vs))
    decreases |vs|
  {
    if |vs| > 1 {
      var more, f := [Ch(',')] + Body(vs[1..]), FlagsAfter(vs[0], CLEAN);
      BodyTrimmed(vs[1..]);
      assert more[1..] == Body(vs[1..]) && NextFlags(',', f) == CLEAN;
      BraceFreeJoin(vs[0], more, CLEAN);
      FlagsJoin(vs[0], more, CLEAN);
    }
  }

  lemma GroupReads(vs: seq<Value>, L: Value, R: Value, o: string) returns (b: Branch, x: string)
    requires vs != [] && Literal(L) && Denotes(L + GroupText(vs) + R, o)
    ensures (b == Taking || b == Waiting) && o == Spelled(L) + x
    ensures Runs(Body(vs) + ([Ch('}')] + R), Plainly(Group(b, Bottom)), x, START)
  {
    var text := Branches(vs) + R;
    BodyCloses(vs);
    assert L + GroupText(vs) + R == L + ([Ch('{')] + text);
    var a, s;
    a, s, x := RunsSplit(L, [Ch('{')] + text, START, o, START);
    LiteralRuns(L, Bottom, CLEAN, a, s);
    assert text == Body(vs) + ([Ch('}')] + R);
    b, x := GroupOpens(text, x);
  }

  lemma GroupOpens(text: Value, x: string) returns (b: Branch, x': string)
    requires Runs([Ch('{')] + text, START, x, START)
    ensures (b == Taking || b == Waiting) && x' == x
    ensures Runs(text, Plainly(Group(b, Bottom)), x, START)
  {
    var next;
    next, x' := RunsBehind('{', text, START, x, START);
    b := next.stack.branch;
  }

  // ----- What runs of slashes leave alone -----

  /** Characters other than slashes. */
  function Solids(s: string): nat
  {
    if s == [] then 0 else (if s[0] == '/' then 0 else 1) + Solids(s[1..])
  }

  /** The flags right behind the `n`-th character that is not a slash. */
  function FlagsBehind(s: string, n: nat, f: Flags): Flags
  {
    if s == [] || n == 0 then f
    else FlagsBehind(s[1..], if s[0] == '/' then n else n - 1, NextFlags(s[0], f))
  }

  lemma {:induction false} CollapseKeeps(s: string, n: nat, f: Flags)
    ensures Solids(Collapse(s)) == Solids(s) && Commas(Collapse(s), f) == Commas(s, f)
    ensures FlagsBehind(Collapse(s), n, f) == FlagsBehind(s, n, f)
    decreases |s|
  {
    if |s| >= 2 {
      var f' := NextFlags(s[0], f);
      if s[0] == '/' && s[1] == '/' {
        CollapseKeeps(s[1..], n, f);
        assert NextFlags('/', NextFlags('/', f)) == NextFlags('/', f);
        assert s[1..][0] == '/';
      } else {
        var c := [s[0]] + Collapse(s[1..]);
        assert c[1..] == Collapse(s[1..]);
        CollapseKeeps(s[1..], if s[0] == '/' || n == 0 then n else n - 1, f');
      }
    }
  }

  lemma {:induction false} SolidsJoin(a: string, b: string)
    ensures Solids(a + b) == Solids(a) + Solids(b)
    decreases |a|
  {
    if a == [] {
      assert a + b == b;
    } else {
      assert (a + b)[1..] == a[1..] + b;
      SolidsJoin(a[1..], b);
    }
  }

  lemma {:induction false} BehindAll(a: string, b: string, f: Flags)
    requires a != [] && a[|a| - 1] != '/'
    ensures FlagsBehind(a + b, Solids(a), f) == FlagsOf(a, f) && Solids(a) > 0
    decreases |a|
  {
    assert (a + b)[0] == a[0] && (a + b)[1..] == a[1..] + b;
    if |a| == 1 {
      assert a[1..] == "" && a[1..] + b == b;
    } else {
      BehindAll(a[1..], b, NextFlags(a[0], f));
    }
  }

  // ----- What trimming leaves -----

  predicate AllSlashes(v: Value) { forall i :: 0 <= i < |v| ==> v[i] == Ch('/') }

  lemma {:induction false} TrimLeadingSplits(u: Value) returns (A: Value)
    ensures AllSlashes(A) && u == A + TrimLeading(u)
    decreases |u|
  {
    A := [];
    if u != [] && u[0] == Ch('/') {
      var A' := TrimLeadingSplits(u[1..]);
      A := [u[0]] + A';
      assert u == [u[0]] + u[1..];
    }
  }

  lemma {:induction false} TrimTrailingSplits(u: Value) returns (B: Value)
    ensures AllSlashes(B) && u == TrimTrailing(u) + B
    ensures TrimTrailing(u) == [] || TrimTrailing(u)[|TrimTrailing(u)| - 1] != Ch('/')
    decreases |u|
  {
    B := [];
    if u != [] && u[|u| - 1] == Ch('/') {
      var B' := TrimTrailingSplits(u[..|u| - 1]);
      B := B' + [u[|u| - 1]];
      assert u == u[..|u| - 1] + [u[|u| - 1]];
    }
  }

  lemma TrimSplits(u: Value, leading: bool, trailing: bool) returns (A: Value, B: Value)
    ensures AllSlashes(A) && AllSlashes(B) && u == A + Trim(u, leading, trailing) + B
    ensures !trailing ==> B == []
    ensures var v := Trim(u, leading, trailing); trailing ==> v == [] || v[|v| - 1] != Ch('/')
  {
    A, B := [], [];
    if leading { A := TrimLeadingSplits(u); }
    var w := if leading then TrimLeading(u) else u;
    assert u == A + w;
    if trailing { B := TrimTrailingSplits(w); }
    assert w == Trim(u, leading, trailing) + B;
  }

  lemma {:induction false} SlashesOnly(A: Value, f: Flags)
    requires AllSlashes(A)
    ensures Free(A) && Solids(Spelled(A)) == 0 && Commas(Spelled(A), f) == 0
    ensures FlagsAfter(A, f) == if A == [] then f else f.(quoted := false)
    decreases |A|
  {
    if A != [] {
      assert Spelled(A)[1..] == Spelled(A[1..]);
      SlashesOnly(A[1..], NextFlags('/', f));
    }
  }

  function Solid(v: Value): nat
    requires Free(v)
  {
    Solids(Spelled(v))
  }

  function BareCommas(v: Value): nat
    requires Free(v)
  {
    Commas(Spelled(v), CLEAN)
  }

  lemma TrimFacts(u: Value, leading: bool, trailing: bool)
    requires Literal(u)
    ensures
      var v := Trim(u, leading, trailing);
      && Trimmed(v) && Solid(v) == Solid(u) && BareCommas(v) == BareCommas(u)
      && (!trailing ==> FlagsAfter(v, CLEAN) == CLEAN)
  {
    var v := Trim(u, leading, trailing);
    var A, B := TrimSplits(u, leading, trailing);
    var f := FlagsAfter(v, CLEAN);
    SlashesOnly(A, CLEAN);
    SlashesOnly(B, f);
    TrimFree(u, leading, trailing);
    BraceFreeJoin(A + v, B, CLEAN);
    BraceFreeJoin(A, v, CLEAN);
    FlagsJoin(A + v, B, CLEAN);
    FlagsJoin(A, v, CLEAN);
    SpelledJoin(A + v, B);
    SpelledJoin(A, v);
    SolidsJoin(Spelled(A) + Spelled(v), Spelled(B));
    SolidsJoin(Spelled(A), Spelled(v));
    CommasJoin(Spelled(A) + Spelled(v), Spelled(B), CLEAN);
    CommasJoin(Spelled(A), Spelled(v), CLEAN);
    SpelledFlags(A, CLEAN);
    SpelledFlags(v, CLEAN);
  }

  /** A value is its trimmed form between slashes. */
  lemma TrimSpelled(u: Value, leading: bool, trailing: bool) returns (a: string, b: string)
    requires Literal(u)
    ensures Free(Trim(u, leading, trailing)) && Spelled(u) == a + Spelled(Trim(u, leading, trailing)) + b
    ensures FlagsOf(a, CLEAN) == CLEAN && Solids(a) == 0
  {
    var A, B := TrimSplits(u, leading, trailing);
    TrimFree(u, leading, trailing);
    SlashesOnly(A, CLEAN);
    SpelledJoin(A + Trim(u, leading, trailing), B);
    SpelledJoin(A, Trim(u, leading, trailing));
    SpelledFlags(A, CLEAN);
    a, b := Spelled(A), Spelled(B);
  }

  lemma FlagsInside(l: string, a: string, v: string, b: string, r: string)
    requires FlagsOf(l, CLEAN) == CLEAN && FlagsOf(a, CLEAN) == CLEAN && Solids(a) == 0
    requires v != "" && v[|v| - 1] != '/'
    ensures FlagsBehind(l + (a + v + b) + r, Solids(l) + Solids(v), CLEAN) == FlagsOf(v, CLEAN)
  {
    var w := l + a + v;
    assert l + (a + v + b) + r == w + (b + r) && w[|w| - 1] == v[|v| - 1];
    SolidsJoin(l + a, v);
    SolidsJoin(l, a);
    BehindAll(w, b + r, CLEAN);
    CommasJoin(l + a, v, CLEAN);
    CommasJoin(l, a, CLEAN);
  }

  /** The flags behind the last character of a value that is not a slash, wherever the value stands. */
  lemma LastFlags(l: string, u: Value, r: string, leading: bool, trailing: bool)
    requires Literal(u) && FlagsOf(l, CLEAN) == CLEAN
    requires var v := Trim(u, leading, trailing); v != [] && v[|v| - 1] != Ch('/')
    ensures FlagsBehind(l + Spelled(u) + r, Solids(l) + Solid(u), CLEAN)
         == FlagsAfter(Trim(u, leading, trailing), CLEAN)
  {
    var v := Trim(u, leading, trailing);
    var a, b := TrimSpelled(u, leading, trailing);
    TrimFacts(u, leading, trailing);
    SpelledFlags(v, CLEAN);
    FlagsInside(l, a, Spelled(v), b, r);
  }

  // ----- A quoted comma joins two values -----

  /** What a branch that begins with `v` adds: the value, or more than it. */
  predicate Picks(v: Value, y: string)
    requires Free(v)
  {
    if FlagsAfter(v, CLEAN) == CLEAN then y == Spelled(v) else Solids(y) > Solid(v)
  }

  predicate WithoutCommas(vs: seq<Value>)
  {
    AllTrimmed(vs) && forall i :: 0 <= i < |vs| ==> BareCommas(vs[i]) == 0
  }

  /** One of the values is picked; a branch being taken goes on with the first. */
  predicate Picked(vs: seq<Value>, b: Branch, k: nat, y: string)
    requires AllTrimmed(vs)
  {
    if b == Done then y == "" else k < |vs| && Picks(vs[k], y) && (b == Taking ==> k == 0)
  }

  lemma PickedStep(vs: seq<Value>, b: Branch, next: State, k': nat, y': string) returns (k: nat, y: string)
    requires |vs| > 1 && WithoutCommas(vs) && b != Dead
    requires Step(',', State(Group(b, Bottom), FlagsAfter(vs[0], CLEAN)), next)
    requires AllTrimmed(vs[1..]) && Picked(vs[1..], next.stack.branch, k', y')
    ensures y == Heard(vs[0], Group(b, Bottom)) + (Output(',', State(Group(b, Bottom), FlagsAfter(vs[0], CLEAN))) + y')
    ensures Picked(vs, b, k, y)
  {
    var f := FlagsAfter(vs[0], CLEAN);
    var o := Output(',', State(Group(b, Bottom), f));
    GroupStep(',', b, f, next);
    y := Heard(vs[0], Group(b, Bottom)) + (o + y');
    if b == Taking {
      k := 0;
      if f == CLEAN {
        assert y == Spelled(vs[0]);
      } else {
        SolidsJoin(Spelled(vs[0]), "," + y');
        SolidsJoin(",", y');
      }
    } else {
      k := k' + 1;
      assert y == y';
    }
  }

  lemma ShiftTwice(a: string, b: string, c: string, d: string)
    ensures a + (b + (c + d)) == a + (b + c) + d
  {
  }

  /** A value inside the group, read to what stands behind it. */
  lemma PastValue(v: Value, rest: Value, b: Branch, x: string) returns (x1: string)
    requires Trimmed(v) && BareCommas(v) == 0 && Runs(v + rest, Plainly(Group(b, Bottom)), x, START)
    ensures Runs(rest, State(Group(b, Bottom), FlagsAfter(v, CLEAN)), x1, START)
    ensures x == Heard(v, Group(b, Bottom)) + x1
  {
    var o, mid;
    o, mid, x1 := RunsSplit(v, rest, Plainly(Group(b, Bottom)), x, START);
    LiteralRuns(v, Group(b, Bottom), CLEAN, o, mid);
  }

  lemma PastComma(b: Branch, f: Flags, rest: Value, x: string) returns (next: State, x': string)
    requires Runs([Ch(',')] + rest, State(Group(b, Bottom), f), x, START) && !f.inClass
    ensures Step(',', State(Group(b, Bottom), f), next) && next == Plainly(Group(next.stack.branch, Bottom))
    ensures Runs(rest, next, x', START) && x == Output(',', State(Group(b, Bottom), f)) + x'
    ensures b != Dead ==> next.stack.branch != Dead
  {
    next, x' := RunsBehind(',', rest, State(Group(b, Bottom), f), x, START);
    GroupStep(',', b, f, next);
    assert NextFlags(',', f) == CLEAN;
  }

  lemma {:induction false} Merged(vs: seq<Value>, b: Branch, R: Value, x: string) returns (k: nat, y: string)
    requires vs != [] && WithoutCommas(vs) && Literal(R) && b != Dead
    requires Runs(Body(vs) + ([Ch('}')] + R), Plainly(Group(b, Bottom)), x, START)
    ensures x == y + Spelled(R) && Picked(vs, b, k, y)
    decreases |vs|
  {
    var v, f := vs[0], FlagsAfter(vs[0], CLEAN);
    if |vs| == 1 {
      var x1 := PastValue(v, [Ch('}')] + R, b, x);
      Closing(b, f, R, x1);
      k, y := 0, Heard(v, Group(b, Bottom));
    } else {
      var rest := Body(vs[1..]) + ([Ch('}')] + R);
      assert Body(vs) + ([Ch('}')] + R) == v + ([Ch(',')] + rest);
      var x1 := PastValue(v, [Ch(',')] + rest, b, x);
      var next, x2 := PastComma(b, f, rest, x1);
      var k', y' := Merged(vs[1..], next.stack.branch, R, x2);
      k, y := PickedStep(vs, b, next, k', y');
      ShiftTwice(Heard(v, Group(b, Bottom)), Output(',', State(Group(b, Bottom), f)), y', Spelled(R));
    }
  }

  // ----- Rewriting is exact -----

  lemma FreeFull(tbl: Table, v: Value, w: Value)
    requires Free(v)
    ensures Full(tbl, v, w) <==> w == v
  {
    assert v + [] == v && v[|v|..] == [] && Expands(tbl, [], [], 0);
    if n: nat :| Expands(tbl, v, w, n) { FreePrefix(tbl, v, [], w, n); }
    FreePrefix(tbl, v, [], v, 0);
  }

  lemma LiteralJoin(a: Value, b: Value)
    requires Literal(a) && Literal(b)
    ensures Literal(a + b) && Spelled(a + b) == Spelled(a) + Spelled(b)
  {
    BraceFreeJoin(a, b, CLEAN);
    FlagsJoin(a, b, CLEAN);
    SpelledJoin(a, b);
  }

  /** A variable with several values in a name; the values and what surrounds the reference have no bare braces. */
  ghost predicate Literally(tbl: Table, L: Value, x: string, us: seq<Value>, R: Value, leading: bool, trailing: bool)
  {
    && Lists(tbl, x, us) && |us| > 1 && (forall i :: 0 <= i < |us| ==> Literal(us[i])) && Literal(L) && Literal(R)
    && (leading ==> SlashBefore(L)) && (trailing ==> SlashAfter(R))
  }

  /** The string one value gives. */
  function Given(L: Value, u: Value, R: Value): string
    requires Free(L) && Free(u) && Free(R)
  {
    Spelled(L) + Spelled(u) + Spelled(R)
  }

  /** The rewritten name stands for what one value gives, up to runs of slashes. */
  lemma GivenIsKept(tbl: Table, L: Value, x: string, us: seq<Value>, R: Value, leading: bool, trailing: bool, i: nat)
    returns (o: string)
    requires Literally(tbl, L, x, us, R, leading, trailing) && i < |us|
    requires Within(tbl, L + [Ref(x)] + R, L + Joined(TrimAll(us, leading, trailing)) + R)
    ensures Denotes(L + GroupText(TrimAll(us, leading, trailing)) + R, o)
    ensures Collapse(o) == Collapse(Given(L, us[i], R))
  {
    var vs, w := TrimAll(us, leading, trailing), L + us[i] + R;
    LiteralJoin(L, us[i]);
    LiteralJoin(L + us[i], R);
    LiteralDenotes(w, Given(L, us[i], R));
    FreeFull(tbl, w, w);
    assert us[i] in us;
    SpliceJoins(tbl, L, x, R, us[i], w);
    assert Stands(tbl, L + [Ref(x)] + R, Given(L, us[i], R));
    assert Matched(tbl, L + Joined(vs) + R, Given(L, us[i], R));
    o :| Stands(tbl, L + Joined(vs) + R, o) && Collapse(Given(L, us[i], R)) == Collapse(o);
    var w' :| Full(tbl, L + Joined(vs) + R, w') && Denotes(w', o);
    JoinedFree(us, leading, trailing);
    FreeFull(tbl, L + Joined(vs) + R, w');
  }

  lemma TrimAllFacts(us: seq<Value>, leading: bool, trailing: bool)
    requires forall i :: 0 <= i < |us| ==> Literal(us[i])
    ensures AllTrimmed(TrimAll(us, leading, trailing))
  {
    forall i | 0 <= i < |us| ensures Trimmed(Trim(us[i], leading, trailing)) { TrimFacts(us[i], leading, trailing); }
  }

  lemma GivenCommas(L: Value, u: Value, R: Value)
    requires Literal(L) && Literal(u) && Literal(R)
    ensures Commas(Given(L, u, R), CLEAN) == BareCommas(L) + BareCommas(u) + BareCommas(R)
    ensures Solids(Given(L, u, R)) == Solid(L) + Solid(u) + Solid(R)
  {
    SpelledFlags(L, CLEAN);
    SpelledFlags(u, CLEAN);
    CommasJoin(Spelled(L) + Spelled(u), Spelled(R), CLEAN);
    CommasJoin(Spelled(L), Spelled(u), CLEAN);
    SolidsJoin(Spelled(L) + Spelled(u), Spelled(R));
    SolidsJoin(Spelled(L), Spelled(u));
  }

  /** If nothing is lost, no value has a bare comma. */
  lemma CommaShows(tbl: Table, L: Value, x: string, us: seq<Value>, R: Value, leading: bool, trailing: bool, i: nat)
    requires Literally(tbl, L, x, us, R, leading, trailing) && i < |us|
    requires Within(tbl, L + [Ref(x)] + R, L + Joined(TrimAll(us, leading, trailing)) + R)
    ensures BareCommas(us[i]) == 0
  {
    var vs := TrimAll(us, leading, trailing);
    var o := GivenIsKept(tbl, L, x, us, R, leading, trailing, i);
    var b, t := GroupReads(vs, L, R, o);
    TrimAllFacts(us, leading, trailing);
    BodyTrimmed(vs);
    var y := NoCommaAdded(Body(vs), b, CLEAN, R, t);
    GivenCommas(L, us[i], R);
    SpelledFlags(L, CLEAN);
    CommasJoin(Spelled(L), y + Spelled(R), CLEAN);
    CommasJoin(y, Spelled(R), CLEAN);
    CollapseKeeps(o, 0, CLEAN);
    CollapseKeeps(Given(L, us[i], R), 0, CLEAN);
  }

  predicate EndsQuoting(v: Value) { FlagsAfter(v, CLEAN).quoted }

  /** Of the values that end in a quoting backslash, one with the fewest other characters than slashes. */
  lemma Shortest(vs: seq<Value>, i: nat) returns (j: nat)
    requires AllTrimmed(vs) && i < |vs| && EndsQuoting(vs[i])
    ensures j < |vs| && EndsQuoting(vs[j])
    ensures forall k :: 0 <= k < |vs| && EndsQuoting(vs[k]) ==> Solid(vs[j]) <= Solid(vs[k])
  {
    j := i;
    for n := 0 to |vs|
      invariant j < |vs| && EndsQuoting(vs[j])
      invariant forall k :: 0 <= k < n && EndsQuoting(vs[k]) ==> Solid(vs[j]) <= Solid(vs[k])
    {
      if EndsQuoting(vs[n]) && Solid(vs[n]) < Solid(vs[j]) { j := n; }
    }
  }

  lemma {:induction false} QuotingLast(v: Value, f: Flags)
    requires Free(v) && FlagsAfter(v, f).quoted && !f.quoted
    ensures v != [] && v[|v| - 1] == Ch('\\') && Solid(v) > 0
    decreases |v|
  {
    if v[0] == Ch('\\') && |v| == 1 {
      assert Spelled(v)[1..] == "";
    } else {
      assert v == [v[0]] + v[1..];
      QuotingTail(v[1..], NextFlags(v[0].c, f));
      assert Spelled(v)[1..] == Spelled(v[1..]);
    }
  }

  lemma {:induction false} QuotingTail(v: Value, f: Flags)
    requires Free(v) && FlagsAfter(v, f).quoted
    ensures v != [] ==> v[|v| - 1] == Ch('\\') && Solid(v) > 0
    decreases |v|
  {
    if v != [] {
      QuotingTail(v[1..], NextFlags(v[0].c, f));
      assert Spelled(v)[1..] == Spelled(v[1..]);
    }
  }

  /** If nothing is lost, no trimmed value ends in a quoting backslash. */
  lemma QuoteShows(tbl: Table, L: Value, x: string, us: seq<Value>, R: Value, leading: bool, trailing: bool, i: nat)
    requires Literally(tbl, L, x, us, R, leading, trailing) && i < |us|
    requires Within(tbl, L + [Ref(x)] + R, L + Joined(TrimAll(us, leading, trailing)) + R)
    ensures !EndsQuoting(Trim(us[i], leading, trailing))
  {
    var vs := TrimAll(us, leading, trailing);
    TrimAllFacts(us, leading, trailing);
    if EndsQuoting(vs[i]) {
      var j := Shortest(vs, i);
      forall k | 0 <= k < |vs| ensures BareCommas(vs[k]) == 0 {
        CommaShows(tbl, L, x, us, R, leading, trailing, k);
        TrimFacts(us[k], leading, trailing);
      }
      var o := GivenIsKept(tbl, L, x, us, R, leading, trailing, j);
      var b, t := GroupReads(vs, L, R, o);
      var k, y := Merged(vs, b, R, t);
      SameSolids(L, y, us[j], R);
      TrimFacts(us[j], leading, trailing);
      var A, B := TrimSplits(us[k], leading, trailing);
      Shift(Spelled(L), y, Spelled(R));
      QuotesDiffer(L, us[j], vs[k], R, leading, trailing);
    }
  }

  lemma SameSolids(L: Value, y: string, u: Value, R: Value)
    requires Literal(L) && Literal(u) && Literal(R)
    requires Collapse(Spelled(L) + (y + Spelled(R))) == Collapse(Given(L, u, R))
    ensures Solids(y) == Solid(u)
  {
    GivenCommas(L, u, R);
    SolidsJoin(Spelled(L), y + Spelled(R));
    SolidsJoin(y, Spelled(R));
    CollapseKeeps(Spelled(L) + (y + Spelled(R)), 0, CLEAN);
    CollapseKeeps(Given(L, u, R), 0, CLEAN);
  }

  /** A value that quotes what follows it does not look like one that does not. */
  lemma QuotesDiffer(L: Value, u: Value, v: Value, R: Value, leading: bool, trailing: bool)
    requires Literal(L) && Literal(u) && Literal(R) && EndsQuoting(Trim(u, leading, trailing))
    requires Literal(v) && (v != [] ==> v[|v| - 1] != Ch('/'))
    ensures Collapse(Given(L, v, R)) != Collapse(Given(L, u, R))
  {
    var n, w := Solid(L) + Solid(u), Trim(u, leading, trailing);
    TrimFacts(u, leading, trailing);
    QuotingLast(w, CLEAN);
    GivenCommas(L, u, R);
    GivenCommas(L, v, R);
    SpelledFlags(L, CLEAN);
    SpelledFlags(v, CLEAN);
    LastFlags(Spelled(L), u, Spelled(R), leading, trailing);
    CollapseKeeps(Given(L, u, R), n, CLEAN);
    CollapseKeeps(Given(L, v, R), n, CLEAN);
    if Solid(v) == Solid(u) {
      FlagsInside(Spelled(L), "", Spelled(v), "", Spelled(R));
      assert Spelled(L) + ("" + Spelled(v) + "") + Spelled(R) == Given(L, v, R);
    }
  }

  lemma BranchExactly(v: Value, f: Flags)
    requires Free(v) && BraceFree(v, f)
    ensures Balanced(v, 0, f) <==> Commas(Spelled(v), f) == 0 && FlagsAfter(v, f) == CLEAN
    decreases |v|
  {
    if v != [] {
      assert Spelled(v)[1..] == Spelled(v[1..]);
      BranchExactly(v[1..], NextFlags(v[0].c, f));
    }
  }

  /** Backslashes at the end. */
  function EndRun(v: Value): nat
  {
    if v != [] && v[|v| - 1] == Ch('\\') then 1 + EndRun(v[..|v| - 1]) else 0
  }

  lemma {:induction false} QuotingIsOdd(v: Value)
    requires Free(v)
    ensures EndsQuoting(v) <==> EndRun(v) % 2 == 1
    decreases |v|
  {
    if v != [] {
      var w, c := v[..|v| - 1], v[|v| - 1];
      assert v == w + [c] && [c][1..] == [];
      FlagsJoin(w, [c], CLEAN);
      QuotingIsOdd(w);
    }
  }

  /** For a variable with several values, all of them and what surrounds the reference without bare braces:
      rewriting the reference keeps what the name stands for, up to runs of slashes, exactly when no value has a
      bare comma and no trimmed value ends in an odd run of backslashes. */
  lemma {:induction false} RewritingIsExact(tbl: Table, L: Value, x: string, us: seq<Value>, R: Value,
                                            leading: bool, trailing: bool)
    requires Literally(tbl, L, x, us, R, leading, trailing)
    ensures SameStrings(tbl, L + Joined(TrimAll(us, leading, trailing)) + R, L + [Ref(x)] + R) <==>
      forall i :: 0 <= i < |us| ==> BareCommas(us[i]) == 0 && EndRun(Trim(us[i], leading, trailing)) % 2 == 0
  {
    var vs := TrimAll(us, leading, trailing);
    TrimAllFacts(us, leading, trailing);
    forall i | 0 <= i < |us|
      ensures IsBranch(vs[i]) <==> BareCommas(us[i]) == 0 && EndRun(vs[i]) % 2 == 0
    {
      TrimFacts(us[i], leading, trailing);
      BranchExactly(vs[i], CLEAN);
      QuotingIsOdd(vs[i]);
    }
    if SameStrings(tbl, L + Joined(vs) + R, L + [Ref(x)] + R) {
      forall i | 0 <= i < |us| ensures BareCommas(us[i]) == 0 && EndRun(vs[i]) % 2 == 0 {
        CommaShows(tbl, L, x, us, R, leading, trailing, i);
        QuoteShows(tbl, L, x, us, R, leading, trailing, i);
        QuotingIsOdd(vs[i]);
      }
    }
    if forall i :: 0 <= i < |us| ==> BareCommas(us[i]) == 0 && EndRun(vs[i]) % 2 == 0 {
      assert AllBranches(vs);
      JoinedFree(us, leading, trailing);
      SpliceKeepsStrings(tbl, L, x, R, us, leading, trailing);
    }
  }

  // ----- Names that change -----

  function Chars(s: string): (v: Value)
    ensures Free(v) && |v| == |s|
  {
    seq(|s|, i requires 0 <= i < |s| => Ch(s[i]))
  }

  /** `a\\/` and `c` in front of a slash. */
  const QUOTED_SLASH := [Chars("a\\/"), Chars("c")]

  lemma QuotedSlashTrimmed()
    ensures TrimAll(QUOTED_SLASH, false, true) == [Chars("a\\"), Chars("c")]
    ensures Joined(TrimAll(QUOTED_SLASH, false, true)) == Chars("{a\\,c}")
  {
    var u, v := QUOTED_SLASH[0], Chars("a\\");
    assert u[..2] == v && TrimTrailing(v) == v && TrimTrailing(u) == v;
    var vs := TrimAll(QUOTED_SLASH, false, true);
    assert vs == [v, Chars("c")] && vs[1..] == [Chars("c")];
    assert Branches([Chars("c")]) == Chars("c}");
  }

  lemma QuotedSlashLiteral()
    ensures Literal(QUOTED_SLASH[0]) && Literal(QUOTED_SLASH[1]) && Literal(Chars("/b")) && Literal([])
  {
    var u, f := QUOTED_SLASH[0], Flags(true, false);
    assert u[1..] == Chars("\\/") && Chars("\\/")[1..] == Chars("/") && Chars("/")[1..] == [];
    assert BraceFree(Chars("/"), f) && FlagsAfter(Chars("/"), f) == CLEAN;
    assert BraceFree(Chars("\\/"), CLEAN) && FlagsAfter(Chars("\\/"), CLEAN) == CLEAN;
    assert Chars("c")[1..] == [] && Chars("/b")[1..] == Chars("b") && Chars("b")[1..] == [];
    assert BraceFree(Chars("b"), CLEAN) && FlagsAfter(Chars("b"), CLEAN) == CLEAN;
  }

  /** The backslash left over quotes the comma, and the strings change... */
  lemma {:induction false} TrimmedQuoteChangesName(tbl: Table, x: string)
    requires Lists(tbl, x, QUOTED_SLASH)
    ensures !SameStrings(tbl, [] + Chars("{a\\,c}") + Chars("/b"), [] + [Ref(x)] + Chars("/b"))
  {
    QuotedSlashTrimmed();
    QuotedSlashLiteral();
    RewritingIsExact(tbl, [], x, QUOTED_SLASH, Chars("/b"), false, true);
    var v := Trim(QUOTED_SLASH[0], false, true);
    assert v == TrimAll(QUOTED_SLASH, false, true)[0];
    assert v[..1] == Chars("a") && EndRun(Chars("a")) == 0 && EndRun(v) == 1;
  }

  /** A group whose only comma is quoted closes without one. */
  lemma OnlyQuotedComma(rest: string, c: GlobScanner.Control)
    requires GlobGrammar.Idle(c) && GlobScanner.Depth(c) < 49
    ensures GlobGrammar.Walk(['{'] + (['a'] + (['\\'] + ([','] + (['c'] + (['}'] + rest))))), c).err
  {
    var inner := GlobGrammar.Inside(c, 0, GlobScanner.Regular);
    var s4 := ['c'] + (['}'] + rest);
    var s2 := ['\\'] + ([','] + s4);
    GlobGrammar.WalkOpen(['a'] + s2, c);
    GlobGrammar.WalkOne('a', s2, inner);
    GlobGrammar.WalkOne('\\', [','] + s4, inner);
    GlobGrammar.WalkOne(',', s4, inner.(esc := true));
    GlobGrammar.WalkOne('c', ['}'] + rest, inner);
    GlobGrammar.WalkClose(rest, c, 0, GlobScanner.Regular);
  }

  /** ...so that the compiler refuses the rewritten name, though it accepts both substitutions. */
  lemma {:induction false} TrimmedQuoteIsRefused(mode: GlobScanner.Mode)
    ensures GlobScanner.Convert("{a\\,c}/b", false, mode, "").0 == GlobScanner.Invalid
    ensures GlobScanner.Convert("a\\//b", false, mode, "").0 == GlobScanner.Basic
    ensures GlobScanner.Convert("c/b", false, mode, "").0 == GlobScanner.Basic
  {
    OnlyQuotedComma("/b", GlobScanner.START);
    assert "{a\\,c}/b" == ['{'] + (['a'] + (['\\'] + ([','] + (['c'] + (['}'] + "/b")))));
    GlobGrammar.RunWalks("{a\\,c}/b", GlobScanner.State(GlobScanner.START, ""), mode);
    AcceptedLiterals(mode);
  }

  lemma {:induction false} AcceptedLiterals(mode: GlobScanner.Mode)
    ensures GlobScanner.Convert("a\\//b", false, mode, "").0 == GlobScanner.Basic
    ensures GlobScanner.Convert("c/b", false, mode, "").0 == GlobScanner.Basic
  {
    var g, h := LiteralTrees();
    LiteralsAreBasic(g, "c/b", mode);
    LiteralsAreBasic(h, "a\\//b", mode);
  }

  lemma LiteralTrees() returns (g: GlobGrammar.Glob, h: GlobGrammar.Glob)
    ensures IsLiterals(g, "c/b") && IsLiterals(h, "a\\//b")
  {
    var b := OneLiteral('b', false, GlobGrammar.Empty, "", "b");
    var sb := OneLiteral('/', false, b, "b", "/b");
    g := OneLiteral('c', false, sb, "/b", "c/b");
    h := OneLiteral('/', true, sb, "/b", "\\//b");
    h := OneLiteral('a', false, h, "\\//b", "a\\//b");
  }

  lemma LiteralsAreBasic(g: GlobGrammar.Glob, text: string, mode: GlobScanner.Mode)
    requires IsLiterals(g, text)
    ensures GlobScanner.Convert(text, false, mode, "").0 == GlobScanner.Basic
  {
    GlobGrammar.TreesAreAccepted(g, false, mode, "");
  }

  predicate IsLiterals(g: GlobGrammar.Glob, text: string)
  {
    GlobGrammar.WellFormed(g, 0) && GlobGrammar.OnlyLiterals(g) && GlobGrammar.Text(g) == text
  }

  lemma OneLiteral(c: char, quoted: bool, tail: GlobGrammar.Glob, rest: string, text: string)
    returns (g: GlobGrammar.Glob)
    requires IsLiterals(tail, rest) && (quoted || !GlobGrammar.IsMeta(c))
    requires text == (if quoted then ['\\', c] else [c]) + rest
    ensures IsLiterals(g, text)
  {
    g := GlobGrammar.Cons(GlobGrammar.Lit(c, quoted), tail);
  }

  const P := Chars("a\\/")
  const Q := Chars("a\\,c")
  const C := Chars("c")
  /** `{a\/,a\,c,c}`. */
  const PQC := GroupText([P, Q, C])

  /** With alternations among the values, one of them can hide the change. */
  const HIDING := [P, C, PQC]

  lemma HidingBranches()
    ensures IsBranch(P) && IsBranch(Q) && IsBranch(C)
  {
    var f := Flags(true, false);
    assert C[1..] == [] && IsBranch(C);
    assert P[1..] == Chars("\\/") && P[1..][1..] == Chars("/") && P[1..][1..][1..] == [];
    assert Balanced(Chars("/"), 0, f) && Balanced(Chars("\\/"), 0, CLEAN);
    assert Q[1..] == Chars("\\,c") && Q[1..][1..] == Chars(",c") && Q[1..][1..][1..] == C;
    assert Balanced(Chars(",c"), 0, f) && Balanced(Chars("\\,c"), 0, CLEAN);
  }

  lemma TwoBranches(u: Value, v: Value)
    ensures Branches([u, v]) == u + ([Ch(',')] + (v + [Ch('}')]))
  {
    assert [u, v][1..] == [v];
  }

  lemma ThreeBranches(u: Value, v: Value, w: Value)
    ensures Branches([u, v, w]) == u + ([Ch(',')] + (v + ([Ch(',')] + (w + [Ch('}')]))))
  {
    assert [u, v, w][1..] == [v, w];
    TwoBranches(v, w);
  }

  lemma HidingTrimmed()
    ensures TrimAll(HIDING, false, true) == [Chars("a\\"), C, PQC]
  {
    var a := Chars("a\\");
    assert P[..2] == a && TrimTrailing(a) == a && TrimTrailing(P) == a;
    assert C[|C| - 1] == Ch('c') && TrimTrailing(C) == C;
    ClosesLast([P, Q, C]);
    assert PQC[|PQC| - 1] == Ch('}') && TrimTrailing(PQC) == PQC;
  }

  lemma {:induction false} ClosesLast(us: seq<Value>)
    requires us != []
    ensures Branches(us) != [] && Branches(us)[|Branches(us)| - 1] == Ch('}')
    decreases |us|
  {
    if |us| > 1 { ClosesLast(us[1..]); }
  }

  lemma HidingTexts()
    ensures Joined(TrimAll(HIDING, false, true)) == GroupText([Q, PQC])
  {
    var a, end := Chars("a\\"), [Ch(',')] + (PQC + [Ch('}')]);
    HidingTrimmed();
    ThreeBranches(a, C, PQC);
    TwoBranches(Q, PQC);
    assert Q == a + ([Ch(',')] + C);
    assert a + ([Ch(',')] + (C + end)) == a + ([Ch(',')] + C) + end;
  }

  lemma {:induction false} GroupIsBranch(us: seq<Value>)
    requires us != [] && AllBranches(us)
    ensures IsBranch(GroupText(us))
  {
    BranchesBalance(us);
    assert GroupText(us)[1..] == Branches(us);
  }

  lemma {:induction false} BranchesBalance(us: seq<Value>)
    requires us != [] && AllBranches(us)
    ensures Balanced(Branches(us), 1, CLEAN)
    decreases |us|
  {
    var rest := if |us| == 1 then [Ch('}')] else [Ch(',')] + Branches(us[1..]);
    if |us| > 1 { BranchesBalance(us[1..]); }
    assert rest[1..] == if |us| == 1 then [] else Branches(us[1..]);
    BalanceJoins(us[0], 0, CLEAN, rest, 1);
  }

  lemma {:induction false} BalanceJoins(v: Value, d: nat, f: Flags, rest: Value, n: nat)
    requires Balanced(v, d, f) && Balanced(rest, n, CLEAN)
    ensures Balanced(v + rest, d + n, f)
    decreases |v|
  {
    if v == [] {
      assert v + rest == rest;
    } else {
      assert (v + rest)[1..] == v[1..] + rest;
      var d' := if f != CLEAN then d else if v[0].c == '{' then d + 1 else if v[0].c == '}' then d - 1 else d;
      BalanceJoins(v[1..], d', NextFlags(v[0].c, f), rest, n);
    }
  }

  lemma FreeStands(tbl: Table, v: Value, o: string)
    requires Free(v)
    ensures Stands(tbl, v, o) <==> Denotes(v, o)
  {
    FreeFull(tbl, v, v);
    if w :| Full(tbl, v, w) && Denotes(w, o) { FreeFull(tbl, v, w); }
  }

  /** A name with one reference stands for what its values give. */
  lemma {:induction false} RefStands(tbl: Table, L: Value, x: string, us: seq<Value>, R: Value, o: string)
    requires Free(L) && Free(R) && Lists(tbl, x, us)
    ensures Stands(tbl, L + [Ref(x)] + R, o) <==> OneDenotes(L, us, R, o)
  {
    SubstitutionsFree(tbl, x, us);
    if Stands(tbl, L + [Ref(x)] + R, o) {
      var w :| Full(tbl, L + [Ref(x)] + R, w) && Denotes(w, o);
      var e := SpliceSplits(tbl, L, x, R, w);
      var k :| 0 <= k < |us| && us[k] == e;
      FreeFull(tbl, L + us[k] + R, w);
    }
    if k :| 0 <= k < |us| && Denotes(L + us[k] + R, o) {
      assert us[k] in us;
      FreeFull(tbl, L + us[k] + R, L + us[k] + R);
      SpliceJoins(tbl, L, x, R, us[k], L + us[k] + R);
    }
  }

  lemma {:induction false} HidingStrings(R: Value, o: string)
    requires Free(R)
    ensures Denotes([] + GroupText([Q, PQC]) + R, o) <==> OneDenotes([], HIDING, R, o)
  {
    var inner, outer := [P, Q, C], [Q, PQC];
    HidingBranches();
    HidingTexts();
    GroupIsBranch(inner);
    GroupInPlace([], outer, R, o);
    GroupInPlace([], inner, R, o);
    var p, q, c, h := Denotes([] + P + R, o), Denotes([] + Q + R, o), Denotes([] + C + R, o), Denotes([] + PQC + R, o);
    assert inner[0] == P && inner[1] == Q && inner[2] == C && outer[0] == Q && outer[1] == PQC;
    assert HIDING[0] == P && HIDING[1] == C && HIDING[2] == PQC;
    assert OneDenotes([], inner, R, o) <==> p || q || c;
    assert OneDenotes([], outer, R, o) <==> q || h;
    assert OneDenotes([], HIDING, R, o) <==> p || c || h;
  }

  /** A trimmed value ends in a quote, and yet the rewritten name stands for the strings of the written one. */
  lemma {:induction false} AlternationsMayHideIt(tbl: Table, x: string, R: Value)
    requires Lists(tbl, x, HIDING) && Free(R) && SlashAfter(R)
    ensures EndRun(Trim(HIDING[0], false, true)) % 2 == 1
    ensures SameStrings(tbl, [] + Joined(TrimAll(HIDING, false, true)) + R, [] + [Ref(x)] + R)
  {
    HidingTexts();
    var text := [] + GroupText([Q, PQC]) + R;
    SubstitutionsFree(tbl, x, HIDING);
    JoinedFree(HIDING, false, true);
    forall o ensures Stands(tbl, text, o) <==> Stands(tbl, [] + [Ref(x)] + R, o) {
      FreeStands(tbl, text, o);
      RefStands(tbl, [], x, HIDING, R, o);
      HidingStrings(R, o);
    }
    var a := Chars("a\\");
    assert P[..2] == a && TrimTrailing(a) == a && TrimTrailing(P) == a;
    assert a[..1] == Chars("a") && EndRun(Chars("a")) == 0 && EndRun(a) == 1;
  }
}
