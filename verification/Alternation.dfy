/**
 The strings a name with `{a,b}` alternations stands for.

 A name is read left to right as the glob scanner reads it: a backslash quotes
 the character behind it, and braces and commas mean themselves in a character
 class. A stack says, for each open group, whether one of its branches is being taken.
 */
module Alternation {
  import opened Strings
  import opened Expansion

  datatype Branch = Waiting | Taking | Done | Dead
  datatype Stack = Bottom | Group(branch: Branch, outer: Stack)

  /** A backslash has just been read; a class is open. */
  datatype Flags = Flags(quoted: bool, inClass: bool)

  const CLEAN := Flags(false, false)

  datatype State = State(stack: Stack, flags: Flags)

  const START := State(Bottom, CLEAN)

  function NextFlags(c: char, f: Flags): Flags
  {
    if f.quoted then f.(quoted := false)
    else if c == '\\' then f.(quoted := true)
    else if c == '[' then f.(inClass := true)
    else if c == ']' then f.(inClass := false)
    else f
  }

  /** Every open group is in the branch it takes. */
  predicate Active(st: Stack)
  {
    st.Bottom? || (st.branch == Taking && Active(st.outer))
  }

  /** The stacks that may follow a bare `c`. An opening brace decides whether to take the
      first branch, a comma whether to take the next one; a group must have taken one when it closes. */
  function Choices(c: char, st: Stack): set<Stack>
  {
    if c == '{' then
      if Active(st) then {Group(Taking, st), Group(Waiting, st)} else {Group(Dead, st)}
    else if st.Bottom? then
      if c == '}' then {} else {st}
    else if c == ',' then
      match st.branch
      case Waiting => {st, Group(Taking, st.outer)}
      case Taking => {Group(Done, st.outer)}
      case _ => {st}
    else if c == '}' then
      if st.branch == Waiting then {} else {st.outer}
    else {st}
  }

  predicate Step(c: char, s: State, next: State)
  {
    && next.flags == NextFlags(c, s.flags)
    && if s.flags == CLEAN then next.stack in Choices(c, s.stack) else next.stack == s.stack
  }

  /** The bare character steers the alternation. */
  predicate Steers(c: char, s: State)
  {
    s.flags == CLEAN && (c == '{' || c == '}' || (c == ',' && s.stack != Bottom))
  }

  /** What reading `c` adds to the string; quotes are kept. */
  function Output(c: char, s: State): string
  {
    if Steers(c, s) || !Active(s.stack) then "" else [c]
  }

  /** `v`, read from `s`, can produce `out` and end in `end`. */
  ghost predicate Runs(v: Value, s: State, out: string, end: State)
    decreases |v|
  {
    if v == [] then out == [] && end == s
    else v[0].Ch? && Output(v[0].c, s) <= out &&
         exists next :: Step(v[0].c, s, next) && Runs(v[1..], next, out[|Output(v[0].c, s)|..], end)
  }

  /** The brace language of a name. */
  ghost predicate Denotes(v: Value, out: string)
  {
    Runs(v, START, out, START)
  }

  lemma RunsCons(c: char, v: Value, s: State, next: State, out: string, end: State)
    requires Step(c, s, next) && Runs(v, next, out, end)
    ensures Runs([Ch(c)] + v, s, Output(c, s) + out, end)
  {
    var w, o := [Ch(c)] + v, Output(c, s);
    assert w[1..] == v && (o + out)[|o|..] == out;
  }

  lemma RunsUncons(v: Value, s: State, out: string, end: State) returns (next: State, out': string)
    requires v != [] && Runs(v, s, out, end)
    ensures v[0].Ch? && Step(v[0].c, s, next) && Runs(v[1..], next, out', end)
    ensures out == Output(v[0].c, s) + out'
  {
    next :| Step(v[0].c, s, next) && Runs(v[1..], next, out[|Output(v[0].c, s)|..], end);
    out' := out[|Output(v[0].c, s)|..];
  }

  lemma RunsBehind(c: char, rest: Value, s: State, out: string, end: State) returns (next: State, out': string)
    requires Runs([Ch(c)] + rest, s, out, end)
    ensures Step(c, s, next) && Runs(rest, next, out', end) && out == Output(c, s) + out'
  {
    next, out' := RunsUncons([Ch(c)] + rest, s, out, end);
    assert ([Ch(c)] + rest)[1..] == rest;
  }

  lemma Rejoin(a: Value, b: Value)
    requires a != []
    ensures a + b == [a[0]] + (a[1..] + b)
  {
  }

  lemma {:induction false} RunsJoin(a: Value, b: Value, s: State, out1: string, mid: State, out2: string, end: State)
    requires Runs(a, s, out1, mid) && Runs(b, mid, out2, end)
    ensures Runs(a + b, s, out1 + out2, end)
    decreases |a|
  {
    if a == [] {
      assert a + b == b && out1 + out2 == out2;
    } else {
      var next, out' := RunsUncons(a, s, out1, mid);
      var tail := a[1..];
      RunsJoin(tail, b, next, out', mid, out2, end);
      Rejoin(a, b);
      Shift(Output(a[0].c, s), out', out2);
      RunsCons(a[0].c, tail + b, s, next, out' + out2, end);
    }
  }

  lemma {:induction false} RunsSplit(a: Value, b: Value, s: State, out: string, end: State)
    returns (out1: string, mid: State, out2: string)
    requires Runs(a + b, s, out, end)
    ensures out == out1 + out2 && Runs(a, s, out1, mid) && Runs(b, mid, out2, end)
    decreases |a|
  {
    var ab := a + b;
    if a == [] {
      assert ab == b;
      out1, mid, out2 := [], s, out;
    } else {
      var next, out' := RunsUncons(ab, s, out, end);
      assert ab[1..] == a[1..] + b && ab[0] == a[0];
      var o;
      o, mid, out2 := RunsSplit(a[1..], b, next, out', end);
      RunsConsOf(a, s, next, o, mid);
      Shift(Output(a[0].c, s), o, out2);
      out1 := Output(a[0].c, s) + o;
    }
  }

  lemma RunsConsOf(v: Value, s: State, next: State, out: string, end: State)
    requires v != [] && v[0].Ch? && Step(v[0].c, s, next) && Runs(v[1..], next, out, end)
    ensures Runs(v, s, Output(v[0].c, s) + out, end)
  {
    RunsCons(v[0].c, v[1..], s, next, out, end);
    assert v == [Ch(v[0].c)] + v[1..];
  }

  /** The flags after a text do not depend on the branches taken. */
  function FlagsAfter(v: Value, f: Flags): Flags
  {
    if v == [] then f else FlagsAfter(v[1..], if v[0].Ch? then NextFlags(v[0].c, f) else f)
  }

  lemma {:induction false} RunsFlags(v: Value, s: State, out: string, end: State)
    requires Runs(v, s, out, end)
    ensures end.flags == FlagsAfter(v, s.flags)
    decreases |v|
  {
    if v != [] {
      var next, out' := RunsUncons(v, s, out, end);
      RunsFlags(v[1..], next, out', end);
    }
  }

  lemma {:induction false} FlagsJoin(a: Value, b: Value, f: Flags)
    ensures FlagsAfter(a + b, f) == FlagsAfter(b, FlagsAfter(a, f))
    decreases |a|
  {
    if a == [] {
      assert a + b == b;
    } else {
      assert (a + b)[1..] == a[1..] + b;
      FlagsJoin(a[1..], b, if a[0].Ch? then NextFlags(a[0].c, f) else f);
    }
  }

  // ----- Balanced text -----

  /** Bare braces balance, starting `d` deep, no bare comma stands outside all groups,
      and neither a quote nor a class is left open. */
  predicate Balanced(v: Value, d: nat, f: Flags)
  {
    if v == [] then d == 0 && f == CLEAN
    else v[0].Ch? &&
         if f != CLEAN then Balanced(v[1..], d, NextFlags(v[0].c, f))
         else if v[0].c == '{' then Balanced(v[1..], d + 1, f)
         else if v[0].c == '}' then d > 0 && Balanced(v[1..], d - 1, f)
         else (v[0].c == ',' ==> d > 0) && Balanced(v[1..], d, NextFlags(v[0].c, f))
  }

  /** A value that can stand as a branch. */
  predicate IsBranch(v: Value) { Balanced(v, 0, CLEAN) }

  /** The groups of `e` opened on top of `st`. */
  function Onto(e: Stack, st: Stack): Stack
  {
    if e.Bottom? then st else Group(e.branch, Onto(e.outer, st))
  }

  function Height(st: Stack): nat
  {
    if st.Bottom? then 0 else 1 + Height(st.outer)
  }

  lemma ActiveOnto(e: Stack, st: Stack)
    ensures Active(Onto(e, st)) <==> Active(e) && Active(st)
  {
  }

  lemma BalancedStep(c: char, e: Stack, st: Stack, st': Stack, next: Stack) returns (e': Stack)
    requires next in Choices(c, Onto(e, st)) && Active(st) == Active(st')
    requires (c == '}' || c == ',') ==> e != Bottom
    ensures next == Onto(e', st) && Onto(e', st') in Choices(c, Onto(e, st'))
    ensures Output(c, State(Onto(e, st), CLEAN)) == Output(c, State(Onto(e, st'), CLEAN))
    ensures Height(e') == if c == '{' then Height(e) + 1 else if c == '}' then Height(e) - 1 else Height(e)
  {
    ActiveOnto(e, st);
    ActiveOnto(e, st');
    if c == '{' {
      e' := Group(next.branch, e);
    } else if c == '}' {
      e' := e.outer;
    } else if c == ',' {
      e' := Group(next.branch, e.outer);
    } else {
      e' := e;
    }
  }

  lemma LocalStep(v: Value, e: Stack, f: Flags, st: Stack, st': Stack, next: State) returns (e': Stack)
    requires v != [] && Balanced(v, Height(e), f) && Active(st) == Active(st')
    requires Step(v[0].c, State(Onto(e, st), f), next)
    ensures next == State(Onto(e', st), NextFlags(v[0].c, f))
    ensures Step(v[0].c, State(Onto(e, st'), f), State(Onto(e', st'), next.flags))
    ensures Output(v[0].c, State(Onto(e, st), f)) == Output(v[0].c, State(Onto(e, st'), f))
    ensures Balanced(v[1..], Height(e'), next.flags)
  {
    ActiveOnto(e, st);
    ActiveOnto(e, st');
    e' := e;
    if f == CLEAN { e' := BalancedStep(v[0].c, e, st, st', next.stack); }
  }

  /** Balanced text leaves the stack below it alone, and depends only on whether that is active. */
  lemma {:induction false} BalancedLocal(v: Value, e: Stack, f: Flags, st: Stack, st': Stack, out: string, end: State)
    requires Balanced(v, Height(e), f) && Active(st) == Active(st') && Runs(v, State(Onto(e, st), f), out, end)
    ensures end == State(st, CLEAN) && Runs(v, State(Onto(e, st'), f), out, State(st', CLEAN))
    ensures !Active(st) ==> out == []
    decreases |v|
  {
    if v != [] {
      var next, out' := RunsUncons(v, State(Onto(e, st), f), out, end);
      var e' := LocalStep(v, e, f, st, st', next);
      BalancedLocal(v[1..], e', next.flags, st, st', out', end);
      RunsConsOf(v, State(Onto(e, st'), f), State(Onto(e', st'), next.flags), out', State(st', CLEAN));
      ActiveOnto(e, st);
    }
  }

  /** A value read as a branch. */
  lemma BranchLocal(v: Value, st: Stack, st': Stack, out: string, end: State)
    requires IsBranch(v) && Active(st) == Active(st') && Runs(v, State(st, CLEAN), out, end)
    ensures end == State(st, CLEAN) && Runs(v, State(st', CLEAN), out, State(st', CLEAN))
    ensures !Active(st) ==> out == []
  {
    BalancedLocal(v, Bottom, CLEAN, st, st', out, end);
  }

  predicate AllDead(e: Stack) { e.Bottom? || (e.branch == Dead && AllDead(e.outer)) }

  /** Balanced text under an inactive stack runs, silently. */
  lemma {:induction false} BalancedSilent(v: Value, e: Stack, f: Flags, st: Stack)
    requires Balanced(v, Height(e), f) && !Active(st) && AllDead(e)
    ensures Runs(v, State(Onto(e, st), f), [], State(st, CLEAN))
    decreases |v|
  {
    if v != [] {
      var c, s := v[0].c, State(Onto(e, st), f);
      ActiveOnto(e, st);
      var e' := if f != CLEAN then e else if c == '{' then Group(Dead, e) else if c == '}' then e.outer else e;
      var next := State(Onto(e', st), NextFlags(c, f));
      BalancedSilent(v[1..], e', next.flags, st);
      RunsConsOf(v, s, next, [], State(st, CLEAN));
      assert Output(c, s) + [] == [];
    }
  }

  // ----- A group of branches -----

  /** The branches separated by commas, then the closing brace. */
  function Branches(us: seq<Value>): Value
    requires us != []
  {
    if |us| == 1 then us[0] + [Ch('}')] else us[0] + ([Ch(',')] + Branches(us[1..]))
  }

  predicate AllBranches(us: seq<Value>) { forall i :: 0 <= i < |us| ==> IsBranch(us[i]) }

  function Plainly(st: Stack): State { State(st, CLEAN) }

  /** One branch of a group, read to the comma or brace after it. */
  lemma OneBranch(u: Value, c: char, rest: Value, b: Branch, st: Stack, out: string, end: State)
    returns (out': string, next: Stack)
    requires IsBranch(u) && (c == ',' || c == '}') && Runs(u + ([Ch(c)] + rest), Plainly(Group(b, st)), out, end)
    ensures next in Choices(c, Group(b, st)) && Runs(rest, Plainly(next), out', end)
    ensures b == Taking && Active(st) ==> exists o :: out == o + out' && Runs(u, Plainly(st), o, Plainly(st))
    ensures !(b == Taking && Active(st)) ==> out == out'
  {
    var s := Plainly(Group(b, st));
    var o, mid, out2 := RunsSplit(u, [Ch(c)] + rest, s, out, end);
    BranchLocal(u, s.stack, s.stack, o, mid);
    var n;
    n, out' := RunsBehind(c, rest, s, out2, end);
    next := n.stack;
    if b == Taking && Active(st) {
      BranchLocal(u, s.stack, st, o, mid);
    }
  }

  /** What reading the branches from `b` can produce: the branch being taken, or one still to come. */
  lemma {:induction false} BranchesProduce(us: seq<Value>, b: Branch, st: Stack, out: string, end: State)
    returns (k: nat)
    requires us != [] && AllBranches(us) && Runs(Branches(us), Plainly(Group(b, st)), out, end)
    ensures end == Plainly(st) && k < |us|
    ensures Active(st) && (b == Taking || b == Waiting) ==> Runs(us[k], Plainly(st), out, Plainly(st))
    ensures !Active(st) || b == Done || b == Dead ==> out == []
    decreases |us|
  {
    var last := |us| == 1;
    var c, rest := if last then '}' else ',', if last then [] else Branches(us[1..]);
    assert Branches(us) == us[0] + ([Ch(c)] + rest);
    var out', next := OneBranch(us[0], c, rest, b, st, out, end);
    k := 0;
    if !last {
      var j := BranchesProduce(us[1..], next.branch, st, out', end);
      if b != Taking { k := j + 1; }
    }
    if b == Taking && Active(st) {
      var o :| out == o + out' && Runs(us[0], Plainly(st), o, Plainly(st));
      assert out == o;
    }
  }

  /** A branch that has been decided on can be read to the end of the group. */
  lemma {:induction false} BranchesRun(us: seq<Value>, b: Branch, k: nat, st: Stack, out: string)
    requires us != [] && AllBranches(us) && k < |us|
    requires if Active(st) then Runs(us[k], Plainly(st), out, Plainly(st)) || b == Done else out == []
    requires Active(st) ==> (b == Taking && k == 0) || (b == Waiting && k > 0) || (b == Done && out == [])
    requires !Active(st) ==> b == Dead
    ensures Runs(Branches(us), Plainly(Group(b, st)), out, Plainly(st))
    decreases |us|
  {
    var s, last := Plainly(Group(b, st)), |us| == 1;
    var c, rest := if last then '}' else ',', if last then [] else Branches(us[1..]);
    assert Branches(us) == us[0] + ([Ch(c)] + rest);
    var b' := if b == Taking then Done else if b == Waiting && k == 1 then Taking else b;
    var next := if last then Plainly(st) else Plainly(Group(b', st));
    var here, after := if b == Taking then out else [], if b == Taking then [] else out;
    if !last {
      var k' := if k == 0 then 0 else k - 1;
      BranchesRun(us[1..], b', k', st, after);
    }
    RunsCons(c, rest, s, next, after, Plainly(st));
    assert Output(c, s) + after == after;
    if b == Taking {
      BranchLocal(us[0], st, s.stack, here, Plainly(st));
    } else {
      BalancedSilent(us[0], Bottom, CLEAN, s.stack);
    }
    RunsJoin(us[0], [Ch(c)] + rest, s, here, s, after, Plainly(st));
    assert here + after == out;
  }

  function GroupText(us: seq<Value>): Value
    requires us != []
  {
    [Ch('{')] + Branches(us)
  }

  lemma OpenGroup(us: seq<Value>, b: Branch, st: Stack, out: string)
    requires us != [] && Group(b, st) in Choices('{', st)
    requires Runs(Branches(us), Plainly(Group(b, st)), out, Plainly(st))
    ensures Runs(GroupText(us), Plainly(st), out, Plainly(st))
  {
    RunsCons('{', Branches(us), Plainly(st), Plainly(Group(b, st)), out, Plainly(st));
    assert Output('{', Plainly(st)) + out == out;
  }

  lemma BranchTaken(us: seq<Value>, k: nat, st: Stack, out: string)
    requires us != [] && AllBranches(us) && Active(st) && k < |us| && Runs(us[k], Plainly(st), out, Plainly(st))
    ensures Runs(GroupText(us), Plainly(st), out, Plainly(st))
  {
    var b := if k == 0 then Taking else Waiting;
    BranchesRun(us, b, k, st, out);
    OpenGroup(us, b, st, out);
  }

  lemma GroupSkipped(us: seq<Value>, st: Stack)
    requires us != [] && AllBranches(us) && !Active(st)
    ensures Runs(GroupText(us), Plainly(st), [], Plainly(st))
  {
    BranchesRun(us, Dead, 0, st, []);
    OpenGroup(us, Dead, st, []);
  }

  /** One of the branches produces the string. */
  ghost predicate OneRuns(us: seq<Value>, st: Stack, out: string)
  {
    exists k :: 0 <= k < |us| && Runs(us[k], Plainly(st), out, Plainly(st))
  }

  lemma GroupProduces(us: seq<Value>, st: Stack, out: string, end: State)
    requires us != [] && AllBranches(us) && Runs(GroupText(us), Plainly(st), out, end)
    ensures end == Plainly(st) && if Active(st) then OneRuns(us, st, out) else out == []
  {
    var next, out' := RunsUncons(GroupText(us), Plainly(st), out, end);
    assert GroupText(us)[1..] == Branches(us);
    var k := BranchesProduce(us, next.stack.branch, st, out', end);
    assert out == out';
  }

  /** A group of balanced branches stands for exactly the strings of its branches. */
  lemma GroupMeaning(us: seq<Value>, st: Stack, out: string, end: State)
    requires us != [] && AllBranches(us)
    ensures Runs(GroupText(us), Plainly(st), out, end) <==>
      end == Plainly(st) && if Active(st) then OneRuns(us, st, out) else out == []
  {
    if Runs(GroupText(us), Plainly(st), out, end) { GroupProduces(us, st, out, end); }
    if Active(st) && OneRuns(us, st, out) {
      var k :| 0 <= k < |us| && Runs(us[k], Plainly(st), out, Plainly(st));
      BranchTaken(us, k, st, out);
    }
    if !Active(st) { GroupSkipped(us, st); }
  }

  lemma ThreePieces(L: Value, m: Value, R: Value, o: string)
    returns (a: string, s: State, x: string, end: State, b: string)
    requires Denotes(L + m + R, o)
    ensures o == a + x + b && Runs(L, START, a, s) && Runs(m, s, x, end) && Runs(R, end, b, START)
  {
    var ax;
    ax, end, b := RunsSplit(L + m, R, START, o, START);
    a, s, x := RunsSplit(L, m, START, ax, end);
  }

  lemma JoinPieces(L: Value, m: Value, R: Value, a: string, s: State, x: string, end: State, b: string)
    requires Runs(L, START, a, s) && Runs(m, s, x, end) && Runs(R, end, b, START)
    ensures Denotes(L + m + R, a + x + b)
  {
    RunsJoin(L, m, START, a, s, x, end);
    RunsJoin(L + m, R, START, a + x, end, b, START);
  }

  ghost predicate OneDenotes(L: Value, us: seq<Value>, R: Value, o: string)
  {
    exists k :: 0 <= k < |us| && Denotes(L + us[k] + R, o)
  }

  /** In any surroundings, a group stands for what its branches stand for in its place. */
  lemma GroupInPlace(L: Value, us: seq<Value>, R: Value, o: string)
    requires us != [] && AllBranches(us) && FlagsAfter(L, CLEAN) == CLEAN
    ensures Denotes(L + GroupText(us) + R, o) <==> OneDenotes(L, us, R, o)
  {
    if Denotes(L + GroupText(us) + R, o) {
      var a, s, x, end, b := ThreePieces(L, GroupText(us), R, o);
      RunsFlags(L, START, a, s);
      GroupMeaning(us, s.stack, x, end);
      var k: nat := 0;
      if Active(s.stack) {
        k :| 0 <= k < |us| && Runs(us[k], s, x, s);
      } else {
        BalancedSilent(us[0], Bottom, CLEAN, s.stack);
      }
      JoinPieces(L, us[k], R, a, s, x, s, b);
    }
    if k :| 0 <= k < |us| && Denotes(L + us[k] + R, o) {
      var a, s, x, end, b := ThreePieces(L, us[k], R, o);
      RunsFlags(L, START, a, s);
      BranchLocal(us[k], s.stack, s.stack, x, end);
      GroupMeaning(us, s.stack, x, s);
      JoinPieces(L, GroupText(us), R, a, s, x, s, b);
    }
  }
}
