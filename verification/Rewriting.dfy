/**
 variable::expand_by_alternation: rewrites the references of a name into
 alternations, trimming slashes that would double up at the seams.
 */
module Rewriting {
  import opened Strings
  import opened Expansion
  import opened Alternation
  import opened Variables

  // ----- Runs of slashes -----

  /** Runs of slashes count as one. */
  function Collapse(s: string): string
  {
    if |s| < 2 then s
    else if s[0] == '/' && s[1] == '/' then Collapse(s[1..])
    else [s[0]] + Collapse(s[1..])
  }

  lemma {:induction false} DoubledSlash(u: string, v: string)
    ensures Collapse(u + "//" + v) == Collapse(u + "/" + v)
    decreases |u|
  {
    var s, t := u + "//" + v, u + "/" + v;
    if u == [] {
      assert s[1..] == t;
    } else {
      assert s[1..] == u[1..] + "//" + v && t[1..] == u[1..] + "/" + v;
      assert s[0] == t[0] && s[1] == t[1];
      DoubledSlash(u[1..], v);
    }
  }

  // ----- Runs of slashes in names -----

  /** Every string of `v` is, up to runs of slashes, a string of `w`. */
  ghost predicate Like(v: Value, w: Value)
  {
    forall o :: Denotes(v, o) ==> LikeAt(w, o)
  }

  ghost predicate LikeAt(w: Value, o: string)
  {
    exists o' :: Denotes(w, o') && Collapse(o) == Collapse(o')
  }

  ghost predicate Alike(v: Value, w: Value) { Like(v, w) && Like(w, v) }

  lemma LikeTransitive(u: Value, v: Value, w: Value)
    requires Like(u, v) && Like(v, w)
    ensures Like(u, w)
  {
    forall o | Denotes(u, o) ensures LikeAt(w, o) {
      assert LikeAt(v, o);
      var o1 :| Denotes(v, o1) && Collapse(o) == Collapse(o1);
      assert LikeAt(w, o1);
    }
  }

  const SLASHES := [Ch('/'), Ch('/')]

  function Slash(st: Stack): string { if Active(st) then "/" else "" }

  /** A slash, quoted or not, steers nothing. */
  lemma OneSlash(s: State, out: string, end: State)
    ensures Runs([Ch('/')], s, out, end) <==> end == State(s.stack, s.flags.(quoted := false)) && out == Slash(s.stack)
  {
    var v := [Ch('/')];
    assert v[1..] == [];
    if Runs(v, s, out, end) {
      var next, rest := RunsUncons(v, s, out, end);
    }
    if end == State(s.stack, s.flags.(quoted := false)) && out == Slash(s.stack) {
      RunsConsOf(v, s, end, [], end);
    }
  }

  lemma TwoSlashes(s: State, out: string, end: State)
    ensures Runs(SLASHES, s, out, end) <==>
      end == State(s.stack, s.flags.(quoted := false)) && out == Slash(s.stack) + Slash(s.stack)
  {
    var one := [Ch('/')];
    assert SLASHES == one + one;
    if Runs(SLASHES, s, out, end) {
      var out1, mid, out2 := RunsSplit(one, one, s, out, end);
      OneSlash(s, out1, mid);
      OneSlash(mid, out2, end);
    }
    if end == State(s.stack, s.flags.(quoted := false)) && out == Slash(s.stack) + Slash(s.stack) {
      OneSlash(s, Slash(s.stack), end);
      OneSlash(end, Slash(s.stack), end);
      RunsJoin(one, one, s, Slash(s.stack), end, Slash(s.stack), end);
    }
  }

  lemma SlashesCollapse(a: string, st: Stack, b: string)
    ensures Collapse(a + (Slash(st) + Slash(st)) + b) == Collapse(a + Slash(st) + b)
  {
    if Active(st) {
      assert "/" + "/" == "//";
      DoubledSlash(a, b);
    }
  }

  /** Next to a slash another one makes no difference. */
  lemma SlashTwice(A: Value, B: Value)
    ensures Alike(A + SLASHES + B, A + [Ch('/')] + B)
  {
    forall o | Denotes(A + SLASHES + B, o) ensures LikeAt(A + [Ch('/')] + B, o) {
      var a, s, x, end, b := ThreePieces(A, SLASHES, B, o);
      TwoSlashes(s, x, end);
      OneSlash(s, Slash(s.stack), end);
      JoinPieces(A, [Ch('/')], B, a, s, Slash(s.stack), end, b);
      SlashesCollapse(a, s.stack, b);
    }
    forall o | Denotes(A + [Ch('/')] + B, o) ensures LikeAt(A + SLASHES + B, o) {
      var a, s, x, end, b := ThreePieces(A, [Ch('/')], B, o);
      OneSlash(s, x, end);
      TwoSlashes(s, Slash(s.stack) + Slash(s.stack), end);
      JoinPieces(A, SLASHES, B, a, s, Slash(s.stack) + Slash(s.stack), end, b);
      SlashesCollapse(a, s.stack, b);
    }
  }

  function TrimLeading(v: Value): Value
  {
    if v != [] && v[0] == Ch('/') then TrimLeading(v[1..]) else v
  }

  function TrimTrailing(v: Value): Value
  {
    if v != [] && v[|v| - 1] == Ch('/') then TrimTrailing(v[..|v| - 1]) else v
  }

  function Trim(v: Value, leading: bool, trailing: bool): Value
  {
    var w := if leading then TrimLeading(v) else v;
    if trailing then TrimTrailing(w) else w
  }

  predicate SlashBefore(v: Value) { v != [] && v[|v| - 1] == Ch('/') }
  predicate SlashAfter(v: Value) { v != [] && v[0] == Ch('/') }

  lemma {:induction false} TrimLeadingAlike(L: Value, u: Value, R: Value)
    requires SlashBefore(L)
    ensures Alike(L + TrimLeading(u) + R, L + u + R)
    decreases |u|
  {
    if u != [] && u[0] == Ch('/') {
      var A, t := L[..|L| - 1], u[1..];
      TrimLeadingAlike(L, t, R);
      SlashTwice(A, t + R);
      assert L == A + [Ch('/')] && u == [Ch('/')] + t;
      assert A + SLASHES + (t + R) == L + u + R && A + [Ch('/')] + (t + R) == L + t + R;
      LikeTransitive(L + TrimLeading(u) + R, L + t + R, L + u + R);
      LikeTransitive(L + u + R, L + t + R, L + TrimLeading(u) + R);
    }
  }

  lemma {:induction false} TrimTrailingAlike(L: Value, u: Value, R: Value)
    requires SlashAfter(R)
    ensures Alike(L + TrimTrailing(u) + R, L + u + R)
    decreases |u|
  {
    if u != [] && u[|u| - 1] == Ch('/') {
      var t, B := u[..|u| - 1], R[1..];
      TrimTrailingAlike(L, t, R);
      SlashTwice(L + t, B);
      assert R == [Ch('/')] + B && u == t + [Ch('/')];
      assert L + t + SLASHES + B == L + u + R && L + t + [Ch('/')] + B == L + t + R;
      LikeTransitive(L + TrimTrailing(u) + R, L + t + R, L + u + R);
      LikeTransitive(L + u + R, L + t + R, L + TrimTrailing(u) + R);
    }
  }

  /** Where the neighbouring text supplies a slash, trimming is not seen; not even behind a backslash. */
  lemma TrimAlike(L: Value, u: Value, R: Value, leading: bool, trailing: bool)
    requires leading ==> SlashBefore(L)
    requires trailing ==> SlashAfter(R)
    ensures Alike(L + Trim(u, leading, trailing) + R, L + u + R)
  {
    var w := if leading then TrimLeading(u) else u;
    if leading { TrimLeadingAlike(L, u, R); }
    if trailing { TrimTrailingAlike(L, w, R); }
    LikeTransitive(L + Trim(u, leading, trailing) + R, L + w + R, L + u + R);
    LikeTransitive(L + u + R, L + w + R, L + Trim(u, leading, trailing) + R);
  }

  // ----- One reference becomes one alternation -----

  function TrimAll(us: seq<Value>, leading: bool, trailing: bool): (vs: seq<Value>)
    ensures |vs| == |us|
  {
    seq(|us|, i requires 0 <= i < |us| => Trim(us[i], leading, trailing))
  }

  /** The text that replaces a reference: a group, or the one value as it is. */
  function Joined(vs: seq<Value>): Value
    requires vs != []
  {
    if |vs| > 1 then GroupText(vs) else vs[0]
  }

  /** The text that replaces a reference can be read as its values: there is only one, or all can stand as branches. */
  predicate Readable(vs: seq<Value>, f: Flags)
  {
    |vs| == 1 || (f == CLEAN && AllBranches(vs))
  }

  lemma JoinedInPlace(L: Value, vs: seq<Value>, R: Value, o: string)
    requires vs != [] && Readable(vs, FlagsAfter(L, CLEAN))
    ensures Denotes(L + Joined(vs) + R, o) <==> OneDenotes(L, vs, R, o)
  {
    if |vs| > 1 { GroupInPlace(L, vs, R, o); }
  }

  /** A string of the rewritten name is, up to slashes, a string of some substituted name... */
  lemma StepForward(L: Value, us: seq<Value>, R: Value, leading: bool, trailing: bool, o: string)
    returns (k: nat, o': string)
    requires us != [] && Readable(TrimAll(us, leading, trailing), FlagsAfter(L, CLEAN))
    requires leading ==> SlashBefore(L)
    requires trailing ==> SlashAfter(R)
    requires Denotes(L + Joined(TrimAll(us, leading, trailing)) + R, o)
    ensures k < |us| && Denotes(L + us[k] + R, o') && Collapse(o) == Collapse(o')
  {
    var vs := TrimAll(us, leading, trailing);
    JoinedInPlace(L, vs, R, o);
    k :| 0 <= k < |vs| && Denotes(L + vs[k] + R, o);
    TrimAlike(L, us[k], R, leading, trailing);
    assert LikeAt(L + us[k] + R, o);
    o' :| Denotes(L + us[k] + R, o') && Collapse(o) == Collapse(o');
  }

  /** ...and the other way round. */
  lemma StepBackward(L: Value, us: seq<Value>, k: nat, R: Value, leading: bool, trailing: bool, o: string)
    returns (o': string)
    requires us != [] && Readable(TrimAll(us, leading, trailing), FlagsAfter(L, CLEAN)) && k < |us|
    requires leading ==> SlashBefore(L)
    requires trailing ==> SlashAfter(R)
    requires Denotes(L + us[k] + R, o)
    ensures Denotes(L + Joined(TrimAll(us, leading, trailing)) + R, o') && Collapse(o) == Collapse(o')
  {
    var vs := TrimAll(us, leading, trailing);
    TrimAlike(L, us[k], R, leading, trailing);
    assert LikeAt(L + vs[k] + R, o);
    o' :| Denotes(L + vs[k] + R, o') && Collapse(o) == Collapse(o');
    JoinedInPlace(L, vs, R, o');
  }

  // ----- Names with references -----

  /** A string of some full substitution of `v`. */
  ghost predicate Stands(tbl: Table, v: Value, o: string)
  {
    exists w :: Full(tbl, v, w) && Denotes(w, o)
  }

  /** Up to slashes, `o` is a string of `v`. */
  ghost predicate Matched(tbl: Table, v: Value, o: string)
  {
    exists o' :: Stands(tbl, v, o') && Collapse(o) == Collapse(o')
  }

  /** Every string of `v` is, up to slashes, a string of `v'`. */
  ghost predicate Within(tbl: Table, v: Value, v': Value)
  {
    forall o :: Stands(tbl, v, o) ==> Matched(tbl, v', o)
  }

  /** `v` and `v'` stand for the same strings, runs of slashes counting as one. */
  ghost predicate SameStrings(tbl: Table, v: Value, v': Value)
  {
    Within(tbl, v, v') && Within(tbl, v', v)
  }

  lemma WithinTransitive(tbl: Table, a: Value, b: Value, c: Value)
    requires Within(tbl, a, b) && Within(tbl, b, c)
    ensures Within(tbl, a, c)
  {
    forall o | Stands(tbl, a, o) ensures Matched(tbl, c, o) {
      assert Matched(tbl, b, o);
      var o1 :| Stands(tbl, b, o1) && Collapse(o) == Collapse(o1);
      assert Matched(tbl, c, o1);
    }
  }

  /** `us` lists the substitutions of `x`. */
  ghost predicate Lists(tbl: Table, x: string, us: seq<Value>)
  {
    us != [] && NoRepeats(us) && forall u :: u in us <==> FullVar(tbl, x, u)
  }

  lemma FullTail(tbl: Table, p: Value, s: Value, w: Value) returns (R: Value)
    requires Free(p) && Full(tbl, p + s, w)
    ensures w == p + R && Full(tbl, s, R) && (SlashAfter(s) ==> SlashAfter(R))
  {
    var n: nat :| Expands(tbl, p + s, w, n);
    FreePrefix(tbl, p, s, w, n);
    R := w[|p|..];
    assert w == p + R;
  }

  lemma FullJoin(tbl: Table, p: Value, s: Value, R: Value)
    requires Free(p) && Full(tbl, s, R)
    ensures Full(tbl, p + s, p + R)
  {
    var n: nat :| Expands(tbl, s, R, n);
    assert (p + R)[|p|..] == R;
    FreePrefix(tbl, p, s, p + R, n);
  }

  lemma SpliceForward(tbl: Table, L: Value, x: string, s: Value, us: seq<Value>, leading: bool, trailing: bool,
                      o: string)
    returns (o': string)
    requires Free(L) && Lists(tbl, x, us) && Readable(TrimAll(us, leading, trailing), FlagsAfter(L, CLEAN))
    requires leading ==> SlashBefore(L)
    requires trailing ==> SlashAfter(s)
    requires Free(Joined(TrimAll(us, leading, trailing)))
    requires Stands(tbl, L + Joined(TrimAll(us, leading, trailing)) + s, o)
    ensures Stands(tbl, L + [Ref(x)] + s, o') && Collapse(o) == Collapse(o')
  {
    var mid := Joined(TrimAll(us, leading, trailing));
    var w :| Full(tbl, L + mid + s, w) && Denotes(w, o);
    var R := FullTail(tbl, L + mid, s, w);
    var k;
    k, o' := StepForward(L, us, R, leading, trailing, o);
    assert us[k] in us;
    var n: nat :| ExpandsVar(tbl, x, us[k], n);
    VarExpansionIsFree(tbl, x, us[k], n);
    FullJoin(tbl, L + us[k], s, R);
    SpliceJoins(tbl, L, x, s, us[k], L + us[k] + R);
  }

  lemma SpliceBackward(tbl: Table, L: Value, x: string, s: Value, us: seq<Value>, leading: bool, trailing: bool,
                       o: string)
    returns (o': string)
    requires Free(L) && Lists(tbl, x, us) && Readable(TrimAll(us, leading, trailing), FlagsAfter(L, CLEAN))
    requires leading ==> SlashBefore(L)
    requires trailing ==> SlashAfter(s)
    requires Free(Joined(TrimAll(us, leading, trailing)))
    requires Stands(tbl, L + [Ref(x)] + s, o)
    ensures Stands(tbl, L + Joined(TrimAll(us, leading, trailing)) + s, o') && Collapse(o) == Collapse(o')
  {
    var mid := Joined(TrimAll(us, leading, trailing));
    var w :| Full(tbl, L + [Ref(x)] + s, w) && Denotes(w, o);
    var e := SpliceSplits(tbl, L, x, s, w);
    var n: nat :| ExpandsVar(tbl, x, e, n);
    VarExpansionIsFree(tbl, x, e, n);
    var R := FullTail(tbl, L + e, s, w);
    var k :| 0 <= k < |us| && us[k] == e;
    o' := StepBackward(L, us, k, R, leading, trailing, o);
    FullJoin(tbl, L + mid, s, R);
  }

  /** Replacing the first reference keeps the strings a name stands for. */
  lemma SpliceKeepsStrings(tbl: Table, L: Value, x: string, s: Value, us: seq<Value>, leading: bool, trailing: bool)
    requires Free(L) && Lists(tbl, x, us) && Readable(TrimAll(us, leading, trailing), FlagsAfter(L, CLEAN))
    requires leading ==> SlashBefore(L)
    requires trailing ==> SlashAfter(s)
    requires Free(Joined(TrimAll(us, leading, trailing)))
    ensures SameStrings(tbl, L + Joined(TrimAll(us, leading, trailing)) + s, L + [Ref(x)] + s)
  {
    var mid := Joined(TrimAll(us, leading, trailing));
    forall o | Stands(tbl, L + mid + s, o)
      ensures Matched(tbl, L + [Ref(x)] + s, o)
    {
      var o' := SpliceForward(tbl, L, x, s, us, leading, trailing, o);
    }
    forall o | Stands(tbl, L + [Ref(x)] + s, o)
      ensures Matched(tbl, L + mid + s, o)
    {
      var o' := SpliceBackward(tbl, L, x, s, us, leading, trailing, o);
    }
  }

  // ----- The rewriting itself -----

  function Ended(u: Value, trailing: bool): Value { if trailing then TrimTrailing(u) else u }

  ghost predicate OneValue(tbl: Table, x: string)
  {
    forall u, u' :: FullVar(tbl, x, u) && FullVar(tbl, x, u') ==> u == u'
  }

  /** All substitutions of `x`, with their slashes trimmed at the end, can stand as branches. */
  ghost predicate FitAsBranches(tbl: Table, x: string, trailing: bool)
  {
    forall u :: FullVar(tbl, x, u) ==> IsBranch(Ended(u, trailing))
  }

  /** `name`, behind text that leaves the flags `f`, can be rewritten without a change. No reference is
      quoted. A variable with several values is not mentioned in a class, and all its values fit as branches:
      bare braces balance in them, no bare comma stands outside, and what trimming leaves ends neither in a
      class nor in a backslash that quotes. */
  ghost predicate Fits(tbl: Table, name: Value, f: Flags)
    decreases |name|
  {
    if name == [] then true
    else if name[0].Ch? then Fits(tbl, name[1..], NextFlags(name[0].c, f))
    else
      var x, s := name[0].name, name[1..];
      && !f.quoted
      && (OneValue(tbl, x) || (f == CLEAN && FitAsBranches(tbl, x, SlashAfter(s))))
      && forall u :: FullVar(tbl, x, u) ==> Fits(tbl, s, FlagsAfter(Ended(u, SlashAfter(s)), f))
  }

  lemma {:induction false} FitsPast(tbl: Table, p: Value, s: Value, f: Flags)
    requires Free(p)
    ensures Fits(tbl, p + s, f) <==> Fits(tbl, s, FlagsAfter(p, f))
    decreases |p|
  {
    if p == [] {
      assert p + s == s;
    } else {
      assert (p + s)[1..] == p[1..] + s;
      FitsPast(tbl, p[1..], s, NextFlags(p[0].c, f));
    }
  }

  lemma {:induction false} TrimLeadingFlags(v: Value, f: Flags)
    requires !f.quoted
    ensures FlagsAfter(TrimLeading(v), f) == FlagsAfter(v, f)
    decreases |v|
  {
    if v != [] && v[0] == Ch('/') { TrimLeadingFlags(v[1..], f); }
  }

  lemma {:induction false} TrimLeadingBranch(v: Value)
    requires IsBranch(v)
    ensures IsBranch(TrimLeading(v))
    decreases |v|
  {
    if v != [] && v[0] == Ch('/') { TrimLeadingBranch(v[1..]); }
  }

  /** Slashes are trimmed at either end first. */
  lemma {:induction false} TrimOrder(v: Value)
    ensures TrimTrailing(TrimLeading(v)) == TrimLeading(TrimTrailing(v))
    decreases |v|
  {
    if v != [] && v[0] == Ch('/') {
      TrimOrder(v[1..]);
      TrimTrailingCons(v);
    } else if v != [] {
      TrimTrailingHead(v);
    }
  }

  lemma {:induction false} TrimTrailingCons(v: Value)
    requires v != []
    ensures TrimTrailing(v) ==
      if TrimTrailing(v[1..]) == [] && v[0] == Ch('/') then [] else [v[0]] + TrimTrailing(v[1..])
    decreases |v|
  {
    if |v| > 1 && v[|v| - 1] == Ch('/') {
      var w := v[..|v| - 1];
      assert w[1..] == v[1..][..|v| - 2] && v[1..][|v| - 2] == v[|v| - 1];
      TrimTrailingCons(w);
    } else if |v| == 1 {
      assert v[1..] == [] && v[..0] == [] && v == [v[0]] + [];
    } else {
      assert v[1..][|v| - 2] == v[|v| - 1] && v == [v[0]] + v[1..];
    }
  }

  lemma TrimTrailingHead(v: Value)
    requires v != [] && v[0] != Ch('/')
    ensures TrimTrailing(v) != [] && TrimTrailing(v)[0] == v[0]
  {
    TrimTrailingCons(v);
  }

  /** Slashes trimmed in front leave the flags alone, and a branch a branch. */
  lemma TrimmedFlags(u: Value, leading: bool, trailing: bool, f: Flags)
    requires leading ==> !f.quoted
    ensures FlagsAfter(Trim(u, leading, trailing), f) == FlagsAfter(Ended(u, trailing), f)
    ensures IsBranch(Ended(u, trailing)) ==> IsBranch(Trim(u, leading, trailing))
  {
    if leading {
      TrimOrder(u);
      TrimLeadingFlags(Ended(u, trailing), f);
      if IsBranch(Ended(u, trailing)) { TrimLeadingBranch(Ended(u, trailing)); }
    }
  }

  lemma {:induction false} BranchFlags(v: Value, d: nat, f: Flags)
    requires Balanced(v, d, f)
    ensures FlagsAfter(v, f) == CLEAN
    decreases |v|
  {
    if v != [] {
      var d' := if f != CLEAN then d else if v[0].c == '{' then d + 1 else if v[0].c == '}' then d - 1 else d;
      BranchFlags(v[1..], d', NextFlags(v[0].c, f));
    }
  }

  lemma {:induction false} GroupFlags(us: seq<Value>)
    requires us != [] && AllBranches(us)
    ensures FlagsAfter(Branches(us), CLEAN) == CLEAN
    decreases |us|
  {
    BranchFlags(us[0], 0, CLEAN);
    if |us| == 1 {
      FlagsJoin(us[0], [Ch('}')], CLEAN);
    } else {
      GroupFlags(us[1..]);
      FlagsJoin(us[0], [Ch(',')] + Branches(us[1..]), CLEAN);
      assert ([Ch(',')] + Branches(us[1..]))[1..] == Branches(us[1..]);
    }
  }

  /** What a fitting reference becomes is read as its values, and what follows still fits. */
  lemma {:induction false} FitsStep(tbl: Table, x: string, s: Value, us: seq<Value>, leading: bool, f: Flags)
    requires Fits(tbl, [Ref(x)] + s, f) && Lists(tbl, x, us)
    requires forall i :: 0 <= i < |us| ==> Free(us[i])
    ensures
      var vs := TrimAll(us, leading, SlashAfter(s));
      Readable(vs, f) && (Free(Joined(vs)) ==> Fits(tbl, Joined(vs) + s, f))
  {
    var name, trailing := [Ref(x)] + s, SlashAfter(s);
    assert name[1..] == s;
    var vs := TrimAll(us, leading, trailing);
    forall i | 0 <= i < |us| ensures us[i] in us && FullVar(tbl, x, us[i]) { }
    TrimmedFlags(us[0], leading, trailing, f);
    if |us| == 1 {
      FitsJoined(tbl, vs, s, f);
    } else {
      assert us[0] != us[1];
      forall i | 0 <= i < |us| ensures IsBranch(vs[i]) { TrimmedFlags(us[i], leading, trailing, f); }
      BranchFlags(Ended(us[0], trailing), 0, CLEAN);
      GroupFlags(vs);
      assert GroupText(vs)[1..] == Branches(vs);
      FitsJoined(tbl, vs, s, f);
    }
  }

  lemma FitsJoined(tbl: Table, vs: seq<Value>, s: Value, f: Flags)
    requires vs != [] && Fits(tbl, s, FlagsAfter(Joined(vs), f))
    ensures Free(Joined(vs)) ==> Fits(tbl, Joined(vs) + s, f)
  {
    if Free(Joined(vs)) { FitsPast(tbl, Joined(vs), s, f); }
  }

  /** Rewriting may hold out in front any reference-free text that leaves the flags `f`. */
  ghost predicate Rewritten(tbl: Table, result: Value, name: Value, f: Flags)
  {
    Free(result) && forall q :: Free(q) && FlagsAfter(q, CLEAN) == f ==> SameStrings(tbl, q + result, q + name)
  }

  lemma RewrittenStep(tbl: Table, p: Value, x: string, s: Value, us: seq<Value>, leading: bool, trailing: bool,
                      result: Value, f: Flags)
    requires Free(p) && Lists(tbl, x, us) && Readable(TrimAll(us, leading, trailing), FlagsAfter(p, f))
    requires leading ==> SlashBefore(p)
    requires trailing ==> SlashAfter(s)
    requires Free(Joined(TrimAll(us, leading, trailing)))
    requires Rewritten(tbl, result, Joined(TrimAll(us, leading, trailing)) + s, FlagsAfter(p, f))
    ensures Rewritten(tbl, p + result, p + [Ref(x)] + s, f)
  {
    var mid := Joined(TrimAll(us, leading, trailing));
    forall q | Free(q) && FlagsAfter(q, CLEAN) == f
      ensures SameStrings(tbl, q + (p + result), q + (p + [Ref(x)] + s))
    {
      FlagsJoin(q, p, CLEAN);
      SpliceKeepsStrings(tbl, q + p, x, s, us, leading, trailing);
      HeldOut(tbl, q, p, mid, s, [Ref(x)], result);
    }
  }

  lemma HeldOut(tbl: Table, q: Value, p: Value, mid: Value, s: Value, ref: Value, result: Value)
    requires SameStrings(tbl, q + p + result, q + p + (mid + s)) && SameStrings(tbl, q + p + mid + s, q + p + ref + s)
    ensures SameStrings(tbl, q + (p + result), q + (p + ref + s))
  {
    var L := q + p;
    assert L + result == q + (p + result) && L + (mid + s) == L + mid + s;
    assert L + ref + s == q + (p + ref + s);
    WithinTransitive(tbl, L + result, L + (mid + s), L + ref + s);
    WithinTransitive(tbl, L + ref + s, L + (mid + s), L + result);
  }

  lemma NoReferences(tbl: Table, name: Value, f: Flags)
    requires Free(name)
    ensures Rewritten(tbl, name, name, f)
  {
    forall q, o | Free(q) && Stands(tbl, q + name, o) ensures Matched(tbl, q + name, o) { }
  }

  lemma {:induction false} TrimFree(v: Value, leading: bool, trailing: bool)
    requires Free(v)
    ensures Free(Trim(v, leading, trailing))
  {
    TrimLeadingFree(v);
    TrimTrailingFree(if leading then TrimLeading(v) else v);
  }

  lemma TrimLeadingFree(v: Value)
    requires Free(v)
    ensures Free(TrimLeading(v))
  {
  }

  lemma TrimTrailingFree(v: Value)
    requires Free(v)
    ensures Free(TrimTrailing(v))
  {
  }

  lemma {:induction false} BranchesFree(us: seq<Value>)
    requires us != [] && forall i :: 0 <= i < |us| ==> Free(us[i])
    ensures Free(Branches(us))
    decreases |us|
  {
    if |us| > 1 { BranchesFree(us[1..]); }
  }

  lemma JoinedFree(us: seq<Value>, leading: bool, trailing: bool)
    requires us != [] && forall i :: 0 <= i < |us| ==> Free(us[i])
    ensures Free(Joined(TrimAll(us, leading, trailing)))
  {
    var vs := TrimAll(us, leading, trailing);
    forall i | 0 <= i < |vs| ensures Free(vs[i]) { TrimFree(us[i], leading, trailing); }
    BranchesFree(vs);
  }

  /** What the joining loop still has to add when `i` values are in. */
  ghost function Missing(vs: seq<Value>, i: nat): Value
    requires i <= |vs|
  {
    if i == |vs| then [Ch('}')] else if i == 0 then Branches(vs) else [Ch(',')] + Branches(vs[i..])
  }

  /** The loop that joins the values of a variable. */
  method JoinValues(us: seq<Value>, leading: bool, trailing: bool) returns (text: Value)
    requires us != []
    ensures text == Joined(TrimAll(us, leading, trailing))
  {
    ghost var vs := TrimAll(us, leading, trailing);
    if |us| == 1 {
      return Trim(us[0], leading, trailing);
    }
    text := [Ch('{')];
    for i := 0 to |us|
      invariant text + Missing(vs, i) == GroupText(vs)
    {
      ghost var before := text;
      if i > 0 { text := text + [Ch(',')]; }
      var value := Trim(us[i], leading, trailing);
      assert vs[i..][0] == vs[i] && vs[i..][1..] == vs[i + 1..] && (i == 0 ==> vs[i..] == vs);
      assert Branches(vs[i..]) == value + Missing(vs, i + 1);
      assert before + Missing(vs, i) == text + (value + Missing(vs, i + 1));
      text := text + value;
    }
    text := text + [Ch('}')];
  }

  /** get_set_var: the substitutions of a set variable, expanding it if need be. */
  method ValuesOf(tab: Symtab, x: string) returns (us: seq<Value>)
    requires tab.Valid() && tab.Settled() && (forall y :: y in tab.table ==> !tab.table[y].expanding)
    requires x in tab.table && Good(tab.Declarations(), x)
    modifies tab.table.Values
    ensures tab.Settled() && forall y :: y in tab.table ==> !tab.table[y].expanding
    ensures Lists(tab.Declarations(), x, us)
  {
    var rc := tab.ExpandVariable(x);
    us := Elements(tab.table[x].expanded);
  }

  /** Where everything fits, rewriting keeps the strings a name stands for. */
  ghost predicate RewrittenWhereFit(tbl: Table, result: Value, name: Value)
  {
    forall f :: Fits(tbl, name, f) ==> Rewritten(tbl, result, name, f)
  }

  method ExpandByAlternation(tab: Symtab, name: Value) returns (rc: int, result: Value)
    requires tab.Valid() && tab.Settled() && forall y :: y in tab.table ==> !tab.table[y].expanding
    requires forall y :: Mentions(name, y) && y in tab.table && tab.table[y].isSet ==> Good(tab.Declarations(), y)
    modifies tab.table.Values
    ensures tab.Settled() && forall y :: y in tab.table ==> !tab.table[y].expanding
    ensures rc == 0 <==> forall y :: Mentions(name, y) ==> y in tab.table && tab.table[y].isSet
    ensures rc == 0 ==> Free(result) && RewrittenWhereFit(tab.Declarations(), result, name)
    decreases RefCount(name)
  {
    ghost var tbl := tab.Declarations();
    var k := FirstRef(name);
    result := name;
    if k == |name| {
      assert name[..k] == name;
      forall f ensures Rewritten(tbl, name, name, f) { NoReferences(tbl, name, f); }
      return 0, name;
    }
    var p, x, s := name[..k], name[k].name, name[k + 1..];
    assert name == p + [Ref(x)] + s && Mentions(name, x);
    if x !in tab.table || !tab.table[x].isSet { return 1, name; }
    var us := ValuesOf(tab, x);
    var leading := SlashBefore(p) && exists i :: 0 <= i < |p| && p[i] != Ch('/');
    var trailing := SlashAfter(s);
    var mid := JoinValues(us, leading, trailing);
    JoinedIsFree(tbl, x, us, leading, trailing);
    FewerReferences(p, x, mid, s);
    rc, result := ExpandByAlternation(tab, mid + s);
    if rc == 0 {
      OneMoreReference(tbl, p, x, s, us, leading, result);
      result := p + result;
    }
  }

  lemma OneMoreReference(tbl: Table, p: Value, x: string, s: Value, us: seq<Value>, leading: bool, result: Value)
    requires Free(p) && Lists(tbl, x, us) && (leading ==> SlashBefore(p)) && Free(result)
    requires RewrittenWhereFit(tbl, result, Joined(TrimAll(us, leading, SlashAfter(s))) + s)
    ensures Free(p + result) && RewrittenWhereFit(tbl, p + result, p + [Ref(x)] + s)
  {
    var mid := Joined(TrimAll(us, leading, SlashAfter(s)));
    JoinedIsFree(tbl, x, us, leading, SlashAfter(s));
    forall f | Fits(tbl, p + [Ref(x)] + s, f) ensures Rewritten(tbl, p + result, p + [Ref(x)] + s, f) {
      assert p + [Ref(x)] + s == p + ([Ref(x)] + s);
      FitsPast(tbl, p, [Ref(x)] + s, f);
      SubstitutionsFree(tbl, x, us);
      FitsStep(tbl, x, s, us, leading, FlagsAfter(p, f));
      RewrittenStep(tbl, p, x, s, us, leading, SlashAfter(s), result, f);
    }
  }

  lemma SubstitutionsFree(tbl: Table, x: string, us: seq<Value>)
    requires forall u :: u in us ==> FullVar(tbl, x, u)
    ensures forall i :: 0 <= i < |us| ==> Free(us[i])
  {
    forall i | 0 <= i < |us| ensures Free(us[i]) {
      assert us[i] in us;
      var n: nat :| ExpandsVar(tbl, x, us[i], n);
      VarExpansionIsFree(tbl, x, us[i], n);
    }
  }

  lemma JoinedIsFree(tbl: Table, x: string, us: seq<Value>, leading: bool, trailing: bool)
    requires us != [] && forall u :: u in us ==> FullVar(tbl, x, u)
    ensures Free(Joined(TrimAll(us, leading, trailing)))
  {
    SubstitutionsFree(tbl, x, us);
    JoinedFree(us, leading, trailing);
  }

  lemma FewerReferences(p: Value, x: string, mid: Value, s: Value)
    requires Free(p) && Free(mid)
    ensures RefCount(mid + s) < RefCount(p + [Ref(x)] + s)
    ensures forall y :: Mentions(p + [Ref(x)] + s, y) <==> y == x || Mentions(mid + s, y)
  {
    RefCountSplits(mid, s);
    RefCountSplits(p, [Ref(x)] + s);
    assert p + [Ref(x)] + s == p + ([Ref(x)] + s) && ([Ref(x)] + s)[1..] == s;
  }
}
