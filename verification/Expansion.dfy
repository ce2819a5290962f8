/**
 Policy variables: what it means to substitute them fully, and which variables
 can be substituted at all.

 A value is a sequence of characters and references, so splicing one value into
 another cannot create a reference that neither of them had.
 */
module Expansion {

  datatype Part = Ch(c: char) | Ref(name: string)
  type Value = seq<Part>

  datatype Decl = SetVar(values: set<Value>) | BoolVar(value: bool)
  type Table = map<string, Decl>

  predicate Free(v: Value) { forall i :: 0 <= i < |v| ==> v[i].Ch? }

  // ----- Full substitution -----

  /** `out` is `v` with every reference replaced by a value of the variable it
      names, itself fully substituted; at most `n` references deep. */
  ghost predicate Expands(tbl: Table, v: Value, out: Value, n: nat)
    decreases n, |v|
  {
    if v == [] then out == []
    else if v[0].Ch? then out != [] && out[0] == v[0] && Expands(tbl, v[1..], out[1..], n)
    else exists k :: 0 <= k <= |out| && ExpandsVar(tbl, v[0].name, out[..k], n) && Expands(tbl, v[1..], out[k..], n)
  }

  ghost predicate ExpandsVar(tbl: Table, x: string, out: Value, n: nat)
    decreases n, 0
  {
    n > 0 && x in tbl && tbl[x].SetVar? && exists val :: val in tbl[x].values && Expands(tbl, val, out, n - 1)
  }

  ghost predicate Full(tbl: Table, v: Value, out: Value)
  {
    exists n: nat :: Expands(tbl, v, out, n)
  }

  ghost predicate FullVar(tbl: Table, x: string, out: Value)
  {
    exists n: nat :: ExpandsVar(tbl, x, out, n)
  }

  lemma {:induction false} Deeper(tbl: Table, v: Value, out: Value, n: nat, m: nat)
    requires Expands(tbl, v, out, n) && n <= m
    ensures Expands(tbl, v, out, m)
    decreases n, |v|
  {
    if v != [] {
      if v[0].Ch? {
        Deeper(tbl, v[1..], out[1..], n, m);
      } else {
        var k :| 0 <= k <= |out| && ExpandsVar(tbl, v[0].name, out[..k], n) && Expands(tbl, v[1..], out[k..], n);
        DeeperVar(tbl, v[0].name, out[..k], n, m);
        Deeper(tbl, v[1..], out[k..], n, m);
      }
    }
  }

  lemma {:induction false} DeeperVar(tbl: Table, x: string, out: Value, n: nat, m: nat)
    requires ExpandsVar(tbl, x, out, n) && n <= m
    ensures ExpandsVar(tbl, x, out, m)
    decreases n, 0
  {
    var val :| val in tbl[x].values && Expands(tbl, val, out, n - 1);
    Deeper(tbl, val, out, n - 1, m - 1);
  }

  lemma {:induction false} ExpansionIsFree(tbl: Table, v: Value, out: Value, n: nat)
    requires Expands(tbl, v, out, n)
    ensures Free(out)
    decreases n, |v|
  {
    if v != [] {
      if v[0].Ch? {
        ExpansionIsFree(tbl, v[1..], out[1..], n);
        assert forall i :: 1 <= i < |out| ==> out[i] == out[1..][i - 1];
      } else {
        var k :| 0 <= k <= |out| && ExpandsVar(tbl, v[0].name, out[..k], n) && Expands(tbl, v[1..], out[k..], n);
        var val :| val in tbl[v[0].name].values && Expands(tbl, val, out[..k], n - 1);
        ExpansionIsFree(tbl, val, out[..k], n - 1);
        ExpansionIsFree(tbl, v[1..], out[k..], n);
        assert out == out[..k] + out[k..];
      }
    }
  }

  /** Text without references stands for itself, in front of anything. */
  lemma {:induction false} FreePrefix(tbl: Table, p: Value, v: Value, out: Value, n: nat)
    requires Free(p)
    ensures Expands(tbl, p + v, out, n) <==> p <= out && Expands(tbl, v, out[|p|..], n)
    decreases |p|
  {
    if p == [] {
      assert p + v == v && out[0..] == out;
    } else {
      assert (p + v)[1..] == p[1..] + v;
      if out != [] {
        FreePrefix(tbl, p[1..], v, out[1..], n);
        if |p| <= |out| { assert out[1..][|p| - 1..] == out[|p|..]; }
        assert p <= out <==> out[0] == p[0] && p[1..] <= out[1..] by {
          if out[0] == p[0] && p[1..] <= out[1..] { assert p == [p[0]] + p[1..]; assert out == [out[0]] + out[1..]; }
          if p <= out { assert p[1..] == out[1..][..|p| - 1]; }
        }
      }
    }
  }

  /** A reference in front stands for a substitution of its variable and one of what follows. */
  lemma {:induction false} RefSplits(tbl: Table, x: string, s: Value, out: Value, n: nat) returns (k: int)
    requires Expands(tbl, [Ref(x)] + s, out, n)
    ensures 0 <= k <= |out| && ExpandsVar(tbl, x, out[..k], n) && Expands(tbl, s, out[k..], n)
  {
    assert ([Ref(x)] + s)[1..] == s;
    k :| 0 <= k <= |out| && ExpandsVar(tbl, x, out[..k], n) && Expands(tbl, s, out[k..], n);
  }

  lemma {:induction false} RefJoins(tbl: Table, x: string, s: Value, e: Value, o: Value, n: nat)
    requires ExpandsVar(tbl, x, e, n) && Expands(tbl, s, o, n)
    ensures Expands(tbl, [Ref(x)] + s, e + o, n)
  {
    var out, k := e + o, |e|;
    assert ([Ref(x)] + s)[1..] == s;
    assert out[..k] == e && out[k..] == o;
  }

  lemma Regroup(p: Value, x: string, s: Value)
    ensures p + [Ref(x)] + s == p + ([Ref(x)] + s)
  {
  }

  /** What follows a prefix, cut once more. */
  lemma PrefixCut(p: Value, out: Value, k: int)
    requires p <= out && 0 <= k <= |out| - |p|
    ensures p + out[|p|..][..k] <= out && out[|p + out[|p|..][..k]|..] == out[|p|..][k..]
  {
    assert out[|p|..][k..] == out[|p| + k..];
  }

  lemma {:induction false} SpliceSplits(tbl: Table, p: Value, x: string, s: Value, out: Value) returns (e: Value)
    requires Free(p) && Full(tbl, p + [Ref(x)] + s, out)
    ensures FullVar(tbl, x, e) && Full(tbl, p + e + s, out)
  {
    Regroup(p, x, s);
    var n: nat :| Expands(tbl, p + ([Ref(x)] + s), out, n);
    FreePrefix(tbl, p, [Ref(x)] + s, out, n);
    var o := out[|p|..];
    var k := RefSplits(tbl, x, s, o, n);
    e := o[..k];
    VarExpansionIsFree(tbl, x, e, n);
    PrefixCut(p, out, k);
    FreePrefix(tbl, p + e, s, out, n);
  }

  lemma Behind(p: Value, e: Value, out: Value)
    requires p + e <= out
    ensures p <= out && out[|p|..] == e + out[|p + e|..]
  {
    assert out == p + e + out[|p + e|..];
  }

  lemma {:induction false} SpliceJoins(tbl: Table, p: Value, x: string, s: Value, e: Value, out: Value)
    requires Free(p) && FullVar(tbl, x, e) && Full(tbl, p + e + s, out)
    ensures Full(tbl, p + [Ref(x)] + s, out)
  {
    var n: nat :| ExpandsVar(tbl, x, e, n);
    var m: nat :| Expands(tbl, p + e + s, out, m);
    VarExpansionIsFree(tbl, x, e, n);
    FreePrefix(tbl, p + e, s, out, m);
    var o := out[|p + e|..];
    DeeperVar(tbl, x, e, n, n + m);
    Deeper(tbl, s, o, m, n + m);
    RefJoins(tbl, x, s, e, o, n + m);
    Behind(p, e, out);
    FreePrefix(tbl, p, [Ref(x)] + s, out, n + m);
    Regroup(p, x, s);
  }

  /** Replacing the first reference by each of its substitutions in turn loses and adds nothing. */
  lemma SpliceFirst(tbl: Table, p: Value, x: string, s: Value, out: Value)
    requires Free(p)
    ensures Full(tbl, p + [Ref(x)] + s, out) <==> exists e :: FullVar(tbl, x, e) && Full(tbl, p + e + s, out)
  {
    if Full(tbl, p + [Ref(x)] + s, out) {
      var e := SpliceSplits(tbl, p, x, s, out);
    }
    if exists e :: FullVar(tbl, x, e) && Full(tbl, p + e + s, out) {
      var e :| FullVar(tbl, x, e) && Full(tbl, p + e + s, out);
      SpliceJoins(tbl, p, x, s, e, out);
    }
  }

  lemma VarExpansionIsFree(tbl: Table, x: string, e: Value, n: nat)
    requires ExpandsVar(tbl, x, e, n)
    ensures Free(e)
  {
    var val :| val in tbl[x].values && Expands(tbl, val, e, n - 1);
    ExpansionIsFree(tbl, val, e, n - 1);
  }

  lemma FreeIsItself(tbl: Table, v: Value, out: Value)
    requires Free(v)
    ensures Full(tbl, v, out) <==> out == v
  {
    assert v + [] == v;
    forall n: nat ensures Expands(tbl, v, out, n) <==> out == v {
      FreePrefix(tbl, v, [], out, n);
    }
    assert out == v ==> Expands(tbl, v, out, 0);
  }

  /** A variable's substitutions are those of its values. */
  lemma VarIsItsValues(tbl: Table, x: string, out: Value)
    requires x in tbl && tbl[x].SetVar?
    ensures FullVar(tbl, x, out) <==> exists val :: val in tbl[x].values && Full(tbl, val, out)
  {
    if FullVar(tbl, x, out) {
      var n: nat :| ExpandsVar(tbl, x, out, n);
      var val :| val in tbl[x].values && Expands(tbl, val, out, n - 1);
      assert Full(tbl, val, out);
    }
    if exists val :: val in tbl[x].values && Full(tbl, val, out) {
      var val :| val in tbl[x].values && Full(tbl, val, out);
      var n: nat :| Expands(tbl, val, out, n);
      assert ExpandsVar(tbl, x, out, n + 1);
    }
  }

  // ----- Which variables can be expanded -----

  predicate Mentions(v: Value, y: string) { Ref(y) in v }

  /** Some value of `x` refers to `y`. */
  ghost predicate Edge(tbl: Table, x: string, y: string)
  {
    x in tbl && tbl[x].SetVar? && exists v :: v in tbl[x].values && Mentions(v, y)
  }

  ghost predicate Path(tbl: Table, p: seq<string>)
  {
    |p| > 0 && forall i :: 0 <= i < |p| - 1 ==> Edge(tbl, p[i], p[i + 1])
  }

  /** `y` is reached from `x` by one or more references. */
  ghost predicate Reaches(tbl: Table, x: string, y: string)
  {
    exists p :: |p| >= 2 && Path(tbl, p) && p[0] == x && p[|p| - 1] == y
  }

  /** Nothing reachable from `x`, itself included, is undefined, a boolean or on a cycle. */
  ghost predicate Good(tbl: Table, x: string)
  {
    forall y :: y == x || Reaches(tbl, x, y) ==> y in tbl && tbl[y].SetVar? && !Reaches(tbl, y, y)
  }

  lemma EdgeReaches(tbl: Table, x: string, y: string)
    requires Edge(tbl, x, y)
    ensures Reaches(tbl, x, y)
  {
    var p := [x, y];
    assert |p| >= 2 && Path(tbl, p) && p[0] == x && p[|p| - 1] == y;
  }

  lemma ReachesTransitive(tbl: Table, x: string, y: string, z: string)
    requires Reaches(tbl, x, y) && Reaches(tbl, y, z)
    ensures Reaches(tbl, x, z)
  {
    var p :| |p| >= 2 && Path(tbl, p) && p[0] == x && p[|p| - 1] == y;
    var q :| |q| >= 2 && Path(tbl, q) && q[0] == y && q[|q| - 1] == z;
    var r := p + q[1..];
    forall i | 0 <= i < |r| - 1 ensures Edge(tbl, r[i], r[i + 1]) {
      if i < |p| - 1 {
        assert r[i] == p[i] && r[i + 1] == p[i + 1];
      } else {
        assert r[i] == q[i - |p| + 1] && r[i + 1] == q[i - |p| + 2];
      }
    }
    assert |r| >= 2 && Path(tbl, r) && r[0] == x && r[|r| - 1] == z;
  }

  lemma FirstEdge(tbl: Table, x: string, z: string) returns (y: string)
    requires Reaches(tbl, x, z)
    ensures Edge(tbl, x, y) && (y == z || Reaches(tbl, y, z))
  {
    var p :| |p| >= 2 && Path(tbl, p) && p[0] == x && p[|p| - 1] == z;
    y := p[1];
    assert Edge(tbl, p[0], p[1]);
    if |p| > 2 {
      var q := p[1..];
      forall i | 0 <= i < |q| - 1 ensures Edge(tbl, q[i], q[i + 1]) {
        assert Edge(tbl, p[i + 1], p[i + 1 + 1]);
      }
      assert |q| >= 2 && Path(tbl, q) && q[0] == y && q[|q| - 1] == z;
    }
  }

  /** A variable is good exactly when it is a set and everything it refers to is good. */
  lemma GoodByEdges(tbl: Table, x: string)
    ensures Good(tbl, x) <==> x in tbl && tbl[x].SetVar? && forall y :: Edge(tbl, x, y) ==> Good(tbl, y)
  {
    if Good(tbl, x) {
      forall y | Edge(tbl, x, y) ensures Good(tbl, y) {
        EdgeReaches(tbl, x, y);
        forall z | Reaches(tbl, y, z) ensures Reaches(tbl, x, z) { ReachesTransitive(tbl, x, y, z); }
      }
    }
    if x in tbl && tbl[x].SetVar? && forall y :: Edge(tbl, x, y) ==> Good(tbl, y) {
      forall z | z == x || Reaches(tbl, x, z) ensures z in tbl && tbl[z].SetVar? && !Reaches(tbl, z, z) {
        if Reaches(tbl, x, z) {
          var y := FirstEdge(tbl, x, z);
        } else if Reaches(tbl, x, x) {
          var y := FirstEdge(tbl, x, x);
        }
      }
    }
  }

  lemma BadReference(tbl: Table, x: string, y: string)
    requires Edge(tbl, x, y) && (y !in tbl || !Good(tbl, y))
    ensures !Good(tbl, x)
  {
    GoodByEdges(tbl, x);
    assert Good(tbl, y) ==> y in tbl;
  }

  /** A reference back to a variable that leads here closes a cycle. */
  lemma BackEdgeIsBad(tbl: Table, x: string, y: string)
    requires Edge(tbl, x, y) && (y == x || Reaches(tbl, y, x))
    ensures !Good(tbl, x)
  {
    EdgeReaches(tbl, x, y);
    if y != x { ReachesTransitive(tbl, x, y, x); }
  }
}
