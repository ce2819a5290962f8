/**
 The symbol table and variable::expand_variable: a worklist that grows while it
 is walked, calling itself on the variables it meets.
 */
module Variables {
  import opened Expansion

  // ----- One variable's worklist -----

  /** Position of the first reference, or the length. */
  function FirstRef(v: Value): (k: nat)
    ensures k <= |v| && Free(v[..k])
    ensures k < |v| ==> v[k].Ref?
  {
    if v == [] || v[0].Ref? then 0
    else
      var k := 1 + FirstRef(v[1..]);
      assert v[..k] == [v[0]] + v[1..][..k - 1];
      k
  }

  ghost function RefCount(v: Value): nat
  {
    if v == [] then 0 else (if v[0].Ref? then 1 else 0) + RefCount(v[1..])
  }

  lemma {:induction false} RefCountSplits(a: Value, b: Value)
    ensures RefCount(a + b) == RefCount(a) + RefCount(b)
    ensures Free(a) ==> RefCount(a) == 0
    decreases |a|
  {
    if a == [] {
      assert a + b == b;
    } else {
      assert (a + b)[1..] == a[1..] + b;
      RefCountSplits(a[1..], b);
    }
  }

  /** What has been collected and what is left to do make up all substitutions of `x`. */
  ghost predicate Covers(tbl: Table, x: string, done: set<Value>, todo: seq<Value>)
  {
    forall out :: FullVar(tbl, x, out) <==> out in done || exists v :: v in todo && Full(tbl, v, out)
  }

  /** Every variable `x` refers to is known to be good or still waits in the worklist... */
  ghost predicate EdgesSeen(tbl: Table, x: string, todo: seq<Value>)
  {
    forall y :: Edge(tbl, x, y) ==> Good(tbl, y) || exists v :: v in todo && Mentions(v, y)
  }

  /** ...and nothing else waits there. */
  ghost predicate OnlyEdges(tbl: Table, x: string, todo: seq<Value>)
  {
    forall v, y :: v in todo && Mentions(v, y) ==> Edge(tbl, x, y)
  }

  ghost predicate Progress(tbl: Table, x: string, done: set<Value>, todo: seq<Value>)
  {
    && Covers(tbl, x, done, todo) && EdgesSeen(tbl, x, todo) && OnlyEdges(tbl, x, todo)
    && (done != {} || todo != [])
  }

  lemma StartProgress(tbl: Table, x: string, todo: seq<Value>)
    requires x in tbl && tbl[x].SetVar? && tbl[x].values != {}
    requires forall v :: v in todo <==> v in tbl[x].values
    ensures Progress(tbl, x, {}, todo)
  {
    forall out ensures FullVar(tbl, x, out) <==> exists v :: v in todo && Full(tbl, v, out) {
      VarIsItsValues(tbl, x, out);
    }
    var v :| v in tbl[x].values;
    assert v in todo;
  }

  lemma FreeStep(tbl: Table, x: string, done: set<Value>, todo: seq<Value>)
    requires todo != [] && Free(todo[0]) && Progress(tbl, x, done, todo)
    ensures Progress(tbl, x, done + {todo[0]}, todo[1..])
  {
    var v := todo[0];
    assert forall w :: w in todo <==> w == v || w in todo[1..];
    forall out
      ensures FullVar(tbl, x, out) <==> out in done + {v} || exists w :: w in todo[1..] && Full(tbl, w, out)
    {
      FreeIsItself(tbl, v, out);
    }
  }

  /** The values that replace one with a reference at `k`. */
  ghost predicate Spliced(v: Value, k: nat, es: set<Value>, more: seq<Value>)
    requires k < |v|
  {
    forall w :: w in more <==> exists e :: e in es && w == v[..k] + e + v[k + 1..]
  }

  ghost predicate CompleteSet(tbl: Table, y: string, es: set<Value>)
  {
    es != {} && Good(tbl, y) && forall out :: out in es <==> FullVar(tbl, y, out)
  }

  /** The values that replace a reference stand for what the value with the reference does. */
  lemma {:induction false} SpliceMeans(tbl: Table, v: Value, k: nat, es: set<Value>, more: seq<Value>, out: Value)
    requires k == FirstRef(v) < |v| && CompleteSet(tbl, v[k].name, es) && Spliced(v, k, es, more)
    ensures Full(tbl, v, out) <==> exists w :: w in more && Full(tbl, w, out)
  {
    var p, y, s := v[..k], v[k].name, v[k + 1..];
    assert v == p + [Ref(y)] + s;
    SpliceFirst(tbl, p, y, s, out);
    SplicedOnes(tbl, p, y, s, es, more, out);
  }

  lemma {:induction false} SplicedOnes(tbl: Table, p: Value, y: string, s: Value, es: set<Value>, more: seq<Value>,
                                       out: Value)
    requires CompleteSet(tbl, y, es)
    requires forall w :: w in more <==> exists e :: e in es && w == p + e + s
    ensures (exists e :: FullVar(tbl, y, e) && Full(tbl, p + e + s, out)) <==>
      exists w :: w in more && Full(tbl, w, out)
  {
    if e :| FullVar(tbl, y, e) && Full(tbl, p + e + s, out) {
      assert e in es;
      assert p + e + s in more;
    }
    if w :| w in more && Full(tbl, w, out) {
      var e :| e in es && w == p + e + s;
      assert FullVar(tbl, y, e);
    }
  }

  lemma SpliceCovers(tbl: Table, x: string, done: set<Value>, todo: seq<Value>, k: nat, es: set<Value>,
                     more: seq<Value>)
    requires todo != [] && k == FirstRef(todo[0]) < |todo[0]| && Covers(tbl, x, done, todo)
    requires CompleteSet(tbl, todo[0][k].name, es) && Spliced(todo[0], k, es, more)
    ensures Covers(tbl, x, done, todo[1..] + more)
  {
    var v, rest := todo[0], todo[1..];
    assert forall w :: w in todo <==> w == v || w in rest;
    assert forall w :: w in rest + more <==> w in rest || w in more;
    forall out
      ensures FullVar(tbl, x, out) <==> out in done || exists w :: w in rest + more && Full(tbl, w, out)
    {
      SpliceMeans(tbl, v, k, es, more, out);
      if w :| w in todo && Full(tbl, w, out) {
        assert w == v || w in rest + more;
      }
    }
  }

  lemma SpliceEdges(tbl: Table, x: string, done: set<Value>, todo: seq<Value>, k: nat, es: set<Value>, more: seq<Value>)
    requires todo != [] && k == FirstRef(todo[0]) < |todo[0]| && EdgesSeen(tbl, x, todo) && OnlyEdges(tbl, x, todo)
    requires CompleteSet(tbl, todo[0][k].name, es) && Spliced(todo[0], k, es, more)
    ensures EdgesSeen(tbl, x, todo[1..] + more) && OnlyEdges(tbl, x, todo[1..] + more)
    ensures more != []
  {
    var v := todo[0];
    var p, y, s := v[..k], v[k].name, v[k + 1..];
    assert v == p + [Ref(y)] + s;
    assert forall w :: w in todo <==> w == v || w in todo[1..];
    var e0 :| e0 in es;
    var w0 := p + e0 + s;
    assert w0 in more;
    forall z | Edge(tbl, x, z)
      ensures Good(tbl, z) || exists w :: w in todo[1..] + more && Mentions(w, z)
    {
      if !Good(tbl, z) {
        var w :| w in todo && Mentions(w, z);
        if w == v { assert Mentions(w0, z); assert w0 in todo[1..] + more; } else { assert w in todo[1..] + more; }
      }
    }
    forall w, z | w in todo[1..] + more && Mentions(w, z)
      ensures Edge(tbl, x, z)
    {
      if w in more {
        var e :| e in es && w == p + e + s;
        var n: nat :| ExpandsVar(tbl, y, e, n);
        VarExpansionIsFree(tbl, y, e, n);
        assert Mentions(v, z);
      }
    }
  }

  lemma AllGood(tbl: Table, x: string, done: set<Value>)
    requires x in tbl && tbl[x].SetVar? && Progress(tbl, x, done, [])
    ensures CompleteSet(tbl, x, done)
  {
    forall y | Edge(tbl, x, y) ensures Good(tbl, y) { }
    GoodByEdges(tbl, x);
  }

  /** Entries before `turn` have at most `r` references left, later ones fewer. */
  ghost predicate Layered(work: seq<Value>, pos: nat, turn: nat, r: nat)
  {
    && pos <= turn <= |work|
    && (forall i :: pos <= i < turn ==> RefCount(work[i]) <= r)
    && (forall i :: turn <= i < |work| ==> RefCount(work[i]) < r)
  }

  lemma LayeredStart(work: seq<Value>) returns (r: nat)
    ensures Layered(work, 0, |work|, r)
  {
    r := 0;
    for k := 0 to |work|
      invariant forall i :: 0 <= i < k ==> RefCount(work[i]) <= r
    {
      if RefCount(work[k]) > r { r := RefCount(work[k]); }
    }
  }

  /** A substitution for the first reference of a value leaves one reference fewer. */
  lemma OneFewer(tbl: Table, v: Value, k: nat, e: Value)
    requires k == FirstRef(v) < |v| && FullVar(tbl, v[k].name, e)
    ensures RefCount(v[..k] + e + v[k + 1..]) < RefCount(v)
  {
    var p, s, rest := v[..k], v[k + 1..], v[k..];
    var n: nat :| ExpandsVar(tbl, v[k].name, e, n);
    VarExpansionIsFree(tbl, v[k].name, e, n);
    RefCountSplits(p + e, s);
    RefCountSplits(p, e);
    RefCountSplits(e, []);
    assert e + [] == e;
    RefCountSplits(p, rest);
    assert v == p + rest && rest[1..] == s && rest[0] == v[k];
  }

  lemma LayeredSplice(tbl: Table, work: seq<Value>, pos: nat, turn: nat, r: nat, k: nat, es: set<Value>,
                      more: seq<Value>)
    requires pos < turn && Layered(work, pos, turn, r) && k == FirstRef(work[pos]) < |work[pos]|
    requires Spliced(work[pos], k, es, more) && CompleteSet(tbl, work[pos][k].name, es)
    ensures Layered(work + more, pos + 1, turn, r)
  {
    var v := work[pos];
    var p, s := v[..k], v[k + 1..];
    forall i | turn <= i < |work + more| ensures RefCount((work + more)[i]) < r {
      if i >= |work| {
        var w := more[i - |work|];
        assert w in more && (work + more)[i] == w;
        var e :| e in es && w == p + e + s;
        OneFewer(tbl, v, k, e);
      }
    }
  }

  /** One turn of the loop over a value with a reference whose substitutions are known. */
  lemma SpliceStep(tbl: Table, x: string, done: set<Value>, work: seq<Value>, pos: nat, turn: nat, r: nat,
                   k: nat, es: set<Value>, more: seq<Value>)
    requires pos < turn && Layered(work, pos, turn, r) && Progress(tbl, x, done, work[pos..])
    requires k == FirstRef(work[pos]) < |work[pos]|
    requires CompleteSet(tbl, work[pos][k].name, es) && Spliced(work[pos], k, es, more)
    ensures Layered(work + more, pos + 1, turn, r) && Progress(tbl, x, done, (work + more)[pos + 1..])
  {
    var todo := work[pos..];
    assert todo[0] == work[pos] && todo[1..] == work[pos + 1..];
    SpliceCovers(tbl, x, done, todo, k, es, more);
    SpliceEdges(tbl, x, done, todo, k, es, more);
    LayeredSplice(tbl, work, pos, turn, r, k, es, more);
    assert (work + more)[pos + 1..] == todo[1..] + more;
  }

  /** One turn over a value without references. */
  lemma KeepStep(tbl: Table, x: string, done: set<Value>, work: seq<Value>, pos: nat)
    requires pos < |work| && FirstRef(work[pos]) == |work[pos]| && Progress(tbl, x, done, work[pos..])
    ensures Progress(tbl, x, done + {work[pos]}, work[pos + 1..])
  {
    var todo := work[pos..];
    assert todo[0] == work[pos] && todo[1..] == work[pos + 1..];
    assert work[pos][..|work[pos]|] == work[pos];
    FreeStep(tbl, x, done, todo);
  }

  lemma ReferenceIsEdge(tbl: Table, x: string, done: set<Value>, work: seq<Value>, pos: nat, k: nat)
    requires pos < |work| && k < |work[pos]| && work[pos][k].Ref? && Progress(tbl, x, done, work[pos..])
    ensures Edge(tbl, x, work[pos][k].name)
  {
    assert work[pos] == work[pos..][0];
    assert Mentions(work[pos], work[pos][k].name);
  }

  predicate NoRepeats(q: seq<Value>) { forall i, j :: 0 <= i < j < |q| ==> q[i] != q[j] }

  /** The elements of a set in some order. */
  method Elements(s: set<Value>) returns (q: seq<Value>)
    ensures forall v :: v in q <==> v in s
    ensures |q| == |s| && NoRepeats(q)
  {
    q := [];
    var rest := s;
    while rest != {}
      invariant rest <= s && |q| + |rest| == |s| && NoRepeats(q) && forall v :: v in q <==> v in s - rest
      decreases |rest|
    {
      var v :| v in rest;
      assert v !in q && forall i :: 0 <= i < |q| ==> q[i] in q;
      q, rest := q + [v], rest - {v};
    }
  }

  /** The values to append to the worklist for one reference. */
  method Splice(v: Value, k: nat, es: set<Value>) returns (more: seq<Value>)
    requires k < |v|
    ensures Spliced(v, k, es, more)
  {
    more := [];
    var order := Elements(es);
    for i := 0 to |order|
      invariant forall w :: w in more <==> exists j :: 0 <= j < i && w == v[..k] + order[j] + v[k + 1..]
    {
      more := more + [v[..k] + order[i] + v[k + 1..]];
    }
    forall w ensures w in more <==> exists e :: e in es && w == v[..k] + e + v[k + 1..] {
      if w in more {
        var j :| 0 <= j < |order| && w == v[..k] + order[j] + v[k + 1..];
        assert order[j] in es;
      }
      if exists e :: e in es && w == v[..k] + e + v[k + 1..] {
        var e :| e in es && w == v[..k] + e + v[k + 1..];
        var j :| 0 <= j < |order| && order[j] == e;
      }
    }
  }

  // ----- The symbol table -----

  class Variable {
    const isSet: bool
    const boolean: bool
    const values: set<Value>
    var expanded: set<Value>
    var expanding: bool

    constructor Set(values: set<Value>)
      ensures isSet && this.values == values && expanded == {} && !expanding
    {
      isSet, boolean, this.values, expanded, expanding := true, false, values, {}, false;
    }

    constructor Boolean(boolean: bool)
      ensures !isSet && this.boolean == boolean && expanded == {} && !expanding
    {
      isSet, this.boolean, values, expanded, expanding := false, boolean, {}, {}, false;
    }

    function Declared(): Decl
    {
      if isSet then SetVar(values) else BoolVar(boolean)
    }
  }

  // ----- Names -----

  predicate IsAlpha(c: char) { 'a' <= c <= 'z' || 'A' <= c <= 'Z' }

  predicate IsNameChar(c: char) { IsAlpha(c) || '0' <= c <= '9' || c == '_' }

  /** Letters, digits and underscores, a letter first; the empty name passes. */
  predicate IsName(x: string)
  {
    (x != [] ==> IsAlpha(x[0])) && forall i :: 0 <= i < |x| ==> IsNameChar(x[i])
  }

  predicate IsSigil(c: char) { c == '@' || c == '$' }

  /** `text` refers to the variable `x`, with or without braces. */
  predicate Spells(text: string, x: string)
  {
    text != [] && IsSigil(text[0]) && IsName(x) && (text[1..] == x || text[1..] == "{" + x + "}")
  }

  lemma SpelledOnce(text: string, x: string, y: string)
    requires Spells(text, x) && Spells(text, y)
    ensures x == y
  {
    var t := text[1..];
    if t == "{" + x + "}" && t == "{" + y + "}" {
      assert t[1..|t| - 1] == x && t[1..|t| - 1] == y;
    }
  }

  /** The characters of a name as is_var checks them: whatever equals the first one must be a letter. */
  method CheckName(x: string) returns (ok: bool)
    ensures ok <==> IsName(x)
  {
    for i := 0 to |x|
      invariant i > 0 ==> IsAlpha(x[0])
      invariant forall j :: 0 <= j < i ==> IsNameChar(x[j])
    {
      if x[i] == x[0] {
        if !IsAlpha(x[i]) { return false; }
      } else if !IsNameChar(x[i]) {
        return false;
      }
    }
    ok := true;
  }

  method ProcessVar(text: string) returns (ok: bool, x: string)
    ensures ok ==> Spells(text, x)
    ensures !ok ==> forall y :: !Spells(text, y)
  {
    x := [];
    if text == [] || !IsSigil(text[0]) { return false, x; }
    var t := text[1..];
    if t != [] && t[0] == '{' {
      if t[|t| - 1] != '}' {
        forall y ensures !Spells(text, y) {
          var braced := "{" + y + "}";
          assert braced[|braced| - 1] == '}';
        }
        return false, x;
      }
      x := t[1..|t| - 1];
      assert t == "{" + x + "}";
      forall y | t == "{" + y + "}" ensures y == x { assert t[1..|t| - 1] == y; }
    } else {
      x := t;
    }
    ok := CheckName(x);
  }

  class Symtab {
    var table: map<string, Variable>

    constructor ()
      ensures table == map[]
    {
      table := map[];
    }

    /** The declarations the table holds. */
    ghost function Declarations(): Table
      reads this
    {
      map x | x in table :: table[x].Declared()
    }

    /** Each name has its own entry, and a set variable has a value. */
    ghost predicate Valid()
      reads this
    {
      && (forall x, y :: x in table && y in table && x != y ==> table[x] != table[y])
      && (forall x :: x in table && table[x].isSet ==> table[x].values != {})
    }

    /** What is recorded for a variable is all of its substitutions. */
    ghost predicate Complete(x: string)
      requires x in table
      reads this, table.Values
    {
      CompleteSet(Declarations(), x, table[x].expanded)
    }

    /** Every finished variable with something recorded is complete. */
    ghost predicate Settled()
      reads this, table.Values
    {
      forall x :: x in table && !table[x].expanding && table[x].expanded != {} ==> Complete(x)
    }

    ghost function Idle(): set<string>
      reads this, table.Values
    {
      set x | x in table && !table[x].expanding
    }

    /** add_var: what does not spell a name is refused, and so is a second declaration of a name. */
    method AddVar(text: string, v: Variable) returns (rc: int)
      requires Valid() && (v.isSet ==> v.values != {}) && v !in table.Values
      modifies this
      ensures Valid() && (rc == 0 || rc == 1)
      ensures rc == 0 <==> exists x :: Spells(text, x) && x !in old(table)
      ensures rc == 0 ==> exists x :: Spells(text, x) && table == old(table)[x := v]
      ensures rc == 1 ==> table == old(table)
    {
      var ok, x := ProcessVar(text);
      if !ok { return 1; }
      forall y | Spells(text, y) ensures y == x { SpelledOnce(text, x, y); }
      if x in table { return 1; }
      forall y | y in table ensures table[y] != v { assert table[y] in table.Values; }
      table := table[x := v];
      rc := 0;
    }

    /** The variables being expanded lead to `x`. */
    ghost predicate PendingLeadTo(x: string)
      reads this, table.Values
    {
      forall y :: y in table && table[y].expanding && y != x ==> Reaches(Declarations(), y, x)
    }

    /** Record the substitutions of `x`, which no pending expansion is working on.
        Zero means success; 1 and 2 are the source's error codes. */
    method ExpandVariable(x: string) returns (rc: int)
      requires Valid() && Settled() && x in table && !table[x].expanding && PendingLeadTo(x)
      modifies table.Values
      ensures forall y :: y in table ==> table[y].expanding == old(table[y].expanding)
      ensures forall y :: y in table && old(table[y].expanding) ==> table[y].expanded == old(table[y].expanded)
      ensures rc == 0 <==> Good(Declarations(), x)
      ensures rc == 0 ==> Settled() && Complete(x)
      decreases |Idle()|, 0
    {
      ghost var tbl := Declarations();
      var v := table[x];
      if !v.isSet {
        assert tbl[x].BoolVar?;
        return 2;
      }
      if v.expanded != {} { return 0; }
      v.expanding := true;
      assert old(Idle()) == Idle() + {x} && x !in Idle();
      rc := Worklist(x);
      if rc == 0 { AllGood(tbl, x, v.expanded); }
      v.expanding := false;
    }

    /** The loop over the growing worklist of `x`, which is marked as being expanded. */
    method Worklist(x: string) returns (rc: int)
      requires Valid() && Settled() && x in table && table[x].isSet && PendingLeadTo(x)
      requires table[x].expanding && table[x].expanded == {}
      modifies table.Values
      ensures forall y :: y in table ==> table[y].expanding == old(table[y].expanding)
      ensures forall y :: y in table && y != x && old(table[y].expanding) ==>
        table[y].expanded == old(table[y].expanded)
      ensures rc == 0 ==> Settled() && Progress(Declarations(), x, table[x].expanded, [])
      ensures rc != 0 ==> !Good(Declarations(), x)
      decreases |Idle()|, 3
    {
      ghost var tbl := Declarations();
      var work := Elements(table[x].values);
      StartProgress(tbl, x, work);
      ghost var r := LayeredStart(work);
      ghost var turn: nat := |work|;
      var pos: nat := 0;
      rc := 0;
      assert work[0..] == work;
      while rc == 0 && pos < |work|
        invariant forall y :: y in table ==> table[y].expanding == old(table[y].expanding)
        invariant forall y :: y in table && y != x && old(table[y].expanding) ==>
          table[y].expanded == old(table[y].expanded)
        invariant rc == 0 ==>
          Settled() && Layered(work, pos, turn, r) && Progress(tbl, x, table[x].expanded, work[pos..])
        invariant rc != 0 ==> !Good(tbl, x)
        decreases rc == 0, r, turn - pos
      {
        if pos == turn {
          assert RefCount(work[pos]) < r;
          r, turn := r - 1, |work|;
        }
        assert Idle() == old(Idle());
        rc, work := Turn(x, work, pos, turn, r);
        pos := pos + 1;
      }
      if rc == 0 { assert work[pos..] == []; }
    }

    /** One worklist entry: keep a finished value, or splice in what its first reference stands for. */
    method Turn(x: string, work: seq<Value>, pos: nat, ghost turn: nat, ghost r: nat)
      returns (rc: int, work': seq<Value>)
      requires Valid() && Settled() && x in table && table[x].expanding && PendingLeadTo(x)
      requires pos < turn && Layered(work, pos, turn, r)
      requires Progress(Declarations(), x, table[x].expanded, work[pos..])
      modifies table.Values
      ensures forall y :: y in table ==> table[y].expanding == old(table[y].expanding)
      ensures forall y :: y in table && y != x && old(table[y].expanding) ==>
        table[y].expanded == old(table[y].expanded)
      ensures rc == 0 ==> Settled() && Layered(work', pos + 1, turn, r)
      ensures rc == 0 ==> Progress(Declarations(), x, table[x].expanded, work'[pos + 1..])
      ensures rc != 0 ==> !Good(Declarations(), x)
      decreases |Idle()|, 2
    {
      ghost var tbl := Declarations();
      var value, k := work[pos], FirstRef(work[pos]);
      rc, work' := 0, work;
      if k == |value| {
        KeepStep(tbl, x, table[x].expanded, work, pos);
        table[x].expanded := table[x].expanded + {value};
      } else {
        var y := value[k].name;
        ReferenceIsEdge(tbl, x, table[x].expanded, work, pos, k);
        rc := ExpandReference(x, y);
        if rc == 0 {
          var more := Splice(value, k, table[y].expanded);
          SpliceStep(tbl, x, table[x].expanded, work, pos, turn, r, k, table[y].expanded, more);
          work' := work + more;
        }
      }
    }

    /** Look up and expand a variable that a value of `x` refers to. */
    method ExpandReference(x: string, y: string) returns (rc: int)
      requires Valid() && Settled() && x in table && table[x].expanding && PendingLeadTo(x)
      requires Edge(Declarations(), x, y)
      modifies table.Values
      ensures forall z :: z in table ==> table[z].expanding == old(table[z].expanding)
      ensures forall z :: z in table && old(table[z].expanding) ==> table[z].expanded == old(table[z].expanded)
      ensures rc == 0 ==> y in table && Settled() && Complete(y)
      ensures rc != 0 ==> !Good(Declarations(), x)
      decreases |Idle()|, 1
    {
      ghost var tbl := Declarations();
      if y !in table {
        rc := 1;
        BadReference(tbl, x, y);
      } else if table[y].expanding {
        rc := 1;
        BackEdgeIsBad(tbl, x, y);
      } else {
        EdgeReaches(tbl, x, y);
        forall m | m in table && table[m].expanding && m != x ensures Reaches(tbl, m, y) {
          ReachesTransitive(tbl, m, x, y);
        }
        rc := ExpandVariable(y);
        if rc != 0 { BadReference(tbl, x, y); }
      }
    }
  }
}
