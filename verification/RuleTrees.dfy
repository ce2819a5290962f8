/** The rule sets of the regex back end: patterns grouped by what they accept, and the tree built from them. */
module RuleTrees {
  import opened Prefixes
  import opened Regex

  /** What a match stands for; equal values share one accept node. */
  datatype Accepting = Accepting(priority: int, mode: RuleMode, exact: bool, perms: Perms, audit: Perms)

  /** Expression trees with accept nodes. Shared subtrees are values here. */
  datatype Tree =
    | Expr(re: Re)
    | Accept(node: Accepting)
    | Sequence(first: Tree, second: Tree)
    | Either(left: Tree, right: Tree)

  /** The tree can be read through by w; accept nodes take no input. */
  ghost predicate Reads(t: Tree, w: Word) {
    match t
    case Expr(re) => Matches(re, w)
    case Accept(_) => w == []
    case Sequence(f, s) => exists k :: 0 <= k <= |w| && Reads(f, w[..k]) && Reads(s, w[k..])
    case Either(l, r) => Reads(l, w) || Reads(r, w)
  }

  /** Reading w can arrive at the accept node. */
  ghost predicate Reaches(t: Tree, w: Word, a: Accepting) {
    match t
    case Expr(_) => false
    case Accept(node) => w == [] && node == a
    case Sequence(f, s) => Reaches(f, w, a) || exists k :: 0 <= k <= |w| && Reads(f, w[..k]) && Reaches(s, w[k..], a)
    case Either(l, r) => Reaches(l, w, a) || Reaches(r, w, a)
  }

  datatype Rule = Rule(re: Re, accept: Accepting)

  /** The rule on its own: a match of its expression arrives at its accept node. */
  ghost predicate Hits(r: Rule, w: Word, a: Accepting) {
    r.accept == a && Matches(r.re, w)
  }

  ghost predicate AnyHits(rules: seq<Rule>, w: Word, a: Accepting) {
    exists i :: 0 <= i < |rules| && Hits(rules[i], w, a)
  }

  /** Without wildcards or repetition. */
  predicate IsExact(re: Re) {
    match re
    case Star(_) => false
    case Plus(_) => false
    case AnyChar => false
    case NotCharSet(_) => false
    case Cat(l, r) => IsExact(l) && IsExact(r)
    case Alt(l, r) => IsExact(l) && IsExact(r)
    case _ => true
  }

  function WithSeparator(l: Re, separator: int, r: Re): Re {
    Cat(Cat(l, Chr(separator)), r)
  }

  function SeparatorOf(oob: bool): int {
    if oob then OOB else 0
  }

  /** The parts of a rule joined by separators, or nothing when one of them does not parse. */
  function Joined(parts: seq<string>, oob: bool): Option<Re>
    requires parts != []
  {
    var last := ReadRegex(parts[|parts| - 1]);
    if |parts| == 1 then
      if last.Ok? then Some(last.value) else None
    else
      var front := Joined(parts[..|parts| - 1], oob);
      if front.Some? && last.Ok? then Some(WithSeparator(front.value, SeparatorOf(oob), last.value)) else None
  }

  /** A tree that goes on behind every rule: reading w arrives at a in the rule or in what follows it. */
  ghost predicate Via(re: Re, own: Accepting, tail: Option<Tree>, w: Word, a: Accepting) {
    || (a == own && Matches(re, w))
    || (tail.Some? && exists k :: 0 <= k <= |w| && Matches(re, w[..k]) && Reaches(tail.value, w[k..], a))
  }

  /** A rule's expression followed by its accept node, or by that and the tail. */
  function Ended(re: Re, own: Accepting, tail: Option<Tree>): Tree {
    Sequence(Expr(re), if tail.Some? then Either(Accept(own), tail.value) else Accept(own))
  }

  lemma EndedReaches(re: Re, own: Accepting, tail: Option<Tree>, w: Word, a: Accepting)
    ensures Reaches(Ended(re, own, tail), w, a) <==> Via(re, own, tail, w, a)
  {
    var end := if tail.Some? then Either(Accept(own), tail.value) else Accept(own);
    assert w[..|w|] == w && w[|w|..] == [];
    forall k | 0 <= k <= |w|
      ensures Reads(Expr(re), w[..k]) && Reaches(end, w[k..], a) <==>
              Matches(re, w[..k]) && ((k == |w| && a == own) || (tail.Some? && Reaches(tail.value, w[k..], a)))
    {}
    if a == own && Matches(re, w) {
      assert Reads(Expr(re), w[..|w|]) && Reaches(end, w[|w|..], a);
    }
  }

  /** Simplification rewrites an expression without changing what it matches. */
  ghost predicate KeepsLanguage(simplify: Re -> Re) {
    forall e, w :: Matches(simplify(e), w) <==> Matches(e, w)
  }

  /** Each accept node's expression matches what the rules with that node match. */
  ghost predicate Grouped(m: map<Accepting, Re>, rules: seq<Rule>) {
    forall a, w :: (a in m && Matches(m[a], w)) <==> AnyHits(rules, w, a)
  }

  class AareRules {
    var exprMap: map<Accepting, Re>
    var ruleCount: nat
    ghost var rules: seq<Rule>

    ghost predicate Valid()
      reads this
    {
      && Grouped(exprMap, rules)
      && (exprMap == map[] <==> rules == [])
    }

    constructor ()
      ensures Valid() && rules == [] && ruleCount == 0
    {
      exprMap, ruleCount, rules := map[], 0, [];
    }

    method AddToRules(tree: Re, accept: Accepting)
      requires Valid()
      modifies this
      ensures Valid() && rules == old(rules) + [Rule(tree, accept)] && ruleCount == old(ruleCount)
    {
      ghost var was, r := exprMap, Rule(tree, accept);
      if accept in exprMap {
        exprMap := exprMap[accept := Alt(exprMap[accept], tree)];
      } else {
        exprMap := exprMap[accept := tree];
      }
      rules := rules + [r];
      assert accept in exprMap;
      forall a, w ensures (a in exprMap && Matches(exprMap[a], w)) <==> AnyHits(rules, w, a) {
        assert AnyHits(rules, w, a) <==> AnyHits(old(rules), w, a) || Hits(r, w, a) by {
          assert rules[|old(rules)|] == r;
          assert forall i :: 0 <= i < |old(rules)| ==> rules[i] == old(rules)[i];
        }
        assert (a in was && Matches(was[a], w)) <==> AnyHits(old(rules), w, a);
      }
    }

    /** Adds one rule; on a part that does not parse nothing changes. */
    method AddRuleVec(priority: int, mode: RuleMode, perms: Perms, audit: Perms, parts: seq<string>, oob: bool)
      returns (ok: bool)
      requires Valid() && parts != []
      modifies this
      ensures Valid()
      ensures ok <==> Joined(parts, oob).Some?
      ensures !ok ==> rules == old(rules) && ruleCount == old(ruleCount)
      ensures ok ==>
        var re := Joined(parts, oob).value;
        rules == old(rules) + [Rule(re, Accepting(priority, mode, IsExact(re), perms, audit))]
      ensures ok ==> ruleCount == old(ruleCount) + 1
    {
      var first := ReadRegex(parts[0]);
      assert parts[..1][0] == parts[0];
      if first.Fail? {
        JoinedFails(parts, oob, 1);
        return false;
      }
      var tree := first.value;
      for i := 1 to |parts|
        invariant Joined(parts[..i], oob) == Some(tree)
      {
        var part := ReadRegex(parts[i]);
        assert parts[..i + 1][..i] == parts[..i] && parts[..i + 1][i] == parts[i];
        if part.Fail? {
          JoinedFails(parts, oob, i + 1);
          return false;
        }
        tree := WithSeparator(tree, SeparatorOf(oob), part.value);
      }
      assert parts[..|parts|] == parts;
      AddToRules(tree, Accepting(priority, mode, IsExact(tree), perms, audit));
      ruleCount := ruleCount + 1;
      return true;
    }

    /**
     * Consumes the rules into one tree. Reading w arrives at a in some rule of that node, or behind a rule in
     * the tail.
     */
    method BuildTree(simplify: Re -> Re, tail: Option<Tree>) returns (tree: Option<Tree>)
      requires Valid() && KeepsLanguage(simplify)
      modifies this
      ensures exprMap == map[] && ruleCount == old(ruleCount)
      ensures tree.None? <==> old(rules) == []
      ensures tree.Some? ==> forall w, a :: Reaches(tree.value, w, a) <==> AnyVia(old(rules), tail, w, a)
    {
      tree := TreeOf(exprMap, simplify, tail);
      KeysAreRules(exprMap, rules, tail);
      exprMap, rules := map[], [];
    }
  }

  /** The tree stands for the accept nodes done so far. */
  ghost predicate Built(tree: Option<Tree>, m: map<Accepting, Re>, done: set<Accepting>, tail: Option<Tree>) {
    && (tree.None? <==> done == {})
    && (tree.Some? ==> forall w, a :: Reaches(tree.value, w, a) <==> KeyVia(m, done, tail, w, a))
  }

  method Grow(m: map<Accepting, Re>, ghost done: set<Accepting>, simplify: Re -> Re, own: Accepting,
              tail: Option<Tree>, tree: Option<Tree>) returns (grown: Option<Tree>)
    requires own in m && KeepsLanguage(simplify) && Built(tree, m, done, tail)
    ensures Built(grown, m, done + {own}, tail)
  {
    var n := Ended(simplify(m[own]), own, tail);
    GrowsByKey(m, done, simplify, own, tail, tree);
    return Some(if tree.Some? then Either(tree.value, n) else n);
  }

  /** The order in which accept nodes are visited does not matter. */
  method TreeOf(m: map<Accepting, Re>, simplify: Re -> Re, tail: Option<Tree>) returns (tree: Option<Tree>)
    requires KeepsLanguage(simplify)
    ensures tree.None? <==> m == map[]
    ensures tree.Some? ==> forall w, a :: Reaches(tree.value, w, a) <==> KeyVia(m, m.Keys, tail, w, a)
  {
    var todo := m.Keys;
    ghost var done: set<Accepting> := {};
    tree := None;
    while todo != {}
      invariant forall a :: a in m <==> a in done || a in todo
      invariant Built(tree, m, done, tail)
      decreases |todo|
    {
      var own :| own in todo;
      todo := todo - {own};
      tree := Grow(m, done, simplify, own, tail, tree);
      done := done + {own};
    }
    assert done == m.Keys;
    assert m.Keys == {} <==> m == map[];
  }

  ghost predicate AnyVia(rules: seq<Rule>, tail: Option<Tree>, w: Word, a: Accepting) {
    exists i :: 0 <= i < |rules| && Via(rules[i].re, rules[i].accept, tail, w, a)
  }

  ghost predicate KeyVia(m: map<Accepting, Re>, keys: set<Accepting>, tail: Option<Tree>, w: Word, a: Accepting) {
    exists own :: own in keys && own in m && Via(m[own], own, tail, w, a)
  }

  lemma JoinedFails(parts: seq<string>, oob: bool, i: nat)
    requires 0 < i <= |parts| && Joined(parts[..i], oob).None?
    ensures Joined(parts, oob).None?
    decreases |parts| - i
  {
    if i < |parts| {
      assert parts[..i + 1][..i] == parts[..i];
      JoinedFails(parts, oob, i + 1);
    } else {
      assert parts[..i] == parts;
    }
  }

  lemma ViaSimplified(re: Re, simplify: Re -> Re, own: Accepting, tail: Option<Tree>, w: Word, a: Accepting)
    requires KeepsLanguage(simplify)
    ensures Via(simplify(re), own, tail, w, a) <==> Via(re, own, tail, w, a)
  {}

  lemma GrowsByKey(m: map<Accepting, Re>, done: set<Accepting>, simplify: Re -> Re, own: Accepting,
                   tail: Option<Tree>, tree: Option<Tree>)
    requires own in m && KeepsLanguage(simplify)
    requires Built(tree, m, done, tail)
    ensures
      var n := Ended(simplify(m[own]), own, tail);
      Built(Some(if tree.Some? then Either(tree.value, n) else n), m, done + {own}, tail)
  {
    var n := Ended(simplify(m[own]), own, tail);
    var grown := if tree.Some? then Either(tree.value, n) else n;
    forall w, a ensures Reaches(grown, w, a) <==> KeyVia(m, done + {own}, tail, w, a) {
      EndedReaches(simplify(m[own]), own, tail, w, a);
      ViaSimplified(m[own], simplify, own, tail, w, a);
      assert KeyVia(m, done + {own}, tail, w, a) <==> KeyVia(m, done, tail, w, a) || Via(m[own], own, tail, w, a);
    }
  }

  lemma KeysAreRules(m: map<Accepting, Re>, rules: seq<Rule>, tail: Option<Tree>)
    requires Grouped(m, rules)
    ensures forall w, a :: KeyVia(m, m.Keys, tail, w, a) <==> AnyVia(rules, tail, w, a)
  {
    forall w, a ensures KeyVia(m, m.Keys, tail, w, a) <==> AnyVia(rules, tail, w, a) {
      if KeyVia(m, m.Keys, tail, w, a) {
        var own :| own in m.Keys && Via(m[own], own, tail, w, a);
        KeyIsRule(m, rules, tail, own, w, a);
      }
      if AnyVia(rules, tail, w, a) {
        var i :| 0 <= i < |rules| && Via(rules[i].re, rules[i].accept, tail, w, a);
        RuleIsKey(m, rules, tail, i, w, a);
      }
    }
  }

  lemma KeyIsRule(m: map<Accepting, Re>, rules: seq<Rule>, tail: Option<Tree>, own: Accepting, w: Word, a: Accepting)
    requires Grouped(m, rules)
    requires own in m && Via(m[own], own, tail, w, a)
    ensures AnyVia(rules, tail, w, a)
  {
    if a == own && Matches(m[own], w) {
      assert AnyHits(rules, w, a);
      var i :| 0 <= i < |rules| && Hits(rules[i], w, a);
      assert Via(rules[i].re, rules[i].accept, tail, w, a);
    } else {
      var k :| 0 <= k <= |w| && Matches(m[own], w[..k]) && Reaches(tail.value, w[k..], a);
      assert AnyHits(rules, w[..k], own);
      var i :| 0 <= i < |rules| && Hits(rules[i], w[..k], own);
      assert Via(rules[i].re, rules[i].accept, tail, w, a);
    }
  }

  lemma RuleIsKey(m: map<Accepting, Re>, rules: seq<Rule>, tail: Option<Tree>, i: nat, w: Word, a: Accepting)
    requires Grouped(m, rules)
    requires i < |rules| && Via(rules[i].re, rules[i].accept, tail, w, a)
    ensures KeyVia(m, m.Keys, tail, w, a)
  {
    var own := rules[i].accept;
    if a == own && Matches(rules[i].re, w) {
      assert Hits(rules[i], w, a);
      assert AnyHits(rules, w, a);
      assert Via(m[own], own, tail, w, a);
    } else {
      var k :| 0 <= k <= |w| && Matches(rules[i].re, w[..k]) && Reaches(tail.value, w[k..], a);
      assert Hits(rules[i], w[..k], own);
      assert AnyHits(rules, w[..k], own);
      assert Via(m[own], own, tail, w, a);
    }
  }

  /** The rule, a separator and a rule of the tail, as a rule of its own. */
  function Combined(r: Rule, separator: int, t: Rule): Rule {
    Rule(WithSeparator(r.re, separator, t.re), t.accept)
  }

  ghost predicate AnyCombined(rules: seq<Rule>, separator: int, tail: seq<Rule>, w: Word, a: Accepting) {
    exists i, j :: 0 <= i < |rules| && 0 <= j < |tail| && Hits(Combined(rules[i], separator, tail[j]), w, a)
  }

  /** w is cut at k: a match of l, the separator, a match of r. */
  ghost predicate SeparatedAt(l: Re, separator: int, r: Re, w: Word, k: int) {
    0 <= k < |w| && Matches(l, w[..k]) && w[k] == separator && Matches(r, w[k + 1..])
  }

  lemma {:induction false} CatSplit(l: Re, r: Re, w: Word) returns (n: int)
    requires Matches(Cat(l, r), w)
    ensures 0 <= n <= |w| && Matches(l, w[..n]) && Matches(r, w[n..])
  {
    n :| 0 <= n <= |w| && Matches(l, w[..n]) && Matches(r, w[n..]);
  }

  lemma {:induction false} CutOf(l: Re, separator: int, r: Re, w: Word) returns (k: int)
    requires Matches(WithSeparator(l, separator, r), w)
    ensures SeparatedAt(l, separator, r, w, k)
  {
    var n := CatSplit(Cat(l, Chr(separator)), r, w);
    var u := w[..n];
    k := CatSplit(l, Chr(separator), u);
    assert u[k..] == [separator];
    assert u[..k] == w[..k] && u[k..][0] == w[k];
  }

  lemma {:induction false} CutMatches(l: Re, separator: int, r: Re, w: Word, k: int)
    requires SeparatedAt(l, separator, r, w, k)
    ensures Matches(WithSeparator(l, separator, r), w)
  {
    var u := w[..k + 1];
    assert u[..k] == w[..k] && u[k..] == [separator];
    assert Matches(Chr(separator), u[k..]);
    assert Matches(Cat(l, Chr(separator)), u);
  }

  function Separated(separator: int, t: Tree): Tree {
    Sequence(Expr(Chr(separator)), t)
  }

  lemma {:induction false} SeparatedReaches(separator: int, t: Tree, w: Word, a: Accepting)
    ensures Reaches(Separated(separator, t), w, a) <==> |w| > 0 && w[0] == separator && Reaches(t, w[1..], a)
  {
    if |w| > 0 && w[0] == separator && Reaches(t, w[1..], a) {
      assert w[..1] == [separator];
      assert Reads(Expr(Chr(separator)), w[..1]);
    }
  }

  /** What the tail's own tree was proved to do. */
  ghost predicate Faithful(t: Tree, rules: seq<Rule>) {
    forall w, a :: Reaches(t, w, a) <==> AnyVia(rules, None, w, a)
  }

  lemma {:induction false} ViaTailIsCombined(r: Rule, separator: int, tail: seq<Rule>, t: Tree, w: Word, a: Accepting)
    returns (j: nat)
    requires Faithful(t, tail) && Via(r.re, r.accept, Some(Separated(separator, t)), w, a) && !Hits(r, w, a)
    ensures j < |tail| && Hits(Combined(r, separator, tail[j]), w, a)
  {
    var k :| 0 <= k <= |w| && Matches(r.re, w[..k]) && Reaches(Separated(separator, t), w[k..], a);
    SeparatedReaches(separator, t, w[k..], a);
    assert w[k..][0] == w[k] && w[k..][1..] == w[k + 1..];
    assert AnyVia(tail, None, w[k + 1..], a);
    j :| 0 <= j < |tail| && Via(tail[j].re, tail[j].accept, None, w[k + 1..], a);
    CutMatches(r.re, separator, tail[j].re, w, k);
  }

  lemma {:induction false} CombinedIsViaTail(r: Rule, separator: int, tail: seq<Rule>, t: Tree, w: Word, a: Accepting,
                                             j: nat)
    requires Faithful(t, tail) && j < |tail| && Hits(Combined(r, separator, tail[j]), w, a)
    ensures Via(r.re, r.accept, Some(Separated(separator, t)), w, a)
  {
    var k := CutOf(r.re, separator, tail[j].re, w);
    assert w[k..][0] == w[k] && w[k..][1..] == w[k + 1..];
    assert Via(tail[j].re, tail[j].accept, None, w[k + 1..], a);
    assert AnyVia(tail, None, w[k + 1..], a);
    SeparatedReaches(separator, t, w[k..], a);
  }

  lemma AllViaTail(rules: seq<Rule>, separator: int, tail: seq<Rule>, t: Tree, w: Word, a: Accepting)
    requires Faithful(t, tail)
    ensures AnyVia(rules, Some(Separated(separator, t)), w, a) <==>
      AnyHits(rules, w, a) || AnyCombined(rules, separator, tail, w, a)
  {
    var shared := Some(Separated(separator, t));
    if AnyVia(rules, shared, w, a) && !AnyHits(rules, w, a) {
      var i :| 0 <= i < |rules| && Via(rules[i].re, rules[i].accept, shared, w, a);
      var j := ViaTailIsCombined(rules[i], separator, tail, t, w, a);
    }
    if AnyHits(rules, w, a) {
      var i :| 0 <= i < |rules| && Hits(rules[i], w, a);
      assert Via(rules[i].re, rules[i].accept, shared, w, a);
    }
    if AnyCombined(rules, separator, tail, w, a) {
      var i, j :| 0 <= i < |rules| && 0 <= j < |tail| && Hits(Combined(rules[i], separator, tail[j]), w, a);
      CombinedIsViaTail(rules[i], separator, tail, t, w, a, j);
    }
  }

  /**
   * The tree of a rule set with a factored tail reaches exactly the accept nodes that would be reached if every
   * combination of a rule, the separator and a rule of the tail had been added as a rule of its own.
   */
  method CreateTree(own: AareRules, simplify: Re -> Re, tail: AareRules?, tailOob: bool) returns (root: Option<Tree>)
    requires own.Valid() && KeepsLanguage(simplify)
    requires tail != null ==> tail != own && tail.Valid()
    modifies own, tail
    ensures root.None? <==> old(own.rules) == []
    ensures root.Some? ==> forall w, a :: Reaches(root.value, w, a) <==>
      || AnyHits(old(own.rules), w, a)
      || AnyCombined(old(own.rules), SeparatorOf(tailOob), old(if tail == null then [] else tail.rules), w, a)
  {
    var shared := None;
    ghost var tailRules, ownRules := if tail == null then [] else tail.rules, own.rules;
    if tail != null {
      var t := tail.BuildTree(simplify, None);
      if t.Some? {
        shared := Some(Separated(SeparatorOf(tailOob), t.value));
        assert Faithful(t.value, tailRules);
      }
    }
    root := own.BuildTree(simplify, shared);
    if root.Some? {
      forall w, a ensures AnyVia(ownRules, shared, w, a) <==>
          AnyHits(ownRules, w, a) || AnyCombined(ownRules, SeparatorOf(tailOob), tailRules, w, a) {
        if shared.Some? {
          AllViaTail(ownRules, SeparatorOf(tailOob), tailRules, shared.value.second, w, a);
        }
      }
    }
  }
}
