/** Merging rules with equal keys: the survivor takes the permissions of those it removes. */
module RuleMerge {
  import opened Ordering
  import opened Prefixes
  import opened RuleOrder

  class PolicyRule {
    const key: Key
    var perms: Perms
    var saved: Perms
    var merged: bool
    var deleted: bool
    var removedBy: PolicyRule?

    constructor (key: Key, perms: Perms)
      ensures this.key == key && this.perms == perms && saved == {} && !merged && !deleted && removedBy == null
    {
      this.key, this.perms, saved, merged, deleted, removedBy := key, perms, {}, false, false, null;
    }

    /** Takes over the permissions of rhs, unless one of the two is already gone. */
    method Merge(rhs: PolicyRule) returns (ok: bool)
      requires this != rhs
      modifies this, rhs
      ensures ok <==> RuleClass(key.body) == RuleClass(rhs.key.body) && !old(deleted) && !old(rhs.deleted)
      ensures !ok ==> unchanged(this) && unchanged(rhs)
      ensures ok ==> perms == old(perms) + old(rhs.perms) && merged && !deleted && removedBy == old(removedBy)
      ensures ok ==> saved == if old(saved) == {} then old(perms) else old(saved)
      ensures ok ==> rhs.merged && rhs.deleted && rhs.removedBy == this
      ensures rhs.perms == old(rhs.perms) && rhs.saved == old(rhs.saved)
    {
      if RuleClass(key.body) != RuleClass(rhs.key.body) {
        return false;
      }
      if deleted || rhs.deleted {
        return false;
      }
      merged := true;
      rhs.merged, rhs.deleted := true, true;
      rhs.removedBy := this;
      if saved == {} {
        saved := perms;
      }
      perms := perms + rhs.perms;
      return true;
    }
  }

  predicate NotAfter(x: PolicyRule, y: PolicyRule) {
    KeyCmp(x.key, y.key) <= 0
  }

  predicate Differ<T(==)>(x: T, y: T) {
    x != y
  }

  predicate Sorted(t: seq<PolicyRule>) {
    Pairwise(t, NotAfter)
  }

  predicate Distinct(t: seq<PolicyRule>) {
    Pairwise(t, Differ)
  }

  method FindPlace(t: seq<PolicyRule>, r: PolicyRule) returns (i: nat)
    requires Sorted(t)
    ensures i <= |t|
    ensures forall k :: 0 <= k < i ==> NotAfter(t[k], r)
    ensures forall k :: i <= k < |t| ==> NotAfter(r, t[k])
  {
    i := |t|;
    while i > 0 && KeyCmp(t[i - 1].key, r.key) > 0
      invariant 0 <= i <= |t|
      invariant forall k :: i <= k < |t| ==> NotAfter(r, t[k])
    {
      i := i - 1;
      KeyOrder(t[i].key, r.key, r.key);
    }
    forall k | 0 <= k < i ensures NotAfter(t[k], r) {
      if k < i - 1 {
        assert NotAfter(t[k], t[i - 1]);
        KeyOrder(t[k].key, t[i - 1].key, r.key);
      }
    }
  }

  method InsertSorted(t: seq<PolicyRule>, r: PolicyRule) returns (u: seq<PolicyRule>)
    requires Sorted(t) && Distinct(t) && r !in t
    ensures Sorted(u) && Distinct(u)
    ensures forall x :: x in u <==> x in t || x == r
  {
    var i := FindPlace(t, r);
    u := t[..i] + [r] + t[i..];
    PairwiseInsert(t, i, r, NotAfter);
    PairwiseInsert(t, i, r, Differ);
    assert t == t[..i] + t[i..];
  }

  /** The rules still in force, sorted by key. */
  method LiveTable(rules: seq<PolicyRule>) returns (t: seq<PolicyRule>)
    requires Distinct(rules)
    ensures Sorted(t) && Distinct(t)
    ensures forall r :: r in t <==> r in rules && !r.deleted
    ensures forall k :: 0 <= k < |t| ==> t[k] in rules && !t[k].deleted
  {
    t := [];
    for n := 0 to |rules|
      invariant Sorted(t) && Distinct(t)
      invariant forall r :: r in t <==> r in rules[..n] && !r.deleted
    {
      assert rules[..n + 1] == rules[..n] + [rules[n]];
      if !rules[n].deleted {
        t := InsertSorted(t, rules[n]);
      }
    }
    assert rules[..|rules|] == rules;
  }

  /** Where each of the first rules went: the index of the rule that now stands for it. */
  ghost predicate Leads(t: seq<PolicyRule>, lead: seq<int>) {
    && |lead| <= |t|
    && (forall k :: 0 <= k < |lead| ==> 0 <= lead[k] <= k && lead[lead[k]] == lead[k])
    && (forall k :: 0 <= k < |lead| ==> t[lead[k]].key == t[k].key)
    && (forall k, l :: 0 <= k < l < |lead| && t[k].key == t[l].key ==> lead[k] == lead[l])
  }

  /** The marks on the rules agree with the table of leaders. */
  ghost predicate Marked(t: seq<PolicyRule>, lead: seq<int>)
    requires Leads(t, lead)
    reads t
  {
    && (forall k :: 0 <= k < |lead| ==> (t[k].deleted <==> lead[k] != k))
    && (forall k :: 0 <= k < |lead| && lead[k] != k ==> t[k].removedBy == t[lead[k]])
    && (forall k :: |lead| <= k < |t| ==> !t[k].deleted)
  }

  /** A leader holds the permissions of all it leads; the others keep theirs. */
  ghost predicate Collected(t: seq<PolicyRule>, lead: seq<int>, was: seq<Perms>)
    requires Leads(t, lead) && |was| == |t|
    reads t
  {
    && (forall k, m :: 0 <= k < |lead| && lead[k] == k ==> (m in t[k].perms <==> Gathers(lead, was, k, m)))
    && (forall k :: 0 <= k < |lead| && lead[k] != k ==> t[k].perms == was[k])
    && (forall k :: |lead| <= k < |t| ==> t[k].perms == was[k])
  }

  predicate Gathers(lead: seq<int>, was: seq<Perms>, k: int, m: int)
    requires |lead| <= |was|
  {
    exists l :: 0 <= l < |lead| && lead[l] == k && m in was[l]
  }

  ghost predicate Invariant(t: seq<PolicyRule>, lead: seq<int>, was: seq<Perms>)
    reads t
  {
    Leads(t, lead) && |was| == |t| && Marked(t, lead) && Collected(t, lead, was)
  }

  lemma GathersMore(lead: seq<int>, was: seq<Perms>, i: int, k: int, m: int)
    requires |lead| < |was|
    ensures Gathers(lead + [i], was, k, m) <==> Gathers(lead, was, k, m) || (k == i && m in was[|lead|])
  {
    var all := lead + [i];
    assert all[|lead|] == i;
    if Gathers(lead, was, k, m) {
      var l :| 0 <= l < |lead| && lead[l] == k && m in was[l];
      assert all[l] == k;
    }
  }

  lemma EarlierKeysDiffer(t: seq<PolicyRule>, lead: seq<int>, k: int)
    requires Sorted(t) && Leads(t, lead) && 0 <= k < |lead| < |t|
    requires t[|lead| - 1].key != t[|lead|].key
    ensures t[k].key != t[|lead|].key
  {
    var j := |lead|;
    assert NotAfter(t[j - 1], t[j]);
    if k < j - 1 {
      assert NotAfter(t[k], t[j - 1]);
    }
    KeyOrder(t[k].key, t[j - 1].key, t[j].key);
    KeyOrder(t[j - 1].key, t[j].key, t[k].key);
    KeyOrder(t[k].key, t[j].key, t[k].key);
  }

  lemma OwnLeader(t: seq<PolicyRule>, lead: seq<int>)
    requires Sorted(t) && Leads(t, lead) && 0 < |lead| < |t|
    requires t[|lead| - 1].key != t[|lead|].key
    ensures Leads(t, lead + [|lead|])
  {
    var lead' := lead + [|lead|];
    forall k | 0 <= k < |lead| ensures t[k].key != t[|lead|].key {
      EarlierKeysDiffer(t, lead, k);
    }
    assert forall k :: 0 <= k < |lead| ==> lead'[k] == lead[k];
  }

  /** Another key begins: the next rule leads itself. */
  lemma NextLeader(t: seq<PolicyRule>, lead: seq<int>, was: seq<Perms>)
    requires Sorted(t) && Invariant(t, lead, was) && 0 < |lead| < |t|
    requires t[|lead| - 1].key != t[|lead|].key
    ensures Invariant(t, lead + [|lead|], was)
  {
    var j := |lead|;
    var lead' := lead + [j];
    OwnLeader(t, lead);
    assert forall k :: 0 <= k < j ==> lead'[k] == lead[k];
    forall k, m | 0 <= k < |lead'| && lead'[k] == k ensures m in t[k].perms <==> Gathers(lead', was, k, m) {
      GathersMore(lead, was, j, k, m);
    }
  }

  lemma SameLeader(t: seq<PolicyRule>, lead: seq<int>)
    requires Leads(t, lead) && 0 < |lead| < |t| && t[lead[|lead| - 1]].key == t[|lead|].key
    ensures Leads(t, lead + [lead[|lead| - 1]])
  {
    var lead' := lead + [lead[|lead| - 1]];
    assert forall k :: 0 <= k < |lead| ==> lead'[k] == lead[k];
  }

  lemma ApartFrom(t: seq<PolicyRule>, i: nat)
    requires Distinct(t) && i < |t|
    ensures forall k :: 0 <= k < |t| && k != i ==> t[k] != t[i]
  {
    assert forall k :: 0 <= k < |t| ==> (k < i ==> Differ(t[k], t[i])) && (k > i ==> Differ(t[i], t[k]));
  }

  /** The next rule has the key of the current leader, which absorbs it. */
  method Absorb(t: seq<PolicyRule>, i: nat, j: nat, ghost lead: seq<int>, ghost was: seq<Perms>) returns (ok: bool)
    requires Distinct(t) && Invariant(t, lead, was) && 0 < |lead| == j < |t| && lead[j - 1] == i
    requires t[i].key == t[j].key
    modifies t[i], t[j]
    ensures ok && Invariant(t, lead + [i], was)
  {
    assert Differ(t[i], t[j]);
    ghost var lead' := lead + [i];
    SameLeader(t, lead);
    assert lead[i] == i;
    ok := t[i].Merge(t[j]);
    assert forall k :: 0 <= k < j ==> lead'[k] == lead[k];
    ApartFrom(t, i);
    ApartFrom(t, j);
    assert Marked(t, lead');
    forall k, m | 0 <= k < |lead'| && lead'[k] == k ensures m in t[k].perms <==> Gathers(lead', was, k, m) {
      GathersMore(lead, was, i, k, m);
    }
  }

  method SameKey(a: Key, b: Key) returns (same: bool)
    ensures same <==> a == b
  {
    KeyOrder(a, b, b);
    return KeyCmp(a, b) == 0;
  }

  /** One turn of the loop: rule j is absorbed by leader i, or leads from here on. */
  method Turn(t: seq<PolicyRule>, i: nat, j: nat, ghost lead: seq<int>, ghost was: seq<Perms>)
    returns (next: nat, merged: bool, ghost lead': seq<int>)
    requires Sorted(t) && Distinct(t) && Invariant(t, lead, was) && 0 < |lead| == j < |t| && lead[j - 1] == i
    modifies t
    ensures |lead'| == j + 1 && lead'[j] == next && Invariant(t, lead', was)
    ensures merged <==> t[j].deleted
    ensures forall k :: 0 <= k < |t| && k != j ==> t[k].deleted == old(t[k].deleted)
  {
    next, merged, lead' := i, false, lead + [i];
    var skip := t[j].deleted;
    assert !skip;
    if !skip {
      var same := SameKey(t[i].key, t[j].key);
      if same {
        merged := Absorb(t, i, j, lead, was);
      } else {
        NextLeader(t, lead, was);
        next, lead' := j, lead + [j];
      }
    }
    assert forall k :: 0 <= k < j ==> lead'[k] == lead[k];
  }

  /** The rules gone so far are those marked deleted. */
  ghost predicate Marks(t: seq<PolicyRule>, gone: set<PolicyRule>)
    reads t
  {
    (forall r :: r in gone ==> r in t) && forall k :: 0 <= k < |t| ==> (t[k] in gone <==> t[k].deleted)
  }

  /** A turn of the loop, with the rules it has removed. */
  method CountedTurn(t: seq<PolicyRule>, i: nat, j: nat, ghost lead: seq<int>, ghost was: seq<Perms>,
                     ghost gone: set<PolicyRule>)
    returns (next: nat, merged: bool, ghost lead': seq<int>, ghost gone': set<PolicyRule>)
    requires Sorted(t) && Distinct(t) && Invariant(t, lead, was) && 0 < |lead| == j < |t| && lead[j - 1] == i
    requires Marks(t, gone)
    modifies t
    ensures |lead'| == j + 1 && lead'[j] == next && Invariant(t, lead', was)
    ensures Marks(t, gone') && |gone'| == |gone| + if merged then 1 else 0
  {
    ApartFrom(t, j);
    assert t[j] !in gone;
    next, merged, lead' := Turn(t, i, j, lead, was);
    gone' := if merged then gone + {t[j]} else gone;
  }

  /** Folds each run of equal keys into its first rule. */
  method MergeTable(t: seq<PolicyRule>) returns (count: nat, ghost lead: seq<int>, ghost gone: set<PolicyRule>)
    requires Sorted(t) && Distinct(t) && |t| > 0 && forall k :: 0 <= k < |t| ==> !t[k].deleted
    modifies t
    ensures |lead| == |t| && Invariant(t, lead, old(PermsOf(t)))
    ensures count == |gone| && forall r :: r in gone <==> r in t && r.deleted
  {
    ghost var was := PermsOf(t);
    var i, j := 0, 1;
    lead, gone, count := [0], {}, 0;
    FirstLeader(t, was);
    while j < |t|
      invariant 0 < j <= |t| && |lead| == j && lead[j - 1] == i
      invariant Invariant(t, lead, was)
      invariant count == |gone| && Marks(t, gone)
    {
      var merged;
      i, merged, lead, gone := CountedTurn(t, i, j, lead, was, gone);
      if merged {
        count := count + 1;
      }
      j := j + 1;
    }
  }

  lemma FirstLeader(t: seq<PolicyRule>, was: seq<Perms>)
    requires |t| > 0 && was == PermsOf(t) && forall k :: 0 <= k < |t| ==> !t[k].deleted
    ensures Invariant(t, [0], was)
  {
    assert forall m :: Gathers([0], was, 0, m) <==> m in was[0] by {
      assert [0][0] == 0;
    }
  }

  ghost function PermsOf(t: seq<PolicyRule>): seq<Perms>
    reads t
  {
    seq(|t|, k requires 0 <= k < |t| reads t => t[k].perms)
  }

  ghost function Live(rules: seq<PolicyRule>): set<PolicyRule>
    reads rules
  {
    set r | r in rules && !r.deleted
  }

  ghost function Granted(rules: seq<PolicyRule>): map<PolicyRule, Perms>
    reads rules
  {
    map r | r in rules :: r.perms
  }

  /** Among the rules live before, one with this key granted bit m. */
  ghost predicate WasGranted(live: set<PolicyRule>, granted: map<PolicyRule, Perms>, k: Key, m: int) {
    exists r :: r in live && r in granted && r.key == k && m in granted[r]
  }

  /** How a list of rules stands after merging, given what was live and what that granted. */
  ghost predicate MergedFrom(rules: seq<PolicyRule>, live: set<PolicyRule>, granted: map<PolicyRule, Perms>)
    reads rules
  {
    && (forall r :: r in rules && r in live && r.deleted ==>
      r.removedBy != null && r.removedBy in rules && !r.removedBy.deleted && r.removedBy.key == r.key)
    && (forall r, s :: r in rules && s in rules && !r.deleted && !s.deleted && r.key == s.key ==> r == s)
    && (forall r, m :: r in rules && !r.deleted ==> (m in r.perms <==> WasGranted(live, granted, r.key, m)))
  }

  /**
   * One rule per key stays in force, every rule removed points at the one that stands for it, and that one
   * grants what all rules of the key granted. The result counts the rules removed.
   */
  method MergeRuleT(rules: seq<PolicyRule>) returns (count: nat)
    requires Distinct(rules)
    modifies rules
    ensures MergedFrom(rules, old(Live(rules)), old(Granted(rules)))
    ensures forall r :: r in rules && old(r.deleted) ==> unchanged(r)
    ensures Live(rules) <= old(Live(rules)) && count == |old(Live(rules)) - Live(rules)|
  {
    ghost var live, granted := Live(rules), Granted(rules);
    var t := LiveTable(rules);
    if |t| < 2 {
      Untouched(rules, t, live, granted);
      return 0;
    }
    ghost var was := PermsOf(t);
    ghost var lead, gone;
    count, lead, gone := MergeTable(t);
    Removed(rules, t, gone, live);
    Conclusion(rules, t, lead, was, live, granted);
  }

  lemma Untouched(rules: seq<PolicyRule>, t: seq<PolicyRule>, live: set<PolicyRule>, granted: map<PolicyRule, Perms>)
    requires |t| < 2 && live == Live(rules) && granted == Granted(rules)
    requires forall r :: r in t <==> r in rules && !r.deleted
    ensures MergedFrom(rules, live, granted)
    ensures live - Live(rules) == {}
  {}

  lemma Removed(rules: seq<PolicyRule>, t: seq<PolicyRule>, gone: set<PolicyRule>, live: set<PolicyRule>)
    requires forall r :: r in t <==> r in live
    requires forall r :: r in live ==> r in rules
    requires forall r :: r in rules && r !in t ==> r.deleted
    requires forall r :: r in gone <==> r in t && r.deleted
    ensures Live(rules) <= live && gone == live - Live(rules)
  {}

  lemma Conclusion(rules: seq<PolicyRule>, t: seq<PolicyRule>, lead: seq<int>, was: seq<Perms>,
                   live: set<PolicyRule>, granted: map<PolicyRule, Perms>)
    requires forall r :: r in t <==> r in live
    requires forall r :: r in live ==> r in rules && r in granted
    requires forall r :: r in rules && r !in t ==> r.deleted
    requires |lead| == |t| && Invariant(t, lead, was)
    requires forall k :: 0 <= k < |t| ==> was[k] == granted[t[k]]
    ensures MergedFrom(rules, live, granted)
  {
    forall r, m | r in rules && !r.deleted ensures m in r.perms <==> WasGranted(live, granted, r.key, m) {
      var k :| 0 <= k < |t| && t[k] == r;
      if Gathers(lead, was, k, m) {
        var l :| 0 <= l < |lead| && lead[l] == k && m in was[l];
        assert t[l] in live && t[l].key == r.key;
      }
      if s :| s in live && s.key == r.key && m in granted[s] {
        var l :| 0 <= l < |t| && t[l] == s;
        assert lead[l] == lead[k];
      }
    }
  }
}
