/** A block's file entries: prefixing them, sorting them, and merging those with equal keys. */
module FileMerge {
  import opened Ordering
  import opened Prefixes
  import opened FileOrder

  ghost predicate AllSettled(s: seq<Entry>) {
    forall e :: e in s ==> Settled(e)
  }

  predicate NotAfter(x: Entry, y: Entry) {
    FileComp(x, y) <= 0
  }

  predicate Precedes(x: Entry, y: Entry) {
    FileComp(x, y) < 0
  }

  predicate Sorted(s: seq<Entry>) {
    Pairwise(s, NotAfter)
  }

  predicate StrictlySorted(s: seq<Entry>) {
    Pairwise(s, Precedes)
  }

  ghost predicate Any<T(!new)>(s: seq<T>, p: T -> bool) {
    exists e :: e in s && p(e)
  }

  ghost predicate AnyPair<T(!new)>(s: seq<T>, r: (T, T) -> bool) {
    exists e, f :: e in s && f in s && r(e, f)
  }

  /** t is s with a and b replaced by c. */
  ghost predicate Replaces<T(!new)>(s: seq<T>, a: T, b: T, c: T, t: seq<T>) {
    && a in s && b in s && c in t
    && (forall e :: e in s ==> e in t || e == a || e == b)
    && (forall e :: e in t ==> e in s || e == c)
  }

  lemma AnyAfter<T(!new)>(s: seq<T>, a: T, b: T, c: T, t: seq<T>, p: T -> bool)
    requires Replaces(s, a, b, c, t)
    requires p(c) <==> p(a) || p(b)
    ensures Any(s, p) <==> Any(t, p)
  {
    if e :| e in s && p(e) {
      assert e in t || p(c);
    }
  }

  lemma AnyPairAfter<T(!new)>(s: seq<T>, a: T, b: T, c: T, t: seq<T>, r: (T, T) -> bool)
    requires Replaces(s, a, b, c, t)
    requires forall x :: r(c, x) <==> r(a, x) || r(b, x)
    requires forall x :: r(x, c) <==> r(x, a) || r(x, b)
    ensures AnyPair(s, r) <==> AnyPair(t, r)
  {
    if e, f :| e in s && f in s && r(e, f) {
      var e' := if e in t then e else c;
      var f' := if f in t then f else c;
      assert r(e', f);
      assert r(e', f');
    }
  }

  predicate GrantsSome(e: Entry, k: Entry, m: int) {
    SameKey(e, k) && m in e.perms
  }

  /** Some entry with the key of k grants permission m. */
  ghost predicate Grants(s: seq<Entry>, k: Entry, m: int) {
    Any(s, e => GrantsSome(e, k, m))
  }

  ghost predicate HasKey(s: seq<Entry>, k: Entry) {
    Any(s, e => SameKey(e, k))
  }

  /** The same keys, and under each of them the same permissions. */
  ghost predicate SamePolicy(s: seq<Entry>, t: seq<Entry>) {
    && (forall k :: HasKey(s, k) <==> HasKey(t, k))
    && (forall k, m :: Grants(s, k, m) <==> Grants(t, k, m))
  }

  /** Exec type bits only occur where the exec bit they qualify is set. */
  predicate TypesNeedExec(perms: Perms) {
    forall bit :: bit in perms ==>
      (IsUserType(bit) ==> MAY_EXEC in perms) && (IsOtherType(bit) ==> OTHER_EXEC in perms)
  }

  ghost predicate AllTypesNeedExec(s: seq<Entry>) {
    forall e :: e in s ==> TypesNeedExec(e.perms)
  }

  predicate SameUserType(a: Perms, b: Perms) {
    forall bit :: bit in a + b && IsUserType(bit) ==> bit in a && bit in b
  }

  predicate SameOtherType(a: Perms, b: Perms) {
    forall bit :: bit in a + b && IsOtherType(bit) ==> bit in a && bit in b
  }

  predicate IsMergedXConsistent(a: Perms, b: Perms) {
    && (MAY_EXEC in a && MAY_EXEC in b ==> SameUserType(a, b))
    && (OTHER_EXEC in a && OTHER_EXEC in b ==> SameOtherType(a, b))
  }

  /** Two entries that should be merged, but whose exec types conflict. */
  predicate Clash(e: Entry, f: Entry) {
    SameKey(e, f) && !IsMergedXConsistent(e.perms, f.perms)
  }

  ghost predicate Conflict(s: seq<Entry>) {
    AnyPair(s, Clash)
  }

  /** The entry that stands for a and b once they are merged. */
  function Merged(a: Entry, b: Entry): Entry {
    a.(perms := a.perms + b.perms)
  }

  /** Exec types survive a merge: wherever a merged part has exec, the whole has exec of the same type. */
  lemma ExecTypesAreKept(a: Perms, b: Perms)
    requires TypesNeedExec(a) && TypesNeedExec(b) && IsMergedXConsistent(a, b)
    ensures TypesNeedExec(a + b)
    ensures MAY_EXEC in a ==> SameUserType(a + b, a)
    ensures MAY_EXEC in b ==> SameUserType(a + b, b)
    ensures OTHER_EXEC in a ==> SameOtherType(a + b, a)
    ensures OTHER_EXEC in b ==> SameOtherType(a + b, b)
  {}

  lemma ConsistentMerge(a: Perms, b: Perms, c: Perms)
    requires TypesNeedExec(a) && TypesNeedExec(b) && IsMergedXConsistent(a, b)
    ensures IsMergedXConsistent(a + b, c) <==> IsMergedXConsistent(a, c) && IsMergedXConsistent(b, c)
  {
    ExecTypesAreKept(a, b);
  }

  lemma MergedClash(a: Entry, b: Entry, c: Entry)
    requires SameKey(a, b) && IsMergedXConsistent(a.perms, b.perms)
    requires TypesNeedExec(a.perms) && TypesNeedExec(b.perms)
    ensures Clash(Merged(a, b), c) <==> Clash(a, c) || Clash(b, c)
  {
    ConsistentMerge(a.perms, b.perms, c.perms);
  }

  lemma ClashFlips(a: Entry, b: Entry)
    ensures Clash(a, b) <==> Clash(b, a)
  {
  }

  lemma StepKeepsPolicy(s: seq<Entry>, a: Entry, b: Entry, t: seq<Entry>)
    requires Replaces(s, a, b, Merged(a, b), t) && SameKey(a, b)
    ensures SamePolicy(s, t)
  {
    forall k ensures HasKey(s, k) <==> HasKey(t, k) {
      AnyAfter(s, a, b, Merged(a, b), t, e => SameKey(e, k));
    }
    forall k, m ensures Grants(s, k, m) <==> Grants(t, k, m) {
      AnyAfter(s, a, b, Merged(a, b), t, e => GrantsSome(e, k, m));
    }
  }

  lemma StepKeepsConflicts(s: seq<Entry>, a: Entry, b: Entry, t: seq<Entry>)
    requires Replaces(s, a, b, Merged(a, b), t) && SameKey(a, b) && IsMergedXConsistent(a.perms, b.perms)
    requires AllTypesNeedExec(s)
    ensures AllTypesNeedExec(t)
    ensures Conflict(s) <==> Conflict(t)
  {
    var c := Merged(a, b);
    ExecTypesAreKept(a.perms, b.perms);
    forall x ensures Clash(c, x) <==> Clash(a, x) || Clash(b, x) {
      MergedClash(a, b, x);
    }
    forall x ensures Clash(x, c) <==> Clash(x, a) || Clash(x, b) {
      MergedClash(a, b, x);
      ClashFlips(x, a);
      ClashFlips(x, b);
      ClashFlips(x, c);
    }
    AnyPairAfter(s, a, b, c, t, Clash);
  }

  /** Entry i takes over the permissions of its successor, which leaves the list. */
  function Folded(s: seq<Entry>, i: nat): seq<Entry>
    requires i + 1 < |s|
  {
    s[..i] + [Merged(s[i], s[i + 1])] + s[i + 2..]
  }

  lemma FoldReplaces(base: seq<Entry>, s: seq<Entry>, i: nat)
    requires i + 1 < |s|
    ensures Replaces(s, s[i], s[i + 1], Merged(s[i], s[i + 1]), Folded(s, i))
    ensures Replaces(base + s, s[i], s[i + 1], Merged(s[i], s[i + 1]), base + Folded(s, i))
  {
    var t, c := Folded(s, i), Merged(s[i], s[i + 1]);
    assert t[i] == c;
    forall e | e in s ensures e in t || e == s[i] || e == s[i + 1] {
      var k :| 0 <= k < |s| && s[k] == e;
      if k < i {
        assert t[k] == e;
      } else if k > i + 1 {
        assert t[k - 1] == e;
      }
    }
  }

  /** Putting c for neighbours i and i + 1 keeps a pairwise relation that c has wherever element i has it. */
  lemma PairwiseAfter<T(!new)>(s: seq<T>, i: nat, c: T, r: (T, T) -> bool)
    requires i + 1 < |s| && Pairwise(s, r)
    requires forall x :: (r(s[i], x) ==> r(c, x)) && (r(x, s[i]) ==> r(x, c))
    ensures Pairwise(s[..i] + [c] + s[i + 2..], r)
  {
    var t := s[..i] + [c] + s[i + 2..];
    forall k, l | 0 <= k < l < |t| ensures r(t[k], t[l]) {
      assert t[k] == if k < i then s[k] else if k == i then c else s[k + 1];
      assert t[l] == if l < i then s[l] else if l == i then c else s[l + 1];
      assert r(s[if k <= i then k else k + 1], s[if l <= i then l else l + 1]);
    }
  }

  lemma MergedComp(a: Entry, b: Entry, x: Entry)
    ensures FileComp(Merged(a, b), x) == FileComp(a, x)
    ensures FileComp(x, Merged(a, b)) == FileComp(x, a)
  {}

  lemma FoldKeepsOrder(s: seq<Entry>, i: nat)
    requires i + 1 < |s| && AllSettled(s) && Sorted(s) && StrictlySorted(s[..i + 1])
    ensures AllSettled(Folded(s, i)) && Sorted(Folded(s, i)) && StrictlySorted(Folded(s, i)[..i + 1])
  {
    var c, front := Merged(s[i], s[i + 1]), s[..i + 1];
    forall x
      ensures (NotAfter(s[i], x) ==> NotAfter(c, x)) && (NotAfter(x, s[i]) ==> NotAfter(x, c))
      ensures Precedes(x, s[i]) ==> Precedes(x, c)
    {
      MergedComp(s[i], s[i + 1], x);
    }
    PairwiseAfter(s, i, c, NotAfter);
    FoldReplaces(s, s, i);
    assert s[i] in s;
    var t := Folded(s, i)[..i + 1];
    forall k, l | 0 <= k < l <= i ensures Precedes(t[k], t[l]) {
      assert Precedes(front[k], front[l]);
    }
  }

  lemma AdvanceKeepsOrder(s: seq<Entry>, i: nat)
    requires i + 1 < |s| && AllSettled(s) && Sorted(s) && StrictlySorted(s[..i + 1])
    requires FileComp(s[i], s[i + 1]) != 0
    ensures StrictlySorted(s[..i + 2])
  {
    var t := s[..i + 2];
    assert forall k :: 0 <= k <= i ==> s[..i + 1][k] == s[k];
    assert NotAfter(s[i], s[i + 1]);
    forall k, l | 0 <= k < l <= i + 1 ensures Precedes(t[k], t[l]) {
      if l == i + 1 {
        assert k < i ==> Precedes(s[..i + 1][k], s[..i + 1][i]);
        ComparisonsChain(s[k], s[i], s[i + 1]);
      } else {
        assert Precedes(s[..i + 1][k], s[..i + 1][l]);
      }
    }
  }

  lemma StrictMeansNoConflict(s: seq<Entry>)
    requires AllSettled(s) && StrictlySorted(s)
    ensures !Conflict(s)
  {
    forall e, f | e in s && f in s ensures !Clash(e, f) {
      var i :| 0 <= i < |s| && s[i] == e;
      var j :| 0 <= j < |s| && s[j] == f;
      assert i < j ==> Precedes(e, f);
      assert j < i ==> Precedes(f, e);
      ZeroMeansSameKey(e, f);
    }
  }

  /** What every step of merging keeps: the policy, and whether it has conflicting exec types. */
  ghost predicate Preserves(base: seq<Entry>, s: seq<Entry>) {
    && SamePolicy(base, s)
    && (AllTypesNeedExec(base) ==>
      && AllTypesNeedExec(s)
      && (Conflict(base) <==> Conflict(s))
      && (Conflict(base) <==> Conflict(base + s)))
  }

  lemma SortPreserves(base: seq<Entry>, s: seq<Entry>)
    requires forall e :: e in base <==> e in s
    ensures Preserves(base, s)
  {
    assert forall e :: e in base + s <==> e in base;
  }

  lemma FoldPreserves(base: seq<Entry>, s: seq<Entry>, i: nat)
    requires Preserves(base, s) && i + 1 < |s| && SameKey(s[i], s[i + 1])
    requires IsMergedXConsistent(s[i].perms, s[i + 1].perms)
    ensures Preserves(base, Folded(s, i))
  {
    var t := Folded(s, i);
    FoldReplaces(base, s, i);
    StepKeepsPolicy(s, s[i], s[i + 1], t);
    if AllTypesNeedExec(base) {
      StepKeepsConflicts(s, s[i], s[i + 1], t);
      StepKeepsConflicts(base + s, s[i], s[i + 1], base + t);
    }
  }

  /** Under each key, an exec permission keeps the type it had. */
  ghost predicate TypesKept(base: seq<Entry>, s: seq<Entry>) {
    forall e, f :: e in base && f in s && SameKey(e, f) ==>
      && (MAY_EXEC in e.perms ==> SameUserType(e.perms, f.perms))
      && (OTHER_EXEC in e.perms ==> SameOtherType(e.perms, f.perms))
  }

  lemma PermissionsArrive(base: seq<Entry>, s: seq<Entry>, e: Entry, f: Entry, m: int)
    requires SamePolicy(base, s) && AllSettled(s) && StrictlySorted(s)
    requires e in base && f in s && SameKey(e, f) && m in e.perms
    ensures m in f.perms
  {
    assert GrantsSome(e, f, m);
    assert Grants(base, f, m);
    assert Grants(s, f, m);
    var g :| g in s && GrantsSome(g, f, m);
    var i :| 0 <= i < |s| && s[i] == f;
    var j :| 0 <= j < |s| && s[j] == g;
    assert i < j ==> Precedes(f, g);
    assert j < i ==> Precedes(g, f);
    ZeroMeansSameKey(f, g);
  }

  lemma PreservedTypes(base: seq<Entry>, s: seq<Entry>)
    requires Preserves(base, s) && AllTypesNeedExec(base) && AllSettled(s) && StrictlySorted(s)
    ensures TypesKept(base, s)
  {
    StrictMeansNoConflict(s);
    forall e, f | e in base && f in s && SameKey(e, f)
      ensures MAY_EXEC in e.perms ==> SameUserType(e.perms, f.perms)
      ensures OTHER_EXEC in e.perms ==> SameOtherType(e.perms, f.perms)
    {
      assert e in base + s && f in base + s;
      assert !Clash(e, f);
      if MAY_EXEC in e.perms {
        PermissionsArrive(base, s, e, f, MAY_EXEC);
      }
      if OTHER_EXEC in e.perms {
        PermissionsArrive(base, s, e, f, OTHER_EXEC);
      }
    }
  }

  method FindPlace(t: seq<Entry>, e: Entry) returns (i: nat)
    requires AllSettled(t) && Settled(e) && Sorted(t)
    ensures i <= |t|
    ensures forall k :: 0 <= k < i ==> NotAfter(t[k], e)
    ensures forall k :: i <= k < |t| ==> NotAfter(e, t[k])
  {
    i := |t|;
    while i > 0 && FileComp(t[i - 1], e) > 0
      invariant 0 <= i <= |t|
      invariant forall k :: i <= k < |t| ==> NotAfter(e, t[k])
    {
      i := i - 1;
      ZeroMeansSameKey(t[i], e);
    }
    if i > 0 {
      forall k | 0 <= k < i ensures NotAfter(t[k], e) {
        EarlierStillBefore(t, i - 1, k, e);
      }
    }
  }

  lemma EarlierStillBefore(t: seq<Entry>, i: nat, k: nat, e: Entry)
    requires k <= i < |t| && AllSettled(t) && Settled(e) && Sorted(t) && NotAfter(t[i], e)
    ensures NotAfter(t[k], e)
  {
    if k < i {
      assert NotAfter(t[k], t[i]);
      ComparisonsChain(t[k], t[i], e);
    }
  }

  method InsertSorted(t: seq<Entry>, e: Entry) returns (r: seq<Entry>)
    requires AllSettled(t) && Settled(e) && Sorted(t)
    ensures AllSettled(r) && Sorted(r)
    ensures multiset(r) == multiset(t) + multiset{e}
  {
    var i := FindPlace(t, e);
    PairwiseInsert(t, i, e, NotAfter);
    r := t[..i] + [e] + t[i..];
    assert t == t[..i] + t[i..];
  }

  /** The library sort: any sorted rearrangement will do for what follows. */
  method Qsort(s: seq<Entry>) returns (t: seq<Entry>)
    requires AllSettled(s)
    ensures AllSettled(t) && Sorted(t) && multiset(t) == multiset(s)
  {
    t := [];
    for n := 0 to |s|
      invariant AllSettled(t) && Sorted(t) && multiset(t) == multiset(s[..n])
    {
      assert s[..n + 1] == s[..n] + [s[n]];
      t := InsertSorted(t, s[n]);
    }
    assert s[..|s|] == s;
  }

  /** The entry takes the prefix without a clash and ends up with an exec type iff it needs one. */
  predicate Accepts(e: Entry, p: Prefix) {
    !ModeClash(e, p) && !AuditClash(e, p) && ExecQualified(Qualified(e, p))
  }

  lemma QualifiedSettled(e: Entry, p: Prefix)
    requires Settled(e) && FromParser(p) && Accepts(e, p)
    ensures Settled(Qualified(e, p))
  {}

  /** Where the merge loop stands: the entries up to `i` are final, and nothing has been lost. */
  ghost predicate Merging(base: seq<Entry>, s: seq<Entry>, i: int, count: int)
  {
    && 0 <= i < |s| && count + |s| == |base|
    && AllSettled(s) && Sorted(s) && StrictlySorted(s[..i + 1]) && Preserves(base, s)
  }

  lemma MergingStarts(base: seq<Entry>, s: seq<Entry>)
    requires s != [] && AllSettled(s) && Sorted(s) && multiset(s) == multiset(base)
    ensures Merging(base, s, 0, 0)
  {
    assert |multiset(s)| == |s| && |multiset(base)| == |base|;
    forall e ensures e in base <==> e in s {
      assert e in base <==> e in multiset(base);
      assert e in s <==> e in multiset(s);
    }
    SortPreserves(base, s);
  }

  lemma MergingFolds(base: seq<Entry>, s: seq<Entry>, i: int, count: int)
    requires Merging(base, s, i, count) && i + 1 < |s| && SameKey(s[i], s[i + 1])
    requires IsMergedXConsistent(s[i].perms, s[i + 1].perms)
    ensures Merging(base, Folded(s, i), i, count + 1)
  {
    FoldKeepsOrder(s, i);
    FoldPreserves(base, s, i);
  }

  lemma MergingFails(base: seq<Entry>, s: seq<Entry>, i: int, count: int)
    requires Merging(base, s, i, count) && i + 1 < |s| && Clash(s[i], s[i + 1])
    ensures AllTypesNeedExec(base) ==> Conflict(base)
  {
  }

  lemma MergingEnds(base: seq<Entry>, s: seq<Entry>, i: int, count: int)
    requires Merging(base, s, i, count) && i + 1 == |s|
    ensures StrictlySorted(s)
    ensures AllTypesNeedExec(base) ==> !Conflict(base) && TypesKept(base, s)
  {
    assert s[..i + 1] == s;
    StrictMeansNoConflict(s);
    if AllTypesNeedExec(base) {
      PreservedTypes(base, s);
    }
  }

  class BlockRules {
    var entries: seq<Entry>

    constructor (entries: seq<Entry>)
      ensures this.entries == entries
    {
      this.entries := entries;
    }

    /** Pushes a block's prefix down to its file entries, stopping at the first that refuses it. */
    method AddPrefix(p: Prefix) returns (ok: bool)
      requires AllSettled(entries) && FromParser(p)
      modifies this
      ensures |entries| == |old(entries)|
      ensures ok <==> forall i :: 0 <= i < |old(entries)| ==> Accepts(old(entries)[i], p)
      ensures ok ==> forall i :: 0 <= i < |entries| ==> entries[i] == Qualified(old(entries)[i], p)
      ensures ok ==> AllSettled(entries)
    {
      ghost var was := entries;
      for i := 0 to |entries|
        invariant |entries| == |was|
        invariant forall k :: 0 <= k < i ==> entries[k] == Qualified(was[k], p) && Accepts(was[k], p)
        invariant forall k :: i <= k < |was| ==> entries[k] == was[k]
      {
        var e;
        ok, e := EntryAddPrefix(entries[i], p);
        entries := entries[i := e];
        if !ok {
          return;
        }
      }
      forall k | 0 <= k < |was| ensures Settled(entries[k]) {
        QualifiedSettled(was[k], p);
      }
      ok := true;
    }

    /**
     * Sorts the entries and folds neighbours with equal keys. It fails exactly on conflicting exec types;
     * otherwise the list is strictly sorted, grants under each key what the old one granted, and keeps
     * exec types. The result counts the entries merged away.
     */
    method MergeFile() returns (rc: int)
      requires AllSettled(entries)
      modifies this
      ensures AllSettled(entries) && SamePolicy(old(entries), entries)
      ensures rc >= 0 ==> StrictlySorted(entries) && rc + |entries| == |old(entries)|
      ensures rc < 0 ==> rc == -1
      ensures AllTypesNeedExec(old(entries)) ==> (rc == -1 <==> Conflict(old(entries)))
      ensures AllTypesNeedExec(old(entries)) && rc >= 0 ==> TypesKept(old(entries), entries)
      ensures |old(entries)| < 2 ==> entries == old(entries)
    {
      ghost var base := entries;
      if |entries| < 2 {
        SortPreserves(base, base);
        StrictMeansNoConflict(base);
        if AllTypesNeedExec(base) {
          PreservedTypes(base, base);
        }
        return 0;
      }
      entries := Qsort(entries);
      assert |multiset(entries)| == |multiset(base)|;
      MergingStarts(base, entries);
      var i, count := 0, 0;
      while i + 1 < |entries|
        invariant 0 <= count && Merging(base, entries, i, count)
        decreases |entries| - i
      {
        if FileComp(entries[i], entries[i + 1]) != 0 {
          AdvanceKeepsOrder(entries, i);
          i := i + 1;
          continue;
        }
        ZeroMeansSameKey(entries[i], entries[i + 1]);
        if !IsMergedXConsistent(entries[i].perms, entries[i + 1].perms) {
          MergingFails(base, entries, i, count);
          return -1;
        }
        MergingFolds(base, entries, i, count);
        entries := Folded(entries, i);
        count := count + 1;
      }
      MergingEnds(base, entries, i, count);
      return count;
    }
  }
}
