/** The hand-written comparator that sorts file entries before merging. */
module FileOrder {
  import opened Ordering
  import opened Prefixes

  /** Strings compared from their last character; a proper suffix comes first. */
  function Backwards(a: CString, b: CString): int {
    if |a| == 0 || |b| == 0 then
      if |a| < |b| then -1 else if |a| > |b| then 1 else 0
    else if a[|a| - 1] != b[|b| - 1] then
      a[|a| - 1] - b[|b| - 1]
    else
      Backwards(a[..|a| - 1], b[..|b| - 1])
  }

  /** The character at an index of a C string, its terminator included. */
  function CharAt(a: CString, i: nat): int
    requires i <= |a|
  {
    if i == |a| then 0 else a[i]
  }

  /** The characters before index i, where index |a| holds the terminator. */
  function Before(a: CString, i: int): CString
    requires 0 <= i <= |a| + 1
  {
    if i == |a| + 1 then a else a[..i]
  }

  method Strrcmp(a: CString, b: CString) returns (r: int)
    ensures r == Backwards(a, b)
  {
    var ta, tb := |a|, |b|;
    while ta >= 0 && tb >= 0
      invariant -1 <= ta <= |a| && -1 <= tb <= |b| && |a| - ta == |b| - tb
      invariant Backwards(a, b) == Backwards(Before(a, ta + 1), Before(b, tb + 1))
    {
      var res := CharAt(a, ta) - CharAt(b, tb);
      if res != 0 {
        return res;
      }
      assert ta < |a| ==> a[..ta + 1][..ta] == a[..ta] && b[..tb + 1][..tb] == b[..tb];
      assert ta == |a| ==> a[..ta] == a && b[..tb] == b;
      ta, tb := ta - 1, tb - 1;
    }
    if ta < tb {
      return -1;
    }
    if ta > tb {
      return 1;
    }
    return 0;
  }

  function LinkComp(x: Entry, y: Entry): int {
    match (x.link, y.link)
    case (Some(a), Some(b)) => Backwards(a, b)
    case (Some(_), None) => 1
    case (None, Some(_)) => -1
    case (None, None) => 0
  }

  function SubsetComp(x: Entry, y: Entry): int {
    if x.link.None? || x.subset == y.subset then 0 else if x.subset then -1 else 1
  }

  function ModeComp(x: Entry, y: Entry): int {
    if x.mode == y.mode then 0 else if ModeRank(x.mode) < ModeRank(y.mode) then -1 else 1
  }

  function AuditComp(x: Entry, y: Entry): int {
    if AuditEq(x.audit, y.audit) then 0 else if AuditRank(x.audit) < AuditRank(y.audit) then -1 else 1
  }

  /** Negative, zero or positive as x sorts before, with or after y; higher priorities come first. */
  function FileComp(x: Entry, y: Entry): int {
    Then(LinkComp(x, y),
      Then(SubsetComp(x, y),
        Then(ModeComp(x, y),
          Then(AuditComp(x, y),
            Then(y.priority - x.priority, Backwards(x.name, y.name))))))
  }

  /** Everything but permissions and auditing agrees; the subset flag only matters on a link pair. */
  predicate SameButAudit(x: Entry, y: Entry) {
    && x.link == y.link && (x.link.Some? ==> x.subset == y.subset)
    && x.mode == y.mode && x.priority == y.priority && x.name == y.name
  }

  predicate SameKey(x: Entry, y: Entry) {
    SameButAudit(x, y) && x.audit == y.audit
  }

  lemma {:induction false} BackwardsZero(a: CString, b: CString)
    ensures Backwards(a, b) == 0 <==> a == b
  {
    if |a| > 0 && |b| > 0 {
      var k, l := |a| - 1, |b| - 1;
      BackwardsZero(a[..k], b[..l]);
      assert a == a[..k] + [a[k]] && b == b[..l] + [b[l]];
    }
  }

  lemma {:induction false} BackwardsFlips(a: CString, b: CString)
    ensures Backwards(b, a) == -Backwards(a, b)
  {
    if |a| > 0 && |b| > 0 {
      BackwardsFlips(a[..|a| - 1], b[..|b| - 1]);
    }
  }

  lemma {:induction false} BackwardsChains(a: CString, b: CString, c: CString)
    ensures Chains(Backwards(a, b), Backwards(b, c), Backwards(a, c))
  {
    if |a| > 0 && |b| > 0 && |c| > 0 {
      BackwardsChains(a[..|a| - 1], b[..|b| - 1], c[..|c| - 1]);
    }
  }

  lemma LinkChains(x: Entry, y: Entry, z: Entry)
    ensures Chains(LinkComp(x, y), LinkComp(y, z), LinkComp(x, z))
  {
    if x.link.Some? && y.link.Some? && z.link.Some? {
      BackwardsChains(x.link.value, y.link.value, z.link.value);
    }
  }

  /** Link name and subset flag together. */
  function PairComp(x: Entry, y: Entry): int {
    Then(LinkComp(x, y), SubsetComp(x, y))
  }

  lemma PairZero(x: Entry, y: Entry)
    ensures PairComp(x, y) == 0 <==> x.link == y.link && (x.link.Some? ==> x.subset == y.subset)
  {
    if x.link.Some? && y.link.Some? {
      BackwardsZero(x.link.value, y.link.value);
    }
  }

  lemma PairFlips(x: Entry, y: Entry)
    ensures PairComp(y, x) == -PairComp(x, y)
  {
    if x.link.Some? && y.link.Some? {
      BackwardsFlips(x.link.value, y.link.value);
    }
  }

  lemma PairChains(x: Entry, y: Entry, z: Entry)
    ensures Chains(PairComp(x, y), PairComp(y, z), PairComp(x, z))
  {
    LinkChains(x, y, z);
    PairZero(x, y);
    PairZero(y, z);
    PairZero(x, z);
  }

  /** Mode and audit together: on settled entries the loose audit equality is plain equality. */
  function QualifierComp(x: Entry, y: Entry): int {
    Then(ModeComp(x, y), AuditComp(x, y))
  }

  /** One number per mode and audit, in the order the comparator gives them. */
  function QualifierRank(e: Entry): int {
    4 * ModeRank(e.mode) + AuditRank(e.audit)
  }

  lemma QualifierRanks(x: Entry, y: Entry)
    requires Settled(x) && Settled(y)
    ensures QualifierComp(x, y) == 0 <==> x.mode == y.mode && x.audit == y.audit
    ensures QualifierComp(x, y) == 0 <==> QualifierRank(x) == QualifierRank(y)
    ensures QualifierComp(x, y) < 0 <==> QualifierRank(x) < QualifierRank(y)
    ensures QualifierComp(y, x) == -QualifierComp(x, y)
  {}

  function RestComp(x: Entry, y: Entry): int {
    Then(y.priority - x.priority, Backwards(x.name, y.name))
  }

  lemma InThreeParts(x: Entry, y: Entry)
    ensures FileComp(x, y) == Then(PairComp(x, y), Then(QualifierComp(x, y), RestComp(x, y)))
  {}

  /** Zero means equal keys on settled entries, and the two directions of a comparison agree. */
  lemma ZeroMeansSameKey(x: Entry, y: Entry)
    requires Settled(x) && Settled(y)
    ensures FileComp(x, y) == 0 <==> SameKey(x, y)
    ensures FileComp(y, x) == -FileComp(x, y)
  {
    InThreeParts(x, y);
    InThreeParts(y, x);
    PairZero(x, y);
    PairFlips(x, y);
    QualifierRanks(x, y);
    BackwardsZero(x.name, y.name);
    BackwardsFlips(x.name, y.name);
  }

  /** Settled entries are totally preordered. */
  lemma ComparisonsChain(x: Entry, y: Entry, z: Entry)
    requires Settled(x) && Settled(y) && Settled(z)
    ensures Chains(FileComp(x, y), FileComp(y, z), FileComp(x, z))
  {
    InThreeParts(x, y);
    InThreeParts(y, z);
    InThreeParts(x, z);
    PairChains(x, y, z);
    QualifierRanks(x, y);
    QualifierRanks(y, z);
    QualifierRanks(x, z);
    BackwardsChains(x.name, y.name, z.name);
    ThenChains(y.priority - x.priority, z.priority - y.priority, z.priority - x.priority,
      Backwards(x.name, y.name), Backwards(y.name, z.name), Backwards(x.name, z.name));
    ThenChains(QualifierComp(x, y), QualifierComp(y, z), QualifierComp(x, z),
      RestComp(x, y), RestComp(y, z), RestComp(x, z));
  }

  /** On any entries at all, zero means equal keys, or an implied audit compared with a forced one. */
  lemma ZeroExactly(x: Entry, y: Entry)
    ensures FileComp(x, y) == 0 <==> SameButAudit(x, y) && AuditEq(x.audit, y.audit)
  {
    InThreeParts(x, y);
    PairZero(x, y);
    BackwardsZero(x.name, y.name);
  }

  /** The comparator contradicts itself exactly on entries that differ by an implied and a forced audit. */
  lemma SelfContradictionExactly(x: Entry, y: Entry)
    ensures (FileComp(x, y) == 0 <==> FileComp(y, x) == 0) <==>
      !(SameButAudit(x, y) && (x.audit, y.audit) in {(Implied, Force), (Force, Implied)})
  {
    ZeroExactly(x, y);
    ZeroExactly(y, x);
  }
}
