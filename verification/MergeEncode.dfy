/** Merging rules and then encoding them grants, audits and refuses what encoding every rule would. */
module MergeEncode {
  import opened Prefixes
  import opened RuleOrder
  import opened RuleMerge
  import opened RuleEncode

  /** Some rule, with the permissions given for it, has the property. */
  ghost predicate Some(live: set<PolicyRule>, perms: map<PolicyRule, Perms>, has: (Key, Perms) -> bool) {
    exists r :: r in live && r in perms && has(r.key, perms[r])
  }

  /** Having it means having it for one of the permissions. */
  ghost predicate Additive(has: (Key, Perms) -> bool) {
    forall k, perms :: has(k, perms) <==> exists c :: c in perms && has(k, {c})
  }

  /** The state merging leaves: the one in MergeRuleT's contract. */
  ghost predicate AfterMerging(rules: seq<PolicyRule>, live: set<PolicyRule>, granted: map<PolicyRule, Perms>)
    reads rules
  {
    && MergedFrom(rules, live, granted) && Live(rules) <= live
    && (forall r :: r in live ==> r in rules && r in granted)
  }

  /** The rule that stands for one live before. */
  ghost function Survivor(rules: seq<PolicyRule>, live: set<PolicyRule>, granted: map<PolicyRule, Perms>,
                          r: PolicyRule): (s: PolicyRule)
    requires AfterMerging(rules, live, granted) && r in live
    reads rules
    ensures s in Live(rules) && s.key == r.key
  {
    if r.deleted then r.removedBy else r
  }

  lemma MergingKeeps(rules: seq<PolicyRule>, live: set<PolicyRule>, granted: map<PolicyRule, Perms>,
                     has: (Key, Perms) -> bool)
    requires AfterMerging(rules, live, granted) && Additive(has)
    ensures Some(Live(rules), Granted(rules), has) <==> Some(live, granted, has)
  {
    if Some(Live(rules), Granted(rules), has) {
      var r :| r in Live(rules) && r in Granted(rules) && has(r.key, Granted(rules)[r]);
      var c :| c in r.perms && has(r.key, {c});
      assert WasGranted(live, granted, r.key, c);
      var s :| s in live && s in granted && s.key == r.key && c in granted[s];
      assert has(s.key, granted[s]);
    }
    if Some(live, granted, has) {
      var s :| s in live && s in granted && has(s.key, granted[s]);
      var c :| c in granted[s] && has(s.key, {c});
      var r := Survivor(rules, live, granted, s);
      assert WasGranted(live, granted, r.key, c);
      assert c in r.perms;
      assert has(r.key, Granted(rules)[r]);
    }
  }

  /** A rule of this priority and mode grants m at the pattern. */
  predicate GrantsAt(netClass: nat, priority: int, mode: RuleMode, pattern: seq<string>, m: int, k: Key, perms: Perms)
    requires netClass < 256
  {
    && k.prefix.priority == priority && k.prefix.mode == mode
    && Grants(Targets(netClass, k.body), k.body, perms, pattern, m)
  }

  predicate AuditsAt(netClass: nat, priority: int, mode: RuleMode, pattern: seq<string>, m: int, k: Key, perms: Perms)
    requires netClass < 256
  {
    && k.prefix.priority == priority && k.prefix.mode == mode && IsAudited(k)
    && Audits(Targets(netClass, k.body), k.body, perms, pattern, m)
  }

  lemma Element(s: Perms) returns (c: int)
    requires s != {}
    ensures c in s
  {
    assert (forall d: int :: d !in s) ==> s == {};
    c :| c in s;
  }

  lemma UnixGlobFailsByBits(b: Body, perms: Perms)
    requires b.Unix?
    ensures UnixGlobFails(b, perms) <==> exists c :: c in perms && UnixGlobFails(b, {c})
  {
    forall c | c in perms
      ensures c in Rest(b, perms) <==> Rest(b, {c}) != {}
      ensures c in PEER_NET_PERMS <==> {c} * PEER_NET_PERMS != {}
    {
      assert c in Rest(b, perms) <==> c in Rest(b, {c});
      assert c in PEER_NET_PERMS ==> c in {c} * PEER_NET_PERMS;
    }
    if BIND in perms {
      assert BIND in {BIND};
    }
    if Rest(b, perms) != {} {
      var c := Element(Rest(b, perms));
      assert c in perms && Rest(b, {c}) != {};
    }
    if perms * PEER_NET_PERMS != {} {
      var c := Element(perms * PEER_NET_PERMS);
      assert c in perms && {c} * PEER_NET_PERMS != {};
    }
  }

  /** A pattern is refused for one of the permissions. */
  lemma TakenByBits(ts: seq<Target>, perms: Perms)
    ensures !AllTaken(ts, perms) <==> exists c :: c in perms && !AllTaken(ts, {c})
  {
    if !AllTaken(ts, perms) {
      var t :| t in ts && perms * t.bits != {} && !Taken(t);
      var c := Element(perms * t.bits);
      assert c in {c} * t.bits && !AllTaken(ts, {c});
    }
    if c :| c in perms && !AllTaken(ts, {c}) {
      var t :| t in ts && {c} * t.bits != {} && !Taken(t);
      var d := Element({c} * t.bits);
      assert d in perms * t.bits;
    }
  }

  predicate Fails(netClass: nat, k: Key, perms: Perms)
    requires netClass < 256
  {
    if k.body.Unix? then UnixFails(netClass, k.body, perms) else DbusFails(k.body, perms)
  }

  ghost function Failing(netClass: nat): (Key, Perms) -> bool
    requires netClass < 256
  {
    (k, perms) => Fails(netClass, k, perms)
  }

  /** The failures that depend on the permissions. */
  predicate FailsByBits(netClass: nat, k: Key, perms: Perms)
    requires netClass < 256
  {
    (k.body.Unix? && UnixGlobFails(k.body, perms)) || !AllTaken(Targets(netClass, k.body), perms)
  }

  lemma FailsInParts(netClass: nat, k: Key, perms: Perms)
    requires netClass < 256
    ensures Fails(netClass, k, perms) <==>
      FailsByBits(netClass, k, perms) || (k.body.Dbus? && DbusGlobFails(k.body))
  {
  }

  lemma FailuresAdd(netClass: nat, k: Key, perms: Perms)
    requires netClass < 256
    ensures FailsByBits(netClass, k, perms) <==> exists c :: c in perms && FailsByBits(netClass, k, {c})
  {
    TakenByBits(Targets(netClass, k.body), perms);
    if k.body.Unix? {
      UnixGlobFailsByBits(k.body, perms);
    }
  }

  /** A property that a rule has through one of its permissions, or whatever its permissions are. */
  lemma MergingKeepsEither(rules: seq<PolicyRule>, live: set<PolicyRule>, granted: map<PolicyRule, Perms>,
                           has: (Key, Perms) -> bool, byBits: (Key, Perms) -> bool, always: Key -> bool)
    requires AfterMerging(rules, live, granted) && Additive(byBits)
    requires forall k, perms :: has(k, perms) <==> byBits(k, perms) || always(k)
    ensures Some(Live(rules), Granted(rules), has) <==> Some(live, granted, has)
  {
    MergingKeeps(rules, live, granted, byBits);
    if Some(Live(rules), Granted(rules), has) {
      var r :| r in Live(rules) && r in Granted(rules) && has(r.key, Granted(rules)[r]);
      if byBits(r.key, Granted(rules)[r]) {
        var s :| s in live && s in granted && byBits(s.key, granted[s]);
        assert has(s.key, granted[s]);
      } else {
        assert has(r.key, granted[r]);
      }
    }
    if Some(live, granted, has) {
      var r :| r in live && r in granted && has(r.key, granted[r]);
      if byBits(r.key, granted[r]) {
        var s :| s in Live(rules) && s in Granted(rules) && byBits(s.key, Granted(rules)[s]);
        assert has(s.key, Granted(rules)[s]);
      } else {
        var s := Survivor(rules, live, granted, r);
        assert has(s.key, Granted(rules)[s]);
      }
    }
  }

  lemma MergingKeepsFailures(rules: seq<PolicyRule>, live: set<PolicyRule>, granted: map<PolicyRule, Perms>,
                             netClass: nat)
    requires AfterMerging(rules, live, granted) && netClass < 256
    ensures Some(Live(rules), Granted(rules), Failing(netClass)) <==> Some(live, granted, Failing(netClass))
  {
    var byBits := (k: Key, perms: Perms) => FailsByBits(netClass, k, perms);
    var always := (k: Key) => k.body.Dbus? && DbusGlobFails(k.body);
    forall k: Key, perms ensures byBits(k, perms) <==> exists c :: c in perms && byBits(k, {c}) {
      FailuresAdd(netClass, k, perms);
    }
    forall k: Key, perms ensures Failing(netClass)(k, perms) <==> byBits(k, perms) || always(k) {
      FailsInParts(netClass, k, perms);
    }
    MergingKeepsEither(rules, live, granted, Failing(netClass), byBits, always);
  }

  lemma MergingKeepsGrants(rules: seq<PolicyRule>, live: set<PolicyRule>, granted: map<PolicyRule, Perms>,
                           netClass: nat, priority: int, mode: RuleMode, pattern: seq<string>, m: int)
    requires AfterMerging(rules, live, granted) && netClass < 256
    ensures
      var grants := Grant(netClass, priority, mode, pattern, m);
      Some(Live(rules), Granted(rules), grants) <==> Some(live, granted, grants)
  {
    var grants := Grant(netClass, priority, mode, pattern, m);
    forall k: Key, perms ensures grants(k, perms) <==> exists c :: c in perms && grants(k, {c}) {
      GrantsByBits(Targets(netClass, k.body), k.body, perms, pattern, m);
    }
    MergingKeeps(rules, live, granted, grants);
  }

  lemma MergingKeepsAudits(rules: seq<PolicyRule>, live: set<PolicyRule>, granted: map<PolicyRule, Perms>,
                           netClass: nat, priority: int, mode: RuleMode, pattern: seq<string>, m: int)
    requires AfterMerging(rules, live, granted) && netClass < 256
    ensures
      var audits := Audit(netClass, priority, mode, pattern, m);
      Some(Live(rules), Granted(rules), audits) <==> Some(live, granted, audits)
  {
    var audits := Audit(netClass, priority, mode, pattern, m);
    forall k: Key, perms ensures audits(k, perms) <==> exists c :: c in perms && audits(k, {c}) {
      AuditsByBits(Targets(netClass, k.body), k.body, perms, pattern, m);
    }
    MergingKeeps(rules, live, granted, audits);
  }

  // ----- What the back end is handed -----

  ghost predicate SendsAt(out: seq<Added>, priority: int, mode: RuleMode, pattern: seq<string>, m: int) {
    exists r :: r in out && r.priority == priority && r.mode == mode && r.pattern == pattern && m in r.perms
  }

  ghost predicate SendsAuditAt(out: seq<Added>, priority: int, mode: RuleMode, pattern: seq<string>, m: int) {
    exists r :: r in out && r.priority == priority && r.mode == mode && r.pattern == pattern && m in r.audit
  }

  ghost function Grant(netClass: nat, priority: int, mode: RuleMode, pattern: seq<string>, m: int): (Key, Perms) -> bool
    requires netClass < 256
  {
    (k, perms) => GrantsAt(netClass, priority, mode, pattern, m, k, perms)
  }

  ghost function Audit(netClass: nat, priority: int, mode: RuleMode, pattern: seq<string>, m: int): (Key, Perms) -> bool
    requires netClass < 256
  {
    (k, perms) => AuditsAt(netClass, priority, mode, pattern, m, k, perms)
  }

  /** One of the first `n` rules is live and has the property. */
  ghost predicate OneOfFirst(rules: seq<PolicyRule>, n: nat, has: (Key, Perms) -> bool)
    requires n <= |rules|
    reads rules
  {
    exists i :: 0 <= i < n && !rules[i].deleted && has(rules[i].key, rules[i].perms)
  }

  lemma OneOfAll(rules: seq<PolicyRule>, has: (Key, Perms) -> bool)
    ensures OneOfFirst(rules, |rules|, has) <==> Some(Live(rules), Granted(rules), has)
  {
    if i :| 0 <= i < |rules| && !rules[i].deleted && has(rules[i].key, rules[i].perms) {
      assert rules[i] in Live(rules) && rules[i] in Granted(rules);
    }
    if r :| r in Live(rules) && r in Granted(rules) && has(r.key, Granted(rules)[r]) {
      var i :| 0 <= i < |rules| && rules[i] == r;
    }
  }

  lemma OneMore(rules: seq<PolicyRule>, n: nat, has: (Key, Perms) -> bool)
    requires n < |rules|
    ensures OneOfFirst(rules, n + 1, has) <==>
      OneOfFirst(rules, n, has) || (!rules[n].deleted && has(rules[n].key, rules[n].perms))
  {
  }

  /** What was handed over is what the first `n` rules grant and audit. */
  ghost predicate Hands(out: seq<Added>, rules: seq<PolicyRule>, n: nat, netClass: nat)
    requires n <= |rules| && netClass < 256
    reads rules
  {
    && (forall priority, mode, pattern, m ::
          SendsAt(out, priority, mode, pattern, m) <==>
          OneOfFirst(rules, n, Grant(netClass, priority, mode, pattern, m)))
    && (forall priority, mode, pattern, m ::
          SendsAuditAt(out, priority, mode, pattern, m) <==>
          OneOfFirst(rules, n, Audit(netClass, priority, mode, pattern, m)))
  }

  lemma CoversAt(added: seq<Added>, netClass: nat, k: Key, perms: Perms, priority: int, mode: RuleMode,
                 pattern: seq<string>, m: int)
    requires netClass < 256 && Covers(added, Targets(netClass, k.body), k, perms)
    ensures SendsAt(added, priority, mode, pattern, m) <==> GrantsAt(netClass, priority, mode, pattern, m, k, perms)
    ensures SendsAuditAt(added, priority, mode, pattern, m) <==>
      AuditsAt(netClass, priority, mode, pattern, m, k, perms)
  {
    if r :| r in added && r.priority == priority && r.mode == mode && r.pattern == pattern && m in r.perms {
      assert Sends(added, pattern, m);
    }
    if GrantsAt(netClass, priority, mode, pattern, m, k, perms) {
      assert Sends(added, pattern, m);
    }
    if r :| r in added && r.priority == priority && r.mode == mode && r.pattern == pattern && m in r.audit {
      assert SendsAudit(added, pattern, m);
    }
    if AuditsAt(netClass, priority, mode, pattern, m, k, perms) {
      assert SendsAudit(added, pattern, m);
    }
  }

  lemma SendsBoth(out: seq<Added>, added: seq<Added>, priority: int, mode: RuleMode, pattern: seq<string>, m: int)
    ensures SendsAt(out + added, priority, mode, pattern, m) <==>
      SendsAt(out, priority, mode, pattern, m) || SendsAt(added, priority, mode, pattern, m)
    ensures SendsAuditAt(out + added, priority, mode, pattern, m) <==>
      SendsAuditAt(out, priority, mode, pattern, m) || SendsAuditAt(added, priority, mode, pattern, m)
  {
  }

  lemma HandsNext(out: seq<Added>, added: seq<Added>, rules: seq<PolicyRule>, n: nat, netClass: nat)
    requires n < |rules| && netClass < 256 && Hands(out, rules, n, netClass)
    requires if rules[n].deleted then added == []
             else Covers(added, Targets(netClass, rules[n].key.body), rules[n].key, rules[n].perms)
    ensures Hands(out + added, rules, n + 1, netClass)
  {
    forall priority, mode, pattern, m
      ensures SendsAt(out + added, priority, mode, pattern, m) <==>
        OneOfFirst(rules, n + 1, Grant(netClass, priority, mode, pattern, m))
      ensures SendsAuditAt(out + added, priority, mode, pattern, m) <==>
        OneOfFirst(rules, n + 1, Audit(netClass, priority, mode, pattern, m))
    {
      SendsBoth(out, added, priority, mode, pattern, m);
      OneMore(rules, n, Grant(netClass, priority, mode, pattern, m));
      OneMore(rules, n, Audit(netClass, priority, mode, pattern, m));
      if !rules[n].deleted {
        CoversAt(added, netClass, rules[n].key, rules[n].perms, priority, mode, pattern, m);
      }
    }
  }

  lemma HandsNothing(rules: seq<PolicyRule>, netClass: nat)
    requires netClass < 256
    ensures Hands([], rules, 0, netClass)
  {
  }

  method EncodeRule(k: Key, perms: Perms, netClass: nat) returns (ok: bool, added: seq<Added>)
    requires netClass < 256
    ensures ok <==> !Fails(netClass, k, perms)
    ensures ok ==> Covers(added, Targets(netClass, k.body), k, perms)
  {
    if k.body.Unix? {
      ok, added := GenUnix(k, perms, netClass);
    } else {
      ok, added := GenDbus(k, perms, netClass);
    }
  }

  lemma OneFails(rules: seq<PolicyRule>, i: nat, netClass: nat)
    requires netClass < 256 && i < |rules| && !rules[i].deleted && Fails(netClass, rules[i].key, rules[i].perms)
    ensures Some(Live(rules), Granted(rules), Failing(netClass))
  {
    assert OneOfFirst(rules, |rules|, Failing(netClass));
    OneOfAll(rules, Failing(netClass));
  }

  /** Encodes the live rules one after the other; the first that fails ends it. */
  method EncodeRules(rules: seq<PolicyRule>, netClass: nat) returns (ok: bool, out: seq<Added>)
    requires netClass < 256
    ensures ok <==> !Some(Live(rules), Granted(rules), Failing(netClass))
    ensures ok ==> Hands(out, rules, |rules|, netClass)
  {
    out := [];
    HandsNothing(rules, netClass);
    for i := 0 to |rules|
      invariant !OneOfFirst(rules, i, Failing(netClass)) && Hands(out, rules, i, netClass)
    {
      var rule := rules[i];
      var added := [];
      if !rule.deleted {
        ok, added := EncodeRule(rule.key, rule.perms, netClass);
        if !ok {
          OneFails(rules, i, netClass);
          return;
        }
      }
      HandsNext(out, added, rules, i, netClass);
      OneMore(rules, i, Failing(netClass));
      out := out + added;
    }
    OneOfAll(rules, Failing(netClass));
    ok := true;
  }

  /** Two lots that grant and audit the same bits at the same patterns, for every priority and mode. */
  ghost predicate SameHanded(a: seq<Added>, b: seq<Added>) {
    && (forall priority, mode, pattern, m ::
          SendsAt(a, priority, mode, pattern, m) <==> SendsAt(b, priority, mode, pattern, m))
    && (forall priority, mode, pattern, m ::
          SendsAuditAt(a, priority, mode, pattern, m) <==> SendsAuditAt(b, priority, mode, pattern, m))
  }

  /** What was handed over for the rules as they stand, said of the permissions they have. */
  lemma HandedFor(out: seq<Added>, rules: seq<PolicyRule>, netClass: nat)
    requires netClass < 256 && Hands(out, rules, |rules|, netClass)
    ensures HandsFor(out, Live(rules), Granted(rules), netClass)
  {
    forall priority, mode, pattern, m
      ensures SendsAt(out, priority, mode, pattern, m) <==>
        Some(Live(rules), Granted(rules), Grant(netClass, priority, mode, pattern, m))
      ensures SendsAuditAt(out, priority, mode, pattern, m) <==>
        Some(Live(rules), Granted(rules), Audit(netClass, priority, mode, pattern, m))
    {
      OneOfAll(rules, Grant(netClass, priority, mode, pattern, m));
      OneOfAll(rules, Audit(netClass, priority, mode, pattern, m));
    }
  }

  ghost predicate HandsFor(out: seq<Added>, live: set<PolicyRule>, granted: map<PolicyRule, Perms>, netClass: nat)
    requires netClass < 256
  {
    && (forall priority, mode, pattern, m ::
          SendsAt(out, priority, mode, pattern, m) <==>
          Some(live, granted, Grant(netClass, priority, mode, pattern, m)))
    && (forall priority, mode, pattern, m ::
          SendsAuditAt(out, priority, mode, pattern, m) <==>
          Some(live, granted, Audit(netClass, priority, mode, pattern, m)))
  }

  lemma MergingKeepsHanded(rules: seq<PolicyRule>, live: set<PolicyRule>, granted: map<PolicyRule, Perms>,
                           netClass: nat, before: seq<Added>, after: seq<Added>)
    requires AfterMerging(rules, live, granted) && netClass < 256
    requires HandsFor(before, live, granted, netClass) && Hands(after, rules, |rules|, netClass)
    ensures SameHanded(before, after)
  {
    HandedFor(after, rules, netClass);
    forall priority, mode, pattern, m
      ensures SendsAt(before, priority, mode, pattern, m) <==> SendsAt(after, priority, mode, pattern, m)
      ensures SendsAuditAt(before, priority, mode, pattern, m) <==> SendsAuditAt(after, priority, mode, pattern, m)
    {
      MergingKeepsGrants(rules, live, granted, netClass, priority, mode, pattern, m);
      MergingKeepsAudits(rules, live, granted, netClass, priority, mode, pattern, m);
    }
  }

  /** Encoding the rules, and merging them and encoding what is left: both fail
      or neither does, and the back end is handed the same grants and audits. */
  method MergeThenCompare(rules: seq<PolicyRule>, netClass: nat)
    returns (ok: bool, before: seq<Added>, after: seq<Added>)
    requires Distinct(rules) && netClass < 256
    modifies rules
    ensures ok <==> !old(Some(Live(rules), Granted(rules), Failing(netClass)))
    ensures ok <==> !Some(Live(rules), Granted(rules), Failing(netClass))
    ensures ok ==> old(Hands(before, rules, |rules|, netClass)) && Hands(after, rules, |rules|, netClass)
    ensures ok ==> SameHanded(before, after)
  {
    ghost var live, granted := Live(rules), Granted(rules);
    ok, before := EncodeRules(rules, netClass);
    if ok { HandedFor(before, rules, netClass); }
    var _ := MergeRuleT(rules);
    MergingKeepsFailures(rules, live, granted, netClass);
    var ok';
    ok', after := EncodeRules(rules, netClass);
    if ok { MergingKeepsHanded(rules, live, granted, netClass, before, after); }
  }
}
