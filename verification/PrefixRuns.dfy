/** What a whole run of nested prefixes, the innermost first, leaves on a file entry. */
module PrefixRuns {
  import opened Prefixes

  /** Prefixes a rule in order; None when one of them clashes with what is already there. */
  function Run(e: Entry, ps: seq<Prefix>): Option<Entry> {
    if ps == [] then
      Some(e)
    else
      var before := Run(e, ps[..|ps| - 1]);
      var p := ps[|ps| - 1];
      if before == None || ModeClash(before.value, p) || AuditClash(before.value, p) then None
      else Some(Prefixed(before.value, p))
  }

  predicate AllFromParser(ps: seq<Prefix>) {
    forall i :: 0 <= i < |ps| ==> FromParser(ps[i])
  }

  /** The invariant the comparator relies on holds after every run of prefixes that succeeds. */
  lemma {:induction false} RunsStaySettled(e: Entry, ps: seq<Prefix>)
    requires Settled(e) && AllFromParser(ps) && Run(e, ps).Some?
    ensures Settled(Run(e, ps).value)
  {
    if ps != [] {
      RunsStaySettled(e, ps[..|ps| - 1]);
    }
  }

  predicate AllRaw(ps: seq<Prefix>) {
    forall i :: 0 <= i < |ps| ==> Raw(ps[i])
  }

  predicate Fresh(e: Entry) {
    e.mode == NoMode && e.audit == Unaudited
  }

  predicate ModesAgree(ps: seq<Prefix>) {
    forall i, j :: 0 <= i < j < |ps| && ps[i].mode != NoMode && ps[j].mode != NoMode ==>
      ps[i].mode == ps[j].mode
  }

  predicate SomeMode(ps: seq<Prefix>, m: RuleMode) {
    exists i :: 0 <= i < |ps| && ps[i].mode == m
  }

  predicate SomeForce(ps: seq<Prefix>) {
    exists i :: 0 <= i < |ps| && ps[i].audit == Force
  }

  /** An audit keyword stands on the outermost deny or outside of it. */
  predicate ForceAfterDeny(ps: seq<Prefix>) {
    exists i :: 0 <= i < |ps| && ps[i].audit == Force && forall j :: i < j < |ps| ==> ps[j].mode != Deny
  }

  predicate OneDeny(ps: seq<Prefix>) {
    forall i, j :: 0 <= i < j < |ps| ==> !(ps[i].mode == Deny && ps[j].mode == Deny)
  }

  /** The audit keyword survives on a deny rule. */
  predicate AuditKept(ps: seq<Prefix>) {
    ForceAfterDeny(ps) || (OneDeny(ps) && SomeForce(ps))
  }

  /** The encoders pass an audit mask for Force and Implied alike; on a deny rule the mask silences. */
  predicate Audited(e: Entry) {
    AuditEq(e.audit, Force) <==> e.mode != Deny
  }

  ghost predicate Described(e: Entry, ps: seq<Prefix>) {
    && (forall i :: 0 <= i < |ps| && ps[i].mode != NoMode ==> e.mode == ps[i].mode)
    && (e.mode != NoMode ==> SomeMode(ps, e.mode))
    && (e.mode != Deny ==> e.audit == if SomeForce(ps) then Force else Unaudited)
    && (e.mode == Deny ==> e.audit == if AuditKept(ps) then Unaudited else Implied)
  }

  lemma SomeForceGrows(ps: seq<Prefix>, p: Prefix)
    ensures SomeForce(ps + [p]) <==> SomeForce(ps) || p.audit == Force
  {
    var all := ps + [p];
    assert all[|ps|] == p;
    if i :| 0 <= i < |ps| && ps[i].audit == Force {
      assert all[i].audit == Force;
    }
  }

  lemma SomeModeGrows(ps: seq<Prefix>, p: Prefix, m: RuleMode)
    ensures SomeMode(ps + [p], m) <==> SomeMode(ps, m) || p.mode == m
  {
    var all := ps + [p];
    assert all[|ps|] == p;
    if i :| 0 <= i < |ps| && ps[i].mode == m {
      assert all[i].mode == m;
    }
  }

  lemma ForceAfterDenyGrows(ps: seq<Prefix>, p: Prefix)
    ensures ForceAfterDeny(ps + [p]) <==> p.audit == Force || (p.mode != Deny && ForceAfterDeny(ps))
  {
    var all := ps + [p];
    assert all[|ps|] == p;
    assert forall j :: 0 <= j < |ps| ==> all[j] == ps[j];
    if p.mode != Deny && ForceAfterDeny(ps) {
      var i :| 0 <= i < |ps| && ps[i].audit == Force && forall j :: i < j < |ps| ==> ps[j].mode != Deny;
      assert all[i].audit == Force;
    }
    if ForceAfterDeny(all) && p.audit != Force {
      var i :| 0 <= i < |all| && all[i].audit == Force && forall j :: i < j < |all| ==> all[j].mode != Deny;
      assert i < |ps| && ps[i].audit == Force;
      assert forall j :: i < j < |ps| ==> all[j].mode != Deny;
    }
  }

  lemma OneDenyGrows(ps: seq<Prefix>, p: Prefix)
    ensures OneDeny(ps + [p]) <==> OneDeny(ps) && (p.mode == Deny ==> !SomeMode(ps, Deny))
  {
    var all := ps + [p];
    assert all[|ps|] == p;
    if OneDeny(all) {
      forall i, j | 0 <= i < j < |ps| ensures !(ps[i].mode == Deny && ps[j].mode == Deny) {
        assert all[i] == ps[i] && all[j] == ps[j];
      }
    }
    if p.mode == Deny && SomeMode(ps, Deny) {
      var i :| 0 <= i < |ps| && ps[i].mode == Deny;
      assert all[i].mode == Deny && all[|ps|].mode == Deny;
    }
  }

  lemma KeptOnlyIfForced(ps: seq<Prefix>)
    ensures ForceAfterDeny(ps) ==> SomeForce(ps)
    ensures !SomeMode(ps, Deny) && SomeForce(ps) ==> ForceAfterDeny(ps)
  {}

  lemma StepDescribed(before: Entry, ps: seq<Prefix>, p: Prefix)
    requires Described(before, ps) && Raw(p) && !ModeClash(before, p)
    ensures !AuditClash(before, p)
    ensures Described(Prefixed(before, p), ps + [p])
  {
    SomeForceGrows(ps, p);
    SomeModeGrows(ps, p, Prefixed(before, p).mode);
    ForceAfterDenyGrows(ps, p);
    OneDenyGrows(ps, p);
    KeptOnlyIfForced(ps);
    assert before.mode != Deny ==> !SomeMode(ps, Deny);
  }

  lemma ModesAgreeGrows(e: Entry, ps: seq<Prefix>, p: Prefix)
    requires Described(e, ps) && ModesAgree(ps)
    ensures ModesAgree(ps + [p]) <==> !ModeClash(e, p)
  {
    var all := ps + [p];
    assert all[|ps|] == p;
    if ModeClash(e, p) {
      var i :| 0 <= i < |ps| && ps[i].mode == e.mode;
      assert all[i].mode != all[|ps|].mode;
    }
  }

  /**
   * A run on a fresh rule succeeds exactly when no two prefixes name different modes. The rule then denies
   * iff some prefix denies. Auditing of other modes is "some prefix audits"; on a deny rule the keyword only
   * counts when it is not followed by a further deny, or when there is a single deny.
   */
  lemma {:induction false} RunIsDescribed(e: Entry, ps: seq<Prefix>)
    requires Fresh(e) && AllRaw(ps)
    ensures Run(e, ps).Some? <==> ModesAgree(ps)
    ensures Run(e, ps).Some? ==> Described(Run(e, ps).value, ps)
  {
    if ps != [] {
      var front, p := ps[..|ps| - 1], ps[|ps| - 1];
      assert ps == front + [p];
      RunIsDescribed(e, front);
      if Run(e, front).Some? {
        ModesAgreeGrows(Run(e, front).value, front, p);
        if !ModeClash(Run(e, front).value, p) {
          StepDescribed(Run(e, front).value, front, p);
        }
      } else {
        var i, j :| 0 <= i < j < |front| && front[i].mode != NoMode && front[j].mode != NoMode
                 && front[i].mode != front[j].mode;
        assert ps[i].mode != ps[j].mode;
      }
    }
  }

  /** Nested prefixes audit "if any audits" exactly when no deny silences the keyword again. */
  lemma AuditedIfAnyAudits(e: Entry, ps: seq<Prefix>)
    requires Fresh(e) && AllRaw(ps) && ModesAgree(ps)
    ensures Run(e, ps).Some?
    ensures (Audited(Run(e, ps).value) <==> SomeForce(ps)) <==>
      (SomeMode(ps, Deny) && SomeForce(ps) ==> AuditKept(ps))
  {
    RunIsDescribed(e, ps);
    KeptOnlyIfForced(ps);
    var f := Run(e, ps).value;
    assert f.mode == Deny <==> SomeMode(ps, Deny);
  }

  /** A deny block around an audited deny rule silences it. */
  lemma DenyBlockSilencesAuditDeny(e: Entry)
    requires Fresh(e)
    ensures
      var ps := [Prefix(0, Force, Deny, AnyOwner), Prefix(0, Unaudited, Deny, AnyOwner)];
      SomeForce(ps) && Run(e, ps).Some? && !Audited(Run(e, ps).value)
  {
    var inner, outer := Prefix(0, Force, Deny, AnyOwner), Prefix(0, Unaudited, Deny, AnyOwner);
    var ps := [inner, outer];
    assert ps[..1] == [inner];
    assert Run(e, [inner]) == Some(Prefixed(e, inner)) by {
      assert [inner][..0] == [];
    }
    assert ps[0].audit == Force;
  }
}
