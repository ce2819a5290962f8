/** Capability and network rules folded into four bit sets, and block prefixes applied to the folded form. */
module Aggregates {
  import opened Prefixes

  // A mask is the set of positions of its one bits.
  type Mask = set<int>

  datatype Quad = Quad(allow: Mask, audit: Mask, deny: Mask, quiet: Mask)

  const EMPTY := Quad({}, {}, {}, {})

  function Union(a: Quad, b: Quad): Quad {
    Quad(a.allow + b.allow, a.audit + b.audit, a.deny + b.deny, a.quiet + b.quiet)
  }

  /** The four sets a single rule contributes to. */
  function OfRule(p: Prefix, bits: Mask): Quad {
    if p.mode == Deny then
      Quad({}, {}, bits, if p.audit == Force then {} else bits)
    else
      Quad(bits, if p.audit == Force then bits else {}, {}, {})
  }

  datatype Rule = Rule(prefix: Prefix, bits: Mask)

  function Fold(rules: seq<Rule>): Quad {
    if rules == [] then EMPTY
    else Union(Fold(rules[..|rules| - 1]), OfRule(rules[|rules| - 1].prefix, rules[|rules| - 1].bits))
  }

  /** What is granted: a denied bit is denied whatever else allows it. */
  function Allowed(q: Quad): Mask {
    q.allow - q.deny
  }

  function AuditedAllows(q: Quad): Mask {
    Allowed(q) * q.audit
  }

  function QuietDenials(q: Quad): Mask {
    q.deny * q.quiet
  }

  /** The folded sets after a block prefix. */
  function UnderPrefix(q: Quad, p: Prefix): Quad {
    if q == EMPTY || (p.mode == NoMode && p.audit == Unaudited) then
      q
    else if p.mode == Deny then
      Quad({}, {}, Allowed(q) + q.deny,
        if p.audit == Force then {} else (Allowed(q) - q.audit) + QuietDenials(q))
    else
      Quad(Allowed(q), if p.audit == Force then Allowed(q) else AuditedAllows(q), q.deny,
        if p.audit == Force then {} else QuietDenials(q))
  }

  class Capabilities {
    var allow: Mask
    var audit: Mask
    var deny: Mask
    var quiet: Mask

    constructor ()
      ensures Sets() == EMPTY
    {
      allow, audit, deny, quiet := {}, {}, {}, {};
    }

    function Sets(): Quad
      reads this
    {
      Quad(allow, audit, deny, quiet)
    }

    /** False is the parser's refusal of an owner condition. */
    method AddCapabilities(p: Prefix, cap: Mask) returns (ok: bool)
      requires Raw(p)
      modifies this
      ensures ok <==> p.owner == AnyOwner
      ensures Sets() == if ok then Union(old(Sets()), OfRule(p, cap)) else old(Sets())
    {
      if p.owner != AnyOwner {
        return false;
      }
      if p.mode == Deny && AuditEq(p.audit, Force) {
        deny := deny + cap;
      } else if p.mode == Deny {
        deny := deny + cap;
        quiet := quiet + cap;
      } else {
        allow := allow + cap;
        if p.audit != Unaudited {
          audit := audit + cap;
        }
      }
      assert Sets() == Union(old(Sets()), OfRule(p, cap));
      return true;
    }

    /** Takes in the sets of another block. */
    method Merge(b: Capabilities)
      modifies this
      ensures Sets() == Union(old(Sets()), old(b.Sets()))
    {
      allow := allow + b.allow;
      audit := audit + b.audit;
      deny := deny + b.deny;
      quiet := quiet + b.quiet;
    }

    method AddPrefix(p: Prefix) returns (ok: bool)
      requires Raw(p)
      modifies this
      ensures ok <==> old(Sets()) == EMPTY || p.owner == AnyOwner
      ensures Sets() == if ok then UnderPrefix(old(Sets()), p) else old(Sets())
    {
      if allow + audit + deny + quiet == {} {
        assert Sets() == EMPTY;
        return true;
      }
      if p.owner != AnyOwner {
        return false;
      }
      if p.mode == NoMode && p.audit == Unaudited {
        return true;
      }
      var plainAllow := allow - audit - deny;
      var auditAllow := allow * audit - deny;
      var plainDeny := deny * quiet;
      var auditDeny := deny - quiet;
      allow, audit, deny, quiet := {}, {}, {}, {};
      if p.mode == Deny {
        deny := plainAllow + auditAllow + plainDeny + auditDeny;
        var audited := auditAllow + auditDeny;
        if p.audit == Force {
          audited := audited + (plainAllow + plainDeny);
        }
        quiet := (plainAllow + plainDeny) - audited;
      } else {
        allow := plainAllow + auditAllow;
        deny := plainDeny + auditDeny;
        if p.audit == Force {
          audit := allow;
          quiet := {};
        } else {
          audit := auditAllow;
          quiet := plainDeny;
        }
      }
      assert Sets() == UnderPrefix(old(Sets()), p);
      return true;
    }
  }

  const SOCK_PACKET := 10

  datatype Socket = Socket(family: int, kind: nat)

  function BitsOf(n: nat, position: int): Mask {
    if n == 0 then {} else (if n % 2 == 1 then {position} else {}) + BitsOf(n / 2, position + 1)
  }

  /** A kind above SOCK_PACKET is already a mask of types, a smaller one is the position of one bit. */
  function TypeBits(kind: nat): Mask {
    if kind > SOCK_PACKET then BitsOf(kind, 0) else {kind}
  }

  /** All the types a list of sockets names for one family. */
  function FamilyBits(sockets: seq<Socket>, f: int): Mask {
    if sockets == [] then {}
    else
      var last := sockets[|sockets| - 1];
      FamilyBits(sockets[..|sockets| - 1], f) + if last.family == f then TypeBits(last.kind) else {}
  }

  lemma GrowsByRule(q: Quad, p: Prefix, sockets: seq<Socket>, i: nat, f: int)
    requires i < |sockets|
    ensures
      var before, after := OfRule(p, FamilyBits(sockets[..i], f)), OfRule(p, FamilyBits(sockets[..i + 1], f));
      Union(q, after) ==
        if sockets[i].family != f then Union(q, before)
        else Union(Union(q, before), OfRule(p, TypeBits(sockets[i].kind)))
  {
    assert sockets[..i + 1][..i] == sockets[..i];
    var a, b := FamilyBits(sockets[..i], f), TypeBits(sockets[i].kind);
    var l, r := Union(Union(q, OfRule(p, a)), OfRule(p, b)), Union(q, OfRule(p, a + b));
    assert l.allow == r.allow && l.audit == r.audit && l.deny == r.deny && l.quiet == r.quiet;
    assert sockets[i].family != f ==> FamilyBits(sockets[..i + 1], f) == a;
  }

  /** The compat network table: one quad of masks per address family. */
  class NetTable {
    const allow: array<Mask>
    const audit: array<Mask>
    const deny: array<Mask>
    const quiet: array<Mask>

    ghost predicate Valid()
      reads this
    {
      && allow.Length == audit.Length == deny.Length == quiet.Length
      && allow != audit && allow != deny && allow != quiet && audit != deny && audit != quiet && deny != quiet
    }

    constructor (afMax: nat)
      ensures Valid() && fresh(allow) && fresh(audit) && fresh(deny) && fresh(quiet)
      ensures allow.Length == afMax && forall f :: 0 <= f < afMax ==> Sets(f) == EMPTY
    {
      allow := new Mask[afMax](_ => {});
      audit := new Mask[afMax](_ => {});
      deny := new Mask[afMax](_ => {});
      quiet := new Mask[afMax](_ => {});
    }

    function Sets(f: int): Quad
      requires Valid() && 0 <= f < allow.Length
      reads this, allow, audit, deny, quiet
    {
      Quad(allow[f], audit[f], deny[f], quiet[f])
    }

    method ApplyFamily(p: Prefix, f: int)
      requires Valid() && 0 <= f < allow.Length
      requires Raw(p)
      requires p.mode != NoMode || p.audit != Unaudited
      modifies allow, audit, deny, quiet
      ensures Sets(f) == UnderPrefix(old(Sets(f)), p)
      ensures forall g :: 0 <= g < allow.Length && g != f ==> Sets(g) == old(Sets(g))
    {
      if allow[f] + audit[f] + deny[f] + quiet[f] == {} {
        assert Sets(f) == EMPTY;
        return;
      }
      var plainAllow := allow[f] - audit[f] - deny[f];
      var auditAllow := allow[f] * audit[f] - deny[f];
      var plainDeny := deny[f] * quiet[f];
      var auditDeny := deny[f] - quiet[f];
      allow[f], audit[f], deny[f], quiet[f] := {}, {}, {}, {};
      if p.mode == Deny {
        deny[f] := plainAllow + auditAllow + plainDeny + auditDeny;
        var audited := auditAllow + auditDeny;
        if p.audit == Force {
          audited := audited + (plainAllow + plainDeny);
        }
        quiet[f] := (plainAllow + plainDeny) - audited;
      } else {
        allow[f] := plainAllow + auditAllow;
        deny[f] := plainDeny + auditDeny;
        if p.audit == Force {
          audit[f] := allow[f];
          quiet[f] := {};
        } else {
          audit[f] := auditAllow;
          quiet[f] := plainDeny;
        }
      }
      assert Sets(f) == UnderPrefix(old(Sets(f)), p);
    }

    method ApplyCompatPrefix(p: Prefix)
      requires Valid()
      requires Raw(p)
      modifies allow, audit, deny, quiet
      ensures forall f :: 0 <= f < allow.Length ==> Sets(f) == UnderPrefix(old(Sets(f)), p)
    {
      if p.mode == NoMode && p.audit == Unaudited {
        return;
      }
      for f := 0 to allow.Length
        invariant forall g :: 0 <= g < f ==> Sets(g) == UnderPrefix(old(Sets(g)), p)
        invariant forall g :: f <= g < allow.Length ==> Sets(g) == old(Sets(g))
      {
        ApplyFamily(p, f);
      }
    }

    method UpdateEntry(p: Prefix, e: Socket)
      requires Valid() && 0 <= e.family < allow.Length
      requires Raw(p)
      modifies allow, audit, deny, quiet
      ensures Sets(e.family) == Union(old(Sets(e.family)), OfRule(p, TypeBits(e.kind)))
      ensures forall g :: 0 <= g < allow.Length && g != e.family ==> Sets(g) == old(Sets(g))
    {
      var f, bits := e.family, TypeBits(e.kind);
      if p.mode == Deny {
        deny[f] := deny[f] + bits;
        if !AuditEq(p.audit, Force) {
          quiet[f] := quiet[f] + bits;
        }
      } else {
        allow[f] := allow[f] + bits;
        if AuditEq(p.audit, Force) {
          audit[f] := audit[f] + bits;
        }
      }
      assert Sets(f) == Union(old(Sets(f)), OfRule(p, bits));
    }

    /** Takes in the table of a rule, or of another block. */
    method AddCompatNet(entry: NetTable)
      requires Valid() && entry.Valid() && entry.allow.Length == allow.Length
      requires {allow, audit, deny, quiet} !! {entry.allow, entry.audit, entry.deny, entry.quiet}
      modifies allow, audit, deny, quiet
      ensures forall f :: 0 <= f < allow.Length ==> Sets(f) == Union(old(Sets(f)), entry.Sets(f))
    {
      for i := 0 to allow.Length
        invariant forall f :: 0 <= f < i ==> Sets(f) == Union(old(Sets(f)), entry.Sets(f))
        invariant forall f :: i <= f < allow.Length ==> Sets(f) == old(Sets(f))
      {
        allow[i] := allow[i] + entry.allow[i];
        audit[i] := audit[i] + entry.audit[i];
        deny[i] := deny[i] + entry.deny[i];
        quiet[i] := quiet[i] + entry.quiet[i];
      }
    }

    /** Records the sockets of one rule under the prefix it was given. */
    method UpdateCompatNet(p: Prefix, sockets: seq<Socket>)
      requires Valid() && forall i :: 0 <= i < |sockets| ==> 0 <= sockets[i].family < allow.Length
      requires Raw(p)
      modifies allow, audit, deny, quiet
      ensures forall f :: 0 <= f < allow.Length ==>
        Sets(f) == Union(old(Sets(f)), OfRule(p, FamilyBits(sockets, f)))
    {
      for i := 0 to |sockets|
        invariant forall f :: 0 <= f < allow.Length ==>
          Sets(f) == Union(old(Sets(f)), OfRule(p, FamilyBits(sockets[..i], f)))
      {
        UpdateEntry(p, sockets[i]);
        forall f | 0 <= f < allow.Length
          ensures Sets(f) == Union(old(Sets(f)), OfRule(p, FamilyBits(sockets[..i + 1], f)))
        {
          GrowsByRule(old(Sets(f)), p, sockets, i, f);
        }
      }
      assert sockets[..|sockets|] == sockets;
    }
  }

  lemma UnionAssoc(a: Quad, b: Quad, c: Quad)
    ensures Union(Union(a, b), c) == Union(a, Union(b, c))
  {
    var l, r := Union(Union(a, b), c), Union(a, Union(b, c));
    assert l.allow == r.allow && l.audit == r.audit && l.deny == r.deny && l.quiet == r.quiet;
  }

  /** Folding two blocks' rules together is taking the union of their folded sets. */
  lemma {:induction false} FoldJoins(a: seq<Rule>, b: seq<Rule>)
    ensures Fold(a + b) == Union(Fold(a), Fold(b))
    decreases |b|
  {
    if b == [] {
      assert a + b == a;
      var f := Fold(a);
      assert f.allow + {} == f.allow && f.audit + {} == f.audit && f.deny + {} == f.deny && f.quiet + {} == f.quiet;
    } else {
      var front, last := b[..|b| - 1], b[|b| - 1];
      assert (a + b)[..|a + b| - 1] == a + front;
      FoldJoins(a, front);
      UnionAssoc(Fold(a), Fold(front), OfRule(last.prefix, last.bits));
    }
  }

  predicate AllRaw(rules: seq<Rule>) {
    forall i :: 0 <= i < |rules| ==> Raw(rules[i].prefix)
  }

  predicate Is(r: Rule, b: int, deny: bool, force: bool) {
    b in r.bits && (r.prefix.mode == Deny <==> deny) && (r.prefix.audit == Force <==> force)
  }

  /** Bit b occurs in a rule that denies or not and audits or not, as given. */
  predicate Has(rules: seq<Rule>, b: int, deny: bool, force: bool) {
    exists i :: 0 <= i < |rules| && Is(rules[i], b, deny, force)
  }

  /** The reference: a rule inside a block denies if either denies and audits if either audits. */
  function Inside(p: Prefix, r: Prefix): Prefix {
    r.(mode := if p.mode == Deny || r.mode == NoMode then p.mode else r.mode,
       audit := if p.audit == Force then Force else r.audit)
  }

  function PrefixEach(rules: seq<Rule>, p: Prefix): seq<Rule> {
    seq(|rules|, i requires 0 <= i < |rules| => Rule(Inside(p, rules[i].prefix), rules[i].bits))
  }

  lemma HasGrows(rules: seq<Rule>, r: Rule, b: int, deny: bool, force: bool)
    ensures Has(rules + [r], b, deny, force) <==> Has(rules, b, deny, force) || Is(r, b, deny, force)
  {
    var all := rules + [r];
    assert all[|rules|] == r;
    if Has(rules, b, deny, force) {
      var i :| 0 <= i < |rules| && Is(rules[i], b, deny, force);
      assert all[i] == rules[i];
    }
  }

  lemma {:induction false} FoldBits(rules: seq<Rule>, b: int)
    ensures b in Fold(rules).allow <==> Has(rules, b, false, false) || Has(rules, b, false, true)
    ensures b in Fold(rules).audit <==> Has(rules, b, false, true)
    ensures b in Fold(rules).deny <==> Has(rules, b, true, false) || Has(rules, b, true, true)
    ensures b in Fold(rules).quiet <==> Has(rules, b, true, false)
  {
    if rules != [] {
      var front, r := rules[..|rules| - 1], rules[|rules| - 1];
      assert rules == front + [r];
      FoldBits(front, b);
      HasGrows(front, r, b, false, false);
      HasGrows(front, r, b, false, true);
      HasGrows(front, r, b, true, false);
      HasGrows(front, r, b, true, true);
    }
  }

  lemma EachBits(rules: seq<Rule>, p: Prefix, b: int, deny: bool, force: bool)
    requires AllRaw(rules) && Raw(p)
    ensures Has(PrefixEach(rules, p), b, deny, force) <==>
      exists d, f :: Has(rules, b, d, f) && (d || p.mode == Deny <==> deny) && (f || p.audit == Force <==> force)
  {
    var each := PrefixEach(rules, p);
    if i :| 0 <= i < |each| && Is(each[i], b, deny, force) {
      assert Is(rules[i], b, rules[i].prefix.mode == Deny, rules[i].prefix.audit == Force);
      assert Has(rules, b, rules[i].prefix.mode == Deny, rules[i].prefix.audit == Force);
    }
    if d, f :| Has(rules, b, d, f) && (d || p.mode == Deny <==> deny) && (f || p.audit == Force <==> force) {
      var i :| 0 <= i < |rules| && Is(rules[i], b, d, f);
      assert Is(each[i], b, deny, force);
    }
  }

  /** A bit whose plain allows would be quieted by a deny prefix one rule at a time, but not once folded. */
  predicate Mixed(rules: seq<Rule>, b: int) {
    && Has(rules, b, false, false) && !Has(rules, b, true, false)
    && (Has(rules, b, false, true) || Has(rules, b, true, true))
  }

  lemma BitAgrees(rules: seq<Rule>, p: Prefix, b: int)
    requires AllRaw(rules) && Raw(p)
    ensures
      var folded, each := UnderPrefix(Fold(rules), p), Fold(PrefixEach(rules, p));
      && (b in Allowed(folded) <==> b in Allowed(each))
      && (b in folded.deny <==> b in each.deny)
      && (b in AuditedAllows(folded) <==> b in AuditedAllows(each))
      && ((b in QuietDenials(folded) <==> b in QuietDenials(each)) <==>
          !(p.mode == Deny && p.audit != Force && Mixed(rules, b)))
  {
    FoldBits(rules, b);
    FoldBits(PrefixEach(rules, p), b);
    EachBits(rules, p, b, false, false);
    EachBits(rules, p, b, false, true);
    EachBits(rules, p, b, true, false);
    EachBits(rules, p, b, true, true);
    var ff, ft := Has(rules, b, false, false), Has(rules, b, false, true);
    var tf, tt := Has(rules, b, true, false), Has(rules, b, true, true);
    assert Fold(rules) == EMPTY ==> !ff && !ft && !tf && !tt;
  }

  /**
   * Prefixing the folded sets allows and denies what prefixing each rule would. Auditing agrees as well,
   * unless a deny prefix without audit meets a bit that is plainly allowed and, by another rule, audited.
   */
  lemma AggregateRefinesEach(rules: seq<Rule>, p: Prefix)
    requires AllRaw(rules) && Raw(p)
    ensures
      var folded, each := UnderPrefix(Fold(rules), p), Fold(PrefixEach(rules, p));
      && Allowed(folded) == Allowed(each) && folded.deny == each.deny
      && AuditedAllows(folded) == AuditedAllows(each)
      && (QuietDenials(folded) == QuietDenials(each) <==>
          !(p.mode == Deny && p.audit != Force && exists b :: Mixed(rules, b)))
  {
    var folded, each := UnderPrefix(Fold(rules), p), Fold(PrefixEach(rules, p));
    forall b ensures b in Allowed(folded) <==> b in Allowed(each) {
      BitAgrees(rules, p, b);
    }
    forall b ensures b in folded.deny <==> b in each.deny {
      BitAgrees(rules, p, b);
    }
    forall b ensures b in AuditedAllows(folded) <==> b in AuditedAllows(each) {
      BitAgrees(rules, p, b);
    }
    assert Allowed(folded) == Allowed(each) && folded.deny == each.deny;
    assert AuditedAllows(folded) == AuditedAllows(each);
    if p.mode == Deny && p.audit != Force && exists b :: Mixed(rules, b) {
      var b :| Mixed(rules, b);
      BitAgrees(rules, p, b);
      assert b in QuietDenials(folded) <==> b !in QuietDenials(each);
    } else {
      forall b ensures b in QuietDenials(folded) <==> b in QuietDenials(each) {
        BitAgrees(rules, p, b);
      }
      assert QuietDenials(folded) == QuietDenials(each);
    }
  }

  /** The sets grant, deny and audit what prefixing each rule does, and quiet the same unless a bit is mixed. */
  ghost predicate Refines(sets: Quad, rules: seq<Rule>, p: Prefix)
  {
    var each := Fold(PrefixEach(rules, p));
    && Allowed(sets) == Allowed(each) && sets.deny == each.deny
    && AuditedAllows(sets) == AuditedAllows(each)
    && (QuietDenials(sets) == QuietDenials(each) <==>
        !(p.mode == Deny && p.audit != Force && exists b :: Mixed(rules, b)))
  }

  /** Allowed and, by another rule, audited: under a plain deny each rule by itself quiets the bit, the folded
      sets do not. */
  lemma MixedBitIsHeard(b: int)
    ensures
      var p := Prefix(0, Unaudited, Deny, AnyOwner);
      var rules := [Rule(Prefix(0, Unaudited, Allow, AnyOwner), {b}), Rule(Prefix(0, Force, Allow, AnyOwner), {b})];
      && Mixed(rules, b)
      && b !in QuietDenials(UnderPrefix(Fold(rules), p)) && b in QuietDenials(Fold(PrefixEach(rules, p)))
  {
    var p := Prefix(0, Unaudited, Deny, AnyOwner);
    var rules := [Rule(Prefix(0, Unaudited, Allow, AnyOwner), {b}), Rule(Prefix(0, Force, Allow, AnyOwner), {b})];
    assert Is(rules[0], b, false, false) && Is(rules[1], b, false, true);
    FoldBits(rules, b);
    BitAgrees(rules, p, b);
    assert b !in QuietDenials(UnderPrefix(Fold(rules), p));
  }

  // ----- Whole blocks -----

  predicate NoOwners(rules: seq<Rule>) {
    forall i :: 0 <= i < |rules| ==> rules[i].prefix.owner == AnyOwner
  }

  lemma FoldOneMore(rules: seq<Rule>, i: nat)
    requires i < |rules|
    ensures Fold(rules[..i + 1]) == Union(Fold(rules[..i]), OfRule(rules[i].prefix, rules[i].bits))
  {
    assert rules[..i + 1][..i] == rules[..i];
  }

  /** The capability rules of a block, one after the other, and then the prefix of the block. */
  method CapabilityBlock(rules: seq<Rule>, p: Prefix) returns (ok: bool, caps: Capabilities)
    requires AllRaw(rules) && Raw(p)
    ensures ok <==> NoOwners(rules) && (Fold(rules) == EMPTY || p.owner == AnyOwner)
    ensures ok ==> Refines(caps.Sets(), rules, p)
  {
    caps := new Capabilities();
    for i := 0 to |rules|
      invariant fresh(caps) && caps.Sets() == Fold(rules[..i]) && NoOwners(rules[..i])
    {
      FoldOneMore(rules, i);
      ok := caps.AddCapabilities(rules[i].prefix, rules[i].bits);
      if !ok { return; }
    }
    assert rules[..|rules|] == rules;
    ok := caps.AddPrefix(p);
    AggregateRefinesEach(rules, p);
  }

  datatype NetRule = NetRule(prefix: Prefix, sockets: seq<Socket>)

  /** What the rules say about one family. */
  function FamilyRules(rules: seq<NetRule>, f: int): seq<Rule> {
    seq(|rules|, i requires 0 <= i < |rules| => Rule(rules[i].prefix, FamilyBits(rules[i].sockets, f)))
  }

  ghost predicate InFamilies(rules: seq<NetRule>, afMax: nat) {
    forall i :: 0 <= i < |rules| ==>
      && Raw(rules[i].prefix)
      && forall k :: 0 <= k < |rules[i].sockets| ==> 0 <= rules[i].sockets[k].family < afMax
  }

  lemma FamilyOneMore(rules: seq<NetRule>, i: nat, f: int)
    requires i < |rules|
    ensures Fold(FamilyRules(rules[..i + 1], f)) ==
      Union(Fold(FamilyRules(rules[..i], f)), OfRule(rules[i].prefix, FamilyBits(rules[i].sockets, f)))
  {
    var all := FamilyRules(rules[..i + 1], f);
    assert all[..i] == FamilyRules(rules[..i], f);
  }

  lemma NothingAdded(q: Quad)
    ensures Union(EMPTY, q) == q
  {
    var r := Union(EMPTY, q);
    assert r.allow == q.allow && r.audit == q.audit && r.deny == q.deny && r.quiet == q.quiet;
  }

  /** The table of a single rule. */
  method RuleTable(rule: NetRule, afMax: nat) returns (entry: NetTable)
    requires Raw(rule.prefix) && forall k :: 0 <= k < |rule.sockets| ==> 0 <= rule.sockets[k].family < afMax
    ensures entry.Valid() && entry.allow.Length == afMax
    ensures fresh(entry) && fresh(entry.allow) && fresh(entry.audit) && fresh(entry.deny) && fresh(entry.quiet)
    ensures forall f :: 0 <= f < afMax ==> entry.Sets(f) == OfRule(rule.prefix, FamilyBits(rule.sockets, f))
  {
    entry := new NetTable(afMax);
    entry.UpdateCompatNet(rule.prefix, rule.sockets);
    forall f | 0 <= f < afMax ensures entry.Sets(f) == OfRule(rule.prefix, FamilyBits(rule.sockets, f)) {
      NothingAdded(OfRule(rule.prefix, FamilyBits(rule.sockets, f)));
    }
  }

  /** The network rules of a block, one after the other, and then the prefix of the block. */
  method NetworkBlock(rules: seq<NetRule>, p: Prefix, afMax: nat) returns (table: NetTable)
    requires InFamilies(rules, afMax) && Raw(p)
    ensures table.Valid() && table.allow.Length == afMax
    ensures forall f :: 0 <= f < afMax ==> Refines(table.Sets(f), FamilyRules(rules, f), p)
  {
    table := new NetTable(afMax);
    for i := 0 to |rules|
      invariant table.Valid() && table.allow.Length == afMax
      invariant fresh(table.allow) && fresh(table.audit) && fresh(table.deny) && fresh(table.quiet)
      invariant forall f :: 0 <= f < afMax ==> table.Sets(f) == Fold(FamilyRules(rules[..i], f))
    {
      var entry := RuleTable(rules[i], afMax);
      table.AddCompatNet(entry);
      forall f | 0 <= f < afMax ensures table.Sets(f) == Fold(FamilyRules(rules[..i + 1], f)) {
        FamilyOneMore(rules, i, f);
      }
    }
    assert rules[..|rules|] == rules;
    table.ApplyCompatPrefix(p);
    forall f | 0 <= f < afMax ensures Refines(table.Sets(f), FamilyRules(rules, f), p) {
      AggregateRefinesEach(FamilyRules(rules, f), p);
    }
  }

  /** No bit occurs under two different pairs of mode and audit. */
  predicate Unmixed(rules: seq<Rule>) {
    forall i, j, b :: 0 <= i < j < |rules| && b in rules[i].bits && b in rules[j].bits ==>
      && (rules[i].prefix.mode == Deny <==> rules[j].prefix.mode == Deny)
      && (rules[i].prefix.audit == Force <==> rules[j].prefix.audit == Force)
  }

  lemma UnmixedAgreesFully(rules: seq<Rule>, p: Prefix)
    requires AllRaw(rules) && Raw(p) && Unmixed(rules)
    ensures
      var folded, each := UnderPrefix(Fold(rules), p), Fold(PrefixEach(rules, p));
      && Allowed(folded) == Allowed(each) && folded.deny == each.deny
      && AuditedAllows(folded) == AuditedAllows(each) && QuietDenials(folded) == QuietDenials(each)
  {
    AggregateRefinesEach(rules, p);
    forall b ensures !Mixed(rules, b) {
      if Has(rules, b, false, false) {
        var i :| 0 <= i < |rules| && Is(rules[i], b, false, false);
        forall j | 0 <= j < |rules| ensures !Is(rules[j], b, false, true) && !Is(rules[j], b, true, true) {
          assert i < j || j < i || i == j;
        }
      }
    }
  }

  /** Block prefixes applied one after the other, the innermost block first. */
  function UnderAll(q: Quad, ps: seq<Prefix>): Quad {
    if ps == [] then q else UnderPrefix(UnderAll(q, ps[..|ps| - 1]), ps[|ps| - 1])
  }

  function Known(q: Quad): Mask {
    q.allow + q.deny
  }

  /** An allowed bit is audited when listed, a denied one unless quieted. */
  predicate IsAudited(q: Quad, b: int) {
    if b in q.deny then b !in q.quiet else b in q.audit
  }

  predicate AnyDenies(ps: seq<Prefix>) {
    exists i :: 0 <= i < |ps| && ps[i].mode == Deny
  }

  predicate AnyAudits(ps: seq<Prefix>) {
    exists i :: 0 <= i < |ps| && ps[i].audit == Force
  }

  lemma OnePrefix(q: Quad, p: Prefix, b: int)
    requires Raw(p)
    ensures
      var r := UnderPrefix(q, p);
      && (b in Known(r) <==> b in Known(q))
      && (b in r.deny <==> b in q.deny || (p.mode == Deny && b in q.allow))
      && (b in Known(q) ==> (IsAudited(r, b) <==> IsAudited(q, b) || p.audit == Force))
  {}

  lemma AnyGrows(ps: seq<Prefix>, p: Prefix)
    ensures AnyDenies(ps + [p]) <==> AnyDenies(ps) || p.mode == Deny
    ensures AnyAudits(ps + [p]) <==> AnyAudits(ps) || p.audit == Force
  {
    var all := ps + [p];
    assert all[|ps|] == p;
    assert forall i :: 0 <= i < |ps| ==> all[i] == ps[i];
  }

  /**
   * Nested block prefixes in any number and order: a bit ends up denied if it was or if any prefix denies,
   * and audited if it was or if any prefix audits.
   */
  lemma {:induction false} NestedPrefixes(q: Quad, ps: seq<Prefix>, b: int)
    requires forall i :: 0 <= i < |ps| ==> Raw(ps[i])
    ensures
      var r := UnderAll(q, ps);
      && (b in Known(r) <==> b in Known(q))
      && (b in r.deny <==> b in q.deny || (AnyDenies(ps) && b in q.allow))
      && (b in Known(q) ==> (IsAudited(r, b) <==> IsAudited(q, b) || AnyAudits(ps)))
  {
    if ps != [] {
      var front, p := ps[..|ps| - 1], ps[|ps| - 1];
      assert ps == front + [p];
      NestedPrefixes(q, front, b);
      AnyGrows(front, p);
      OnePrefix(UnderAll(q, front), p, b);
    }
  }
}
