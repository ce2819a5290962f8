/** Rule prefixes: audit, mode, priority and owner qualifiers, and how a run of them changes a file entry. */
module Prefixes {

  datatype Audit = Unaudited | Implied | Force | Quiet

  datatype RuleMode = NoMode | Allow | Deny | Prompt

  datatype Owner = AnyOwner | Owned | NotOwned

  datatype Prefix = Prefix(priority: int, audit: Audit, mode: RuleMode, owner: Owner)

  /** A prefix as the policy grammar builds it: the audit keyword is there or it is not. */
  predicate Raw(p: Prefix) {
    p.audit == Unaudited || p.audit == Force
  }

  datatype Option<T> = None | Some(value: T)

  // A C string is the sequence of its (possibly signed) character codes, without the terminator.
  type CString = seq<int>

  // A permission word is the set of positions of its one bits.
  type Perms = set<int>

  datatype Entry = Entry(name: CString, link: Option<CString>, subset: bool,
                         mode: RuleMode, audit: Audit, priority: int, perms: Perms)

  // Bit positions; the permissions of others repeat those of the owner 14 bits higher.
  const MAY_EXEC := 0
  const OTHER_SHIFT := 14
  const OTHER_EXEC := MAY_EXEC + OTHER_SHIFT

  /** The exec type of the owner: pux, unsafe, inherit and the four modifier bits. */
  predicate IsUserType(bit: int) {
    7 <= bit < OTHER_SHIFT
  }

  predicate IsOtherType(bit: int) {
    IsUserType(bit - OTHER_SHIFT)
  }

  predicate IsUserPerm(bit: int) {
    0 <= bit < OTHER_SHIFT
  }

  predicate IsOtherPerm(bit: int) {
    IsUserPerm(bit - OTHER_SHIFT)
  }

  /** Change-hat (or onexec) and change-profile. */
  predicate IsShared(bit: int) {
    bit == 30 || bit == 31
  }

  // The enumeration order the comparators use.
  function ModeRank(m: RuleMode): int {
    match m case NoMode => 0 case Allow => 1 case Deny => 2 case Prompt => 3
  }

  function AuditRank(a: Audit): int {
    match a case Unaudited => 0 case Implied => 1 case Force => 2 case Quiet => 3
  }

  /** The audit equality of the compiler: an implied audit on the left passes for a forced one on the right. */
  predicate AuditEq(a: Audit, b: Audit) {
    if b == Force then a == Force || a == Implied else a == b
  }

  predicate ModeClash(e: Entry, p: Prefix) {
    p.mode != NoMode && e.mode != NoMode && e.mode != p.mode
  }

  predicate AuditClash(e: Entry, p: Prefix) {
    p.audit != Unaudited && e.audit != Unaudited && e.audit != Implied && !AuditEq(e.audit, p.audit)
  }

  function WithMode(e: Entry, p: Prefix): Entry {
    if p.mode == NoMode then e else e.(mode := p.mode)
  }

  function WithPriority(e: Entry, p: Prefix): Entry {
    if p.priority == 0 then e else e.(priority := p.priority)
  }

  function WithAudit(e: Entry, p: Prefix): Entry {
    if (p.mode == Deny || e.mode == Deny) && (p.audit == Force || e.audit == Force) then
      e.(mode := Deny, audit := Unaudited)
    else if p.mode == Deny then
      e.(mode := Deny, audit := Implied)
    else if p.audit != Unaudited then
      e.(audit := p.audit)
    else
      e
  }

  /** The entry after a prefix that clashes with nothing. */
  function Prefixed(e: Entry, p: Prefix): Entry {
    WithAudit(WithPriority(WithMode(e, p), p), p)
  }

  method GenericAddPrefix(entry: Entry, p: Prefix) returns (ok: bool, e: Entry)
    ensures ok <==> !ModeClash(entry, p) && !AuditClash(entry, p)
    ensures ok ==> e == Prefixed(entry, p)
    ensures e == entry.(mode := e.mode, audit := e.audit, priority := e.priority)
    ensures !ok ==> e.audit == entry.audit
  {
    e := entry;
    if p.mode != NoMode {
      if e.mode != NoMode && e.mode != p.mode {
        return false, e;
      }
      e := e.(mode := p.mode);
    }
    if p.priority != 0 {
      e := e.(priority := p.priority);
    }
    if p.audit != Unaudited {
      if e.audit != Unaudited && e.audit != Implied && !AuditEq(e.audit, p.audit) {
        return false, e;
      }
    }
    if (p.mode == Deny || e.mode == Deny) && (p.audit == Force || e.audit == Force) {
      e := e.(mode := Deny, audit := Unaudited);
    } else if p.mode == Deny {
      e := e.(mode := Deny, audit := Implied);
    } else if p.audit != Unaudited {
      e := e.(audit := p.audit);
    }
    return true, e;
  }

  predicate HasExec(perms: Perms) {
    MAY_EXEC in perms || OTHER_EXEC in perms
  }

  predicate HasExecType(perms: Perms) {
    exists bit :: bit in perms && (IsUserType(bit) || IsOtherType(bit))
  }

  /** Exec permission comes with an exec type exactly when the rule does not deny. */
  predicate ExecQualified(e: Entry) {
    HasExec(e.perms) ==> (HasExecType(e.perms) <==> e.mode != Deny)
  }

  function Masked(perms: Perms, owner: Owner): Perms {
    match owner
    case AnyOwner => perms
    case Owned => set bit | bit in perms && (IsUserPerm(bit) || IsShared(bit))
    case NotOwned => set bit | bit in perms && (IsOtherPerm(bit) || IsShared(bit))
  }

  /** The entry after its prefix and its owner condition, when neither clashes. */
  function Qualified(e: Entry, p: Prefix): Entry {
    Prefixed(e, p).(perms := Masked(e.perms, p.owner))
  }

  method CheckXQualifier(e: Entry) returns (ok: bool)
    ensures ok <==> ExecQualified(e)
  {
    if HasExec(e.perms) {
      if e.mode == Deny && HasExecType(e.perms) {
        return false;
      } else if e.mode != Deny && !HasExecType(e.perms) {
        return false;
      }
    }
    return true;
  }

  method EntryAddPrefix(entry: Entry, p: Prefix) returns (ok: bool, e: Entry)
    ensures ok <==> !ModeClash(entry, p) && !AuditClash(entry, p) && ExecQualified(Qualified(entry, p))
    ensures ok ==> e == Qualified(entry, p)
    ensures e.name == entry.name && e.link == entry.link && e.subset == entry.subset
  {
    ok, e := GenericAddPrefix(entry, p);
    if !ok {
      return;
    }
    e := e.(perms := Masked(e.perms, p.owner));
    ok := CheckXQualifier(e);
  }

  /** A forced audit never stays on a deny rule, and an implied one is only found there. */
  predicate Settled(e: Entry) {
    && (e.audit == Implied ==> e.mode == Deny)
    && (e.mode == Deny ==> e.audit != Force)
  }

  /** Prefixes as written in policy, or as left on an enclosing block by earlier prefixing. */
  predicate FromParser(p: Prefix) {
    p.audit == Implied ==> p.mode == Deny
  }
}
