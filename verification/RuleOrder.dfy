/** Keys of unix and dbus rules, and the field by field comparison that sorts rules for merging. */
module RuleOrder {
  import opened Ordering
  import opened Prefixes

  datatype Body =
    | Unix(sockType: Option<string>, sockTypeN: int, proto: Option<string>, protoN: int,
           ownLabel: Option<string>, peerLabel: Option<string>, addr: Option<string>, peerAddr: Option<string>)
    | Dbus(bus: Option<string>, name: Option<string>, peer: Option<string>,
           path: Option<string>, iface: Option<string>, member: Option<string>)

  /** Everything about a rule that merging compares, that is all but its permissions. */
  datatype Key = Key(prefix: Prefix, body: Body)

  datatype Field = Number(n: int) | Text(s: Option<string>)

  const AF_UNIX := 1
  const AA_CLASS_NET := 4
  const AA_CLASS_DBUS := 32

  function OwnerRank(o: Owner): int {
    match o case AnyOwner => 0 case Owned => 1 case NotOwned => 2
  }

  function PrefixFields(p: Prefix): seq<Field> {
    [Number(p.priority), Number(AuditRank(p.audit)), Number(ModeRank(p.mode)), Number(OwnerRank(p.owner))]
  }

  function BodyFields(b: Body): seq<Field> {
    match b
    case Unix(sockType, sockTypeN, proto, protoN, ownLabel, peerLabel, addr, peerAddr) =>
      [Number(AF_UNIX), Number(sockTypeN), Number(protoN), Text(sockType), Text(proto),
       Text(ownLabel), Text(peerLabel), Text(addr), Text(peerAddr)]
    case Dbus(bus, name, peer, path, iface, member) =>
      [Text(bus), Text(name), Text(peer), Text(path), Text(iface), Text(member)]
  }

  function RuleClass(b: Body): int {
    if b.Unix? then AA_CLASS_NET else AA_CLASS_DBUS
  }

  /** The fields in the order in which the compiler compares them, the rule type first. */
  function FieldsOf(k: Key): seq<Field> {
    [Number(RuleClass(k.body))] + PrefixFields(k.prefix) + BodyFields(k.body)
  }

  function Strcmp(a: string, b: string): int {
    if a == [] || b == [] then |a| - |b|
    else if a[0] != b[0] then a[0] as int - b[0] as int
    else Strcmp(a[1..], b[1..])
  }

  /** A missing string sorts before every string. */
  function NullStrcmp(a: Option<string>, b: Option<string>): int {
    match (a, b)
    case (Some(s), Some(t)) => Strcmp(s, t)
    case (Some(_), None) => 1
    case (None, Some(_)) => -1
    case (None, None) => 0
  }

  /** Fields of different kinds never meet: the rule type decides before. */
  function FieldCmp(a: Field, b: Field): int {
    match (a, b)
    case (Number(m), Number(n)) => m - n
    case (Text(s), Text(t)) => NullStrcmp(s, t)
    case (Number(_), Text(_)) => -1
    case (Text(_), Number(_)) => 1
  }

  function FieldsCmp(a: seq<Field>, b: seq<Field>): int {
    if a == [] || b == [] then |a| - |b|
    else if FieldCmp(a[0], b[0]) != 0 then FieldCmp(a[0], b[0])
    else FieldsCmp(a[1..], b[1..])
  }

  function KeyCmp(a: Key, b: Key): int {
    FieldsCmp(FieldsOf(a), FieldsOf(b))
  }

  lemma {:induction false} StrcmpZero(a: string, b: string)
    ensures Strcmp(a, b) == 0 <==> a == b
  {
    if a != [] && b != [] {
      StrcmpZero(a[1..], b[1..]);
      assert a == [a[0]] + a[1..] && b == [b[0]] + b[1..];
    }
  }

  lemma {:induction false} StrcmpFlips(a: string, b: string)
    ensures Strcmp(a, b) == -Strcmp(b, a)
  {
    if a != [] && b != [] {
      StrcmpFlips(a[1..], b[1..]);
    }
  }

  lemma {:induction false} StrcmpChains(a: string, b: string, c: string)
    ensures Chains(Strcmp(a, b), Strcmp(b, c), Strcmp(a, c))
  {
    if a != [] && b != [] && c != [] {
      StrcmpChains(a[1..], b[1..], c[1..]);
    }
  }

  lemma FieldOrder(a: Field, b: Field, c: Field)
    ensures FieldCmp(a, b) == 0 <==> a == b
    ensures FieldCmp(a, b) == -FieldCmp(b, a)
    ensures Chains(FieldCmp(a, b), FieldCmp(b, c), FieldCmp(a, c))
  {
    if a.Text? && b.Text? && a.s.Some? && b.s.Some? {
      StrcmpZero(a.s.value, b.s.value);
      StrcmpFlips(a.s.value, b.s.value);
      if c.Text? && c.s.Some? {
        StrcmpChains(a.s.value, b.s.value, c.s.value);
      }
    }
  }

  lemma {:induction false} FieldsOrder(a: seq<Field>, b: seq<Field>, c: seq<Field>)
    ensures FieldsCmp(a, b) == 0 <==> a == b
    ensures FieldsCmp(a, b) == -FieldsCmp(b, a)
    ensures Chains(FieldsCmp(a, b), FieldsCmp(b, c), FieldsCmp(a, c))
    decreases |a|
  {
    if a != [] && b != [] {
      assert a == [a[0]] + a[1..] && b == [b[0]] + b[1..];
      if c != [] {
        FieldOrder(a[0], b[0], c[0]);
        FieldOrder(b[0], c[0], a[0]);
        FieldsOrder(a[1..], b[1..], c[1..]);
      } else {
        FieldOrder(a[0], b[0], a[0]);
        FieldsOrder(a[1..], b[1..], a[1..]);
      }
    }
  }

  lemma SameBodyFields(a: Body, b: Body)
    requires BodyFields(a) == BodyFields(b)
    ensures a == b
  {
    var f, g := BodyFields(a), BodyFields(b);
    if a.Unix? {
      assert f[1] == g[1] && f[2] == g[2] && f[3] == g[3] && f[4] == g[4];
      assert f[5] == g[5] && f[6] == g[6] && f[7] == g[7] && f[8] == g[8];
    } else {
      assert f[0] == g[0] && f[1] == g[1] && f[2] == g[2] && f[3] == g[3] && f[4] == g[4] && f[5] == g[5];
    }
  }

  lemma SameFieldsSameKey(a: Key, b: Key)
    requires FieldsOf(a) == FieldsOf(b)
    ensures a == b
  {
    var f, g := FieldsOf(a), FieldsOf(b);
    assert f[1] == g[1] && f[2] == g[2] && f[3] == g[3] && f[4] == g[4];
    assert f[5..] == BodyFields(a.body) && g[5..] == BodyFields(b.body);
    SameBodyFields(a.body, b.body);
  }

  /** The rule comparison is a total order on keys. */
  lemma KeyOrder(a: Key, b: Key, c: Key)
    ensures KeyCmp(a, b) == 0 <==> a == b
    ensures KeyCmp(a, b) == -KeyCmp(b, a)
    ensures Chains(KeyCmp(a, b), KeyCmp(b, c), KeyCmp(a, c))
  {
    FieldsOrder(FieldsOf(a), FieldsOf(b), FieldsOf(c));
    if FieldsOf(a) == FieldsOf(b) {
      SameFieldsSameKey(a, b);
    }
  }
}
