/** Encoding unix and dbus rules as patterns with permissions, and why merging first changes nothing. */
module RuleEncode {
  import opened Strings
  import opened ByteText
  import opened GlobScanner
  import opened Prefixes
  import opened RuleOrder
  import opened RuleMerge
  import RuleTrees

  // Permission bit positions.
  const SEND := 1
  const RECEIVE := 2
  const CREATE := 4
  const SHUTDOWN := 5
  const CONNECT := 6
  const SETATTR := 8
  const GETATTR := 9
  const ACCEPT := 20
  const BIND := 21
  const LISTEN := 22
  const SETOPT := 24
  const GETOPT := 25
  const CONT_MATCH := 27
  const SET_LABEL := 31
  const DBUS_EAVESDROP := 5
  const DBUS_BIND := 6

  const NET_OPT: Perms := {SETOPT, GETOPT}
  const LOCAL_NET_PERMS: Perms := {CREATE, SHUTDOWN, SETATTR, GETATTR, BIND, ACCEPT, LISTEN, SETOPT, GETOPT}
  const LOCAL_NET_CMD: Perms := {LISTEN, SETOPT, GETOPT}
  const PEER_NET_PERMS: Perms := {SEND, RECEIVE, CONNECT, SET_LABEL, CONT_MATCH, ACCEPT}

  const CMD_ADDR := 1
  const CMD_LISTEN := 2
  const CMD_OPT := 4

  /** The kernel's position of a network permission; some have none. */
  function MapBit(b: int): Perms {
    if 0 <= b < 7 then {b}
    else if b == SETATTR || b == GETATTR then {b + 6}
    else if ACCEPT <= b <= LISTEN then {b - 4}
    else if b == SETOPT || b == GETOPT then {b - 5}
    else {}
  }

  function MapPerms(mask: Perms): Perms {
    set b, m | b in mask && m in MapBit(b) :: m
  }

  /** Different permissions stay different: no kernel bit has two meanings. */
  lemma MapPermsSeparates(a: int, b: int, m: int)
    requires m in MapBit(a) && m in MapBit(b)
    ensures a == b
  {}

  // ----- Pattern text -----

  function U16(v: int): string {
    HexByte(v % 65536 / 256) + HexByte(v % 256)
  }

  const HEX_DIGIT := "[0-9a-f]"
  const AUTOBIND_ADDRESS := "\\x00" + HEX_DIGIT + HEX_DIGIT + HEX_DIGIT + HEX_DIGIT + HEX_DIGIT

  function SocketText(netClass: nat, b: Body): string
    requires netClass < 256 && b.Unix?
  {
    HexByte(netClass) + U16(AF_UNIX) + (if b.sockType.Some? then U16(b.sockTypeN) else "..") +
    (if b.proto.Some? then U16(b.protoN) else "..")
  }

  predicate GlobOk(s: Option<string>, buffer: string) {
    s.Some? ==> Convert(s.value, false, Default, buffer).0 != Invalid
  }

  /** A glob behind what is already in the buffer; a missing one matches anything. */
  function GlobText(s: Option<string>, buffer: string): string {
    if s.Some? then Convert(s.value, false, Default, buffer).1 else buffer + ANY
  }

  predicate LabelOk(s: Option<string>) {
    GlobOk(s, "")
  }

  function LabelText(s: Option<string>): string {
    GlobText(s, "")
  }

  /** An abstract address without its leading @. */
  function Abstract(s: string): string {
    if s == "" then "" else s[1..]
  }

  predicate IsSpecial(s: string) {
    s == "none" || s == "auto"
  }

  predicate AddrOk(s: Option<string>) {
    s.Some? && !IsSpecial(s.value) ==> Convert(Abstract(s.value), false, Null, "").0 != Invalid
  }

  function AddrText(s: Option<string>): string {
    if s.None? then ".*" + "\\x00"
    else if s.value == "none" then "\\x01" + "\\x00"
    else if s.value == "auto" then AUTOBIND_ADDRESS + "\\x00"
    else "\\x00" + Convert(Abstract(s.value), false, Null, "").1 + "\\x00"
  }

  function LocalText(netClass: nat, b: Body): string
    requires netClass < 256 && b.Unix?
  {
    SocketText(netClass, b) + AddrText(b.addr) + LabelText(b.ownLabel) + "\\x00"
  }

  predicate HasPeerConds(b: Body)
    requires b.Unix?
  {
    b.peerLabel.Some? || b.peerAddr.Some?
  }

  predicate Autobinds(b: Body)
    requires b.Unix?
  {
    b.addr.None? || b.addr.value == "auto"
  }

  // ----- Which permission is checked at which pattern -----

  /** A pattern and the permissions it may carry; `whole` says auditing one of them audits all. */
  datatype Target = Target(pattern: seq<string>, bits: Perms, whole: bool)

  function CreateTarget(netClass: nat, b: Body): Target
    requires netClass < 256 && b.Unix?
  {
    Target([SocketText(netClass, b)], if HasPeerConds(b) then {} else {CREATE}, false)
  }

  function AutobindTarget(netClass: nat, b: Body): Target
    requires netClass < 256 && b.Unix?
  {
    Target([SocketText(netClass, b) + "\\x00" + LabelText(b.ownLabel) + "\\x00"],
      if Autobinds(b) then {BIND} else {}, false)
  }

  function LocalTarget(netClass: nat, b: Body): Target
    requires netClass < 256 && b.Unix?
  {
    Target([LocalText(netClass, b)],
      if HasPeerConds(b) then {ACCEPT}
      else if b.addr == Some("auto") then {ACCEPT, SHUTDOWN, SETATTR, GETATTR}
      else {ACCEPT, SHUTDOWN, SETATTR, GETATTR, BIND}, false)
  }

  function ListenTarget(netClass: nat, b: Body): Target
    requires netClass < 256 && b.Unix?
  {
    Target([LocalText(netClass, b) + HexByte(CMD_LISTEN) + ".."], if HasPeerConds(b) then {} else {LISTEN}, false)
  }

  function OptTarget(netClass: nat, b: Body): Target
    requires netClass < 256 && b.Unix?
  {
    Target([LocalText(netClass, b) + HexByte(CMD_OPT) + ".."], if HasPeerConds(b) then {} else NET_OPT, true)
  }

  function PeerTarget(netClass: nat, b: Body): Target
    requires netClass < 256 && b.Unix?
  {
    Target([LocalText(netClass, b) + HexByte(CMD_ADDR) + AddrText(b.peerAddr) + LabelText(b.peerLabel)],
      PEER_NET_PERMS, false)
  }

  function SocketTargets(netClass: nat, b: Body): seq<Target>
    requires netClass < 256 && b.Unix?
  {
    [CreateTarget(netClass, b)] + [AutobindTarget(netClass, b)]
  }

  function LocalTargets(netClass: nat, b: Body): seq<Target>
    requires netClass < 256 && b.Unix?
  {
    [LocalTarget(netClass, b)] + [ListenTarget(netClass, b)] + [OptTarget(netClass, b)]
  }

  function UnixTargets(netClass: nat, b: Body): seq<Target>
    requires netClass < 256 && b.Unix?
  {
    SocketTargets(netClass, b) + LocalTargets(netClass, b) + [PeerTarget(netClass, b)]
  }

  function DbusVec(b: Body): seq<string>
    requires b.Dbus?
  {
    [ GlobText(b.bus, HexByte(AA_CLASS_DBUS)), LabelText(b.name), LabelText(b.peer),
      LabelText(b.path), LabelText(b.iface), LabelText(b.member) ]
  }

  function DbusTargets(b: Body): seq<Target>
    requires b.Dbus?
  {
    [ Target(DbusVec(b)[..2], {DBUS_BIND}, false),
      Target(DbusVec(b), {SEND, RECEIVE}, false),
      Target(DbusVec(b)[..1], {DBUS_EAVESDROP}, false) ]
  }

  function Targets(netClass: nat, b: Body): seq<Target>
    requires netClass < 256
  {
    if b.Unix? then UnixTargets(netClass, b) else DbusTargets(b)
  }

  function Encoded(b: Body, mask: Perms): Perms {
    if b.Unix? then MapPerms(mask) else mask
  }

  /** The permissions of a rule grant m at the pattern. */
  predicate Grants(ts: seq<Target>, b: Body, perms: Perms, pattern: seq<string>, m: int) {
    exists t :: t in ts && t.pattern == pattern && m in Encoded(b, perms * t.bits)
  }

  function AuditBits(t: Target, perms: Perms): Perms {
    if t.whole && perms * t.bits != {} then t.bits else perms * t.bits
  }

  /** ... and, on an audited rule, audit it. */
  predicate Audits(ts: seq<Target>, b: Body, perms: Perms, pattern: seq<string>, m: int) {
    exists t :: t in ts && t.pattern == pattern && m in Encoded(b, AuditBits(t, perms))
  }

  // ----- One permission at a time -----

  lemma EncodedByBits(b: Body, mask: Perms, m: int)
    ensures m in Encoded(b, mask) <==> exists c :: c in mask && m in Encoded(b, {c})
  {
    if m in Encoded(b, mask) {
      if b.Unix? {
        var c :| c in mask && m in MapBit(c);
        assert c in {c};
        assert m in Encoded(b, {c});
      } else {
        assert m in Encoded(b, {m});
      }
    }
  }

  lemma TargetByBits(t: Target, b: Body, perms: Perms, m: int)
    ensures m in Encoded(b, perms * t.bits) <==> exists c :: c in perms && m in Encoded(b, {c} * t.bits)
  {
    EncodedByBits(b, perms * t.bits, m);
    if c :| c in perms * t.bits && m in Encoded(b, {c}) {
      assert {c} * t.bits == {c};
    }
    if c :| c in perms && m in Encoded(b, {c} * t.bits) {
      EncodedByBits(b, {c} * t.bits, m);
    }
  }

  lemma TargetAuditByBits(t: Target, b: Body, perms: Perms, m: int)
    ensures m in Encoded(b, AuditBits(t, perms)) <==> exists c :: c in perms && m in Encoded(b, AuditBits(t, {c}))
  {
    if !t.whole {
      TargetByBits(t, b, perms, m);
    } else if exists c :: c in perms && c in t.bits {
      var c :| c in perms && c in t.bits;
      assert c in perms * t.bits;
      assert {c} * t.bits == {c};
    } else {
      assert perms * t.bits == {};
      assert forall c :: c in perms ==> {c} * t.bits == {};
    }
  }

  /** A rule grants what its permissions grant one by one. */
  lemma GrantsByBits(ts: seq<Target>, b: Body, perms: Perms, pattern: seq<string>, m: int)
    ensures Grants(ts, b, perms, pattern, m) <==> exists c :: c in perms && Grants(ts, b, {c}, pattern, m)
  {
    forall t | t in ts {
      TargetByBits(t, b, perms, m);
    }
  }

  lemma AuditsByBits(ts: seq<Target>, b: Body, perms: Perms, pattern: seq<string>, m: int)
    ensures Audits(ts, b, perms, pattern, m) <==> exists c :: c in perms && Audits(ts, b, {c}, pattern, m)
  {
    forall t | t in ts {
      TargetAuditByBits(t, b, perms, m);
    }
  }

  // ----- The encoders -----

  /** A rule handed to the regex back end. */
  datatype Added = Added(pattern: seq<string>, priority: int, mode: RuleMode, perms: Perms, audit: Perms)

  ghost predicate Sends(out: seq<Added>, pattern: seq<string>, m: int) {
    exists r :: r in out && r.pattern == pattern && m in r.perms
  }

  ghost predicate SendsAudit(out: seq<Added>, pattern: seq<string>, m: int) {
    exists r :: r in out && r.pattern == pattern && m in r.audit
  }

  predicate IsAudited(k: Key) {
    AuditEq(k.prefix.audit, Force)
  }

  /** What was added so far is what the targets ask for. */
  ghost predicate Covers(out: seq<Added>, ts: seq<Target>, k: Key, perms: Perms) {
    && (forall r :: r in out ==> r.priority == k.prefix.priority && r.mode == k.prefix.mode)
    && (forall p, m :: Sends(out, p, m) <==> Grants(ts, k.body, perms, p, m))
    && (forall p, m :: SendsAudit(out, p, m) <==> IsAudited(k) && Audits(ts, k.body, perms, p, m))
  }

  function Record(k: Key, pattern: seq<string>, bits: Perms, audit: Perms): Added {
    Added(pattern, k.prefix.priority, k.prefix.mode, Encoded(k.body, bits),
      Encoded(k.body, if IsAudited(k) then audit else {}))
  }

  lemma NothingEncoded(b: Body)
    ensures Encoded(b, {}) == {}
  {}

  /** A target is covered by one record with the permissions it may carry, or by none when there are none. */
  lemma CoversNext(out: seq<Added>, ts: seq<Target>, k: Key, perms: Perms, t: Target, added: seq<Added>)
    requires Covers(out, ts, k, perms)
    requires added == if perms * t.bits == {} then [] else [Record(k, t.pattern, perms * t.bits, AuditBits(t, perms))]
    ensures Covers(out + added, ts + [t], k, perms)
  {
    var r := Record(k, t.pattern, perms * t.bits, AuditBits(t, perms));
    NothingEncoded(k.body);
    forall p, m
      ensures Sends(out + added, p, m) <==> Grants(ts + [t], k.body, perms, p, m)
    {
      assert Grants(ts + [t], k.body, perms, p, m) <==>
          Grants(ts, k.body, perms, p, m) || (t.pattern == p && m in Encoded(k.body, perms * t.bits));
      assert Sends(out + added, p, m) <==> Sends(out, p, m) || (r in added && r.pattern == p && m in r.perms);
    }
    forall p, m
      ensures SendsAudit(out + added, p, m) <==> IsAudited(k) && Audits(ts + [t], k.body, perms, p, m)
    {
      assert Audits(ts + [t], k.body, perms, p, m) <==>
          Audits(ts, k.body, perms, p, m) || (t.pattern == p && m in Encoded(k.body, AuditBits(t, perms)));
      assert SendsAudit(out + added, p, m) <==> SendsAudit(out, p, m) || (r in added && r.pattern == p && m in r.audit);
    }
  }

  /** A glob written behind what is already in the buffer. */
  method WriteGlob(s: Option<string>, buffer: string) returns (ok: bool, text: string)
    ensures ok <==> GlobOk(s, buffer)
    ensures ok ==> text == GlobText(s, buffer)
  {
    if s.Some? {
      var ptype;
      ptype, text := ConvertAaregexToPcre(s.value, false, Default, buffer);
      return ptype != Invalid, text;
    }
    return true, buffer + ANY;
  }

  method WriteLabel(buffer: string, s: Option<string>) returns (ok: bool, text: string)
    ensures ok <==> LabelOk(s)
    ensures ok ==> text == buffer + LabelText(s)
  {
    if s.Some? {
      var ptype, buf := ConvertAaregexToPcre(s.value, false, Default, "");
      return ptype != Invalid, buffer + buf;
    }
    assert "" + ANY == ANY;
    return true, buffer + ANY;
  }

  method WriteAddr(buffer: string, s: Option<string>) returns (ok: bool, text: string)
    ensures ok <==> AddrOk(s)
    ensures ok ==> text == buffer + AddrText(s)
  {
    text := buffer;
    if s.Some? {
      if s.value == "none" {
        text := text + "\\x01";
      } else if s.value == "auto" {
        text := text + AUTOBIND_ADDRESS;
      } else {
        var ptype, buf := ConvertAaregexToPcre(Abstract(s.value), false, Null, "");
        if ptype == Invalid {
          return false, text;
        }
        text := text + "\\x00";
        text := text + buf;
        Regroup3(buffer, "\\x00", buf, "\\x00");
      }
    } else {
      text := text + ".*";
    }
    text := text + "\\x00";
    ok := true;
  }

  /** What is left to encode behind the socket address. */
  function Rest(b: Body, perms: Perms): Perms
    requires b.Unix?
  {
    perms - (if HasPeerConds(b) then {} else {CREATE}) - (if b.addr == Some("auto") then {BIND} else {})
  }

  /** The back end takes a rule whose patterns it can read. */
  predicate Taken(t: Target) { t.pattern != [] && RuleTrees.Joined(t.pattern, false).Some? }

  predicate AllTaken(ts: seq<Target>, perms: Perms)
  {
    forall t :: t in ts && perms * t.bits != {} ==> Taken(t)
  }

  /** A glob the rule needs for its permissions is not valid. */
  predicate UnixGlobFails(b: Body, perms: Perms)
    requires b.Unix?
  {
    || (BIND in perms && Autobinds(b) && !LabelOk(b.ownLabel))
    || (Rest(b, perms) != {} && !(AddrOk(b.addr) && LabelOk(b.ownLabel)))
    || (perms * PEER_NET_PERMS != {} && !(AddrOk(b.peerAddr) && LabelOk(b.peerLabel)))
  }

  /** Hands a rule to the back end when there is something to grant; t is the target this serves. */
  method AddIf(out: seq<Added>, ghost ts: seq<Target>, k: Key, ghost perms: Perms, ghost t: Target,
               some: bool, text: string, bits: Perms, audit: Perms) returns (ok: bool, r: seq<Added>)
    requires Covers(out, ts, k, perms)
    requires some <==> perms * t.bits != {}
    requires some ==> [text] == t.pattern && bits == perms * t.bits && audit == AuditBits(t, perms)
    ensures ok <==> AllTaken([t], perms)
    ensures ok ==> Covers(r, ts + [t], k, perms)
  {
    assert t in [t];
    if some && RuleTrees.Joined([text], false).None? {
      return false, out;
    }
    var added := if some then [Record(k, [text], bits, audit)] else [];
    CoversNext(out, ts, k, perms, t, added);
    return true, out + added;
  }

  lemma TakenBoth(ts: seq<Target>, us: seq<Target>, perms: Perms)
    ensures AllTaken(ts + us, perms) <==> AllTaken(ts, perms) && AllTaken(us, perms)
  {
  }

  lemma SocketBits(netClass: nat, b: Body, perms: Perms)
    requires netClass < 256 && b.Unix?
    ensures perms * CreateTarget(netClass, b).bits == if CREATE in perms && !HasPeerConds(b) then {CREATE} else {}
    ensures perms * AutobindTarget(netClass, b).bits == if BIND in perms && Autobinds(b) then {BIND} else {}
  {
  }

  /** Creation and automatic binding, before any address is written. */
  method GenSocket(k: Key, perms: Perms, netClass: nat, buffer: string) returns (ok: bool, out: seq<Added>, mask: Perms)
    requires netClass < 256 && k.body.Unix? && buffer == SocketText(netClass, k.body)
    ensures ok <==>
      && !(BIND in perms && Autobinds(k.body) && !LabelOk(k.body.ownLabel))
      && AllTaken(SocketTargets(netClass, k.body), perms)
    ensures ok ==> mask == Rest(k.body, perms)
    ensures ok ==> Covers(out, SocketTargets(netClass, k.body), k, perms)
  {
    var b := k.body;
    mask, out := perms, [];
    ghost var create, autobind := CreateTarget(netClass, b), AutobindTarget(netClass, b);
    SocketBits(netClass, b, perms);
    TakenBoth([create], [autobind], perms);
    var some := CREATE in mask && !HasPeerConds(b);
    ok, out := AddIf(out, [], k, perms, create, some, buffer, {CREATE}, {CREATE});
    if !ok {
      return;
    }
    if some {
      mask := mask - {CREATE};
    }
    some := BIND in mask && Autobinds(b);
    var text := "";
    if some {
      ok, text := WriteLabel(buffer + "\\x00", b.ownLabel);
      if !ok {
        return;
      }
      text := text + "\\x00";
      if b.addr.Some? {
        mask := mask - {BIND};
      }
    }
    ok, out := AddIf(out, [create], k, perms, autobind, some, text, {BIND}, {BIND});
  }

  function LocalMask(b: Body): Perms
    requires b.Unix?
  {
    if HasPeerConds(b) then {ACCEPT} else LOCAL_NET_PERMS - LOCAL_NET_CMD
  }

  lemma LocalBits(netClass: nat, b: Body, perms: Perms, mask: Perms)
    requires netClass < 256 && b.Unix? && mask == Rest(b, perms)
    ensures perms * LocalTarget(netClass, b).bits == mask * LocalMask(b)
    ensures perms * ListenTarget(netClass, b).bits == if LISTEN in mask && !HasPeerConds(b) then {LISTEN} else {}
    ensures perms * OptTarget(netClass, b).bits == if HasPeerConds(b) then {} else mask * NET_OPT
  {
  }

  /** The local permissions, behind the local address; buffer already holds it. */
  method GenLocal(k: Key, perms: Perms, netClass: nat, buffer: string, mask: Perms, before: seq<Added>)
    returns (ok: bool, out: seq<Added>)
    requires netClass < 256 && k.body.Unix? && buffer == LocalText(netClass, k.body) && mask == Rest(k.body, perms)
    requires Covers(before, SocketTargets(netClass, k.body), k, perms)
    ensures ok <==> AllTaken(LocalTargets(netClass, k.body), perms)
    ensures ok ==> Covers(out, SocketTargets(netClass, k.body) + LocalTargets(netClass, k.body), k, perms)
  {
    var b := k.body;
    ghost var ts := SocketTargets(netClass, b);
    ghost var local, listen, opt := LocalTarget(netClass, b), ListenTarget(netClass, b), OptTarget(netClass, b);
    LocalBits(netClass, b, perms, mask);
    TakenBoth([local] + [listen], [opt], perms);
    TakenBoth([local], [listen], perms);
    var bits := mask * LocalMask(b);
    ok, out := AddIf(before, ts, k, perms, local, bits != {}, buffer, bits, bits);
    if !ok {
      return;
    }
    var some := LISTEN in mask && !HasPeerConds(b);
    ok, out := AddIf(out, ts + [local], k, perms, listen, some,
      buffer + HexByte(CMD_LISTEN) + "..", {LISTEN}, {LISTEN});
    if !ok {
      return;
    }
    some := mask * NET_OPT != {} && !HasPeerConds(b);
    ok, out := AddIf(out, ts + [local] + [listen], k, perms, opt, some,
      buffer + HexByte(CMD_OPT) + "..", mask * NET_OPT, NET_OPT);
    Regrouped(ts, local, listen, opt);
  }

  lemma Regrouped(ts: seq<Target>, a: Target, b: Target, c: Target)
    ensures ts + [a] + [b] + [c] == ts + ([a] + [b] + [c])
  {
  }

  /** Nothing is left behind the socket address, so nothing local is wanted. */
  lemma NothingLocal(k: Key, perms: Perms, netClass: nat, out: seq<Added>)
    requires netClass < 256 && k.body.Unix? && Rest(k.body, perms) == {}
    requires Covers(out, SocketTargets(netClass, k.body), k, perms)
    ensures Covers(out, SocketTargets(netClass, k.body) + LocalTargets(netClass, k.body), k, perms)
    ensures AllTaken(LocalTargets(netClass, k.body), perms)
  {
    var b, ts := k.body, SocketTargets(netClass, k.body);
    var local, listen, opt := LocalTarget(netClass, b), ListenTarget(netClass, b), OptTarget(netClass, b);
    LocalBits(netClass, b, perms, {});
    CoversNext(out, ts, k, perms, local, []);
    CoversNext(out, ts + [local], k, perms, listen, []);
    CoversNext(out, ts + [local] + [listen], k, perms, opt, []);
    assert out + [] == out;
    Regrouped(ts, local, listen, opt);
  }

  /** What is written behind the socket address when anything is left to encode. */
  method GenBehindSocket(k: Key, perms: Perms, netClass: nat, buffer: string, mask: Perms, before: seq<Added>)
    returns (ok: bool, text: string, out: seq<Added>)
    requires netClass < 256 && k.body.Unix? && buffer == SocketText(netClass, k.body) && mask == Rest(k.body, perms)
    requires Covers(before, SocketTargets(netClass, k.body), k, perms)
    ensures ok <==>
      && !(Rest(k.body, perms) != {} && !(AddrOk(k.body.addr) && LabelOk(k.body.ownLabel)))
      && AllTaken(LocalTargets(netClass, k.body), perms)
    ensures ok && mask != {} ==> text == LocalText(netClass, k.body)
    ensures ok ==> Covers(out, SocketTargets(netClass, k.body) + LocalTargets(netClass, k.body), k, perms)
  {
    var b := k.body;
    text, out := buffer, before;
    if mask == {} {
      NothingLocal(k, perms, netClass, before);
      return true, text, out;
    }
    ok, text := WriteAddr(text, b.addr);
    if !ok {
      return;
    }
    ok, text := WriteLabel(text, b.ownLabel);
    if !ok {
      return;
    }
    text := text + "\\x00";
    ok, out := GenLocal(k, perms, netClass, text, mask, before);
  }

  /** The permissions that involve the peer, behind the peer's address. */
  method GenPeer(k: Key, perms: Perms, netClass: nat, buffer: string, mask: Perms, before: seq<Added>)
    returns (ok: bool, out: seq<Added>)
    requires netClass < 256 && k.body.Unix?
    requires perms * PEER_NET_PERMS != {} ==> buffer == LocalText(netClass, k.body)
    requires mask * PEER_NET_PERMS == perms * PEER_NET_PERMS
    requires Covers(before, SocketTargets(netClass, k.body) + LocalTargets(netClass, k.body), k, perms)
    ensures ok <==>
      && !(perms * PEER_NET_PERMS != {} && !(AddrOk(k.body.peerAddr) && LabelOk(k.body.peerLabel)))
      && AllTaken([PeerTarget(netClass, k.body)], perms)
    ensures ok ==> Covers(out, UnixTargets(netClass, k.body), k, perms)
  {
    var b, text := k.body, buffer;
    if mask * PEER_NET_PERMS != {} {
      text := text + HexByte(CMD_ADDR);
      ok, text := WriteAddr(text, b.peerAddr);
      if !ok {
        return ok, before;
      }
      ok, text := WriteLabel(text, b.peerLabel);
      if !ok {
        return ok, before;
      }
    }
    ok, out := AddIf(before, SocketTargets(netClass, b) + LocalTargets(netClass, b), k, perms, PeerTarget(netClass, b),
      mask * PEER_NET_PERMS != {}, text, perms * PEER_NET_PERMS, perms * PEER_NET_PERMS);
  }

  /** A glob or a pattern the rule needs for its permissions is not valid. */
  predicate UnixFails(netClass: nat, b: Body, perms: Perms)
    requires netClass < 256 && b.Unix?
  {
    UnixGlobFails(b, perms) || !AllTaken(UnixTargets(netClass, b), perms)
  }

  /** What the peer's permissions need is left over. */
  lemma PeerLeft(b: Body, perms: Perms)
    requires b.Unix?
    ensures (Rest(b, perms) - (LOCAL_NET_PERMS - {ACCEPT})) * PEER_NET_PERMS == perms * PEER_NET_PERMS
    ensures Rest(b, perms) == {} ==> perms * PEER_NET_PERMS == {}
  {
    forall c | c in perms * PEER_NET_PERMS ensures c in Rest(b, perms) {
    }
  }

  /** Encodes a unix rule: every permission is granted, and audited, exactly at the patterns that check it. */
  method GenUnix(k: Key, perms: Perms, netClass: nat) returns (ok: bool, out: seq<Added>)
    requires netClass < 256 && k.body.Unix?
    ensures ok <==> !UnixFails(netClass, k.body, perms)
    ensures ok ==> Covers(out, Targets(netClass, k.body), k, perms)
  {
    var b := k.body;
    var buffer := SocketText(netClass, b);
    var mask;
    TakenBoth(SocketTargets(netClass, b) + LocalTargets(netClass, b), [PeerTarget(netClass, b)], perms);
    TakenBoth(SocketTargets(netClass, b), LocalTargets(netClass, b), perms);
    ok, out, mask := GenSocket(k, perms, netClass, buffer);
    if !ok {
      return;
    }
    ok, buffer, out := GenBehindSocket(k, perms, netClass, buffer, mask, out);
    if !ok {
      return;
    }
    PeerLeft(b, perms);
    mask := mask - (LOCAL_NET_PERMS - {ACCEPT});
    ok, out := GenPeer(k, perms, netClass, buffer, mask, out);
  }

  predicate DbusGlobFails(b: Body)
    requires b.Dbus?
  {
    !(GlobOk(b.bus, HexByte(AA_CLASS_DBUS)) && LabelOk(b.name) && LabelOk(b.peer) &&
      LabelOk(b.path) && LabelOk(b.iface) && LabelOk(b.member))
  }

  /** The six patterns of a dbus rule; the first that is invalid ends it. */
  method WriteDbus(b: Body) returns (ok: bool, vec: seq<string>)
    requires b.Dbus?
    ensures ok <==> !DbusGlobFails(b)
    ensures ok ==> vec == DbusVec(b)
  {
    vec := [];
    var bus, name, peer, path, iface, member;
    ok, bus := WriteGlob(b.bus, HexByte(AA_CLASS_DBUS));
    if !ok { return; }
    ok, name := WriteGlob(b.name, "");
    if !ok { return; }
    ok, peer := WriteGlob(b.peer, "");
    if !ok { return; }
    ok, path := WriteGlob(b.path, "");
    if !ok { return; }
    ok, iface := WriteGlob(b.iface, "");
    if !ok { return; }
    ok, member := WriteGlob(b.member, "");
    if !ok { return; }
    vec := [bus, name, peer, path, iface, member];
  }

  predicate DbusFails(b: Body, perms: Perms)
    requires b.Dbus?
  {
    DbusGlobFails(b) || !AllTaken(DbusTargets(b), perms)
  }

  /** One rule for the target, when there is something to grant. */
  method AddVec(out: seq<Added>, ghost ts: seq<Target>, k: Key, perms: Perms, t: Target)
    returns (ok: bool, r: seq<Added>)
    requires Covers(out, ts, k, perms) && t.pattern != [] && !t.whole
    ensures ok <==> AllTaken([t], perms)
    ensures ok ==> Covers(r, ts + [t], k, perms)
  {
    assert t in [t];
    var bits := perms * t.bits;
    if bits != {} && RuleTrees.Joined(t.pattern, false).None? {
      return false, out;
    }
    var added := if bits != {} then [Record(k, t.pattern, bits, bits)] else [];
    CoversNext(out, ts, k, perms, t, added);
    return true, out + added;
  }

  method GenDbus(k: Key, perms: Perms, netClass: nat) returns (ok: bool, out: seq<Added>)
    requires netClass < 256 && k.body.Dbus?
    ensures ok <==> !DbusFails(k.body, perms)
    ensures ok ==> Covers(out, Targets(netClass, k.body), k, perms)
  {
    var b := k.body;
    out := [];
    var vec;
    ok, vec := WriteDbus(b);
    if !ok { return; }
    ghost var ts := DbusTargets(b);
    assert ts == [ts[0]] + [ts[1]] + [ts[2]];
    var bind := Target(vec[..2], {DBUS_BIND}, false);
    var send := Target(vec, {SEND, RECEIVE}, false);
    var eavesdrop := Target(vec[..1], {DBUS_EAVESDROP}, false);
    ok, out := AddVec(out, [], k, perms, bind);
    if !ok { return; }
    ok, out := AddVec(out, [bind], k, perms, send);
    if !ok { return; }
    ok, out := AddVec(out, [bind] + [send], k, perms, eavesdrop);
    assert [bind] + [send] + [eavesdrop] == ts;
  }
}
