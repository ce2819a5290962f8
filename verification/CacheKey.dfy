/** The key of a cached file DFA: which entries are hashed, in what order, and into which bytes. */
module CacheKey {
  import opened Strings
  import opened Digest
  import opened Prefixes

  // The bytes of a C string.
  type Text = s: seq<Byte> | forall i :: 0 <= i < |s| ==> s[i] != 0

  type Word32 = v: int | 0 <= v < 0x1_0000_0000

  /** The fields of a file entry that are hashed. */
  datatype Rule = Rule(name: Option<Text>, perms: Word32, audit: Audit, mode: RuleMode, priority: Word32,
                       link: Option<Text>, subset: bool, transition: Option<Text>)

  const SEP: Byte := 0xff

  /** A word in memory, least significant byte first, in front of rest. */
  function WordThen(v: Word32, rest: seq<Byte>): seq<Byte> {
    BytesThen(v, 4, rest)
  }

  function BytesThen(v: nat, n: nat, rest: seq<Byte>): (r: seq<Byte>)
    ensures |r| == n + |rest|
  {
    if n == 0 then rest else [v % 256] + BytesThen(v / 256, n - 1, rest)
  }

  /** A string with its terminator, or the null marker. */
  function StringThen(s: Option<Text>, rest: seq<Byte>): seq<Byte> {
    (if s.Some? then s.value else []) + ([0] + rest)
  }

  /** A linked entry carries its subset flag behind the link name. */
  function LinkThen(r: Rule, rest: seq<Byte>): seq<Byte> {
    StringThen(r.link, if r.link.Some? then [if r.subset then 1 else 0] + rest else rest)
  }

  function AttributesThen(r: Rule, rest: seq<Byte>): seq<Byte> {
    WordThen(r.perms, WordThen(AuditRank(r.audit), WordThen(ModeRank(r.mode), WordThen(r.priority, rest))))
  }

  /** The bytes hashed for an entry, in front of rest. */
  function RuleThen(r: Rule, rest: seq<Byte>): seq<Byte> {
    StringThen(r.name, [SEP] + AttributesThen(r, [SEP] + LinkThen(r, [SEP] + StringThen(r.transition, [SEP] + rest))))
  }

  function RulesThen(rules: seq<Rule>, rest: seq<Byte>): seq<Byte> {
    if rules == [] then rest else RuleThen(rules[0], RulesThen(rules[1..], rest))
  }

  /** What the bytes can tell apart: no name is like an empty one, and so for transitions; an unlinked entry has
      no subset flag. */
  function Seen(r: Rule): Rule {
    r.(name := if r.name.None? then Some([]) else r.name,
       subset := r.link.Some? && r.subset,
       transition := if Contents(r.transition) == [] then None else r.transition)
  }

  predicate SameSeen(a: seq<Rule>, b: seq<Rule>) {
    |a| == |b| && forall i :: 0 <= i < |a| ==> Seen(a[i]) == Seen(b[i])
  }

  function Contents(s: Option<Text>): Text {
    if s.Some? then s.value else []
  }

  lemma Behind(c: Byte, x: seq<Byte>, y: seq<Byte>)
    requires [c] + x == [c] + y
    ensures x == y
  {
    assert x == ([c] + x)[1..] && y == ([c] + y)[1..];
  }

  lemma {:induction false} TextsSplit(s: Text, t: Text, x: seq<Byte>, y: seq<Byte>)
    requires s + ([0] + x) == t + ([0] + y)
    ensures s == t && x == y
  {
    var l, r := s + ([0] + x), t + ([0] + y);
    if s == [] || t == [] {
      assert l[0] == 0;
      assert l == [0] + x && r == [0] + y;
      Behind(0, x, y);
    } else {
      assert l[0] == s[0] && r[0] == t[0];
      assert l[1..] == s[1..] + ([0] + x) && r[1..] == t[1..] + ([0] + y);
      TextsSplit(s[1..], t[1..], x, y);
      assert s == [s[0]] + s[1..] && t == [t[0]] + t[1..];
    }
  }

  lemma {:induction false} BytesSplit(v: nat, w: nat, n: nat, x: seq<Byte>, y: seq<Byte>)
    requires v < Power256(n) && w < Power256(n)
    requires BytesThen(v, n, x) == BytesThen(w, n, y)
    ensures v == w && x == y
  {
    if n > 0 {
      var l, r := BytesThen(v / 256, n - 1, x), BytesThen(w / 256, n - 1, y);
      assert ([v % 256] + l)[0] == ([w % 256] + r)[0];
      Behind(v % 256, l, r);
      BytesSplit(v / 256, w / 256, n - 1, x, y);
    }
  }

  lemma WordsSplit(v: Word32, w: Word32, x: seq<Byte>, y: seq<Byte>)
    requires WordThen(v, x) == WordThen(w, y)
    ensures v == w && x == y
  {
    assert Power256(4) == 0x1_0000_0000;
    BytesSplit(v, w, 4, x, y);
  }

  lemma AttributesSplit(a: Rule, b: Rule, x: seq<Byte>, y: seq<Byte>)
    requires AttributesThen(a, x) == AttributesThen(b, y)
    ensures a.perms == b.perms && a.audit == b.audit && a.mode == b.mode && a.priority == b.priority && x == y
  {
    var p, q := WordThen(a.priority, x), WordThen(b.priority, y);
    var m, n := WordThen(ModeRank(a.mode), p), WordThen(ModeRank(b.mode), q);
    WordsSplit(a.perms, b.perms, WordThen(AuditRank(a.audit), m), WordThen(AuditRank(b.audit), n));
    WordsSplit(AuditRank(a.audit), AuditRank(b.audit), m, n);
    WordsSplit(ModeRank(a.mode), ModeRank(b.mode), p, q);
    WordsSplit(a.priority, b.priority, x, y);
  }

  /** The byte behind the name, a separator or a flag, tells an unlinked entry from a linked one. */
  lemma LinksSplit(a: Rule, b: Rule, x: seq<Byte>, y: seq<Byte>)
    requires LinkThen(a, [SEP] + x) == LinkThen(b, [SEP] + y)
    ensures a.link == b.link && (a.link.Some? ==> a.subset == b.subset) && x == y
  {
    var fa, fb: Byte := if a.subset then 1 else 0, if b.subset then 1 else 0;
    var l := if a.link.Some? then [fa] + ([SEP] + x) else [SEP] + x;
    var r := if b.link.Some? then [fb] + ([SEP] + y) else [SEP] + y;
    TextsSplit(Contents(a.link), Contents(b.link), l, r);
    assert l[0] == if a.link.Some? then fa else SEP;
    assert r[0] == if b.link.Some? then fb else SEP;
    if a.link.Some? {
      Behind(fa, [SEP] + x, [SEP] + y);
    }
    Behind(SEP, x, y);
  }

  lemma {:induction false} RuleSplit(a: Rule, b: Rule, x: seq<Byte>, y: seq<Byte>)
    requires RuleThen(a, x) == RuleThen(b, y)
    ensures Seen(a) == Seen(b) && x == y
  {
    var ta, tb := StringThen(a.transition, [SEP] + x), StringThen(b.transition, [SEP] + y);
    var la, lb := LinkThen(a, [SEP] + ta), LinkThen(b, [SEP] + tb);
    var ra, rb := AttributesThen(a, [SEP] + la), AttributesThen(b, [SEP] + lb);
    TextsSplit(Contents(a.name), Contents(b.name), [SEP] + ra, [SEP] + rb);
    Behind(SEP, ra, rb);
    AttributesSplit(a, b, [SEP] + la, [SEP] + lb);
    Behind(SEP, la, lb);
    LinksSplit(a, b, ta, tb);
    TextsSplit(Contents(a.transition), Contents(b.transition), [SEP] + x, [SEP] + y);
    Behind(SEP, x, y);
  }

  lemma SeenBytes(a: Rule, b: Rule, rest: seq<Byte>)
    requires Seen(a) == Seen(b)
    ensures RuleThen(a, rest) == RuleThen(b, rest)
  {
    assert Contents(a.name) == Contents(b.name) && Contents(a.transition) == Contents(b.transition);
    var ta, tb := StringThen(a.transition, [SEP] + rest), StringThen(b.transition, [SEP] + rest);
    assert LinkThen(a, [SEP] + ta) == LinkThen(b, [SEP] + tb);
  }

  lemma LongerThanRest(r: Rule, rest: seq<Byte>)
    ensures |RuleThen(r, rest)| > |rest|
  {}

  lemma {:induction false} AtLeastRest(rules: seq<Rule>, rest: seq<Byte>)
    ensures |RulesThen(rules, rest)| >= |rest|
  {
    if rules != [] {
      AtLeastRest(rules[1..], rest);
      LongerThanRest(rules[0], RulesThen(rules[1..], rest));
    }
  }

  /**
   * The hashed bytes determine the entries and the settings behind them, up to what Seen forgets, and entries
   * that agree in that hash alike.
   */
  lemma {:induction false} BytesDetermineRules(a: seq<Rule>, b: seq<Rule>, x: seq<Byte>, y: seq<Byte>)
    requires |x| == |y|
    ensures RulesThen(a, x) == RulesThen(b, y) <==> SameSeen(a, b) && x == y
    decreases |a|
  {
    if a == [] || b == [] {
      AtLeastRest(a, x);
      AtLeastRest(b, y);
      if a != [] {
        AtLeastRest(a[1..], x);
        LongerThanRest(a[0], RulesThen(a[1..], x));
      }
      if b != [] {
        AtLeastRest(b[1..], y);
        LongerThanRest(b[0], RulesThen(b[1..], y));
      }
    } else {
      var ra, rb := RulesThen(a[1..], x), RulesThen(b[1..], y);
      BytesDetermineRules(a[1..], b[1..], x, y);
      assert SameSeen(a, b) <==> Seen(a[0]) == Seen(b[0]) && SameSeen(a[1..], b[1..]) by {
        SameSeenHead(a, b);
      }
      if RuleThen(a[0], ra) == RuleThen(b[0], rb) {
        RuleSplit(a[0], b[0], ra, rb);
      }
      if Seen(a[0]) == Seen(b[0]) {
        SeenBytes(a[0], b[0], ra);
      }
    }
  }

  lemma SameSeenHead(a: seq<Rule>, b: seq<Rule>)
    requires a != [] && b != []
    ensures SameSeen(a, b) <==> Seen(a[0]) == Seen(b[0]) && SameSeen(a[1..], b[1..])
  {
    if Seen(a[0]) == Seen(b[0]) && SameSeen(a[1..], b[1..]) {
      forall i | 0 <= i < |a| ensures Seen(a[i]) == Seen(b[i]) {
        assert i > 0 ==> a[i] == a[1..][i - 1] && b[i] == b[1..][i - 1];
      }
    }
  }

  /** Entries as the front end makes them: named, and with no empty transition. */
  predicate Proper(r: Rule) {
    r.name.Some? && (r.transition.Some? ==> r.transition.value != [])
  }

  predicate AllProper(a: seq<Rule>) {
    forall i :: 0 <= i < |a| ==> Proper(a[i])
  }

  /** The entry as it is compiled: the subset flag is only looked at on a link pair. */
  function Compiled(r: Rule): Rule {
    r.(subset := r.link.Some? && r.subset)
  }

  lemma ProperIsSeen(r: Rule)
    requires Proper(r)
    ensures Seen(r) == Compiled(r)
  {}

  predicate SameCompiled(a: seq<Rule>, b: seq<Rule>) {
    |a| == |b| && forall i :: 0 <= i < |a| ==> Compiled(a[i]) == Compiled(b[i])
  }

  lemma {:induction false} SeenAlike(a: seq<Rule>, b: seq<Rule>)
    requires SameSeen(a, b) && AllProper(a) && AllProper(b)
    ensures SameCompiled(a, b)
  {
    forall i | 0 <= i < |a| ensures Compiled(a[i]) == Compiled(b[i]) {
      ProperIsSeen(a[i]);
      ProperIsSeen(b[i]);
    }
  }

  /** On such entries the hashed bytes are injective: equal bytes come from entries that compile alike. */
  lemma {:induction false} BytesAreInjective(a: seq<Rule>, b: seq<Rule>, x: seq<Byte>, y: seq<Byte>)
    requires |x| == |y| && RulesThen(a, x) == RulesThen(b, y) && AllProper(a) && AllProper(b)
    ensures SameCompiled(a, b) && x == y
  {
    BytesDetermineRules(a, b, x, y);
    SeenAlike(a, b);
  }

  // ----- The blocks of a profile -----

  /** A block of rules; of each conditional at most the selected branch counts. */
  datatype Block = Block(rules: seq<Rule>, subblocks: seq<Block>, conds: seq<Cond>)

  datatype Cond = Unset | Set(block: Block)

  /** The entries in the order the file DFA is built from them. */
  function Fed(b: Block): seq<Rule> {
    b.rules + FedBlocks(b.subblocks) + FedConds(b.conds)
  }

  function FedBlocks(bs: seq<Block>): seq<Rule> {
    if bs == [] then [] else Fed(bs[0]) + FedBlocks(bs[1..])
  }

  function FedConds(cs: seq<Cond>): seq<Rule> {
    if cs == [] then [] else FedCond(cs[0]) + FedConds(cs[1..])
  }

  function FedCond(c: Cond): seq<Rule> {
    if c.Set? then Fed(c.block) else []
  }

  /** All entries of a list of blocks, block after block. */
  function Entries(bs: seq<Block>): seq<Rule> {
    if bs == [] then [] else bs[0].rules + Entries(bs[1..])
  }

  lemma {:induction false} EntriesJoin(a: seq<Block>, b: seq<Block>)
    ensures Entries(a + b) == Entries(a) + Entries(b)
  {
    if a == [] {
      assert a + b == b;
    } else {
      assert (a + b)[1..] == a[1..] + b;
      EntriesJoin(a[1..], b);
    }
  }

  /** The blocks to hash: their entries are those compiled, in the same order. */
  method CollectFileRuleBlocks(b: Block) returns (blocks: seq<Block>)
    ensures Entries(blocks) == Fed(b)
    decreases b, 1
  {
    var subblocks := CollectSubblocks(b);
    var conds := CollectConds(b);
    EntriesJoin([b] + subblocks, conds);
    EntriesJoin([b], subblocks);
    assert Entries([b]) == b.rules by {
      assert [b][1..] == [];
    }
    return [b] + subblocks + conds;
  }

  lemma NextBlock(bs: seq<Block>, i: nat, done: seq<Rule>)
    requires i < |bs|
    ensures done + FedBlocks(bs[i..]) == (done + Fed(bs[i])) + FedBlocks(bs[i + 1..])
  {
    assert bs[i..][0] == bs[i] && bs[i..][1..] == bs[i + 1..];
    Shift(done, Fed(bs[i]), FedBlocks(bs[i + 1..]));
  }

  lemma NextCond(cs: seq<Cond>, i: nat, done: seq<Rule>)
    requires i < |cs|
    ensures done + FedConds(cs[i..]) == (done + FedCond(cs[i])) + FedConds(cs[i + 1..])
  {
    assert cs[i..][0] == cs[i] && cs[i..][1..] == cs[i + 1..];
    Shift(done, FedCond(cs[i]), FedConds(cs[i + 1..]));
  }

  method CollectSubblocks(b: Block) returns (blocks: seq<Block>)
    ensures Entries(blocks) == FedBlocks(b.subblocks)
    decreases b, 0
  {
    blocks := [];
    ghost var done: seq<Rule> := [];
    for i := 0 to |b.subblocks|
      invariant done == Entries(blocks) && done + FedBlocks(b.subblocks[i..]) == FedBlocks(b.subblocks)
    {
      var more := CollectFileRuleBlocks(b.subblocks[i]);
      EntriesJoin(blocks, more);
      NextBlock(b.subblocks, i, done);
      blocks, done := blocks + more, done + Fed(b.subblocks[i]);
    }
    assert b.subblocks[|b.subblocks|..] == [] && done + [] == done;
  }

  method CollectConds(b: Block) returns (blocks: seq<Block>)
    ensures Entries(blocks) == FedConds(b.conds)
    decreases b, 0
  {
    blocks := [];
    ghost var done: seq<Rule> := [];
    for i := 0 to |b.conds|
      invariant done == Entries(blocks) && done + FedConds(b.conds[i..]) == FedConds(b.conds)
    {
      var more := CollectCond(b.conds[i]);
      EntriesJoin(blocks, more);
      NextCond(b.conds, i, done);
      blocks, done := blocks + more, done + FedCond(b.conds[i]);
    }
    assert b.conds[|b.conds|..] == [] && done + [] == done;
  }

  method CollectCond(c: Cond) returns (blocks: seq<Block>)
    ensures Entries(blocks) == FedCond(c)
    decreases c, 2
  {
    if c.Set? {
      blocks := CollectFileRuleBlocks(c.block);
    } else {
      blocks := [];
    }
  }

  // ----- Compiling a block -----

  /**
   * Every file entry is accepted by the back end, and the other rules of every block, taken together, encode.
   * Of a conditional the selected branch counts.
   */
  predicate Compiles(b: Block, accepts: Rule -> bool, encodes: Block -> bool) {
    && AllAccepted(b.rules, accepts) && encodes(b)
    && (forall i :: 0 <= i < |b.subblocks| ==> Compiles(b.subblocks[i], accepts, encodes))
    && (forall i :: 0 <= i < |b.conds| ==> CondCompiles(b.conds[i], accepts, encodes))
  }

  predicate CondCompiles(c: Cond, accepts: Rule -> bool, encodes: Block -> bool) {
    c.Set? ==> Compiles(c.block, accepts, encodes)
  }

  predicate AllAccepted(rules: seq<Rule>, accepts: Rule -> bool) {
    forall i :: 0 <= i < |rules| ==> accepts(rules[i])
  }

  /** Compiles a block: its entries go into the file DFA and its other rules into the policy DFA, until one is
      refused. */
  method GenPolicyRe(b: Block, accepts: Rule -> bool, encodes: Block -> bool) returns (ok: bool, fed: seq<Rule>)
    ensures ok <==> Compiles(b, accepts, encodes)
    ensures ok ==> fed == Fed(b)
    decreases b, 1
  {
    ok, fed := PostProcess(b, accepts, encodes);
    if ok {
      var more;
      ok, more := GenSubblocks(b, accepts, encodes);
      fed := fed + more;
      if ok {
        ok, more := GenConds(b, accepts, encodes);
        fed := fed + more;
      }
    }
  }

  method PostProcess(b: Block, accepts: Rule -> bool, encodes: Block -> bool) returns (ok: bool, fed: seq<Rule>)
    ensures ok <==> AllAccepted(b.rules, accepts) && encodes(b)
    ensures ok ==> fed == b.rules
  {
    fed := [];
    for i := 0 to |b.rules|
      invariant fed == b.rules[..i] && AllAccepted(fed, accepts)
    {
      if !accepts(b.rules[i]) {
        return false, fed;
      }
      fed := fed + [b.rules[i]];
    }
    ok := encodes(b);
  }

  method GenSubblocks(b: Block, accepts: Rule -> bool, encodes: Block -> bool) returns (ok: bool, fed: seq<Rule>)
    ensures ok <==> forall i :: 0 <= i < |b.subblocks| ==> Compiles(b.subblocks[i], accepts, encodes)
    ensures ok ==> fed == FedBlocks(b.subblocks)
    decreases b, 0
  {
    fed := [];
    for i := 0 to |b.subblocks|
      invariant fed + FedBlocks(b.subblocks[i..]) == FedBlocks(b.subblocks)
      invariant forall j :: 0 <= j < i ==> Compiles(b.subblocks[j], accepts, encodes)
    {
      NextBlock(b.subblocks, i, fed);
      var more;
      ok, more := GenPolicyRe(b.subblocks[i], accepts, encodes);
      fed := fed + more;
      if !ok {
        return;
      }
    }
    assert b.subblocks[|b.subblocks|..] == [] && fed + [] == fed;
    ok := true;
  }

  method GenConds(b: Block, accepts: Rule -> bool, encodes: Block -> bool) returns (ok: bool, fed: seq<Rule>)
    ensures ok <==> forall i :: 0 <= i < |b.conds| ==> CondCompiles(b.conds[i], accepts, encodes)
    ensures ok ==> fed == FedConds(b.conds)
    decreases b, 0
  {
    fed := [];
    for i := 0 to |b.conds|
      invariant fed + FedConds(b.conds[i..]) == FedConds(b.conds)
      invariant forall j :: 0 <= j < i ==> CondCompiles(b.conds[j], accepts, encodes)
    {
      NextCond(b.conds, i, fed);
      var more;
      ok, more := GenCond(b.conds[i], accepts, encodes);
      fed := fed + more;
      if !ok {
        return;
      }
    }
    assert b.conds[|b.conds|..] == [] && fed + [] == fed;
    ok := true;
  }

  method GenCond(c: Cond, accepts: Rule -> bool, encodes: Block -> bool) returns (ok: bool, fed: seq<Rule>)
    ensures ok <==> CondCompiles(c, accepts, encodes)
    ensures ok ==> fed == FedCond(c)
    decreases c, 2
  {
    if c.Set? {
      ok, fed := GenPolicyRe(c.block, accepts, encodes);
    } else {
      ok, fed := true, [];
    }
  }

  // ----- The content hash -----

  method Feed<S>(ctx: Context<S>, data: seq<Byte>, ghost rest: seq<Byte>)
    requires ctx.Valid()
    modifies ctx, ctx.buf
    ensures ctx.Valid() && ctx.message + rest == old(ctx.message) + (data + rest)
  {
    ctx.Update(data);
  }

  function WordBytes(v: Word32): seq<Byte> {
    WordThen(v, [])
  }

  lemma {:induction false} BytesInFront(v: nat, n: nat, rest: seq<Byte>)
    ensures BytesThen(v, n, rest) == BytesThen(v, n, []) + rest
  {
    if n > 0 {
      BytesInFront(v / 256, n - 1, rest);
    }
  }

  method FeedString<S>(ctx: Context<S>, s: Option<Text>, ghost rest: seq<Byte>)
    requires ctx.Valid()
    modifies ctx, ctx.buf
    ensures ctx.Valid() && ctx.message + rest == old(ctx.message) + StringThen(s, rest)
  {
    if s.Some? {
      assert s.value + [0] + rest == StringThen(s, rest);
      Feed(ctx, s.value + [0], rest);
    } else {
      assert [0] + rest == StringThen(s, rest);
      Feed(ctx, [0], rest);
    }
  }

  method FeedWord<S>(ctx: Context<S>, v: Word32, ghost rest: seq<Byte>)
    requires ctx.Valid()
    modifies ctx, ctx.buf
    ensures ctx.Valid() && ctx.message + rest == old(ctx.message) + WordThen(v, rest)
  {
    BytesInFront(v, 4, rest);
    Feed(ctx, WordBytes(v), rest);
  }

  /** Feeds the bytes of one entry, one field at a time. */
  method FeedRule<S>(ctx: Context<S>, r: Rule, ghost rest: seq<Byte>)
    requires ctx.Valid()
    modifies ctx, ctx.buf
    ensures ctx.Valid() && ctx.message + rest == old(ctx.message) + RuleThen(r, rest)
  {
    ghost var transition := StringThen(r.transition, [SEP] + rest);
    ghost var link := LinkThen(r, [SEP] + transition);
    ghost var priority := WordThen(r.priority, [SEP] + link);
    ghost var mode := WordThen(ModeRank(r.mode), priority);
    ghost var audit := WordThen(AuditRank(r.audit), mode);
    FeedString(ctx, r.name, [SEP] + WordThen(r.perms, audit));
    Feed(ctx, [SEP], WordThen(r.perms, audit));
    FeedWord(ctx, r.perms, audit);
    FeedWord(ctx, AuditRank(r.audit), mode);
    FeedWord(ctx, ModeRank(r.mode), priority);
    FeedWord(ctx, r.priority, [SEP] + link);
    Feed(ctx, [SEP], link);
    if r.link.Some? {
      var flag: Byte := if r.subset then 1 else 0;
      FeedString(ctx, r.link, [flag] + ([SEP] + transition));
      Feed(ctx, [flag], [SEP] + transition);
    } else {
      FeedString(ctx, r.link, [SEP] + transition);
    }
    Feed(ctx, [SEP], transition);
    FeedString(ctx, r.transition, [SEP] + rest);
    Feed(ctx, [SEP], rest);
  }

  /** The digest covers exactly what is compiled, followed by the settings that affect compilation. */
  method ComputeContentHash<S>(compress: (S, seq<Byte>) -> S, init: S, main: Block, settings: seq<Byte>)
    returns (digest: S)
    ensures digest == Fold(compress, init, Padded(RulesThen(Fed(main), settings)))
  {
    var blocks := CollectFileRuleBlocks(main);
    var ctx := new Context(compress, init);
    ghost var target := RulesThen(Fed(main), settings);
    for i := 0 to |blocks|
      invariant ctx.Valid() && fresh(ctx) && fresh(ctx.buf) && ctx.compress == compress && ctx.init == init
      invariant ctx.message + RulesThen(Entries(blocks[i..]), settings) == target
    {
      assert blocks[i..][1..] == blocks[i + 1..];
      FeedBlock(ctx, blocks[i].rules, Entries(blocks[i + 1..]), settings);
    }
    assert blocks[|blocks|..] == [];
    Feed(ctx, settings, []);
    assert settings + [] == settings && ctx.message + [] == ctx.message;
    digest := ctx.Final();
  }

  method FeedBlock<S>(ctx: Context<S>, rules: seq<Rule>, ghost others: seq<Rule>, ghost settings: seq<Byte>)
    requires ctx.Valid()
    modifies ctx, ctx.buf
    ensures ctx.Valid()
    ensures ctx.message + RulesThen(others, settings) == old(ctx.message) + RulesThen(rules + others, settings)
  {
    assert rules[0..] == rules;
    for i := 0 to |rules|
      invariant ctx.Valid()
      invariant ctx.message + RulesThen(rules[i..] + others, settings)
              == old(ctx.message) + RulesThen(rules + others, settings)
    {
      assert (rules[i..] + others)[0] == rules[i] && (rules[i..] + others)[1..] == rules[i + 1..] + others;
      FeedRule(ctx, rules[i], RulesThen(rules[i + 1..] + others, settings));
    }
    assert rules[|rules|..] + others == others;
  }
}
