/** Path aliases: entries whose path lies under an aliased one get a rewritten copy behind them. */
module Aliases {
  import opened Strings
  import opened Prefixes

  datatype Alias = Alias(from: string, to: string)

  /** What a copy takes over unchanged. */
  datatype Attributes = Attributes(transition: Option<string>, priority: int, perms: Perms, audit: Audit,
                                   mode: RuleMode, subset: bool)

  datatype Item = Item(name: Option<string>, link: Option<string>, attributes: Attributes, ignored: bool)

  predicate Under(a: Alias, path: Option<string>) {
    path.Some? && a.from <= path.value
  }

  function DoAlias(a: Alias, path: string): string
    requires a.from <= path
  {
    a.to + path[|a.from|..]
  }

  /** Entries with shared permissions, and copies, are passed over. */
  predicate Skipped(e: Item) {
    (exists bit :: bit in e.attributes.perms && IsShared(bit)) || e.ignored
  }

  predicate Aliased(e: Item, a: Alias) {
    !Skipped(e) && (Under(a, e.name) || Under(a, e.link))
  }

  function Rewritten(a: Alias, path: Option<string>): Option<string> {
    if Under(a, path) then Some(DoAlias(a, path.value)) else path
  }

  function Copy(e: Item, a: Alias): Item {
    Item(Rewritten(a, e.name), Rewritten(a, e.link), e.attributes, true)
  }

  /** The list after one alias. */
  function After(es: seq<Item>, a: Alias): seq<Item> {
    if es == [] then [] else (if Aliased(es[0], a) then [es[0], Copy(es[0], a)] else [es[0]]) + After(es[1..], a)
  }

  function Count(es: seq<Item>): nat {
    if es == [] then 0 else (if Skipped(es[0]) then 0 else 1) + Count(es[1..])
  }

  class EntryList {
    var entries: seq<Item>

    constructor (entries: seq<Item>)
      ensures this.entries == entries
    {
      this.entries := entries;
    }

    method CopyFor(e: Item, a: Alias) returns (dup: Option<Item>)
      requires !Skipped(e)
      ensures dup == if Aliased(e, a) then Some(Copy(e, a)) else None
    {
      dup := None;
      if e.name.Some? && a.from <= e.name.value {
        dup := Some(e.(name := Some(DoAlias(a, e.name.value))));
      }
      if e.link.Some? && a.from <= e.link.value {
        if dup.None? {
          dup := Some(e);
        }
        dup := Some(dup.value.(link := Some(DoAlias(a, e.link.value))));
      }
      if dup.Some? {
        dup := Some(dup.value.(ignored := true));
      }
    }

    /** Visits entry i. What is still to come counts fewer entries, or is shorter by a passed-over one. */
    method Visit(i: nat, a: Alias)
      requires i < |entries|
      modifies this
      ensures i < |entries|
      ensures entries[..i + 1] + After(entries[i + 1..], a) == old(entries[..i] + After(entries[i..], a))
      ensures
        || Count(entries[i + 1..]) < Count(old(entries[i..]))
        || (Count(entries[i + 1..]) == Count(old(entries[i..])) && |entries| == |old(entries)|)
    {
      ghost var front, e, rest := entries[..i], entries[i], entries[i + 1..];
      assert entries[i..] == [e] + rest && ([e] + rest)[1..] == rest;
      assert entries[..i + 1] == front + [e];
      if !Skipped(entries[i]) {
        var dup := CopyFor(entries[i], a);
        if dup.Some? {
          entries := entries[..i + 1] + [dup.value] + entries[i + 1..];
          assert entries[i + 1..] == [dup.value] + rest;
          assert ([dup.value] + rest)[1..] == rest;
          assert entries[..i + 1] == front + [e];
        }
      }
    }

    /** Walks the list it inserts into; a fresh copy is met next and passed over. */
    method ProcessEntries(a: Alias)
      modifies this
      ensures entries == After(old(entries), a)
    {
      var i := 0;
      while i < |entries|
        invariant i <= |entries|
        invariant entries[..i] + After(entries[i..], a) == After(old(entries), a)
        decreases Count(entries[i..]), |entries| - i
      {
        Visit(i, a);
        i := i + 1;
      }
    }
  }

  // ----- Runs of aliases -----

  function Run(es: seq<Item>, aliases: seq<Alias>): seq<Item> {
    if aliases == [] then es else After(Run(es, aliases[..|aliases| - 1]), aliases[|aliases| - 1])
  }

  /** The copies an entry ends up with, the latest alias first. */
  function Copies(e: Item, aliases: seq<Alias>): seq<Item> {
    if aliases == [] then []
    else
      var last := aliases[|aliases| - 1];
      (if Aliased(e, last) then [Copy(e, last)] else []) + Copies(e, aliases[..|aliases| - 1])
  }

  /** Every entry followed by its copies. */
  function WithCopies(es: seq<Item>, aliases: seq<Alias>): seq<Item> {
    if es == [] then [] else [es[0]] + Copies(es[0], aliases) + WithCopies(es[1..], aliases)
  }

  lemma {:induction false} AfterJoin(a: seq<Item>, b: seq<Item>, alias: Alias)
    ensures After(a + b, alias) == After(a, alias) + After(b, alias)
  {
    if a == [] {
      assert a + b == b;
    } else {
      assert (a + b)[1..] == a[1..] + b;
      AfterJoin(a[1..], b, alias);
    }
  }

  lemma {:induction false} NoCopyOfCopies(e: Item, aliases: seq<Alias>, alias: Alias)
    ensures After(Copies(e, aliases), alias) == Copies(e, aliases)
  {
    if aliases != [] {
      var front, last := aliases[..|aliases| - 1], aliases[|aliases| - 1];
      NoCopyOfCopies(e, front, alias);
      if Aliased(e, last) {
        assert Copies(e, aliases)[1..] == Copies(e, front);
      } else {
        assert Copies(e, aliases) == Copies(e, front);
      }
    }
  }

  /** One entry and its copies, under one more alias. */
  lemma {:induction false} OneMoreCopy(e: Item, aliases: seq<Alias>, alias: Alias)
    ensures After([e] + Copies(e, aliases), alias) == [e] + Copies(e, aliases + [alias])
  {
    AfterJoin([e], Copies(e, aliases), alias);
    NoCopyOfCopies(e, aliases, alias);
    AfterOne(e, alias);
    CopiesGrow(e, aliases, alias);
    Shift([e], if Aliased(e, alias) then [Copy(e, alias)] else [], Copies(e, aliases));
  }

  lemma {:induction false} CopiesGrow(e: Item, aliases: seq<Alias>, alias: Alias)
    ensures Copies(e, aliases + [alias]) == (if Aliased(e, alias) then [Copy(e, alias)] else []) + Copies(e, aliases)
  {
    var more := aliases + [alias];
    assert more[..|more| - 1] == aliases;
  }

  lemma AfterOne(e: Item, alias: Alias)
    ensures After([e], alias) == [e] + if Aliased(e, alias) then [Copy(e, alias)] else []
  {
    assert [e][1..] == [];
  }

  lemma {:induction false} OneMoreAlias(es: seq<Item>, aliases: seq<Alias>, alias: Alias)
    ensures After(WithCopies(es, aliases), alias) == WithCopies(es, aliases + [alias])
  {
    if es != [] {
      AfterJoin([es[0]] + Copies(es[0], aliases), WithCopies(es[1..], aliases), alias);
      OneMoreCopy(es[0], aliases, alias);
      OneMoreAlias(es[1..], aliases, alias);
    }
  }

  lemma {:induction false} NoAliasNoCopies(es: seq<Item>)
    ensures WithCopies(es, []) == es
  {
    if es != [] {
      NoAliasNoCopies(es[1..]);
    }
  }

  /**
   * After any run of aliases the entries keep their order, and each is followed by exactly one rewritten copy
   * for every alias it lies under, the latest first; copies are not copied again.
   */
  lemma {:induction false} RunGivesCopies(es: seq<Item>, aliases: seq<Alias>)
    ensures Run(es, aliases) == WithCopies(es, aliases)
  {
    if aliases == [] {
      NoAliasNoCopies(es);
    } else {
      var front, last := aliases[..|aliases| - 1], aliases[|aliases| - 1];
      RunGivesCopies(es, front);
      OneMoreAlias(es, front, last);
      assert front + [last] == aliases;
    }
  }

  /** An entry that is passed over stays alone. */
  lemma {:induction false} SkippedStaysAlone(e: Item, aliases: seq<Alias>)
    requires Skipped(e)
    ensures Copies(e, aliases) == []
  {
    if aliases != [] {
      SkippedStaysAlone(e, aliases[..|aliases| - 1]);
    }
  }

  /** Applies every alias in the order the table is walked. */
  method ReplaceEntriesAliases(list: EntryList, aliases: seq<Alias>)
    modifies list
    ensures list.entries == WithCopies(old(list.entries), aliases)
  {
    for i := 0 to |aliases|
      invariant list.entries == Run(old(list.entries), aliases[..i])
    {
      assert aliases[..i + 1][..i] == aliases[..i];
      list.ProcessEntries(aliases[i]);
    }
    assert aliases[..|aliases|] == aliases;
    RunGivesCopies(old(list.entries), aliases);
  }
}
