# The AppArmor policy compiler, modelled and proved

The policy compiler turns policy text into pairs of a regular expression and
permissions. On the way it expands variables, compiles globs, pushes prefixes
down into blocks, merges rules, encodes rules as patterns and keys a cache by
what it is about to compile. This project models those stages and proves that
each of them keeps the meaning of the policy. It also covers the JSON reader and
printer used for pretty-printed status output, and the loop that runs compile
jobs in parallel.

What is modelled, file by file:

- **Globs.** `Regex` gives regular expressions a matching relation and models the
  reader of regex text. `Glob` is the one-pass glob scanner, with its loop proved
  against a step function. `GlobGrammar` shows which texts the scanner accepts,
  `GlobMeaning` says what a glob denotes without mentioning the scanner, and
  `GlobCompile`, `GlobReadBack`, `GlobParse` and `GlobTheorem` prove what the text
  emitted onto any buffer denotes when it is read back. `GlobReadable` says exactly
  which patterns can be read back, `ClassWildcards` and `ClassReading` what wildcards
  in a class become, and `GlobChanges` exactly when what is read back is not what the glob denotes.
  `GlobUnion` sets a group against the globs with one branch each. `ValueLists` puts
  patterns together in one buffer. `Slashes` is the in-place slash filter.
- **Variables.** `Expansion` defines full substitution and reachability,
  `Variables` the worklist closure over a table of variable objects. `Alternation`
  gives `{a,b}` text its meaning, quotes and classes included, `Rewriting` proves the
  rewriting of references into such text, and `RewritingChanges` when it is not exact.
- **Prefixes and merging.** `Prefixes` and `PrefixRuns` follow a file entry
  through a run of nested prefixes. `FileOrder` is the comparator, `FileMerge` the
  sort and fold. `Aggregates` is the folded form of capability and network rules.
  `RuleOrder`, `RuleMerge`, `RuleEncode` and `MergeEncode` do the same for unix and
  dbus rules, up to the patterns they become, and `RulePatterns` says what those
  match. `RuleTrees` groups rules by accept node and factors a shared tail.
- **Encoders.** `Ports` and `MountFlags` prove port and mount flag patterns exact,
  on top of `ByteText`.
- **Cache key.** `Digest` is the streaming hash around an abstract compression
  function, `CacheKey` the bytes fed to it.
- **JSON.** `Json` holds the text formats, `JsonParser` and `JsonPrinter` the loops
  proved against them, `JsonRoundTrip` the round trip. `JsonLiterals` follows the two
  walks through a string literal.
- **Lists and jobs.** `Aliases` inserts into the list it walks; `Scheduler` is the
  job loop under every order of child exits.

Permission words and capability masks are sets of bit positions. Regex input is a
word over integers: 0 to 255 are bytes and -1 is the out-of-band symbol. Randomly
ordered choices of the system (which child ends first, the order of a hash map, how
an unstable sort orders equal elements) are left open in the model, so what is
proved holds for each of them.

Where the code and its own words differ, the model follows the code:

- The comment above the slash filter says trailing slashes are removed; a single one
  stays (`Slashes.TrailingSlashStays`).
- Block prefixes on file entries do not compose as "audited if any audits": a deny
  block around an audited deny rule silences it. `PrefixRuns.AuditedIfAnyAudits`
  gives the exact condition, `PrefixRuns.DenyBlockSilencesAuditDeny` an instance.
- The folded capability sets and rule-by-rule prefixing disagree on quieting for
  exactly the bits described by `Aggregates.Mixed`
  (`Aggregates.AggregateRefinesEach`), for instance `Aggregates.MixedBitIsHeard`.
- A child's return value that is a non-zero multiple of 256 is not noticed as a
  failure; `Scheduler.UnnoticedFailures` says for which runs that matters and
  `Scheduler.LostStatus` gives one. The values process_profile returns are results of
  the grammar (0 to 2), error numbers and their negatives, 1 and -1: none of them is
  such a multiple.
- A quote that is not needed is dropped, and what it quoted can then join the number
  in front of it (`GlobChanges.QuotedDigitRunsOn`), negate the class it stands in
  (`GlobChanges.QuotedCaretNegates`) or start a range (`GlobChanges.QuotedDashIsRange`).
  `GlobChanges.MeaningIsKept` gives the exact condition.
- An accepted pattern may be one the regex reader cannot read.
  `GlobReadable.ReadsBackIfPlain` gives the exact condition on the classes; a comma in a
  class, for instance, keeps a quote that the reader does not know
  (`ClassReading.QuotedCommaIsUnreadable`). A class without members takes in what follows
  it (`GlobChanges.EmptyClassesMerge`), and a wildcard in a class ends the class
  (`ClassWildcards.WildcardEndsClass`).
- Putting the values of a variable in braces changes a name when the slash trimmed off a
  value was quoted: the backslash that is left quotes the comma
  (`RewritingChanges.TrimmedQuoteChangesName`, `RewritingChanges.TrimmedQuoteIsRefused`).
  `RewritingChanges.RewritingIsExact` gives the exact condition. A star at the edge of a
  value changes too, because in a group it does not fill a path component
  (`GlobUnion.StarInBranchFillsNothing`).
- The string reader of the JSON parser takes a closing quote for an escaped character
  when a short escape leaves a backslash over (`JsonRoundTrip.QuoteAfterShortEscape`).
  `JsonLiterals.QuoteTakenIffWalksPart` says for which literals.
- The message schedule of the hash shifts by 2 where section 4.1.2 of FIPS 180-4 has
  10. The compression function is therefore abstract here, and nothing is claimed
  about the digest value.

## Model

| member | source | states |
|---|---|---|
| `GlobScanner.ConvertAaregexToPcre` | parser/parser_regex.c:118-445 | the scanner loop, with its escape, class and nesting state kept in variables and a counter table, computes the step-by-step conversion used by all glob results |
| `GlobScanner.ScanText` | parser/parser_regex.c:149-409 | the loop ends with the output and flags of the whole run, or at the first error |
| `GlobScanner.ScanCharacter` | parser/parser_regex.c:150-408 | one character appends, reads on and sets flags and counter table as the step function says, and never leaves the table |
| `GlobScanner.StarCharacter` | parser/parser_regex.c:169-230 | how far a star run is read and what it appends, depending on what stands before and after it |
| `GlobGrammar.RunWalks` | parser/parser_regex.c:149-444 | the verdict of a scan depends only on the control flags, not on the output or the glob mode |
| `GlobGrammar.TreesAreAccepted` | parser/parser_regex.c:149-444 | the text of every well-formed glob is accepted; it is Basic iff it has no metacharacter and TailGlob iff the only one is a final `**` |
| `GlobGrammar.AcceptsExactlyTheGrammar` | parser/parser_regex.c:149-444 | a text is accepted iff it is the text of a glob whose classes close and whose groups nest at most 49 deep with a comma each; it is then the text of such a glob with every numeric escape read whole |
| `GlobGrammar.ReadNumber` | parser/lib.c:158-219 | a numeric escape that the next character does not extend is read, by the scanner and by the regex lexer, with all its digits and its value |
| `GlobCompile.RunGlob` | parser/parser_regex.c:118-445 | over the text of a glob tree the scanner emits the regex text of the tree, whatever surrounds it |
| `GlobReadBack.ParseStars` | parser/libapparmor_re/parse.y:89-131 | the text emitted for a star run is read back as an expression with the star run's language |
| `GlobParse.ParseGlob` | parser/libapparmor_re/parse.y:89-131 | emitted text is read back, in any context, as an expression that extends what was read before by the language of the glob |
| `GlobParse.ParseClassItem` | parser/libapparmor_re/parse.y:109-157 | the text emitted for a class, with quoted members, ranges, a leading dash and a repeated caret, is read back as the set of its members or its complement |
| `GlobParse.EmittedIsMeant` | parser/parser_regex.c:169-230 | the slash and neighbour tests of the scanner give star runs the meaning the component rule asks for |
| `GlobTheorem.CompilingPreservesMeaning` | parser/parser_regex.c:118-445 | whatever the buffer holds, what a glob appends to it adds, wherever terms are read, exactly the words of the glob as the regex reader sees it, and those of the glob itself when it is clear; in both glob modes |
| `GlobTheorem.CompiledRegex` | parser/parser_regex.c:1316-1330 | on a buffer that reads back by itself the whole regex parses and matches the words of the buffer followed by those of the glob, a star behind a slash in the buffer included |
| `GlobTheorem.FusedText` | parser/parser_regex.c:382-405 | joining a number with the bare characters it takes, and leaving out the quotes a class loses, changes nothing in the emitted text |
| `GlobTheorem.ClearMeansSame` | parser/parser_regex.c:382-405 | a glob in which no number runs on and no class changes means the same when it is joined |
| `GlobChanges.MeaningIsKept` | parser/parser_regex.c:374-405 | for globs whose classes have members and hold no numeric escape or wildcard: without groups the compiled pattern matches exactly what the glob denotes iff its classes can be read, no short numeric escape is followed by a character whose quote is dropped and which extends the number, and no class has other members without the quotes it loses; with groups, when all this holds, and never when a class cannot be read or something outside all groups changes |
| `GlobChanges.ChangeShows` | parser/parser_regex.c:382-405 | such a number or class outside all groups changes the language, whatever else is in the pattern |
| `GlobChanges.QuotedDigitRunsOn` | parser/parser_regex.c:382-405 | a hexadecimal escape of one digit and a quoted b compile to one byte, for every digit; with the digit 0, as a profile can deliver it, to the byte 11 |
| `GlobChanges.GroupsMayHideIt` | parser/parser_regex.c:382-405 | inside a group another branch can hide the change |
| `GlobChanges.QuotedCaretNegates` | parser/parser_regex.c:358-366 | a quoted caret at the head of a class is compiled as the negation |
| `GlobChanges.QuotedDashIsRange` | parser/parser_regex.c:382-405 | a quoted dash between two members is compiled as a range, which has the same members exactly for comma, dash and full stop |
| `GlobChanges.QuotesThatChange` | parser/parser_regex.c:358-405 | a class that begins with a quoted caret always changes; any other changes only if a quoted dash stands where a bare one makes a range |
| `GlobChanges.QuotedDashMayNotMatter` | parser/parser_regex.c:382-405 | such a dash need not change the class, when other members make up for it |
| `GlobReadable.ReadsBackIfPlain` | parser/libapparmor_re/parse.y:107-157 | for globs whose classes have members and hold no numeric escape or wildcard, groups included, on any buffer that reads back by itself: the regex reader reads the output iff in every class, without the quotes it loses, there is no quoted comma, every dash but a leading one stands between two ordinary members, and a second caret starts no range |
| `GlobReadable.BadClass` | parser/libapparmor_re/parse.y:107-157 | any other class with members stops the reader, whatever follows it |
| `ClassReading.QuotedCommaIsUnreadable` | parser/parser_regex.c:332-354 | a class with a quoted comma anywhere, with or without wildcards, is accepted and cannot be read back, whatever stands around it |
| `GlobChanges.EmptyClassGoesOn` | parser/libapparmor_re/parse.y:130-148 | a class without members is read on as a class with a bracket in it, up to the next bracket |
| `GlobChanges.EmptyClassesMerge` | parser/libapparmor_re/parse.y:130-148 | two classes, the first empty, with a letter between them: as a glob it matches nothing, compiled it matches the letter |
| `GlobChanges.EmptyClassIsUnreadable` | parser/libapparmor_re/parse.y:130-148 | an empty class alone is accepted and cannot be read back |
| `ClassWildcards.WildcardEndsClass` | parser/parser_regex.c:169-253 | a bare star or question mark ends the class it stands in: the members in front of it and the symbols its expansion excludes form the class, a star repeats it unless it fills a path component, and what is left is read as a glob with a bracket behind it; if those members are outside the grammar of character sets nothing is read |
| `ClassWildcards.BracketOpensAgain` | parser/parser_regex.c:169-267 | a bare bracket behind the wildcard opens another class, and the whole denotes the ended class, the glob between the two and what that other class denotes |
| `ClassReading.StarsAreMembers` | parser/parser_regex.c:206-224 | where wildcards may match NUL, two stars in a class that fill no component are read as its members full stop and star |
| `GlobChanges.StarInClassIsExpanded` | parser/parser_regex.c:169-253 | every word that a class with a wildcard matches ends in the bracket that should have ended the class |
| `GlobUnion.GroupIsUnion` | parser/parser_regex.c:169-230 | a group matches exactly what its branches match in its place, when no star stands at an edge of a branch or next to the group |
| `GlobUnion.CompiledUnion` | parser/variable.cc:252-340 | the compiled name with the group then matches the union of what the compiled names with one value each match |
| `GlobUnion.StarInBranchFillsNothing` | parser/parser_regex.c:171-193 | with a star at the edge of a branch the group can match what none of the names with one branch does |
| `ValueLists.BuildListValExpr` | parser/parser_regex.c:1286-1314 | the loop writes the alternatives one after the other and fails at the first invalid one |
| `ValueLists.ListDenotesUnion` | parser/parser_regex.c:1286-1314 | a list of patterns is accepted and denotes, in any buffer and context, the words of one of them as the regex reader sees them |
| `ValueLists.BehindByte` | parser/dbus.cc:225-236 | a pattern behind the class byte of a rule matches that byte and then the words of the pattern as the regex reader sees it |
| `Regex.StarOfSymbols` | parser/libapparmor_re/parse.y:98-108 | a starred one-symbol expression matches exactly the words over its symbols |
| `Slashes.FilterSlashes` | parser/parser_regex.c:61-96 | the two-pointer loop leaves in the buffer the filtered path, terminated |
| `Slashes.FilteredCollapses` | parser/parser_regex.c:57-96 | filtering collapses runs of slashes except exactly two leading ones |
| `Slashes.FilteringIsIdempotent` | parser/parser_regex.c:57-96 | filtering a filtered path changes nothing |
| `Slashes.TrailingSlashStays` | parser/parser_regex.c:57-96 | a filtered path is not empty and ends in a slash iff the path does |
| `Expansion.SpliceFirst` | parser/variable.cc:342-404 | replacing the first reference of a value by each substitution of its variable loses and adds no full substitution |
| `Expansion.GoodByEdges` | parser/variable.cc:342-404 | a variable has only defined set variables and no cycle behind it iff it is a set and all it refers to are such |
| `Expansion.BackEdgeIsBad` | parser/variable.cc:377-382 | a reference to a variable whose expansion is pending lies on a cycle |
| `Variables.Symtab.AddVar` | parser/symtab.cc:24-76 | a text that spells a new name is entered under it; a text that spells none and a second declaration are refused and change nothing |
| `Variables.ProcessVar` | parser/variable.cc:74-146 | a text is taken for a variable iff a sigil is followed by a name, bare or in braces, and the name comes out |
| `Variables.CheckName` | parser/variable.cc:102-119 | the loop that compares with the first character accepts exactly letters, digits and underscores behind a letter, and the empty name |
| `Variables.Symtab.ExpandVariable` | parser/variable.cc:342-404 | succeeds iff nothing reachable is undefined, boolean or on a cycle; the recorded set is then exactly the full substitutions; all expanding marks are as before |
| `Variables.Symtab.Worklist` | parser/variable.cc:357-403 | the loop over the growing list terminates and ends with the complete set or on a bad reference |
| `Variables.Symtab.Turn` | parser/variable.cc:360-399 | one list entry is kept or spliced without losing a substitution |
| `Alternation.GroupMeaning` | parser/parser_regex.c:280-354 | a group whose branches leave no quote, class or brace open stands for exactly the strings of its branches; quoted braces and commas, and those in classes, are characters |
| `Rewriting.SpliceKeepsStrings` | parser/variable.cc:270-338 | putting the trimmed values of a variable in braces for its first reference keeps the strings a name stands for, up to runs of slashes, when there is one value or all can stand as branches |
| `Rewriting.ExpandByAlternation` | parser/variable.cc:252-340 | succeeds iff every mentioned variable is a defined set; the result has no references and stands for all full substitutions up to runs of slashes, behind any held-out prefix, wherever the values of variables with several can stand as branches |
| `RewritingChanges.RewritingIsExact` | parser/variable.cc:270-338 | for a variable with several values, none with a bare brace, the rewritten name stands for the same strings up to runs of slashes iff no value has a bare comma and no trimmed value ends in an odd run of backslashes |
| `RewritingChanges.TrimmedQuoteChangesName` | parser/variable.cc:303-325 | the values `a\/` and `c` in front of a slash give a name that stands for other strings |
| `RewritingChanges.TrimmedQuoteIsRefused` | parser/parser_regex.c:306-329 | the scanner refuses that name, though it accepts both substitutions |
| `RewritingChanges.AlternationsMayHideIt` | parser/variable.cc:303-325 | with an alternation among the values the name can stay the same all the same |
| `Rewriting.JoinValues` | parser/variable.cc:303-325 | the loop writes the values trimmed and comma separated, in braces when there are several |
| `Prefixes.GenericAddPrefix` | parser/parser_misc.c:1109-1144 | refuses exactly a clash of modes or of audits; otherwise gives the prefixed entry |
| `Prefixes.CheckXQualifier` | parser/parser_misc.c:1090-1104 | exec permission comes with an exec type iff the entry does not deny |
| `Prefixes.EntryAddPrefix` | parser/parser_misc.c:1147-1159 | refuses on a clash or a wrong exec qualifier; otherwise prefixes and masks by owner |
| `PrefixRuns.RunsStaySettled` | parser/parser_misc.c:1109-1144 | along every successful run of prefixes an implied audit occurs only with deny and a forced one never does |
| `PrefixRuns.RunIsDescribed` | parser/parser_misc.c:1109-1144 | a run succeeds iff its prefixes name one mode; the final mode and audit are described by the list of prefixes alone |
| `PrefixRuns.AuditedIfAnyAudits` | parser/parser_misc.c:1131-1143 | the entry is audited iff some prefix audits exactly when no further deny silences the keyword |
| `PrefixRuns.DenyBlockSilencesAuditDeny` | parser/parser_misc.c:1131-1143 | an instance where the audit keyword is lost |
| `FileOrder.Strrcmp` | parser/block_rules.cc:233-246 | the loop from the terminators down computes the backwards lexicographic comparison |
| `FileOrder.ZeroMeansSameKey` | parser/block_rules.cc:248-283 | on settled entries zero means equal keys and the two directions agree |
| `FileOrder.ComparisonsChain` | parser/block_rules.cc:248-283 | on settled entries the comparator is transitive, strictly so unless both steps are equal |
| `FileOrder.ZeroExactly` | parser/rule.h:207-231 | on any entries zero means equal keys up to the loose audit equality |
| `FileOrder.SelfContradictionExactly` | parser/rule.h:207-231 | the comparator contradicts itself exactly on entries that differ by an implied and a forced audit |
| `FileMerge.ExecTypesAreKept` | parser/immunix.h:171-186 | OR-ing consistent permissions keeps the exec type of either side |
| `FileMerge.StepKeepsConflicts` | parser/block_rules.cc:316-334 | merging two consistent entries neither hides nor makes a conflict with any other entry |
| `FileMerge.BlockRules.MergeFile` | parser/block_rules.cc:285-338 | fails iff two entries with equal key carry conflicting exec types; else the list is strictly sorted, grants under each key what it granted, keeps exec types, and count plus length is the old length |
| `FileMerge.BlockRules.AddPrefix` | parser/block_rules.cc:612-623 | all entries take the prefix and stay settled, or the block is refused |
| `Aggregates.Capabilities.AddCapabilities` | parser/block_rules.cc:133-154 | a rule is OR-ed into the sets its prefix selects; an owner condition is refused |
| `Aggregates.Capabilities.AddPrefix` | parser/block_rules.h:55-114 | the decomposition into four groups computes the prefixed sets, and an owner condition is refused unless there is nothing to prefix |
| `Aggregates.NetTable.ApplyCompatPrefix` | parser/network.h:288-335 | every family's four masks are prefixed in place and independently |
| `Aggregates.NetTable.UpdateCompatNet` | parser/network.cc:1216-1252 | the sockets of a rule are OR-ed into the masks of their families, as masks or single bits |
| `Aggregates.NetTable.AddCompatNet` | parser/block_rules.cc:156-175 | a rule's or block's table is OR-ed into this one, family by family |
| `Aggregates.Capabilities.Merge` | parser/block_rules.cc:177-186 | another block's sets are OR-ed into these |
| `Aggregates.FoldJoins` | parser/block_rules.cc:177-200 | folding two blocks' rules together is the union of their folded sets |
| `Aggregates.AggregateRefinesEach` | parser/block_rules.h:55-114 | prefixing folded sets allows, denies and audits what prefixing each rule does; quieting agrees unless a plain deny prefix meets a mixed bit |
| `Aggregates.MixedBitIsHeard` | parser/block_rules.h:86-112 | an allow and an audited allow of one bit under a plain deny: quieted one rule at a time, not once folded |
| `Aggregates.CapabilityBlock` | parser/block_rules.cc:133-154 | adding the rules of a block one after the other and then the prefix refines prefixing each rule; fails iff an owner condition meets something to add or prefix |
| `Aggregates.NetworkBlock` | parser/network.h:288-335 | the same for the network table, family by family |
| `Aggregates.UnmixedAgreesFully` | parser/block_rules.h:77-112 | everything agrees when no bit occurs under two pairs of mode and audit |
| `Aggregates.NestedPrefixes` | parser/block_rules.h:86-112 | any number of prefixes in any order: denied if any denies, audited if any audits |
| `RuleOrder.KeyOrder` | parser/rule.h:312-327 | the field by field comparison is a total order, zero exactly on equal keys |
| `RuleMerge.PolicyRule.Merge` | parser/rule.h:154-166 | takes over permissions and marks the other rule deleted and removed by this one, unless either is gone already |
| `RuleMerge.MergeTable` | parser/block_rules.cc:355-367 | each run of equal keys is folded into its first rule |
| `RuleMerge.MergeRuleT` | parser/block_rules.cc:345-370 | one live rule per key, every removed rule points at the survivor, which grants what all rules of the key granted; the count is the number removed |
| `RuleEncode.MapPermsSeparates` | parser/network.h:114-120 | no kernel permission bit stands for two permissions |
| `RuleEncode.WriteAddr` | parser/af_unix.cc:257-290 | writes the address pattern or fails on an invalid glob |
| `RuleEncode.WriteLabel` | parser/af_unix.cc:292-308 | writes the label pattern or fails on an invalid glob |
| `RuleEncode.GenUnix` | parser/af_unix.cc:516-665 | every permission is granted, and audited, exactly at the patterns that check it; fails iff a glob it needs is invalid or a pattern it hands over cannot be read |
| `RuleEncode.GenLocal` | parser/af_unix.cc:596-641 | the local, listen and option patterns carry exactly their permissions, or one that is handed over cannot be read |
| `RuleEncode.GenDbus` | parser/dbus.cc:206-316 | bind, message and eavesdrop permissions are granted and audited exactly at their pattern vectors; fails iff one of the six globs is invalid or a vector it hands over cannot be read |
| `RuleEncode.WriteDbus` | parser/dbus.cc:225-288 | the six conversions give the vector of patterns, and the first invalid one ends them |
| `RuleEncode.GrantsByBits` | parser/af_unix.cc:546-660 | a rule grants at a pattern what its permissions grant one at a time |
| `RuleEncode.AuditsByBits` | parser/af_unix.cc:546-660 | the same for audit masks, where auditing one socket option audits both |
| `RulePatterns.SocketPatternWords` | parser/af_unix.cc:546-594 | with accepted globs the create and autobind patterns are read back and match the class byte, family, type and protocol, and behind them NUL, the label and NUL |
| `RulePatterns.LocalPatternWords` | parser/af_unix.cc:596-641 | the local pattern matches the socket, the address, the label and NUL; listen and option patterns a command byte and two more bytes behind it |
| `RulePatterns.PeerPatternWords` | parser/af_unix.cc:643-660 | the peer pattern matches the local one, a command byte, the peer's address and the peer's label |
| `RulePatterns.AddressPiece` | parser/af_unix.cc:257-290 | what each kind of address matches: anything, one byte, NUL and five hexadecimal digits, or NUL and the words of a glob that may match NUL; NUL behind each |
| `RulePatterns.DbusPatternWords` | parser/dbus.cc:225-288 | the six patterns are read back and match the class byte and the bus name, and the other conditions |
| `RulePatterns.UnixIsEncoded` | parser/af_unix.cc:546-665 | a unix rule with accepted globs never fails to be encoded |
| `RulePatterns.DbusIsEncoded` | parser/dbus.cc:206-316 | nor does such a dbus rule |
| `MergeEncode.MergingKeepsGrants` | parser/block_rules.cc:345-370 | per pattern, priority and mode, merged rules grant what all rules granted |
| `MergeEncode.MergingKeepsAudits` | parser/block_rules.cc:345-370 | and audit what they audited |
| `MergeEncode.MergingKeepsFailures` | parser/af_unix.cc:546-665 | and fail to encode iff some rule would have |
| `MergeEncode.MergeThenCompare` | parser/block_rules.cc:345-434 | encoding all live rules before and after merging both fail or both succeed, and the records handed over grant and audit the same bits at the same patterns for every priority and mode |
| `MergeEncode.EncodeRules` | parser/block_rules.cc:429-434 | the loop over the live rules fails iff one of them does, and hands over exactly the grants and audits of all of them |
| `RuleTrees.AareRules.AddToRules` | parser/libapparmor_re/aare_rules.cc:53-62 | each accept node's expression matches what the rules with that node match |
| `RuleTrees.AareRules.AddRuleVec` | parser/libapparmor_re/aare_rules.cc:74-140 | adds the separated parts as one rule, or changes nothing when a part does not parse |
| `RuleTrees.AareRules.BuildTree` | parser/libapparmor_re/aare_rules.cc:162-187 | the tree reaches an accept node through a rule, or behind a rule through the tail, in whatever order nodes are visited |
| `RuleTrees.CreateTree` | parser/libapparmor_re/aare_rules.cc:194-228 | a factored tail reaches exactly the accept nodes of the rules and of every rule-separator-tail combination |
| `Digest.Context.Update` | parser/parser_regex.c:891-912 | the message grows by the data; whole blocks are folded, the rest is buffered |
| `Digest.Context.Final` | parser/parser_regex.c:914-937 | the state is the fold over the padded message, whether the padding takes one block or two |
| `Digest.HashChunks` | parser/parser_regex.c:891-937 | for every cutting into updates the digest is that of the padded whole |
| `Digest.PaddedShape` | parser/parser_regex.c:914-931 | below 2^61 bytes the padding is that of section 5.1.1 of FIPS 180-4 |
| `CacheKey.CollectFileRuleBlocks` | parser/parser_regex.c:958-967 | the collected blocks hold exactly the compiled entries, in order |
| `CacheKey.GenPolicyRe` | parser/block.cc:85-109 | a block compiles iff every entry is accepted and the other rules encode, in it, in its subblocks and in the selected branches; it then feeds the same entries in the same order |
| `CacheKey.ComputeContentHash` | parser/parser_regex.c:1014-1063 | the digest is taken over the compiled entries followed by the settings |
| `CacheKey.BytesDetermineRules` | parser/parser_regex.c:1027-1053 | two entry lists give the same bytes iff they agree up to a missing name or transition being like an empty one and a subset flag without a link |
| `CacheKey.BytesAreInjective` | parser/parser_regex.c:1027-1053 | equal bytes come from entries that compile alike, for named entries without empty transitions: they agree but for a subset flag without a link, which is not looked at |
| `MountFlags.BuildMntFlags` | parser/mount.cc:716-755 | writes the pattern when it fits and fails otherwise |
| `MountFlags.MountFlagsAreExact` | parser/mount.cc:716-755 | the pattern matches the string of a flag set iff it holds all required and only named flags |
| `MountFlags.AllFlagsMatchAny` | parser/mount.cc:722-728 | naming all flags matches the string of every flag set |
| `ByteText.LexByte` | parser/libapparmor_re/parse.y:167-200 | a byte written as `\xHH` is read back as that byte |
| `Ports.PortRangesAreExact` | parser/network.cc:704-765 | the pattern of a range matches exactly its ports |
| `Ports.ZeroMeansAny` | parser/network.cc:725-732 | the range 0-0 matches every port |
| `Ports.TaggedPortsAreExact` | parser/network.cc:833-868 | the tagged pattern accepts exactly the ports in range, remote for the peer, privileged below 1024 when binding |
| `Aliases.EntryList.ProcessEntries` | parser/parser_alias.c:111-157 | terminates on the list it grows and inserts one copy behind every aliased entry |
| `Aliases.EntryList.CopyFor` | parser/parser_alias.c:124-145 | one copy with the name, the link or both rewritten |
| `Aliases.RunGivesCopies` | parser/parser_alias.c:111-157 | after any run of aliases, entries keep their order and are followed by one copy per matching alias, latest first, and no copy of a copy |
| `Aliases.SkippedStaysAlone` | parser/parser_alias.c:121-123 | entries with shared permissions get no copies |
| `Aliases.ReplaceEntriesAliases` | parser/parser_alias.c:193-199 | the walk over the alias table produces that list |
| `Scheduler.State.constructor` | parser/parser_main.c:1547-1578 | sets up a number of jobs within its limit, with resampling iff the number is per processor |
| `Scheduler.State.Resample` | parser/parser_main.c:1481-1492 | jobs never shrink or pass the limit, and each sample uses up a chance |
| `Scheduler.State.WorkSyncOne` | parser/parser_main.c:1449-1461 | reaps one child, whichever, without losing a failure |
| `Scheduler.State.WorkSpawn` | parser/parser_main.c:1472-1520 | live children equal njobs and stay within jobs; a failure of the unit or of fork is recorded or still to be reported |
| `Scheduler.State.WorkSync` | parser/parser_main.c:1463-1469 | leaves no child, and an error is recorded iff one was recorded or pending |
| `Scheduler.CompileAll` | parser/parser_main.c:1472-1545 | over a whole run no child is left, sampling is bounded, last_error is set iff some unit reported a failure, and that is iff some unit failed unless all failing units lose their status |
| `Scheduler.UnnoticedFailures` | parser/parser_main.c:1453-1456 | a run reports a failure iff a unit failed, except exactly when units fail and each of them is a child that returns a non-zero multiple of 256 |
| `Scheduler.LostStatus` | parser/parser_main.c:1453-1456 | a run of one child that returns 256 fails and reports success |
| `JsonRoundTrip.PrintThenParse` | binutils/cJSON.c:1309-1814 | parsing the printed text, formatted or not, gives the same tree in the same order |
| `JsonRoundTrip.ParsePrintParse` | binutils/aa_status.c:1180-1187 | printing what a text parsed to and parsing that again gives the same tree, for every text whose tree holds no NUL |
| `JsonRoundTrip.ParsedFits` | binutils/cJSON.c:1309-1361 | every value the parser returns is within the number and nesting limits of the printer |
| `JsonRoundTrip.QuoteAfterShortEscape` | binutils/cJSON.c:818-871 | a literal whose short escape leaves a backslash over is read with the closing quote in its value |
| `JsonLiterals.QuoteTakenIffWalksPart` | binutils/cJSON.c:785-871 | the closing quote is taken into the value iff the reader comes to a `u` escape whose four characters are not all digits, the search for the quote pairs the last of them, a backslash, with the next, and only backslashes follow; in all other literals decoding keeps within the quotes |
| `JsonLiterals.FullEscapesKeepQuoteOut` | binutils/cJSON.c:785-871 | a literal in which every `u` escape has its four digits never takes the closing quote |
| `JsonLiterals.ParsedIsLiteral` | binutils/cJSON.c:785-806 | what lies in front of the quote that the search finds is such a literal |
| `JsonRoundTrip.StringReads` | binutils/cJSON.c:770-1018 | escaped strings read back |
| `JsonRoundTrip.NumberReads` | binutils/cJSON.c:304-378 | printed integers read back |
| `JsonParser.EncodeUtf8` | binutils/cJSON.c:714-756 | the output loop writes the bytes of section 3 of RFC 3629 |
| `JsonParser.Utf16LiteralToUtf8` | binutils/cJSON.c:649-767 | one escape or a surrogate pair is decoded, and a lone or wrong surrogate refused |
| `JsonParser.ParseText` | binutils/cJSON.c:1060-1175 | skips a byte order mark and blanks and gives the tree at the front of the text, or fails where the text format does |
| `JsonParser.ParseBuffer.SkipWhitespace` | binutils/cJSON.c:1035-1058 | moves past blanks and stays on the last character of the buffer |
| `JsonParser.ParseBuffer.ParseString` | binutils/cJSON.c:770-896 | reads a string literal as the text format says, a backslash left over in front of the closing quote included, or fails where it does |
| `JsonParser.ParseBuffer.ParseValue` | binutils/cJSON.c:1309-1361 | reads a value with integer numbers as the text format says |
| `JsonParser.ParseBuffer.ParseArray` | binutils/cJSON.c:1438-1529 | the same for arrays, including the nesting limit |
| `JsonParser.ParseBuffer.ParseObject` | binutils/cJSON.c:1594-1700 | the same for objects |
| `JsonPrinter.PrintBuffer.PrintValue` | binutils/cJSON.c:1364-1435 | appends the printed form of a value |
| `JsonPrinter.PrintBuffer.PrintString` | binutils/cJSON.c:899-1018 | appends a string with its escapes |
| `JsonPrinter.PrintBuffer.PrintArray` | binutils/cJSON.c:1532-1591 | appends an array |
| `JsonPrinter.PrintBuffer.PrintObject` | binutils/cJSON.c:1703-1814 | appends an object, indented by depth when formatted |

## Left out

- GlobTheorem.CompilingPreservesMeaning: is for classes the regex reader can read as they stand; classes with a quoted comma or a stray dash cannot be read (GlobReadable.ReadsBackIfPlain), one without members takes in what follows it (GlobChanges.EmptyClassGoesOn), one with a wildcard ends there (ClassWildcards.WildcardEndsClass), and numeric escapes in classes, which a profile delivers only for NUL, are not modelled.
- GlobTheorem.CompiledRegex: is for the same classes.
- GlobTheorem.CompilingPreservesMeaning: takes a path component to begin and end at a slash in the text, as the scanner does; a slash written as a number does not count.
- GlobTheorem.CompilingPreservesMeaning: is for the conversion without anchors, the only one the compiler asks for; anchors are in the scanner model and the acceptance results.
- GlobChanges.MeaningIsKept: is exact for patterns without groups; a change that happens only inside groups may or may not show. Numeric escapes in classes are not modelled.
- ClassWildcards.WildcardEndsClass: is for what follows the wildcard without a bare `[` or a quoted comma, and for stars that end the class; the other cases are ClassWildcards.BracketOpensAgain, ClassReading.QuotedCommaIsUnreadable and ClassReading.StarsAreMembers.
- RewritingChanges.RewritingIsExact: is for values and surroundings without bare braces; with them the condition is sufficient (Rewriting.ExpandByAlternation) but not necessary (RewritingChanges.AlternationsMayHideIt).
- GlobUnion.CompiledUnion: is for names without stars at the edges of values or next to the reference; with them it fails (GlobUnion.StarInBranchFillsNothing).
- Rewriting.ExpandByAlternation: takes values as characters and references, so text that spells a reference only after splicing, and a reference that splicing puts behind a quoting backslash, are below the model; the same holds for Variables.Symtab.ExpandVariable.
- Rewriting.ExpandByAlternation: asks that mentioned set variables expand, because the lookup ignores the code of a failed expansion.
- Variables.Symtab.ExpandVariable: does not describe the partial sets left by a failed expansion, nor a second call on such a table.
- FileMerge.BlockRules.MergeFile: takes entries that runs of prefixes can leave, as PrefixRuns.RunsStaySettled shows; on others the comparator contradicts itself and a sort has no defined result.
- FileMerge.BlockRules.MergeFile: models list cells as values in a sequence field; freeing of merged entries and running out of memory are not modelled.
- Ports.PortRangesAreExact: is for byte strings and ranges other than 0-0, which stands for no condition.
- RuleTrees.CreateTree: takes tree simplification as any function that keeps the language; reversed trees, the shared accept cache and the DFA construction are not part of this model.
- Digest.HashChunks: keeps the compression function and the final spelling of the state abstract.
- CacheKey.BytesAreInjective: covers the validating hash, not the short file name hash.
- JsonParser.ParseBuffer.ParseValue: fails on fractions, exponents and numbers of more than 15 digits, which the source reads as floating point numbers.
- Scheduler.CompileAll: has abort-on-error switched off and assumes at least one processor is reported.
- JsonRoundTrip.PrintThenParse: is for integers below 10^15 in magnitude, NUL-free strings and nesting within the limit; floating point numbers, buffer growth and allocation failures are not modelled.
- The downgrade of unix rules to generic network rules, which adds side rules.
- The io_uring and mqueue encoders, whose emission is not additive in permissions.
- The feature switch under which compat network tables are not built at all.
- Other rule classes' encoders, resource limits, hats, named transitions and change-profile vectors: they would add members of the same kind.
- The minimum match length computed beside the rule tree.
- Option parsing, configuration and cache files, compression, kernel loading, the Apache and PAM modules and status collection.
