# Tollgate core: what its algorithms promise, proved

Tollgate is a DNS filter and HTTPS proxy that runs inside a tunnel. This project models the parts of
its Rust core that carry the most logic, and proves what the code and its documentation promise of
them, for all inputs and over whole runs. `dafny verify dfyconfig.toml` checks everything.

Texts and messages are sequences of bytes. Loops and records that the core updates in place are
methods and classes, each proved against a function or a relation on values; the promises are lemmas
about those. Clocks, the network, the resolver of the local network and the decoder of DNS messages
are parameters.

- **Blocklist.** `Glob`, `Patterns`, `Trie` and `PatternIndex` are the wildcard matcher and its index
  (`wildcard.rs`). `Text`, `RuleSyntax`, `Exemptions`, `RuleBuilder` and `RuleLists` are the compiler
  from adblock and hosts lists to rules (`domain_rules.rs`, `exempt.rs`); `RuleLines` and `ListMeaning`
  say what lines and lists mean by the forms they are written in. `LittleEndian`, `DomainFile` and
  `DomainSets` write, load and query the file (`domain_set.rs`). `BlocklistMeaning` joins them:
  from the text of the lists to the answer for a host.
- **Pin learning** (`policy.rs`). `PerSecond` counts connections, `PinRules` states what holds of the
  pins and of the lists they can be taken back from, `PinEvidence` what a run of calls shows about the
  refusals of a host, `PinNotes` what it shows about alerts and about bursts of refusals over several
  hosts, `PinLearning` is the policy itself, and `PinMeaning` says in plain terms when it learns and what
  it drops. A history beside the record remembers how each pin came to be, what was seen, and whether
  the clock ever went back.
- **DNS answers.** `Wire`, `Answers` and `Rendering` read, check, age, rewrite and cut messages, and
  `Names` follows the names in them through compression pointers (`wire.rs`, `answer.rs`).
  `AnswerCache`, `LocalAnswers` and `Handler` keep answers and decide who may have them (`cache.rs`,
  `handler.rs`).
- **Protocols.** `Doh` is the reset and mark-down protocol of one upstream, every atomic operation a
  step of any number of queries and resets, and `DohMarks` what its queries record (`doh.rs`).
  `LocalLookups` is the table of lookups on the local network, and `LookupsExact` which queries of a batch
  wait in it (`engine.rs`). `Flight` follows a TLS server's first flight through arbitrary partial
  writes; `Hellos` says what an encoded ServerHello means, `Flight13` follows TLS 1.3, and `FlightExact`
  says for all bytes when the certificate counts as sent (`flight.rs`).

`Bytes` and `Ordering` hold what the modules share.

Two promises turned out to hold only on a condition, and both directions are proved. A lookup decides
as documented, whatever the rules, exactly for the hosts that `BlocklistMeaning.Ordinary` describes
(`OrdinaryExactly`); every host without `|` and with at most 127 dots is one (`PlainIsOrdinary`), and
`BarHostConfused` and `LongHostMissed` show hosts that fail. An answer built from local records is
accepted by the core's own check if no given record of type OPT is asked for, and for records that fit
a message only then (`LocalAnswers.LocalAnswerAccepted`); otherwise the reply is SERVFAIL
(`Handler.OptRecordFails`), as for a query of type ANY for any single label (`Handler.LabelAnyFails`).

## Model
| member | source | states |
|---|---|---|
| Glob.GlobMatches | core/crates/filter/src/wildcard.rs:54-74 | the backtracking loop ends and accepts exactly the texts whose lowercase is in the glob's language, where `*` stands for any text |
| Glob.MatchesSplit | core/crates/filter/src/wildcard.rs:54-74 | a text matched by two globs in a row splits into a match of each |
| Glob.MatchesJoin | core/crates/filter/src/wildcard.rs:54-74 | matches of two globs join to a match of the globs in a row |
| Patterns.MatchPattern | core/crates/filter/src/wildcard.rs:107-110 | a pattern accepts a host exactly when its glob matches the host or, for a pattern that is not for one host only, a parent of it |
| Patterns.MatchStartsWithHead | core/crates/filter/src/wildcard.rs:112-117 | whatever a glob matches starts with the glob's literal head |
| Patterns.HostEndsWithTail | core/crates/filter/src/wildcard.rs:118-122 | a host that a pattern accepts ends with the pattern's literal tail, whichever parent matched |
| Trie.BuildTrie | core/crates/filter/src/wildcard.rs:230-291 | the level-by-level arrays represent exactly the entries, with every offset in bounds and in 32 bits and the edges of each node in order |
| Trie.Any | core/crates/filter/src/wildcard.rs:299-325 | the walk finds something exactly when some entry's key is a prefix of the text and its id is accepted |
| PatternIndex.File | core/crates/filter/src/wildcard.rs:140-164 | every pattern is filed once, under its own head or its reversed tail, or without a key only if it has neither |
| PatternIndex.NewPatternSet | core/crates/filter/src/wildcard.rs:140-164 | the set keeps the patterns and indexes all of them |
| PatternIndex.ShownIsAnyMatches | core/crates/filter/src/wildcard.rs:172-199 | trying only what the host shows finds a match exactly when some pattern of the set matches |
| PatternIndex.MatchesHost | core/crates/filter/src/wildcard.rs:172-199 | the indexed lookup agrees with a scan over all patterns |
| RuleSyntax.NormalizedIsStored | core/crates/filter/src/domain_rules.rs:479-500 | a name that is accepted has the stored form: normalizing it again gives the same name, so it keeps the limits on bytes, labels and length |
| RuleSyntax.NormalizeIdempotent | core/crates/filter/src/domain_rules.rs:479-500 | normalizing a normalized name changes nothing |
| RuleSyntax.UnkeyedHasNoKey | core/crates/filter/src/wildcard.rs:48-50 | a stored pattern counts as unkeyed exactly when it has neither a literal head nor a literal tail |
| RuleSyntax.MergeMatches | core/crates/filter/src/domain_rules.rs:523-550 | merging runs of `*` and lowercasing change no match |
| RuleSyntax.MergeStars | core/crates/filter/src/domain_rules.rs:523-550 | the loop lowercases and merges runs of `*` as the recursive form does |
| RuleSyntax.WildcardPatternMeaning | core/crates/filter/src/domain_rules.rs:523-550 | the pattern made from a rule body matches a host exactly when the body, anchored as written at its start and end, matches it |
| RuleSyntax.ParsedLineIsStored | core/crates/filter/src/domain_rules.rs:343-474 | whatever rule a line gives, its name or glob has the form that is stored (what it gives is `RuleLines.LineMeaning`) |
| RuleLines.FormIsRead | core/crates/filter/src/domain_rules.rs:343-474 | a line written with or without `@@`, with one of the starts double bar, bar, `://`, `.`, `*.` or none, a name or a pattern, one of the ends `^`, `^` and bar or none, and the options `important` and `badfilter` in any order gives the rule of that form |
| RuleLines.RuleHasForm | core/crates/filter/src/domain_rules.rs:343-474 | every line that gives a rule is written in one of these forms |
| RuleLines.LineMeaning | core/crates/filter/src/domain_rules.rs:343-474 | so a line gives a rule exactly when it says it in one of these forms, is a comment exactly when blank or started by `!`, `#` or `[`, and is skipped otherwise |
| RuleLines.OptionsRead | core/crates/filter/src/domain_rules.rs:353-366 | the options are `important` and `badfilter`, in any order and number; any other option skips the line |
| ListMeaning.RuleCovers | core/crates/filter/src/domain_rules.rs:343-550 | the rule of a form applies exactly to its one host, to its name and the names below it, or to the hosts a part of which, where its anchors allow, its pattern matches |
| ListMeaning.AddressExactly | core/crates/filter/src/domain_rules.rs:262-264 | the first field of a hosts line is an address exactly when it is a dotted quad or holds a colon |
| ListMeaning.HostsExactly | core/crates/filter/src/domain_rules.rs:253-283 | a hosts line gives exactly the names among its fields, other than an address in front and localhost.localdomain |
| Text.LinesOfUnlines | core/crates/filter/src/domain_rules.rs:185-188 | the lines of a text are those it was put together from |
| Text.FieldsOfWords | core/crates/filter/src/domain_rules.rs:258-261 | the fields of a text are the words it was put together from |
| Text.TrimBlanks | core/crates/filter/src/domain_rules.rs:343-345 | trimming takes the blanks around a text and nothing of it |
| Exemptions.ExemptNameIs | core/crates/filter/src/exempt.rs:39-48 | a pattern gives a name exactly when, blanks around it aside, it is that name in some case, with or without `*.` in front and one dot behind, and the name is not empty |
| Exemptions.NewExemption | core/crates/filter/src/exempt.rs:35-57 | the three sets hold exactly the names of the patterns and their parents |
| Exemptions.CoversHostExact | core/crates/filter/src/exempt.rs:67-72 | the test for one host holds exactly for the exempt hosts |
| Exemptions.CoversSubtreeExact | core/crates/filter/src/exempt.rs:76-78 | the test for a name and all below it holds exactly when one of those is exempt |
| Exemptions.MatchesSomeNameUnderExact | core/crates/filter/src/exempt.rs:111-122 | that one of the glob's literal tail and the dotted name ends the other (for a glob without `*`, that the glob ends with it) is exactly that some text under the name matches the glob |
| Exemptions.PatternCoversExact | core/crates/filter/src/exempt.rs:84-99 | the test for a pattern holds exactly when it matches some exempt host |
| Exemptions.CoversExemptExact | core/crates/filter/src/domain_rules.rs:95-105 | a rule is held back exactly when it would block some exempt host |
| RuleBuilder.SortedNames | core/crates/filter/src/domain_rules.rs:552-556 | the names of a set in order, each once |
| RuleBuilder.WithoutRedundantChildren | core/crates/filter/src/domain_rules.rs:559-572 | dropping names below another one leaves the covered hosts the same |
| RuleBuilder.TopmostCovers | core/crates/filter/src/domain_rules.rs:559-572 | the topmost names of a set cover a host exactly when the set does |
| RuleBuilder.KeepLimits | core/crates/filter/src/domain_rules.rs:289-320 | at most 4096 patterns are kept, and at most 64 of them without a key |
| RuleBuilder.KeptPlusLeftOut | core/crates/filter/src/domain_rules.rs:289-320 | the patterns kept and left out are together the ones offered, each as often |
| RuleBuilder.KeptNotLeftOut | core/crates/filter/src/domain_rules.rs:289-320 | no pattern is both kept and left out |
| RuleBuilder.ExceptionsComeFirst | core/crates/filter/src/domain_rules.rs:289-320 | an exception is left out beside a kept block only when the unkeyed limit, which that block does not use, was the reason |
| RuleBuilder.ListedDecision | core/crates/filter/src/domain_rules.rs:322-340 | the four-step decision on the finished lists is the decision on the set of rules they come from |
| RuleLists.Builder.Exempts | core/crates/filter/src/domain_rules.rs:208-214 | a rule is held back, and counted, exactly when it would block an exempt host |
| RuleLists.Builder.Insert | core/crates/filter/src/domain_rules.rs:216-237 | the rule is in the set, and a pattern keeps its first place in the order |
| RuleLists.Builder.AddAdblockLine | core/crates/filter/src/domain_rules.rs:216-237 | one adblock line has the effect its parse says: a rule, a cancelled rule, a skipped or an exempted one |
| RuleLists.Builder.AddHostsLine | core/crates/filter/src/domain_rules.rs:253-283 | one hosts line adds exactly the usable names on it |
| RuleLists.Builder.LimitPatterns | core/crates/filter/src/domain_rules.rs:289-320 | exactly the patterns that find no room go, exceptions first served, and are counted as skipped |
| RuleLists.Builder.Finish | core/crates/filter/src/domain_rules.rs:322-340 | the rules finished are those of everything seen: added, less cancelled, less over the limits |
| RuleLists.ParseExempting | core/crates/filter/src/domain_rules.rs:177-202 | the same for whole lists, each under its own exemption |
| RuleLists.NoExemptHostBlocked | core/crates/filter/src/domain_rules.rs:177-283 | if every list carries the exemption, no exempt host is blocked by the parsed rules, whatever the lists say |
| RuleLists.LimitsPartition | core/crates/filter/src/domain_rules.rs:289-340 | a rule that survives cancelling is in the result or over the limit, and never both |
| RuleLists.OutcomeWithinLimits | core/crates/filter/src/domain_rules.rs:289-340 | the result's patterns and those over the limit are together all that survive; the limits hold; the skipped count is exact |
| RuleLists.OutcomeExceptionsFirst | core/crates/filter/src/domain_rules.rs:289-320 | no block is kept in room that an omitted exception could have used |
| RuleLists.OutcomeMeaning | core/crates/filter/src/domain_rules.rs:322-340 | the parsed rules decide every host as the final set of rules does, and as all surviving rules do if none was over the limit |
| ListMeaning.FinalRulesStand | core/crates/filter/src/domain_rules.rs:177-340 | the rules left at the end are exactly those that some line of some list gives, that the list does not exempt and that no line cancels, but for patterns over the limits |
| ListMeaning.ListsDecide | core/crates/filter/src/domain_rules.rs:177-340 | the parsed rules block a host exactly when the lines say so: an important block covers it, or a block does and no exception |
| LittleEndian.FromLeToLe | core/crates/filter/src/domain_set.rs:114-117 | a number written in little-endian bytes reads back |
| DomainFile.SortedHashesAre | core/crates/filter/src/domain_set.rs:119-128 | a section holds exactly the hashes of the names and of the tagged one-host names, ascending and each once |
| DomainFile.WritePatterns | core/crates/filter/src/domain_set.rs:131-141 | the loop writes the lines of the parent patterns, then those of the host patterns |
| DomainFile.PatternRoundTrip | core/crates/filter/src/domain_set.rs:131-213 | a written section of valid patterns parses to the same patterns in the same order |
| DomainFile.Encode | core/crates/filter/src/domain_set.rs:151-182 | the buffer is the file of the rules: header, checksum, three hash sections, two pattern sections |
| DomainFile.FileStarts | core/crates/filter/src/domain_set.rs:150-164 | a written file starts with the four letters of its format and version 2 |
| DomainFile.HeaderRoundTrip | core/crates/filter/src/domain_set.rs:151-325 | the header of a written file is accepted and gives back every size |
| DomainFile.FileRoundTrip | core/crates/filter/src/domain_set.rs:151-325 | a written file passes every check and parses to exactly the parts written |
| DomainSets.Load | core/crates/filter/src/domain_set.rs:255-325 | loading fails with the first check that fails, and otherwise holds exactly the parts of the file |
| DomainSets.Contains | core/crates/filter/src/domain_set.rs:333-337 | the binary search over the mapped bytes finds a hash exactly when the section has it |
| DomainSets.HashNames | core/crates/filter/src/domain_set.rs:351-367 | the buffer holds the hashes of the host and its parents with a dot, the first 127 of them |
| DomainSets.IsBlocked | core/crates/filter/src/domain_set.rs:351-386 | the lookup is the four-step decision on the hashes and patterns loaded |
| BlocklistMeaning.HashedIsString | core/crates/filter/src/domain_set.rs:351-386 | without a collision among the strings involved, deciding on hashes is deciding on strings |
| BlocklistMeaning.StringIsBlocked | core/crates/filter/src/domain_set.rs:339-386 | for ordinary hosts, deciding on the stored strings is the documented decision on the rules |
| BlocklistMeaning.LookupMeaning | core/crates/filter/src/domain_set.rs:339-386 | a lookup in the written rules gives the documented decision |
| BlocklistMeaning.TagConfusion | core/crates/filter/src/domain_set.rs:91-93 | a name of the host that starts with the tag byte is taken for the one-host rule of the rest: the lookup, on strings and on hashes, blocks a host that no rule blocks |
| BlocklistMeaning.BufferTooShort | core/crates/filter/src/domain_set.rs:353-367 | a rule for a name after the host's 127th covers the host and is not found on strings, nor on hashes without a collision |
| BlocklistMeaning.OrdinaryExactly | core/crates/filter/src/domain_set.rs:339-386 | the stored strings decide as documented for every set of rules in the form the compiler gives if and only if the host is ordinary |
| BlocklistMeaning.PlainIsOrdinary | core/crates/filter/src/domain_set.rs:351-367 | a host without the tag byte and with at most 127 dots is ordinary |
| BlocklistMeaning.TaggedHostConfused | core/crates/filter/src/domain_set.rs:91-93 | for every stored name, the host of the tag and the name is blocked by the one-host rule of the name, which does not cover it |
| BlocklistMeaning.BarHostConfused | core/crates/filter/src/domain_set.rs:91-93 | for example, a one-host rule for `a.b` blocks the host with the tag byte before `a.b` |
| BlocklistMeaning.LongHostMissed | core/crates/filter/src/domain_set.rs:353-367 | for every number of labels above the buffer, a rule for the last two labels covers the host and the lookup misses it |
| BlocklistMeaning.NoDotNotBlocked | core/crates/filter/src/domain_set.rs:351-386 | no rule blocks a host without a dot, so giving up on those changes nothing |
| BlocklistMeaning.WrittenLoads | core/crates/filter/src/domain_set.rs:151-325 | what is written for well-formed rules loads, as written |
| BlocklistMeaning.OutcomeWellFormed | core/crates/filter/src/domain_rules.rs:322-474 | whatever the lists say, the parsed rules hold only names that normalize to themselves and valid globs |
| BlocklistMeaning.OutcomeEncodable | core/crates/filter/src/domain_set.rs:143-182 | the sizes of parsed rules fit the file's 32-bit fields |
| BlocklistMeaning.CompileAndLookUp | core/crates/filter/src/domain_set.rs:228-253 | from the lists' text through parse, write, load and lookup: the host is blocked exactly when the lines of the lists say so, less what is over the limits |
| PerSecond.CounterIsGrouped | core/crates/policy/src/policy.rs:201-209 | with a clock that does not go back, the counter holds the connections of the last minute grouped by second |
| PerSecond.CountIsExact | core/crates/policy/src/policy.rs:198-226 | and counts exactly them, up to the largest 32-bit number, and their different seconds |
| PerSecond.CountIsSound | core/crates/policy/src/policy.rs:198-226 | with any clock, the counter counts no more connections than the last minute had, and no more different seconds |
| PinRules.TakeBackAll | core/crates/policy/src/policy.rs:295-301 | the loop takes back exactly the pins that are still the listed ones |
| PinRules.MakeRoom | core/crates/policy/src/policy.rs:436-455 | there is room for one more host; nothing is dropped from a table with room; from a full one exactly the unusable entries go or, if all are usable, one that all that stay are as recent as |
| PinRules.TakenBackKeeps | core/crates/policy/src/policy.rs:295-301 | taking back a list keeps every pin from alerts or from the file |
| PinRules.LearnedAtMostTwo | core/crates/policy/src/policy.rs:590-621 | the burst test leaves no way to a third host within 60 s |
| PinRules.UpstreamBurst | core/crates/policy/src/policy.rs:597-607 | an upstream burst leaves no listed pin of the last 60 s, keeps pins from alerts and the file, and keeps the lists complete |
| PinRules.SilentBurst | core/crates/policy/src/policy.rs:409-421 | a silent burst leaves no silent pin of the last 10 s, keeps pins from alerts and the file, and keeps the lists complete |
| PinRules.UpstreamDropped | core/crates/policy/src/policy.rs:750-758 | a network change leaves no upstream pin of the last five minutes |
| PinRules.SilentDropped | core/crates/policy/src/policy.rs:766-772 | a network change leaves no silent pin of the last minute |
| PinEvidence.PendingShowsThree | core/crates/policy/src/policy.rs:706-718 | three pending seconds are three seconds of the history, and the other way round if nothing was dropped |
| PinEvidence.CounterShowsFlood | core/crates/policy/src/policy.rs:248-255 | with any clock, a flood on the counters is a flood of the history's last minute; with a steady one and nothing dropped, the other way round too |
| PinEvidence.Decided | core/crates/policy/src/policy.rs:673-718 | the decision on the tables is the documented rule on the history when the clock is steady and the tables had room; with any clock and full tables, a host is never learned without the rule's evidence |
| PinNotes.NotesAlert | core/crates/policy/src/policy.rs:537-556 | a noted alert keeps: what is remembered of a host is its last alert of the history, and every one is remembered while no table was full |
| PinNotes.NotesHungUp | core/crates/policy/src/policy.rs:328-336 | a noted refusal keeps the same for the last refusals, since the last network change |
| PinNotes.BurstOfHosts | core/crates/policy/src/policy.rs:328-336 | the hosts counted for a burst were refused within 10 s in the history; with a steady clock and room, they are all of those |
| PinLearning.KeyIgnoresCaseAndDot | core/crates/policy/src/policy.rs:172-179 | hosts are told apart ignoring ASCII case and one trailing dot |
| PinLearning.KeyIs | core/crates/policy/src/policy.rs:172-179 | the key of a host is exactly its name in lowercase, spelled plainly or in brackets, with or without a dot behind |
| PinLearning.NoteSilentHost | core/crates/policy/src/policy.rs:328-336 | a burst is seen exactly when the table, trimmed to 10 s and with this host, has four hosts; what was trimmed and counted is kept |
| PinLearning.NoteSilent | core/crates/policy/src/policy.rs:328-336 | a burst means four hosts refused within 10 s in the history since the last network change; with a steady clock and room, exactly that |
| PinLearning.SecondAlertLogged | core/crates/policy/src/policy.rs:516-536 | a second alert on the table is an alert of the last ten minutes in the history; while no table was full, exactly that |
| PinLearning.NoteAlert | core/crates/policy/src/policy.rs:537-556 | a first alert is remembered with its time, at the expense of another host only in a full table |
| PinLearning.PinnedByAlertsSound | core/crates/policy/src/policy.rs:526-536 | learning from alerts keeps every invariant and every other pin, and takes the host off both lists |
| PinLearning.PinnedByUpstreamSound | core/crates/policy/src/policy.rs:617-622 | learning from an upstream failure outside a burst keeps every invariant and every other pin |
| PinLearning.PinnedBySilenceSound | core/crates/policy/src/policy.rs:364-373 | learning from silence keeps every invariant and every other pin |
| PinLearning.UpstreamBurstSound | core/crates/policy/src/policy.rs:596-616 | an upstream burst keeps every invariant and starts ten minutes in which failures teach nothing |
| PinLearning.SilentBurstSound | core/crates/policy/src/policy.rs:409-430 | a silent burst keeps every invariant, forgets all pending evidence and starts its minute |
| PinLearning.UpstreamHushSound | core/crates/policy/src/policy.rs:305-313 | clearing an old suppression never clears one less than ten minutes after its burst |
| PinLearning.SilentHushSound | core/crates/policy/src/policy.rs:316-324 | nor one less than a minute after a silent burst |
| PinLearning.HoldBack | core/crates/policy/src/policy.rs:673-676 | a refusal held back by a recent handshake is counted and ends what was pending |
| PinLearning.KeepPending | core/crates/policy/src/policy.rs:697-714 | any other is counted and pending; it is enough exactly when its second is new and the third |
| PinLearning.ConsiderRefusal | core/crates/policy/src/policy.rs:673-718 | a refusal that may teach makes a pin exactly by the rule on the history, and, with any clock, never without its evidence |
| PinLearning.HandshakeSound | core/crates/policy/src/policy.rs:726-740 | a handshake is counted for its host and ends what was pending for it |
| PinLearning.ChangedSound | core/crates/policy/src/policy.rs:750-782 | a network change keeps pins from alerts and the file and leaves none of the fresh others |
| PinLearning.WithoutAllEntries | core/crates/policy/src/policy.rs:793-809 | forgetting takes the entries of exactly the named hosts from pins, alerts, pending and counted refusals and both lists |
| PinLearning.WithoutAllSource | core/crates/policy/src/policy.rs:793-809 | forgetting drops where the named hosts' pins came from, keeps it for every other, and only adds to what was seen |
| PinLearning.SteadyPins | core/crates/policy/src/policy.rs:577-623 | between calls of a run with a steady clock: no three hosts with upstream pins within 60 s of each other, and every fresh pin is on its list |
| PinMeaning.PrunedExactly | core/crates/policy/src/policy.rs:182-193 | pruning keeps exactly the pins of less than thirty days |
| PinMeaning.WithinIsNear | core/crates/policy/src/policy.rs:186-189 | a time counts exactly if it is at most the age before now and at most an hour after it |
| PinMeaning.KeptForRefusals | core/crates/policy/src/policy.rs:700-704 | a host stays in a full table for its refusals exactly if one of them is of the last ten minutes |
| PinMeaning.AlertTeachesExactly | core/crates/policy/src/policy.rs:516-558 | an alert teaches exactly a named host, not pinned, with another alert in the last ten minutes, on the record and, while no table was full, on the history |
| PinMeaning.HeldBackByBurst | core/crates/policy/src/policy.rs:305-324 | with a steady clock, failures are held back exactly for ten minutes after a burst, and refusals for one |
| PinMeaning.FailureTeachesExactly | core/crates/policy/src/policy.rs:577-623 | a failure teaches exactly a named host, not pinned, with fewer than two hosts failed in the last minute and not held back; a suppression further ahead than ten minutes holds nothing back |
| PinMeaning.FailuresTogether | core/crates/policy/src/policy.rs:590-616 | a third failing host takes back exactly the pins listed in the last minute and holds failures back for ten |
| PinMeaning.ConsideredExactly | core/crates/policy/src/policy.rs:656-672 | a refusal is considered exactly for a named host, not pinned, with fewer than four hosts refused within 10 s and no burst that holds it back |
| PinMeaning.SilenceTeachesExactly | core/crates/policy/src/policy.rs:656-719 | a considered refusal teaches exactly with three seconds of refusals in ten minutes, or after a handshake a flood of ten seconds and five times the handshakes of the last minute |
| PinMeaning.RefusalsTogether | core/crates/policy/src/policy.rs:409-430 | four hosts refused within 10 s take back exactly the silent pins listed in that time |
| PinMeaning.ChangeDropsExactly | core/crates/policy/src/policy.rs:750-782 | a network change takes exactly the pins still as listed of the last five minutes or, silent ones, of the last minute |
| PinLearning.ListedAndBounded | core/crates/policy/src/policy.rs:258-290 | between calls of any run: no listed host has a pin from alerts or the file, and every table has at most 1024 hosts |
| PinLearning.Policy.constructor | core/crates/policy/src/policy.rs:481-494 | the policy starts with the stored pins and nothing else |
| PinLearning.Policy.RecordClientRejection | core/crates/policy/src/policy.rs:516-558 | a pin exactly at the second alert within ten minutes, on the table and on the history; the whole new record; other pins stay |
| PinLearning.Policy.LearnUpstreamUntrusted | core/crates/policy/src/policy.rs:577-623 | a pin exactly outside bursts and suppression; the whole new record of each case; with a steady clock a burst leaves no upstream pin of 60 s, and none is learned within ten minutes of one |
| PinLearning.Policy.RecordSilentRefusal | core/crates/policy/src/policy.rs:656-719 | a pin exactly by the rule on the history outside bursts and suppression, a burst being four hosts of the history; the whole new record of each case; with a steady clock a burst leaves no silent pin of 10 s, and none is learned within a minute of one |
| PinLearning.Policy.RecordInterceptedHandshake | core/crates/policy/src/policy.rs:726-740 | the handshake becomes the host's last and is counted; its pending refusals go; nothing else changes |
| PinLearning.Policy.OnNetworkChange | core/crates/policy/src/policy.rs:750-782 | exactly the fresh listed pins go, and with a steady clock no upstream pin of five minutes or silent pin of one minute is left |
| PinLearning.Policy.ForgetPins | core/crates/policy/src/policy.rs:793-809 | exactly the named hosts' entries go, from the record and from the history; where every other pin came from stays; the number returned is the number of pins that went |
| Wire.Skip | core/crates/dns/src/wire.rs:25-44 | the loop skips a name as the recursive reading does: labels, an end or an allowed pointer, at most 255 bytes |
| Wire.SkipAgrees | core/crates/dns/src/wire.rs:25-44 | skipping a name depends on its own bytes only |
| Wire.SkipsExactly | core/crates/dns/src/wire.rs:25-44 | a name is skipped exactly when one is written there: labels of 1 to 63 bytes, together under 255, and the root or, where allowed, a pointer |
| Wire.QuestionEnd | core/crates/dns/src/wire.rs:48-54 | the end of a single question lies within the message, and its name within 255 bytes |
| Wire.QuestionExactly | core/crates/dns/src/wire.rs:48-54 | a question is found exactly when it is the only one and is a name without pointers, a type and a class |
| Wire.WalkChained | core/crates/dns/src/wire.rs:80-112 | the records walked follow one another within the message, each at least 11 bytes long |
| Wire.WalkAgrees | core/crates/dns/src/wire.rs:80-112 | two messages alike in their records' names, types and lengths walk alike |
| Wire.ReadRecords | core/crates/dns/src/wire.rs:80-112 | the loop accepts exactly the messages whose records walk with at most one OPT, in the additional section, and reports where TTLs, OPT and end are |
| Wire.ReadAnswers | core/crates/dns/src/wire.rs:122-137 | the records of the answer section, or nothing if one is malformed |
| Answers.FromQuery | core/crates/dns/src/answer.rs:61-71 | the requester keeps its question, whose key is the query's |
| Answers.UdpLimitIs | core/crates/dns/src/answer.rs:83-89 | the exact limit: every size up to it is taken, and no other |
| Answers.BuildFields | core/crates/dns/src/answer.rs:102-118 | every field of a built reply reads back: id, flags, counts, question, records and OPT |
| Answers.FitFits | core/crates/dns/src/answer.rs:154-177 | a reply cut for a requester fits its limit |
| Answers.FitExactly | core/crates/dns/src/answer.rs:154-177 | a reply is left whole exactly when it has at most 512 bytes, or at most 1232 and at most what the client offers; otherwise it is cut to what the client takes |
| Answers.OptFields | core/crates/dns/src/answer.rs:92-98 | our OPT record: the root, type 41, 1232 bytes, version 0, no options, and the DO bit exactly for a client that set it |
| Answers.FitReply | core/crates/dns/src/answer.rs:154-177 | the loop over the answers cuts to the longest prefix that fits |
| Rendering.Parse | core/crates/dns/src/answer.rs:191-218 | an upstream message is refused for its first fault, and otherwise stored byte for byte without its OPT, with every record and TTL where it says |
| Rendering.StoredPlain | core/crates/dns/src/answer.rs:191-218 | cutting what follows the last record of a message without OPT leaves the same records |
| Rendering.StoredWithoutOpt | core/crates/dns/src/answer.rs:191-218 | cutting a final OPT and lowering its count leaves exactly the other records |
| Rendering.Render | core/crates/dns/src/answer.rs:255-272 | the reply is the stored answer with the requester's id, RD bit and question, aged, with our OPT, cut to the limit; no index is out of range and no count overflows |
| Rendering.UntrimmedReply | core/crates/dns/src/answer.rs:255-272 | an uncut reply walks to the stored records and our OPT to its very end, each TTL lowered by the age and not below 0, all other bytes of the records unchanged |
| Rendering.TrimmedReply | core/crates/dns/src/answer.rs:154-177 | a cut reply keeps the longest prefix of answers that fits, has TC set exactly when there were answers and none kept has the queried type, counts no authority records, and ends with our OPT exactly for an EDNS client |
| Names.LabelsAgree | core/crates/dns/src/answer.rs:166-168 | a name read through backward pointers has the same labels, but for letter case, in any message that agrees at the bytes read and has the same pointers |
| Names.NamesKept | core/crates/dns/src/answer.rs:154-272 | in every reply, cut or not, a name read from the question and the records kept, outside their TTLs, has the labels it has in the stored answer |
| Names.QuestionPointerKept | core/crates/dns/src/answer.rs:154-272 | so has every kept record named by the pointer to the question |
| Rendering.BlockedReplyMeaning | core/crates/dns/src/answer.rs:132-147 | a blocked name gets NOERROR with one zero address of 4 bytes for A and 16 for AAAA in class IN, kept for a minute, or an empty answer for any other question, always within the limit |
| Rendering.MinTtl | core/crates/dns/src/answer.rs:235-241 | the smallest TTL of the stored records, 0 without any |
| Rendering.CacheableExactly | core/crates/dns/src/answer.rs:220-227 | kept are exactly whole answers without error or for a name that does not exist, that some requester takes with our OPT |
| Rendering.QuestionKept | core/crates/dns/src/answer.rs:255-272 | putting the requester's spelling of the question in place leaves the question's end where it was |
| AnswerCache.PutValid | core/crates/dns/src/cache.rs:44-52 | inserting keeps the order in step with the entries, within the capacity |
| AnswerCache.HitIsLastInsert | core/crates/dns/src/cache.rs:34-65 | over every run, a hit is the last answer inserted under that key, with its age, and younger than 10 s or than its smallest TTL and the maximum |
| AnswerCache.AgeIs | core/crates/dns/src/cache.rs:58 | the age is the time since the insert, or none if the clock went back |
| AnswerCache.RecentIsKept | core/crates/dns/src/cache.rs:44-65 | an entry is not evicted while fewer other keys than the capacity are used after it |
| AnswerCache.InsertedIsHit | core/crates/dns/src/cache.rs:44-65 | while fewer other keys than the capacity are used, an inserted answer is given with its age exactly while it is younger than 10 s or than its smallest TTL and the maximum, whatever else happens |
| AnswerCache.LruAnswers.constructor | core/crates/dns/src/cache.rs:34-40 | an empty cache of at least one entry and at least 10 s |
| AnswerCache.LruAnswers.Store | core/crates/dns/src/cache.rs:44-52 | the entry becomes the most recent and the least recent one makes room |
| AnswerCache.LruAnswers.Find | core/crates/dns/src/cache.rs:56-65 | a live answer with its age, made the most recent; an expired one is removed |
| LocalAnswers.QueryKeyIsKey | core/crates/dns/src/wire.rs:58-64 | the key of a query's question is one whole lowercase name, and its own key |
| LocalAnswers.BuildLocalAnswer | core/crates/dns/src/handler.rs:113-142 | the loop builds the answer of the wanted records that fit, and its count never reaches the stop at 65535 |
| LocalAnswers.WantedIsAsked | core/crates/dns/src/handler.rs:115-124 | the records asked for are those of the key's class with its type, or of any type when that is 255 |
| LocalAnswers.FilledWalks | core/crates/dns/src/handler.rs:113-142 | the records walk one after another from the question to the end |
| LocalAnswers.LocalAnswerTaken | core/crates/dns/src/handler.rs:113-142 | the answer is accepted for its question if and only if no record kept in it is an OPT record |
| LocalAnswers.LocalAnswerAccepted | core/crates/dns/src/handler.rs:113-142 | the answer is accepted if no given OPT record is asked for; if all that is asked for fits, exactly then |
| LocalAnswers.OptRefused | core/crates/dns/src/handler.rs:113-142 | for every question and OPT record it asks for, the answer of that record is refused |
| LocalAnswers.LabelAnyRefused | core/crates/dns/src/handler.rs:113-142 | for example, for every single-label name, which is a local one, asked for with type ANY |
| LocalAnswers.LocalAnswerReadsBack | core/crates/dns/src/handler.rs:113-142 | every record reads back with its type, class and data, its TTL at most a minute |
| LocalAnswers.AllWantedKept | core/crates/dns/src/handler.rs:113-142 | an answer with room for all records of the queried type and class holds exactly those, in order |
| Handler.CacheKeyInjective | core/crates/dns/src/handler.rs:85-91 | two queries share a cache key only with the same question and the same DO bit |
| Handler.NextSafe | core/crates/dns/src/handler.rs:234-401 | every query, completion and network change, with any number of equal jobs open, keeps each held answer under its own question, DO bit and, for local ones, current network |
| Handler.HitWasFetchedAlike | core/crates/dns/src/handler.rs:278-317 | over every run, a hit was fetched for the same question and the same DO bit, and a local one under the current network |
| Handler.CompletedIsServed | core/crates/dns/src/handler.rs:323-401 | a completed answer that may be kept is what the next query alike gets, for as long as it lives: an hour at most, or a minute for a local one |
| Handler.NetworkDecides | core/crates/dns/src/handler.rs:234-241 | another network leaves nothing local to be served, the same one everything |
| Handler.EmptyReplyMeaning | core/crates/dns/src/answer.rs:125-130 | a reply without records has the client's id, RD bit and question, the error code, and our OPT |
| Handler.RenderHit | core/crates/dns/src/handler.rs:281-284 | the reply is the held answer rendered for this requester at this age |
| Handler.Check | core/crates/dns/src/handler.rs:323-355 | a message is refused with SERVFAIL or becomes the stored answer, its smallest TTL and its reply at age 0 |
| Handler.OptRecordFails | core/crates/dns/src/handler.rs:365-401 | a local job is answered if none of its records is an OPT record it asks for; with one, and room for all it asks for, the reply is SERVFAIL and nothing is kept |
| Handler.LabelAnyFails | core/crates/dns/src/handler.rs:365-401 | for every single-label name, a query of type ANY and an OPT record give SERVFAIL |
| Handler.DnsHandler.Ask | core/crates/dns/src/handler.rs:278-317 | a hit is answered with what is held at its age, and anything else becomes a job for its question and network |
| Handler.DnsHandler.CompleteJob | core/crates/dns/src/handler.rs:323-355 | the job gets its reply, and the checked answer is kept if it may be |
| Handler.DnsHandler.CompleteLocalJob | core/crates/dns/src/handler.rs:365-401 | the same for local records, kept only with answers and only if the network is still the one asked on |
| Handler.DnsHandler.ChangeNetwork | core/crates/dns/src/handler.rs:234-241 | another network empties the local cache and starts a new generation, the same one changes nothing |
| Doh.DownUntil | core/crates/dns/src/doh.rs:389-394 | a mark is never 0, which would mean up |
| Doh.MarksKept | core/crates/dns/src/doh.rs:379-410 | every step keeps: a mark of an older epoch is about to be cleared by a reset or taken back by its writer (that marks are set at all is `DohMarks.FailureIsMarked`) |
| Doh.InvAlways | core/crates/dns/src/doh.rs:244-581 | the invariants of marks, wake-ups, attempts and the slot hold in every interleaving |
| Doh.NoStaleMarkStays | core/crates/dns/src/doh.rs:379-410 | in every interleaving, with no reset and no mark-down midway, a mark that stands was set by an attempt of the current epoch |
| Doh.StaleAttemptIsWoken | core/crates/dns/src/doh.rs:414-431 | in every interleaving, a stoppable attempt of a past epoch was woken or a reset is about to wake it |
| Doh.AtMostThreeAttempts | core/crates/dns/src/doh.rs:440-514 | under any number of resets, a query makes at most three attempts |
| Doh.OnlyOwnConnectionDiscarded | core/crates/dns/src/doh.rs:543-581 | in every interleaving, what a query discards is the connection it used itself |
| DohMarks.EpochWasRead | core/crates/dns/src/doh.rs:414-431 | an attempt is of the epoch its query last read, which is the number of resets begun before |
| DohMarks.WokenByReset | core/crates/dns/src/doh.rs:414-431 | a waiting attempt has been woken exactly when a reset notified after the attempt last registered |
| DohMarks.FailureIsMarked | core/crates/dns/src/doh.rs:379-410 | in every interleaving, a query whose attempt failed and that is done has marked the upstream down until 30 s later, as far as 64 bits go, if no reset began since the attempt did |
| DohMarks.StaleFailureIgnored | core/crates/dns/src/doh.rs:389-392 | a failed query goes on to mark exactly if no reset began between its reading the count and checking it; otherwise it is done |
| DohMarks.MarkStands | core/crates/dns/src/doh.rs:379-410 | a mark stands until a query sets, clears or takes back one, or a reset clears it |
| DohMarks.MarkCleared | core/crates/dns/src/doh.rs:379-402 | an answered query and a reset leave no mark; taking back removes only a mark of the query's own value |
| DohMarks.AnswerMarksUp | core/crates/dns/src/doh.rs:379-383 | in every interleaving, an answered query has marked the upstream up or is about to |
| DohMarks.EndsByOutcome | core/crates/dns/src/doh.rs:440-514 | in every interleaving, a query ends exactly by an answer or a final failure; a connection that breaks or an attempt that a reset stops is tried again |
| DohMarks.DeadIsDropped | core/crates/dns/src/doh.rs:543-560 | a connection that broke or stopped answering is shared with nobody after, nor is any after a reset |
| DohMarks.ConnectionStays | core/crates/dns/src/doh.rs:524-583 | the shared connection and its generation stay until a new one is stored, an idle one or, by a reset, any is dropped, or a query's failure discards its own |
| DohMarks.SlotChanges | core/crates/dns/src/doh.rs:524-583 | an idle connection is dropped; a new one is shared and is the one its query uses |
| LocalLookups.OfferGood | core/crates/tollgate-ffi/src/engine.rs:568-598 | joining or opening a lookup keeps table and index inverse, at most 64 lookups of 1 to 16 jobs, all with the lookup's question |
| LocalLookups.OfferConserves | core/crates/tollgate-ffi/src/engine.rs:568-598 | a job offered waits once or is failed at once |
| LocalLookups.StepConserves | core/crates/tollgate-ffi/src/engine.rs:549-599 | every call: the jobs waiting after it and those it answers are those waiting before and those submitted |
| LocalLookups.StepClosesForGood | core/crates/tollgate-ffi/src/engine.rs:386-401 | an id that is closed never opens again, and completing it answers nothing |
| LocalLookups.Run | core/crates/tollgate-ffi/src/engine.rs:549-599 | after every run the table and the index are inverse and the limits hold |
| LocalLookups.RunConserves | core/crates/tollgate-ffi/src/engine.rs:549-599 | over every run, the jobs waiting and those answered are exactly those submitted, each as often |
| LocalLookups.JobInOnePlace | core/crates/tollgate-ffi/src/engine.rs:549-599 | a job submitted once is answered once and waits nowhere, or waits in exactly the lookup of its question |
| LookupsExact.OfferExactly | core/crates/tollgate-ffi/src/engine.rs:568-598 | a job waits exactly if the open lookup of its question has fewer than 16 jobs, or there is none and fewer than 64 are open; it is then the last job of that lookup, begun when it was, or now |
| LookupsExact.OpenForIs | core/crates/tollgate-ffi/src/engine.rs:568-598 | the lookup found through the index is the one lookup of the question in the table, and none is found exactly if there is none |
| LookupsExact.BatchExactly | core/crates/tollgate-ffi/src/engine.rs:549-599 | for a whole batch: the refused jobs, in order, are those whose question has neither a lookup nor is among the first new ones there is room for, or has 16 jobs before them; every question keeps the first 16 of its jobs |
| LookupsExact.StillOpen | core/crates/tollgate-ffi/src/engine.rs:555-567 | at a submission exactly the lookups past their deadline go |
| LookupsExact.SubmitExactly | core/crates/tollgate-ffi/src/engine.rs:549-599 | one call: what is past its deadline and what is refused is answered, and each question has the lookup that its jobs give |
| LookupsExact.SubmitWithoutResolver | core/crates/tollgate-ffi/src/engine.rs:549-599 | without a resolver every job of the batch fails, and only what is past its deadline leaves the table |
| LookupsExact.CompleteExactly | core/crates/tollgate-ffi/src/engine.rs:386-401 | an answer closes exactly its own lookup and answers its jobs |
| LocalLookups.LocalJobs.Remove | core/crates/tollgate-ffi/src/engine.rs:118-124 | the lookup leaves both maps, or nothing happens for an unknown id |
| LocalLookups.LocalJobs.Expire | core/crates/tollgate-ffi/src/engine.rs:555-567 | exactly the lookups past their deadline go, and all their jobs fail |
| LocalLookups.LocalJobs.Join | core/crates/tollgate-ffi/src/engine.rs:568-598 | a job joins the open lookup of its question, opens a new one or fails (exactly when is `LookupsExact.OfferExactly`), and the indexed lookup is always there |
| LocalLookups.LocalJobs.ResolveLocally | core/crates/tollgate-ffi/src/engine.rs:549-599 | one call is one step of the table; each new lookup is asked once, under its own new id, for the name, type and class of the job that opened it |
| LocalLookups.LocalJobs.CompleteLocal | core/crates/tollgate-ffi/src/engine.rs:386-401 | the jobs of the lookup are answered, and none for an id that is closed |
| Flight.ReadServerHello | core/crates/mitm/src/flight.rs:194-227 | the loop over the extensions gives what the hello starts: another hello after a retry request, TLS 1.3, TLS 1.2, or no certificate for a resumed session or an unreadable body |
| Hellos.ServerHelloRead | core/crates/mitm/src/flight.rs:194-227 | for every encoded hello: a retry request by its random; else TLS 1.3 exactly when the last supported_versions extension selects it, without a certificate exactly when some extension accepts a pre-shared key; else TLS 1.2 |
| Hellos.ServerHelloCut | core/crates/mitm/src/flight.rs:194-227 | a hello cut short gives no certificate, unless the retry random is whole or just the extensions are missing |
| Flight.FeedSplit | core/crates/mitm/src/flight.rs:109-140 | feeding two pieces is feeding them joined, from every state |
| Flight.FeedRecord | core/crates/mitm/src/flight.rs:109-157 | a whole record has the effect of its content type and fragment, however it is cut into writes |
| Flight.FeedRecordPrefix | core/crates/mitm/src/flight.rs:109-157 | no proper prefix of a record changes the progress |
| Flight.Records.constructor | core/crates/mitm/src/flight.rs:91-99 | the parser starts before the first record, waiting for a ServerHello |
| Flight.Records.HandshakeMessages | core/crates/mitm/src/flight.rs:161-188 | the loop takes every whole message, keeps the rest, and gives up above 16 KiB |
| Flight.Records.Complete | core/crates/mitm/src/flight.rs:143-157 | a complete record moves the progress as its type and the state say |
| Flight.Records.HeaderBytes | core/crates/mitm/src/flight.rs:111-124 | bytes of a header have the effect of feeding them one by one |
| Flight.Records.FragmentBytes | core/crates/mitm/src/flight.rs:125-137 | bytes of a fragment have the effect of feeding them one by one |
| Flight.Records.Written | core/crates/mitm/src/flight.rs:109-140 | one write of any size leaves the state of feeding its bytes one by one |
| Flight.Tls12CertificateSent | core/crates/mitm/src/flight.rs:109-188 | a TLS 1.2 ServerHello and Certificate of at most 16 KiB together reach `CertificateSent` under every split into records, exactly at the last byte of the record that completes the Certificate |
| Flight13.Tls13CertificateSent | core/crates/mitm/src/flight.rs:109-188 | after any retry requests and a TLS 1.3 hello, under every split into records, the certificate is sent exactly at the last byte of the first encrypted record, whatever change_cipher_spec records come between |
| Flight13.HelloAwaited | core/crates/mitm/src/flight.rs:109-188 | until the last byte of the record that completes the hello, the parser waits for it |
| Flight13.MessagesSplit | core/crates/mitm/src/flight.rs:161-188 | reading the messages of two pieces one after the other is reading them joined |
| FlightExact.WholeRecords | core/crates/mitm/src/flight.rs:109-140 | any bytes are the records read from them and then less than a record |
| FlightExact.FeedIsRecords | core/crates/mitm/src/flight.rs:109-157 | any bytes move the progress exactly as their whole records do |
| FlightExact.Shows12 | core/crates/mitm/src/flight.rs:161-188 | the messages reach a certificate exactly when the bytes start with retry requests, a TLS 1.2 hello and a Certificate |
| FlightExact.Shows13 | core/crates/mitm/src/flight.rs:161-188 | they reach TLS 1.3 exactly when the bytes start with retry requests and its hello |
| FlightExact.SentExactly | core/crates/mitm/src/flight.rs:1-188 | for any bytes: the certificate counts as sent if and only if, for some of the first whole records, the last completes a Certificate after hellos of TLS 1.2 or is encrypted after hellos of TLS 1.3, all before it being records the protocol allows there with no unfinished message above 16 KiB |
| Flight.OverlongMessageEndsWatch | core/crates/mitm/src/flight.rs:184-186 | a message that is still incomplete above 16 KiB ends the watch without a certificate |

## Left out
- The `adblock` URL engine, the `hickory_proto` decoder and `etherparse` packets: foreign libraries; whether a message decodes is a parameter that can only reject.
- The hyper, tokio and rustls plumbing of the proxy (`upstream.rs`, `connect.rs`, `intercept.rs`, `sink.rs`, `websocket.rs`, `tunnel.rs`, `proxy.rs`): library behaviour.
- Certificates, the iOS profile, file I/O and memory mapping, the Swift app, devproxy: I/O, cryptography and user interface.
- `classify`, the allowlist and the bundled host tables of the policy, the stored pins file, logging, statistics and the event log: data, flat case tables or easy members.
- `doh.rs`: the order of upstreams, their health, the `probing` flag and `touch` are not modelled; nor is it claimed that a shared connection belongs to the newest path, since the epoch check and the store into the slot are separate steps.
- Names.Labels: reads a name of any length and follows pointers only backwards, and `NamesKept` asks that no pointer lies in the question, where the spelling changes.
- `flight.rs`: `FlightWatch` around the parser, which only passes writes on.
- `handler.rs`: the packet and opcode checks before a query, the SVCB and HTTPS case and the block decision are not part of `DnsHandler`; a query is given with its kind.
- BlocklistMeaning.LookupMeaning: takes absence of collisions among the strings involved as a hypothesis, since hash quality is not a property of the code.
- BlocklistMeaning.OutcomeEncodable: asks for fewer than 2^32 rules in the lists, where the core would fail on its 32-bit section sizes.
- PinLearning.Policy.RecordSilentRefusal: the rule and the burst on the history are exact while the clock does not go back and no table was full when one more host came; otherwise they hold in one direction, since a full table may forget evidence and a clock that went back may drop seconds.
- PinLearning.Policy.RecordClientRejection: a second alert on the history is exact while no table was full when one more host came; otherwise it holds in one direction.
- PinLearning.Policy: the record behind the lock is one field, read at the start of a call and stored at its end, as the lock is held throughout; the aliasing of the maps inside it is not modelled. `log_held_back`, which only logs, is left out.
- PinRules: times are unbounded; the saturation of 64-bit sums near the end of time is not modelled.
- PinLearning.LookupKey: names are bytes; the text is not checked to be UTF-8.
- LocalLookups: ids are unbounded where the core's 64-bit counter could wrap; one reading of the clock serves a whole call.
- Doh: epochs and generations are unbounded where the core has 64-bit counters.
- RuleLists.Builder: the nine sets of the builder are one set of (kind, name) pairs.
- DomainFile.PatternRoundTrip: the UTF-8 check of a section is not modelled; a section that fails it has no valid line either.
- Trie.BuildTrie: asks for fewer than 2^32 key bytes and entries, where the core's `expect` would fail; the limits of 4096 patterns of 253 bytes keep far below it.
