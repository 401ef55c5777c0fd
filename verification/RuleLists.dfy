/** Reading whole lists into rules (domain_rules.rs): the builder that the lines are added to,
    and what its finished rules keep of them. */
module RuleLists {
  import opened Bytes
  import opened Text
  import opened RuleSyntax
  import opened Exemptions
  import opened RuleBuilder

  // ----- hosts lines

  function DecimalOf(s: Str): int {
    if s == [] then 0
    else
      var digit: int := s[|s| - 1];
      10 * DecimalOf(s[..|s| - 1]) + digit - 48
  }

  predicate IsOctet(s: Str) {
    && 1 <= |s| <= 3 && AllDigits(s)
    && (|s| > 1 ==> s[0] != 48)
    && DecimalOf(s) <= 255
  }

  predicate IsIpv4(s: Str) {
    var parts := Split(s, DOT);
    |parts| == 4 && forall p :: p in parts ==> IsOctet(p)
  }

  /** The field is an address: IPv4, or anything with a colon, as every IPv6 address has. */
  predicate IsAddress(s: Str) { IsIpv4(s) || 58 in s }

  /** The names of a hosts line that can be blocked, in order. */
  function UsableNames(fields: seq<Str>): seq<Name> {
    if fields == [] then []
    else
      var name := NormalizeName(fields[0]);
      var local := Lowercase(fields[0]) == Ascii("localhost.localdomain");
      (if local || name.None? then [] else [name.value]) + UsableNames(fields[1..])
  }

  function HostsFields(line: Str): seq<Str> { Fields(Trim(line[..IndexOf(line, 35)])) }

  function HostsNames(line: Str): seq<Name> {
    var fields := HostsFields(line);
    if fields == [] then []
    else UsableNames(if IsAddress(fields[0]) then fields[1..] else fields)
  }

  // ----- what lines contribute

  /** What has been read: the rules in order, the cancelled ones, and the two counters. */
  datatype Effect = Effect(added: seq<RuleEntry>, bad: set<RuleEntry>, skipped: nat, exempted: nat)

  const NOTHING := Effect([], {}, 0, 0)

  function Then(a: Effect, b: Effect): Effect {
    Effect(a.added + b.added, a.bad + b.bad, a.skipped + b.skipped, a.exempted + b.exempted)
  }

  predicate Exempted(exempt: Option<Exemption>, kind: Kind, name: Name) {
    exempt.Some? && CoversExempt(kind, name, exempt.value)
  }

  function AdblockEffect(exempt: Option<Exemption>, line: Str): Effect {
    match ParseAdblockLine(line)
    case Comment => NOTHING
    case Skip => NOTHING.(skipped := 1)
    case Rule(kind, name, badfilter) =>
      if badfilter then NOTHING.(bad := {(kind, name)})
      else if Exempted(exempt, kind, name) then NOTHING.(exempted := 1)
      else NOTHING.(added := [(kind, name)])
  }

  function NamesEffect(exempt: Option<Exemption>, names: seq<Name>): Effect {
    if names == [] then NOTHING
    else
      var n := |names| - 1;
      Then(NamesEffect(exempt, names[..n]), NameEffect(exempt, names[n]))
  }

  function HostsEffect(exempt: Option<Exemption>, line: Str): Effect {
    var names := HostsNames(line);
    Then(NamesEffect(exempt, names), NOTHING.(skipped := if names == [] && HostsFields(line) != [] then 1 else 0))
  }

  function LineEffect(format: ListFormat, exempt: Option<Exemption>, line: Str): Effect {
    if format == Adblock then AdblockEffect(exempt, line) else HostsEffect(exempt, line)
  }

  function LinesEffect(format: ListFormat, exempt: Option<Exemption>, lines: seq<Str>): Effect {
    if lines == [] then NOTHING
    else
      var n := |lines| - 1;
      Then(LinesEffect(format, exempt, lines[..n]), LineEffect(format, exempt, lines[n]))
  }

  /** The text of a list without a byte order mark. */
  function ListText(text: Str): Str {
    var rest := StripPrefix(text, [0xef, 0xbb, 0xbf]);
    if rest.Some? then rest.value else text
  }

  function ListEffect(list: DnsList): Effect {
    LinesEffect(list.format, list.exempt, Lines(ListText(list.text)))
  }

  function ListsEffect(lists: seq<DnsList>): Effect {
    if lists == [] then NOTHING
    else
      var n := |lists| - 1;
      Then(ListsEffect(lists[..n]), ListEffect(lists[n]))
  }

  // ----- what is left of it

  /** The patterns in the order they were first added. */
  function FirstPatterns(added: seq<RuleEntry>): seq<RuleEntry> {
    if added == [] then []
    else
      var n := |added| - 1;
      var before := FirstPatterns(added[..n]);
      if added[n].0.IsPattern() && added[n] !in before then before + [added[n]] else before
  }

  lemma {:induction false} FirstPatternsElements(added: seq<RuleEntry>)
    ensures NoDuplicates(FirstPatterns(added))
    ensures forall x :: x in FirstPatterns(added) <==> x in added && x.0.IsPattern()
  {
    if added != [] {
      var n := |added| - 1;
      FirstPatternsElements(added[..n]);
      assert added == added[..n] + [added[n]];
    }
  }

  lemma FirstPatternsAppend(added: seq<RuleEntry>, x: RuleEntry)
    ensures FirstPatterns(added + [x]) ==
            if x.0.IsPattern() && x !in added then FirstPatterns(added) + [x] else FirstPatterns(added)
  {
    FirstPatternsElements(added);
    assert (added + [x])[..|added|] == added;
  }

  function Elements(s: seq<RuleEntry>): set<RuleEntry> { set x | x in s }

  /** The rules `$badfilter` has not cancelled. */
  function Surviving(e: Effect): set<RuleEntry> { Elements(e.added) - e.bad }

  /** The surviving patterns in the order they are offered room. */
  function Candidates(e: Effect): seq<RuleEntry> { Present(Offered(FirstPatterns(e.added)), Surviving(e)) }

  /** The surviving patterns the limits leave out. */
  function OverLimit(e: Effect): seq<RuleEntry> { LeftOut(Candidates(e), 0, 0) }

  function FinalRules(e: Effect): set<RuleEntry> { Surviving(e) - Elements(OverLimit(e)) }

  ghost predicate Outcome(r: DomainRules, e: Effect) {
    && ListsRules(r, FinalRules(e))
    && r.skipped == e.skipped + |OverLimit(e)|
    && r.exempted == e.exempted
  }

  /** The rules being collected. `rules` holds the nine sets of the source as pairs. */
  class Builder {
    var exempt: Option<Exemption>
    var rules: set<RuleEntry>
    var badfilter: set<RuleEntry>
    var patternOrder: seq<RuleEntry>
    var skipped: nat
    var exempted: nat
    ghost var seen: Effect

    ghost predicate Valid()
      reads this
    {
      && rules == Elements(seen.added)
      && badfilter == seen.bad
      && patternOrder == FirstPatterns(seen.added)
      && skipped == seen.skipped
      && exempted == seen.exempted
    }

    constructor ()
      ensures Valid() && seen == NOTHING
    {
      exempt := None;
      rules, badfilter, patternOrder := {}, {}, [];
      skipped, exempted := 0, 0;
      seen := NOTHING;
    }

    method Exempts(kind: Kind, name: Name) returns (r: bool)
      requires Valid()
      modifies this`exempted, this`seen
      ensures Valid() && r == Exempted(exempt, kind, name)
      ensures seen == if r then Then(old(seen), NOTHING.(exempted := 1)) else old(seen)
    {
      r := exempt.Some? && CoversExempt(kind, name, exempt.value);
      if r {
        exempted := exempted + 1;
        assert seen.added + [] == seen.added;
        seen := Then(seen, NOTHING.(exempted := 1));
      }
    }

    method SkipLine()
      requires Valid()
      modifies this`skipped, this`seen
      ensures Valid() && seen == Then(old(seen), NOTHING.(skipped := 1))
    {
      skipped := skipped + 1;
      assert seen.added + [] == seen.added;
      seen := Then(seen, NOTHING.(skipped := 1));
    }

    method Insert(kind: Kind, name: Name)
      requires Valid()
      modifies this`rules, this`patternOrder, this`seen
      ensures Valid() && seen == Then(old(seen), NOTHING.(added := [(kind, name)]))
    {
      hide FirstPatterns;
      if kind.IsPattern() && (kind, name) !in rules {
        patternOrder := patternOrder + [(kind, name)];
      }
      rules := rules + {(kind, name)};
      FirstPatternsAppend(seen.added, (kind, name));
      seen := Then(seen, NOTHING.(added := [(kind, name)]));
    }

    method AddAdblockLine(line: Str)
      requires Valid()
      modifies this
      ensures Valid() && exempt == old(exempt) && seen == Then(old(seen), AdblockEffect(exempt, line))
    {
      hide Exempted, FirstPatterns, ParseAdblockLine;
      ThenNothing(seen);
      match ParseAdblockLine(line) {
        case Comment =>
        case Skip => SkipLine();
        case Rule(kind, name, bad) =>
          if bad {
            badfilter := badfilter + {(kind, name)};
            assert seen.added + [] == seen.added;
            seen := Then(seen, NOTHING.(bad := {(kind, name)}));
          } else {
            var left := Exempts(kind, name);
            if !left {
              Insert(kind, name);
            }
          }
      }
    }

    method AddHostsLine(line: Str)
      requires Valid()
      modifies this
      ensures Valid() && exempt == old(exempt) && seen == Then(old(seen), HostsEffect(exempt, line))
    {
      hide Exempted, HostsNames, HostsFields, Valid, Then;
      var names := HostsNames(line);
      var i := 0;
      ThenNothing(seen);
      assert names[..0] == [];
      while i < |names|
        invariant 0 <= i <= |names|
        invariant Valid() && exempt == old(exempt)
        invariant seen == Then(old(seen), NamesEffect(exempt, names[..i]))
      {
        var left := Exempts(Block, names[i]);
        if !left {
          Insert(Block, names[i]);
        }
        NamesStep(old(seen), exempt, names, i);
        i := i + 1;
      }
      assert names[..i] == names;
      ThenNothing(seen);
      if names == [] && HostsFields(line) != [] {
        SkipLine();
        ThenAssociates(old(seen), NamesEffect(exempt, names), NOTHING.(skipped := 1));
      } else {
        ThenAssociates(old(seen), NamesEffect(exempt, names), NOTHING);
      }
    }

    /** `limit_patterns`: offers room to the exceptions, then to the blocks, each in order. */
    method LimitPatterns()
      requires NoDuplicates(patternOrder)
      modifies this
      ensures var q := Present(Offered(old(patternOrder)), old(rules));
              && rules == old(rules) - Elements(LeftOut(q, 0, 0))
              && skipped == old(skipped) + |LeftOut(q, 0, 0)|
      ensures exempted == old(exempted)
    {
      hide IsUnkeyed, LeftOut, Present, Offered;
      var q := Offered(patternOrder);
      patternOrder := [];
      OfferedElements(old(patternOrder));
      PermutedNoDuplicates(old(patternOrder), q);
      ghost var was := rules;
      ghost var gone: seq<RuleEntry> := [];
      var kept, keptUnkeyed, leftOut, i := 0, 0, 0, 0;
      assert q[0..] == q && Elements([]) == {};
      while i < |q|
        invariant 0 <= i <= |q|
        invariant LeftOut(Present(q, was), 0, 0) == gone + LeftOut(Present(q[i..], was), kept, keptUnkeyed)
        invariant forall x :: x in gone ==> x in q[..i]
        invariant leftOut == |gone| && rules == was - Elements(gone)
        invariant skipped == old(skipped) && exempted == old(exempted)
      {
        LeftOutStep(q, i, was, kept, keptUnkeyed);
        assert q[i] !in gone;
        if q[i] in rules {
          var unkeyed := IsUnkeyed(q[i].1);
          if kept < MAX_WILDCARD_PATTERNS && (!unkeyed || keptUnkeyed < MAX_UNKEYED_PATTERNS) {
            kept := kept + 1;
            keptUnkeyed := keptUnkeyed + if unkeyed then 1 else 0;
          } else {
            rules := rules - {q[i]};
            leftOut := leftOut + 1;
            gone := gone + [q[i]];
          }
        }
        i := i + 1;
      }
      LeftOutEnd(q, was, kept, keptUnkeyed);
      assert gone + [] == gone;
      skipped := skipped + leftOut;
    }

    /** `finish`. */
    method Finish() returns (r: DomainRules)
      requires Valid()
      modifies this
      ensures Outcome(r, old(seen))
    {
      hide Lists, NamesOf, Topmost, LeftOut, Present, Offered, FirstPatterns;
      rules := rules - badfilter;
      badfilter := {};
      FirstPatternsElements(seen.added);
      LimitPatterns();
      var important := WithoutRedundantChildren(NamesOf(rules, Important));
      var allow := WithoutRedundantChildren(NamesOf(rules, Allow));
      var block := WithoutRedundantChildren(NamesOf(rules, Block));
      var exactAllow := SortedNames(NamesOf(rules, ExactAllow));
      var exactBlock := SortedNames(NamesOf(rules, ExactBlock));
      var wildcardAllow := SortedNames(NamesOf(rules, WildcardAllow));
      var exactWildcardAllow := SortedNames(NamesOf(rules, ExactWildcardAllow));
      var wildcardBlock := SortedNames(NamesOf(rules, WildcardBlock));
      var exactWildcardBlock := SortedNames(NamesOf(rules, ExactWildcardBlock));
      r := DomainRules(important, allow, block, exactAllow, exactBlock, wildcardAllow, exactWildcardAllow,
                       wildcardBlock, exactWildcardBlock, skipped, exempted);
    }
  }

  lemma ThenAssociates(a: Effect, b: Effect, c: Effect)
    ensures Then(Then(a, b), c) == Then(a, Then(b, c))
  {
  }

  function NameEffect(exempt: Option<Exemption>, name: Name): Effect {
    if Exempted(exempt, Block, name) then NOTHING.(exempted := 1) else NOTHING.(added := [(Block, name)])
  }

  lemma NamesStep(before: Effect, exempt: Option<Exemption>, names: seq<Name>, i: nat)
    requires i < |names|
    ensures Then(Then(before, NamesEffect(exempt, names[..i])), NameEffect(exempt, names[i])) ==
            Then(before, NamesEffect(exempt, names[..i + 1]))
  {
    assert names[..i + 1][..i] == names[..i];
    ThenAssociates(before, NamesEffect(exempt, names[..i]), NameEffect(exempt, names[i]));
  }

  lemma ThenNothing(a: Effect)
    ensures Then(a, NOTHING) == a
  {
    assert a.added + [] == a.added;
  }

  /** What offering room to the next pattern does to those left out. */
  lemma LeftOutStep(q: seq<RuleEntry>, i: nat, rules: set<RuleEntry>, kept: nat, keptUnkeyed: nat)
    requires i < |q| && NoDuplicates(q)
    ensures q[i] !in q[..i]
    ensures LeftOut(Present(q[i..], rules), kept, keptUnkeyed) ==
            if q[i] !in rules then LeftOut(Present(q[i + 1..], rules), kept, keptUnkeyed)
            else if HasRoom(q[i], kept, keptUnkeyed) then
              LeftOut(Present(q[i + 1..], rules), kept + 1, keptUnkeyed + if IsUnkeyed(q[i].1) then 1 else 0)
            else [q[i]] + LeftOut(Present(q[i + 1..], rules), kept, keptUnkeyed)
  {
    hide IsUnkeyed;
    assert q[i..][1..] == q[i + 1..];
    var rest := Present(q[i + 1..], rules);
    if q[i] in rules {
      assert Present(q[i..], rules) == [q[i]] + rest && ([q[i]] + rest)[1..] == rest;
    } else {
      assert Present(q[i..], rules) == [] + rest == rest;
    }
  }

  lemma LeftOutEnd(q: seq<RuleEntry>, rules: set<RuleEntry>, kept: nat, keptUnkeyed: nat)
    ensures LeftOut(Present(q[|q|..], rules), kept, keptUnkeyed) == []
  {
    assert q[|q|..] == [];
  }

  /** `DomainRules::parse_exempting`. */
  method ParseExempting(lists: seq<DnsList>) returns (r: DomainRules)
    ensures Outcome(r, ListsEffect(lists))
  {
    hide Outcome, LineEffect, Builder.Valid;
    var builder := new Builder();
    var i := 0;
    while i < |lists|
      invariant 0 <= i <= |lists|
      invariant fresh(builder) && builder.Valid() && builder.seen == ListsEffect(lists[..i])
    {
      assert lists[..i + 1][..i] == lists[..i];
      AddList(builder, lists[i]);
      i := i + 1;
    }
    assert lists[..i] == lists;
    r := builder.Finish();
  }

  method AddList(builder: Builder, list: DnsList)
    requires builder.Valid()
    modifies builder
    ensures builder.Valid() && builder.seen == Then(old(builder.seen), ListEffect(list))
  {
    hide AdblockEffect, HostsEffect, FirstPatterns;
    builder.exempt := list.exempt;
    var lines := Lines(ListText(list.text));
    var i := 0;
    assert builder.seen.added + [] == builder.seen.added;
    while i < |lines|
      invariant 0 <= i <= |lines|
      invariant builder.Valid() && builder.exempt == list.exempt
      invariant builder.seen == Then(old(builder.seen), LinesEffect(list.format, list.exempt, lines[..i]))
    {
      assert lines[..i + 1][..i] == lines[..i];
      match list.format {
        case Adblock => builder.AddAdblockLine(lines[i]);
        case Hosts => builder.AddHostsLine(lines[i]);
      }
      ThenAssociates(old(builder.seen), LinesEffect(list.format, list.exempt, lines[..i]),
                     LineEffect(list.format, list.exempt, lines[i]));
      i := i + 1;
    }
    assert lines[..i] == lines;
  }

  // ----- what is promised of the outcome

  /** Everything added is in the stored form and blocks no host the list exempts. */
  ghost predicate Proper(added: seq<RuleEntry>, exempt: Option<Exemption>) {
    forall x :: x in added ==> StoredRule(x.0, x.1) && !Exempted(exempt, x.0, x.1)
  }

  lemma {:induction false} UsableNamesStored(fields: seq<Str>)
    ensures forall n :: n in UsableNames(fields) ==> StoredName(n)
  {
    hide NormalizeName, StoredName;
    if fields != [] {
      UsableNamesStored(fields[1..]);
      if NormalizeName(fields[0]).Some? { NormalizedIsStored(fields[0]); }
    }
  }

  lemma {:induction false} NamesProper(exempt: Option<Exemption>, names: seq<Name>)
    requires forall n :: n in names ==> StoredName(n)
    ensures Proper(NamesEffect(exempt, names).added, exempt)
  {
    hide StoredName, Exempted;
    if names != [] { NamesProper(exempt, names[..|names| - 1]); }
  }

  lemma LineProper(format: ListFormat, exempt: Option<Exemption>, line: Str)
    ensures Proper(LineEffect(format, exempt, line).added, exempt)
  {
    hide StoredRule, Exempted, ParseAdblockLine;
    if format == Adblock {
      ParsedLineIsStored(line);
    } else {
      var fields := HostsFields(line);
      if fields != [] { UsableNamesStored(if IsAddress(fields[0]) then fields[1..] else fields); }
      NamesProper(exempt, HostsNames(line));
      assert NamesEffect(exempt, HostsNames(line)).added + [] == NamesEffect(exempt, HostsNames(line)).added;
    }
  }

  lemma {:induction false} LinesProper(format: ListFormat, exempt: Option<Exemption>, lines: seq<Str>)
    ensures Proper(LinesEffect(format, exempt, lines).added, exempt)
  {
    hide StoredRule, Exempted, LineEffect;
    if lines != [] {
      var n := |lines| - 1;
      LinesProper(format, exempt, lines[..n]);
      LineProper(format, exempt, lines[n]);
    }
  }

  /** Every rule of every list is in the stored form; with one exemption on all of them, no
      rule covers a host it exempts. */
  lemma {:induction false} ListsProper(lists: seq<DnsList>, exempt: Option<Exemption>)
    requires exempt.None? || forall l :: l in lists ==> l.exempt == exempt
    ensures Proper(ListsEffect(lists).added, exempt)
  {
    hide StoredRule, CoversExempt, LinesEffect, Lines;
    if lists != [] {
      var n := |lists| - 1;
      ListsProper(lists[..n], exempt);
      LinesProper(lists[n].format, lists[n].exempt, Lines(ListText(lists[n].text)));
      assert lists[n] in lists;
    }
  }

  /** If every list carries the exemption, no exempt host is blocked by the parsed rules. */
  lemma NoExemptHostBlocked(lists: seq<DnsList>, ex: Exemption, r: DomainRules, host: Str)
    requires WellMade(ex) && forall l :: l in lists ==> l.exempt == Some(ex)
    requires Outcome(r, ListsEffect(lists))
    requires IsExempt(ex, HostKey(host))
    ensures !Blocked(r, host)
  {
    hide StoredRule, CoversExempt, RuleApplies, ListsEffect, OverLimit, ListsRules, IsExempt, WellMade;
    var e, h := ListsEffect(lists), HostKey(host);
    ListsProper(lists, Some(ex));
    ListedDecision(r, FinalRules(e), host);
    forall x | x in FinalRules(e) && !x.0.IsException() ensures !RuleApplies(x.0, x.1, h) {
      assert x in e.added;
      CoversExemptExact(x.0, x.1, ex);
      assert RuleApplies(x.0, x.1, h) ==> RuleBlocks(x.0, x.1, h);
    }
  }

  lemma CandidatesAre(e: Effect)
    ensures NoDuplicates(Candidates(e))
    ensures forall x :: x in Candidates(e) <==> x in Surviving(e) && x.0.IsPattern()
  {
    FirstPatternsElements(e.added);
    OfferedElements(FirstPatterns(e.added));
    PermutedNoDuplicates(FirstPatterns(e.added), Offered(FirstPatterns(e.added)));
    PresentElements(Offered(FirstPatterns(e.added)), Surviving(e));
  }

  /** The limits drop patterns only: each surviving pattern is kept or left out, and the kept
      ones are those that found room. */
  lemma LimitsPartition(e: Effect)
    ensures forall x :: x in FinalRules(e) <==>
              x in Surviving(e) && (x.0.IsPattern() ==> x in Keep(Candidates(e), 0, 0))
    ensures forall x :: x in Surviving(e) && x.0.IsPattern() ==>
              (x in FinalRules(e) <==> x !in OverLimit(e))
  {
    hide Candidates, Surviving, Keep, LeftOut;
    CandidatesAre(e);
    KeptNotLeftOut(Candidates(e));
  }

  /** The pattern lists of the outcome as one list of rules. */
  function PatternRules(r: DomainRules): seq<RuleEntry> {
    Tagged(WildcardAllow, r.wildcardAllow) + Tagged(ExactWildcardAllow, r.exactWildcardAllow)
    + Tagged(WildcardBlock, r.wildcardBlock) + Tagged(ExactWildcardBlock, r.exactWildcardBlock)
  }

  function Tagged(kind: Kind, names: seq<Name>): (t: seq<RuleEntry>)
    ensures |t| == |names| && forall i :: 0 <= i < |t| ==> t[i] == (kind, names[i])
  {
    seq(|names|, i requires 0 <= i < |names| => (kind, names[i]))
  }

  lemma TaggedListed(s: seq<Name>, rules: set<RuleEntry>, kind: Kind)
    requires Lists(s, NamesOf(rules, kind))
    ensures NoDuplicates(Tagged(kind, s))
    ensures forall x :: x in Tagged(kind, s) <==> x in rules && x.0 == kind
  {
    NamesOfIs(rules, kind);
    var t := Tagged(kind, s);
    forall x ensures x in t <==> x in rules && x.0 == kind {
      if x in t { var i :| 0 <= i < |t| && t[i] == x; }
      if x in rules && x.0 == kind {
        var i :| 0 <= i < |s| && s[i] == x.1;
        assert t[i] == x;
      }
    }
  }

  lemma JoinNoDuplicates<T>(a: seq<T>, b: seq<T>)
    requires NoDuplicates(a) && NoDuplicates(b) && forall x :: !(x in a && x in b)
    ensures NoDuplicates(a + b)
  {
    forall i, j | 0 <= i < j < |a + b| ensures (a + b)[i] != (a + b)[j] {
      if i < |a| <= j { assert a[i] in a && b[j - |a|] in b; }
    }
  }

  lemma PatternRulesAre(r: DomainRules, rules: set<RuleEntry>)
    requires ListsRules(r, rules)
    ensures NoDuplicates(PatternRules(r))
    ensures forall x :: x in PatternRules(r) <==> x in rules && x.0.IsPattern()
  {
    hide Lists, NamesOf, Topmost, NoDuplicates;
    var a, b := Tagged(WildcardAllow, r.wildcardAllow), Tagged(ExactWildcardAllow, r.exactWildcardAllow);
    var c, d := Tagged(WildcardBlock, r.wildcardBlock), Tagged(ExactWildcardBlock, r.exactWildcardBlock);
    TaggedListed(r.wildcardAllow, rules, WildcardAllow);
    TaggedListed(r.exactWildcardAllow, rules, ExactWildcardAllow);
    TaggedListed(r.wildcardBlock, rules, WildcardBlock);
    TaggedListed(r.exactWildcardBlock, rules, ExactWildcardBlock);
    JoinNoDuplicates(a, b);
    JoinNoDuplicates(a + b, c);
    JoinNoDuplicates(a + b + c, d);
  }

  lemma {:induction false} SameElements<T>(a: seq<T>, b: seq<T>)
    requires NoDuplicates(a) && NoDuplicates(b) && forall x :: x in a <==> x in b
    ensures multiset(a) == multiset(b)
  {
    forall x ensures multiset(a)[x] == multiset(b)[x] {
      NoDuplicatesCounts(a, x);
      NoDuplicatesCounts(b, x);
      assert x in a <==> x in multiset(a);
      assert x in b <==> x in multiset(b);
    }
  }

  lemma {:induction false} CountUnkeyedSplit(a: seq<RuleEntry>, b: seq<RuleEntry>)
    ensures CountUnkeyed(a + b) == CountUnkeyed(a) + CountUnkeyed(b)
  {
    hide IsUnkeyed;
    if a == [] {
      assert a + b == b;
    } else {
      assert (a + b)[1..] == a[1..] + b;
      CountUnkeyedSplit(a[1..], b);
    }
  }

  lemma TakeOutElement(b: seq<RuleEntry>, i: nat)
    requires i < |b|
    ensures multiset(b) == multiset{b[i]} + multiset(b[..i] + b[i + 1..])
  {
    assert b == b[..i] + ([b[i]] + b[i + 1..]);
  }

  lemma CountUnkeyedFirst(x: RuleEntry, rest: seq<RuleEntry>)
    ensures CountUnkeyed([x] + rest) == CountUnkeyed(rest) + if IsUnkeyed(x.1) then 1 else 0
  {
    assert ([x] + rest)[1..] == rest;
  }

  lemma TakeOut(b: seq<RuleEntry>, i: nat)
    requires i < |b|
    ensures CountUnkeyed(b) == CountUnkeyed(b[..i] + b[i + 1..]) + if IsUnkeyed(b[i].1) then 1 else 0
  {
    hide IsUnkeyed, CountUnkeyed;
    assert b == b[..i] + ([b[i]] + b[i + 1..]);
    CountUnkeyedSplit(b[..i], [b[i]] + b[i + 1..]);
    CountUnkeyedSplit(b[..i], b[i + 1..]);
    CountUnkeyedFirst(b[i], b[i + 1..]);
  }

  lemma {:induction false} CountUnkeyedPermuted(a: seq<RuleEntry>, b: seq<RuleEntry>)
    requires multiset(a) == multiset(b)
    ensures CountUnkeyed(a) == CountUnkeyed(b)
  {
    hide IsUnkeyed;
    if a == [] {
      assert |multiset(b)| == |b| == 0;
    } else {
      assert a == [a[0]] + a[1..];
      assert a[0] in multiset(b);
      var i :| 0 <= i < |b| && b[i] == a[0];
      var rest := b[..i] + b[i + 1..];
      TakeOut(b, i);
      TakeOutElement(b, i);
      assert multiset(a) == multiset{a[0]} + multiset(a[1..]);
      assert multiset(a[1..]) == multiset(a) - multiset{a[0]} == multiset(rest);
      CountUnkeyedPermuted(a[1..], rest);
    }
  }

  /** The patterns of the outcome are those that found room: at most 4096, at most 64 of them
      unkeyed, and together with those counted as left out all that survived. */
  lemma OutcomeWithinLimits(r: DomainRules, e: Effect)
    requires Outcome(r, e)
    ensures multiset(PatternRules(r)) + multiset(OverLimit(e)) == multiset(Candidates(e))
    ensures |PatternRules(r)| <= 4096 && CountUnkeyed(PatternRules(r)) <= 64
    ensures r.skipped == e.skipped + |Candidates(e)| - |PatternRules(r)|
  {
    hide ListsRules, Candidates, Surviving, PatternRules, FinalRules, Keep, LeftOut;
    var q := Candidates(e);
    var k := Keep(q, 0, 0);
    PatternRulesAre(r, FinalRules(e));
    LimitsPartition(e);
    CandidatesAre(e);
    KeepLimits(q, 0, 0);
    KeptPlusLeftOut(q, 0, 0);
    KeepNoDuplicates(q);
    SameElements(PatternRules(r), k);
    CountUnkeyedPermuted(PatternRules(r), k);
    assert |PatternRules(r)| == |multiset(PatternRules(r))| == |multiset(k)| == |k|;
    assert |multiset(k)| + |multiset(LeftOut(q, 0, 0))| == |multiset(q)|;
  }

  lemma KeepNoDuplicates(q: seq<RuleEntry>)
    requires NoDuplicates(q)
    ensures NoDuplicates(Keep(q, 0, 0))
  {
    hide Keep, LeftOut;
    KeptPlusLeftOut(q, 0, 0);
    var k := Keep(q, 0, 0);
    forall i, j | 0 <= i < j < |k| ensures k[i] != k[j] {
      NoDuplicatesCounts(q, k[i]);
      assert multiset(q)[k[i]] >= multiset(k)[k[i]];
      if k[i] == k[j] { CountsTwice(k, i, j); }
    }
  }

  /** No block pattern is kept in room that an exception left out could have used: an
      exception is left out beside a kept block only for lack of room for unkeyed patterns,
      which the block does not take. */
  lemma OutcomeExceptionsFirst(r: DomainRules, e: Effect, x: RuleEntry, y: RuleEntry)
    requires Outcome(r, e)
    requires x in OverLimit(e) && x.0.IsException()
    requires y in PatternRules(r) && !y.0.IsException()
    ensures IsUnkeyed(x.1) && !IsUnkeyed(y.1)
  {
    hide ListsRules, PatternRules, FinalRules, Keep, LeftOut, IsUnkeyed, Present, Surviving, CountUnkeyed;
    PatternRulesAre(r, FinalRules(e));
    LimitsPartition(e);
    var order, rules := FirstPatterns(e.added), Surviving(e);
    var a, b := Present(Exceptions(order), rules), Present(NotExceptions(order), rules);
    PresentSplit(Exceptions(order), NotExceptions(order), rules);
    ExceptionsSplit(order);
    PresentElements(Exceptions(order), rules);
    PresentElements(NotExceptions(order), rules);
    KeepSplit(a, b, 0, 0);
    CandidatesAre(e);
    KeptNotLeftOut(Candidates(e));
    KeepLimits(a, 0, 0);
    KeepLimits(b, |Keep(a, 0, 0)|, CountUnkeyed(Keep(a, 0, 0)));
    ExceptionsComeFirst(a, b, x, y);
  }

  lemma {:induction false} PresentSplit(a: seq<RuleEntry>, b: seq<RuleEntry>, rules: set<RuleEntry>)
    ensures Present(a + b, rules) == Present(a, rules) + Present(b, rules)
  {
    if a == [] {
      assert a + b == b;
    } else {
      assert (a + b)[1..] == a[1..] + b && (a + b)[0] == a[0];
      PresentSplit(a[1..], b, rules);
      var first := if a[0] in rules then [a[0]] else [];
      calc {
        Present(a + b, rules);
        first + Present(a[1..] + b, rules);
        first + (Present(a[1..], rules) + Present(b, rules));
        (first + Present(a[1..], rules)) + Present(b, rules);
        Present(a, rules) + Present(b, rules);
      }
    }
  }

  /** Compiling keeps the meaning: the finished rules decide every host as the surviving rules
      do, whenever no pattern had to be left out. */
  lemma OutcomeMeaning(r: DomainRules, e: Effect, host: Str)
    requires Outcome(r, e)
    ensures Blocked(r, host) <==> DecidedBlocked(FinalRules(e), HostKey(host))
    ensures OverLimit(e) == [] ==> (Blocked(r, host) <==> DecidedBlocked(Surviving(e), HostKey(host)))
  {
    hide ListsRules, LeftOut;
    ListedDecision(r, FinalRules(e), host);
    if OverLimit(e) == [] { assert FinalRules(e) == Surviving(e); }
  }
}
