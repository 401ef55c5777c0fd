/** Collecting the rules of the lists and finishing them (domain_rules.rs): exemptions,
    `$badfilter`, the limits on patterns and the redundant names. */
module RuleBuilder {
  import opened Bytes
  import opened Ordering
  import opened Text
  import opened Patterns
  import opened RuleSyntax
  import opened Exemptions

  const MAX_WILDCARD_PATTERNS: nat := 4096
  const MAX_UNKEYED_PATTERNS: nat := 64

  type RuleEntry = (Kind, Name)

  datatype DomainRules = DomainRules(
    important: seq<Name>,
    allow: seq<Name>,
    block: seq<Name>,
    exactAllow: seq<Name>,
    exactBlock: seq<Name>,
    wildcardAllow: seq<Name>,
    exactWildcardAllow: seq<Name>,
    wildcardBlock: seq<Name>,
    exactWildcardBlock: seq<Name>,
    skipped: nat,
    exempted: nat)

  datatype ListFormat = Adblock | Hosts

  datatype DnsList = DnsList(text: Str, format: ListFormat, exempt: Option<Exemption>)

  // ----- the decision

  /** The form of a host that names are compared with: lowercase, one trailing dot removed. */
  function HostKey(host: Str): Str { Lowercase(StripDot(host)) }

  /** The host or a parent is among the names. */
  predicate Covered(names: seq<Name>, host: Str) {
    exists n :: n in names && IsSelfOrParent(host, n)
  }

  function PatternList(parents: seq<Name>, host: seq<Name>): seq<Pattern> {
    seq(|parents|, i requires 0 <= i < |parents| => Pattern(parents[i], true))
    + seq(|host|, i requires 0 <= i < |host| => Pattern(host[i], false))
  }

  function AllowPatterns(r: DomainRules): seq<Pattern> { PatternList(r.wildcardAllow, r.exactWildcardAllow) }

  function BlockPatterns(r: DomainRules): seq<Pattern> { PatternList(r.wildcardBlock, r.exactWildcardBlock) }

  /** The decision as documented: the first kind of rule with an entry for the host decides. */
  ghost predicate Blocked(r: DomainRules, host: Str) {
    var h := HostKey(host);
    if Covered(r.important, h) then true
    else if h in r.exactAllow || Covered(r.allow, h) then false
    else if AnyMatches(AllowPatterns(r), h) then false
    else h in r.exactBlock || Covered(r.block, h) || AnyMatches(BlockPatterns(r), h)
  }

  // ----- names made redundant by a parent

  predicate HasParentIn(names: set<Name>, n: Name) {
    exists i :: 0 <= i < |n| && n[i] == DOT && n[i + 1..] in names
  }

  /** The names kept: those without a parent in the set. */
  function Topmost(names: set<Name>): set<Name> {
    set n | n in names && !HasParentIn(names, n)
  }

  /** Every name of the set is one of the kept names or under one. */
  lemma {:induction false} TopmostAbove(names: set<Name>, n: Name) returns (top: Name)
    requires n in names
    ensures top in Topmost(names) && IsSelfOrParent(n, top)
    decreases |n|
  {
    if HasParentIn(names, n) {
      var i :| 0 <= i < |n| && n[i] == DOT && n[i + 1..] in names;
      var p := n[i + 1..];
      top := TopmostAbove(names, p);
      assert IsParent(n, p);
      ParentOfParent(n, p, top);
    } else {
      top := n;
    }
  }

  /** Dropping the names whose parent is in the set leaves the covered hosts unchanged. */
  lemma TopmostCovers(names: set<Name>, host: Str)
    ensures (exists n :: n in Topmost(names) && IsSelfOrParent(host, n)) <==>
            (exists n :: n in names && IsSelfOrParent(host, n))
  {
    if n :| n in names && IsSelfOrParent(host, n) {
      var top := TopmostAbove(names, n);
      if host != n {
        ParentOfParent(host, n, top);
      }
      assert IsSelfOrParent(host, top);
    }
  }

  /** A sorted list of exactly these names. */
  ghost predicate Lists(s: seq<Name>, names: set<Name>) {
    (forall n :: n in s <==> n in names) && Sorted(s, LexLe) && NoDuplicates(s)
  }

  /** `sorted`: the names of a set in order, each once. */
  method SortedNames(names: set<Name>) returns (s: seq<Name>)
    ensures Lists(s, names)
  {
    s := [];
    var left := names;
    while left != {}
      invariant left <= names
      invariant forall n :: n in s <==> n in names - left
      invariant NoDuplicates(s)
      decreases left
    {
      var n :| n in left;
      NoDuplicatesAppend(s, n);
      s := s + [n];
      left := left - {n};
    }
    LexOrder();
    SortSorts(s, LexLe);
    PermutedNoDuplicates(s, Sort(s, LexLe));
    s := Sort(s, LexLe);
  }

  predicate NoDuplicates<T(==)>(s: seq<T>) {
    forall i, j :: 0 <= i < j < |s| ==> s[i] != s[j]
  }

  lemma NoDuplicatesAppend<T>(s: seq<T>, x: T)
    requires NoDuplicates(s) && x !in s
    ensures NoDuplicates(s + [x])
  {
  }

  lemma {:induction false} NoDuplicatesCounts<T>(s: seq<T>, x: T)
    requires NoDuplicates(s)
    ensures multiset(s)[x] <= 1
  {
    if s != [] {
      var n := |s| - 1;
      assert s == s[..n] + [s[n]];
      NoDuplicatesCounts(s[..n], x);
      assert s[n] !in s[..n];
      assert s[n] !in multiset(s[..n]);
    }
  }

  lemma CountsTwice<T>(t: seq<T>, i: nat, j: nat)
    requires i < j < |t| && t[i] == t[j]
    ensures multiset(t)[t[i]] >= 2
  {
    assert t == t[..j] + [t[j]] + t[j + 1..];
    assert t[i] in t[..j] && t[i] in multiset(t[..j]);
  }

  lemma PermutedNoDuplicates<T>(s: seq<T>, t: seq<T>)
    requires NoDuplicates(s) && multiset(s) == multiset(t)
    ensures NoDuplicates(t)
  {
    forall i, j | 0 <= i < j < |t| ensures t[i] != t[j] {
      NoDuplicatesCounts(s, t[i]);
      if t[i] == t[j] { CountsTwice(t, i, j); }
    }
  }

  /** `without_redundant_children`. */
  method WithoutRedundantChildren(names: set<Name>) returns (s: seq<Name>)
    ensures Lists(s, Topmost(names))
    ensures forall host :: Covered(s, host) <==> exists n :: n in names && IsSelfOrParent(host, n)
  {
    s := SortedNames(Topmost(names));
    forall host ensures Covered(s, host) <==> exists n :: n in names && IsSelfOrParent(host, n) {
      TopmostCovers(names, host);
    }
  }

  // ----- the limits on patterns

  function CountUnkeyed(q: seq<RuleEntry>): nat {
    if q == [] then 0 else (if IsUnkeyed(q[0].1) then 1 else 0) + CountUnkeyed(q[1..])
  }

  predicate HasRoom(x: RuleEntry, kept: nat, keptUnkeyed: nat) {
    kept < MAX_WILDCARD_PATTERNS && (!IsUnkeyed(x.1) || keptUnkeyed < MAX_UNKEYED_PATTERNS)
  }

  /** The patterns that find room, taken in order. */
  function Keep(q: seq<RuleEntry>, kept: nat, keptUnkeyed: nat): seq<RuleEntry> {
    if q == [] then []
    else if HasRoom(q[0], kept, keptUnkeyed) then
      [q[0]] + Keep(q[1..], kept + 1, keptUnkeyed + if IsUnkeyed(q[0].1) then 1 else 0)
    else Keep(q[1..], kept, keptUnkeyed)
  }

  lemma {:induction false} KeepLimits(q: seq<RuleEntry>, kept: nat, keptUnkeyed: nat)
    ensures kept <= MAX_WILDCARD_PATTERNS ==> kept + |Keep(q, kept, keptUnkeyed)| <= MAX_WILDCARD_PATTERNS
    ensures keptUnkeyed <= MAX_UNKEYED_PATTERNS ==>
              keptUnkeyed + CountUnkeyed(Keep(q, kept, keptUnkeyed)) <= MAX_UNKEYED_PATTERNS
    ensures forall x :: x in Keep(q, kept, keptUnkeyed) ==> x in q
  {
    if q != [] {
      var u := if IsUnkeyed(q[0].1) then 1 else 0;
      if HasRoom(q[0], kept, keptUnkeyed) {
        KeepLimits(q[1..], kept + 1, keptUnkeyed + u);
        var rest := Keep(q[1..], kept + 1, keptUnkeyed + u);
        assert ([q[0]] + rest)[1..] == rest;
      } else {
        KeepLimits(q[1..], kept, keptUnkeyed);
      }
    }
  }

  lemma {:induction false} KeepSplit(a: seq<RuleEntry>, b: seq<RuleEntry>, kept: nat, keptUnkeyed: nat)
    ensures var first := Keep(a, kept, keptUnkeyed);
            Keep(a + b, kept, keptUnkeyed) == first + Keep(b, kept + |first|, keptUnkeyed + CountUnkeyed(first))
  {
    hide HasRoom, IsUnkeyed;
    if a == [] {
      assert a + b == b;
    } else {
      assert (a + b)[1..] == a[1..] + b && (a + b)[0] == a[0];
      var u := if IsUnkeyed(a[0].1) then 1 else 0;
      if HasRoom(a[0], kept, keptUnkeyed) {
        KeepSplit(a[1..], b, kept + 1, keptUnkeyed + u);
        var rest := Keep(a[1..], kept + 1, keptUnkeyed + u);
        var more := Keep(b, kept + 1 + |rest|, keptUnkeyed + u + CountUnkeyed(rest));
        assert ([a[0]] + rest)[1..] == rest;
        assert [a[0]] + (rest + more) == ([a[0]] + rest) + more;
      } else {
        KeepSplit(a[1..], b, kept, keptUnkeyed);
      }
    }
  }

  /** A pattern left out found one of the limits reached, and it stays reached. */
  lemma {:induction false} LeftOutForRoom(q: seq<RuleEntry>, kept: nat, keptUnkeyed: nat, x: RuleEntry)
    requires x in q && x !in Keep(q, kept, keptUnkeyed)
    ensures var k := Keep(q, kept, keptUnkeyed);
            kept + |k| >= 4096 || (IsUnkeyed(x.1) && keptUnkeyed + CountUnkeyed(k) >= 64)
  {
    var u := if IsUnkeyed(q[0].1) then 1 else 0;
    if HasRoom(q[0], kept, keptUnkeyed) {
      var rest := Keep(q[1..], kept + 1, keptUnkeyed + u);
      assert ([q[0]] + rest)[1..] == rest && q[0] in [q[0]] + rest;
      LeftOutForRoom(q[1..], kept + 1, keptUnkeyed + u, x);
    } else if x != q[0] {
      LeftOutForRoom(q[1..], kept, keptUnkeyed, x);
    }
  }

  /** With a limit reached, nothing more it concerns is kept. */
  lemma {:induction false} NoRoomLeft(q: seq<RuleEntry>, kept: nat, keptUnkeyed: nat)
    ensures kept >= MAX_WILDCARD_PATTERNS ==> Keep(q, kept, keptUnkeyed) == []
    ensures keptUnkeyed >= MAX_UNKEYED_PATTERNS ==>
              forall x :: x in Keep(q, kept, keptUnkeyed) ==> !IsUnkeyed(x.1)
  {
    if q != [] {
      var u := if IsUnkeyed(q[0].1) then 1 else 0;
      if HasRoom(q[0], kept, keptUnkeyed) {
        NoRoomLeft(q[1..], kept + 1, keptUnkeyed + u);
      } else {
        NoRoomLeft(q[1..], kept, keptUnkeyed);
      }
    }
  }

  /** No block is kept in room that an exception left out could have used. */
  lemma ExceptionsComeFirst(exceptions: seq<RuleEntry>, blocks: seq<RuleEntry>, x: RuleEntry, y: RuleEntry)
    requires x in exceptions && x !in Keep(exceptions, 0, 0)
    requires y in Keep(blocks, |Keep(exceptions, 0, 0)|, CountUnkeyed(Keep(exceptions, 0, 0)))
    ensures IsUnkeyed(x.1) && !IsUnkeyed(y.1)
  {
    var k := Keep(exceptions, 0, 0);
    LeftOutForRoom(exceptions, 0, 0, x);
    NoRoomLeft(blocks, |k|, CountUnkeyed(k));
  }

  function Exceptions(order: seq<RuleEntry>): seq<RuleEntry> {
    if order == [] then []
    else (if order[0].0.IsException() then [order[0]] else []) + Exceptions(order[1..])
  }

  function NotExceptions(order: seq<RuleEntry>): seq<RuleEntry> {
    if order == [] then []
    else (if order[0].0.IsException() then [] else [order[0]]) + NotExceptions(order[1..])
  }

  function Present(q: seq<RuleEntry>, rules: set<RuleEntry>): seq<RuleEntry> {
    if q == [] then []
    else (if q[0] in rules then [q[0]] else []) + Present(q[1..], rules)
  }

  /** The patterns in the order they are offered room: exceptions first. */
  function Offered(order: seq<RuleEntry>): seq<RuleEntry> { Exceptions(order) + NotExceptions(order) }

  /** The patterns left out, those `Keep` passes over. */
  function LeftOut(q: seq<RuleEntry>, kept: nat, keptUnkeyed: nat): seq<RuleEntry> {
    if q == [] then []
    else if HasRoom(q[0], kept, keptUnkeyed) then
      LeftOut(q[1..], kept + 1, keptUnkeyed + if IsUnkeyed(q[0].1) then 1 else 0)
    else [q[0]] + LeftOut(q[1..], kept, keptUnkeyed)
  }

  /** Every pattern is kept or left out, once. */
  lemma {:induction false} KeptPlusLeftOut(q: seq<RuleEntry>, kept: nat, keptUnkeyed: nat)
    ensures multiset(Keep(q, kept, keptUnkeyed)) + multiset(LeftOut(q, kept, keptUnkeyed)) == multiset(q)
  {
    hide HasRoom, IsUnkeyed;
    if q != [] {
      var x, rest := q[0], q[1..];
      var u := if IsUnkeyed(x.1) then 1 else 0;
      assert multiset(q) == multiset{x} + multiset(rest) by { assert q == [x] + rest; }
      if HasRoom(x, kept, keptUnkeyed) {
        KeptPlusLeftOut(rest, kept + 1, keptUnkeyed + u);
        var k := Keep(rest, kept + 1, keptUnkeyed + u);
        assert multiset([x] + k) == multiset{x} + multiset(k);
      } else {
        KeptPlusLeftOut(rest, kept, keptUnkeyed);
        var l := LeftOut(rest, kept, keptUnkeyed);
        assert multiset([x] + l) == multiset{x} + multiset(l);
      }
    }
  }

  lemma {:induction false} PresentElements(q: seq<RuleEntry>, rules: set<RuleEntry>)
    ensures forall x :: x in Present(q, rules) <==> x in q && x in rules
    ensures NoDuplicates(q) ==> NoDuplicates(Present(q, rules))
  {
    if q != [] { PresentElements(q[1..], rules); }
  }

  lemma {:induction false} ExceptionsSplit(order: seq<RuleEntry>)
    ensures multiset(Exceptions(order)) + multiset(NotExceptions(order)) == multiset(order)
    ensures forall x :: x in Exceptions(order) ==> x.0.IsException()
    ensures forall x :: x in NotExceptions(order) ==> !x.0.IsException()
  {
    if order != [] {
      ExceptionsSplit(order[1..]);
      assert order == [order[0]] + order[1..];
    }
  }

  lemma OfferedElements(order: seq<RuleEntry>)
    ensures multiset(Offered(order)) == multiset(order)
    ensures forall x :: x in Offered(order) <==> x in order
  {
    ExceptionsSplit(order);
    assert forall x :: x in Offered(order) <==> x in multiset(Offered(order));
    assert forall x :: x in order <==> x in multiset(order);
  }

  /** Of a list without duplicates, what is kept and what is left out are apart. */
  lemma KeptNotLeftOut(q: seq<RuleEntry>)
    requires NoDuplicates(q)
    ensures forall x :: x in q <==> (x in Keep(q, 0, 0) || x in LeftOut(q, 0, 0))
    ensures forall x :: !(x in Keep(q, 0, 0) && x in LeftOut(q, 0, 0))
  {
    var k, l := Keep(q, 0, 0), LeftOut(q, 0, 0);
    KeptPlusLeftOut(q, 0, 0);
    forall x ensures (x in q <==> (x in k || x in l)) && !(x in k && x in l) {
      NoDuplicatesCounts(q, x);
      assert multiset(q)[x] == multiset(k)[x] + multiset(l)[x];
      assert x in q <==> x in multiset(q);
      assert x in k <==> x in multiset(k);
      assert x in l <==> x in multiset(l);
    }
  }

  // ----- finished rules

  /** The names the rules of one kind are for. */
  function NamesOf(rules: set<RuleEntry>, kind: Kind): set<Name> {
    set x | x in rules && x.0 == kind :: x.1
  }

  lemma NamesOfIs(rules: set<RuleEntry>, kind: Kind)
    ensures forall n :: n in NamesOf(rules, kind) <==> (kind, n) in rules
  {
    forall n ensures n in NamesOf(rules, kind) <==> (kind, n) in rules {
      if (kind, n) in rules { assert (kind, n).1 in NamesOf(rules, kind); }
    }
  }

  /** `r` lists the rules, without the names made redundant by a parent. */
  ghost predicate ListsRules(r: DomainRules, rules: set<RuleEntry>) {
    && Lists(r.important, Topmost(NamesOf(rules, Important)))
    && Lists(r.allow, Topmost(NamesOf(rules, Allow)))
    && Lists(r.block, Topmost(NamesOf(rules, Block)))
    && Lists(r.exactAllow, NamesOf(rules, ExactAllow))
    && Lists(r.exactBlock, NamesOf(rules, ExactBlock))
    && Lists(r.wildcardAllow, NamesOf(rules, WildcardAllow))
    && Lists(r.exactWildcardAllow, NamesOf(rules, ExactWildcardAllow))
    && Lists(r.wildcardBlock, NamesOf(rules, WildcardBlock))
    && Lists(r.exactWildcardBlock, NamesOf(rules, ExactWildcardBlock))
  }

  ghost predicate SomeApplies(rules: set<RuleEntry>, kind: Kind, host: Str) {
    exists x :: x in rules && x.0 == kind && RuleApplies(kind, x.1, host)
  }

  /** The decision stated on the rules themselves: an important block wins over every
      exception, and every exception over every other block. */
  ghost predicate DecidedBlocked(rules: set<RuleEntry>, host: Str) {
    || SomeApplies(rules, Important, host)
    || ((exists x :: x in rules && !x.0.IsException() && RuleApplies(x.0, x.1, host))
        && !(exists x :: x in rules && x.0.IsException() && RuleApplies(x.0, x.1, host)))
  }

  lemma SubtreeListed(s: seq<Name>, rules: set<RuleEntry>, kind: Kind, host: Str)
    requires kind in {Important, Allow, Block} && Lists(s, Topmost(NamesOf(rules, kind)))
    ensures Covered(s, host) <==> SomeApplies(rules, kind, host)
  {
    NamesOfIs(rules, kind);
    TopmostCovers(NamesOf(rules, kind), host);
    if SomeApplies(rules, kind, host) {
      var x :| x in rules && x.0 == kind && RuleApplies(kind, x.1, host);
      assert x.1 in NamesOf(rules, kind);
    }
    if Covered(s, host) {
      var n :| n in NamesOf(rules, kind) && IsSelfOrParent(host, n);
      assert RuleApplies((kind, n).0, (kind, n).1, host);
    }
  }

  lemma ExactListed(s: seq<Name>, rules: set<RuleEntry>, kind: Kind, host: Str)
    requires kind in {ExactAllow, ExactBlock} && Lists(s, NamesOf(rules, kind))
    ensures host in s <==> SomeApplies(rules, kind, host)
  {
    NamesOfIs(rules, kind);
    if host in s { assert RuleApplies((kind, host).0, (kind, host).1, host); }
  }

  lemma PatternsListed(p: seq<Name>, h: seq<Name>, rules: set<RuleEntry>, pk: Kind, hk: Kind, host: Str)
    requires (pk, hk) in {(WildcardAllow, ExactWildcardAllow), (WildcardBlock, ExactWildcardBlock)}
    requires Lists(p, NamesOf(rules, pk)) && Lists(h, NamesOf(rules, hk))
    ensures AnyMatches(PatternList(p, h), host) <==> SomeApplies(rules, pk, host) || SomeApplies(rules, hk, host)
  {
    hide PatternMatches;
    NamesOfIs(rules, pk);
    NamesOfIs(rules, hk);
    var ps := PatternList(p, h);
    if i :| 0 <= i < |ps| && PatternMatches(ps[i], host) {
      var kind := if i < |p| then pk else hk;
      var n := if i < |p| then p[i] else h[i - |p|];
      assert ps[i] == Pattern(n, i < |p|);
      assert (kind, n) in rules && RuleApplies((kind, n).0, (kind, n).1, host);
    }
    if x :| x in rules && x.0 == pk && RuleApplies(pk, x.1, host) {
      var i :| 0 <= i < |p| && p[i] == x.1;
      assert PatternMatches(ps[i], host);
    }
    if x :| x in rules && x.0 == hk && RuleApplies(hk, x.1, host) {
      var i :| 0 <= i < |h| && h[i] == x.1;
      assert ps[|p| + i] == Pattern(h[i], false);
    }
  }

  lemma AnyException(rules: set<RuleEntry>, host: Str)
    ensures (exists x :: x in rules && x.0.IsException() && RuleApplies(x.0, x.1, host)) <==>
            || SomeApplies(rules, Allow, host) || SomeApplies(rules, ExactAllow, host)
            || SomeApplies(rules, WildcardAllow, host) || SomeApplies(rules, ExactWildcardAllow, host)
  {
    hide RuleApplies;
    if x :| x in rules && x.0.IsException() && RuleApplies(x.0, x.1, host) {
      assert SomeApplies(rules, x.0, host);
    }
  }

  lemma AnyBlock(rules: set<RuleEntry>, host: Str)
    ensures (exists x :: x in rules && !x.0.IsException() && RuleApplies(x.0, x.1, host)) <==>
            || SomeApplies(rules, Important, host)
            || SomeApplies(rules, Block, host) || SomeApplies(rules, ExactBlock, host)
            || SomeApplies(rules, WildcardBlock, host) || SomeApplies(rules, ExactWildcardBlock, host)
  {
    hide RuleApplies;
    if x :| x in rules && !x.0.IsException() && RuleApplies(x.0, x.1, host) {
      assert SomeApplies(rules, x.0, host);
    }
  }

  /** The four-step decision on the listed names decides as the rules they were listed from,
      redundant names included. */
  lemma ListedDecision(r: DomainRules, rules: set<RuleEntry>, host: Str)
    requires ListsRules(r, rules)
    ensures Blocked(r, host) <==> DecidedBlocked(rules, HostKey(host))
  {
    hide SomeApplies, Covered, AnyMatches, RuleApplies, NamesOf, Topmost, Lists, PatternList;
    var h := HostKey(host);
    SubtreeListed(r.important, rules, Important, h);
    SubtreeListed(r.allow, rules, Allow, h);
    SubtreeListed(r.block, rules, Block, h);
    ExactListed(r.exactAllow, rules, ExactAllow, h);
    ExactListed(r.exactBlock, rules, ExactBlock, h);
    PatternsListed(r.wildcardAllow, r.exactWildcardAllow, rules, WildcardAllow, ExactWildcardAllow, h);
    PatternsListed(r.wildcardBlock, r.exactWildcardBlock, rules, WildcardBlock, ExactWildcardBlock, h);
    AnyException(rules, h);
    AnyBlock(rules, h);
  }
}
