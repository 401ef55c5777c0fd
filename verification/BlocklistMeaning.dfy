/** What a lookup in a written and loaded blocklist means: the documented decision on the
    rules, from the text of the lists to the answer for a host. */
module BlocklistMeaning {
  import opened Bytes
  import opened Text
  import opened LittleEndian
  import opened Glob
  import opened Patterns
  import opened RuleSyntax
  import opened Exemptions
  import opened RuleBuilder
  import opened RuleLists
  import ListMeaning
  import opened DomainFile
  import opened DomainSets

  predicate AllStored(names: seq<Name>) { forall n :: n in names ==> StoredName(n) }

  predicate AllValid(globs: seq<Name>) { forall g :: g in globs ==> IsValidPattern(g) }

  /** Rules in the form the compiler gives them. */
  predicate WellFormed(r: DomainRules) {
    && AllStored(r.important) && AllStored(r.allow) && AllStored(r.block)
    && AllStored(r.exactAllow) && AllStored(r.exactBlock)
    && AllValid(r.wildcardAllow) && AllValid(r.exactWildcardAllow)
    && AllValid(r.wildcardBlock) && AllValid(r.exactWildcardBlock)
  }

  // ----- case

  lemma {:induction false} MatchesLowercase(glob: Str, text: Str)
    ensures Matches(glob, Lowercase(text)) <==> Matches(glob, text)
    decreases |glob|
  {
    if glob != [] {
      if glob[0] == STAR {
        forall k | 0 <= k <= |text|
          ensures Matches(glob[1..], Lowercase(text)[k..]) <==> Matches(glob[1..], text[k..])
        {
          LowercaseSplit(text, k);
          MatchesLowercase(glob[1..], text[k..]);
        }
      } else if text != [] {
        LowercaseSplit(text, 1);
        MatchesLowercase(glob[1..], text[1..]);
      }
    }
  }

  lemma PatternLowercase(p: Pattern, host: Str)
    ensures PatternMatches(p, Lowercase(host)) <==> PatternMatches(p, host)
  {
    hide Matches;
    MatchesLowercase(p.glob, host);
    forall i | 0 <= i < |host| && host[i] == DOT
      ensures Matches(p.glob, Lowercase(host)[i + 1..]) <==> Matches(p.glob, host[i + 1..])
    {
      LowercaseSplit(host, i + 1);
      MatchesLowercase(p.glob, host[i + 1..]);
    }
  }

  lemma AnyMatchesLowercase(ps: seq<Pattern>, host: Str)
    ensures AnyMatches(ps, Lowercase(host)) <==> AnyMatches(ps, host)
  {
    hide PatternMatches;
    forall i | 0 <= i < |ps| ensures PatternMatches(ps[i], Lowercase(host)) <==> PatternMatches(ps[i], host) {
      PatternLowercase(ps[i], host);
    }
  }

  lemma {:induction false} DottedNamesLowercase(host: Str)
    ensures DottedNames(Lowercase(host)) == LowercaseAll(DottedNames(host))
    decreases |host|
  {
    hide IndexOf, Lowercase, LowercaseAll;
    LowercaseIndexOf(host);
    var dot := IndexOf(host, DOT);
    if dot < |host| {
      DottedNamesLowercase(host[dot + 1..]);
      LowercaseSplit(host, dot + 1);
      LowercaseFirst(host, DottedNames(host[dot + 1..]));
    } else {
      LowercaseNone();
    }
  }

  // ----- the names a lookup tries

  /** The names tried are the host and its parents, those with a dot. */
  lemma {:induction false} DottedNamesAre(host: Str, n: Str)
    ensures n in DottedNames(host) <==> IsSelfOrParent(host, n) && DOT in n
    decreases |host|
  {
    hide IndexOf;
    var dot := IndexOf(host, DOT);
    if dot == |host| {
      assert host[..dot] == host;
      NoDotNoParent(host, n);
    } else {
      var rest := host[dot + 1..];
      DottedNamesAre(rest, n);
      assert host[dot] == DOT && IsParent(host, rest);
      FirstParent(host, dot, n);
    }
  }

  lemma NoDotNoParent(host: Str, n: Str)
    requires DOT !in host
    ensures !IsParent(host, n)
  {
  }

  lemma FirstParent(host: Str, dot: nat, n: Str)
    requires dot < |host| && host[dot] == DOT && DOT !in host[..dot]
    ensures IsParent(host, n) <==> IsSelfOrParent(host[dot + 1..], n)
  {
    var rest := host[dot + 1..];
    if IsParent(host, n) {
      var i :| 0 <= i < |host| && host[i] == DOT && host[i + 1..] == n;
      assert forall k :: 0 <= k < dot ==> host[k] == host[..dot][k];
      if i > dot {
        var k := i - dot - 1;
        assert rest[k] == DOT && rest[k + 1..] == n;
      }
    }
    if IsSelfOrParent(rest, n) {
      assert IsParent(host, rest);
      ParentOfParent(host, rest, n);
    }
  }

  // ----- strings in place of hashes

  ghost predicate AnyIn(names: seq<Str>, strings: seq<Str>) {
    exists n :: n in names && n in strings
  }

  function BlockStrings(r: DomainRules): seq<Str> { StoredStrings(r.block, r.exactBlock) }
  function AllowStrings(r: DomainRules): seq<Str> { StoredStrings(r.allow, r.exactAllow) }
  function ImportantStrings(r: DomainRules): seq<Str> { StoredStrings(r.important, []) }

  /** The decision with the stored strings themselves in place of their hashes. */
  ghost predicate StringBlocked(r: DomainRules, host: Str) {
    var h := HostKey(host);
    var names := FirstNames(h);
    && names != []
    && (|| AnyIn(names, ImportantStrings(r))
        || (&& Tag(h) !in AllowStrings(r)
            && !AnyIn(names, AllowStrings(r))
            && (Tag(h) in BlockStrings(r) || AnyIn(names, BlockStrings(r)) || AnyMatches(BlockPatterns(r), h))
            && !AnyMatches(AllowPatterns(r), h)))
  }

  /** No string looked up for the host shares its hash with another string stored. */
  ghost predicate NoCollision(r: DomainRules, host: Str) {
    var h := HostKey(host);
    forall q, s | (q in FirstNames(h) || q == Tag(h))
                  && (s in BlockStrings(r) || s in AllowStrings(r) || s in ImportantStrings(r)) ::
      NameHash(q) == NameHash(s) ==> q == s
  }

  lemma LowercaseHash(s: Str)
    ensures NameHash(Lowercase(s)) == NameHash(s)
  {
    assert Lowercase(Lowercase(s)) == Lowercase(s);
  }

  lemma HashInSection(names: seq<Name>, exact: seq<Name>, q: Str)
    requires forall s :: s in StoredStrings(names, exact) && NameHash(q) == NameHash(s) ==> q == s
    ensures NameHash(q) in SortedHashes(names, exact) <==> q in StoredStrings(names, exact)
  {
    hide NameHash, SortedHashes, StoredStrings;
    SortedHashesAre(names, exact);
  }

  lemma AnyHashInSection(host: Str, names: seq<Name>, exact: seq<Name>)
    requires forall q, s | q in FirstNames(Lowercase(host)) && s in StoredStrings(names, exact) ::
               NameHash(q) == NameHash(s) ==> q == s
    ensures AnyHashIn(FirstNames(host), SortedHashes(names, exact)) <==>
            AnyIn(FirstNames(Lowercase(host)), StoredStrings(names, exact))
  {
    hide NameHash, SortedHashes, StoredStrings, DottedNames;
    var raw, low := FirstNames(host), FirstNames(Lowercase(host));
    FirstNamesLowercase(host);
    forall i | 0 <= i < |raw|
      ensures NameHash(raw[i]) in SortedHashes(names, exact) <==> low[i] in StoredStrings(names, exact)
    {
      LowercaseHash(raw[i]);
      assert low[i] in low;
      HashInSection(names, exact, low[i]);
    }
    if n :| n in raw && NameHash(n) in SortedHashes(names, exact) {
      var i :| 0 <= i < |raw| && raw[i] == n;
      assert low[i] in low;
    }
    if n :| n in low && n in StoredStrings(names, exact) {
      var i :| 0 <= i < |low| && low[i] == n;
      assert raw[i] in raw;
    }
  }

  lemma FirstNamesLowercase(host: Str)
    ensures FirstNames(Lowercase(host)) == LowercaseAll(FirstNames(host))
  {
    hide DottedNames;
    DottedNamesLowercase(host);
  }

  /** Without hash collisions among the strings involved, a lookup decides on the strings. */
  lemma HashedIsString(r: DomainRules, host: Str)
    requires NoCollision(r, host)
    ensures HashedBlocked(PartsOf(r), host) <==> StringBlocked(r, host)
  {
    hide NameHash, SortedHashes, StoredStrings, DottedNames, FirstNames, AnyHashIn, AnyIn, AnyMatches, PatternList;
    var raw, h := StripDot(host), HostKey(host);
    FirstNamesLowercase(raw);
    AnyHashInSection(raw, r.important, []);
    AnyHashInSection(raw, r.allow, r.exactAllow);
    AnyHashInSection(raw, r.block, r.exactBlock);
    assert Lowercase(Tag(raw)) == Tag(h);
    LowercaseHash(Tag(raw));
    HashInSection(r.allow, r.exactAllow, Tag(h));
    HashInSection(r.block, r.exactBlock, Tag(h));
    AnyMatchesLowercase(AllowPatterns(r), raw);
    AnyMatchesLowercase(BlockPatterns(r), raw);
  }

  // ----- the documented decision

  /** No name tried could be taken for the one-host entry of a storable name, and no storable
      name is left out of the buffer. */
  predicate Ordinary(host: Str) {
    var h := HostKey(host);
    && (forall n :: n in FirstNames(h) && StartsWith(n, [PIPE]) ==> !StoredName(n[1..]))
    && (forall k :: 127 <= k < |DottedNames(h)| ==> !StoredName(DottedNames(h)[k]))
  }

  lemma TaggedStored(names: seq<Name>, exact: seq<Name>, h: Str)
    requires AllStored(names)
    ensures Tag(h) in StoredStrings(names, exact) <==> h in exact
  {
    var s := StoredStrings(names, exact);
    hide StoredName;
    assert Tag(h) !in names by {
      assert Tag(h)[0] == PIPE && Tag(h)[0] in Tag(h);
      if Tag(h) in names { StoredBytes(Tag(h)); }
    }
    if Tag(h) in s {
      var i :| 0 <= i < |s| && s[i] == Tag(h);
      assert forall k :: 0 <= k < |names| ==> s[k] in names;
      assert Tag(exact[i - |names|])[1..] == Tag(h)[1..];
    }
    if h in exact {
      var i :| 0 <= i < |exact| && exact[i] == h;
      assert s[|names| + i] == Tag(h);
    }
  }

  lemma CoveredStored(names: seq<Name>, exact: seq<Name>, host: Str)
    requires AllStored(names) && AllStored(exact) && Ordinary(host)
    ensures AnyIn(FirstNames(HostKey(host)), StoredStrings(names, exact)) <==> Covered(names, HostKey(host))
  {
    var h, s := HostKey(host), StoredStrings(names, exact);
    FirstNamesIn(h);
    hide DottedNames, FirstNames, StoredName;
    if AnyIn(FirstNames(h), s) {
      var n :| n in FirstNames(h) && n in s;
      var i :| 0 <= i < |s| && s[i] == n;
      assert forall k :: |names| <= k < |s| ==> StartsWith(s[k], [PIPE]) && s[k][1..] == exact[k - |names|];
      assert n in names;
      DottedNamesAre(h, n);
    }
    if Covered(names, h) {
      var n :| n in names && IsSelfOrParent(h, n);
      StoredBytes(n);
      DottedNamesAre(h, n);
      var i :| 0 <= i < |names| && names[i] == n;
      assert s[i] == n;
    }
  }

  /** The names that fit the buffer, and the others. */
  lemma FirstNamesIn(h: Str)
    ensures forall n :: n in FirstNames(h) ==> n in DottedNames(h)
    ensures forall n :: n in DottedNames(h) && n !in FirstNames(h) ==>
              exists k :: MAX_NAMES <= k < |DottedNames(h)| && DottedNames(h)[k] == n
    ensures FirstNames(h) == [] <==> DottedNames(h) == []
  {
    hide DottedNames;
    var names := DottedNames(h);
    if |names| > MAX_NAMES {
      assert names == names[..MAX_NAMES] + names[MAX_NAMES..];
      forall n | n in names && n !in names[..MAX_NAMES] ensures exists k :: MAX_NAMES <= k < |names| && names[k] == n {
        assert n in names[MAX_NAMES..];
      }
    }
  }

  /** Whatever a glob with a dot matches has a dot. */
  lemma {:induction false} DotNeedsDot(glob: Str, text: Str)
    requires DOT in glob && Matches(glob, text)
    ensures DOT in text
    decreases |glob|
  {
    if glob[0] == STAR {
      var k :| 0 <= k <= |text| && Matches(glob[1..], text[k..]);
      assert DOT in glob[1..];
      DotNeedsDot(glob[1..], text[k..]);
    } else if glob[0] == DOT {
      assert Lower(text[0]) == DOT;
      assert text[0] == DOT;
    } else {
      assert DOT in glob[1..];
      DotNeedsDot(glob[1..], text[1..]);
    }
  }

  lemma NoDotNoMatch(ps: seq<Pattern>, h: Str)
    requires DOT !in h && forall p :: p in ps ==> IsValidPattern(p.glob)
    ensures !AnyMatches(ps, h)
  {
    hide IsValidPattern, Matches;
    forall i | 0 <= i < |ps| ensures !PatternMatches(ps[i], h) {
      PatternBytes(ps[i].glob);
      if Matches(ps[i].glob, h) { DotNeedsDot(ps[i].glob, h); }
    }
  }

  lemma ValidPatterns(parents: seq<Name>, host: seq<Name>)
    requires AllValid(parents) && AllValid(host)
    ensures forall p :: p in PatternList(parents, host) ==> IsValidPattern(p.glob)
  {
    hide IsValidPattern;
  }

  lemma NoDotNotCovered(names: seq<Name>, h: Str)
    requires DOT !in h && AllStored(names)
    ensures !Covered(names, h) && h !in names
  {
    hide StoredName;
    forall n | n in names ensures !IsSelfOrParent(h, n) && n != h {
      StoredBytes(n);
      NoDotNoParent(h, n);
    }
  }

  /** A host without a dot is never blocked, by the documented decision either. */
  lemma NoDotNotBlocked(r: DomainRules, host: Str)
    requires WellFormed(r) && DOT !in HostKey(host)
    ensures !Blocked(r, host)
  {
    hide AllStored, AllValid, AnyMatches, Covered, IsValidPattern, PatternList;
    var h := HostKey(host);
    NoDotNotCovered(r.important, h);
    NoDotNotCovered(r.block, h);
    NoDotNotCovered(r.exactBlock, h);
    ValidPatterns(r.wildcardBlock, r.exactWildcardBlock);
    NoDotNoMatch(BlockPatterns(r), h);
  }

  /** For ordinary hosts, deciding on the stored strings is the documented decision. */
  lemma StringIsBlocked(r: DomainRules, host: Str)
    requires WellFormed(r) && Ordinary(host)
    ensures StringBlocked(r, host) <==> Blocked(r, host)
  {
    hide AllStored, AllValid, AnyMatches, Covered, AnyIn, DottedNames, FirstNames, PatternList, StoredStrings, Ordinary;
    var h := HostKey(host);
    FirstNamesIn(h);
    if DottedNames(h) == [] {
      DottedNamesAre(h, h);
      assert DOT !in h;
      NoDotNotBlocked(r, host);
    } else {
      NoneStored();
      CoveredStored(r.important, [], host);
      CoveredStored(r.allow, r.exactAllow, host);
      CoveredStored(r.block, r.exactBlock, host);
      TaggedStored(r.allow, r.exactAllow, h);
      TaggedStored(r.block, r.exactBlock, h);
    }
  }

  lemma NoneStored()
    ensures AllStored([]) && AllValid([])
  {
  }

  /** A lookup in the written and loaded rules gives the documented decision. */
  lemma LookupMeaning(r: DomainRules, host: Str)
    requires WellFormed(r) && NoCollision(r, host) && Ordinary(host)
    ensures HashedBlocked(PartsOf(r), host) <==> Blocked(r, host)
  {
    hide WellFormed, NoCollision, Ordinary, HashedBlocked, Blocked, StringBlocked;
    HashedIsString(r, host);
    StringIsBlocked(r, host);
  }

  // ----- where the decision differs for other hosts

  const NO_RULES := DomainRules([], [], [], [], [], [], [], [], [], 0, 0)

  /** A name that starts with `|` is taken for the one-host entry of the rest: the host is
      blocked by a rule for another name, by its hash whatever else collides. */
  lemma TagConfusion(host: Str, n: Name)
    requires StoredName(n) && Tag(n) in FirstNames(HostKey(host))
    ensures var r := NO_RULES.(exactBlock := [n]);
            WellFormed(r) && StringBlocked(r, host) && HashedBlocked(PartsOf(r), host) && !Blocked(r, host)
  {
    var h, r := HostKey(host), NO_RULES.(exactBlock := [n]);
    FirstNamesIn(h);
    hide StoredName, DottedNames, AnyMatches, PatternMatches, StoredStrings, FirstNames, NameHash, SortedHashes;
    OneTagged(n);
    assert Tag(n) in BlockStrings(r);
    NoneStored();
    DottedNamesShrink(h);
    assert |n| < |Tag(n)| <= |h|;
    TagHashed(host, n);
  }

  /** Nothing but the one tagged name is stored, and the host's name hashes to it. */
  lemma TagHashed(host: Str, n: Name)
    requires Tag(n) in FirstNames(HostKey(host))
    ensures HashedBlocked(PartsOf(NO_RULES.(exactBlock := [n])), host)
  {
    hide NameHash, DottedNames, AnyMatches, PatternMatches, FirstNames, StoredStrings, SortedHashes;
    var raw, low := FirstNames(StripDot(host)), FirstNames(HostKey(host));
    FirstNamesLowercase(StripDot(host));
    var i :| 0 <= i < |low| && low[i] == Tag(n);
    LowercaseHash(raw[i]);
    OneTagged(n);
    SortedHashesAre([], [n]);
    SortedHashesAre([], []);
    assert Tag(n) in StoredStrings([], [n]);
    assert raw[i] in raw && NameHash(raw[i]) == NameHash(Tag(n));
    assert AnyHashIn(raw, SortedHashes([], [n]));
  }

  lemma OneTagged(n: Name)
    ensures StoredStrings([], [n]) == [Tag(n)] && StoredStrings([], []) == []
    ensures forall h :: !AnyMatches(PatternList([], []), h)
  {
  }

  lemma {:induction false} DottedNamesShrink(host: Str)
    ensures forall i, j :: 0 <= i < j < |DottedNames(host)| ==> |DottedNames(host)[i]| > |DottedNames(host)[j]|
    ensures forall i :: 0 <= i < |DottedNames(host)| ==> |DottedNames(host)[i]| <= |host|
    decreases |host|
  {
    hide IndexOf;
    var dot := IndexOf(host, DOT);
    if dot < |host| { DottedNamesShrink(host[dot + 1..]); }
  }

  /** A block of a name of the host after the 127th is not found, although it covers the host; its
      hash is not found either, unless another name tried collides with it. */
  lemma BufferTooShort(host: Str, k: nat)
    requires MAX_NAMES <= k < |DottedNames(HostKey(host))| && StoredName(DottedNames(HostKey(host))[k])
    ensures var r := NO_RULES.(block := [DottedNames(HostKey(host))[k]]);
            && WellFormed(r) && Blocked(r, host) && !StringBlocked(r, host)
            && (NoCollision(r, host) ==> !HashedBlocked(PartsOf(r), host))
  {
    LeftOutOfBuffer(host, k);
    hide WellFormed, Blocked, StringBlocked, NoCollision, HashedBlocked, DottedNames;
    var r := NO_RULES.(block := [DottedNames(HostKey(host))[k]]);
    if NoCollision(r, host) { HashedIsString(r, host); }
  }

  lemma LeftOutOfBuffer(host: Str, k: nat)
    requires MAX_NAMES <= k < |DottedNames(HostKey(host))| && StoredName(DottedNames(HostKey(host))[k])
    ensures var r := NO_RULES.(block := [DottedNames(HostKey(host))[k]]);
            WellFormed(r) && Blocked(r, host) && !StringBlocked(r, host)
  {
    hide DottedNames, StoredName;
    var h := HostKey(host);
    var names := DottedNames(h);
    var n := names[k];
    var r := NO_RULES.(block := [n]);
    DottedNamesAre(h, n);
    assert n in r.block && IsSelfOrParent(h, n);
    DottedNamesShrink(h);
    assert BlockStrings(r) == [n];
    forall x | x in FirstNames(h) ensures x != n {
      var i :| 0 <= i < MAX_NAMES && names[..MAX_NAMES][i] == x;
      assert names[i] == x;
    }
    assert n[0..] == n;
    NothingElse(r, host);
  }

  lemma NothingElse(r: DomainRules, host: Str)
    requires r.exactBlock == [] && r.allow == [] && r.exactAllow == [] && r.important == []
    requires r.wildcardAllow == [] && r.exactWildcardAllow == [] && r.wildcardBlock == [] && r.exactWildcardBlock == []
    requires forall n :: n in r.block ==> IsSelfOrParent(HostKey(host), n) && |n| <= |HostKey(host)|
    ensures Tag(HostKey(host)) !in BlockStrings(r)
    ensures AllowStrings(r) == [] && ImportantStrings(r) == []
    ensures !AnyMatches(BlockPatterns(r), HostKey(host)) && !AnyMatches(AllowPatterns(r), HostKey(host))
  {
    assert forall s :: s in BlockStrings(r) ==> s in r.block;
  }

  /** Whatever the rules, the strings decide as documented. */
  ghost predicate AlwaysAsDocumented(host: Str) {
    forall r :: WellFormed(r) ==> (StringBlocked(r, host) <==> Blocked(r, host))
  }

  /** The strings decide as documented for every set of rules exactly for ordinary hosts. */
  lemma OrdinaryExactly(host: Str)
    ensures Ordinary(host) <==> AlwaysAsDocumented(host)
  {
    hide FirstNames, DottedNames, StoredName, AlwaysAsDocumented;
    var h := HostKey(host);
    if Ordinary(host) {
      OrdinaryAlways(host);
    } else if n :| n in FirstNames(h) && StartsWith(n, [PIPE]) && StoredName(n[1..]) {
      TagNotAlways(host, n);
    } else {
      var k :| MAX_NAMES <= k < |DottedNames(h)| && StoredName(DottedNames(h)[k]);
      BufferNotAlways(host, k);
    }
  }

  lemma OrdinaryAlways(host: Str)
    requires Ordinary(host)
    ensures AlwaysAsDocumented(host)
  {
    hide Ordinary, StringBlocked, Blocked, WellFormed;
    forall r | WellFormed(r) ensures StringBlocked(r, host) <==> Blocked(r, host) { StringIsBlocked(r, host); }
  }

  lemma TagNotAlways(host: Str, n: Str)
    requires n in FirstNames(HostKey(host)) && StartsWith(n, [PIPE]) && StoredName(n[1..])
    ensures !AlwaysAsDocumented(host)
  {
    hide StringBlocked, Blocked, WellFormed, FirstNames, StoredName, HashedBlocked;
    assert n == Tag(n[1..]);
    TagConfusion(host, n[1..]);
  }

  lemma BufferNotAlways(host: Str, k: nat)
    requires MAX_NAMES <= k < |DottedNames(HostKey(host))| && StoredName(DottedNames(HostKey(host))[k])
    ensures !AlwaysAsDocumented(host)
  {
    hide StringBlocked, Blocked, WellFormed, StoredName, DottedNames, HashedBlocked, NoCollision;
    BufferTooShort(host, k);
  }

  // ----- hosts that are ordinary, and hosts that are not

  lemma DotsAfter(h: Str, dot: nat)
    requires dot < |h| && h[dot] == DOT && DOT !in h[..dot]
    ensures multiset(h)[DOT] == 1 + multiset(h[dot + 1..])[DOT]
  {
    assert h == h[..dot] + ([DOT] + h[dot + 1..]);
    assert DOT !in multiset(h[..dot]);
  }

  /** There is a name to try for each dot. */
  lemma {:induction false} OneNamePerDot(h: Str)
    ensures |DottedNames(h)| == multiset(h)[DOT]
    decreases |h|
  {
    hide IndexOf;
    var dot := IndexOf(h, DOT);
    if dot == |h| {
      assert h[..dot] == h;
      assert DOT !in multiset(h);
    } else {
      DotsAfter(h, dot);
      OneNamePerDot(h[dot + 1..]);
    }
  }

  lemma SuffixBytes(h: Str, n: Str)
    requires IsSelfOrParent(h, n)
    ensures forall b :: b in n ==> b in h
  {
  }

  lemma NotTagged(n: Str)
    requires PIPE !in n
    ensures !StartsWith(n, [PIPE])
  {
    assert n != [] ==> n[0] in n;
  }

  /** A host without a `|` and with at most 127 dots is ordinary. */
  lemma PlainIsOrdinary(host: Str)
    requires PIPE !in host && multiset(HostKey(host))[DOT] <= 127
    ensures Ordinary(host)
  {
    var h, bare := HostKey(host), StripDot(host);
    OneNamePerDot(h);
    FirstNamesIn(h);
    hide DottedNames, FirstNames, StoredName;
    forall i | 0 <= i < |h| ensures h[i] != PIPE {
      assert bare[i] in host && h[i] == Lower(bare[i]);
    }
    forall n | n in FirstNames(h) ensures !StartsWith(n, [PIPE]) {
      DottedNamesAre(h, n);
      SuffixBytes(h, n);
      assert PIPE !in n;
      NotTagged(n);
    }
  }

  lemma TaggedKey(n: Name)
    requires StoredName(n)
    ensures HostKey(Tag(n)) == Tag(n)
  {
    var host := Tag(n);
    StoredIsHostName(n);
    StoredBytes(n);
    hide StoredName, IsHostName;
    assert host[|host| - 1..] == n[|n| - 1..];
    assert StripDot(host) == host;
    assert Lowercase(host) == host;
  }

  lemma DottedTriedFirst(host: Str)
    requires DOT in host
    ensures host in FirstNames(host)
  {
    hide IndexOf;
    var dot := IndexOf(host, DOT);
    assert host[..|host|] == host;
    assert DottedNames(host)[0] == host;
    assert FirstNames(host)[0] == host;
  }

  /** A stored name with the tag before it is its own key, and the first name tried for it. */
  lemma TaggedNames(n: Name)
    requires StoredName(n)
    ensures HostKey(Tag(n)) == Tag(n) && Tag(n) in FirstNames(Tag(n))
  {
    TaggedKey(n);
    StoredIsHostName(n);
    hide StoredName, HostKey, FirstNames;
    assert DOT in n;
    DottedTriedFirst(Tag(n));
  }

  /** So such a host is never ordinary: the rule for the stored name's host alone blocks it. */
  lemma TaggedHostConfused(n: Name)
    requires StoredName(n)
    ensures var r := NO_RULES.(exactBlock := [n]);
            !Ordinary(Tag(n)) && WellFormed(r) && HashedBlocked(PartsOf(r), Tag(n)) && !Blocked(r, Tag(n))
  {
    TaggedNames(n);
    assert Tag(n)[1..] == n;
    hide StoredName, FirstNames, DottedNames, HashedBlocked, Blocked, StringBlocked, WellFormed, HostKey;
    TagConfusion(Tag(n), n);
  }

  /** `a.b` is stored. */
  lemma ShortNameStored()
    ensures StoredName([97, DOT, 98])
  {
    var n := [97, DOT, 98];
    StoredIsHostName(n);
    assert n[..1] == [97] && n[2..] == [98] && n[1..] == [DOT, 98];
    assert IndexOf([DOT, 98], DOT) == 0 && IndexOf(n, DOT) == 1;
    assert [98][1..] == [] && IndexOf([], DOT) == 0 && IndexOf([98], DOT) == 1;
    assert Split(n, DOT) == [[97], [98]];
    assert NameLabel([97]) && NameLabel([98]) && 98 in [98] && !IsDigit(98);
    assert Lowercase(n) == n;
    assert n[|n| - 1..] == [98];
  }

  /** The host `|a.b` is blocked by the rule for `a.b` alone. */
  lemma BarHostConfused()
    ensures var r, host := NO_RULES.(exactBlock := [[97, DOT, 98]]), [PIPE, 97, DOT, 98];
            !Ordinary(host) && WellFormed(r) && HashedBlocked(PartsOf(r), host) && !Blocked(r, host)
  {
    ShortNameStored();
    assert Tag([97, DOT, 98]) == [PIPE, 97, DOT, 98];
    hide StoredName, HashedBlocked, Blocked, WellFormed, Ordinary, Tag;
    TaggedHostConfused([97, DOT, 98]);
  }

  /** `a.` n times, then `b`. */
  function Dotted(n: nat): Str { if n == 0 then [98] else [97, DOT] + Dotted(n - 1) }

  lemma {:induction false} DottedKey(n: nat)
    ensures |Dotted(n)| > 0 && Dotted(n)[|Dotted(n)| - 1] == 98
    ensures AllLower(Dotted(n))
  {
    if n > 0 { DottedKey(n - 1); }
  }

  lemma FirstDotted(rest: Str)
    ensures DottedNames([97, DOT] + rest) == [[97, DOT] + rest] + DottedNames(rest)
  {
    var h := [97, DOT] + rest;
    assert h[1..] == [DOT] + rest;
    assert IndexOf(h[1..], DOT) == 0 && IndexOf(h, DOT) == 1;
    assert h[2..] == rest;
  }

  lemma DottedStep(n: nat)
    ensures Dotted(n) == if n == 0 then [98] else [97, DOT] + Dotted(n - 1)
  {
  }

  lemma {:induction false} DottedNamesOfDotted(n: nat)
    ensures |DottedNames(Dotted(n))| == n
    ensures forall k :: 0 <= k < n ==> DottedNames(Dotted(n))[k] == Dotted(n - k)
  {
    DottedStep(n);
    hide DottedNames, Dotted;
    if n == 0 {
      OneNamePerDot([98]);
    } else {
      FirstDotted(Dotted(n - 1));
      DottedNamesOfDotted(n - 1);
      var names := DottedNames(Dotted(n - 1));
      forall k | 0 <= k < n ensures DottedNames(Dotted(n))[k] == Dotted(n - k) {
        if k > 0 { assert names[k - 1] == Dotted(n - 1 - (k - 1)); }
      }
    }
  }

  lemma DottedIsKey(n: nat)
    ensures HostKey(Dotted(n)) == Dotted(n)
  {
    var h := Dotted(n);
    hide Dotted;
    DottedKey(n);
    assert h[|h| - 1..] == [98];
    assert Lowercase(h) == h;
  }

  /** A host with more than 127 dots that ends in `a.b` is not ordinary: the block of `a.b` is not
      found for it. */
  lemma LongHostMissed(n: nat)
    requires n > 127
    ensures var r, host := NO_RULES.(block := [Dotted(1)]), Dotted(n);
            && !Ordinary(host) && WellFormed(r) && Blocked(r, host)
            && (NoCollision(r, host) ==> !HashedBlocked(PartsOf(r), host))
  {
    hide StoredName, DottedNames, FirstNames, HashedBlocked, Blocked, StringBlocked, WellFormed, NoCollision, HostKey;
    ShortNameStored();
    assert Dotted(1) == [97, DOT] + Dotted(0) == [97, DOT, 98];
    hide Dotted;
    DottedNamesOfDotted(n);
    DottedIsKey(n);
    BufferTooShort(Dotted(n), n - 1);
  }

  // ----- from the lists to the answer

  /** What is written for well-formed rules loads, and loads as written. */
  lemma WrittenLoads(r: DomainRules)
    requires WellFormed(r) && Encodable(PartsOf(r))
    ensures ParseFile(FileOf(PartsOf(r))) == Ok(PartsOf(r))
  {
    hide AllStored, AllValid, SortedHashes, PatternList, IsValidPattern, ParseFile, FileOf, Encodable;
    SortedHashesAre(r.block, r.exactBlock);
    SortedHashesAre(r.allow, r.exactAllow);
    SortedHashesAre(r.important, []);
    ValidPatterns(r.wildcardAllow, r.exactWildcardAllow);
    ValidPatterns(r.wildcardBlock, r.exactWildcardBlock);
    FileRoundTrip(PartsOf(r));
  }

  lemma ListedStored(s: seq<Name>, rules: set<RuleEntry>, kind: Kind)
    requires forall n :: n in s ==> n in NamesOf(rules, kind)
    requires forall x :: x in rules ==> StoredRule(x.0, x.1)
    ensures forall n :: n in s ==> StoredRule(kind, n)
  {
    NamesOfIs(rules, kind);
  }

  /** The parsed rules are well formed, whatever the lists say. */
  lemma OutcomeWellFormed(r: DomainRules, lists: seq<DnsList>)
    requires Outcome(r, ListsEffect(lists))
    ensures WellFormed(r)
  {
    hide StoredName, IsValidPattern, ListsEffect, OverLimit, NamesOf;
    var e := ListsEffect(lists);
    ListsProper(lists, None);
    var rules := FinalRules(e);
    assert forall x :: x in rules ==> x in e.added;
    ListedStored(r.important, rules, Important);
    ListedStored(r.allow, rules, Allow);
    ListedStored(r.block, rules, Block);
    ListedStored(r.exactAllow, rules, ExactAllow);
    ListedStored(r.exactBlock, rules, ExactBlock);
    ListedStored(r.wildcardAllow, rules, WildcardAllow);
    ListedStored(r.exactWildcardAllow, rules, ExactWildcardAllow);
    ListedStored(r.wildcardBlock, rules, WildcardBlock);
    ListedStored(r.exactWildcardBlock, rules, ExactWildcardBlock);
  }

  lemma {:induction false} NoLonger<T>(a: seq<T>, b: seq<T>)
    requires NoDuplicates(a) && forall x :: x in a ==> x in b
    ensures |a| <= |b|
  {
    forall x ensures multiset(a)[x] <= multiset(b)[x] {
      NoDuplicatesCounts(a, x);
      assert x in a <==> x in multiset(a);
      assert x in b <==> x in multiset(b);
    }
    assert multiset(b) == multiset(a) + (multiset(b) - multiset(a));
  }

  lemma ListLengths(s: seq<Name>, t: seq<Name>, added: seq<RuleEntry>, k1: Kind, k2: Kind)
    requires k1 != k2 && NoDuplicates(s) && NoDuplicates(t)
    requires forall n :: n in s ==> (k1, n) in added
    requires forall n :: n in t ==> (k2, n) in added
    ensures |s| + |t| <= |added|
  {
    var a, b := Tagged(k1, s), Tagged(k2, t);
    JoinNoDuplicates(a, b);
    NoLonger(a + b, added);
  }

  lemma {:induction false} SectionLength(ps: seq<Pattern>)
    requires forall p :: p in ps ==> |p.glob| <= 253
    ensures |PatternSection(ps)| <= 256 * |ps|
  {
    if ps != [] { SectionLength(ps[..|ps| - 1]); }
  }

  lemma PatternsFit(parents: seq<Name>, host: seq<Name>)
    requires AllValid(parents) && AllValid(host) && |parents| + |host| <= MAX_WILDCARD_PATTERNS
    ensures |PatternSection(PatternList(parents, host))| < U32
  {
    hide PatternSection, Split;
    ValidPatterns(parents, host);
    assert forall p :: p in PatternList(parents, host) ==> IsValidPattern(p.glob) && |p.glob| <= 253;
    SectionLength(PatternList(parents, host));
  }

  /** Fewer than 2^32 rules give a file whose counts and lengths fit. */
  lemma OutcomeEncodable(r: DomainRules, lists: seq<DnsList>)
    requires Outcome(r, ListsEffect(lists)) && |ListsEffect(lists).added| < U32
    ensures Encodable(PartsOf(r))
  {
    hide SortedHashes, PatternList, PatternSection, ListsEffect, OverLimit, AllStored, AllValid, Candidates;
    var e := ListsEffect(lists);
    OutcomeWellFormed(r, lists);
    OutcomeWithinLimits(r, e);
    PatternsFit(r.wildcardAllow, r.exactWildcardAllow);
    PatternsFit(r.wildcardBlock, r.exactWildcardBlock);
    KindsAdded(r, e);
    NoneStored();
    ListLengths(r.block, r.exactBlock, e.added, Block, ExactBlock);
    ListLengths(r.allow, r.exactAllow, e.added, Allow, ExactAllow);
    ListLengths(r.important, [], e.added, Important, Block);
    SortedHashesAre(r.block, r.exactBlock);
    SortedHashesAre(r.allow, r.exactAllow);
    SortedHashesAre(r.important, []);
  }

  lemma KindsAdded(r: DomainRules, e: Effect)
    requires Outcome(r, e)
    ensures forall n :: n in r.block ==> (Block, n) in e.added
    ensures forall n :: n in r.exactBlock ==> (ExactBlock, n) in e.added
    ensures forall n :: n in r.allow ==> (Allow, n) in e.added
    ensures forall n :: n in r.exactAllow ==> (ExactAllow, n) in e.added
    ensures forall n :: n in r.important ==> (Important, n) in e.added
    ensures NoDuplicates(r.block) && NoDuplicates(r.exactBlock) && NoDuplicates(r.allow)
    ensures NoDuplicates(r.exactAllow) && NoDuplicates(r.important)
  {
    hide OverLimit, NamesOf;
    var rules := FinalRules(e);
    NamesOfIs(rules, Block);
    NamesOfIs(rules, ExactBlock);
    NamesOfIs(rules, Allow);
    NamesOfIs(rules, ExactAllow);
    NamesOfIs(rules, Important);
  }

  /** The whole way: lists are parsed, written, loaded and looked up. Every ordinary host is blocked
      exactly when the lines of the lists say so, after `$badfilter`, the exemptions and the limits,
      unless hashes collide. */
  method CompileAndLookUp(lists: seq<DnsList>, host: Str) returns (r: DomainRules, blocked: bool)
    requires |ListsEffect(lists).added| < U32
    ensures Outcome(r, ListsEffect(lists))
    ensures NoCollision(r, host) && Ordinary(host) ==>
              (blocked <==> ListMeaning.SaidBlocked(lists, OverLimit(ListsEffect(lists)), HostKey(host)))
  {
    hide Outcome, NoCollision, Ordinary, WellFormed, Encodable, ParseFile, FileOf, Holds, HashedBlocked,
         Blocked, ListMeaning.SaidBlocked, OverLimit;
    r := ParseExempting(lists);
    OutcomeEncodable(r, lists);
    var bytes := Encode(r);
    OutcomeWellFormed(r, lists);
    WrittenLoads(r);
    var loaded := Load(bytes);
    blocked := IsBlocked(loaded.value, host, PartsOf(r));
    if NoCollision(r, host) && Ordinary(host) {
      LookupMeaning(r, host);
      ListMeaning.ListsDecide(lists, r, host);
    }
  }
}
