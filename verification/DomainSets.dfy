/** Loading a DNS blocklist file and looking hosts up in it (domain_set.rs). */
module DomainSets {
  import opened Bytes
  import opened Text
  import opened LittleEndian
  import opened Patterns
  import opened Trie
  import opened PatternIndex
  import opened RuleSyntax
  import opened DomainFile

  datatype Range = Range(lo: nat, hi: nat)

  datatype DomainSet = DomainSet(
    data: Str,
    hashesAt: nat,
    block: Range,
    allow: Range,
    important: Range,
    wildcardAllow: PatternSet,
    wildcardBlock: PatternSet)

  /** The range of hashes in the file is this ascending section. */
  ghost predicate HoldsSection(set_: DomainSet, range: Range, section: seq<nat>) {
    && range.lo <= range.hi && set_.hashesAt + 8 * range.hi <= |set_.data|
    && HashList(set_.data, set_.hashesAt, range.lo, range.hi) == section
    && Ascending(section)
  }

  ghost predicate Holds(set_: DomainSet, parts: Parts) {
    && HoldsSection(set_, set_.block, parts.block)
    && HoldsSection(set_, set_.allow, parts.allow)
    && HoldsSection(set_, set_.important, parts.important)
    && set_.wildcardAllow.patterns == parts.wildcardAllow && Indexed(set_.wildcardAllow)
    && set_.wildcardBlock.patterns == parts.wildcardBlock && Indexed(set_.wildcardBlock)
  }

  // ----- a parsed section is no larger than its text, so its index fits

  lemma {:induction false} GlobBytesFront(p: Pattern, rest: seq<Pattern>)
    ensures GlobBytes([p] + rest) == |p.glob| + GlobBytes(rest)
  {
    if rest == [] {
      assert [p] + rest == [p] && [p][..0] == [];
    } else {
      var n := |rest| - 1;
      GlobBytesFront(p, rest[..n]);
      assert ([p] + rest)[..n + 1] == [p] + rest[..n];
    }
  }

  function TotalLength(lines: seq<Str>): nat {
    if lines == [] then 0 else 1 + |lines[0]| + TotalLength(lines[1..])
  }

  lemma {:induction false} SplitLength(s: Str, sep: byte)
    ensures TotalLength(Split(s, sep)) == |s| + 1
    decreases |s|
  {
    hide IndexOf;
    var n := IndexOf(s, sep);
    if n == |s| {
      var one: seq<Str> := [s];
      assert one[1..] == [];
    } else {
      SplitLength(s[n + 1..], sep);
      FirstLength(s[..n], Split(s[n + 1..], sep));
    }
  }

  lemma FirstLength(first: Str, rest: seq<Str>)
    ensures TotalLength([first] + rest) == |first| + 1 + TotalLength(rest)
  {
    assert ([first] + rest)[1..] == rest;
  }

  lemma {:induction false} ParseLinesSize(lines: seq<Str>)
    requires ParseLines(lines).Some?
    ensures var ps := ParseLines(lines).value;
            |ps| <= TotalLength(lines) && GlobBytes(ps) <= TotalLength(lines)
  {
    hide IsValidPattern;
    if lines != [] {
      ParseLinesSize(lines[1..]);
      GlobBytesFront(ParsePattern(lines[0]).value, ParseLines(lines[1..]).value);
    }
  }

  lemma ParsePatternsSize(section: Str)
    requires ParsePatterns(section).Some? && |section| < U32
    ensures var ps := ParsePatterns(section).value;
            |ps| <= U32_MAX && GlobBytes(ps) <= U32_MAX
  {
    hide ParseLines, Split;
    if section != [] {
      SplitLength(section[..|section| - 1], NEWLINE);
      ParseLinesSize(Split(section[..|section| - 1], NEWLINE));
    }
  }

  /** `DomainSet::new`: accepts exactly the files `ParseFile` accepts, with the same error
      otherwise, and holds what they say. */
  method Load(bytes: Str) returns (r: Result<DomainSet>)
    ensures ParseFile(bytes).Err? ==> r == Err(ParseFile(bytes).error)
    ensures ParseFile(bytes).Ok? ==> r.Ok? && Holds(r.value, ParseFile(bytes).value)
  {
    hide ReadHeader, ParsePatterns, HashAt, Indexed;
    var header := ReadHeader(bytes);
    if header.Err? {
      return Err(header.error);
    }
    var sizes := header.value;
    var at := sizes.header;
    var allowAt := at + 8 * sizes.Hashes();
    var blockAt := allowAt + sizes.allowLen;
    var allow := ParsePatterns(bytes[allowAt..blockAt]);
    var block := ParsePatterns(bytes[blockAt..]);
    if allow.None? || block.None? {
      return Err(BadPatterns);
    }
    ParsePatternsSize(bytes[allowAt..blockAt]);
    ParsePatternsSize(bytes[blockAt..]);
    var wildcardAllow := NewPatternSet(allow.value);
    var wildcardBlock := NewPatternSet(block.value);
    var b, a, i := Range(0, sizes.block), Range(sizes.block, sizes.block + sizes.allow),
                   Range(sizes.block + sizes.allow, sizes.Hashes());
    var set_ := DomainSet(bytes, at, b, a, i, wildcardAllow, wildcardBlock);
    var bs, as_, is_ := HashList(bytes, at, b.lo, b.hi), HashList(bytes, at, a.lo, a.hi),
                        HashList(bytes, at, i.lo, i.hi);
    if !(NeighboursAscend(bs) && NeighboursAscend(as_) && NeighboursAscend(is_)) {
      return Err(Unsorted);
    }
    NeighboursAscending(bs);
    NeighboursAscending(as_);
    NeighboursAscending(is_);
    r := Ok(set_);
  }

  /** `contains`: binary search in one section. */
  method Contains(set_: DomainSet, range: Range, hash: nat, ghost section: seq<nat>) returns (r: bool)
    requires HoldsSection(set_, range, section)
    ensures r <==> hash in section
  {
    hide HashAt;
    var from, to := range.lo, range.hi;
    while from < to
      invariant range.lo <= from <= to <= range.hi
      invariant forall i :: 0 <= i < from - range.lo ==> section[i] < hash
      invariant forall i :: to - range.lo <= i < |section| ==> hash < section[i]
    {
      var m := (from + to) / 2;
      var entry := HashAt(set_.data, set_.hashesAt, m);
      assert entry == section[m - range.lo];
      if entry == hash {
        return true;
      } else if entry < hash {
        from := m + 1;
      } else {
        to := m;
      }
    }
    r := false;
  }

  // ----- the lookup

  /** The host and each parent that still has a dot. */
  function DottedNames(host: Str): seq<Str>
    decreases |host|
  {
    var dot := IndexOf(host, DOT);
    if dot == |host| then [] else [host] + DottedNames(host[dot + 1..])
  }

  const MAX_NAMES: nat := 127

  /** The names a lookup hashes: no more than its buffer holds. */
  function FirstNames(host: Str): seq<Str> {
    var names := DottedNames(host);
    if |names| <= MAX_NAMES then names else names[..MAX_NAMES]
  }

  ghost predicate AnyHashIn(names: seq<Str>, section: seq<nat>) {
    exists n :: n in names && NameHash(n) in section
  }

  /** The decision on the sections of the file. */
  ghost predicate HashedBlocked(parts: Parts, host: Str) {
    var h := StripDot(host);
    var names := FirstNames(h);
    && names != []
    && (|| AnyHashIn(names, parts.important)
        || (&& NameHash(Tag(h)) !in parts.allow
            && !AnyHashIn(names, parts.allow)
            && (NameHash(Tag(h)) in parts.block || AnyHashIn(names, parts.block) || AnyMatches(parts.wildcardBlock, h))
            && !AnyMatches(parts.wildcardAllow, h)))
  }

  lemma FirstNamesAre(host: Str, done: seq<Str>, rest: Str)
    requires DottedNames(host) == done + DottedNames(rest)
    requires |done| <= MAX_NAMES && (|done| == MAX_NAMES || IndexOf(rest, DOT) == |rest|)
    ensures FirstNames(host) == done
  {
    if |done| < MAX_NAMES {
      assert DottedNames(rest) == [];
    }
    assert (done + DottedNames(rest))[..|done|] == done;
  }

  lemma NextName(host: Str, done: seq<Str>, start: nat)
    requires start <= |host| && DottedNames(host) == done + DottedNames(host[start..])
    requires IndexOf(host[start..], DOT) < |host[start..]|
    ensures var dot := IndexOf(host[start..], DOT);
            DottedNames(host) == done + [host[start..]] + DottedNames(host[start + dot + 1..])
  {
    hide IndexOf;
    var rest := host[start..];
    var dot := IndexOf(rest, DOT);
    var more := DottedNames(rest[dot + 1..]);
    assert rest[dot + 1..] == host[start + dot + 1..];
    assert DottedNames(rest) == [rest] + more;
    assert done + ([rest] + more) == done + [rest] + more;
  }

  /** The loop that hashes the host and its parents into a buffer of 127. */
  method HashNames(host: Str) returns (hashes: seq<nat>)
    ensures hashes == HashesOf(FirstNames(host))
  {
    hide Fnv, NameHash, DottedNames, IndexOf, FirstNames;
    var buffer := new nat[MAX_NAMES](_ => 0);
    var n, start := 0, 0;
    ghost var done: seq<Str> := [];
    assert host[0..] == host;
    while n < MAX_NAMES
      invariant 0 <= n <= MAX_NAMES && 0 <= start <= |host|
      invariant |done| == n && DottedNames(host) == done + DottedNames(host[start..])
      invariant buffer[..n] == HashesOf(done)
    {
      var rest := host[start..];
      var dot := IndexOf(rest, DOT);
      if dot == |rest| {
        break;
      }
      var h := HashFrom(FNV_OFFSET, rest);
      buffer[n] := Number(h);
      NameHashIs(rest);
      assert HashesOf(done + [rest]) == HashesOf(done) + [NameHash(rest)];
      assert buffer[..n + 1] == buffer[..n] + [NameHash(rest)];
      NextName(host, done, start);
      done := done + [rest];
      n := n + 1;
      start := start + dot + 1;
    }
    FirstNamesAre(host, done, host[start..]);
    hashes := buffer[..n];
  }

  lemma NameHashIs(s: Str)
    ensures NameHash(s) == Number(Fnv(FNV_OFFSET, Lowercase(s)))
  {
  }

  /** `covered`: whether one of the hashes is in the section. */
  method AnyContained(set_: DomainSet, range: Range, hashes: seq<nat>, ghost names: seq<Str>, ghost section: seq<nat>)
    returns (r: bool)
    requires HoldsSection(set_, range, section) && hashes == HashesOf(names)
    ensures r <==> AnyHashIn(names, section)
  {
    hide HoldsSection, NameHash;
    var i := 0;
    while i < |hashes|
      invariant 0 <= i <= |hashes|
      invariant forall k :: 0 <= k < i ==> hashes[k] !in section
    {
      r := Contains(set_, range, hashes[i], section);
      if r {
        assert names[i] in names;
        return;
      }
      i := i + 1;
    }
    forall n | n in names ensures NameHash(n) !in section {
      var k :| 0 <= k < |names| && names[k] == n;
      assert hashes[k] == NameHash(n);
    }
    r := false;
  }

  /** `is_blocked`. */
  method IsBlocked(set_: DomainSet, hostName: Str, ghost parts: Parts) returns (r: bool)
    requires Holds(set_, parts)
    ensures r <==> HashedBlocked(parts, hostName)
  {
    hide HoldsSection, NameHash, AnyHashIn, AnyMatches, FirstNames, Indexed;
    var host := StripDot(hostName);
    var hashes := HashNames(host);
    ghost var names := FirstNames(host);
    if hashes == [] {
      return false;
    }
    var exact := ExactHash(host);
    var important := AnyContained(set_, set_.important, hashes, names, parts.important);
    if important {
      return true;
    }
    var allowed := Contains(set_, set_.allow, exact, parts.allow);
    if !allowed {
      allowed := AnyContained(set_, set_.allow, hashes, names, parts.allow);
    }
    if allowed {
      return false;
    }
    var blocked := Contains(set_, set_.block, exact, parts.block);
    if !blocked {
      blocked := AnyContained(set_, set_.block, hashes, names, parts.block);
    }
    if !blocked {
      blocked := MatchesHost(set_.wildcardBlock, host);
    }
    if !blocked {
      return false;
    }
    var unblocked := MatchesHost(set_.wildcardAllow, host);
    r := !unblocked;
  }
}
