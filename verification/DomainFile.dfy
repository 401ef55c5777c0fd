/** The DNS blocklist file (domain_set.rs): how rules are written to `domains.bin` and read
    back. */
module DomainFile {
  import opened Bytes
  import opened Text
  import opened Ordering
  import opened LittleEndian
  import opened Patterns
  import opened RuleSyntax
  import opened RuleBuilder

  const MAGIC: seq<byte> := [84, 71, 68, 83]
  const VERSION: nat := 2
  const HEADER_LEN_V1: nat := 32
  const HEADER_LEN: nat := 40

  datatype FileError =
    | TooShort
    | BadMagic
    | UnsupportedVersion(version: nat)
    | BadHeader
    | BadPatterns
    | LengthMismatch(expected: nat, actual: nat)
    | BadChecksum
    | Unsorted

  datatype Result<+T> = Ok(value: T) | Err(error: FileError)

  // ----- hashes

  const FNV_OFFSET: bv64 := 0xcbf2_9ce4_8422_2325

  function FnvByte(hash: bv64, b: byte): bv64 {
    (hash ^ (b as bv64)) * 0x0000_0100_0000_01b3
  }

  /** FNV-1a 64 continued from `hash`. */
  function Fnv(hash: bv64, s: Str): bv64
    decreases |s|
  {
    if s == [] then hash else Fnv(FnvByte(hash, s[0]), s[1..])
  }

  lemma {:induction false} FnvSplit(hash: bv64, a: Str, b: Str)
    ensures Fnv(hash, a + b) == Fnv(Fnv(hash, a), b)
    decreases |a|
  {
    hide FnvByte;
    if a == [] {
      assert a + b == b;
    } else {
      FnvSplit(FnvByte(hash, a[0]), a[1..], b);
      assert (a + b)[1..] == a[1..] + b;
    }
  }

  function Number(hash: bv64): (n: nat)
    ensures n < U64
  {
    hash as nat
  }

  /** The hash a name is stored under. */
  function NameHash(name: Str): (n: nat)
    ensures n < U64
  {
    Number(Fnv(FNV_OFFSET, Lowercase(name)))
  }

  /** The checksum of the raw bytes. */
  function Checksum(s: Str): (n: nat)
    ensures n < U64
  {
    Number(Fnv(FNV_OFFSET, s))
  }

  /** `fnv1a64_from`: the loop, lowercasing on the way. */
  method HashFrom(hash: bv64, s: Str) returns (r: bv64)
    ensures r == Fnv(hash, Lowercase(s))
  {
    hide FnvByte;
    r := hash;
    var i := 0;
    assert Lowercase(s)[0..] == Lowercase(s);
    while i < |s|
      invariant 0 <= i <= |s| && Fnv(r, Lowercase(s)[i..]) == Fnv(hash, Lowercase(s))
    {
      assert Lowercase(s)[i..][1..] == Lowercase(s)[i + 1..];
      r := FnvByte(r, Lower(s[i]));
      i := i + 1;
    }
  }

  /** An entry for one host only is stored as the name after a `|`. */
  function Tag(name: Str): Str { [PIPE] + name }

  /** `exact_hash`: the tag hashed first, then the name. */
  method ExactHash(name: Str) returns (n: nat)
    ensures n == NameHash(Tag(name))
  {
    hide FnvByte;
    var tag := HashFrom(FNV_OFFSET, [PIPE]);
    var h := HashFrom(tag, name);
    assert Lowercase(Tag(name)) == Lowercase([PIPE]) + Lowercase(name);
    FnvSplit(FNV_OFFSET, Lowercase([PIPE]), Lowercase(name));
    n := Number(h);
  }

  // ----- sections of hashes

  /** The strings a section stores: the names, and the one-host entries with their tag. */
  function StoredStrings(names: seq<Name>, exact: seq<Name>): (s: seq<Str>)
    ensures |s| == |names| + |exact|
  {
    names + seq(|exact|, i requires 0 <= i < |exact| => Tag(exact[i]))
  }

  function HashesOf(s: seq<Str>): (h: seq<nat>)
    ensures |h| == |s| && forall i :: 0 <= i < |s| ==> h[i] == NameHash(s[i])
  {
    seq<nat>(|s|, i requires 0 <= i < |s| => NameHash(s[i]))
  }

  /** `dedup`: runs of equal neighbours become one. */
  function Dedup(s: seq<nat>): seq<nat> {
    if |s| <= 1 then s
    else if s[0] == s[1] then Dedup(s[1..])
    else [s[0]] + Dedup(s[1..])
  }

  predicate Ascending(s: seq<nat>) {
    forall i, j :: 0 <= i < j < |s| ==> s[i] < s[j]
  }

  lemma {:induction false} DedupSorted(s: seq<nat>)
    requires forall i, j :: 0 <= i < j < |s| ==> s[i] <= s[j]
    ensures Ascending(Dedup(s)) && |Dedup(s)| <= |s|
    ensures forall x :: x in Dedup(s) <==> x in s
  {
    if |s| > 1 {
      DedupSorted(s[1..]);
      assert s == [s[0]] + s[1..];
      var rest := Dedup(s[1..]);
      if s[0] != s[1] {
        forall i | 0 <= i < |rest| ensures s[0] < rest[i] {
          assert rest[i] in s[1..];
        }
      }
    }
  }

  /** `sorted_hashes`. */
  function SortedHashes(names: seq<Name>, exact: seq<Name>): seq<nat> {
    Dedup(Sort(HashesOf(StoredStrings(names, exact)), NatLe))
  }

  predicate NatLe(a: nat, b: nat) { a <= b }

  lemma SortedHashesAre(names: seq<Name>, exact: seq<Name>)
    ensures var h := SortedHashes(names, exact);
            && Ascending(h) && |h| <= |names| + |exact|
            && (forall x :: x in h <==> exists s :: s in StoredStrings(names, exact) && NameHash(s) == x)
            && (forall x :: x in h ==> x < U64)
  {
    hide NameHash;
    var strings := StoredStrings(names, exact);
    var all := HashesOf(strings);
    assert TotalOrder(NatLe);
    SortSorts(all, NatLe);
    var sorted := Sort(all, NatLe);
    assert forall i, j :: 0 <= i < j < |sorted| ==> NatLe(sorted[i], sorted[j]);
    DedupSorted(sorted);
    forall x ensures x in all <==> exists s :: s in strings && NameHash(s) == x {
      if x in all {
        var i :| 0 <= i < |all| && all[i] == x;
        assert strings[i] in strings;
      }
      if s :| s in strings && NameHash(s) == x {
        var i :| 0 <= i < |strings| && strings[i] == s;
        assert all[i] == x;
      }
    }
  }

  // ----- sections of patterns

  function PatternLine(p: Pattern): Str {
    (if p.parents then [PIPE, PIPE] else [PIPE]) + p.glob + [NEWLINE]
  }

  function PatternSection(patterns: seq<Pattern>): Str {
    if patterns == [] then []
    else PatternSection(patterns[..|patterns| - 1]) + PatternLine(patterns[|patterns| - 1])
  }

  lemma NoLines()
    ensures PatternSection([]) == []
  {
  }

  lemma OneMoreLine(ps: seq<Pattern>, n: nat)
    requires n < |ps|
    ensures PatternSection(ps[..n + 1]) == PatternSection(ps[..n]) + PatternLine(ps[n])
  {
    assert ps[..n + 1][..n] == ps[..n];
  }

  /** `pattern_section`: the loop that writes the lines. */
  method WritePatterns(parents: seq<Name>, host: seq<Name>) returns (section: Str)
    ensures section == PatternSection(PatternList(parents, host))
  {
    hide PatternLine, PatternSection;
    section := [];
    var ps := PatternList(parents, host);
    NoLines();
    var i := 0;
    while i < |parents|
      invariant 0 <= i <= |parents| && section == PatternSection(ps[..i])
    {
      OneMoreLine(ps, i);
      section := section + PatternLine(Pattern(parents[i], true));
      i := i + 1;
    }
    i := 0;
    while i < |host|
      invariant 0 <= i <= |host| && section == PatternSection(ps[..|parents| + i])
    {
      OneMoreLine(ps, |parents| + i);
      section := section + PatternLine(Pattern(host[i], false));
      i := i + 1;
    }
    assert ps[..|parents| + i] == ps;
  }

  /** `Pattern::parse`. */
  function ParsePattern(line: Str): Option<Pattern> {
    var double := StripPrefix(line, [PIPE, PIPE]);
    if double.Some? then
      if IsValidPattern(double.value) then Some(Pattern(double.value, true)) else None
    else
      var single := StripPrefix(line, [PIPE]);
      if single.Some? && IsValidPattern(single.value) then Some(Pattern(single.value, false)) else None
  }

  function ParseLines(lines: seq<Str>): Option<seq<Pattern>> {
    if lines == [] then Some([])
    else
      match ParsePattern(lines[0])
      case None => None
      case Some(p) =>
        match ParseLines(lines[1..])
        case None => None
        case Some(rest) => Some([p] + rest)
  }

  /** `parse_patterns`. A section that is not UTF-8 fails here as in the source, since no line
      with a byte beyond ASCII is a pattern. */
  function ParsePatterns(section: Str): Option<seq<Pattern>> {
    if section == [] then Some([])
    else if section[|section| - 1] != NEWLINE then None
    else ParseLines(Split(section[..|section| - 1], NEWLINE))
  }

  lemma ParsePatternLine(p: Pattern)
    requires IsValidPattern(p.glob)
    ensures var line := PatternLine(p);
            |line| > 0 && line[|line| - 1] == NEWLINE && NEWLINE !in line[..|line| - 1]
            && ParsePattern(line[..|line| - 1]) == Some(p)
  {
    hide IsValidPattern;
    PatternBytes(p.glob);
    var bare := PatternLine(p)[..|PatternLine(p)| - 1];
    if p.parents {
      assert bare == [PIPE, PIPE] + p.glob && bare[2..] == p.glob;
    } else {
      assert bare == [PIPE] + p.glob && bare[1..] == p.glob;
      assert bare[1] == p.glob[0] && p.glob[0] in p.glob;
    }
  }

  lemma IndexOfPast(line: Str, rest: Str, b: byte)
    requires b !in line
    ensures IndexOf(line + [b] + rest, b) == |line|
  {
    var s := line + [b] + rest;
    var n := IndexOf(s, b);
    assert forall i :: 0 <= i < |line| ==> s[i] == line[i] && line[i] in line;
    assert s[|line|] == b;
  }

  lemma SplitPast(line: Str, rest: Str, b: byte)
    requires b !in line
    ensures Split(line + [b] + rest, b) == [line] + Split(rest, b)
  {
    var s := line + [b] + rest;
    IndexOfPast(line, rest, b);
    assert s[..|line|] == line && s[|line| + 1..] == rest;
  }

  lemma SplitOne(line: Str, b: byte)
    requires b !in line
    ensures Split(line, b) == [line]
  {
    var n := IndexOf(line, b);
  }

  lemma {:induction false} SectionFromFront(patterns: seq<Pattern>)
    requires patterns != []
    ensures PatternSection(patterns) == PatternLine(patterns[0]) + PatternSection(patterns[1..])
  {
    hide PatternLine;
    var n := |patterns| - 1;
    if n == 0 {
      assert patterns[..0] == [] && patterns[1..] == [];
      assert PatternSection(patterns) == [] + PatternLine(patterns[0]);
    } else {
      var front, rest, last := patterns[..n], patterns[1..], PatternLine(patterns[n]);
      SectionFromFront(front);
      assert rest[..n - 1] == front[1..] && rest[n - 1] == patterns[n] && front[0] == patterns[0];
      assert PatternSection(rest) == PatternSection(front[1..]) + last;
      assert PatternSection(patterns) == (PatternLine(patterns[0]) + PatternSection(front[1..])) + last;
    }
  }

  /** The lines of a section, the first one apart. */
  lemma FirstLine(bare: Str, rest: Str)
    requires NEWLINE !in bare && (rest != [] ==> rest[|rest| - 1] == NEWLINE)
    ensures var s := bare + [NEWLINE] + rest;
            s[|s| - 1] == NEWLINE &&
            Split(s[..|s| - 1], NEWLINE) == [bare] + if rest == [] then [] else Split(rest[..|rest| - 1], NEWLINE)
  {
    var s := bare + [NEWLINE] + rest;
    if rest == [] {
      assert s[..|s| - 1] == bare;
      SplitOne(bare, NEWLINE);
    } else {
      var body := rest[..|rest| - 1];
      assert s[..|s| - 1] == bare + [NEWLINE] + body;
      SplitPast(bare, body, NEWLINE);
    }
  }

  /** Writing patterns and reading them back gives the same patterns. */
  lemma {:induction false} PatternRoundTrip(patterns: seq<Pattern>)
    requires forall p :: p in patterns ==> IsValidPattern(p.glob)
    ensures ParsePatterns(PatternSection(patterns)) == Some(patterns)
  {
    hide IsValidPattern, ParsePattern, PatternLine, Split, PatternSection;
    if patterns == [] {
      assert PatternSection([]) == [] by { NoLines(); }
    } else {
      SectionFromFront(patterns);
      ParsePatternLine(patterns[0]);
      var line := PatternLine(patterns[0]);
      var bare := line[..|line| - 1];
      var rest := PatternSection(patterns[1..]);
      PatternRoundTrip(patterns[1..]);
      if patterns[1..] == [] { NoLines(); } else { SectionEnds(patterns[1..]); }
      FirstLine(bare, rest);
      assert line == bare + [NEWLINE];
      var lines := if rest == [] then [] else Split(rest[..|rest| - 1], NEWLINE);
      assert ParseLines(lines) == Some(patterns[1..]);
      assert ([bare] + lines)[1..] == lines;
      assert ParseLines([bare] + lines) == Some([patterns[0]] + patterns[1..]);
      assert PatternSection(patterns) == bare + [NEWLINE] + rest;
      assert patterns == [patterns[0]] + patterns[1..];
    }
  }

  lemma SectionEnds(patterns: seq<Pattern>)
    requires patterns != []
    ensures PatternSection(patterns) != [] && PatternSection(patterns)[|PatternSection(patterns)| - 1] == NEWLINE
  {
  }

  // ----- the file

  /** The hashes as bytes, eight each. */
  function Flat(hashes: seq<nat>): (s: Str)
    ensures |s| == 8 * |hashes|
  {
    if hashes == [] then [] else Flat(hashes[..|hashes| - 1]) + ToLe(hashes[|hashes| - 1], 8)
  }

  function Read32(bytes: Str, at: nat): (n: nat)
    requires at + 4 <= |bytes|
    ensures n < U32
  {
    FromLeBound(bytes[at..at + 4]);
    Powers();
    FromLe(bytes[at..at + 4])
  }

  function HashAt(bytes: Str, at: nat, i: nat): nat
    requires at + 8 * i + 8 <= |bytes|
  {
    FromLe(bytes[at + 8 * i..at + 8 * i + 8])
  }

  function HashList(bytes: Str, at: nat, lo: nat, hi: nat): (h: seq<nat>)
    requires lo <= hi && at + 8 * hi <= |bytes|
    ensures |h| == hi - lo && forall i :: 0 <= i < hi - lo ==> h[i] == HashAt(bytes, at, lo + i)
  {
    seq<nat>(hi - lo, i requires 0 <= i < hi - lo => HashAt(bytes, at, lo + i))
  }

  /** What a file holds: three sections of hashes and two of patterns. */
  datatype Parts = Parts(
    block: seq<nat>,
    allow: seq<nat>,
    important: seq<nat>,
    wildcardAllow: seq<Pattern>,
    wildcardBlock: seq<Pattern>)

  function Header(block: nat, allow: nat, important: nat, allowLen: nat, sum: nat, blockLen: nat): (h: Str)
    ensures |h| == HEADER_LEN
  {
    Counts(block, allow, important, allowLen) + ToLe(sum, 8) + ToLe(blockLen, 4) + ToLe(0, 4)
  }

  /** The header before the checksum. */
  function Counts(block: nat, allow: nat, important: nat, allowLen: nat): (h: Str)
    ensures |h| == 24
  {
    MAGIC + ToLe(VERSION, 4) + ToLe(block, 4) + ToLe(allow, 4) + ToLe(important, 4) + ToLe(allowLen, 4)
  }

  function Body(parts: Parts): Str {
    Flat(parts.block + parts.allow + parts.important) + PatternSection(parts.wildcardAllow)
    + PatternSection(parts.wildcardBlock)
  }

  function FileOf(parts: Parts): Str {
    Header(|parts.block|, |parts.allow|, |parts.important|, |PatternSection(parts.wildcardAllow)|,
           Checksum(Body(parts)), |PatternSection(parts.wildcardBlock)|)
    + Body(parts)
  }

  /** The sections of some rules. */
  function PartsOf(r: DomainRules): Parts {
    Parts(SortedHashes(r.block, r.exactBlock), SortedHashes(r.allow, r.exactAllow), SortedHashes(r.important, []),
          AllowPatterns(r), BlockPatterns(r))
  }

  /** What `encode` insists on: counts and lengths that fit in 32 bits. */
  predicate Encodable(parts: Parts) {
    && |parts.block| < U32 && |parts.allow| < U32 && |parts.important| < U32
    && |PatternSection(parts.wildcardAllow)| < U32 && |PatternSection(parts.wildcardBlock)| < U32
  }

  lemma FlatAppend(hashes: seq<nat>, h: nat)
    ensures Flat(hashes + [h]) == Flat(hashes) + ToLe(h, 8)
  {
    assert (hashes + [h])[..|hashes|] == hashes;
  }

  method WriteHashes(hashes: seq<nat>) returns (out: Str)
    ensures out == Flat(hashes)
  {
    out := [];
    var i := 0;
    while i < |hashes|
      invariant 0 <= i <= |hashes| && out == Flat(hashes[..i])
    {
      assert hashes[..i + 1] == hashes[..i] + [hashes[i]];
      FlatAppend(hashes[..i], hashes[i]);
      out := out + ToLe(hashes[i], 8);
      i := i + 1;
    }
    assert hashes[..i] == hashes;
  }

  /** `encode`: the buffer is filled in order, the checksum patched in at the end. */
  method Encode(r: DomainRules) returns (out: Str)
    requires Encodable(PartsOf(r))
    ensures out == FileOf(PartsOf(r))
  {
    hide SortedHashes, PatternSection, Checksum, Flat, ToLe, PatternList, Counts;
    var block := SortedHashes(r.block, r.exactBlock);
    var allow := SortedHashes(r.allow, r.exactAllow);
    var important := SortedHashes(r.important, []);
    var allowPatterns := WritePatterns(r.wildcardAllow, r.exactWildcardAllow);
    var blockPatterns := WritePatterns(r.wildcardBlock, r.exactWildcardBlock);
    out := Counts(|block|, |allow|, |important|, |allowPatterns|);
    ghost var front := out;
    out := out + ToLe(0, 8);
    out := out + ToLe(|blockPatterns|, 4) + ToLe(0, 4);
    ghost var header := out;
    var hashes := WriteHashes(block + allow + important);
    out := out + hashes + allowPatterns + blockPatterns;
    ghost var body := Body(PartsOf(r));
    assert out == header + body;
    assert out[HEADER_LEN..] == body;
    var sum := Checksum(out[HEADER_LEN..]);
    PatchSum(front, ToLe(0, 8), ToLe(sum, 8), ToLe(|blockPatterns|, 4) + ToLe(0, 4), body);
    assert header == front + ToLe(0, 8) + (ToLe(|blockPatterns|, 4) + ToLe(0, 4));
    out := out[..24] + ToLe(sum, 8) + out[32..];
    assert front + ToLe(sum, 8) + (ToLe(|blockPatterns|, 4) + ToLe(0, 4)) ==
           Header(|block|, |allow|, |important|, |allowPatterns|, sum, |blockPatterns|);
  }

  lemma PatchSum(front: Str, zero: Str, sum: Str, back: Str, body: Str)
    requires |front| == 24 && |zero| == 8 && |sum| == 8
    ensures var out := front + zero + back + body;
            out[..24] + sum + out[32..] == front + sum + back + body
  {
    var out := front + zero + back + body;
    assert out == front + (zero + (back + body));
    assert out[..24] == front && out[32..] == back + body;
  }

  /** Each hash above the one before it. */
  predicate NeighboursAscend(s: seq<nat>) {
    forall i :: 0 <= i < |s| - 1 ==> s[i] < s[i + 1]
  }

  lemma {:induction false} NeighboursAscending(s: seq<nat>)
    requires NeighboursAscend(s)
    ensures Ascending(s)
  {
    if s != [] {
      var n := |s| - 1;
      var front := s[..n];
      assert NeighboursAscend(front) by {
        forall i | 0 <= i < |front| - 1 ensures front[i] < front[i + 1] { assert s[i] < s[i + 1]; }
      }
      NeighboursAscending(front);
      forall i, j | 0 <= i < j < |s| ensures s[i] < s[j] {
        if j == n {
          assert s[n - 1] < s[n - 1 + 1];
          if i < n - 1 { assert front[i] < front[n - 1]; }
        } else {
          assert front[i] < front[j];
        }
      }
    }
  }

  /** Where the sections of a file are: the header's length, the three counts and the lengths
      of the two pattern sections. */
  datatype Sizes = Sizes(header: nat, block: nat, allow: nat, important: nat, allowLen: nat, blockLen: nat) {
    function Hashes(): nat { block + allow + important }
    function Total(): nat { header + 8 * Hashes() + allowLen + blockLen }
  }

  /** The checks of the header, in the order the loader makes them. */
  function ReadHeader(bytes: Str): (r: Result<Sizes>)
    ensures r.Ok? ==> r.value.Total() == |bytes| && (r.value.header == 32 || r.value.header == 40)
    ensures r.Ok? ==> r.value.allowLen < U32 && r.value.blockLen < U32
  {
    if |bytes| < HEADER_LEN_V1 then Err(TooShort)
    else if bytes[0..4] != MAGIC then Err(BadMagic)
    else
      var version := Read32(bytes, 4);
      if !(1 <= version <= VERSION) then Err(UnsupportedVersion(version))
      else if version == 2 && |bytes| < HEADER_LEN then Err(TooShort)
      else if version == 2 && Read32(bytes, 36) != 0 then Err(BadHeader)
      else
        var sizes := Sizes(if version == 1 then HEADER_LEN_V1 else HEADER_LEN,
                           Read32(bytes, 8), Read32(bytes, 12), Read32(bytes, 16), Read32(bytes, 20),
                           if version == 1 then 0 else Read32(bytes, 32));
        if |bytes| != sizes.Total() then Err(LengthMismatch(sizes.Total(), |bytes|))
        else if Checksum(bytes[sizes.header..]) != FromLe(bytes[24..32]) then Err(BadChecksum)
        else Ok(sizes)
  }

  /** What the loader makes of some bytes. */
  function ParseFile(bytes: Str): Result<Parts> {
    match ReadHeader(bytes)
    case Err(e) => Err(e)
    case Ok(sizes) =>
      var at := sizes.header;
      var allowAt := at + 8 * sizes.Hashes();
      var blockAt := allowAt + sizes.allowLen;
      var wildcardAllow := ParsePatterns(bytes[allowAt..blockAt]);
      var wildcardBlock := ParsePatterns(bytes[blockAt..]);
      if wildcardAllow.None? || wildcardBlock.None? then Err(BadPatterns)
      else
        var block := HashList(bytes, at, 0, sizes.block);
        var allow := HashList(bytes, at, sizes.block, sizes.block + sizes.allow);
        var important := HashList(bytes, at, sizes.block + sizes.allow, sizes.Hashes());
        if NeighboursAscend(block) && NeighboursAscend(allow) && NeighboursAscend(important) then
          Ok(Parts(block, allow, important, wildcardAllow.value, wildcardBlock.value))
        else Err(Unsorted)
  }

  // ----- reading back what was written

  lemma ReadBack(bytes: Str, at: nat, n: nat)
    requires at + 4 <= |bytes| && bytes[at..at + 4] == ToLe(n, 4) && n < U32
    ensures Read32(bytes, at) == n
  {
    Powers();
    FromLeToLe(n, 4);
  }

  lemma FieldOf(h: Str, prev: Str, field: Str)
    requires prev + field <= h
    ensures h[|prev|..|prev| + |field|] == field && prev <= h
  {
    assert h[..|prev| + |field|] == prev + field;
    assert h[|prev|..|prev| + |field|] == h[..|prev| + |field|][|prev|..];
  }

  /** The fields of a written header. */
  lemma HeaderFields(b: nat, a: nat, i: nat, al: nat, sum: nat, bl: nat)
    ensures var h := Header(b, a, i, al, sum, bl);
            && h[0..4] == MAGIC && h[4..8] == ToLe(VERSION, 4)
            && h[8..12] == ToLe(b, 4) && h[12..16] == ToLe(a, 4) && h[16..20] == ToLe(i, 4)
            && h[20..24] == ToLe(al, 4) && h[24..32] == ToLe(sum, 8)
            && h[32..36] == ToLe(bl, 4) && h[36..40] == ToLe(0, 4)
  {
    hide ToLe;
    var h := Header(b, a, i, al, sum, bl);
    var h0 := MAGIC + ToLe(VERSION, 4);
    var h1 := h0 + ToLe(b, 4);
    var h2 := h1 + ToLe(a, 4);
    var h3 := h2 + ToLe(i, 4);
    var h4 := h3 + ToLe(al, 4);
    var h5 := h4 + ToLe(sum, 8);
    var h6 := h5 + ToLe(bl, 4);
    FieldOf(h, h6, ToLe(0, 4));
    FieldOf(h, h5, ToLe(bl, 4));
    FieldOf(h, h4, ToLe(sum, 8));
    FieldOf(h, h3, ToLe(al, 4));
    FieldOf(h, h2, ToLe(i, 4));
    FieldOf(h, h1, ToLe(a, 4));
    FieldOf(h, h0, ToLe(b, 4));
    FieldOf(h, MAGIC, ToLe(VERSION, 4));
  }

  /** A written file starts with the letters TGDS and the version 2. */
  lemma FileStarts(parts: Parts)
    ensures |FileOf(parts)| >= 40 && FileOf(parts)[..8] == [0x54, 0x47, 0x44, 0x53, 2, 0, 0, 0]
  {
    hide PatternSection, Checksum, Flat, ToLe;
    HeaderFields(|parts.block|, |parts.allow|, |parts.important|, |PatternSection(parts.wildcardAllow)|,
                 Checksum(Body(parts)), |PatternSection(parts.wildcardBlock)|);
    var file := FileOf(parts);
    TwoBytes();
    assert file[..8] == file[0..4] + file[4..8];
  }

  lemma TwoBytes()
    ensures ToLe(2, 4) == [2, 0, 0, 0]
  {
    assert ToLe(2, 4) == [2] + ToLe(0, 3) && ToLe(0, 3) == [0] + ToLe(0, 2);
    assert ToLe(0, 2) == [0] + ToLe(0, 1) && ToLe(0, 1) == [0];
  }

  lemma HeaderRoundTrip(parts: Parts)
    requires Encodable(parts)
    ensures ReadHeader(FileOf(parts)) ==
            Ok(Sizes(HEADER_LEN, |parts.block|, |parts.allow|, |parts.important|,
                     |PatternSection(parts.wildcardAllow)|, |PatternSection(parts.wildcardBlock)|))
  {
    hide ToLe, PatternSection, Checksum, Flat, FromLe, Pow256;
    var b, a, i := |parts.block|, |parts.allow|, |parts.important|;
    var al, bl := |PatternSection(parts.wildcardAllow)|, |PatternSection(parts.wildcardBlock)|;
    var sum := Checksum(Body(parts));
    var h := Header(b, a, i, al, sum, bl);
    var file := FileOf(parts);
    HeaderFields(b, a, i, al, sum, bl);
    assert forall lo, hi :: 0 <= lo <= hi <= 40 ==> file[lo..hi] == h[lo..hi];
    ReadBack(file, 4, VERSION);
    ReadBack(file, 8, b);
    ReadBack(file, 12, a);
    ReadBack(file, 16, i);
    ReadBack(file, 20, al);
    ReadBack(file, 32, bl);
    ReadBack(file, 36, 0);
    assert FromLe(file[24..32]) == sum by {
      Powers();
      FromLeToLe(sum, 8);
    }
    assert file[HEADER_LEN..] == Body(parts);
  }

  lemma {:induction false} FlatAt(hashes: seq<nat>, i: nat)
    requires i < |hashes|
    ensures Flat(hashes)[8 * i..8 * i + 8] == ToLe(hashes[i], 8)
  {
    hide ToLe;
    var n := |hashes| - 1;
    if i < n {
      FlatAt(hashes[..n], i);
      PrefixSlice(Flat(hashes[..n]), ToLe(hashes[n], 8), 8 * i, 8 * i + 8);
    }
  }

  lemma PrefixSlice(a: Str, b: Str, from: nat, end: nat)
    requires from <= end <= |a|
    ensures (a + b)[from..end] == a[from..end]
  {
  }

  lemma SliceOfSlice(bytes: Str, at: nat, size: nat, n: nat)
    requires at + size <= |bytes| && n + 8 <= size
    ensures bytes[at..at + size][n..n + 8] == bytes[at + n..at + n + 8]
  {
    var slice := bytes[at..at + size];
    var left, right := slice[n..n + 8], bytes[at + n..at + n + 8];
    forall i | 0 <= i < 8 ensures left[i] == right[i] {
      assert slice[n + i] == bytes[at + (n + i)];
    }
    assert left == right;
  }

  lemma SliceIs(bytes: Str, at: nat, part: Str, n: nat)
    requires at + |part| <= |bytes| && bytes[at..at + |part|] == part && n + 8 <= |part|
    ensures bytes[at + n..at + n + 8] == part[n..n + 8]
  {
    SliceOfSlice(bytes, at, |part|, n);
  }

  lemma FlatSlice(bytes: Str, at: nat, hashes: seq<nat>, flat: Str, n: nat, k: nat)
    requires flat == Flat(hashes) && k < |hashes| && n == 8 * k && n + 8 <= |flat|
    requires at + |flat| <= |bytes| && bytes[at..at + |flat|] == flat
    ensures bytes[at + n..at + n + 8] == ToLe(hashes[k], 8)
  {
    hide ToLe, Flat;
    SliceIs(bytes, at, flat, n);
    FlatAt(hashes, k);
  }

  lemma HashBack(bytes: Str, at: nat, hashes: seq<nat>, k: nat)
    requires at + 8 * |hashes| <= |bytes| && bytes[at..at + 8 * |hashes|] == Flat(hashes)
    requires k < |hashes| && forall h :: h in hashes ==> h < U64
    ensures HashAt(bytes, at, k) == hashes[k]
  {
    hide ToLe, Flat, FromLe, HashAt;
    FlatSlice(bytes, at, hashes, Flat(hashes), 8 * k, k);
    assert hashes[k] in hashes;
    HashIs(bytes, at, k, hashes[k]);
  }

  lemma HashIs(bytes: Str, at: nat, k: nat, h: nat)
    requires at + 8 * k + 8 <= |bytes| && bytes[at + 8 * k..at + 8 * k + 8] == ToLe(h, 8) && h < U64
    ensures HashAt(bytes, at, k) == h
  {
    hide ToLe, FromLe;
    HashRoundTrip(h);
  }

  lemma HashRoundTrip(h: nat)
    requires h < U64
    ensures FromLe(ToLe(h, 8)) == h
  {
    hide ToLe, FromLe, Pow256;
    Powers();
    FromLeToLe(h, 8);
  }

  lemma HashesBack(bytes: Str, at: nat, hashes: seq<nat>, lo: nat, hi: nat)
    requires at + 8 * |hashes| <= |bytes| && bytes[at..at + 8 * |hashes|] == Flat(hashes)
    requires lo <= hi <= |hashes| && forall h :: h in hashes ==> h < U64
    ensures HashList(bytes, at, lo, hi) == hashes[lo..hi]
  {
    hide HashAt, Flat;
    forall i | 0 <= i < hi - lo ensures HashAt(bytes, at, lo + i) == hashes[lo..hi][i] {
      HashBack(bytes, at, hashes, lo + i);
    }
  }

  /** Where the sections of a written file are. */
  lemma SectionsAt(parts: Parts)
    ensures var file, all := FileOf(parts), parts.block + parts.allow + parts.important;
            var allowAt := HEADER_LEN + 8 * |all|;
            var blockAt := allowAt + |PatternSection(parts.wildcardAllow)|;
            && blockAt <= |file|
            && file[HEADER_LEN..HEADER_LEN + 8 * |all|] == Flat(all)
            && file[allowAt..blockAt] == PatternSection(parts.wildcardAllow)
            && file[blockAt..] == PatternSection(parts.wildcardBlock)
  {
    hide ToLe, PatternSection, Checksum, Flat, Header;
  }

  /** Reading what was written gives back the sections, for ascending hashes and valid
      patterns: the file format round trip. */
  lemma FileRoundTrip(parts: Parts)
    requires Encodable(parts)
    requires Ascending(parts.block) && Ascending(parts.allow) && Ascending(parts.important)
    requires forall h :: h in parts.block || h in parts.allow || h in parts.important ==> h < U64
    requires forall p :: p in parts.wildcardAllow || p in parts.wildcardBlock ==> IsValidPattern(p.glob)
    ensures ParseFile(FileOf(parts)) == Ok(parts)
  {
    hide ToLe, PatternSection, Checksum, Flat, Header, FromLe, ReadHeader, ParsePatterns, FileOf, IsValidPattern;
    var file, all := FileOf(parts), parts.block + parts.allow + parts.important;
    HeaderRoundTrip(parts);
    SectionsAt(parts);
    PatternRoundTrip(parts.wildcardAllow);
    PatternRoundTrip(parts.wildcardBlock);
    var b, a, i := |parts.block|, |parts.allow|, |parts.important|;
    HashesBack(file, HEADER_LEN, all, 0, b);
    HashesBack(file, HEADER_LEN, all, b, b + a);
    HashesBack(file, HEADER_LEN, all, b + a, b + a + i);
    assert all[0..b] == parts.block && all[b..b + a] == parts.allow && all[b + a..b + a + i] == parts.important;
  }
}
