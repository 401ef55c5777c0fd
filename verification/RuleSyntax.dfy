/** The rule syntax of filter lists (domain_rules.rs): names, wildcard patterns and lines. */
module RuleSyntax {
  import opened Bytes
  import opened Text
  import opened Glob
  import opened Patterns

  type Name = seq<byte>

  datatype Kind =
    | Important
    | Allow
    | Block
    | ExactAllow
    | ExactBlock
    | WildcardAllow
    | ExactWildcardAllow
    | WildcardBlock
    | ExactWildcardBlock
  {
    predicate IsPattern() { WildcardAllow? || ExactWildcardAllow? || WildcardBlock? || ExactWildcardBlock? }
    predicate IsException() { Allow? || ExactAllow? || WildcardAllow? || ExactWildcardAllow? }
  }

  datatype Line =
    | Comment
    | Skip
    | Rule(kind: Kind, name: Name, badfilter: bool)

  // ----- names

  predicate IsNameByte(b: byte) { IsUpper(b) || IsLower(b) || IsDigit(b) || b == 45 || b == 95 }

  predicate IsPatternByte(b: byte) { IsLower(b) || IsDigit(b) || b == 45 || b == 95 || b == STAR }

  predicate AllDigits(s: Str) { forall b :: b in s ==> IsDigit(b) }

  predicate NameLabel(l: Str) {
    1 <= |l| <= 63 && forall b :: b in l ==> IsNameByte(b)
  }

  predicate PatternLabel(l: Str) {
    1 <= |l| <= 63 && forall b :: b in l ==> IsPatternByte(b)
  }

  function Last(labels: seq<Str>): Str
    requires labels != []
  {
    labels[|labels| - 1]
  }

  /** A host name DNS asks for: dotted labels of 1 to 63 letters, digits, `-` and `_`, at most
      253 bytes, the last label not all digits. */
  predicate IsHostName(name: Str) {
    var labels := Split(name, DOT);
    && |name| <= 253
    && DOT in name
    && (forall l :: l in labels ==> NameLabel(l))
    && !AllDigits(Last(labels))
  }

  /** `normalize_name`. */
  function NormalizeName(name: Str): Option<Name> {
    var bare := StripDot(name);
    if IsHostName(bare) then Some(Lowercase(bare)) else None
  }

  /** A name as it is stored: one that normalizing leaves as it is. */
  predicate StoredName(name: Name) { NormalizeName(name) == Some(name) }

  /** `is_valid_pattern`. */
  predicate IsValidPattern(glob: Str) {
    var labels := Split(glob, DOT);
    && |glob| <= 253
    && DOT in glob
    && !(forall b :: b in glob ==> b == STAR || b == DOT)
    && (forall l :: l in labels ==> PatternLabel(l))
    && !AllDigits(Last(labels))
  }

  predicate IsUnkeyed(glob: Str) {
    StartsWith(glob, [STAR]) && EndsWith(glob, [STAR])
  }

  /** A stored name is a lowercase host name without a trailing dot. */
  lemma StoredIsHostName(name: Name)
    ensures StoredName(name) <==> IsHostName(name) && StripDot(name) == name && Lowercase(name) == name
  {
    hide IsHostName;
    if StoredName(name) { assert |StripDot(name)| == |name|; }
  }

  lemma StoredBytes(name: Name)
    requires StoredName(name)
    ensures DOT in name && AllLower(name) && forall b :: b in name ==> b == DOT || IsNameByte(b)
  {
    StoredIsHostName(name);
    SplitBytes(name, DOT);
    assert forall i :: 0 <= i < |name| ==> Lowercase(name)[i] == Lower(name[i]);
  }

  lemma PatternBytes(glob: Str)
    requires IsValidPattern(glob)
    ensures DOT in glob && forall b :: b in glob ==> b == DOT || IsPatternByte(b)
    ensures AllLower(glob) && NEWLINE !in glob && PIPE !in glob
  {
    SplitBytes(glob, DOT);
    assert forall i :: 0 <= i < |glob| ==> glob[i] in glob;
  }

  /** An unkeyed pattern is exactly one without a literal head and tail. */
  lemma UnkeyedHasNoKey(glob: Str)
    requires IsValidPattern(glob)
    ensures IsUnkeyed(glob) <==> Head(glob) == [] && Tail(glob) == []
  {
    hide IsValidPattern;
    assert glob != [] by { PatternBytes(glob); }
    assert FirstStar(glob) == 0 <==> glob[0] == STAR;
    assert StartsWith(glob, [STAR]) <==> glob[0] == STAR;
    assert EndsWith(glob, [STAR]) <==> glob[|glob| - 1] == STAR;
    if AfterLastStar(glob) < |glob| {
      assert glob[AfterLastStar(glob)..][|glob| - 1 - AfterLastStar(glob)] != STAR;
    }
  }

  // ----- wildcard patterns

  function StripCaret(s: Str): Option<Str> {
    var both := StripSuffix(s, Ascii("^|"));
    if both.Some? then both else StripSuffix(s, Ascii("^"))
  }

  /** `wildcard_domain`: the name of `*.name`, `*.name^` or `*.name^|` without another `*`. */
  function WildcardDomain(pattern: Str): Option<Str> {
    match StripPrefix(pattern, Ascii("*."))
    case None => None
    case Some(rest) =>
      var bare := StripCaret(rest);
      var name := if bare.Some? then bare.value else rest;
      if STAR in name then None else Some(name)
  }

  /** Where a rule's match may start. */
  datatype Anchor = AtLabel | AtHost | Anywhere

  function StartAnchor(pattern: Str): (Anchor, Str) {
    var double := StripPrefix(pattern, Ascii("||"));
    if double.Some? then (AtLabel, double.value)
    else
      var scheme := StripPrefix(pattern, Ascii("://"));
      if scheme.Some? then (AtHost, scheme.value)
      else
        var bar := StripPrefix(pattern, Ascii("|"));
        if bar.Some? then (AtHost, bar.value) else (Anywhere, pattern)
  }

  /** Whether a rule's match must end with the host, and the body without the caret. */
  function EndAnchor(rest: Str): (bool, Str) {
    match StripCaret(rest)
    case Some(name) => (true, StripDot(name))
    case None => (false, rest)
  }

  /** Runs of `*` merged, the rest lowercased. */
  function Merge(glob: Str): Str {
    if glob == [] then []
    else
      var front := Merge(glob[..|glob| - 1]);
      var c := glob[|glob| - 1];
      if c != STAR || !EndsWith(front, [STAR]) then front + [Lower(c)] else front
  }

  /** The loop of `wildcard_pattern` that merges and lowercases. */
  method MergeStars(glob: Str) returns (merged: Str)
    ensures merged == Merge(glob)
  {
    merged := [];
    var i := 0;
    while i < |glob|
      invariant 0 <= i <= |glob| && merged == Merge(glob[..i])
    {
      assert glob[..i + 1][..i] == glob[..i];
      if glob[i] != STAR || !EndsWith(merged, [STAR]) {
        merged := merged + [Lower(glob[i])];
      }
      i := i + 1;
    }
    assert glob[..i] == glob;
  }

  /** The glob before merging: a leading `*` without an anchor, a trailing one without a caret. */
  function OpenGlob(pattern: Str): Str {
    var (anchor, rest) := StartAnchor(pattern);
    var (closed, body) := EndAnchor(rest);
    (if anchor == Anywhere then [STAR] else []) + body + (if closed then [] else [STAR])
  }

  /** `wildcard_pattern`: the pattern for the host part of a rule whose name has a `*`. */
  function WildcardPattern(pattern: Str): Option<Pattern> {
    var merged := Merge(OpenGlob(pattern));
    if IsValidPattern(merged) then Some(Pattern(merged, StartAnchor(pattern).0 == AtLabel)) else None
  }

  predicate StartsRight(anchor: Anchor, host: Str, i: int)
    requires 0 <= i <= |host|
  {
    match anchor
    case AtLabel => i == 0 || host[i - 1] == DOT
    case AtHost => i == 0
    case Anywhere => true
  }

  /** What the rule means for a host: its body, read in either case with `*` for any run,
      covers a part of the host that starts and ends where the anchors allow. */
  ghost predicate RuleMatches(pattern: Str, host: Str) {
    var (anchor, rest) := StartAnchor(pattern);
    var (closed, body) := EndAnchor(rest);
    exists i, j :: 0 <= i <= j <= |host|
      && StartsRight(anchor, host, i)
      && (closed ==> j == |host|)
      && Matches(Lowercase(body), host[i..j])
  }

  // ----- merging changes no match

  lemma DoubleStar(front: Str, text: Str)
    requires EndsWith(front, [STAR])
    ensures Matches(front + [STAR], text) <==> Matches(front, text)
  {
    hide Matches;
    var f := front[..|front| - 1];
    assert front == f + [STAR];
    if Matches(front + [STAR], text) {
      assert front + [STAR] == f + ([STAR] + [STAR]);
      MatchesSplit(f, [STAR] + [STAR], text);
      var k :| 0 <= k <= |text| && Matches(f, text[..k]) && Matches([STAR] + [STAR], text[k..]);
      StarMatches(text[k..]);
      MatchesJoin(f, text[..k], [STAR], text[k..]);
      assert text == text[..k] + text[k..];
    }
    if Matches(front, text) {
      StarMatches([]);
      MatchesJoin(front, text, [STAR], []);
      assert text + [] == text;
    }
  }

  lemma AppendByte(a: Str, b: Str, c: byte, text: Str)
    requires forall t :: Matches(a, t) <==> Matches(b, t)
    ensures Matches(a + [c], text) <==> Matches(b + [c], text)
  {
    hide Matches;
    if Matches(a + [c], text) {
      MatchesSplit(a, [c], text);
      var k :| 0 <= k <= |text| && Matches(a, text[..k]) && Matches([c], text[k..]);
      MatchesJoin(b, text[..k], [c], text[k..]);
      assert text == text[..k] + text[k..];
    }
    if Matches(b + [c], text) {
      MatchesSplit(b, [c], text);
      var k :| 0 <= k <= |text| && Matches(b, text[..k]) && Matches([c], text[k..]);
      MatchesJoin(a, text[..k], [c], text[k..]);
      assert text == text[..k] + text[k..];
    }
  }

  /** Merging runs of `*` and lowercasing keep the language. */
  lemma {:induction false} MergeMatches(glob: Str, text: Str)
    ensures Matches(Merge(glob), text) <==> Matches(Lowercase(glob), text)
    decreases |glob|
  {
    hide Matches;
    if glob != [] {
      var n := |glob| - 1;
      var front, c := Merge(glob[..n]), glob[n];
      forall t ensures Matches(front, t) <==> Matches(Lowercase(glob[..n]), t) { MergeMatches(glob[..n], t); }
      assert Lowercase(glob) == Lowercase(glob[..n]) + [Lower(c)];
      AppendByte(front, Lowercase(glob[..n]), Lower(c), text);
      if c == STAR && EndsWith(front, [STAR]) {
        DoubleStar(front, text);
      }
    } else {
      assert Lowercase(glob) == glob;
    }
  }

  // ----- the translation means what the rule means

  /** An open end is a trailing `*`: some prefix matches the body. */
  lemma OpenEnd(body: Str, text: Str)
    ensures Matches(body + [STAR], text) <==> exists j :: 0 <= j <= |text| && Matches(body, text[..j])
  {
    hide Matches;
    if Matches(body + [STAR], text) {
      MatchesSplit(body, [STAR], text);
    }
    if j :| 0 <= j <= |text| && Matches(body, text[..j]) {
      StarMatches(text[j..]);
      MatchesJoin(body, text[..j], [STAR], text[j..]);
      assert text == text[..j] + text[j..];
    }
  }

  /** No start anchor is a leading `*`: some suffix matches the rest. */
  lemma OpenStart(glob: Str, text: Str)
    ensures Matches([STAR] + glob, text) <==> exists i :: 0 <= i <= |text| && Matches(glob, text[i..])
  {
    assert ([STAR] + glob)[1..] == glob;
  }

  /** The part of the host from `i` on matches the body, up to its end or anywhere. */
  ghost predicate EndsRight(body: Str, closed: bool, host: Str, i: int)
    requires 0 <= i <= |host|
  {
    exists j :: i <= j <= |host| && (closed ==> j == |host|) && Matches(Lowercase(body), host[i..j])
  }

  lemma EndsRightIs(body: Str, closed: bool, host: Str, i: int)
    requires 0 <= i <= |host|
    ensures EndsRight(body, closed, host, i) <==>
            Matches(Lowercase(body + (if closed then [] else [STAR])), host[i..])
  {
    hide Matches;
    assert host[i..|host|] == host[i..];
    if closed {
      assert body + [] == body;
    } else {
      assert Lowercase(body + [STAR]) == Lowercase(body) + [STAR];
      OpenEnd(Lowercase(body), host[i..]);
      assert forall j :: i <= j <= |host| ==> host[i..][..j - i] == host[i..j];
      if EndsRight(body, closed, host, i) {
        var j :| i <= j <= |host| && Matches(Lowercase(body), host[i..j]);
        assert Matches(Lowercase(body), host[i..][..j - i]);
      }
      if k :| 0 <= k <= |host[i..]| && Matches(Lowercase(body), host[i..][..k]) {
        assert host[i..][..k] == host[i..k + i];
      }
    }
  }

  /** Where the rule may start, in terms of what follows. */
  lemma RuleMatchesFrom(pattern: Str, host: Str)
    ensures var (anchor, rest) := StartAnchor(pattern);
            var (closed, body) := EndAnchor(rest);
            RuleMatches(pattern, host) <==>
            exists i :: 0 <= i <= |host|
              && StartsRight(anchor, host, i)
              && EndsRight(body, closed, host, i)
  {
    hide Matches, StartAnchor, EndAnchor, StartsRight;
    var (anchor, rest) := StartAnchor(pattern);
    var (closed, body) := EndAnchor(rest);
    if RuleMatches(pattern, host) {
      var i, j :| 0 <= i <= j <= |host| && StartsRight(anchor, host, i) && (closed ==> j == |host|)
                  && Matches(Lowercase(body), host[i..j]);
      assert EndsRight(body, closed, host, i);
    }
    if i :| 0 <= i <= |host| && StartsRight(anchor, host, i) && EndsRight(body, closed, host, i) {
      var j :| i <= j <= |host| && (closed ==> j == |host|) && Matches(Lowercase(body), host[i..j]);
    }
  }

  /** A translated wildcard rule matches a host (for `||` also by a parent) exactly when the
      rule does, anchors included. */
  lemma WildcardPatternMeaning(pattern: Str, host: Str)
    requires WildcardPattern(pattern).Some?
    ensures PatternMatches(WildcardPattern(pattern).value, host) <==> RuleMatches(pattern, host)
  {
    hide Matches, StartAnchor, EndAnchor, IsValidPattern, EndsRight, RuleMatches, Merge;
    var (anchor, rest) := StartAnchor(pattern);
    var (closed, body) := EndAnchor(rest);
    var tail := body + (if closed then [] else [STAR]);
    var p := WildcardPattern(pattern).value;
    RuleMatchesFrom(pattern, host);
    forall i | 0 <= i <= |host|
      ensures EndsRight(body, closed, host, i) <==> Matches(Lowercase(tail), host[i..])
    {
      EndsRightIs(body, closed, host, i);
    }
    forall t ensures Matches(p.glob, t) <==> Matches(Lowercase(OpenGlob(pattern)), t) {
      MergeMatches(OpenGlob(pattern), t);
    }
    assert host[0..] == host;
    if anchor == Anywhere {
      assert OpenGlob(pattern) == [STAR] + tail;
      assert Lowercase([STAR] + tail) == [STAR] + Lowercase(tail);
      OpenStart(Lowercase(tail), host);
    } else {
      assert OpenGlob(pattern) == tail;
      if anchor == AtLabel {
        LabelStarts(Lowercase(tail), p, host);
      }
    }
  }

  lemma LabelStarts(glob: Str, p: Pattern, host: Str)
    requires p.parents && forall t :: Matches(p.glob, t) <==> Matches(glob, t)
    ensures PatternMatches(p, host) <==>
            exists i :: 0 <= i <= |host| && (i == 0 || host[i - 1] == DOT) && Matches(glob, host[i..])
  {
    hide Matches;
    assert host[0..] == host;
    if PatternMatches(p, host) && !Matches(p.glob, host) {
      var k :| 0 <= k < |host| && host[k] == DOT && Matches(p.glob, host[k + 1..]);
      var i := k + 1;
      assert host[i - 1] == DOT && Matches(glob, host[i..]);
    }
    if i :| 0 <= i <= |host| && (i == 0 || host[i - 1] == DOT) && Matches(glob, host[i..]) {
      if i > 0 {
        var k := i - 1;
        assert host[k] == DOT && Matches(p.glob, host[k + 1..]);
      }
    }
  }

  // ----- lines

  /** The options of a rule: whether `important` and `badfilter` are among them, or `None` when
      any other is. */
  function ParseOptions(options: seq<Str>, important: bool, badfilter: bool): Option<(bool, bool)> {
    if options == [] then Some((important, badfilter))
    else
      var option := Trim(options[0]);
      if option == Ascii("important") then ParseOptions(options[1..], true, badfilter)
      else if option == Ascii("badfilter") then ParseOptions(options[1..], important, true)
      else None
  }

  /** The name of a rule without a `*`, and whether it is for that host only. */
  function PlainName(pattern: Str): Option<(bool, Str)> {
    if StartsWith(pattern, Ascii("||")) then
      var rest := pattern[2..];
      var closed := StripCaret(rest);
      if closed.Some? then Some((false, closed.value))
      else if EndsWith(rest, [DOT]) then None
      else Some((false, rest))
    else if StartsWith(pattern, [DOT]) then
      var name := StripSuffix(pattern[1..], Ascii("^"));
      if name.Some? then Some((false, name.value)) else None
    else if StartsWith(pattern, [PIPE]) then
      var name := StripCaret(pattern[1..]);
      if name.Some? then Some((true, name.value)) else None
    else if StartsWith(pattern, Ascii("://")) then
      var name := StripCaret(pattern[3..]);
      if name.Some? then Some((true, name.value)) else None
    else if pattern != [] && (IsUpper(pattern[0]) || IsLower(pattern[0]) || IsDigit(pattern[0])) then
      var name := StripCaret(pattern);
      if name.Some? then Some((false, name.value)) else None
    else None
  }

  function SubtreeKind(exception: bool, important: bool): Kind {
    if exception then Allow else if important then Important else Block
  }

  /** The rule of a line once its exception mark and options are known. */
  function ParseRule(pattern: Str, exception: bool, important: bool, badfilter: bool): Line {
    var domain := WildcardDomain(pattern);
    if domain.Some? then
      match NormalizeName(domain.value)
      case None => Skip
      case Some(name) => Rule(SubtreeKind(exception, important), name, badfilter)
    else if STAR in pattern then
      match WildcardPattern(pattern)
      case None => Skip
      case Some(p) =>
        if exception then Rule(if p.parents then WildcardAllow else ExactWildcardAllow, p.glob, badfilter)
        else if important then Skip
        else Rule(if p.parents then WildcardBlock else ExactWildcardBlock, p.glob, badfilter)
    else
      match PlainName(pattern)
      case None => Skip
      case Some((exact, written)) =>
        match NormalizeName(written)
        case None => Skip
        case Some(name) =>
          if !exact then Rule(SubtreeKind(exception, important), name, badfilter)
          else if exception then Rule(ExactAllow, name, badfilter)
          else if important then Skip
          else Rule(ExactBlock, name, badfilter)
  }

  /** `parse_adblock_line`. */
  function ParseAdblockLine(text: Str): Line {
    var line := Trim(text);
    if line == [] || line[0] == 33 || line[0] == 35 || line[0] == 91 then Comment
    else
      var marked := StripPrefix(line, Ascii("@@"));
      var rule := if marked.Some? then marked.value else line;
      var dollar := IndexOf(rule, 36);
      var options := if dollar < |rule| then Split(rule[dollar + 1..], 44) else [];
      match ParseOptions(options, false, false)
      case None => Skip
      case Some((important, badfilter)) =>
        ParseRule(rule[..dollar], marked.Some?, important, badfilter)
  }

  /** What every rule taken from a line looks like. */
  predicate StoredRule(kind: Kind, name: Name) {
    if kind.IsPattern() then IsValidPattern(name) else StoredName(name)
  }

  /** Whatever a line says, the rule taken from it is in the stored form. */
  lemma ParsedLineIsStored(text: Str)
    ensures var line := ParseAdblockLine(text);
            line.Rule? ==> StoredRule(line.kind, line.name)
  {
    hide NormalizeName, IsValidPattern, StoredName, Trim, ParseOptions, Split, IndexOf, WildcardDomain, PlainName;
    forall name | NormalizeName(name).Some? ensures StoredName(NormalizeName(name).value) {
      NormalizedIsStored(name);
    }
  }

  /** What normalizing gives is stored: it normalizes to itself. */
  lemma NormalizedIsStored(name: Str)
    requires NormalizeName(name).Some?
    ensures StoredName(NormalizeName(name).value)
  {
    NormalizeIdempotent(name);
  }

  /** `normalize_name` gives a fixed point of itself. */
  lemma NormalizeIdempotent(name: Str)
    requires NormalizeName(name).Some?
    ensures NormalizeName(NormalizeName(name).value) == NormalizeName(name)
  {
    var bare := StripDot(name);
    var low := Lowercase(bare);
    LowercaseSplitDots(bare);
    var labels, lows := Split(bare, DOT), Split(low, DOT);
    forall l | l in lows ensures NameLabel(l) {
      var k :| 0 <= k < |lows| && lows[k] == l;
      LowercaseLabel(labels[k]);
    }
    LowercaseLabel(Last(labels));
    assert Last(lows) == Lowercase(Last(labels));
    assert DOT in low by {
      var i :| 0 <= i < |bare| && bare[i] == DOT;
      assert low[i] == DOT;
    }
    NoTrailingDot(low);
    assert Lowercase(low) == low;
  }

  lemma LowercaseLabel(l: Str)
    ensures NameLabel(l) ==> NameLabel(Lowercase(l))
    ensures AllDigits(Lowercase(l)) <==> AllDigits(l)
  {
    var low := Lowercase(l);
    assert forall i :: 0 <= i < |l| ==> l[i] in l && low[i] in low;
    if NameLabel(l) {
      forall b | b in low ensures IsNameByte(b) {
        var i :| 0 <= i < |low| && low[i] == b;
      }
    }
    if AllDigits(low) {
      forall b | b in l ensures IsDigit(b) {
        var i :| 0 <= i < |l| && l[i] == b;
      }
    }
    if AllDigits(l) {
      forall b | b in low ensures IsDigit(b) {
        var i :| 0 <= i < |low| && low[i] == b;
      }
    }
  }

  lemma {:induction false} LowercaseIndexOf(s: Str)
    ensures IndexOf(Lowercase(s), DOT) == IndexOf(s, DOT)
  {
    if s != [] {
      LowercaseIndexOf(s[1..]);
      LowercaseSplit(s, 1);
    }
  }

  function LowercaseAll(labels: seq<Str>): seq<Str> {
    seq(|labels|, k requires 0 <= k < |labels| => Lowercase(labels[k]))
  }

  lemma LowercaseFirst(first: Str, rest: seq<Str>)
    ensures LowercaseAll([first] + rest) == [Lowercase(first)] + LowercaseAll(rest)
  {
    hide Lowercase;
  }

  lemma LowercaseNone()
    ensures LowercaseAll([]) == []
  {
  }

  lemma {:induction false} LowercaseSplitDots(s: Str)
    ensures Split(Lowercase(s), DOT) == LowercaseAll(Split(s, DOT))
    decreases |s|
  {
    hide IndexOf, Lowercase, LowercaseAll;
    LowercaseIndexOf(s);
    var n := IndexOf(s, DOT);
    if n < |s| {
      var rest := s[n + 1..];
      LowercaseSplitDots(rest);
      LowercaseSplit(s, n);
      LowercaseSplit(s, n + 1);
      assert Split(Lowercase(s), DOT) == [Lowercase(s)[..n]] + Split(Lowercase(s)[n + 1..], DOT);
      LowercaseFirst(s[..n], Split(rest, DOT));
    } else {
      LowercaseNone();
      LowercaseFirst(s, []);
      assert [s] + [] == [s];
    }
  }

  /** A name whose labels are not empty does not end in a dot. */
  lemma {:induction false} NoTrailingDot(s: Str)
    requires forall l :: l in Split(s, DOT) ==> l != []
    ensures StripDot(s) == s && s != []
    decreases |s|
  {
    var n := IndexOf(s, DOT);
    if n < |s| {
      var rest := s[n + 1..];
      assert Split(s, DOT) == [s[..n]] + Split(rest, DOT);
      assert forall l :: l in Split(rest, DOT) ==> l in Split(s, DOT);
      NoTrailingDot(rest);
      assert s[|s| - 1] == rest[|rest| - 1];
      assert rest[|rest| - 1..] == [rest[|rest| - 1]] && s[|s| - 1..] == [s[|s| - 1]];
    } else {
      assert s in Split(s, DOT);
      assert s[|s| - 1..] == [s[|s| - 1]];
      assert s[|s| - 1] in s[..n];
    }
  }
}
