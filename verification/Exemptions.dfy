/** Hosts that a list's blocks must leave alone (exempt.rs), and when a rule would block one. */
module Exemptions {
  import opened Bytes
  import opened Text
  import opened Glob
  import opened Patterns
  import opened RuleSyntax

  /** `domains` are the names of `*.name` patterns, `hosts` those of `name` patterns, and
      `ancestors` every name one of them is under. */
  datatype Exemption = Exemption(domains: set<Name>, hosts: set<Name>, ancestors: set<Name>)

  /** What one exemption pattern exempts: the name, and whether its subdomains too. */
  function ExemptName(pattern: Str): Option<(bool, Name)> {
    var trimmed := Trim(pattern);
    var under := StripPrefix(trimmed, Ascii("*."));
    var name := Lowercase(StripDot(if under.Some? then under.value else trimmed));
    if name == [] then None else Some((under.Some?, name))
  }

  /** The texts an exemption covers: its hosts, and its domains with everything under them. */
  ghost predicate IsExempt(ex: Exemption, text: Str) {
    text in ex.hosts || exists d :: d in ex.domains && IsSelfOrParent(text, d)
  }

  ghost predicate WellMade(ex: Exemption) {
    && (forall n :: n in ex.domains || n in ex.hosts ==> AllLower(n))
    && (forall a :: a in ex.ancestors <==> exists n :: (n in ex.domains || n in ex.hosts) && IsParent(n, a))
  }

  /** The names after the dots of `name`, from the dot at `i` on. */
  function ParentsFrom(name: Name, i: nat): (r: set<Name>)
    requires i <= |name|
    ensures forall a :: a in r <==> exists k :: i <= k < |name| && name[k] == DOT && name[k + 1..] == a
    decreases |name| - i
  {
    if i == |name| then {}
    else
      (if name[i] == DOT then {name[i + 1..]} else {}) + ParentsFrom(name, i + 1)
  }

  ghost predicate MadeFrom(ex: Exemption, patterns: seq<Str>) {
    && WellMade(ex)
    && (forall n :: n in ex.domains <==> exists p :: p in patterns && ExemptName(p) == Some((true, n)))
    && (forall n :: n in ex.hosts <==> exists p :: p in patterns && ExemptName(p) == Some((false, n)))
  }

  lemma AddName(ex: Exemption, name: Name, ex': Exemption)
    requires WellMade(ex) && AllLower(name)
    requires ex'.ancestors == ex.ancestors + ParentsFrom(name, 0)
    requires ex'.domains + ex'.hosts == ex.domains + ex.hosts + {name}
    ensures WellMade(ex')
  {
    assert forall n :: n in ex'.domains || n in ex'.hosts <==> n in ex'.domains + ex'.hosts;
    assert forall n :: n in ex'.domains + ex'.hosts <==> n in ex.domains || n in ex.hosts || n == name;
    forall a ensures a in ex'.ancestors <==> exists n :: (n in ex'.domains || n in ex'.hosts) && IsParent(n, a) {
      if a in ParentsFrom(name, 0) { assert IsParent(name, a); }
      if n :| (n in ex'.domains || n in ex'.hosts) && IsParent(n, a) {
        if n == name { assert a in ParentsFrom(name, 0); }
      }
    }
  }

  lemma MadeFromOneMore(ex: Exemption, patterns: seq<Str>, p: Str, ex': Exemption)
    requires MadeFrom(ex, patterns)
    requires match ExemptName(p)
             case None => ex' == ex
             case Some((domain, name)) =>
               ex' == Exemption(if domain then ex.domains + {name} else ex.domains,
                                if domain then ex.hosts else ex.hosts + {name},
                                ex.ancestors + ParentsFrom(name, 0))
    ensures MadeFrom(ex', patterns + [p])
  {
    hide ExemptName, WellMade;
    var more := patterns + [p];
    assert forall q :: q in more <==> q in patterns || q == p;
    match ExemptName(p) {
      case None =>
      case Some((domain, name)) =>
        ExemptNameLower(p);
        assert ex'.domains + ex'.hosts == ex.domains + ex.hosts + {name};
        AddName(ex, name, ex');
        assert p in more && ExemptName(p) == Some((domain, name));
        forall n ensures n in ex'.domains <==> exists q :: q in more && ExemptName(q) == Some((true, n)) {
          if n in ex.domains {
            var q :| q in patterns && ExemptName(q) == Some((true, n));
            assert q in more;
          }
        }
        forall n ensures n in ex'.hosts <==> exists q :: q in more && ExemptName(q) == Some((false, n)) {
          if n in ex.hosts {
            var q :| q in patterns && ExemptName(q) == Some((false, n));
            assert q in more;
          }
        }
    }
  }

  lemma ExemptNameLower(p: Str)
    requires ExemptName(p).Some?
    ensures AllLower(ExemptName(p).value.1)
  {
  }

  /** The pattern is written for this name: `*.` in front for the name and those below it, and perhaps a
      dot at the end. */
  ghost predicate WrittenFor(pattern: Str, domain: bool, written: Str) {
    var front: Str := if domain then [STAR, DOT] else [];
    && written != [] && (!domain ==> !([STAR, DOT] <= Trim(pattern)))
    && (Trim(pattern) == front + written + [DOT] || (Trim(pattern) == front + written && !EndsWith(written, [DOT])))
  }

  /** What a pattern exempts is the name it is written for, in lower case. */
  lemma ExemptNameIs(pattern: Str, domain: bool, name: Name)
    ensures ExemptName(pattern) == Some((domain, name)) <==>
            exists written :: WrittenFor(pattern, domain, written) && name == Lowercase(written)
  {
    hide ExemptName, WrittenFor;
    if ExemptName(pattern) == Some((domain, name)) {
      var written := ExemptWritten(pattern, domain, name);
    }
    forall written | WrittenFor(pattern, domain, written) && name == Lowercase(written)
      ensures ExemptName(pattern) == Some((domain, name))
    {
      WrittenIsExempt(pattern, domain, written);
    }
  }

  lemma StarDot()
    ensures Ascii("*.") == [STAR, DOT]
  {
  }

  /** The name before its dot and case are taken off. */
  lemma ExemptParts(pattern: Str, domain: bool, name: Name)
    requires ExemptName(pattern) == Some((domain, name))
    ensures domain <==> [STAR, DOT] <= Trim(pattern)
    ensures var rest := if domain then Trim(pattern)[2..] else Trim(pattern);
            StripDot(rest) != [] && name == Lowercase(StripDot(rest))
  {
    hide Trim, Ascii, StripDot;
    StarDot();
  }

  lemma ExemptWritten(pattern: Str, domain: bool, name: Name) returns (written: Str)
    requires ExemptName(pattern) == Some((domain, name))
    ensures WrittenFor(pattern, domain, written) && name == Lowercase(written)
  {
    hide ExemptName, Trim, StripDot, Lowercase, EndsWith;
    ExemptParts(pattern, domain, name);
    var trimmed := Trim(pattern);
    var rest := if domain then trimmed[2..] else trimmed;
    written := StripDot(rest);
    DotBack(rest);
    RestWritten(trimmed, domain, rest, written);
  }

  lemma DotBack(rest: Str)
    ensures rest == StripDot(rest) + [DOT] || (rest == StripDot(rest) && !EndsWith(rest, [DOT]))
  {
  }

  lemma RestWritten(trimmed: Str, domain: bool, rest: Str, written: Str)
    requires if domain then [STAR, DOT] <= trimmed && rest == trimmed[2..] else rest == trimmed
    requires rest == written + [DOT] || rest == written
    ensures var front: Str := if domain then [STAR, DOT] else [];
            trimmed == front + rest && (rest == written + [DOT] ==> trimmed == front + written + [DOT])
  {
  }

  lemma WrittenIsExempt(pattern: Str, domain: bool, written: Str)
    requires WrittenFor(pattern, domain, written)
    ensures ExemptName(pattern) == Some((domain, Lowercase(written)))
  {
    hide Trim, Ascii, StripDot, Lowercase;
    StarDot();
    var trimmed := Trim(pattern);
    WrittenRest(trimmed, domain, written);
    DotOff(if domain then trimmed[2..] else trimmed, written);
    assert |Lowercase(written)| == |written|;
  }

  lemma WrittenRest(trimmed: Str, domain: bool, written: Str)
    requires var front: Str := if domain then [STAR, DOT] else [];
             trimmed == front + written + [DOT] || trimmed == front + written
    ensures domain ==> [STAR, DOT] <= trimmed && (trimmed[2..] == written + [DOT] || trimmed[2..] == written)
    ensures domain && trimmed == [STAR, DOT] + written + [DOT] ==> trimmed[2..] == written + [DOT]
    ensures domain && trimmed == [STAR, DOT] + written ==> trimmed[2..] == written
    ensures !domain ==> [] + written + [DOT] == written + [DOT] && [] + written == written
  {
  }

  lemma DotOff(rest: Str, written: Str)
    requires rest == written + [DOT] || (rest == written && !EndsWith(written, [DOT]))
    ensures StripDot(rest) == written
  {
  }

  /** `Exemption::new`. */
  method NewExemption(patterns: seq<Str>) returns (ex: Exemption)
    ensures MadeFrom(ex, patterns)
  {
    hide MadeFrom, ExemptName;
    ex := Exemption({}, {}, {});
    var i := 0;
    MadeFromNone();
    while i < |patterns|
      invariant 0 <= i <= |patterns| && MadeFrom(ex, patterns[..i])
    {
      var before := ex;
      match ExemptName(patterns[i]) {
        case None =>
        case Some((domain, name)) =>
          var ancestors := ex.ancestors + ParentsFrom(name, 0);
          if domain {
            ex := Exemption(ex.domains + {name}, ex.hosts, ancestors);
          } else {
            ex := Exemption(ex.domains, ex.hosts + {name}, ancestors);
          }
      }
      MadeFromOneMore(before, patterns[..i], patterns[i], ex);
      assert patterns[..i + 1] == patterns[..i] + [patterns[i]];
      i := i + 1;
    }
    assert patterns[..i] == patterns;
  }

  lemma MadeFromNone()
    ensures MadeFrom(Exemption({}, {}, {}), [])
  {
  }

  // ----- the tests

  /** `covers_host`: `name` is an exempt host, an exempt domain or a name under one. */
  predicate CoversHost(ex: Exemption, name: Name) {
    || name in ex.hosts
    || name in ex.domains
    || exists i :: 0 <= i < |name| && name[i] == DOT && name[i + 1..] in ex.domains
  }

  /** `covers_subtree`: `name` is exempt, or an exempt name is under it. */
  predicate CoversSubtree(ex: Exemption, name: Name) {
    CoversHost(ex, name) || name in ex.ancestors
  }

  /** `matches_some_name_under`: the glob's tail and `.name` agree at the end. */
  predicate MatchesSomeNameUnder(glob: Str, name: Name) {
    var dotted := [DOT] + name;
    if STAR in glob then
      EndsWith(dotted, Tail(glob)) || EndsWith(Tail(glob), dotted)
    else
      EndsWith(glob, dotted)
  }

  /** The glob matches a name that `name` is under. */
  predicate MatchesAbove(glob: Str, name: Name) {
    exists i :: 0 <= i < |name| && name[i] == DOT && Matches(glob, name[i + 1..])
  }

  /** `covers_pattern`. */
  predicate CoversPattern(ex: Exemption, glob: Str, parents: bool) {
    || (exists name :: name in ex.domains &&
          (Matches(glob, name) || MatchesSomeNameUnder(glob, name) || (parents && MatchesAbove(glob, name))))
    || (exists name :: name in ex.hosts &&
          (Matches(glob, name) || (parents && MatchesAbove(glob, name))))
  }

  /** `Kind::covers_exempt`. */
  predicate CoversExempt(kind: Kind, name: Name, ex: Exemption) {
    match kind
    case Important => CoversSubtree(ex, name)
    case Block => CoversSubtree(ex, name)
    case ExactBlock => CoversHost(ex, name)
    case WildcardBlock => CoversPattern(ex, name, true)
    case ExactWildcardBlock => CoversPattern(ex, name, false)
    case _ => false
  }

  /** What a rule of this kind applies to, blocks and exceptions alike. */
  predicate RuleApplies(kind: Kind, name: Name, host: Str) {
    match kind
    case Important => IsSelfOrParent(host, name)
    case Allow => IsSelfOrParent(host, name)
    case Block => IsSelfOrParent(host, name)
    case ExactAllow => host == name
    case ExactBlock => host == name
    case WildcardAllow => PatternMatches(Pattern(name, true), host)
    case WildcardBlock => PatternMatches(Pattern(name, true), host)
    case ExactWildcardAllow => PatternMatches(Pattern(name, false), host)
    case ExactWildcardBlock => PatternMatches(Pattern(name, false), host)
  }

  /** What a block rule blocks (before exceptions). */
  predicate RuleBlocks(kind: Kind, name: Name, host: Str) {
    !kind.IsException() && RuleApplies(kind, name, host)
  }

  // ----- each test is exact

  /** Two names a text is under, itself included, are under one another. */
  lemma ParentsAreOrdered(t: Str, a: Str, b: Str)
    requires IsSelfOrParent(t, a) && IsSelfOrParent(t, b)
    ensures IsSelfOrParent(a, b) || IsParent(b, a)
  {
    var i, j := |t| - |a|, |t| - |b|;
    assert a == t[i..] && b == t[j..];
    if i < j {
      var k := j - i - 1;
      assert a[k] == DOT && a[k + 1..] == b;
    } else if j < i {
      var k := i - j - 1;
      assert b[k] == DOT && b[k + 1..] == a;
    }
  }

  lemma ParentOfParent(t: Str, a: Str, b: Str)
    requires IsParent(t, a) && IsSelfOrParent(a, b)
    ensures IsParent(t, b)
  {
    var i :| 0 <= i < |t| && t[i] == DOT && t[i + 1..] == a;
    if a != b {
      var j :| 0 <= j < |a| && a[j] == DOT && a[j + 1..] == b;
      SuffixOfSuffix(t, i + 1, j);
    }
  }

  lemma SuffixOfSuffix(t: Str, i: nat, j: nat)
    requires i + j < |t|
    ensures t[i + j] == t[i..][j] && t[i + j + 1..] == t[i..][j + 1..]
  {
  }

  lemma CoversHostExact(ex: Exemption, name: Name)
    ensures CoversHost(ex, name) <==> IsExempt(ex, name)
  {
    if i :| 0 <= i < |name| && name[i] == DOT && name[i + 1..] in ex.domains {
      assert IsSelfOrParent(name, name[i + 1..]);
    }
  }

  lemma CoversSubtreeExact(ex: Exemption, name: Name)
    requires WellMade(ex)
    ensures CoversSubtree(ex, name) <==> exists t :: IsExempt(ex, t) && IsSelfOrParent(t, name)
  {
    CoversHostExact(ex, name);
    if name in ex.ancestors {
      var n :| (n in ex.domains || n in ex.hosts) && IsParent(n, name);
      assert IsExempt(ex, n) && IsSelfOrParent(n, name);
    }
    if IsExempt(ex, name) {
      assert IsSelfOrParent(name, name);
    }
    if t :| IsExempt(ex, t) && IsSelfOrParent(t, name) {
      if t !in ex.hosts {
        var d :| d in ex.domains && IsSelfOrParent(t, d);
        ParentsAreOrdered(t, name, d);
      }
    }
  }

  /** The shortest text a glob matches: its literals. */
  function Literals(glob: Str): Str {
    if glob == [] then []
    else (if glob[0] == STAR then [] else [glob[0]]) + Literals(glob[1..])
  }

  lemma {:induction false} LiteralsMatch(glob: Str)
    requires AllLower(glob)
    ensures Matches(glob, Literals(glob))
  {
    if glob != [] {
      LiteralsMatch(glob[1..]);
      var rest := Literals(glob[1..]);
      if glob[0] == STAR {
        assert Literals(glob) == rest && rest[0..] == rest;
        assert Matches(glob[1..], rest[0..]);
      } else {
        assert ([glob[0]] + rest)[1..] == rest;
      }
    }
  }

  lemma StarTakesRest(front: Str, tail: Str, ending: Str)
    requires AllLower(front) && Literal(tail) && EndsWith(Lowercase(ending), tail)
    ensures Matches(front + ([STAR] + tail), Literals(front) + ending)
  {
    hide Matches, Literals;
    LiteralsMatch(front);
    var k := |ending| - |tail|;
    LowercaseSplit(ending, k);
    LiteralMatches(tail, ending[k..]);
    StarMatches(ending[..k]);
    MatchesJoin([STAR], ending[..k], tail, ending[k..]);
    assert ending == ending[..k] + ending[k..];
    MatchesJoin(front, Literals(front), [STAR] + tail, ending);
  }

  /** A glob with a `*` matches some text with any ending that agrees with its tail. */
  lemma EndsAnyWay(glob: Str, ending: Str)
    requires AllLower(glob) && STAR in glob
    requires EndsWith(Lowercase(ending), Tail(glob))
    ensures exists text :: EndsWith(text, ending) && Matches(glob, text)
  {
    hide Matches, Literals, AfterLastStar;
    var n := AfterLastStar(glob);
    StarBeforeTail(glob);
    var front, tail := glob[..n - 1], glob[n..];
    assert glob == front + ([STAR] + tail);
    StarTakesRest(front, tail, ending);
    var text := Literals(front) + ending;
    assert EndsWith(text, ending);
  }

  lemma StarBeforeTail(glob: Str)
    requires STAR in glob
    ensures AfterLastStar(glob) > 0
  {
    var i :| 0 <= i < |glob| && glob[i] == STAR;
    var n := AfterLastStar(glob);
    assert forall j :: n <= j < |glob| ==> glob[j] == glob[n..][j - n];
  }

  lemma BothEnd(s: Str, a: Str, b: Str)
    requires EndsWith(s, a) && EndsWith(s, b)
    ensures EndsWith(a, b) || EndsWith(b, a)
  {
    var i, j := |s| - |a|, |s| - |b|;
    if i <= j {
      assert a[j - i..] == s[i..][j - i..] == s[j..];
    } else {
      assert b[i - j..] == s[j..][i - j..] == s[i..];
    }
  }

  lemma EndsTransitive(s: Str, a: Str, b: Str)
    requires EndsWith(s, a) && EndsWith(a, b)
    ensures EndsWith(s, b)
  {
    var i := |s| - |a|;
    assert s[|s| - |b|..] == s[i..][|a| - |b|..];
  }

  /** The test holds exactly when some text ending in `.name` matches the glob. */
  lemma MatchesSomeNameUnderExact(glob: Str, name: Name)
    requires AllLower(glob) && AllLower(name)
    ensures MatchesSomeNameUnder(glob, name) <==>
            exists text :: EndsWith(text, [DOT] + name) && Matches(glob, text)
  {
    hide Matches, AfterLastStar;
    var dotted := [DOT] + name;
    assert Lowercase(dotted) == dotted;
    if MatchesSomeNameUnder(glob, name) {
      SomeNameUnder(glob, name);
    }
    if text :| EndsWith(text, dotted) && Matches(glob, text) {
      LowercaseSplit(text, |text| - |dotted|);
      assert EndsWith(Lowercase(text), dotted);
      if STAR in glob {
        var n := AfterLastStar(glob);
        assert glob == glob[..n] + glob[n..];
        LiteralTail(glob[..n], glob[n..], text);
        BothEnd(Lowercase(text), dotted, Tail(glob));
      } else {
        LiteralMatches(glob, text);
      }
    }
  }

  lemma SomeNameUnder(glob: Str, name: Name)
    requires AllLower(glob) && AllLower(name) && MatchesSomeNameUnder(glob, name)
    ensures exists text :: EndsWith(text, [DOT] + name) && Matches(glob, text)
  {
    hide Matches, AfterLastStar;
    var dotted := [DOT] + name;
    assert Lowercase(dotted) == dotted;
    if STAR !in glob {
      assert Lowercase(glob) == glob;
      LiteralMatches(glob, glob);
    } else if EndsWith(dotted, Tail(glob)) {
      EndsAnyWay(glob, dotted);
    } else {
      var tail := Tail(glob);
      assert Lowercase(tail) == tail;
      assert EndsWith(tail, tail);
      EndsAnyWay(glob, tail);
      var text :| EndsWith(text, tail) && Matches(glob, text);
      EndsTransitive(text, tail, dotted);
    }
  }

  /** Texts that end in `.name` are those under it. */
  lemma UnderIsParent(text: Str, name: Name)
    ensures EndsWith(text, [DOT] + name) <==> IsParent(text, name)
  {
    var dotted := [DOT] + name;
    if EndsWith(text, dotted) {
      var i := |text| - |dotted|;
      assert text[i] == text[i..][0] && text[i + 1..] == text[i..][1..];
    }
    if i :| 0 <= i < |text| && text[i] == DOT && text[i + 1..] == name {
      assert text[i..] == dotted;
    }
  }

  /** What a pattern of an exempt name covers: a text it matches. */
  lemma PatternCovers(ex: Exemption, p: Pattern)
    requires WellMade(ex) && AllLower(p.glob) && CoversPattern(ex, p.glob, p.parents)
    ensures exists t :: IsExempt(ex, t) && PatternMatches(p, t)
  {
    hide Matches, MatchesSomeNameUnder;
    if name :| name in ex.domains && MatchesSomeNameUnder(p.glob, name) {
      MatchesSomeNameUnderExact(p.glob, name);
      var text :| EndsWith(text, [DOT] + name) && Matches(p.glob, text);
      UnderIsParent(text, name);
      assert IsSelfOrParent(text, name);
      assert IsExempt(ex, text) && PatternMatches(p, text);
    } else {
      var name :| (name in ex.domains || name in ex.hosts)
          && (Matches(p.glob, name) || (p.parents && MatchesAbove(p.glob, name)));
      assert IsExempt(ex, name) by { assert IsSelfOrParent(name, name); }
      if !Matches(p.glob, name) { AboveMatches(p, name); }
      assert PatternMatches(p, name);
    }
  }

  /** A pattern that matches an exempt text, itself or by a parent, is covered. */
  lemma PatternCovered(ex: Exemption, p: Pattern, t: Str)
    requires WellMade(ex) && AllLower(p.glob) && IsExempt(ex, t) && PatternMatches(p, t)
    ensures CoversPattern(ex, p.glob, p.parents)
  {
    hide Matches, MatchesSomeNameUnder, MatchesAbove, WellMade;
    var m := t;
    if !Matches(p.glob, t) {
      var i :| 0 <= i < |t| && t[i] == DOT && Matches(p.glob, t[i + 1..]);
      m := t[i + 1..];
    }
    assert IsSelfOrParent(t, m);
    if t in ex.hosts {
      if m != t { AboveIs(p.glob, t, m); }
    } else {
      var d :| d in ex.domains && IsSelfOrParent(t, d);
      DomainCovered(ex, p.glob, t, d, m);
    }
  }

  /** A match at `m` of a text under the exempt domain `d` shows at `d`. */
  lemma DomainCovered(ex: Exemption, glob: Str, t: Str, d: Name, m: Str)
    requires WellMade(ex) && AllLower(glob) && d in ex.domains && IsSelfOrParent(t, d)
    requires IsSelfOrParent(t, m) && Matches(glob, m)
    ensures Matches(glob, d) || MatchesSomeNameUnder(glob, d) || (m != t && MatchesAbove(glob, d))
  {
    hide Matches, MatchesSomeNameUnder, MatchesAbove;
    ParentsAreOrdered(t, m, d);
    if IsParent(d, m) {
      NotSelf(t, d, m);
      AboveIs(glob, d, m);
    } else if m != d {
      UnderIsParent(m, d);
      MatchesSomeNameUnderExact(glob, d);
    }
  }

  lemma AboveMatches(p: Pattern, name: Name)
    requires p.parents && MatchesAbove(p.glob, name)
    ensures PatternMatches(p, name)
  {
  }

  lemma NotSelf(t: Str, d: Str, m: Str)
    requires IsSelfOrParent(t, d) && IsParent(d, m)
    ensures m != t
  {
    assert |m| < |d| <= |t|;
  }

  lemma AboveIs(glob: Str, name: Name, m: Str)
    requires IsParent(name, m) && Matches(glob, m)
    ensures MatchesAbove(glob, name)
  {
  }

  /** A rule is left out exactly when it would block some exempt text. */
  lemma CoversExemptExact(kind: Kind, name: Name, ex: Exemption)
    requires WellMade(ex) && StoredRule(kind, name)
    ensures CoversExempt(kind, name, ex) <==> exists t :: IsExempt(ex, t) && RuleBlocks(kind, name, t)
  {
    hide Matches, CoversPattern, CoversHost, CoversSubtree, PatternMatches, IsValidPattern;
    match kind {
      case Important => CoversSubtreeExact(ex, name);
      case Block => CoversSubtreeExact(ex, name);
      case ExactBlock => CoversHostExact(ex, name);
      case WildcardBlock => PatternCoversExact(ex, Pattern(name, true));
      case ExactWildcardBlock => PatternCoversExact(ex, Pattern(name, false));
      case _ =>
    }
  }

  lemma PatternCoversExact(ex: Exemption, p: Pattern)
    requires WellMade(ex) && IsValidPattern(p.glob)
    ensures CoversPattern(ex, p.glob, p.parents) <==> exists t :: IsExempt(ex, t) && PatternMatches(p, t)
  {
    hide Matches, CoversPattern, PatternMatches, IsValidPattern;
    PatternBytes(p.glob);
    if CoversPattern(ex, p.glob, p.parents) { PatternCovers(ex, p); }
    if t :| IsExempt(ex, t) && PatternMatches(p, t) { PatternCovered(ex, p, t); }
  }
}
