/** What lists say (domain_rules.rs), from their lines to the decision for a host, without going through
    the parser: the rules their lines are written as, and which of them apply. */
module ListMeaning {
  import opened Bytes
  import opened Text
  import opened Glob
  import opened Patterns
  import opened RuleSyntax
  import opened RuleLines
  import opened Exemptions
  import opened RuleBuilder
  import opened RuleLists

  // ----- what a written rule applies to

  /** The host is the name or below it. */
  ghost predicate NameOrBelow(host: Str, name: Name) {
    host == name || exists i :: 0 <= i < |host| && host[i] == DOT && host[i + 1..] == name
  }

  /** A part of the host, from where the start allows to where the end allows, matches the name in lower
      case with `*` for any run. */
  ghost predicate PartMatches(w: Written, host: Str, i: nat, j: nat)
    requires i <= j <= |host|
  {
    && (match w.start
        case Bars => i == 0 || host[i - 1] == DOT
        case Bare => true
        case _ => i == 0)
    && (w.end != Open ==> j == |host|)
    && Matches(Lowercase(if w.end == Open then w.name else StripDot(w.name)), host[i..j])
  }

  /** What a rule covers: its one host, its name and the names below it, or what its pattern matches. */
  ghost predicate Covers(w: Written, host: Str) {
    if NamesHost(w) then
      var name := Lowercase(StripDot(w.name));
      if OneHost(w) then host == name else NameOrBelow(host, name)
    else
      exists i, j :: 0 <= i <= j <= |host| && PartMatches(w, host, i, j)
  }

  lemma MatchesWritten(w: Written, host: Str)
    requires HasGlob(w)
    ensures RuleMatches(Body(w), host) <==> exists i, j :: 0 <= i <= j <= |host| && PartMatches(w, host, i, j)
  {
    hide IsValidPattern, Matches, StartAnchor, StripCaret, GlobOf;
    NameBytes(w);
    var body, rest := Body(w), w.name + EndText(w.end);
    assert body == StartText(w.start) + rest;
    AnchorRead(w, rest);
    CaretRead(w.name, w.end);
    if w.end == Open { assert rest == w.name; }
    hide Body, StartText, EndText;
    assert forall i: nat, j: nat :: i <= j <= |host| ==>
      (PartMatches(w, host, i, j) <==>
         && StartsRight(StartAnchor(body).0, host, i) && (w.end != Open ==> j == |host|)
         && Matches(Lowercase(EndAnchor(rest).1), host[i..j]));
  }

  /** The rule that a line gives applies exactly to what it covers. */
  lemma RuleCovers(w: Written, host: Str)
    requires GivesRule(w)
    ensures RuleApplies(KindOf(w), NameOf(w), host) <==> Covers(w, host)
  {
    hide IsValidPattern, Matches, GlobOf, Body, NormalizeName, KnownOptions, SaysImportant, PartMatches, RuleMatches,
         WildcardPattern, PatternMatches;
    if !NamesHost(w) {
      MatchesWritten(w, host);
      GlobRead(w);
      WildcardPatternMeaning(Body(w), host);
    }
  }

  // ----- hosts lines

  /** A number in decimal, without leading zeros. */
  function Decimal(n: nat): Str { if n < 10 then [48 + n] else Decimal(n / 10) + [48 + n % 10] }

  function Quad(a: nat, b: nat, c: nat, d: nat): Str { Join([Decimal(a), Decimal(b), Decimal(c), Decimal(d)], DOT) }

  lemma {:induction false} DecimalRead(n: nat)
    ensures AllDigits(Decimal(n)) && DecimalOf(Decimal(n)) == n && Decimal(n) != []
    ensures |Decimal(n)| > 1 ==> Decimal(n)[0] != 48
    ensures n < 10 ==> |Decimal(n)| == 1
    ensures n < 100 ==> |Decimal(n)| <= 2
    ensures n < 1000 ==> |Decimal(n)| <= 3
  {
    var s := Decimal(n);
    if n < 10 {
      assert s[..0] == [];
    } else {
      DecimalRead(n / 10);
      assert s[..|s| - 1] == Decimal(n / 10);
      assert Decimal(n / 10)[0] != 48 by { if n / 10 < 10 { assert Decimal(n / 10) == [48 + n / 10]; } }
    }
  }

  lemma {:induction false} DecimalBack(s: Str)
    requires s != [] && AllDigits(s) && (|s| > 1 ==> s[0] != 48)
    ensures DecimalOf(s) >= 0 && Decimal(DecimalOf(s)) == s && (s[0] != 48 ==> DecimalOf(s) > 0)
  {
    var n := |s| - 1;
    assert s == s[..n] + [s[n]] && s[n] in s;
    if n == 0 {
      assert DecimalOf(s[..0]) == 0;
    } else {
      assert s[..n][0] == s[0];
      DecimalBack(s[..n]);
      var front, digit: int := DecimalOf(s[..n]), s[n];
      assert DecimalOf(s) == 10 * front + (digit - 48) && 0 <= digit - 48 < 10;
      assert DecimalOf(s) / 10 == front && DecimalOf(s) % 10 == digit - 48;
    }
  }

  lemma OctetIs(s: Str)
    ensures IsOctet(s) <==> exists n :: 0 <= n < 256 && s == Decimal(n)
  {
    if IsOctet(s) { DecimalBack(s); }
    if n :| 0 <= n < 256 && s == Decimal(n) { DecimalRead(n); }
  }

  lemma NumberOf(s: Str) returns (n: nat)
    requires IsOctet(s)
    ensures n < 256 && s == Decimal(n)
  {
    OctetIs(s);
    n :| 0 <= n < 256 && s == Decimal(n);
  }

  /** A field is an address exactly when it is a dotted quad or holds a colon. */
  lemma AddressExactly(s: Str)
    ensures IsAddress(s) <==>
            || 58 in s
            || exists a, b, c, d ::
                 0 <= a < 256 && 0 <= b < 256 && 0 <= c < 256 && 0 <= d < 256 && s == Quad(a, b, c, d)
  {
    hide IsOctet, Split, Join, Decimal;
    if IsIpv4(s) {
      var p := Split(s, DOT);
      JoinSplit(s, DOT);
      var a := NumberOf(p[0]);
      var b := NumberOf(p[1]);
      var c := NumberOf(p[2]);
      var d := NumberOf(p[3]);
      assert p == [p[0], p[1], p[2], p[3]];
      assert s == Quad(a, b, c, d);
    }
    if a, b, c, d :| 0 <= a < 256 && 0 <= b < 256 && 0 <= c < 256 && 0 <= d < 256 && s == Quad(a, b, c, d) {
      QuadIs(a, b, c, d);
    }
  }

  lemma QuadIs(a: nat, b: nat, c: nat, d: nat)
    requires a < 256 && b < 256 && c < 256 && d < 256
    ensures IsIpv4(Quad(a, b, c, d))
  {
    hide IsOctet, Split, Join, Decimal;
    OctetOf(a);
    OctetOf(b);
    OctetOf(c);
    OctetOf(d);
    var parts := [Decimal(a), Decimal(b), Decimal(c), Decimal(d)];
    SplitJoin(parts, DOT);
  }

  lemma OctetOf(n: nat)
    requires n < 256
    ensures IsOctet(Decimal(n)) && DOT !in Decimal(n)
  {
    OctetIs(Decimal(n));
  }

  const LOCALHOST: Str :=
    [108, 111, 99, 97, 108, 104, 111, 115, 116, 46, 108, 111, 99, 97, 108, 100, 111, 109, 97, 105, 110]

  /** The part of the line before its first `#`, or all of it. */
  predicate BeforeComment(line: Str, part: Str) {
    part <= line && 35 !in part && (|part| < |line| ==> line[|part|] == 35)
  }

  /** A hosts line blocks the name: it is a field of it before any comment, in any case, other than an
      address in front. */
  ghost predicate HostsSays(line: Str, name: Name) {
    exists part :: BeforeComment(line, part) && FieldsSay(Fields(Trim(part)), name)
  }

  ghost predicate FieldsSay(fields: seq<Str>, name: Name) {
    exists k :: 0 <= k < |fields| && HostsField(fields, k, name)
  }

  ghost predicate HostsField(fields: seq<Str>, k: nat, name: Name)
    requires k < |fields|
  {
    && (k == 0 ==> !IsAddress(fields[0]))
    && Lowercase(fields[k]) != LOCALHOST && NormalizeName(fields[k]) == Some(name)
  }

  lemma {:induction false} UsableNamesAre(fields: seq<Str>, name: Name)
    ensures name in UsableNames(fields) <==>
            exists k :: 0 <= k < |fields| && Lowercase(fields[k]) != LOCALHOST && NormalizeName(fields[k]) == Some(name)
    decreases |fields|
  {
    hide NormalizeName, Lowercase;
    assert Ascii("localhost.localdomain") == LOCALHOST;
    if fields != [] {
      var rest := fields[1..];
      UsableNamesAre(rest, name);
      if k :| 0 <= k < |rest| && Lowercase(rest[k]) != LOCALHOST && NormalizeName(rest[k]) == Some(name) {
        assert fields[k + 1] == rest[k];
      }
      if k :| 0 < k < |fields| && Lowercase(fields[k]) != LOCALHOST && NormalizeName(fields[k]) == Some(name) {
        assert rest[k - 1] == fields[k];
      }
    }
  }

  lemma NoLonger(line: Str, a: Str, b: Str)
    requires a <= line && 35 !in a && BeforeComment(line, b)
    ensures |a| <= |b|
  {
    assert forall i :: 0 <= i < |a| ==> a[i] == line[i] && line[i] != 35;
  }

  /** A hosts line gives exactly the names it says. */
  lemma HostsExactly(line: Str, name: Name)
    ensures name in HostsNames(line) <==> HostsSays(line, name)
  {
    hide NormalizeName, Lowercase, IsAddress, UsableNames, Fields, Trim, FieldsSay, HostsNames;
    var part := line[..IndexOf(line, 35)];
    assert BeforeComment(line, part) && HostsFields(line) == Fields(Trim(part));
    forall other | BeforeComment(line, other) ensures other == part {
      NoLonger(line, part, other);
      NoLonger(line, other, part);
    }
    FieldsExactly(line, name);
  }

  lemma FieldsExactly(line: Str, name: Name)
    ensures name in HostsNames(line) <==> FieldsSay(HostsFields(line), name)
  {
    hide NormalizeName, Lowercase, IsAddress, HostsFields, UsableNames;
    var fields := HostsFields(line);
    if fields != [] {
      var from := if IsAddress(fields[0]) then 1 else 0;
      var rest := fields[from..];
      assert fields[0..] == fields;
      UsableNamesAre(rest, name);
      if k :| 0 <= k < |rest| && Lowercase(rest[k]) != LOCALHOST && NormalizeName(rest[k]) == Some(name) {
        assert rest[k] == fields[k + from] && HostsField(fields, k + from, name);
      }
      if k :| 0 <= k < |fields| && HostsField(fields, k, name) {
        assert k >= from && rest[k - from] == fields[k];
      }
    }
  }

  // ----- whole lists

  /** The line gives the rule, or cancels it. */
  ghost predicate LineGives(format: ListFormat, line: Str, x: RuleEntry) {
    match format
    case Adblock => Says(line, Rule(x.0, x.1, false))
    case Hosts => x.0 == Block && HostsSays(line, x.1)
  }

  ghost predicate LineCancels(format: ListFormat, line: Str, x: RuleEntry) {
    format == Adblock && Says(line, Rule(x.0, x.1, true))
  }

  lemma {:induction false} NamesEffectIs(exempt: Option<Exemption>, names: seq<Name>, x: RuleEntry)
    ensures x in NamesEffect(exempt, names).added <==> x.0 == Block && x.1 in names && !Exempted(exempt, x.0, x.1)
    ensures NamesEffect(exempt, names).bad == {}
  {
    hide Exempted;
    if names != [] {
      var n := |names| - 1;
      NamesEffectIs(exempt, names[..n], x);
      assert names == names[..n] + [names[n]];
    }
  }

  lemma LineEffectIs(format: ListFormat, exempt: Option<Exemption>, line: Str, x: RuleEntry)
    ensures x in LineEffect(format, exempt, line).added <==>
            LineGives(format, line, x) && !Exempted(exempt, x.0, x.1)
    ensures x in LineEffect(format, exempt, line).bad <==> LineCancels(format, line, x)
  {
    hide Exempted, Says, ParseAdblockLine, HostsSays, HostsNames, HostsFields;
    if format == Adblock {
      LineMeaning(line, Rule(x.0, x.1, false));
      LineMeaning(line, Rule(x.0, x.1, true));
    } else {
      NamesEffectIs(exempt, HostsNames(line), x);
      HostsExactly(line, x.1);
    }
  }

  /** Some of the lines gives the rule, or cancels it. */
  ghost predicate SomeGives(format: ListFormat, lines: seq<Str>, x: RuleEntry) {
    exists j :: 0 <= j < |lines| && LineGives(format, lines[j], x)
  }

  ghost predicate SomeCancels(format: ListFormat, lines: seq<Str>, x: RuleEntry) {
    exists j :: 0 <= j < |lines| && LineCancels(format, lines[j], x)
  }

  lemma {:induction false} LinesEffectIs(format: ListFormat, exempt: Option<Exemption>, lines: seq<Str>, x: RuleEntry)
    ensures x in LinesEffect(format, exempt, lines).added <==>
            SomeGives(format, lines, x) && !Exempted(exempt, x.0, x.1)
    ensures x in LinesEffect(format, exempt, lines).bad <==> SomeCancels(format, lines, x)
  {
    hide Exempted, LineGives, LineCancels, LineEffect;
    if lines != [] {
      var n := |lines| - 1;
      LinesEffectIs(format, exempt, lines[..n], x);
      LineEffectIs(format, exempt, lines[n], x);
      assert forall j :: 0 <= j < n ==> lines[..n][j] == lines[j];
    }
  }

  /** The lines of a list, after a byte order mark if it starts with one. */
  function LinesOf(list: DnsList): seq<Str> {
    var t := list.text;
    Lines(if |t| >= 3 && t[0] == 0xef && t[1] == 0xbb && t[2] == 0xbf then t[3..] else t)
  }

  /** A list gives the rule, and does not exempt a host that it would block. */
  ghost predicate ListGives(list: DnsList, x: RuleEntry) {
    SomeGives(list.format, LinesOf(list), x) && !Exempted(list.exempt, x.0, x.1)
  }

  ghost predicate ListCancels(list: DnsList, x: RuleEntry) { SomeCancels(list.format, LinesOf(list), x) }

  /** The rule stands: some list gives it, and none cancels it. */
  ghost predicate Stands(lists: seq<DnsList>, x: RuleEntry) {
    && (exists i :: 0 <= i < |lists| && ListGives(lists[i], x))
    && !(exists i :: 0 <= i < |lists| && ListCancels(lists[i], x))
  }

  lemma ListEffectIs(list: DnsList, x: RuleEntry)
    ensures x in ListEffect(list).added <==> ListGives(list, x)
    ensures x in ListEffect(list).bad <==> ListCancels(list, x)
  {
    hide Exempted, SomeGives, SomeCancels, LinesEffect, Lines;
    assert LinesOf(list) == Lines(ListText(list.text));
    LinesEffectIs(list.format, list.exempt, LinesOf(list), x);
  }

  lemma {:induction false} ListsEffectIs(lists: seq<DnsList>, x: RuleEntry)
    ensures x in ListsEffect(lists).added <==> exists i :: 0 <= i < |lists| && ListGives(lists[i], x)
    ensures x in ListsEffect(lists).bad <==> exists i :: 0 <= i < |lists| && ListCancels(lists[i], x)
  {
    hide ListEffect, ListGives, ListCancels;
    if lists != [] {
      var n := |lists| - 1;
      ListsEffectIs(lists[..n], x);
      ListEffectIs(lists[n], x);
      assert forall i :: 0 <= i < n ==> lists[..n][i] == lists[i];
    }
  }

  /** The rules that are left are exactly those that stand, but for patterns over the limits. */
  lemma FinalRulesStand(lists: seq<DnsList>, x: RuleEntry)
    ensures x in FinalRules(ListsEffect(lists)) <==> Stands(lists, x) && x !in OverLimit(ListsEffect(lists))
  {
    hide OverLimit, ListsEffect, ListGives, ListCancels;
    ListsEffectIs(lists, x);
  }

  /** An important block that stands covers the host; or some block does, and no exception. `over` are
      rules left out. */
  ghost predicate SaidBlocked(lists: seq<DnsList>, over: seq<RuleEntry>, host: Str) {
    || (exists x :: AppliesHere(lists, over, host, x) && x.0 == Kind.Important)
    || ((exists x :: AppliesHere(lists, over, host, x) && !x.0.IsException())
        && !(exists x :: AppliesHere(lists, over, host, x) && x.0.IsException()))
  }

  ghost predicate AppliesHere(lists: seq<DnsList>, over: seq<RuleEntry>, host: Str, x: RuleEntry) {
    Stands(lists, x) && x !in over && RuleApplies(x.0, x.1, host)
  }

  /** The rules parsed from the lists block a host exactly when the lists say so. */
  lemma ListsDecide(lists: seq<DnsList>, r: DomainRules, host: Str)
    requires Outcome(r, ListsEffect(lists))
    ensures Blocked(r, host) <==> SaidBlocked(lists, OverLimit(ListsEffect(lists)), HostKey(host))
  {
    OutcomeMeaning(r, ListsEffect(lists), host);
    SaidIsDecided(lists, HostKey(host));
  }

  lemma SaidIsDecided(lists: seq<DnsList>, host: Str)
    ensures DecidedBlocked(FinalRules(ListsEffect(lists)), host) <==>
            SaidBlocked(lists, OverLimit(ListsEffect(lists)), host)
  {
    hide OverLimit, ListsEffect, Stands, RuleApplies, FinalRules;
    var rules, over := FinalRules(ListsEffect(lists)), OverLimit(ListsEffect(lists));
    forall x ensures AppliesHere(lists, over, host, x) <==> x in rules && RuleApplies(x.0, x.1, host) {
      FinalRulesStand(lists, x);
    }
  }
}
