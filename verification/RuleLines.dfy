/** What a line of an adblock list says (domain_rules.rs), by the forms it can be written in. */
module RuleLines {
  import opened Bytes
  import opened Text
  import opened Glob
  import opened Patterns
  import opened RuleSyntax

  // ----- pieces

  lemma Stripped(s: Str, suffix: Str)
    ensures StripSuffix(s, suffix).Some? ==> s == StripSuffix(s, suffix).value + suffix
  {
  }

  lemma StripAdded(s: Str, suffix: Str)
    ensures StripSuffix(s + suffix, suffix) == Some(s)
  {
  }

  lemma StripStart(prefix: Str, s: Str)
    ensures StripPrefix(prefix + s, prefix) == Some(s)
  {
  }

  // ----- how a rule is written

  /** `||`, `|`, `://`, `.`, `*.` or nothing before the name. */
  datatype Start = Bars | Bar | Scheme | Dot | Star | Bare

  /** `^`, `^|` or nothing after it. */
  datatype End = Caret | CaretBar | Open

  /** A rule: an exception or not, the name or pattern between its anchors, and the options. */
  datatype Written = Written(exception: bool, start: Start, name: Str, end: End, options: seq<Str>)

  function StartText(start: Start): Str {
    match start
    case Bars => [PIPE, PIPE]
    case Bar => [PIPE]
    case Scheme => [58, 47, 47]
    case Dot => [DOT]
    case Star => [STAR, DOT]
    case Bare => []
  }

  function EndText(end: End): Str {
    match end
    case Caret => [94]
    case CaretBar => [94, PIPE]
    case Open => []
  }

  function Body(w: Written): Str { StartText(w.start) + w.name + EndText(w.end) }

  function OptionsText(options: seq<Str>): Str { if options == [] then [] else [36] + Join(options, 44) }

  function Render(w: Written): Str {
    (if w.exception then [64, 64] else []) + Body(w) + OptionsText(w.options)
  }

  // ----- what it says

  const IMPORTANT: Str := [105, 109, 112, 111, 114, 116, 97, 110, 116]
  const BADFILTER: Str := [98, 97, 100, 102, 105, 108, 116, 101, 114]

  /** The options are known ones: `important` and `badfilter`, in any order. */
  predicate KnownOptions(options: seq<Str>) {
    forall o :: o in options ==> 44 !in o && (Trim(o) == IMPORTANT || Trim(o) == BADFILTER)
  }

  predicate SaysImportant(options: seq<Str>) { exists o :: o in options && Trim(o) == IMPORTANT }

  predicate SaysBadfilter(options: seq<Str>) { exists o :: o in options && Trim(o) == BADFILTER }

  predicate Alphanumeric(b: byte) { IsUpper(b) || IsLower(b) || IsDigit(b) }

  /** The rule names a host: a host name, in any case and perhaps with a dot at its end, between anchors
      that leave nothing of the host open. */
  predicate NamesHost(w: Written) {
    && NormalizeName(w.name).Some?
    && match w.start
       case Bars => w.end == Open ==> !EndsWith(w.name, [DOT])
       case Bar => w.end != Open
       case Scheme => w.end != Open
       case Dot => w.end == Caret
       case Star => true
       case Bare => w.end != Open && w.name != [] && Alphanumeric(w.name[0])
  }

  /** The pattern of a rule with a `*`: open where it has no anchor, runs of `*` merged, in lower case. */
  function GlobOf(w: Written): Str {
    Merge((if w.start == Bare then [STAR] else []) + (if w.end == Open then w.name + [STAR] else StripDot(w.name)))
  }

  /** The rule has a `*` in its name, and is not of the form `*.name`. */
  predicate HasGlob(w: Written) {
    && STAR in w.name && w.start in {Bars, Bar, Scheme, Bare} && IsValidPattern(GlobOf(w))
    && !(w.start == Bare && [STAR, DOT] <= w.name && STAR !in w.name[2..])
  }

  /** It is for one host, not for the names below it. */
  predicate OneHost(w: Written) { w.start == Bar || w.start == Scheme }

  /** The line gives a rule. An important block must be of a name and the names below it. */
  predicate GivesRule(w: Written) {
    && (NamesHost(w) || HasGlob(w)) && KnownOptions(w.options)
    && (SaysImportant(w.options) && !w.exception ==> NamesHost(w) && !OneHost(w))
  }

  function KindOf(w: Written): Kind {
    match (NamesHost(w), w.exception)
    case (true, true) => if OneHost(w) then ExactAllow else Allow
    case (true, false) => if OneHost(w) then ExactBlock else if SaysImportant(w.options) then Kind.Important else Block
    case (false, true) => if w.start == Bars then WildcardAllow else ExactWildcardAllow
    case (false, false) => if w.start == Bars then WildcardBlock else ExactWildcardBlock
  }

  /** The name in lower case without a dot at its end, or the pattern. */
  function NameOf(w: Written): Name {
    if NamesHost(w) then Lowercase(StripDot(w.name)) else GlobOf(w)
  }

  function RuleOf(w: Written): Line { Rule(KindOf(w), NameOf(w), SaysBadfilter(w.options)) }

  /** The line says this rule. */
  ghost predicate Says(text: Str, line: Line) {
    exists w :: GivesRule(w) && Trim(text) == Render(w) && line == RuleOf(w)
  }

  // ----- the bytes of a name

  lemma NamedBytes(name: Str)
    requires NormalizeName(name).Some?
    ensures DOT in name && forall b :: b in name ==> b == DOT || IsNameByte(b)
  {
    var bare := StripDot(name);
    SplitBytes(bare, DOT);
    assert name == bare || name == bare + [DOT];
  }

  predicate IsGlobByte(b: byte) { IsNameByte(b) || b == STAR || b == DOT }

  lemma {:induction false} MergeKeeps(glob: Str)
    ensures forall b :: b in glob ==> Lower(b) in Merge(glob)
    ensures glob != [] ==> Merge(glob) != []
  {
    if glob != [] {
      var n := |glob| - 1;
      MergeKeeps(glob[..n]);
      assert glob == glob[..n] + [glob[n]];
    }
  }

  lemma GlobBytes(w: Written)
    requires IsValidPattern(GlobOf(w))
    ensures forall b :: b in w.name ==> IsGlobByte(b)
  {
    hide IsValidPattern;
    PatternBytes(GlobOf(w));
    var before := if w.start == Bare then [STAR] else [];
    var open := before + (if w.end == Open then w.name + [STAR] else StripDot(w.name));
    MergeKeeps(open);
    hide Merge;
    forall b | b in w.name ensures IsGlobByte(b) {
      if b != DOT {
        assert b in open;
        assert Lower(b) in GlobOf(w);
      }
    }
  }

  /** Every name of a rule that is given holds only bytes that mean nothing else in a line. */
  lemma NameBytes(w: Written)
    requires NamesHost(w) || HasGlob(w)
    ensures w.name != [] && forall b :: b in w.name ==> IsGlobByte(b)
  {
    hide IsValidPattern, GlobOf;
    if NamesHost(w) {
      NamedBytes(w.name);
    } else {
      GlobBytes(w);
    }
  }

  // ----- reading the form

  predicate Harmless(name: Str) { name != [] && forall b :: b in name ==> IsGlobByte(b) }

  /** Carets are taken off the end, and only there. */
  lemma CaretRead(name: Str, end: End)
    requires Harmless(name)
    ensures StripCaret(name + EndText(end)) == if end == Open then None else Some(name)
  {
    Literals();
    hide Ascii;
    var s := name + EndText(end);
    var last := name[|name| - 1];
    assert last in name && last != 94 && last != PIPE;
    match end
    case Caret =>
      StripAdded(name, [94]);
      NotEnding(s, [94, PIPE]);
    case CaretBar =>
      StripAdded(name, [94, PIPE]);
    case Open =>
      assert s == name;
      NotEnding(s, [94, PIPE]);
      NotEnding(s, [94]);
  }

  lemma NotEnding(s: Str, suffix: Str)
    requires s != [] && suffix != [] && s[|s| - 1] != suffix[|suffix| - 1]
    ensures StripSuffix(s, suffix) == None
  {
  }

  lemma Literals()
    ensures Ascii("||") == [PIPE, PIPE] && Ascii("|") == [PIPE] && Ascii("://") == [58, 47, 47]
    ensures Ascii("*.") == [STAR, DOT]
    ensures Ascii("^|") == [94, PIPE] && Ascii("^") == [94] && Ascii("@@") == [64, 64]
    ensures Ascii("important") == IMPORTANT && Ascii("badfilter") == BADFILTER
  {
  }

  lemma NoStarInName(w: Written)
    requires NamesHost(w)
    ensures STAR !in w.name && STAR !in EndText(w.end) && (w.start != Star ==> STAR !in Body(w))
  {
    hide NormalizeName, IsNameByte, EndsWith, Alphanumeric;
    NamedBytes(w.name);
    assert !IsNameByte(STAR) by { StarNoNameByte(); }
    hide NamesHost;
    var start, end := StartText(w.start), EndText(w.end);
    assert Body(w) == start + w.name + end;
  }

  lemma StarNoNameByte()
    ensures !IsNameByte(STAR)
  {
  }

  /** `*.name` is read as a name and the names below it. */
  lemma StarRead(w: Written)
    requires NamesHost(w) && w.start == Star
    ensures WildcardDomain(Body(w)) == Some(w.name)
  {
    hide NormalizeName, WildcardDomain, StripCaret;
    NamedBytes(w.name);
    NoStarInName(w);
    CaretRead(w.name, w.end);
    var rest := w.name + EndText(w.end);
    assert Body(w) == [STAR, DOT] + rest;
    assert w.end == Open ==> rest == w.name;
    hide NamesHost, EndText, Body, IsNameByte, IsGlobByte;
    DomainIs(rest, w.name);
  }

  lemma DomainIs(rest: Str, name: Str)
    requires STAR !in name && (StripCaret(rest) == Some(name) || (StripCaret(rest) == None && rest == name))
    ensures WildcardDomain([STAR, DOT] + rest) == Some(name)
  {
    hide StripCaret, StripPrefix;
    Literals();
    hide Ascii;
    StripStart([STAR, DOT], rest);
  }

  /** Any other body is not read so. */
  lemma NotStarRead(w: Written)
    requires (NamesHost(w) && w.start != Star) || HasGlob(w)
    ensures WildcardDomain(Body(w)) == None
  {
    hide NormalizeName, IsValidPattern, GlobOf, StripCaret;
    Literals();
    NameBytes(w);
    var body := Body(w);
    if [STAR, DOT] <= body {
      FirstBytes(w);
      assert w.start == Bare && HasGlob(w);
      var rest := w.name + EndText(w.end);
      assert body == rest;
      BareStar(w, rest);
    }
  }

  lemma FirstBytes(w: Written)
    requires Harmless(w.name)
    ensures Body(w) != [] && Body(w)[0] == if w.start == Bare then w.name[0] else StartText(w.start)[0]
  {
  }

  lemma SecondByte(name: Str, end: End)
    ensures name != [] && |name + EndText(end)| >= 2 && (name + EndText(end))[1] == DOT ==> |name| >= 2
  {
    var rest := name + EndText(end);
    assert forall i :: |name| <= i < |rest| ==> rest[i] == EndText(end)[i - |name|] && rest[i] != DOT;
  }

  lemma BareStar(w: Written, rest: Str)
    requires HasGlob(w) && w.start == Bare && Harmless(w.name) && rest == w.name + EndText(w.end) && [STAR, DOT] <= rest
    ensures WildcardDomain(rest) == None
  {
    hide IsValidPattern, GlobOf;
    Literals();
    assert rest[0] == STAR && rest[1] == DOT;
    SecondByte(w.name, w.end);
    assert w.name[0] == STAR && w.name[1] == DOT && [STAR, DOT] <= w.name;
    var tail := w.name[2..];
    assert STAR in tail;
    assert rest[2..] == tail + EndText(w.end);
    assert forall b :: b in tail ==> b in w.name;
    CaretRead(tail, w.end);
  }

  /** A name without a `*` is read between its anchors. */
  lemma PlainRead(w: Written)
    requires NamesHost(w) && w.start != Star
    ensures PlainName(Body(w)) == Some((OneHost(w), w.name))
  {
    hide NormalizeName, StripCaret, PlainName, StartOf, Body, EndText, StartText;
    NamedBytes(w.name);
    StartRead(w);
    CaretRead(w.name, w.end);
    PlainCases(Body(w));
    if w.start == Dot { DotRead(w); }
    if w.start == Bars && w.end == Open { OpenRead(w); }
  }

  lemma DotRead(w: Written)
    requires w.end == Caret
    ensures StripSuffix(w.name + EndText(w.end), [94]) == Some(w.name)
  {
    StripAdded(w.name, [94]);
  }

  lemma OpenRead(w: Written)
    requires w.end == Open
    ensures w.name + EndText(w.end) == w.name
  {
  }

  /** The start that was written is the one found. */
  lemma StartRead(w: Written)
    requires Harmless(w.name) && w.start != Star && (w.start == Bare ==> w.name[0] != DOT)
    ensures var body := Body(w);
            && StartOf(body) == w.start && |StartText(w.start)| <= |body|
            && body[|StartText(w.start)|..] == w.name + EndText(w.end)
            && (w.start == Bare ==> body != [] && body[0] == w.name[0])
  {
    var body, rest := Body(w), w.name + EndText(w.end);
    assert body == StartText(w.start) + rest;
    assert rest[0] == w.name[0] && w.name[0] in w.name;
    match w.start
    case Bars => assert body[0] == PIPE && body[1] == PIPE;
    case Bar => assert body[0] == PIPE && body[1] == rest[0];
    case Scheme => assert body[0] == 58 && body[1] == 47 && body[2] == 47;
    case Dot => assert body[0] == DOT;
    case Bare => assert body[0] == rest[0];
  }

  /** A body with a `*` is read as its pattern. */
  lemma GlobRead(w: Written)
    requires HasGlob(w)
    ensures WildcardPattern(Body(w)) == Some(Pattern(GlobOf(w), w.start == Bars)) && STAR in Body(w)
  {
    hide NormalizeName, StripCaret, IsValidPattern, Merge;
    Literals();
    hide Ascii;
    GlobBytes(w);
    assert Harmless(w.name);
    var body, rest := Body(w), w.name + EndText(w.end);
    assert body == StartText(w.start) + rest;
    AnchorRead(w, rest);
    CaretRead(w.name, w.end);
    assert w.end == Open ==> rest == w.name;
    hide StartText, EndText, StartAnchor, Harmless;
    var lead := if w.start == Bare then [STAR] else [];
    assert OpenGlob(body) == lead + if w.end == Open then w.name + [STAR] else StripDot(w.name);
  }

  lemma AnchorRead(w: Written, rest: Str)
    requires Harmless(w.name) && w.start in {Bars, Bar, Scheme, Bare} && rest == w.name + EndText(w.end)
    ensures StartAnchor(StartText(w.start) + rest) ==
            (match w.start case Bars => AtLabel case Bare => Anywhere case _ => AtHost, rest)
  {
    Literals();
    hide Ascii;
    var body := StartText(w.start) + rest;
    assert rest[0] == w.name[0] && w.name[0] in w.name;
    match w.start
    case Bars => assert body[2..] == rest;
    case Bar => assert body[1] == rest[0] && body[1..] == rest;
    case Scheme => assert body[0] == 58 && body[3..] == rest;
    case Bare => assert body == rest;
  }

  // ----- reading the line

  predicate AllKnown(options: seq<Str>) { forall o :: o in options ==> Trim(o) == IMPORTANT || Trim(o) == BADFILTER }

  /** The options are read to the end if all are known, and otherwise not at all. */
  lemma {:induction false} OptionsRead(options: seq<Str>, important: bool, badfilter: bool)
    ensures ParseOptions(options, important, badfilter) ==
            if !AllKnown(options) then None
            else Some((important || SaysImportant(options), badfilter || SaysBadfilter(options)))
    decreases |options|
  {
    Literals();
    hide Ascii, Trim;
    if options != [] {
      var first, rest := options[0], options[1..];
      assert options == [first] + rest;
      OptionsRead(rest, important || Trim(first) == IMPORTANT, badfilter || Trim(first) == BADFILTER);
      assert IMPORTANT[0] != BADFILTER[0];
      MoreOptions(first, rest);
    }
  }

  lemma MoreOptions(first: Str, rest: seq<Str>)
    ensures SaysImportant([first] + rest) <==> Trim(first) == IMPORTANT || SaysImportant(rest)
    ensures SaysBadfilter([first] + rest) <==> Trim(first) == BADFILTER || SaysBadfilter(rest)
    ensures AllKnown([first] + rest) <==> (Trim(first) == IMPORTANT || Trim(first) == BADFILTER) && AllKnown(rest)
  {
    hide Trim;
    assert forall o :: o in [first] + rest <==> o == first || o in rest;
  }

  /** A body is read as the rule of its form. */
  lemma BodyRead(w: Written)
    requires GivesRule(w)
    ensures ParseRule(Body(w), w.exception, SaysImportant(w.options), SaysBadfilter(w.options)) == RuleOf(w)
  {
    hide KnownOptions, SaysImportant, SaysBadfilter, Body, WildcardDomain, PlainName, WildcardPattern, GlobOf,
         IsValidPattern,
         IsHostName;
    if NamesHost(w) {
      if w.start == Star {
        StarRead(w);
      } else {
        NotStarRead(w);
        PlainRead(w);
        NoStarInName(w);
      }
    } else {
      NotStarRead(w);
      GlobRead(w);
    }
  }

  lemma NoDollar(w: Written)
    requires Harmless(w.name)
    ensures 36 !in Body(w)
  {
  }

  /** The rule of a line, after the mark of an exception. */
  function Unmarked(line: Str): Str { if [64, 64] <= line then line[2..] else line }

  function OptionsOf(rule: Str): seq<Str> {
    var dollar := IndexOf(rule, 36);
    if dollar < |rule| then Split(rule[dollar + 1..], 44) else []
  }

  /** How a line is read that is no comment. */
  lemma LineRead(text: Str)
    requires var line := Trim(text); line != [] && line[0] !in {33, 35, 91}
    ensures var line, rule := Trim(text), Unmarked(Trim(text));
            var read := ParseOptions(OptionsOf(rule), false, false);
            ParseAdblockLine(text) ==
            if read.None? then Skip
            else ParseRule(rule[..IndexOf(rule, 36)], [64, 64] <= line, read.value.0, read.value.1)
  {
    Literals();
    hide Ascii, Trim, ParseRule, ParseOptions, IndexOf, Split;
  }

  lemma StartsRule(w: Written)
    requires Harmless(w.name)
    ensures var line := Render(w);
            && line != [] && line[0] !in {33, 35, 91} && ([64, 64] <= line <==> w.exception)
            && Unmarked(line) == Body(w) + OptionsText(w.options)
  {
    hide OptionsText;
    FirstBytes(w);
    assert w.name[0] in w.name;
    var rest := Body(w) + OptionsText(w.options);
    assert rest[0] == Body(w)[0];
    if w.exception {
      assert Render(w) == [64, 64] + rest;
    } else {
      assert Render(w) == rest;
    }
  }

  /** The pattern is what comes before the first `$`, and the options what comes after it. */
  lemma DollarSplits(body: Str, options: seq<Str>)
    requires 36 !in body && forall o :: o in options ==> 44 !in o
    ensures var rule := body + OptionsText(options);
            rule[..IndexOf(rule, 36)] == body && OptionsOf(rule) == options
  {
    hide IndexOf;
    var rule := body + OptionsText(options);
    if options == [] {
      assert rule == body;
      IndexOfNone(body, 36);
    } else {
      assert rule == body + [36] + Join(options, 44);
      IndexOfAfter(body, 36, Join(options, 44));
      assert rule[|body| + 1..] == Join(options, 44);
      SplitJoin(options, 44);
    }
  }

  /** A line in one of the forms is read as its rule. */
  lemma FormIsRead(text: Str, w: Written)
    requires GivesRule(w) && Trim(text) == Render(w)
    ensures ParseAdblockLine(text) == RuleOf(w)
  {
    hide NamesHost, HasGlob, Trim, OptionsText, Body, ParseRule, RuleOf, ParseOptions, IndexOf, SaysImportant,
         SaysBadfilter, ParseAdblockLine, Unmarked, OptionsOf, Render;
    NameBytes(w);
    StartsRule(w);
    LineRead(text);
    NoDollar(w);
    DollarSplits(Body(w), w.options);
    OptionsRead(w.options, false, false);
    BodyRead(w);
    assert AllKnown(w.options);
  }

  // ----- every rule is in one of the forms

  lemma CaretForm(rest: Str) returns (name: Str, end: End)
    ensures rest == name + EndText(end)
    ensures StripCaret(rest) == if end == Open then None else Some(name)
  {
    Literals();
    hide Ascii;
    Stripped(rest, [94, PIPE]);
    Stripped(rest, [94]);
    if StripSuffix(rest, [94, PIPE]).Some? {
      name, end := StripSuffix(rest, [94, PIPE]).value, CaretBar;
    } else if StripSuffix(rest, [94]).Some? {
      name, end := StripSuffix(rest, [94]).value, Caret;
    } else {
      name, end := rest, Open;
      assert rest + [] == rest;
    }
  }

  lemma StarForm(body: Str, exception: bool, options: seq<Str>) returns (w: Written)
    requires WildcardDomain(body).Some? && NormalizeName(WildcardDomain(body).value).Some?
    ensures w.exception == exception && w.options == options && Body(w) == body && NamesHost(w) && !OneHost(w)
  {
    hide NormalizeName, StripCaret;
    Literals();
    hide Ascii;
    var rest := body[2..];
    assert body == [STAR, DOT] + rest;
    var name, end := CaretForm(rest);
    w := Written(exception, Star, name, end, options);
    assert Body(w) == [STAR, DOT] + (name + EndText(end));
    if end == Open { assert rest == name; }
  }

  function StartOf(body: Str): Start {
    if [PIPE, PIPE] <= body then Bars else if [DOT] <= body then Dot else if [PIPE] <= body then Bar
    else if [58, 47, 47] <= body then Scheme else Bare
  }

  lemma StartedBy(body: Str)
    ensures var start := StartOf(body);
            && start != Star && StartText(start) <= body && body == StartText(start) + body[|StartText(start)|..]
  {
  }

  /** Which name a body without a `*` gives, by what it starts with. */
  lemma PlainCases(body: Str)
    ensures var start := StartOf(body);
            var rest := body[|StartText(start)|..];
            var name := if start == Dot then StripSuffix(rest, [94]) else StripCaret(rest);
            PlainName(body) ==
            if name.Some? && (start == Bare ==> body != [] && Alphanumeric(body[0])) then
              Some((start == Bar || start == Scheme, name.value))
            else if start == Bars && !EndsWith(rest, [DOT]) then Some((false, rest))
            else None
  {
    Literals();
    hide Ascii, StripCaret;
  }

  /** The rest of a body after its start, as a name and an end. */
  lemma RestForm(start: Start, rest: Str) returns (name: Str, end: End)
    ensures rest == name + EndText(end)
    ensures start != Dot ==> StripCaret(rest) == if end == Open then None else Some(name)
    ensures start == Dot && StripSuffix(rest, [94]).Some? ==> end == Caret && StripSuffix(rest, [94]) == Some(name)
    ensures end == Open ==> name == rest
  {
    hide StripCaret;
    if start == Dot && StripSuffix(rest, [94]).Some? {
      Stripped(rest, [94]);
      name, end := StripSuffix(rest, [94]).value, Caret;
    } else {
      name, end := CaretForm(rest);
      assert end == Open ==> name + [] == name;
    }
  }

  lemma BodyOf(start: Start, name: Str, end: End, rest: Str, body: Str, exception: bool, options: seq<Str>)
    requires rest == name + EndText(end) && body == StartText(start) + rest
    ensures Body(Written(exception, start, name, end, options)) == body
  {
    assert StartText(start) + (name + EndText(end)) == StartText(start) + name + EndText(end);
  }

  lemma FirstOfRest(name: Str, end: End, rest: Str)
    requires rest == name + EndText(end) && name != []
    ensures rest != [] && name[0] == rest[0]
  {
  }

  lemma PlainForm(body: Str, exception: bool, options: seq<Str>) returns (w: Written)
    requires PlainName(body).Some? && NormalizeName(PlainName(body).value.1).Some?
    ensures w.exception == exception && w.options == options && Body(w) == body && NamesHost(w)
    ensures OneHost(w) == PlainName(body).value.0
  {
    hide NormalizeName, StripCaret, PlainName, StripSuffix, EndsWith, Body, StartOf, StartText, EndText;
    PlainCases(body);
    StartedBy(body);
    var start := StartOf(body);
    var rest := body[|StartText(start)|..];
    NamedBytes(PlainName(body).value.1);
    var name, end := RestForm(start, rest);
    BodyOf(start, name, end, rest, body, exception, options);
    if start == Bare {
      NoStart(rest, body);
      FirstOfRest(name, end, rest);
    }
    w := Written(exception, start, name, end, options);
  }

  lemma NoStart(rest: Str, body: Str)
    requires body == StartText(Bare) + rest
    ensures rest == body
  {
  }

  lemma GlobForm(body: Str, exception: bool, options: seq<Str>) returns (w: Written)
    requires WildcardDomain(body).None? && STAR in body && WildcardPattern(body).Some?
    ensures w.exception == exception && w.options == options && Body(w) == body && HasGlob(w)
  {
    var start := GlobStart(body);
    var rest := body[|StartText(start)|..];
    GlobStarted(body);
    assert start == Bare ==> body == rest;
    hide IsValidPattern, Merge, StripCaret, StartAnchor, GlobStart, WildcardDomain, Body;
    var name, end := RestForm(start, rest);
    BodyOf(start, name, end, rest, body, exception, options);
    StarInName(start, name, end, body);
    hide StartText, EndText;
    w := Written(exception, start, name, end, options);
    SameGlob(body, w, rest);
    if start == Bare && [STAR, DOT] <= name && STAR !in name[2..] { StarDomain(body, name, end); }
  }

  lemma SameGlob(body: Str, w: Written, rest: Str)
    requires StartAnchor(body).1 == rest && (StartAnchor(body).0 == Anywhere <==> w.start == Bare)
    requires StripCaret(rest) == if w.end == Open then None else Some(w.name)
    requires w.end == Open ==> w.name == rest
    ensures Merge(OpenGlob(body)) == GlobOf(w)
  {
    hide Merge, StripCaret, StartAnchor;
    var lead := if w.start == Bare then [STAR] else [];
    assert OpenGlob(body) == lead + if w.end == Open then w.name + [STAR] else StripDot(w.name);
  }

  function GlobStart(body: Str): Start {
    if [PIPE, PIPE] <= body then Bars else if [58, 47, 47] <= body then Scheme
    else if [PIPE] <= body then Bar else Bare
  }

  lemma GlobStarted(body: Str)
    ensures var start := GlobStart(body);
            && StartText(start) <= body && body == StartText(start) + body[|StartText(start)|..]
            && StartAnchor(body) == (match start case Bars => AtLabel case Bare => Anywhere case _ => AtHost,
                                     body[|StartText(start)|..])
  {
    Literals();
    hide Ascii;
  }

  lemma StarInName(start: Start, name: Str, end: End, body: Str)
    requires body == StartText(start) + (name + EndText(end)) && STAR in body && start in {Bars, Bar, Scheme, Bare}
    ensures STAR in name
  {
  }

  lemma StarDomain(body: Str, name: Str, end: End)
    requires body == name + EndText(end) && [STAR, DOT] <= name && STAR !in name[2..]
    ensures WildcardDomain(body).Some?
  {
    hide WildcardDomain;
    var rest := body[2..];
    assert rest == name[2..] + EndText(end) && [STAR, DOT] <= body;
    assert STAR !in rest;
    DomainFound(body);
  }

  lemma DomainFound(body: Str)
    requires [STAR, DOT] <= body && STAR !in body[2..]
    ensures WildcardDomain(body).Some?
  {
    hide WildcardDomain, StripCaret;
    var rest := body[2..];
    var name, end := CaretForm(rest);
    assert forall b :: b in name ==> b in rest;
    assert end == Open ==> rest == name;
    assert body == [STAR, DOT] + rest;
    DomainIs(rest, name);
  }

  lemma BodyForm(body: Str, exception: bool, options: seq<Str>) returns (w: Written)
    requires KnownOptions(options)
    requires ParseRule(body, exception, SaysImportant(options), SaysBadfilter(options)).Rule?
    ensures GivesRule(w) && w.exception == exception && w.options == options && Body(w) == body
  {
    hide KnownOptions, SaysImportant, SaysBadfilter, Body, WildcardDomain, PlainName, WildcardPattern, NormalizeName,
         NamesHost,
         HasGlob;
    if WildcardDomain(body).Some? {
      w := StarForm(body, exception, options);
    } else if STAR in body {
      w := GlobForm(body, exception, options);
    } else {
      w := PlainForm(body, exception, options);
    }
  }

  /** Every line that gives a rule is in one of the forms. */
  lemma RuleHasForm(text: Str) returns (w: Written)
    requires ParseAdblockLine(text).Rule?
    ensures GivesRule(w) && Trim(text) == Render(w)
  {
    hide Trim, ParseRule, ParseOptions, GivesRule, SaysImportant, SaysBadfilter, Body, ParseAdblockLine, AllKnown,
         IndexOf,
         Split, OptionsText;
    var line, rule := Trim(text), Unmarked(Trim(text));
    var exception, options := [64, 64] <= line, OptionsOf(rule);
    var dollar := IndexOf(rule, 36);
    LineParts(text);
    OptionsRead(options, false, false);
    OptionsBack(rule);
    KnownParts(options);
    w := BodyForm(rule[..dollar], exception, options);
    RenderOf(w, line, rule);
  }

  lemma RenderOf(w: Written, line: Str, rule: Str)
    requires rule == Body(w) + OptionsText(w.options)
    requires if w.exception then [64, 64] <= line && rule == line[2..] else rule == line
    ensures Render(w) == line
  {
    hide Body, OptionsText;
    assert Render(w) == (if w.exception then [64, 64] else []) + (Body(w) + OptionsText(w.options));
  }

  predicate RuleFrom(body: Str, exception: bool, options: seq<Str>) {
    var read := ParseOptions(options, false, false);
    read.Some? && ParseRule(body, exception, read.value.0, read.value.1).Rule?
  }

  lemma LineParts(text: Str)
    requires ParseAdblockLine(text).Rule?
    ensures var line, rule := Trim(text), Unmarked(Trim(text));
            RuleFrom(rule[..IndexOf(rule, 36)], [64, 64] <= line, OptionsOf(rule))
  {
    hide Trim, ParseRule, ParseOptions, IndexOf, Unmarked, OptionsOf;
    LineRead(text);
  }

  lemma OptionsBack(rule: Str)
    ensures rule == rule[..IndexOf(rule, 36)] + OptionsText(OptionsOf(rule))
    ensures forall o :: o in OptionsOf(rule) ==> 44 !in o
  {
    hide IndexOf, Split, Join, OptionsText;
    var dollar := IndexOf(rule, 36);
    if dollar < |rule| {
      OptionsJoined(rule[dollar + 1..]);
      AroundDollar(rule, dollar);
    } else {
      assert OptionsText([]) == [] by { NoOptions(); }
      assert rule[..dollar] == rule && rule + [] == rule;
    }
  }

  lemma NoOptions()
    ensures OptionsText([]) == []
  {
  }

  lemma OptionsJoined(text: Str)
    ensures OptionsText(Split(text, 44)) == [36] + text && forall o :: o in Split(text, 44) ==> 44 !in o
  {
    hide Split, Join;
    JoinSplit(text, 44);
  }

  lemma AroundDollar(rule: Str, n: nat)
    requires n < |rule| && rule[n] == 36
    ensures rule == rule[..n] + ([36] + rule[n + 1..])
  {
  }

  lemma KnownParts(options: seq<Str>)
    requires AllKnown(options) && forall o :: o in options ==> 44 !in o
    ensures KnownOptions(options)
  {
  }

  /** A line gives a rule exactly when it says it. It is a comment exactly when it is blank or starts with
      `!`, `#` or `[`, and any other line is skipped. */
  lemma LineMeaning(text: Str, line: Line)
    requires line.Rule?
    ensures ParseAdblockLine(text) == line <==> Says(text, line)
    ensures ParseAdblockLine(text) == Comment <==> Trim(text) == [] || Trim(text)[0] in {33, 35, 91}
  {
    CommentExactly(text);
    hide Trim, GivesRule, RuleOf, Render, ParseAdblockLine;
    if ParseAdblockLine(text) == line {
      var w := RuleHasForm(text);
      FormIsRead(text, w);
    }
    if w :| GivesRule(w) && Trim(text) == Render(w) && line == RuleOf(w) {
      FormIsRead(text, w);
    }
  }

  lemma CommentExactly(text: Str)
    ensures ParseAdblockLine(text) == Comment <==> Trim(text) == [] || Trim(text)[0] in {33, 35, 91}
  {
    hide Trim, ParseOptions, IndexOf, Split, NormalizeName, WildcardDomain, WildcardPattern, PlainName;
  }
}
