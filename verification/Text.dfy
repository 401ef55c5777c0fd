/** The string operations the list parsers use, on UTF-8 bytes. */
module Text {
  import opened Bytes

  type Str = seq<byte>

  /** The bytes of an ASCII literal. */
  function Ascii(s: string): Str
    requires forall i :: 0 <= i < |s| ==> s[i] < 128 as char
  {
    seq(|s|, i requires 0 <= i < |s| => s[i] as int)
  }

  predicate StartsWith(s: Str, prefix: Str) { prefix <= s }

  function StripPrefix(s: Str, prefix: Str): Option<Str> {
    if prefix <= s then Some(s[|prefix|..]) else None
  }

  function StripSuffix(s: Str, suffix: Str): Option<Str> {
    if EndsWith(s, suffix) then Some(s[..|s| - |suffix|]) else None
  }

  /** One trailing dot removed. */
  function StripDot(s: Str): (r: Str)
    ensures s == r || s == r + [DOT]
  {
    if EndsWith(s, [DOT]) then s[..|s| - 1] else s
  }

  /** Where `b` is first, or the length. */
  function IndexOf(s: Str, b: byte): (n: nat)
    ensures n <= |s| && b !in s[..n] && (n < |s| ==> s[n] == b)
  {
    if s == [] || s[0] == b then 0
    else
      assert s[..1 + IndexOf(s[1..], b)] == [s[0]] + s[1..][..IndexOf(s[1..], b)];
      1 + IndexOf(s[1..], b)
  }

  /** `split`: the pieces between the separators. */
  function Split(s: Str, sep: byte): (r: seq<Str>)
    ensures |r| > 0
    decreases |s|
  {
    var n := IndexOf(s, sep);
    if n == |s| then [s] else [s[..n]] + Split(s[n + 1..], sep)
  }

  /** Every byte but the separators is in a piece, and the pieces hold nothing else. */
  lemma {:induction false} SplitBytes(s: Str, sep: byte)
    ensures forall b :: b in s ==> b == sep || exists p :: p in Split(s, sep) && b in p
    ensures forall p, b :: p in Split(s, sep) && b in p ==> b in s && b != sep
    decreases |s|
  {
    var n := IndexOf(s, sep);
    if n == |s| {
      assert s[..n] == s;
    } else {
      var rest := Split(s[n + 1..], sep);
      SplitBytes(s[n + 1..], sep);
      assert s == s[..n] + [sep] + s[n + 1..];
      assert forall p :: p in [s[..n]] + rest <==> p == s[..n] || p in rest;
    }
  }

  /** The pieces with the separator between them. */
  function Join(parts: seq<Str>, sep: byte): Str
    requires parts != []
  {
    if |parts| == 1 then parts[0] else parts[0] + [sep] + Join(parts[1..], sep)
  }

  lemma IndexOfAfter(before: Str, b: byte, rest: Str)
    requires b !in before
    ensures IndexOf(before + [b] + rest, b) == |before|
  {
    var s := before + [b] + rest;
    var n := IndexOf(s, b);
    assert s[|before|] == b;
    assert forall i :: 0 <= i < |before| ==> s[i] == before[i];
    assert forall i :: 0 <= i < n ==> s[..n][i] == s[i];
  }

  lemma IndexOfNone(s: Str, b: byte)
    requires b !in s
    ensures IndexOf(s, b) == |s|
  {
  }

  /** Splitting what was joined gives the pieces back. */
  lemma {:induction false} SplitJoin(parts: seq<Str>, sep: byte)
    requires parts != [] && forall p :: p in parts ==> sep !in p
    ensures Split(Join(parts, sep), sep) == parts
    decreases |parts|
  {
    hide IndexOf;
    if |parts| == 1 {
      IndexOfNone(parts[0], sep);
    } else {
      var rest := Join(parts[1..], sep);
      SplitJoin(parts[1..], sep);
      IndexOfAfter(parts[0], sep, rest);
      var s := Join(parts, sep);
      assert s[..|parts[0]|] == parts[0] && s[|parts[0]| + 1..] == rest;
      assert parts == [parts[0]] + parts[1..];
    }
  }

  /** And joining what was split gives the text back. */
  lemma {:induction false} JoinSplit(s: Str, sep: byte)
    ensures Join(Split(s, sep), sep) == s
    ensures forall p :: p in Split(s, sep) ==> sep !in p
    decreases |s|
  {
    hide IndexOf;
    var n := IndexOf(s, sep);
    if n == |s| {
      assert s[..n] == s;
    } else {
      var rest := Split(s[n + 1..], sep);
      JoinSplit(s[n + 1..], sep);
      assert ([s[..n]] + rest)[1..] == rest;
      assert s == s[..n] + [sep] + s[n + 1..];
    }
  }

  // ----- white space (the characters with the Unicode property White_Space)

  /** The length of the white space character at the start, 0 without one. */
  function LeadingWhite(s: Str): (n: nat)
    ensures n <= |s|
  {
    if |s| >= 1 && IsWhite1(s[0]) then 1
    else if |s| >= 2 && IsWhite2(s[0], s[1]) then 2
    else if |s| >= 3 && IsWhite3(s[0], s[1], s[2]) then 3
    else 0
  }

  /** The length of the white space character at the end, 0 without one. */
  function TrailingWhite(s: Str): (n: nat)
    ensures n <= |s|
  {
    var k := |s|;
    if k >= 1 && IsWhite1(s[k - 1]) then 1
    else if k >= 2 && IsWhite2(s[k - 2], s[k - 1]) then 2
    else if k >= 3 && IsWhite3(s[k - 3], s[k - 2], s[k - 1]) then 3
    else 0
  }

  predicate IsWhite1(a: byte) { 9 <= a <= 13 || a == 32 }
  predicate IsWhite2(a: byte, b: byte) { a == 0xc2 && (b == 0x85 || b == 0xa0) }
  predicate IsWhite3(a: byte, b: byte, c: byte) {
    || (a == 0xe1 && b == 0x9a && c == 0x80)
    || (a == 0xe2 && b == 0x80 && (0x80 <= c <= 0x8a || c == 0xa8 || c == 0xa9 || c == 0xaf))
    || (a == 0xe2 && b == 0x81 && c == 0x9f)
    || (a == 0xe3 && b == 0x80 && c == 0x80)
  }

  function TrimStart(s: Str): Str
    decreases |s|
  {
    var n := LeadingWhite(s);
    if n == 0 then s else TrimStart(s[n..])
  }

  function TrimEnd(s: Str): Str
    decreases |s|
  {
    var n := TrailingWhite(s);
    if n == 0 then s else TrimEnd(s[..|s| - n])
  }

  function Trim(s: Str): Str { TrimEnd(TrimStart(s)) }

  /** `split_whitespace`: the fields between runs of white space. */
  function Fields(s: Str): seq<Str> { FieldsFrom(s, []) }

  function FieldsFrom(s: Str, field: Str): seq<Str>
    decreases |s|
  {
    var done := if field == [] then [] else [field];
    var n := LeadingWhite(s);
    if s == [] then done
    else if n > 0 then done + FieldsFrom(s[n..], [])
    else FieldsFrom(s[1..], field + [s[0]])
  }

  /** `lines`: split at line feeds, one carriage return before each dropped, no last empty line. */
  function Lines(s: Str): seq<Str>
    decreases |s|
  {
    if s == [] then []
    else
      var n := IndexOf(s, NEWLINE);
      var line := s[..n];
      // A carriage return at the end of a last line without a line feed is kept.
      if n == |s| then [line]
      else [if EndsWith(line, [13]) then line[..n - 1] else line] + Lines(s[n + 1..])
  }

  // ----- texts put together

  predicate AllBlank(s: Str) { forall b :: b in s ==> IsWhite1(b) }

  lemma {:induction false} TrimStartBlanks(a: Str, s: Str)
    requires AllBlank(a)
    ensures TrimStart(a + s) == TrimStart(s)
    decreases |a|
  {
    if a == [] {
      assert a + s == s;
    } else {
      assert a[0] in a && (a + s)[0] == a[0];
      assert (a + s)[1..] == a[1..] + s;
      TrimStartBlanks(a[1..], s);
    }
  }

  lemma {:induction false} TrimEndBlanks(s: Str, b: Str)
    requires AllBlank(b)
    ensures TrimEnd(s + b) == TrimEnd(s)
    decreases |b|
  {
    if b == [] {
      assert s + b == s;
    } else {
      var n := |b| - 1;
      assert b[n] in b && (s + b)[|s| + n] == b[n];
      assert (s + b)[..|s| + n] == s + b[..n];
      TrimEndBlanks(s, b[..n]);
    }
  }

  /** Trimming takes the blanks around a text and nothing of the text. */
  lemma TrimBlanks(a: Str, s: Str, b: Str)
    requires AllBlank(a) && AllBlank(b) && s != [] && LeadingWhite(s) == 0 && TrailingWhite(s) == 0
    ensures Trim(a + s + b) == s
  {
    hide LeadingWhite, TrailingWhite, AllBlank, TrimStart, TrimEnd;
    assert a + s + b == a + (s + b);
    TrimStartBlanks(a, s + b);
    BlanksAfter(s, b);
    NothingToTrim(s + b);
    TrimEndBlanks(s, b);
    NothingToTrim(s);
  }

  lemma NothingToTrim(s: Str)
    ensures LeadingWhite(s) == 0 ==> TrimStart(s) == s
    ensures TrailingWhite(s) == 0 ==> TrimEnd(s) == s
  {
    hide LeadingWhite, TrailingWhite;
  }

  lemma BlanksAfter(s: Str, b: Str)
    requires AllBlank(b) && s != [] && LeadingWhite(s) == 0
    ensures LeadingWhite(s + b) == 0
  {
    var t := s + b;
    assert t[0] == s[0];
    if |t| > 1 { assert t[1] == if |s| > 1 then s[1] else b[0]; }
    if |t| > 2 { assert t[2] == if |s| > 2 then s[2] else b[2 - |s|]; }
    assert forall i :: 0 <= i < |b| ==> b[i] in b;
  }

  /** Each line with a line feed after it. */
  function Unlines(lines: seq<Str>): Str {
    if lines == [] then [] else lines[0] + [NEWLINE] + Unlines(lines[1..])
  }

  /** The lines of a text are those it was put together from. */
  lemma {:induction false} LinesOfUnlines(lines: seq<Str>)
    requires forall l :: l in lines ==> NEWLINE !in l && !EndsWith(l, [13])
    ensures Lines(Unlines(lines)) == lines
    decreases |lines|
  {
    hide IndexOf;
    if lines != [] {
      var first, rest := lines[0], Unlines(lines[1..]);
      LinesOfUnlines(lines[1..]);
      IndexOfAfter(first, NEWLINE, rest);
      var s := Unlines(lines);
      assert s[..|first|] == first && s[|first| + 1..] == rest;
      assert lines == [first] + lines[1..];
    }
  }

  /** A word of printed ASCII. */
  predicate IsWord(w: Str) { w != [] && Printed(w) }

  predicate Printed(w: Str) { forall i :: 0 <= i < |w| ==> 33 <= w[i] < 127 }

  lemma {:induction false} WordRead(w: Str, rest: Str, field: Str)
    requires Printed(w)
    ensures FieldsFrom(w + rest, field) == FieldsFrom(rest, field + w)
    decreases |w|
  {
    if w == [] {
      assert w + rest == rest && field + w == field;
    } else {
      assert (w + rest)[0] == w[0];
      assert (w + rest)[1..] == w[1..] + rest;
      WordRead(w[1..], rest, field + [w[0]]);
      assert field + [w[0]] + w[1..] == field + w;
    }
  }

  /** The fields of a text are the words it was put together from. */
  lemma {:induction false} FieldsOfWords(words: seq<Str>)
    requires words != [] && forall w :: w in words ==> IsWord(w)
    ensures Fields(Join(words, 32)) == words
    decreases |words|
  {
    var first := words[0];
    assert first in words && [] + first == first;
    if |words| == 1 {
      WordRead(first, [], []);
      assert first + [] == first;
      assert FieldsFrom([], first) == [first];
    } else {
      var rest := Join(words[1..], 32);
      FieldsOfWords(words[1..]);
      WordRead(first, [32] + rest, []);
      assert Join(words, 32) == first + ([32] + rest);
      BlankRead(rest, first);
      assert words == [first] + words[1..];
    }
  }

  lemma BlankRead(rest: Str, field: Str)
    requires field != []
    ensures FieldsFrom([32] + rest, field) == [field] + FieldsFrom(rest, [])
  {
    assert ([32] + rest)[1..] == rest;
  }
}
