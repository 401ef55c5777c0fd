/** Wildcard patterns (wildcard.rs): when one matches a host, and its literal head and tail. */
module Patterns {
  import opened Bytes
  import opened Glob

  /** A glob, and whether a parent of the host may match too (`||`), not only the host. */
  datatype Pattern = Pattern(glob: seq<byte>, parents: bool)

  predicate PatternMatches(p: Pattern, host: seq<byte>) {
    || Matches(p.glob, host)
    || (p.parents && exists i :: 0 <= i < |host| && host[i] == DOT && Matches(p.glob, host[i + 1..]))
  }

  /** The naive scan: some pattern of the list matches the host. */
  ghost predicate AnyMatches(patterns: seq<Pattern>, host: seq<byte>) {
    exists i :: 0 <= i < |patterns| && PatternMatches(patterns[i], host)
  }

  /** What the lookup asks of a candidate: does it match the host or a parent (candidates
      found by their tail, or without a key), or does it match just the name at `start`
      (candidates found by their head)? */
  datatype Probe =
    | WholeHost(patterns: seq<Pattern>, host: seq<byte>)
    | NameAt(patterns: seq<Pattern>, host: seq<byte>, start: nat)
  {
    ghost predicate Accepts(id: nat) {
      match this
      case WholeHost(ps, h) => id < |ps| && PatternMatches(ps[id], h)
      case NameAt(ps, h, start) =>
        id < |ps| && start <= |h| && (start == 0 || ps[id].parents) && Matches(ps[id].glob, h[start..])
    }
  }

  /** `Pattern::matches`: the host first, then each name after a dot. */
  method MatchPattern(p: Pattern, host: seq<byte>) returns (r: bool)
    ensures r <==> PatternMatches(p, host)
  {
    hide Matches;
    r := GlobMatches(p.glob, host);
    if r || !p.parents {
      return;
    }
    var i := 0;
    while i < |host|
      invariant 0 <= i <= |host|
      invariant forall k :: 0 <= k < i && host[k] == DOT ==> !Matches(p.glob, host[k + 1..])
    {
      if host[i] == DOT {
        var found := GlobMatches(p.glob, host[i + 1..]);
        if found {
          assert IsParent(host, host[i + 1..]);
          return true;
        }
      }
      i := i + 1;
    }
  }

  method Accept(probe: Probe, id: nat) returns (r: bool)
    ensures r <==> probe.Accepts(id)
  {
    if id >= |probe.patterns| {
      return false;
    }
    var p := probe.patterns[id];
    match probe
    case WholeHost(_, host) =>
      r := MatchPattern(p, host);
    case NameAt(_, host, start) =>
      if start <= |host| && (start == 0 || p.parents) {
        r := GlobMatches(p.glob, host[start..]);
      } else {
        r := false;
      }
  }

  /** Where the first `*` is, or the length without one. */
  function FirstStar(glob: seq<byte>): (n: nat)
    ensures n <= |glob| && Literal(glob[..n]) && (n < |glob| ==> glob[n] == STAR)
  {
    if glob == [] || glob[0] == STAR then 0
    else
      assert forall i :: 0 < i < 1 + FirstStar(glob[1..]) ==> glob[i] == glob[1..][..FirstStar(glob[1..])][i - 1];
      1 + FirstStar(glob[1..])
  }

  /** One past the last `*`, or 0 without one. */
  function AfterLastStar(glob: seq<byte>): (n: nat)
    ensures n <= |glob| && Literal(glob[n..]) && (n > 0 ==> glob[n - 1] == STAR)
  {
    if glob == [] || glob[|glob| - 1] == STAR then |glob|
    else
      var front := glob[..|glob| - 1];
      var n := AfterLastStar(front);
      assert forall i :: n <= i < |front| ==> glob[i] == front[n..][i - n];
      n
  }

  /** The text before the first `*`. */
  function Head(glob: seq<byte>): seq<byte> { glob[..FirstStar(glob)] }

  /** The text after the last `*`. */
  function Tail(glob: seq<byte>): seq<byte> { glob[AfterLastStar(glob)..] }

  function Reverse(s: seq<byte>): (r: seq<byte>)
    ensures |r| == |s| && forall i :: 0 <= i < |s| ==> r[i] == s[|s| - 1 - i]
  {
    seq(|s|, i requires 0 <= i < |s| => s[|s| - 1 - i])
  }

  /** A matching name starts with the head. */
  lemma MatchStartsWithHead(glob: seq<byte>, name: seq<byte>)
    requires Matches(glob, name)
    ensures Head(glob) <= Lowercase(name)
  {
    var n := FirstStar(glob);
    assert glob == glob[..n] + glob[n..];
    LiteralHead(glob[..n], glob[n..], name);
    LowercaseSplit(name, n);
  }

  lemma EndsWithReversed(s: seq<byte>, tail: seq<byte>)
    requires EndsWith(s, tail)
    ensures Reverse(tail) <= Reverse(s)
  {
    forall i | 0 <= i < |tail| ensures Reverse(tail)[i] == Reverse(s)[i] {
      assert s[|s| - |tail|..][|tail| - 1 - i] == tail[|tail| - 1 - i];
    }
  }

  lemma EndsWithMore(s: seq<byte>, at: nat, tail: seq<byte>)
    requires at <= |s| && EndsWith(s[at..], tail)
    ensures EndsWith(s, tail)
  {
  }

  lemma NameEndsWithTail(glob: seq<byte>, host: seq<byte>, at: nat)
    requires at <= |host| && Matches(glob, host[at..])
    ensures Reverse(Tail(glob)) <= Reverse(Lowercase(host))
  {
    hide Matches, Reverse, Literal;
    var n := AfterLastStar(glob);
    assert glob == glob[..n] + glob[n..];
    LiteralTail(glob[..n], glob[n..], host[at..]);
    LowercaseSplit(host, at);
    EndsWithMore(Lowercase(host), at, glob[n..]);
    EndsWithReversed(Lowercase(host), glob[n..]);
  }

  /** A host that a pattern matches, itself or by a parent, ends with the tail. */
  lemma HostEndsWithTail(p: Pattern, host: seq<byte>)
    requires PatternMatches(p, host)
    ensures Reverse(Tail(p.glob)) <= Reverse(Lowercase(host))
  {
    hide Matches;
    if Matches(p.glob, host) {
      assert host[0..] == host;
      NameEndsWithTail(p.glob, host, 0);
    } else {
      var i :| 0 <= i < |host| && host[i] == DOT && Matches(p.glob, host[i + 1..]);
      NameEndsWithTail(p.glob, host, i + 1);
    }
  }
}
