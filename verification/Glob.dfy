/** Wildcard globs (wildcard.rs): the language a glob denotes, the backtracking matcher,
    and the facts about the language that the index, the rule compiler and the exemptions
    rest on. */
module Glob {
  import opened Bytes

  /** The language of a glob: `*` stands for any run of bytes, dots included, and every
      other byte for itself, ASCII letters of the text in either case. */
  predicate Matches(glob: seq<byte>, text: seq<byte>) {
    if glob == [] then
      text == []
    else if glob[0] == STAR then
      exists k :: 0 <= k <= |text| && Matches(glob[1..], text[k..])
    else
      text != [] && Lower(text[0]) == glob[0] && Matches(glob[1..], text[1..])
  }

  predicate Literal(glob: seq<byte>) {
    forall i :: 0 <= i < |glob| ==> glob[i] != STAR
  }

  predicate AllStars(glob: seq<byte>) {
    forall i :: 0 <= i < |glob| ==> glob[i] == STAR
  }

  /** A glob matches when its first part matches a prefix and the rest the remaining text. */
  lemma {:induction false} MatchesSplit(g1: seq<byte>, g2: seq<byte>, text: seq<byte>)
    requires Matches(g1 + g2, text)
    ensures exists k :: 0 <= k <= |text| && Matches(g1, text[..k]) && Matches(g2, text[k..])
    decreases |g1|
  {
    if g1 == [] {
      assert g1 + g2 == g2 && text[..0] == [] && text[0..] == text;
    } else {
      assert (g1 + g2)[1..] == g1[1..] + g2;
      var j := if g1[0] == STAR then var j :| 0 <= j <= |text| && Matches((g1 + g2)[1..], text[j..]); j else 1;
      MatchesSplit(g1[1..], g2, text[j..]);
      var k :| 0 <= k <= |text[j..]| && Matches(g1[1..], text[j..][..k]) && Matches(g2, text[j..][k..]);
      assert text[..j + k][j..] == text[j..][..k] && text[j..][k..] == text[j + k..];
    }
  }

  lemma {:induction false} MatchesJoin(g1: seq<byte>, t1: seq<byte>, g2: seq<byte>, t2: seq<byte>)
    requires Matches(g1, t1) && Matches(g2, t2)
    ensures Matches(g1 + g2, t1 + t2)
    decreases |g1|
  {
    if g1 == [] {
      assert g1 + g2 == g2 && t1 + t2 == t2;
    } else {
      var j := if g1[0] == STAR then var j :| 0 <= j <= |t1| && Matches(g1[1..], t1[j..]); j else 1;
      MatchesJoin(g1[1..], t1[j..], g2, t2);
      assert (g1 + g2)[1..] == g1[1..] + g2 && (t1 + t2)[j..] == t1[j..] + t2;
    }
  }

  /** A glob without `*` matches exactly the texts that lowercase to it. */
  lemma {:induction false} LiteralMatches(glob: seq<byte>, text: seq<byte>)
    requires Literal(glob)
    ensures Matches(glob, text) <==> Lowercase(text) == glob
  {
    if glob != [] && text != [] {
      LiteralMatches(glob[1..], text[1..]);
      LowercaseSplit(text, 1);
      assert glob == [glob[0]] + glob[1..];
      assert Lowercase(text) == [Lower(text[0])] + Lowercase(text[1..]);
    }
  }

  lemma StarMatches(text: seq<byte>)
    ensures Matches([STAR], text)
  {
    assert text[|text|..] == [] && [STAR][1..] == [];
    assert Matches([STAR][1..], text[|text|..]);
  }

  /** A glob that starts with `*` matches a text when it matches one of its suffixes. */
  lemma StarAbsorbs(rest: seq<byte>, text: seq<byte>, k: nat)
    requires k <= |text| && Matches([STAR] + rest, text[k..])
    ensures Matches([STAR] + rest, text)
  {
    assert ([STAR] + rest)[1..] == rest;
    var j :| 0 <= j <= |text[k..]| && Matches(rest, text[k..][j..]);
    assert text[k..][j..] == text[k + j..];
  }

  /** A match of a literal part followed by more consumes the literal part first. */
  lemma LiteralHead(lit: seq<byte>, rest: seq<byte>, text: seq<byte>)
    requires Literal(lit) && Matches(lit + rest, text)
    ensures |lit| <= |text| && Lowercase(text[..|lit|]) == lit && Matches(rest, text[|lit|..])
  {
    MatchesSplit(lit, rest, text);
    var k :| 0 <= k <= |text| && Matches(lit, text[..k]) && Matches(rest, text[k..]);
    LiteralMatches(lit, text[..k]);
  }

  lemma LiteralTail(front: seq<byte>, lit: seq<byte>, text: seq<byte>)
    requires Literal(lit) && Matches(front + lit, text)
    ensures EndsWith(Lowercase(text), lit)
  {
    MatchesSplit(front, lit, text);
    var k :| 0 <= k <= |text| && Matches(front, text[..k]) && Matches(lit, text[k..]);
    LiteralMatches(lit, text[k..]);
    LowercaseSplit(text, k);
  }

  lemma {:induction false} EmptyText(glob: seq<byte>)
    ensures Matches(glob, []) <==> AllStars(glob)
  {
    if glob != [] {
      EmptyText(glob[1..]);
      var e: seq<byte> := [];
      assert forall k :: 0 <= k <= |e| ==> e[k..] == [];
      assert glob[0] == STAR ==> (Matches(glob, []) <==> Matches(glob[1..], e[0..]));
      assert glob == [glob[0]] + glob[1..];
    }
  }

  // ----- the backtracking loop

  /** The texts still worth trying when the last `*` seen is at `starG` and stands in for the
      text up to `starT`: a match from `g`, `t` on, or one where that `*` takes more. */
  ghost predicate Open(glob: seq<byte>, text: seq<byte>, g: nat, t: nat, star: Option<(nat, nat)>)
    requires g <= |glob| && t <= |text|
    requires star.Some? ==> star.value.0 < |glob| && star.value.1 <= |text|
  {
    || Matches(glob[g..], text[t..])
    || (star.Some? && exists k :: star.value.1 < k <= |text| && Matches(glob[star.value.0 + 1..], text[k..]))
  }

  /** What links the positions to the last `*`: the glob bytes since it are literals, and as
      many text bytes were matched against them. */
  ghost predicate Aligned(glob: seq<byte>, text: seq<byte>, g: nat, t: nat, star: Option<(nat, nat)>)
  {
    && g <= |glob| && t <= |text|
    && (star.Some? ==>
          && star.value.0 < g && star.value.1 <= t
          && glob[star.value.0] == STAR
          && t - star.value.1 == g - star.value.0 - 1
          && Literal(glob[star.value.0 + 1..g]))
  }

  /** If an earlier `*` could take more and lead to a match, so can the next one from `t`. */
  lemma EarlierStar(lit: seq<byte>, rest: seq<byte>, text: seq<byte>, t: nat, k: nat)
    requires Literal(lit) && t <= k + |lit| && t <= |text| && k <= |text|
    requires Matches(lit + ([STAR] + rest), text[k..])
    ensures Matches([STAR] + rest, text[t..])
  {
    hide Matches;
    LiteralHead(lit, [STAR] + rest, text[k..]);
    assert text[k..][|lit|..] == text[t..][k + |lit| - t..];
    StarAbsorbs(rest, text[t..], k + |lit| - t);
  }

  /** Meeting the next `*`, no earlier one needs to take more. */
  lemma OpenAtStar(glob: seq<byte>, text: seq<byte>, g: nat, t: nat, star: Option<(nat, nat)>)
    requires Aligned(glob, text, g, t, star) && g < |glob| && glob[g] == STAR
    ensures Open(glob, text, g, t, star) <==> Open(glob, text, g + 1, t, Some((g, t)))
  {
    assert glob[g..][1..] == glob[g + 1..] && glob[g..] == [STAR] + glob[g + 1..];
    assert forall k :: 0 <= k <= |text[t..]| ==> text[t..][k..] == text[t + k..];
    if Open(glob, text, g + 1, t, Some((g, t))) {
      if k :| t < k <= |text| && Matches(glob[g + 1..], text[k..]) {
        assert Matches(glob[g..][1..], text[t..][k - t..]);
      } else {
        assert Matches(glob[g..][1..], text[t..][0..]);
      }
    }
    if Open(glob, text, g, t, star) {
      if !Matches(glob[g..], text[t..]) {
        var (sg, st) := star.value;
        var k :| st < k <= |text| && Matches(glob[sg + 1..], text[k..]);
        assert glob[sg + 1..] == glob[sg + 1..g] + ([STAR] + glob[g + 1..]);
        EarlierStar(glob[sg + 1..g], glob[g + 1..], text, t, k);
      }
      var k :| 0 <= k <= |text[t..]| && Matches(glob[g..][1..], text[t..][k..]);
      assert text[t..][k..] == text[t + k..];
    }
  }

  /** A byte that fits moves both positions on and loses nothing. */
  lemma OpenAtByte(glob: seq<byte>, text: seq<byte>, g: nat, t: nat, star: Option<(nat, nat)>)
    requires Aligned(glob, text, g, t, star) && g < |glob| && t < |text|
    requires glob[g] != STAR && glob[g] == Lower(text[t])
    ensures Aligned(glob, text, g + 1, t + 1, star)
    ensures Open(glob, text, g, t, star) <==> Open(glob, text, g + 1, t + 1, star)
  {
    if star.Some? {
      assert glob[star.value.0 + 1..g + 1] == glob[star.value.0 + 1..g] + [glob[g]];
    }
    assert glob[g..][1..] == glob[g + 1..] && text[t..][1..] == text[t + 1..];
  }

  /** A byte that does not fit makes the last `*` take one more byte. */
  lemma OpenAtMismatch(glob: seq<byte>, text: seq<byte>, g: nat, t: nat, star: Option<(nat, nat)>)
    requires Aligned(glob, text, g, t, star) && t < |text|
    requires g < |glob| ==> glob[g] != STAR && glob[g] != Lower(text[t])
    ensures star.None? ==> !Open(glob, text, g, t, star)
    ensures star.Some? ==>
              var (sg, st) := star.value;
              Open(glob, text, g, t, star) <==> Open(glob, text, sg + 1, st + 1, Some((sg, st + 1)))
  {
    assert !Matches(glob[g..], text[t..]);
  }

  /** With the text used up, only `*` may be left of the glob, and no `*` can take more. */
  lemma OpenAtEnd(glob: seq<byte>, text: seq<byte>, g: nat, star: Option<(nat, nat)>)
    requires Aligned(glob, text, g, |text|, star)
    ensures Open(glob, text, g, |text|, star) <==> AllStars(glob[g..])
  {
    EmptyText(glob[g..]);
    assert text[|text|..] == [];
    if star.Some? {
      var (sg, st) := star.value;
      forall k | st < k <= |text| ensures !Matches(glob[sg + 1..], text[k..]) {
        if Matches(glob[sg + 1..], text[k..]) {
          assert glob[sg + 1..] == glob[sg + 1..g] + glob[g..];
          LiteralHead(glob[sg + 1..g], glob[g..], text[k..]);
        }
      }
    }
  }

  method GlobMatches(glob: seq<byte>, text: seq<byte>) returns (r: bool)
    ensures r <==> Matches(glob, text)
  {
    hide Matches;
    var g, t := 0, 0;
    var star: Option<(nat, nat)> := None;
    assert glob[0..] == glob && text[0..] == text;
    while t < |text|
      invariant Aligned(glob, text, g, t, star)
      invariant Open(glob, text, g, t, star) <==> Matches(glob, text)
      decreases |glob| - (if star.Some? then star.value.0 else -1),
                |text| - (if star.Some? then star.value.1 else 0),
                |text| - t
    {
      if g < |glob| && glob[g] == STAR {
        OpenAtStar(glob, text, g, t, star);
        star := Some((g, t));
        g := g + 1;
      } else if g < |glob| && glob[g] == Lower(text[t]) {
        OpenAtByte(glob, text, g, t, star);
        g, t := g + 1, t + 1;
      } else {
        OpenAtMismatch(glob, text, g, t, star);
        match star
        case Some((starG, starT)) =>
          g, t := starG + 1, starT + 1;
          star := Some((starG, starT + 1));
        case None =>
          return false;
      }
    }
    OpenAtEnd(glob, text, g, star);
    r := AllStars(glob[g..]);
  }
}
