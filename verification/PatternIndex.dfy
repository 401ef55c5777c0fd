/** The index over wildcard patterns (wildcard.rs, `PatternSet`): each pattern is filed under
    its literal head or tail, and a lookup tries only those filed under what the host shows. */
module PatternIndex {
  import opened Bytes
  import opened Glob
  import opened Patterns
  import opened Trie

  datatype PatternSet = PatternSet(patterns: seq<Pattern>, heads: Trie, tails: Trie, unkeyed: seq<nat>)

  /** The pattern with this id is filed in one of the three places, under its own key. */
  ghost predicate FiledSomewhere(patterns: seq<Pattern>, hs: seq<Entry>, ts: seq<Entry>, unkeyed: seq<nat>, id: nat)
    requires id < |patterns|
  {
    var glob := patterns[id].glob;
    || Entry(Head(glob), id) in hs
    || Entry(Reverse(Tail(glob)), id) in ts
    || id in unkeyed
  }

  /** Whatever is filed is a pattern of the set. */
  ghost predicate FiledIds(n: nat, hs: seq<Entry>, ts: seq<Entry>, unkeyed: seq<nat>) {
    && (forall e :: e in hs || e in ts ==> e.id < n)
    && (forall id :: id in unkeyed ==> id < n)
  }

  ghost predicate FiledAll(patterns: seq<Pattern>, n: nat, hs: seq<Entry>, ts: seq<Entry>, unkeyed: seq<nat>)
    requires n <= |patterns|
  {
    && FiledIds(n, hs, ts, unkeyed)
    && forall id: nat :: id < n ==> FiledSomewhere(patterns, hs, ts, unkeyed, id)
  }

  ghost predicate IndexedBy(set_: PatternSet, hs: seq<Entry>, ts: seq<Entry>) {
    && Represents(set_.heads, hs)
    && Represents(set_.tails, ts)
    && FiledAll(set_.patterns, |set_.patterns|, hs, ts, set_.unkeyed)
  }

  ghost predicate Indexed(set_: PatternSet) {
    exists hs, ts :: IndexedBy(set_, hs, ts)
  }

  function GlobBytes(patterns: seq<Pattern>): nat {
    if patterns == [] then 0 else |patterns[|patterns| - 1].glob| + GlobBytes(patterns[..|patterns| - 1])
  }

  lemma {:induction false} KeyBytesAppend(es: seq<Entry>, e: Entry)
    ensures KeyBytes(es + [e]) == KeyBytes(es) + |e.key|
  {
    if es == [] {
      assert es + [e] == [e] && [e][1..] == [];
    } else {
      KeyBytesAppend(es[1..], e);
      assert (es + [e])[1..] == es[1..] + [e];
    }
  }

  lemma {:induction false} GlobBytesPrefix(patterns: seq<Pattern>, n: nat)
    requires n <= |patterns|
    ensures GlobBytes(patterns[..n]) <= GlobBytes(patterns)
    decreases |patterns| - n
  {
    if n == |patterns| {
      assert patterns[..n] == patterns;
    } else {
      GlobBytesPrefix(patterns, n + 1);
      assert patterns[..n + 1][..n] == patterns[..n];
    }
  }

  lemma FiledOneMore(patterns: seq<Pattern>, n: nat, hs: seq<Entry>, ts: seq<Entry>, unkeyed: seq<nat>,
                     hs': seq<Entry>, ts': seq<Entry>, unkeyed': seq<nat>)
    requires n < |patterns| && FiledAll(patterns, n, hs, ts, unkeyed)
    requires hs <= hs' && ts <= ts' && unkeyed <= unkeyed'
    requires FiledIds(n + 1, hs', ts', unkeyed') && FiledSomewhere(patterns, hs', ts', unkeyed', n)
    ensures FiledAll(patterns, n + 1, hs', ts', unkeyed')
  {
    hide FiledIds;
    forall id: nat | id < n ensures FiledSomewhere(patterns, hs', ts', unkeyed', id) {
      assert FiledSomewhere(patterns, hs, ts, unkeyed, id);
    }
  }

  ghost predicate NoKeys(patterns: seq<Pattern>, unkeyed: seq<nat>) {
    forall id :: id in unkeyed ==> id < |patterns| && Head(patterns[id].glob) == [] && Tail(patterns[id].glob) == []
  }

  /** The first `n` patterns are filed, with keys no longer than their globs. */
  ghost predicate FiledSoFar(patterns: seq<Pattern>, n: nat, hs: seq<Entry>, ts: seq<Entry>, unkeyed: seq<nat>)
    requires n <= |patterns|
  {
    && FiledAll(patterns, n, hs, ts, unkeyed)
    && NonemptyKeys(hs) && NonemptyKeys(ts)
    && KeyBytes(hs) + KeyBytes(ts) <= GlobBytes(patterns[..n])
    && |hs| + |ts| + |unkeyed| == n
    && NoKeys(patterns, unkeyed)
  }

  lemma GlobBytesNext(patterns: seq<Pattern>, n: nat)
    requires n < |patterns|
    ensures GlobBytes(patterns[..n + 1]) == GlobBytes(patterns[..n]) + |patterns[n].glob|
  {
    assert patterns[..n + 1][..n] == patterns[..n];
  }

  lemma FiledTail(patterns: seq<Pattern>, n: nat, hs: seq<Entry>, ts: seq<Entry>, unkeyed: seq<nat>)
    requires n < |patterns| && FiledSoFar(patterns, n, hs, ts, unkeyed) && Tail(patterns[n].glob) != []
    ensures FiledSoFar(patterns, n + 1, hs, ts + [Entry(Reverse(Tail(patterns[n].glob)), n)], unkeyed)
  {
    var e := Entry(Reverse(Tail(patterns[n].glob)), n);
    GlobBytesNext(patterns, n);
    hide Head, KeyBytes, GlobBytes, NoKeys;
    KeyBytesAppend(ts, e);
    FiledOneMore(patterns, n, hs, ts, unkeyed, hs, ts + [e], unkeyed);
  }

  lemma FiledHead(patterns: seq<Pattern>, n: nat, hs: seq<Entry>, ts: seq<Entry>, unkeyed: seq<nat>)
    requires n < |patterns| && FiledSoFar(patterns, n, hs, ts, unkeyed) && Head(patterns[n].glob) != []
    ensures FiledSoFar(patterns, n + 1, hs + [Entry(Head(patterns[n].glob), n)], ts, unkeyed)
  {
    var e := Entry(Head(patterns[n].glob), n);
    GlobBytesNext(patterns, n);
    hide Tail, KeyBytes, GlobBytes, NoKeys;
    KeyBytesAppend(hs, e);
    FiledOneMore(patterns, n, hs, ts, unkeyed, hs + [e], ts, unkeyed);
  }

  lemma FiledUnkeyed(patterns: seq<Pattern>, n: nat, hs: seq<Entry>, ts: seq<Entry>, unkeyed: seq<nat>)
    requires n < |patterns| && FiledSoFar(patterns, n, hs, ts, unkeyed)
    requires Head(patterns[n].glob) == [] && Tail(patterns[n].glob) == []
    ensures FiledSoFar(patterns, n + 1, hs, ts, unkeyed + [n])
  {
    GlobBytesNext(patterns, n);
    hide Head, Tail, KeyBytes, GlobBytes;
    FiledOneMore(patterns, n, hs, ts, unkeyed, hs, ts, unkeyed + [n]);
  }

  lemma FiledNone(patterns: seq<Pattern>)
    ensures FiledSoFar(patterns, 0, [], [], [])
  {
  }

  lemma FiledWhole(patterns: seq<Pattern>, hs: seq<Entry>, ts: seq<Entry>, unkeyed: seq<nat>)
    requires FiledSoFar(patterns, |patterns|, hs, ts, unkeyed)
    ensures FiledAll(patterns, |patterns|, hs, ts, unkeyed) && NonemptyKeys(hs) && NonemptyKeys(ts)
    ensures KeyBytes(hs) + KeyBytes(ts) <= GlobBytes(patterns) && |hs| + |ts| + |unkeyed| == |patterns|
    ensures forall id :: id in unkeyed ==>
              id < |patterns| && Head(patterns[id].glob) == [] && Tail(patterns[id].glob) == []
  {
    assert patterns[..|patterns|] == patterns;
  }

  /** The loop of `PatternSet::new`: files each pattern under the longer of its head and
      tail, a tail winning a tie, and without either in the list tried on every lookup. */
  method File(patterns: seq<Pattern>) returns (hs: seq<Entry>, ts: seq<Entry>, unkeyed: seq<nat>)
    ensures FiledAll(patterns, |patterns|, hs, ts, unkeyed)
    ensures NonemptyKeys(hs) && NonemptyKeys(ts)
    ensures KeyBytes(hs) + KeyBytes(ts) <= GlobBytes(patterns)
    ensures |hs| + |ts| + |unkeyed| == |patterns|
    ensures forall id :: id in unkeyed ==>
              id < |patterns| && Head(patterns[id].glob) == [] && Tail(patterns[id].glob) == []
  {
    hs, ts, unkeyed := [], [], [];
    FiledNone(patterns);
    hide Head, Tail, Reverse, FiledSoFar, FiledAll, NonemptyKeys, KeyBytes, GlobBytes;
    var id := 0;
    while id < |patterns|
      invariant 0 <= id <= |patterns| && FiledSoFar(patterns, id, hs, ts, unkeyed)
    {
      var head, tail := Head(patterns[id].glob), Tail(patterns[id].glob);
      if tail != [] && |tail| >= |head| {
        FiledTail(patterns, id, hs, ts, unkeyed);
        ts := ts + [Entry(Reverse(tail), id)];
      } else if head != [] {
        FiledHead(patterns, id, hs, ts, unkeyed);
        hs := hs + [Entry(head, id)];
      } else {
        FiledUnkeyed(patterns, id, hs, ts, unkeyed);
        unkeyed := unkeyed + [id];
      }
      id := id + 1;
    }
    FiledWhole(patterns, hs, ts, unkeyed);
  }

  /** `PatternSet::new`. */
  method NewPatternSet(patterns: seq<Pattern>) returns (set_: PatternSet)
    requires |patterns| <= U32_MAX && GlobBytes(patterns) <= U32_MAX
    ensures set_.patterns == patterns && Indexed(set_)
    ensures forall id :: id in set_.unkeyed ==>
              id < |patterns| && Head(patterns[id].glob) == [] && Tail(patterns[id].glob) == []
  {
    var hs, ts, unkeyed := File(patterns);
    var heads := BuildTrie(hs);
    var tails := BuildTrie(ts);
    set_ := PatternSet(patterns, heads, tails, unkeyed);
    assert IndexedBy(set_, hs, ts);
  }

  // ----- the lookup finds what a scan would

  /** A matching pattern shows up where it is filed. */
  ghost predicate Shown(set_: PatternSet, hs: seq<Entry>, ts: seq<Entry>, host: seq<byte>) {
    || Found(ts, Reverse(Lowercase(host)), WholeHost(set_.patterns, host))
    || (exists start :: IsStart(host, start) &&
          Found(hs, Lowercase(host[start..]), NameAt(set_.patterns, host, start)))
    || (exists id :: id in set_.unkeyed && id < |set_.patterns| && PatternMatches(set_.patterns[id], host))
  }

  /** Where the host or one of its parents starts. */
  predicate IsStart(host: seq<byte>, start: int) {
    0 <= start <= |host| && (start == 0 || host[start - 1] == DOT)
  }

  /** A pattern matches exactly at the starts of names it may match. */
  lemma MatchesAtStart(p: Pattern, host: seq<byte>)
    ensures PatternMatches(p, host) <==>
            exists start :: IsStart(host, start) && (start == 0 || p.parents) && Matches(p.glob, host[start..])
  {
    hide Matches;
    assert host[0..] == host;
    if Matches(p.glob, host) {
      assert IsStart(host, 0) && Matches(p.glob, host[0..]);
    } else if PatternMatches(p, host) {
      var i :| 0 <= i < |host| && host[i] == DOT && Matches(p.glob, host[i + 1..]);
      assert IsStart(host, i + 1);
    }
    if start :| IsStart(host, start) && (start == 0 || p.parents) && Matches(p.glob, host[start..]) {
      if start > 0 {
        assert host[start - 1] == DOT && Matches(p.glob, host[start - 1 + 1..]);
      }
    }
  }

  lemma ShownIfMatches(set_: PatternSet, hs: seq<Entry>, ts: seq<Entry>, host: seq<byte>, id: nat)
    requires FiledAll(set_.patterns, |set_.patterns|, hs, ts, set_.unkeyed)
    requires id < |set_.patterns| && PatternMatches(set_.patterns[id], host)
    ensures Shown(set_, hs, ts, host)
  {
    hide Matches;
    var p := set_.patterns[id];
    assert FiledSomewhere(set_.patterns, hs, ts, set_.unkeyed, id);
    if Entry(Reverse(Tail(p.glob)), id) in ts {
      HostEndsWithTail(p, host);
      assert WholeHost(set_.patterns, host).Accepts(id);
    } else if Entry(Head(p.glob), id) in hs {
      MatchesAtStart(p, host);
      var start :| IsStart(host, start) && (start == 0 || p.parents) && Matches(p.glob, host[start..]);
      MatchStartsWithHead(p.glob, host[start..]);
      assert NameAt(set_.patterns, host, start).Accepts(id);
      assert Found(hs, Lowercase(host[start..]), NameAt(set_.patterns, host, start));
    }
  }

  lemma MatchesIfShown(set_: PatternSet, hs: seq<Entry>, ts: seq<Entry>, host: seq<byte>)
    requires Shown(set_, hs, ts, host)
    ensures AnyMatches(set_.patterns, host)
  {
    hide Matches;
    if Found(ts, Reverse(Lowercase(host)), WholeHost(set_.patterns, host)) {
      var e :| e in ts && e.key <= Reverse(Lowercase(host)) && WholeHost(set_.patterns, host).Accepts(e.id);
    } else if start :| IsStart(host, start) && Found(hs, Lowercase(host[start..]), NameAt(set_.patterns, host, start)) {
      var e :| e in hs && e.key <= Lowercase(host[start..]) && NameAt(set_.patterns, host, start).Accepts(e.id);
      MatchesAtStart(set_.patterns[e.id], host);
    }
  }

  /** The index refines the naive scan. */
  lemma ShownIsAnyMatches(set_: PatternSet, hs: seq<Entry>, ts: seq<Entry>, host: seq<byte>)
    requires FiledAll(set_.patterns, |set_.patterns|, hs, ts, set_.unkeyed)
    ensures Shown(set_, hs, ts, host) <==> AnyMatches(set_.patterns, host)
  {
    hide PatternMatches, Shown;
    if Shown(set_, hs, ts, host) { MatchesIfShown(set_, hs, ts, host); }
    if AnyMatches(set_.patterns, host) {
      var id :| 0 <= id < |set_.patterns| && PatternMatches(set_.patterns[id], host);
      ShownIfMatches(set_, hs, ts, host, id);
    }
  }

  /** The part of the lookup that follows the heads from the host and from each of its labels. */
  method HeadFound(set_: PatternSet, ghost hs: seq<Entry>, host: seq<byte>) returns (r: bool)
    requires Represents(set_.heads, hs)
    ensures r <==> exists start :: IsStart(host, start) &&
                     Found(hs, Lowercase(host[start..]), NameAt(set_.patterns, host, start))
  {
    hide Represents, Found;
    var start := 0;
    while start <= |host|
      invariant 0 <= start <= |host| + 1
      invariant forall s :: 0 <= s < start && IsStart(host, s) ==>
                  !Found(hs, Lowercase(host[s..]), NameAt(set_.patterns, host, s))
    {
      if IsStart(host, start) {
        r := Any(set_.heads, hs, Lowercase(host[start..]), NameAt(set_.patterns, host, start));
        if r {
          return;
        }
      }
      start := start + 1;
    }
    r := false;
  }

  lemma NothingFiled(heads: Trie, hs: seq<Entry>, host: seq<byte>, patterns: seq<Pattern>)
    requires Represents(heads, hs) && heads.root == []
    ensures forall start :: IsStart(host, start) ==>
              !Found(hs, Lowercase(host[start..]), NameAt(patterns, host, start))
  {
    RootNonempty(heads, hs);
  }

  lemma UnkeyedIds(set_: PatternSet, hs: seq<Entry>, ts: seq<Entry>)
    requires IndexedBy(set_, hs, ts)
    ensures forall k :: 0 <= k < |set_.unkeyed| ==> set_.unkeyed[k] < |set_.patterns|
  {
    assert FiledIds(|set_.patterns|, hs, ts, set_.unkeyed);
    assert forall k :: 0 <= k < |set_.unkeyed| ==> set_.unkeyed[k] in set_.unkeyed;
  }

  /** `PatternSet::matches`: agrees with trying every pattern in turn. */
  method MatchesHost(set_: PatternSet, host: seq<byte>) returns (r: bool)
    requires Indexed(set_)
    ensures r <==> AnyMatches(set_.patterns, host)
  {
    hide Represents, FiledAll, PatternMatches, AnyMatches, Found;
    ghost var hs, ts :| IndexedBy(set_, hs, ts);
    ShownIsAnyMatches(set_, hs, ts, host);
    r := Any(set_.tails, ts, Reverse(Lowercase(host)), WholeHost(set_.patterns, host));
    if r {
      return;
    }
    if set_.heads.root != [] {
      r := HeadFound(set_, hs, host);
      if r {
        return;
      }
    } else {
      NothingFiled(set_.heads, hs, host, set_.patterns);
    }
    UnkeyedIds(set_, hs, ts);
    var i := 0;
    while i < |set_.unkeyed|
      invariant 0 <= i <= |set_.unkeyed|
      invariant forall k :: 0 <= k < i ==> !PatternMatches(set_.patterns[set_.unkeyed[k]], host)
    {
      r := MatchPattern(set_.patterns[set_.unkeyed[i]], host);
      if r {
        return;
      }
      i := i + 1;
    }
    r := false;
  }
}
