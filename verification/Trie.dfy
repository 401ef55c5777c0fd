/** The flattened trie of the pattern index (wildcard.rs): built level by level into six
    arrays, and walked along a text. */
module Trie {
  import opened Bytes
  import opened Ordering
  import opened Patterns

  datatype Entry = Entry(key: seq<byte>, id: nat)

  datatype Trie = Trie(
    root: seq<nat>,
    edgeStart: seq<nat>,
    edgeBytes: seq<byte>,
    edgeNodes: seq<nat>,
    idStart: seq<nat>,
    ids: seq<nat>)

  const EMPTY := Trie([], [], [], [], [], [])

  /** A node to be written: its run of the sorted entries and the length of its path. */
  datatype Run = Run(lo: nat, hi: nat, depth: nat)

  /** The lookup the trie stands for: some entry's key starts the text and its id is accepted. */
  ghost predicate Found(entries: seq<Entry>, text: seq<byte>, probe: Probe) {
    exists e :: e in entries && e.key <= text && probe.Accepts(e.id)
  }

  // ----- the order of entries

  predicate EntryLe(a: Entry, b: Entry) {
    if a.key == b.key then a.id <= b.id else LexLe(a.key, b.key)
  }

  lemma EntryOrder()
    ensures TotalOrder(EntryLe)
  {
    forall a, b ensures EntryLe(a, b) || EntryLe(b, a) { LexTotal(a.key, b.key); }
    forall a, b, c | EntryLe(a, b) && EntryLe(b, c) ensures EntryLe(a, c) {
      LexTotal(a.key, b.key);
      LexTotal(b.key, c.key);
      if a.key != b.key && b.key != c.key { LexTransitive(a.key, b.key, c.key); }
    }
  }

  ghost predicate KeySorted(es: seq<Entry>) {
    forall i, j :: 0 <= i <= j < |es| ==> LexLe(es[i].key, es[j].key)
  }

  lemma {:induction false} LexReflexive(a: seq<byte>)
    ensures LexLe(a, a)
  {
    LexTotal(a, a);
  }

  lemma EntriesKeySorted(es: seq<Entry>)
    requires Sorted(es, EntryLe)
    ensures KeySorted(es)
  {
    forall i, j | 0 <= i <= j < |es| ensures LexLe(es[i].key, es[j].key) {
      LexReflexive(es[i].key);
      if i < j { assert EntryLe(es[i], es[j]); }
    }
  }

  // ----- runs

  /** The entry's key starts with the first `d` bytes of `path`. */
  ghost predicate Under(e: Entry, path: seq<byte>, d: nat) {
    d <= |e.key| && d <= |path| && e.key[..d] == path[..d]
  }

  /** A run holds exactly the entries that share its path. */
  ghost predicate IsRun(es: seq<Entry>, r: Run) {
    && r.lo < r.hi <= |es|
    && forall i :: 0 <= i < |es| ==> (r.lo <= i < r.hi <==> Under(es[i], es[r.lo].key, r.depth))
  }

  /** The entries of a run that end at its depth come first, up to `mid`. */
  ghost predicate Ends(es: seq<Entry>, r: Run, mid: nat) {
    && r.lo <= mid <= r.hi <= |es|
    && (forall i :: r.lo <= i < mid ==> |es[i].key| == r.depth)
    && (forall i :: mid <= i < r.hi ==> |es[i].key| > r.depth)
  }

  /** Each child is a run one deeper within `mid..at`, under its byte. */
  ghost predicate Kids(es: seq<Entry>, r: Run, mid: nat, at: nat, bytes: seq<byte>, kids: seq<Run>) {
    && |bytes| == |kids|
    && forall c :: 0 <= c < |kids| ==>
         && IsRun(es, kids[c])
         && kids[c].depth == r.depth + 1
         && mid <= kids[c].lo < kids[c].hi <= at
         && |es[kids[c].lo].key| > r.depth
         && es[kids[c].lo].key[r.depth] == bytes[c]
  }

  predicate Increasing(bytes: seq<byte>) {
    forall c, d :: 0 <= c < d < |bytes| ==> bytes[c] < bytes[d]
  }

  ghost predicate Covers(es: seq<Entry>, r: Run, mid: nat, at: nat, bytes: seq<byte>)
    requires at <= |es| && forall i :: mid <= i < at ==> |es[i].key| > r.depth
  {
    forall i :: mid <= i < at ==> es[i].key[r.depth] in bytes
  }

  /** How a node divides its run: the entries that end there come first, then one child for
      each next byte, in byte order. The children so far cover the entries up to `at`. */
  ghost predicate Divided(es: seq<Entry>, r: Run, mid: nat, at: nat, bytes: seq<byte>, kids: seq<Run>) {
    && Ends(es, r, mid) && mid <= at <= r.hi
    && Kids(es, r, mid, at, bytes, kids)
    && Increasing(bytes)
    && Covers(es, r, mid, at, bytes)
  }

  // ----- how many nodes there are: every node but the root ends a prefix of some key

  function Room(es: seq<Entry>, lo: nat, hi: nat, depth: nat): nat
    requires lo <= hi <= |es|
    requires forall i :: lo <= i < hi ==> |es[i].key| >= depth
    decreases hi - lo
  {
    if lo == hi then 0 else |es[hi - 1].key| - depth + Room(es, lo, hi - 1, depth)
  }

  lemma {:induction false} RoomSplit(es: seq<Entry>, lo: nat, at: nat, hi: nat, depth: nat)
    requires lo <= at <= hi <= |es|
    requires forall i :: lo <= i < hi ==> |es[i].key| >= depth
    ensures Room(es, lo, hi, depth) == Room(es, lo, at, depth) + Room(es, at, hi, depth)
    decreases hi - at
  {
    if at < hi { RoomSplit(es, lo, at, hi - 1, depth); }
  }

  lemma {:induction false} RoomDeeper(es: seq<Entry>, lo: nat, hi: nat, depth: nat)
    requires lo <= hi <= |es|
    requires forall i :: lo <= i < hi ==> |es[i].key| > depth
    ensures Room(es, lo, hi, depth + 1) + (hi - lo) == Room(es, lo, hi, depth)
    decreases hi - lo
  {
    if lo < hi { RoomDeeper(es, lo, hi - 1, depth); }
  }

  ghost predicate AllRuns(es: seq<Entry>, runs: seq<Run>) {
    forall r :: r in runs ==> IsRun(es, r)
  }

  lemma RunKeys(es: seq<Entry>, r: Run)
    requires IsRun(es, r)
    ensures r.lo < r.hi <= |es|
    ensures forall i :: r.lo <= i < r.hi ==> |es[i].key| >= r.depth
  {
    assert forall i :: r.lo <= i < r.hi ==> Under(es[i], es[r.lo].key, r.depth);
  }

  /** The most nodes a run can still give: itself, and one for each byte after its path. */
  ghost function Weight(es: seq<Entry>, r: Run): nat
    requires IsRun(es, r)
  {
    RunKeys(es, r);
    1 + Room(es, r.lo, r.hi, r.depth)
  }

  ghost function Weights(es: seq<Entry>, runs: seq<Run>): nat
    requires AllRuns(es, runs)
  {
    if runs == [] then 0 else Weight(es, runs[0]) + Weights(es, runs[1..])
  }

  lemma {:induction false} WeightsAppend(es: seq<Entry>, a: seq<Run>, b: seq<Run>)
    requires AllRuns(es, a) && AllRuns(es, b)
    ensures AllRuns(es, a + b) && Weights(es, a + b) == Weights(es, a) + Weights(es, b)
  {
    if a == [] {
      assert a + b == b;
    } else {
      WeightsAppend(es, a[1..], b);
      assert (a + b)[1..] == a[1..] + b;
    }
  }

  lemma {:induction false} WeightsAtLeast(es: seq<Entry>, runs: seq<Run>)
    requires AllRuns(es, runs)
    ensures Weights(es, runs) >= |runs|
  {
    if runs != [] { WeightsAtLeast(es, runs[1..]); }
  }

  /** The entries under these runs. */
  function Sizes(runs: seq<Run>): int {
    if runs == [] then 0 else runs[0].hi - runs[0].lo + Sizes(runs[1..])
  }

  lemma {:induction false} SizesAppend(a: seq<Run>, b: seq<Run>)
    ensures Sizes(a + b) == Sizes(a) + Sizes(b)
  {
    if a == [] {
      assert a + b == b;
    } else {
      SizesAppend(a[1..], b);
      assert (a + b)[1..] == a[1..] + b;
    }
  }

  // ----- dividing one run

  /** Entries of a run in order: those that end at its depth come first, then by next byte. */
  lemma RunOrder(es: seq<Entry>, r: Run, i: nat, j: nat)
    requires KeySorted(es) && IsRun(es, r) && r.lo <= i <= j < r.hi
    ensures |es[i].key| >= r.depth && |es[j].key| >= r.depth
    ensures |es[i].key| == r.depth || (|es[j].key| > r.depth && es[i].key[r.depth] <= es[j].key[r.depth])
  {
    assert Under(es[i], es[r.lo].key, r.depth) && Under(es[j], es[r.lo].key, r.depth);
    LexAfterPrefix(es[i].key, es[j].key, r.depth);
  }

  /** The entries at `at..end` of a run, those with one next byte, are a run one deeper. */
  lemma ChildRun(es: seq<Entry>, r: Run, at: nat, end: nat)
    requires KeySorted(es) && IsRun(es, r) && r.lo <= at < end <= r.hi
    requires forall i :: at <= i < r.hi ==> |es[i].key| > r.depth
    requires forall i :: at <= i < end ==> es[i].key[r.depth] == es[at].key[r.depth]
    requires forall i :: r.lo <= i < at && |es[i].key| > r.depth ==> es[i].key[r.depth] != es[at].key[r.depth]
    requires end < r.hi ==> es[end].key[r.depth] != es[at].key[r.depth]
    ensures IsRun(es, Run(at, end, r.depth + 1))
  {
    var d := r.depth;
    forall i | 0 <= i < |es|
      ensures at <= i < end <==> Under(es[i], es[at].key, d + 1)
    {
      assert Under(es[at], es[r.lo].key, d);
      if Under(es[i], es[at].key, d + 1) {
        assert es[i].key[..d] == es[i].key[..d + 1][..d] == es[at].key[..d + 1][..d];
        assert Under(es[i], es[r.lo].key, d);
        assert es[i].key[d] == es[i].key[..d + 1][d];
        if end <= i { RunOrder(es, r, end, i); RunOrder(es, r, at, end); }
      }
      if at <= i < end {
        assert Under(es[i], es[r.lo].key, d);
        assert es[i].key[..d + 1] == es[i].key[..d] + [es[i].key[d]];
        assert es[at].key[..d + 1] == es[at].key[..d] + [es[at].key[d]];
      }
    }
  }

  /** One child taken off the front of what is left of a run. */
  method NextChild(es: seq<Entry>, r: Run, mid: nat, at: nat) returns (end: nat)
    requires KeySorted(es) && IsRun(es, r) && r.lo <= mid <= at < r.hi
    requires forall i :: mid <= i < r.hi ==> |es[i].key| > r.depth
    requires forall i :: r.lo <= i < mid ==> |es[i].key| == r.depth
    requires forall i :: mid <= i < at ==> es[i].key[r.depth] < es[at].key[r.depth]
    ensures at < end <= r.hi
    ensures forall i :: at <= i < end ==> es[i].key[r.depth] == es[at].key[r.depth]
    ensures end < r.hi ==> forall i :: mid <= i < end ==> es[i].key[r.depth] < es[end].key[r.depth]
    ensures IsRun(es, Run(at, end, r.depth + 1))
    ensures Weight(es, Run(at, end, r.depth + 1)) <= Room(es, at, end, r.depth)
  {
    end := at + 1;
    while end < r.hi && es[end].key[r.depth] == es[at].key[r.depth]
      invariant at < end <= r.hi
      invariant forall i :: at <= i < end ==> es[i].key[r.depth] == es[at].key[r.depth]
    {
      end := end + 1;
    }
    if end < r.hi {
      RunOrder(es, r, at, end);
    }
    ChildRun(es, r, at, end);
    RoomDeeper(es, at, end, r.depth);
  }

  lemma DividedGrows(es: seq<Entry>, r: Run, mid: nat, at: nat, end: nat, bytes: seq<byte>, kids: seq<Run>)
    requires Divided(es, r, mid, at, bytes, kids)
    requires at < end <= r.hi && IsRun(es, Run(at, end, r.depth + 1))
    requires forall i :: at <= i < end ==> es[i].key[r.depth] == es[at].key[r.depth]
    requires forall i :: mid <= i < at ==> es[i].key[r.depth] < es[at].key[r.depth]
    ensures Divided(es, r, mid, end, bytes + [es[at].key[r.depth]], kids + [Run(at, end, r.depth + 1)])
  {
    hide IsRun;
    var b := es[at].key[r.depth];
    assert Kids(es, r, mid, end, bytes + [b], kids + [Run(at, end, r.depth + 1)]);
    assert forall c :: 0 <= c < |bytes| ==> bytes[c] == es[kids[c].lo].key[r.depth] < b;
    assert Increasing(bytes + [b]);
  }

  /** The body of the build loop for one node: the entries that end there, then its children. */
  method Divide(es: seq<Entry>, r: Run) returns (mid: nat, bytes: seq<byte>, kids: seq<Run>)
    requires KeySorted(es) && IsRun(es, r)
    ensures Divided(es, r, mid, r.hi, bytes, kids)
    ensures AllRuns(es, kids) && Weights(es, kids) < Weight(es, r)
    ensures Sizes(kids) == r.hi - mid
  {
    hide Weight, IsRun, Kids, Increasing, Covers;
    RunKeys(es, r);
    mid := r.lo;
    while mid < r.hi && |es[mid].key| == r.depth
      invariant r.lo <= mid <= r.hi
      invariant forall i :: r.lo <= i < mid ==> |es[i].key| == r.depth
    {
      mid := mid + 1;
    }
    forall i | mid <= i < r.hi ensures |es[i].key| > r.depth { RunOrder(es, r, mid, i); }
    bytes, kids := [], [];
    var at := mid;
    NoKids(es, r, mid);
    while at < r.hi
      invariant Divided(es, r, mid, at, bytes, kids)
      invariant at < r.hi ==> forall i :: mid <= i < at ==> es[i].key[r.depth] < es[at].key[r.depth]
      invariant AllRuns(es, kids) && Weights(es, kids) <= Room(es, mid, at, r.depth)
      invariant Sizes(kids) == at - mid
    {
      var end := NextChild(es, r, mid, at);
      DividedGrows(es, r, mid, at, end, bytes, kids);
      var kid := Run(at, end, r.depth + 1);
      WeightsAppend(es, kids, [kid]);
      SizesAppend(kids, [kid]);
      assert [kid][1..] == [];
      RoomSplit(es, mid, at, end, r.depth);
      bytes := bytes + [es[at].key[r.depth]];
      kids := kids + [kid];
      at := end;
    }
    RoomSplit(es, r.lo, mid, r.hi, r.depth);
    WeightIs(es, r);
  }

  lemma NoKids(es: seq<Entry>, r: Run, mid: nat)
    requires Ends(es, r, mid)
    ensures Divided(es, r, mid, mid, [], [])
  {
  }

  lemma WeightIs(es: seq<Entry>, r: Run)
    requires IsRun(es, r)
    ensures forall i :: r.lo <= i < r.hi ==> |es[i].key| >= r.depth
    ensures Weight(es, r) == 1 + Room(es, r.lo, r.hi, r.depth)
  {
    RunKeys(es, r);
  }

  // ----- the arrays

  /** The ids filed at a node are those of the entries that end there. */
  ghost predicate IdsAt(t: Trie, es: seq<Entry>, r: Run, v: nat, mid: nat) {
    && v + 1 < |t.idStart|
    && t.idStart[v] <= t.idStart[v + 1] <= |t.ids|
    && r.lo <= mid <= |es|
    && t.ids[t.idStart[v]..t.idStart[v + 1]] == IdsOf(es, r.lo, mid)
  }

  /** The edges of a node lead to its children, whose numbers follow the edge's place. */
  ghost predicate EdgesAt(t: Trie, es: seq<Entry>, runs: seq<Run>, v: nat, mid: nat) {
    && v < |runs|
    && v + 1 < |t.edgeStart|
    && t.edgeStart[v] <= t.edgeStart[v + 1] <= |t.edgeBytes|
    && t.edgeStart[v + 1] < |runs|
    && Divided(es, runs[v], mid, runs[v].hi,
               t.edgeBytes[t.edgeStart[v]..t.edgeStart[v + 1]],
               runs[t.edgeStart[v] + 1..t.edgeStart[v + 1] + 1])
  }

  ghost predicate NodeWritten(t: Trie, es: seq<Entry>, runs: seq<Run>, v: nat) {
    v < |runs| && exists mid :: IdsAt(t, es, runs[v], v, mid) && EdgesAt(t, es, runs, v, mid)
  }

  /** The table of the root: for each byte the child it leads to, 0 for none. */
  ghost predicate RootTable(root: seq<nat>, bytes: seq<byte>) {
    && |root| == 256
    && (forall b: byte :: root[b] != 0 ==> root[b] <= |bytes| && bytes[root[b] - 1] == b)
    && (forall b: byte :: root[b] == 0 ==> b !in bytes)
  }

  /** The first `n` nodes are in the arrays; the runs of all nodes numbered so far are `runs`. */
  ghost predicate Wrote(t: Trie, es: seq<Entry>, runs: seq<Run>, n: nat) {
    && n <= |runs| == |t.edgeBytes| + 1
    && |t.edgeStart| == |t.idStart| == n + 1
    && t.edgeStart[n] == |t.edgeBytes| && t.idStart[n] == |t.ids|
    && |t.edgeNodes| == |t.edgeBytes|
    && (forall e :: 0 <= e < |t.edgeNodes| ==> t.edgeNodes[e] == e + 1)
    && (forall v :: 0 <= v < n ==> NodeWritten(t, es, runs, v))
  }

  /** A finished trie over the sorted entries `es`. */
  ghost predicate TrieOf(t: Trie, es: seq<Entry>, runs: seq<Run>) {
    && Wrote(t, es, runs, |runs|)
    && AllRuns(es, runs)
    && runs[0] == Run(0, |es|, 0)
    && t.edgeStart[0] == 0 && t.edgeStart[1] <= |t.edgeBytes|
    && RootTable(t.root, t.edgeBytes[..t.edgeStart[1]])
  }

  ghost predicate NonemptyKeys(es: seq<Entry>) {
    forall e :: e in es ==> e.key != []
  }

  /** The trie files exactly these entries. */
  ghost predicate Represents(t: Trie, entries: seq<Entry>) {
    if entries == [] then t == EMPTY
    else NonemptyKeys(entries) && exists es, runs :: multiset(es) == multiset(entries) && TrieOf(t, es, runs)
  }

  /** All offsets fit in 32 bits. */
  ghost predicate Fits(t: Trie) {
    && (forall x :: x in t.root || x in t.edgeStart || x in t.edgeNodes || x in t.idStart ==> x <= U32_MAX)
    && |t.edgeBytes| <= U32_MAX && |t.ids| <= U32_MAX
  }

  /** Writing further nodes leaves the ones written alone. */
  lemma NodeKept(t: Trie, t': Trie, es: seq<Entry>, runs: seq<Run>, runs': seq<Run>, v: nat)
    requires NodeWritten(t, es, runs, v)
    requires t.edgeStart <= t'.edgeStart && t.edgeBytes <= t'.edgeBytes
    requires t.idStart <= t'.idStart && t.ids <= t'.ids && runs <= runs'
    ensures NodeWritten(t', es, runs', v)
  {
    hide Divided;
    var mid :| IdsAt(t, es, runs[v], v, mid) && EdgesAt(t, es, runs, v, mid);
    var a, b := t.edgeStart[v], t.edgeStart[v + 1];
    assert t'.edgeStart[v] == a && t'.edgeStart[v + 1] == b && runs'[v] == runs[v];
    var c, d := t.idStart[v], t.idStart[v + 1];
    assert t'.idStart[v] == c && t'.idStart[v + 1] == d && t'.ids[c..d] == t.ids[c..d];
    assert t'.edgeBytes[a..b] == t.edgeBytes[a..b] && runs'[a + 1..b + 1] == runs[a + 1..b + 1];
    assert IdsAt(t', es, runs'[v], v, mid) && EdgesAt(t', es, runs', v, mid);
  }

  function IdsOf(es: seq<Entry>, lo: nat, hi: nat): (r: seq<nat>)
    requires lo <= hi <= |es|
    ensures |r| == hi - lo && forall j :: 0 <= j < |r| ==> r[j] == es[lo + j].id
  {
    seq<nat>(hi - lo, j requires 0 <= j < hi - lo => es[lo + j].id)
  }

  function Numbers(from: nat, count: nat): (r: seq<nat>)
    ensures |r| == count && forall j :: 0 <= j < count ==> r[j] == from + j
  {
    seq(count, j requires 0 <= j < count => from + j)
  }

  /** The arrays after one more node has been written. */
  function Append(t: Trie, es: seq<Entry>, r: Run, mid: nat, bytes: seq<byte>): Trie
    requires r.lo <= mid <= |es|
  {
    t.(edgeBytes := t.edgeBytes + bytes,
       edgeNodes := t.edgeNodes + Numbers(|t.edgeBytes| + 1, |bytes|),
       edgeStart := t.edgeStart + [|t.edgeBytes| + |bytes|],
       ids := t.ids + IdsOf(es, r.lo, mid),
       idStart := t.idStart + [|t.ids| + mid - r.lo])
  }

  lemma NodeAppended(t: Trie, es: seq<Entry>, runs: seq<Run>, n: nat, mid: nat, bytes: seq<byte>, kids: seq<Run>)
    requires Wrote(t, es, runs, n) && n < |runs|
    requires Divided(es, runs[n], mid, runs[n].hi, bytes, kids) && |bytes| == |kids|
    ensures Wrote(Append(t, es, runs[n], mid, bytes), es, runs + kids, n + 1)
  {
    hide Divided, NodeWritten;
    assert runs[n].lo <= mid <= |es| by { DividedBounds(es, runs[n], mid, bytes, kids); }
    var t' := Append(t, es, runs[n], mid, bytes);
    var runs' := runs + kids;
    forall v | 0 <= v < n ensures NodeWritten(t', es, runs', v) {
      NodeKept(t, t', es, runs, runs', v);
    }
    NewNode(t, es, runs, n, mid, bytes, kids);
  }

  lemma DividedBounds(es: seq<Entry>, r: Run, mid: nat, bytes: seq<byte>, kids: seq<Run>)
    requires Divided(es, r, mid, r.hi, bytes, kids)
    ensures r.lo <= mid <= r.hi <= |es| && |bytes| == |kids|
  {
  }

  lemma NewNode(t: Trie, es: seq<Entry>, runs: seq<Run>, n: nat, mid: nat, bytes: seq<byte>, kids: seq<Run>)
    requires Wrote(t, es, runs, n) && n < |runs|
    requires Divided(es, runs[n], mid, runs[n].hi, bytes, kids) && |bytes| == |kids|
    requires runs[n].lo <= mid <= |es|
    ensures NodeWritten(Append(t, es, runs[n], mid, bytes), es, runs + kids, n)
  {
    hide Divided;
    var t' := Append(t, es, runs[n], mid, bytes);
    var runs' := runs + kids;
    var a, b := t'.edgeStart[n], t'.edgeStart[n + 1];
    assert a == |t.edgeBytes| && b == a + |bytes|;
    assert t'.edgeBytes[a..b] == bytes && runs'[a + 1..b + 1] == kids;
    assert IdsAt(t', es, runs'[n], n, mid) && EdgesAt(t', es, runs', n, mid);
  }

  // ----- building

  function KeyBytes(es: seq<Entry>): nat {
    if es == [] then 0 else |es[0].key| + KeyBytes(es[1..])
  }

  lemma {:induction false} InsertKeyBytes(x: Entry, s: seq<Entry>)
    ensures KeyBytes(Insert(x, s, EntryLe)) == |x.key| + KeyBytes(s)
  {
    if s != [] {
      if EntryLe(x, s[0]) {
        assert ([x] + s)[1..] == s;
      } else {
        InsertKeyBytes(x, s[1..]);
        assert ([s[0]] + Insert(x, s[1..], EntryLe))[1..] == Insert(x, s[1..], EntryLe);
      }
    }
  }

  lemma {:induction false} SortKeyBytes(s: seq<Entry>)
    ensures KeyBytes(Sort(s, EntryLe)) == KeyBytes(s)
  {
    if s != [] {
      SortKeyBytes(s[1..]);
      InsertKeyBytes(s[0], Sort(s[1..], EntryLe));
    }
  }

  lemma {:induction false} RoomIsKeyBytes(es: seq<Entry>, lo: nat)
    requires lo <= |es|
    ensures Room(es, lo, |es|, 0) == KeyBytes(es[lo..])
    decreases |es| - lo
  {
    if lo < |es| {
      RoomIsKeyBytes(es, lo + 1);
      RoomSplit(es, lo, lo + 1, |es|, 0);
      assert es[lo..][1..] == es[lo + 1..];
    }
  }

  method FillRoot(bytes: seq<byte>) returns (root: seq<nat>)
    requires Increasing(bytes)
    ensures RootTable(root, bytes)
    ensures forall x :: x in root ==> x <= |bytes|
  {
    root := seq(256, _ => 0);
    var c := 0;
    while c < |bytes|
      invariant 0 <= c <= |bytes|
      invariant RootTable(root, bytes[..c])
      invariant forall i :: 0 <= i < |root| ==> root[i] <= c
    {
      var root' := root[bytes[c] := c + 1];
      assert bytes[..c + 1] == bytes[..c] + [bytes[c]];
      forall b: byte | root'[b] != 0 ensures root'[b] <= c + 1 && bytes[..c + 1][root'[b] - 1] == b {
        if b != bytes[c] { assert root'[b] == root[b]; }
      }
      root := root';
      c := c + 1;
    }
    assert bytes[..c] == bytes;
  }

  lemma RootRun(es: seq<Entry>)
    requires es != []
    ensures IsRun(es, Run(0, |es|, 0)) && Weight(es, Run(0, |es|, 0)) == 1 + KeyBytes(es)
  {
    assert forall i :: 0 <= i < |es| ==> Under(es[i], es[0].key, 0);
    RoomIsKeyBytes(es, 0);
    assert es[0..] == es;
  }

  lemma SortedEntries(entries: seq<Entry>)
    ensures var es := Sort(entries, EntryLe);
            KeySorted(es) && multiset(es) == multiset(entries) && |es| == |entries| && KeyBytes(es) == KeyBytes(entries)
  {
    EntryOrder();
    SortSorts(entries, EntryLe);
    SortKeyBytes(entries);
    EntriesKeySorted(Sort(entries, EntryLe));
  }

  /** `Trie::new`. Nodes are numbered level by level, so the children of each node get
      consecutive numbers and the arrays are written in node order. The weight of the pending
      runs falls with every node written, which bounds the nodes by the bytes of the keys:
      the loop ends and no 32-bit offset overflows. */
  method BuildTrie(entries: seq<Entry>) returns (t: Trie)
    requires NonemptyKeys(entries)
    requires KeyBytes(entries) <= U32_MAX && |entries| <= U32_MAX
    ensures Represents(t, entries)
    ensures Fits(t) && |t.ids| == |entries|
  {
    hide Building, Divided, Weight, IsRun, RootTable, TrieOf, Increasing, KeySorted, Sort;
    if entries == [] {
      return EMPTY;
    }
    var es := Sort(entries, EntryLe);
    SortedEntries(entries);
    t := Trie([], [0], [], [], [0], []);
    var pending := [Run(0, |es|, 0)];
    ghost var runs, n := pending, 0;
    StartBuilding(es);
    while pending != []
      invariant Building(t, es, runs, n, pending)
      decreases 1 + KeyBytes(es) - n
    {
      var run := pending[0];
      NextRun(t, es, runs, n, pending);
      var mid, bytes, kids := Divide(es, run);
      DividedBounds(es, run, mid, bytes, kids);
      if |t.edgeStart| == 1 {
        DividedIncreasing(es, run, mid, bytes, kids);
        var root := FillRoot(bytes);
        BuiltRoot(t, es, runs, n, pending, mid, bytes, kids, root);
        t := t.(root := root);
      } else {
        BuiltNode(t, es, runs, n, pending, mid, bytes, kids);
      }
      t := Append(t, es, run, mid, bytes);
      pending := pending[1..] + kids;
      runs := runs + kids;
      n := n + 1;
    }
    Built(t, es, runs, n);
  }

  /** What the build loop keeps. */
  ghost predicate Building(t: Trie, es: seq<Entry>, runs: seq<Run>, n: nat, pending: seq<Run>) {
    && n <= |runs| && 0 < |runs| && pending == runs[n..]
    && AllRuns(es, runs) && AllRuns(es, pending)
    && runs[0] == Run(0, |es|, 0)
    && n + Weights(es, pending) <= 1 + KeyBytes(es)
    && |t.ids| + Sizes(pending) == |es|
    && Wrote(t, es, runs, n)
    && t.edgeStart[0] == 0
    && (n > 0 ==>
          && t.edgeStart[1] <= |t.edgeBytes|
          && RootTable(t.root, t.edgeBytes[..t.edgeStart[1]])
          && forall x :: x in t.root ==> x <= |t.edgeBytes|)
  }

  lemma StartBuilding(es: seq<Entry>)
    requires es != []
    ensures Building(Trie([], [0], [], [], [0], []), es, [Run(0, |es|, 0)], 0, [Run(0, |es|, 0)])
  {
    hide IsRun, NodeWritten, Weight, RootTable;
    RootRun(es);
    var runs := [Run(0, |es|, 0)];
    assert runs[1..] == [] && runs[0..] == runs;
    var t := Trie([], [0], [], [], [0], []);
    assert Wrote(t, es, runs, 0);
    assert Weights(es, runs) == 1 + KeyBytes(es) + Weights(es, runs[1..]);
    assert Sizes(runs) == |es| + Sizes(runs[1..]);
  }

  lemma NextRun(t: Trie, es: seq<Entry>, runs: seq<Run>, n: nat, pending: seq<Run>)
    requires Building(t, es, runs, n, pending) && pending != []
    ensures n < |runs| && pending[0] == runs[n] && IsRun(es, pending[0]) && AllRuns(es, pending[1..])
    ensures n < 1 + KeyBytes(es) && |t.edgeStart| == n + 1
  {
    hide IsRun, Wrote, Weight, RootTable;
    assert pending[0] in pending;
    WeightsAtLeast(es, pending);
    assert |t.edgeStart| == n + 1 by { WroteLen(t, es, runs, n); }
  }

  lemma WroteLen(t: Trie, es: seq<Entry>, runs: seq<Run>, n: nat)
    requires Wrote(t, es, runs, n)
    ensures |t.edgeStart| == n + 1
  {
  }

  /** The pending runs after a node: the weight has fallen, and no entry was lost. */
  lemma PendingStep(t: Trie, es: seq<Entry>, runs: seq<Run>, n: nat, pending: seq<Run>, mid: nat, kids: seq<Run>)
    requires Building(t, es, runs, n, pending) && pending != [] && IsRun(es, pending[0])
    requires AllRuns(es, kids) && Weights(es, kids) < Weight(es, pending[0])
    requires Sizes(kids) == pending[0].hi - mid
    ensures AllRuns(es, pending[1..] + kids) && AllRuns(es, runs + kids)
    ensures (runs + kids)[n + 1..] == pending[1..] + kids
    ensures n + 1 + Weights(es, pending[1..] + kids) <= 1 + KeyBytes(es)
    ensures |t.ids| + mid - pending[0].lo + Sizes(pending[1..] + kids) == |es|
  {
    hide IsRun, Wrote, Weight, RootTable;
    assert pending == [pending[0]] + pending[1..];
    WeightsAppend(es, pending[1..], kids);
    WeightsAppend(es, runs, kids);
    SizesAppend(pending[1..], kids);
  }

  lemma BuiltRoot(t: Trie, es: seq<Entry>, runs: seq<Run>, n: nat, pending: seq<Run>, mid: nat, bytes: seq<byte>,
                  kids: seq<Run>, root: seq<nat>)
    requires Building(t, es, runs, n, pending) && pending != [] && n == 0 && IsRun(es, pending[0])
    requires Divided(es, pending[0], mid, pending[0].hi, bytes, kids) && |bytes| == |kids|
    requires pending[0].lo <= mid <= |es|
    requires AllRuns(es, kids) && Weights(es, kids) < Weight(es, pending[0])
    requires Sizes(kids) == pending[0].hi - mid
    requires RootTable(root, bytes) && forall x :: x in root ==> x <= |bytes|
    ensures Building(Append(t.(root := root), es, pending[0], mid, bytes), es, runs + kids, 1, pending[1..] + kids)
  {
    hide IsRun, Divided, NodeWritten, Weight, RootTable;
    PendingStep(t, es, runs, n, pending, mid, kids);
    var t1 := t.(root := root);
    NodeAppended(t1, es, runs, n, mid, bytes, kids);
    var t' := Append(t1, es, pending[0], mid, bytes);
    assert |t.edgeBytes| == 0;
    assert t'.edgeBytes[..t'.edgeStart[1]] == bytes;
  }

  lemma BuiltNode(t: Trie, es: seq<Entry>, runs: seq<Run>, n: nat, pending: seq<Run>, mid: nat, bytes: seq<byte>,
                  kids: seq<Run>)
    requires Building(t, es, runs, n, pending) && pending != [] && n > 0 && IsRun(es, pending[0])
    requires Divided(es, pending[0], mid, pending[0].hi, bytes, kids) && |bytes| == |kids|
    requires pending[0].lo <= mid <= |es|
    requires AllRuns(es, kids) && Weights(es, kids) < Weight(es, pending[0])
    requires Sizes(kids) == pending[0].hi - mid
    ensures Building(Append(t, es, pending[0], mid, bytes), es, runs + kids, n + 1, pending[1..] + kids)
  {
    hide IsRun, Divided, NodeWritten, Weight, RootTable;
    PendingStep(t, es, runs, n, pending, mid, kids);
    NodeAppended(t, es, runs, n, mid, bytes, kids);
    assert (t.edgeBytes + bytes)[..t.edgeStart[1]] == t.edgeBytes[..t.edgeStart[1]];
  }

  lemma Built(t: Trie, es: seq<Entry>, runs: seq<Run>, n: nat)
    requires Building(t, es, runs, n, []) && KeyBytes(es) <= U32_MAX && |es| <= U32_MAX
    ensures TrieOf(t, es, runs) && Fits(t) && |t.ids| == |es|
  {
    hide IsRun, NodeWritten, Weight, RootTable, Fits;
    assert n == |runs|;
    TrieFits(t, es, runs);
  }

  lemma DividedIncreasing(es: seq<Entry>, r: Run, mid: nat, bytes: seq<byte>, kids: seq<Run>)
    requires Divided(es, r, mid, r.hi, bytes, kids)
    ensures Increasing(bytes)
  {
  }

  lemma TrieFits(t: Trie, es: seq<Entry>, runs: seq<Run>)
    requires TrieOf(t, es, runs)
    requires |t.edgeBytes| <= U32_MAX && |t.ids| <= U32_MAX
    requires forall x :: x in t.root ==> x <= |t.edgeBytes|
    ensures Fits(t)
  {
    hide Divided, IsRun, RootTable;
    forall v | 0 <= v < |t.edgeStart| ensures t.edgeStart[v] <= |t.edgeBytes| && t.idStart[v] <= |t.ids| {
      if v < |runs| { assert NodeWritten(t, es, runs, v); }
    }
  }

  // ----- walking

  /** `binary_search` in `bytes[lo..hi]`. */
  method FindByte(bytes: seq<byte>, lo: nat, hi: nat, b: byte) returns (r: Option<nat>)
    requires lo <= hi <= |bytes| && Increasing(bytes[lo..hi])
    ensures r.Some? ==> lo <= r.value < hi && bytes[r.value] == b
    ensures r.None? ==> b !in bytes[lo..hi]
  {
    var edges := bytes[lo..hi];
    var from, to := 0, |edges|;
    while from < to
      invariant 0 <= from <= to <= |edges|
      invariant forall i :: 0 <= i < from ==> edges[i] < b
      invariant forall i :: to <= i < |edges| ==> b < edges[i]
    {
      var m := (from + to) / 2;
      if edges[m] == b {
        return Some(lo + m);
      } else if edges[m] < b {
        from := m + 1;
      } else {
        to := m;
      }
    }
    r := None;
  }

  /** The walk has followed the first `d` bytes of the text to the node `v`: the entries under
      that path are the node's, and no shorter key was accepted. */
  ghost predicate WalkedTo(t: Trie, es: seq<Entry>, runs: seq<Run>, text: seq<byte>, probe: Probe, v: nat, d: nat) {
    && TrieOf(t, es, runs)
    && v < |runs| && runs[v].depth == d <= |text|
    && runs[v].lo < |es| && Under(es[runs[v].lo], text, d)
    && forall e :: e in es && e.key <= text && |e.key| < d ==> !probe.Accepts(e.id)
  }

  /** The entries under the text's first `d` bytes are exactly those of the node's run. */
  lemma UnderIsRun(es: seq<Entry>, r: Run, text: seq<byte>, i: nat)
    requires IsRun(es, r) && Under(es[r.lo], text, r.depth) && i < |es|
    ensures Under(es[i], text, r.depth) <==> r.lo <= i < r.hi
  {
  }

  lemma NodeAt(t: Trie, es: seq<Entry>, runs: seq<Run>, v: nat) returns (mid: nat)
    requires TrieOf(t, es, runs) && v < |runs|
    ensures IsRun(es, runs[v])
    ensures IdsAt(t, es, runs[v], v, mid) && EdgesAt(t, es, runs, v, mid)
  {
    hide Divided, IsRun, RootTable;
    assert NodeWritten(t, es, runs, v);
    mid :| IdsAt(t, es, runs[v], v, mid) && EdgesAt(t, es, runs, v, mid);
    assert runs[v] in runs;
  }

  lemma PrefixUnder(e: Entry, text: seq<byte>, d: nat)
    requires e.key <= text && d <= |e.key|
    ensures Under(e, text, d)
    ensures d < |e.key| ==> e.key[d] == text[d]
  {
    assert text[..|e.key|] == e.key;
    assert text[..|e.key|][..d] == text[..d];
  }

  lemma IdFiled(es: seq<Entry>, r: Run, text: seq<byte>, mid: nat, i: nat)
    requires IsRun(es, r) && Under(es[r.lo], text, r.depth) && Ends(es, r, mid) && r.lo <= i < mid
    ensures es[i] in es && es[i].key <= text && |es[i].key| == r.depth
  {
    hide IsRun;
    UnderIsRun(es, r, text, i);
    assert es[i].key == es[i].key[..r.depth] == text[..r.depth];
  }

  lemma FiledHere(es: seq<Entry>, r: Run, text: seq<byte>, mid: nat, e: Entry) returns (i: nat)
    requires IsRun(es, r) && Under(es[r.lo], text, r.depth) && Ends(es, r, mid)
    requires e in es && e.key <= text && |e.key| == r.depth
    ensures r.lo <= i < mid && es[i] == e
  {
    hide IsRun;
    i :| 0 <= i < |es| && es[i] == e;
    PrefixUnder(e, text, r.depth);
    UnderIsRun(es, r, text, i);
  }

  /** The entries whose key is the path walked are those filed at the node. */
  lemma IdsFiled(t: Trie, es: seq<Entry>, runs: seq<Run>, text: seq<byte>, probe: Probe, v: nat, d: nat, mid: nat)
    requires WalkedTo(t, es, runs, text, probe, v, d)
    requires IsRun(es, runs[v]) && Ends(es, runs[v], mid) && IdsAt(t, es, runs[v], v, mid)
    ensures (exists j :: t.idStart[v] <= j < t.idStart[v + 1] && probe.Accepts(t.ids[j])) <==>
            (exists e :: e in es && e.key <= text && |e.key| == d && probe.Accepts(e.id))
  {
    hide IsRun, TrieOf, Under, Ends;
    var r, a, b := runs[v], t.idStart[v], t.idStart[v + 1];
    assert |t.ids[a..b]| == mid - r.lo;
    if j :| a <= j < b && probe.Accepts(t.ids[j]) {
      var e := es[r.lo + (j - a)];
      assert t.ids[j] == t.ids[a..b][j - a] == e.id;
      IdFiled(es, r, text, mid, r.lo + (j - a));
      assert e in es && e.key <= text && |e.key| == d && probe.Accepts(e.id);
    }
    if e :| e in es && e.key <= text && |e.key| == d && probe.Accepts(e.id) {
      var i := FiledHere(es, r, text, mid, e);
      assert t.ids[a + (i - r.lo)] == t.ids[a..b][i - r.lo] == e.id;
    }
  }

  /** A longer key that starts the text continues along an edge. */
  lemma LongerKeyHasEdge(t: Trie, es: seq<Entry>, runs: seq<Run>, text: seq<byte>, probe: Probe, v: nat, d: nat,
                         mid: nat, e: Entry)
    requires WalkedTo(t, es, runs, text, probe, v, d) && d < |text|
    requires IsRun(es, runs[v]) && EdgesAt(t, es, runs, v, mid)
    requires e in es && e.key <= text && |e.key| > d
    ensures text[d] in t.edgeBytes[t.edgeStart[v]..t.edgeStart[v + 1]]
  {
    hide IsRun, TrieOf;
    var i :| 0 <= i < |es| && es[i] == e;
    PrefixUnder(e, text, d);
    UnderIsRun(es, runs[v], text, i);
  }

  /** No edge for the next byte: no longer key starts the text. */
  lemma NoEdge(t: Trie, es: seq<Entry>, runs: seq<Run>, text: seq<byte>, probe: Probe, v: nat, d: nat, mid: nat)
    requires WalkedTo(t, es, runs, text, probe, v, d) && d < |text|
    requires IsRun(es, runs[v]) && EdgesAt(t, es, runs, v, mid)
    requires text[d] !in t.edgeBytes[t.edgeStart[v]..t.edgeStart[v + 1]]
    ensures forall e :: e in es && e.key <= text ==> |e.key| <= d
  {
    hide IsRun, TrieOf, WalkedTo;
    forall e | e in es && e.key <= text ensures |e.key| <= d {
      if |e.key| > d { LongerKeyHasEdge(t, es, runs, text, probe, v, d, mid, e); }
    }
  }

  lemma KidAt(es: seq<Entry>, r: Run, mid: nat, bytes: seq<byte>, kids: seq<Run>, i: nat)
    requires Divided(es, r, mid, r.hi, bytes, kids) && i < |bytes|
    ensures |kids| == |bytes| && mid <= kids[i].lo < r.hi && kids[i].depth == r.depth + 1
    ensures |es[kids[i].lo].key| > r.depth && es[kids[i].lo].key[r.depth] == bytes[i]
    ensures r.lo <= mid && r.hi <= |es|
  {
    hide Covers, Increasing;
  }

  lemma UnderDeeper(e: Entry, text: seq<byte>, d: nat)
    requires Under(e, text, d) && d < |e.key| && d < |text| && e.key[d] == text[d]
    ensures Under(e, text, d + 1)
  {
    assert e.key[..d + 1] == e.key[..d] + [e.key[d]] && text[..d + 1] == text[..d] + [text[d]];
  }

  /** The edge for the next byte leads to the node of the path one longer. */
  lemma Edge(t: Trie, es: seq<Entry>, runs: seq<Run>, text: seq<byte>, probe: Probe, v: nat, d: nat, mid: nat, e: nat)
    requires WalkedTo(t, es, runs, text, probe, v, d) && d < |text|
    requires IsRun(es, runs[v]) && EdgesAt(t, es, runs, v, mid)
    requires t.edgeStart[v] <= e < t.edgeStart[v + 1] && t.edgeBytes[e] == text[d]
    requires forall x :: x in es && x.key <= text && |x.key| == d ==> !probe.Accepts(x.id)
    ensures t.edgeNodes[e] == e + 1 && WalkedTo(t, es, runs, text, probe, e + 1, d + 1)
  {
    hide IsRun, Divided, Under, RootTable, AllRuns, NodeWritten;
    var a, b := t.edgeStart[v], t.edgeStart[v + 1];
    var kids, bytes := runs[a + 1..b + 1], t.edgeBytes[a..b];
    KidAt(es, runs[v], mid, bytes, kids, e - a);
    var kid := kids[e - a];
    assert kid == runs[e + 1] && bytes[e - a] == text[d];
    UnderIsRun(es, runs[v], text, kid.lo);
    UnderDeeper(es[kid.lo], text, d);
  }

  method AnyAccepted(ids: seq<nat>, lo: nat, hi: nat, probe: Probe) returns (r: bool)
    requires lo <= hi <= |ids|
    ensures r <==> exists j :: lo <= j < hi && probe.Accepts(ids[j])
  {
    hide Probe.Accepts;
    var j := lo;
    while j < hi
      invariant lo <= j <= hi
      invariant forall k :: lo <= k < j ==> !probe.Accepts(ids[k])
    {
      r := Accept(probe, ids[j]);
      if r {
        return;
      }
      j := j + 1;
    }
    r := false;
  }

  /** `Trie::any`: whether some key that starts the text has an accepted id. */
  method Any(t: Trie, ghost entries: seq<Entry>, text: seq<byte>, probe: Probe) returns (r: bool)
    requires Represents(t, entries)
    ensures r <==> Found(entries, text, probe)
  {
    hide Represents, TrieOf, WalkedTo, IsRun, EdgesAt, Probe.Accepts;
    if text == [] {
      assert forall e :: e in entries && e.key <= text ==> e.key == [];
      NoEmptyKey(t, entries);
      return false;
    }
    if t.root == [] {
      RootNonempty(t, entries);
      return false;
    }
    ghost var es, runs := Filed(t, entries);
    ghost var mid := AtRoot(t, es, runs, text, probe);
    var child := t.root[text[0]];
    if child == 0 {
      NoEdge(t, es, runs, text, probe, 0, 0, mid);
      return false;
    }
    Edge(t, es, runs, text, probe, 0, 0, mid, child - 1);
    r := Walk(t, es, runs, text, probe, child);
  }

  /** The loop of `Trie::any`, from a child of the root on. */
  method Walk(t: Trie, ghost es: seq<Entry>, ghost runs: seq<Run>, text: seq<byte>, probe: Probe, child: nat)
    returns (r: bool)
    requires text != [] && WalkedTo(t, es, runs, text, probe, child, 1)
    ensures r <==> Found(es, text, probe)
  {
    hide WalkedTo, Probe.Accepts, Divided, IsRun;
    var node, d := child, 1;
    while true
      invariant 1 <= d <= |text| && WalkedTo(t, es, runs, text, probe, node, d)
      decreases |text| - d
    {
      ghost var mid := NodeWalked(t, es, runs, text, probe, node, d);
      var accepted := AnyAccepted(t.ids, t.idStart[node], t.idStart[node + 1], probe);
      if accepted {
        return true;
      }
      if d == |text| {
        return false;
      }
      var e := FindByte(t.edgeBytes, t.edgeStart[node], t.edgeStart[node + 1], text[d]);
      if e.None? {
        NoEdge(t, es, runs, text, probe, node, d, mid);
        return false;
      }
      Edge(t, es, runs, text, probe, node, d, mid, e.value);
      node := t.edgeNodes[e.value];
      d := d + 1;
    }
  }

  /** What the arrays hold for the node a walk has come to. */
  lemma NodeWalked(t: Trie, es: seq<Entry>, runs: seq<Run>, text: seq<byte>, probe: Probe, v: nat, d: nat)
    returns (mid: nat)
    requires WalkedTo(t, es, runs, text, probe, v, d)
    ensures v < |runs| && IsRun(es, runs[v])
    ensures IdsAt(t, es, runs[v], v, mid) && EdgesAt(t, es, runs, v, mid)
    ensures Increasing(t.edgeBytes[t.edgeStart[v]..t.edgeStart[v + 1]])
    ensures |t.edgeNodes| == |t.edgeBytes|
    ensures forall e :: e in es && e.key <= text && |e.key| < d ==> !probe.Accepts(e.id)
    ensures (exists j :: t.idStart[v] <= j < t.idStart[v + 1] && probe.Accepts(t.ids[j])) <==>
            (exists e :: e in es && e.key <= text && |e.key| == d && probe.Accepts(e.id))
  {
    hide IsRun, RootTable, NodeWritten, Kids, Covers, Probe.Accepts;
    mid := NodeAt(t, es, runs, v);
    IdsFiled(t, es, runs, text, probe, v, d, mid);
  }

  lemma NoEmptyKey(t: Trie, entries: seq<Entry>)
    requires Represents(t, entries)
    ensures NonemptyKeys(entries)
  {
    hide TrieOf;
  }

  lemma Filed(t: Trie, entries: seq<Entry>) returns (es: seq<Entry>, runs: seq<Run>)
    requires Represents(t, entries) && t.root != []
    ensures TrieOf(t, es, runs) && NonemptyKeys(es)
    ensures forall e :: e in es <==> e in entries
  {
    hide TrieOf;
    es, runs :| multiset(es) == multiset(entries) && TrieOf(t, es, runs);
    assert forall e :: e in es <==> e in multiset(es);
    assert forall e :: e in entries <==> e in multiset(entries);
  }

  lemma RootNonempty(t: Trie, entries: seq<Entry>)
    requires Represents(t, entries) && t.root == []
    ensures entries == []
  {
    hide Wrote;
  }

  lemma AtRoot(t: Trie, es: seq<Entry>, runs: seq<Run>, text: seq<byte>, probe: Probe) returns (mid: nat)
    requires TrieOf(t, es, runs) && NonemptyKeys(es) && text != []
    ensures WalkedTo(t, es, runs, text, probe, 0, 0)
    ensures IsRun(es, runs[0]) && EdgesAt(t, es, runs, 0, mid)
    ensures |t.root| == 256
    ensures t.root[text[0]] == 0 ==> text[0] !in t.edgeBytes[t.edgeStart[0]..t.edgeStart[1]]
    ensures t.root[text[0]] != 0 ==>
              && t.edgeStart[0] <= t.root[text[0]] - 1 < t.edgeStart[1]
              && t.edgeBytes[t.root[text[0]] - 1] == text[0]
    ensures forall x :: x in es && x.key <= text && |x.key| == 0 ==> !probe.Accepts(x.id)
  {
    hide IsRun, Divided, Probe.Accepts;
    mid := NodeAt(t, es, runs, 0);
    RunKeys(es, runs[0]);
    assert t.edgeBytes[t.edgeStart[0]..t.edgeStart[1]] == t.edgeBytes[..t.edgeStart[1]];
  }
}
