/** Just enough of the DNS wire format (section 4.1 of RFC 1035) to patch answers without
    decoding them (wire.rs): names, the question and the walk over the records. */
module Wire {
  import opened Bytes

  type Msg = seq<byte>

  const HEADER_LEN: nat := 12
  const TYPE_OPT: nat := 41
  const MAX_NAME_LEN: nat := 255

  function U16At(msg: Msg, at: nat): Option<nat> {
    if at + 2 <= |msg| then Some(Be16(msg[at], msg[at + 1])) else None
  }

  function SetBytes(msg: Msg, at: nat, v: seq<byte>): (r: Msg)
    requires at + |v| <= |msg|
    ensures |r| == |msg|
    ensures forall i :: 0 <= i < |msg| ==> r[i] == if at <= i < at + |v| then v[i - at] else msg[i]
  {
    msg[..at] + v + msg[at + |v|..]
  }

  // ----- names

  /** The offset just past the name that starts at `start`, read from `at` on. A pointer ends
      the name. */
  function SkipFrom(msg: Msg, start: nat, at: nat, allowPointer: bool): (r: Option<nat>)
    requires start <= at
    ensures r.Some? ==> at < r.value <= |msg|
    ensures r.Some? && !allowPointer && at - start < MAX_NAME_LEN ==> r.value - start <= MAX_NAME_LEN
    decreases |msg| - at
  {
    if at >= |msg| then None
    else
      var len := msg[at];
      if len == 0 then Some(at + 1)
      else if len < 0x40 then
        if at + 1 + len - start >= MAX_NAME_LEN then None
        else if at + 1 + len > |msg| then None
        else SkipFrom(msg, start, at + 1 + len, allowPointer)
      else if len >= 0xc0 && allowPointer then
        if at + 2 <= |msg| then Some(at + 2) else None
      else None
  }

  function SkipName(msg: Msg, at: nat, allowPointer: bool): (r: Option<nat>)
    ensures r.Some? ==> at < r.value <= |msg|
    ensures r.Some? && !allowPointer ==> r.value - at <= MAX_NAME_LEN
  {
    SkipFrom(msg, at, at, allowPointer)
  }

  /** `skip_name`: the loop. */
  method Skip(msg: Msg, from: nat, allowPointer: bool) returns (r: Option<nat>)
    ensures r == SkipName(msg, from, allowPointer)
  {
    var at := from;
    while at < |msg|
      invariant from <= at
      invariant SkipFrom(msg, from, at, allowPointer) == SkipName(msg, from, allowPointer)
      decreases |msg| - at
    {
      var len := msg[at];
      if len == 0 {
        return Some(at + 1);
      } else if len < 0x40 {
        at := at + 1 + len;
        if at - from >= MAX_NAME_LEN {
          return None;
        }
      } else if len >= 0xc0 && allowPointer {
        return if at + 2 <= |msg| then Some(at + 2) else None;
      } else {
        return None;
      }
    }
    r := None;
  }

  /** A name reads the same in a message that agrees on its bytes. */
  lemma {:induction false} SkipAgrees(m: Msg, m': Msg, start: nat, at: nat, allowPointer: bool)
    requires start <= at && SkipFrom(m, start, at, allowPointer).Some?
    requires var end := SkipFrom(m, start, at, allowPointer).value;
             end <= |m'| && forall i :: at <= i < end ==> m'[i] == m[i]
    ensures SkipFrom(m', start, at, allowPointer) == SkipFrom(m, start, at, allowPointer)
    decreases |m| - at
  {
    var len := m[at];
    if 0 < len < 0x40 {
      SkipAgrees(m, m', start, at + 1 + len, allowPointer);
    }
  }

  // ----- written names

  predicate WholeLabels(labels: seq<seq<byte>>) { forall i :: 0 <= i < |labels| ==> 1 <= |labels[i]| <= 63 }

  function LabelBytes(labels: seq<seq<byte>>): seq<int> {
    if labels == [] then [] else [|labels[0]|] + labels[0] + LabelBytes(labels[1..])
  }

  /** What ends a name: the root, or a pointer where one is allowed. */
  predicate EndsName(end: seq<int>, allowPointer: bool) {
    end == [0] || (allowPointer && |end| == 2 && end[0] >= 0xc0)
  }

  /** Labels that take less than 255 bytes, and an end. */
  ghost predicate IsName(bytes: seq<int>, allowPointer: bool) {
    exists labels, end :: NameOf(bytes, labels, end, allowPointer)
  }

  predicate NameOf(bytes: seq<int>, labels: seq<seq<byte>>, end: seq<int>, allowPointer: bool) {
    && WholeLabels(labels) && EndsName(end, allowPointer)
    && bytes == LabelBytes(labels) + end && |LabelBytes(labels)| < 255
  }

  lemma {:induction false} SkippedIsName(msg: Msg, start: nat, at: nat, allowPointer: bool)
    returns (labels: seq<seq<byte>>, end: seq<int>)
    requires start <= at < start + 255 && SkipFrom(msg, start, at, allowPointer).Some?
    ensures NameOf(msg[at..SkipFrom(msg, start, at, allowPointer).value], labels, end, allowPointer)
    ensures at - start + |LabelBytes(labels)| < 255
    decreases |msg| - at
  {
    var r := SkipFrom(msg, start, at, allowPointer).value;
    var len := msg[at];
    if 0 < len < 0x40 {
      var rest;
      var next := at + 1 + len;
      rest, end := SkippedIsName(msg, start, next, allowPointer);
      labels := [msg[at + 1..next]] + rest;
      assert labels[1..] == rest;
      assert msg[at..r] == [len] + msg[at + 1..next] + msg[next..r];
    } else {
      labels, end := [], msg[at..r];
    }
  }

  lemma LabelThen(msg: Msg, at: nat, l: seq<byte>, rest: seq<int>)
    requires at <= |msg| && [|l|] + l + rest <= msg[at..]
    ensures at + 1 + |l| <= |msg| && msg[at] == |l| && rest <= msg[at + 1 + |l|..]
  {
    assert msg[at..][0] == msg[at] == |l|;
    assert msg[at..][1 + |l|..] == msg[at + 1 + |l|..];
  }

  lemma {:induction false} NameIsSkipped(msg: Msg, start: nat, at: nat, labels: seq<seq<byte>>, end: seq<int>,
                                         allowPointer: bool)
    requires WholeLabels(labels) && EndsName(end, allowPointer) && start <= at <= |msg|
    requires LabelBytes(labels) + end <= msg[at..] && at - start + |LabelBytes(labels)| < 255
    ensures SkipFrom(msg, start, at, allowPointer) == Some(at + |LabelBytes(labels) + end|)
    decreases |labels|
  {
    if labels == [] {
      assert forall i :: 0 <= i < |end| ==> end[i] == msg[at..][i] && msg[at..][i] == msg[at + i];
    } else {
      var l, rest := labels[0], labels[1..];
      var next := at + 1 + |l|;
      assert LabelBytes(labels) + end == [|l|] + l + (LabelBytes(rest) + end);
      LabelThen(msg, at, l, LabelBytes(rest) + end);
      NameIsSkipped(msg, start, next, rest, end, allowPointer);
    }
  }

  /** A name is skipped exactly when one is written there. */
  lemma SkipsExactly(msg: Msg, at: nat, allowPointer: bool, end: nat)
    ensures SkipName(msg, at, allowPointer) == Some(end) <==> at <= end <= |msg| && IsName(msg[at..end], allowPointer)
  {
    if SkipName(msg, at, allowPointer) == Some(end) {
      var labels, last := SkippedIsName(msg, at, at, allowPointer);
    }
    if at <= end <= |msg| && IsName(msg[at..end], allowPointer) {
      var labels, last :| NameOf(msg[at..end], labels, last, allowPointer);
      assert msg[at..end] <= msg[at..];
      NameIsSkipped(msg, at, at, labels, last, allowPointer);
    }
  }

  // ----- the question

  /** The end of the only question, which is not compressed. */
  function QuestionEnd(msg: Msg): (r: Option<nat>)
    ensures r.Some? ==> HEADER_LEN + 5 <= r.value <= |msg| && r.value <= HEADER_LEN + MAX_NAME_LEN + 4
  {
    if U16At(msg, 4) != Some(1) then None
    else
      match SkipName(msg, HEADER_LEN, false)
      case None => None
      case Some(end) => if end + 4 <= |msg| then Some(end + 4) else None
  }

  /** The question is the only one, and is a name without pointers, a type and a class. */
  lemma QuestionExactly(msg: Msg, end: nat)
    ensures QuestionEnd(msg) == Some(end) <==>
            && |msg| >= 6 && msg[4] == 0 && msg[5] == 1
            && 16 <= end <= |msg| && IsName(msg[12..end - 4], false)
  {
    hide IsName, SkipName;
    if end >= 16 { SkipsExactly(msg, HEADER_LEN, false, end - 4); }
  }

  /** The question with the letters of its name lowercased: the key answers are kept under. */
  function KeyOf(question: seq<byte>): (k: seq<byte>)
    requires |question| >= 4
    ensures |k| == |question|
  {
    Lowercase(question[..|question| - 4]) + question[|question| - 4..]
  }

  function QuestionKey(msg: Msg, end: nat): seq<byte>
    requires HEADER_LEN + 4 <= end <= |msg|
  {
    KeyOf(msg[HEADER_LEN..end])
  }

  // ----- records

  /** A record: where it starts, where its fixed fields start (just past its name), its type
      and where it ends. The TTL is at `fields + 4`, the data length at `fields + 8`. */
  datatype Rec = Rec(start: nat, fields: nat, rtype: nat, end: nat)

  function NextRec(msg: Msg, at: nat): (r: Option<Rec>)
    ensures r.Some? ==> r.value.start == at < r.value.fields && r.value.fields + 10 <= r.value.end <= |msg|
  {
    match SkipName(msg, at, true)
    case None => None
    case Some(fields) =>
      var rtype := U16At(msg, fields);
      var len := U16At(msg, fields + 8);
      if rtype.None? || len.None? || fields + 10 + len.value > |msg| then None
      else Some(Rec(at, fields, rtype.value, fields + 10 + len.value))
  }

  /** `n` records from `at` on. */
  function Walk(msg: Msg, at: nat, n: nat): (r: Option<seq<Rec>>)
    ensures r.Some? ==> |r.value| == n
  {
    if n == 0 then Some([])
    else
      match Walk(msg, at, n - 1)
      case None => None
      case Some(recs) =>
        match NextRec(msg, End(recs, at))
        case None => None
        case Some(rec) => Some(recs + [rec])
  }

  function End(recs: seq<Rec>, at: nat): nat {
    if recs == [] then at else recs[|recs| - 1].end
  }

  /** The record starts where the one before it ends, and is at least 11 bytes long. */
  ghost predicate Linked(recs: seq<Rec>, at: nat, size: nat, i: int)
    requires 0 <= i < |recs|
  {
    && recs[i].start == (if i == 0 then at else recs[i - 1].end)
    && recs[i].start < recs[i].fields && recs[i].fields + 10 <= recs[i].end <= size
  }

  ghost predicate Chained(recs: seq<Rec>, at: nat, size: nat) {
    forall i :: 0 <= i < |recs| ==> Linked(recs, at, size, i)
  }

  lemma {:induction false} WalkChained(msg: Msg, at: nat, n: nat)
    requires Walk(msg, at, n).Some?
    ensures Chained(Walk(msg, at, n).value, at, |msg|)
    ensures at + 11 * n <= End(Walk(msg, at, n).value, at)
    ensures n > 0 || at <= |msg| ==> End(Walk(msg, at, n).value, at) <= |msg|
  {
    if n > 0 {
      WalkChained(msg, at, n - 1);
      var before, recs := Walk(msg, at, n - 1).value, Walk(msg, at, n).value;
      forall i | 0 <= i < n ensures Linked(recs, at, |msg|, i) {
        if i < n - 1 { assert Linked(before, at, |msg|, i); }
      }
    }
  }

  /** Records do not overlap: earlier ones end before later ones start. */
  lemma {:induction false} ChainedApart(recs: seq<Rec>, at: nat, size: nat, i: nat, j: nat)
    requires Chained(recs, at, size) && i < j < |recs|
    ensures recs[i].end <= recs[j].start
    decreases j
  {
    assert Linked(recs, at, size, j) && Linked(recs, at, size, j - 1);
    if i < j - 1 { ChainedApart(recs, at, size, i, j - 1); }
  }

  lemma {:induction false} ChainedAfter(recs: seq<Rec>, at: nat, size: nat, i: nat)
    requires Chained(recs, at, size) && i < |recs|
    ensures at <= recs[i].start && recs[i].end <= End(recs, at)
  {
    assert Linked(recs, at, size, 0) && Linked(recs, at, size, |recs| - 1);
    if i > 0 { ChainedApart(recs, at, size, 0, i); }
    if i < |recs| - 1 { ChainedApart(recs, at, size, i, |recs| - 1); }
  }

  /** A shorter walk is a prefix of a longer one. */
  lemma {:induction false} WalkPrefix(msg: Msg, at: nat, n: nat, k: nat)
    requires k <= n && Walk(msg, at, n).Some?
    ensures Walk(msg, at, k) == Some(Walk(msg, at, n).value[..k])
    decreases n
  {
    if k < n {
      WalkPrefix(msg, at, n - 1, k);
      var recs := Walk(msg, at, n - 1).value;
      assert Walk(msg, at, n).value[..k] == recs[..k];
    } else {
      assert Walk(msg, at, n).value[..k] == Walk(msg, at, n).value;
    }
  }

  /** The bytes the walk reads of a record: its name, its type and its data length. */
  ghost predicate ReadAlike(m: Msg, m': Msg, r: Rec) {
    && r.end <= |m| && r.end <= |m'|
    && (forall i :: r.start <= i < r.fields + 2 && i < |m| && i < |m'| ==> m'[i] == m[i])
    && (forall i :: r.fields + 8 <= i < r.fields + 10 && i < |m| && i < |m'| ==> m'[i] == m[i])
  }

  lemma NextRecAgrees(m: Msg, m': Msg, at: nat)
    requires NextRec(m, at).Some? && ReadAlike(m, m', NextRec(m, at).value)
    ensures NextRec(m', at) == NextRec(m, at)
  {
    SkipAgrees(m, m', at, at, true);
  }

  /** A message that agrees on the bytes read walks to the same records. */
  lemma {:induction false} WalkAgrees(m: Msg, m': Msg, at: nat, n: nat)
    requires Walk(m, at, n).Some?
    requires forall r :: r in Walk(m, at, n).value ==> ReadAlike(m, m', r)
    ensures Walk(m', at, n) == Walk(m, at, n)
  {
    hide NextRec, ReadAlike;
    if n > 0 {
      var recs := Walk(m, at, n).value;
      WalkPrefix(m, at, n, n - 1);
      assert recs == recs[..n - 1] + [recs[n - 1]];
      WalkAgrees(m, m', at, n - 1);
      NextRecAgrees(m, m', End(recs[..n - 1], at));
    }
  }

  // ----- the walk over all records

  datatype Records = Records(ttlOffsets: seq<nat>, opt: Option<Rec>, extendedRcode: byte, end: nat)

  /** The TTL offsets of the records that are not OPT. */
  function TtlOffsets(recs: seq<Rec>): seq<nat> {
    if recs == [] then []
    else
      var n := |recs| - 1;
      TtlOffsets(recs[..n]) + if recs[n].rtype == TYPE_OPT then [] else [recs[n].fields + 4]
  }

  /** The last OPT among the records. */
  function OptOf(recs: seq<Rec>): Option<Rec> {
    if recs == [] then None
    else
      var n := |recs| - 1;
      if recs[n].rtype == TYPE_OPT then Some(recs[n]) else OptOf(recs[..n])
  }

  /** OPT only from the index `from` on and at most once, and every TTL offset in 16 bits. */
  predicate Accepts(recs: seq<Rec>, from: nat) {
    if recs == [] then true
    else
      var n := |recs| - 1;
      && Accepts(recs[..n], from)
      && (if recs[n].rtype == TYPE_OPT then n >= from && OptOf(recs[..n]).None?
          else recs[n].fields + 4 <= U16_MAX)
  }

  /** What the walk over these records has found. */
  ghost predicate Finds(f: Records, msg: Msg, recs: seq<Rec>, at: nat) {
    && f.ttlOffsets == TtlOffsets(recs)
    && f.opt == OptOf(recs)
    && f.end == End(recs, at)
    && (f.opt.None? ==> f.extendedRcode == 0)
    && (f.opt.Some? ==>
          && f.opt.value.fields + 10 <= f.opt.value.end <= |msg|
          && f.extendedRcode == msg[f.opt.value.fields + 4])
  }

  /** What is found with one more record. */
  function Find(f: Records, msg: Msg, rec: Rec): Records
    requires rec.fields + 10 <= |msg|
  {
    if rec.rtype == TYPE_OPT then Records(f.ttlOffsets, Some(rec), msg[rec.fields + 4], rec.end)
    else Records(f.ttlOffsets + [rec.fields + 4], f.opt, f.extendedRcode, rec.end)
  }

  lemma FindsMore(f: Records, msg: Msg, recs: seq<Rec>, at: nat, rec: Rec)
    requires Finds(f, msg, recs, at) && rec.fields + 10 <= rec.end <= |msg|
    ensures Finds(Find(f, msg, rec), msg, recs + [rec], at)
  {
    assert (recs + [rec])[..|recs|] == recs;
    assert f.ttlOffsets + [] == f.ttlOffsets;
  }

  /** `records`: the loop over every record after the question. */
  method ReadRecords(msg: Msg, questionEnd: nat) returns (r: Option<Records>)
    requires HEADER_LEN <= questionEnd <= |msg|
    ensures var an, ns, ar := U16At(msg, 6).value, U16At(msg, 8).value, U16At(msg, 10).value;
            var walk := Walk(msg, questionEnd, an + ns + ar);
            && (r.Some? <==> walk.Some? && Accepts(walk.value, an + ns))
            && (r.Some? ==> Finds(r.value, msg, walk.value, questionEnd))
  {
    hide NextRec, Accepts, Finds, Walk, End, OptOf;
    var an, ns, ar := U16At(msg, 6).value, U16At(msg, 8).value, U16At(msg, 10).value;
    var total := an + ns + ar;
    var found := Records([], None, 0, questionEnd);
    ghost var recs: seq<Rec> := [];
    var index := 0;
    AcceptsNone(an + ns);
    FindsNone(msg, questionEnd);
    WalkNone(msg, questionEnd);
    while index < total
      invariant 0 <= index <= total && Walk(msg, questionEnd, index) == Some(recs)
      invariant Accepts(recs, an + ns) && Finds(found, msg, recs, questionEnd)
    {
      FoundSoFar(found, msg, recs, questionEnd);
      var rec := NextRec(msg, found.end);
      WalkStep(msg, questionEnd, index, recs);
      if rec.None? {
        WalkStops(msg, questionEnd, index + 1, total);
        return None;
      }
      AcceptsStep(recs, rec.value, an + ns);
      if rec.value.rtype == TYPE_OPT {
        if index < an + ns || found.opt.Some? {
          RejectsStays(msg, questionEnd, index + 1, total, an + ns);
          return None;
        }
      } else if rec.value.fields + 4 > U16_MAX {
        RejectsStays(msg, questionEnd, index + 1, total, an + ns);
        return None;
      }
      FindsMore(found, msg, recs, questionEnd, rec.value);
      found := Find(found, msg, rec.value);
      recs := recs + [rec.value];
      index := index + 1;
    }
    r := Some(found);
  }

  lemma FindsNone(msg: Msg, at: nat)
    ensures Finds(Records([], None, 0, at), msg, [], at)
  {
  }

  lemma FoundSoFar(f: Records, msg: Msg, recs: seq<Rec>, at: nat)
    requires Finds(f, msg, recs, at)
    ensures f.end == End(recs, at) && f.opt == OptOf(recs)
  {
  }

  lemma AcceptsNone(from: nat)
    ensures Accepts([], from)
  {
  }

  lemma AcceptsStep(recs: seq<Rec>, rec: Rec, from: nat)
    ensures Accepts(recs + [rec], from) <==>
            && Accepts(recs, from)
            && if rec.rtype == TYPE_OPT then |recs| >= from && OptOf(recs).None? else rec.fields + 4 <= U16_MAX
  {
    assert (recs + [rec])[..|recs|] == recs;
  }

  lemma {:induction false} AcceptsPrefix(recs: seq<Rec>, from: nat, k: nat)
    requires k <= |recs| && Accepts(recs, from)
    ensures Accepts(recs[..k], from)
    decreases |recs|
  {
    if k < |recs| {
      var n := |recs| - 1;
      AcceptsPrefix(recs[..n], from, k);
      assert recs[..n][..k] == recs[..k];
    } else {
      assert recs[..k] == recs;
    }
  }

  lemma WalkNone(msg: Msg, at: nat)
    ensures Walk(msg, at, 0) == Some([])
  {
  }

  lemma WalkStep(msg: Msg, at: nat, n: nat, recs: seq<Rec>)
    requires Walk(msg, at, n) == Some(recs)
    ensures var rec := NextRec(msg, End(recs, at));
            Walk(msg, at, n + 1) == if rec.None? then None else Some(recs + [rec.value])
  {
  }

  lemma WalkStops(msg: Msg, at: nat, k: nat, n: nat)
    requires k <= n && Walk(msg, at, k).None?
    ensures Walk(msg, at, n).None?
  {
    if Walk(msg, at, n).Some? { WalkPrefix(msg, at, n, k); }
  }

  lemma RejectsStays(msg: Msg, at: nat, k: nat, n: nat, from: nat)
    requires k <= n && Walk(msg, at, k).Some? && !Accepts(Walk(msg, at, k).value, from)
    ensures Walk(msg, at, n).None? || !Accepts(Walk(msg, at, n).value, from)
  {
    if Walk(msg, at, n).Some? && Accepts(Walk(msg, at, n).value, from) {
      WalkPrefix(msg, at, n, k);
      AcceptsPrefix(Walk(msg, at, n).value, from, k);
    }
  }

  /** `answer_records`: the records of the answer section. */
  method ReadAnswers(msg: Msg, questionEnd: nat) returns (r: Option<seq<Rec>>)
    requires HEADER_LEN <= questionEnd <= |msg|
    ensures r == Walk(msg, questionEnd, U16At(msg, 6).value)
  {
    hide NextRec;
    var answers := U16At(msg, 6).value;
    var found: seq<Rec> := [];
    var at, index := questionEnd, 0;
    while index < answers
      invariant 0 <= index <= answers && Walk(msg, questionEnd, index) == Some(found)
      invariant at == End(found, questionEnd)
    {
      var rec := NextRec(msg, at);
      if rec.None? {
        WalkStops(msg, questionEnd, index + 1, answers);
        return None;
      }
      found := found + [rec.value];
      at := rec.value.end;
      index := index + 1;
    }
    r := Some(found);
  }
}
