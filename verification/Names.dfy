/** Names through compression pointers: the replies that `answer.rs` makes keep the names of the
    records they keep. */
module Names {
  import opened Bytes
  import opened Wire
  import opened Answers
  import opened Rendering

  // ----- reading a name

  function PointerTo(msg: Msg, at: nat): nat
    requires at + 2 <= |msg|
  {
    Be16(msg[at], msg[at + 1]) % 0x4000
  }

  /** The labels of the name part at `at` of a name read from `start` (section 4.1.4 of RFC 1035).
      A pointer is followed only to before `start`; `None` for a name that cannot be read. */
  function Labels(msg: Msg, start: nat, at: nat): Option<seq<seq<byte>>>
    requires start <= at
    decreases start, |msg| - at
  {
    if at >= |msg| then None
    else
      var len := msg[at];
      if len == 0 then Some([])
      else if len < 0x40 then
        if at + 1 + len > |msg| then None
        else
          match Labels(msg, start, at + 1 + len)
          case None => None
          case Some(rest) => Some([msg[at + 1..at + 1 + len]] + rest)
      else if len >= 0xc0 && at + 2 <= |msg| && PointerTo(msg, at) < start then
        Labels(msg, PointerTo(msg, at), PointerTo(msg, at))
      else None
  }

  function Offsets(from: nat, end: nat): (r: set<nat>)
    ensures forall i :: i in r <==> from <= i < end
    decreases end - from
  {
    if from >= end then {} else {from} + Offsets(from + 1, end)
  }

  /** The offsets that reading the name looks at. */
  function Reads(msg: Msg, start: nat, at: nat): set<nat>
    requires start <= at && Labels(msg, start, at).Some?
    decreases start, |msg| - at
  {
    var len := msg[at];
    if len == 0 then {at}
    else if len < 0x40 then Offsets(at, at + 1 + len) + Reads(msg, start, at + 1 + len)
    else {at, at + 1} + Reads(msg, PointerTo(msg, at), PointerTo(msg, at))
  }

  /** The offsets of its pointers. */
  function Pointers(msg: Msg, start: nat, at: nat): set<nat>
    requires start <= at && Labels(msg, start, at).Some?
    decreases start, |msg| - at
  {
    var len := msg[at];
    if len == 0 then {}
    else if len < 0x40 then Pointers(msg, start, at + 1 + len)
    else {at, at + 1} + Pointers(msg, PointerTo(msg, at), PointerTo(msg, at))
  }

  /** The same labels but for letter case. */
  predicate SameName(a: seq<seq<byte>>, b: seq<seq<byte>>) {
    |a| == |b| && forall k :: 0 <= k < |a| ==> Lowercase(a[k]) == Lowercase(b[k])
  }

  /** The messages agree at the offsets, but for letter case. */
  ghost predicate Agree(m: Msg, m': Msg, offsets: set<nat>) {
    forall i :: i in offsets ==> i < |m| && i < |m'| && Lower(m'[i]) == Lower(m[i])
  }

  ghost predicate Equal(m: Msg, m': Msg, offsets: set<nat>) {
    forall i :: i in offsets ==> i < |m| && i < |m'| && m'[i] == m[i]
  }

  /** Letters aside, bytes that agree are equal: lengths and pointer marks are no letters. */
  lemma NoLetter(x: byte, y: byte)
    requires Lower(x) == Lower(y) && (x < 0x40 || x >= 0xc0)
    ensures x == y
  {
  }

  lemma LabelAgrees(m: Msg, m': Msg, at: nat, n: nat)
    requires at + 1 + n <= |m| && Agree(m, m', Offsets(at, at + 1 + n))
    ensures at + 1 + n <= |m'| && Lowercase(m'[at + 1..at + 1 + n]) == Lowercase(m[at + 1..at + 1 + n])
  {
    assert at + n in Offsets(at, at + 1 + n);
    var x, y := m[at + 1..at + 1 + n], m'[at + 1..at + 1 + n];
    forall k | 0 <= k < n ensures Lower(y[k]) == Lower(x[k]) {
      assert at + 1 + k in Offsets(at, at + 1 + n);
    }
  }

  lemma SamePointer(m: Msg, m': Msg, at: nat)
    requires at + 2 <= |m| && Equal(m, m', {at, at + 1})
    ensures at + 2 <= |m'| && PointerTo(m', at) == PointerTo(m, at)
  {
    assert at in {at, at + 1} && at + 1 in {at, at + 1};
  }

  /** Reading a name gives the same labels where the bytes read agree and pointers are equal. */
  lemma {:induction false} LabelsAgree(m: Msg, m': Msg, start: nat, at: nat)
    requires start <= at && Labels(m, start, at).Some?
    requires Agree(m, m', Reads(m, start, at)) && Equal(m, m', Pointers(m, start, at))
    ensures Labels(m', start, at).Some? && SameName(Labels(m', start, at).value, Labels(m, start, at).value)
    decreases start, |m| - at
  {
    hide Offsets, PointerTo, SameName;
    var len := m[at];
    assert at in Reads(m, start, at) by { FirstRead(m, start, at); }
    if len == 0 {
      NoLetter(m[at], m'[at]);
      NoLabels();
    } else if len < 0x40 {
      NoLetter(m[at], m'[at]);
      LabelAgrees(m, m', at, len as int);
      LabelsAgree(m, m', start, at + 1 + len);
      OneMoreLabel(Labels(m', start, at + 1 + len).value, Labels(m, start, at + 1 + len).value,
                   m'[at + 1..at + 1 + len], m[at + 1..at + 1 + len]);
    } else {
      SamePointer(m, m', at);
      assert m'[at] == m[at];
      var to := PointerTo(m, at);
      LabelsAgree(m, m', to, to);
    }
  }

  lemma FirstRead(m: Msg, start: nat, at: nat)
    requires start <= at && Labels(m, start, at).Some?
    ensures at in Reads(m, start, at)
  {
  }

  lemma NoLabels()
    ensures SameName([], [])
  {
  }

  lemma OneMoreLabel(a: seq<seq<byte>>, b: seq<seq<byte>>, x: seq<byte>, y: seq<byte>)
    requires SameName(a, b) && Lowercase(x) == Lowercase(y)
    ensures SameName([x] + a, [y] + b)
  {
    hide Lowercase;
  }

  // ----- the names in a reply

  /** Every byte read is in the question or in a kept record, outside its TTL, and no pointer is in
      the question. */
  ghost predicate ReadsKept(a: UpstreamAnswer, kept: seq<Rec>, at: nat) {
    && Labels(a.bytes, at, at).Some?
    && (forall i :: i in Reads(a.bytes, at, at) ==> KeptAt(a.questionEnd, kept, i))
    && (forall i :: i in Pointers(a.bytes, at, at) ==> i >= a.questionEnd)
  }

  ghost predicate KeptAt(questionEnd: nat, kept: seq<Rec>, i: nat) {
    HEADER_LEN <= i < End(kept, questionEnd) && forall c :: 0 <= c < |kept| ==> !InTtl(kept[c], i)
  }

  /** Which record an offset after the question is in. */
  lemma {:induction false} InSomeRecord(kept: seq<Rec>, at: nat, size: nat, i: nat) returns (c: nat)
    requires Chained(kept, at, size) && at <= i < End(kept, at)
    ensures c < |kept| && kept[c].start <= i < kept[c].end
  {
    var n := |kept| - 1;
    assert Linked(kept, at, size, n);
    if kept[n].start <= i {
      c := n;
    } else {
      var front := kept[..n];
      forall j | 0 <= j < n ensures Linked(front, at, size, j) { assert Linked(kept, at, size, j); }
      c := InSomeRecord(front, at, size, i);
    }
  }

  lemma {:induction false} PointersRead(m: Msg, start: nat, at: nat)
    requires start <= at && Labels(m, start, at).Some?
    ensures Pointers(m, start, at) <= Reads(m, start, at)
    decreases start, |m| - at
  {
    var len := m[at];
    if 0 < len < 0x40 {
      PointersRead(m, start, at + 1 + len);
    } else if len != 0 {
      PointersRead(m, PointerTo(m, at), PointerTo(m, at));
    }
  }

  /** What a reply with these records shows of the stored answer. */
  ghost predicate Shows(reply: Msg, a: UpstreamAnswer, kept: seq<Rec>, r: Requester, elapsed: nat) {
    && HEADER_LEN <= a.questionEnd <= |reply| && reply[HEADER_LEN..a.questionEnd] == r.question
    && Chained(kept, a.questionEnd, |a.bytes|)
    && forall c :: 0 <= c < |kept| ==> RecordAged(reply, a.bytes, kept[c], elapsed)
  }

  lemma KeptByte(reply: Msg, a: UpstreamAnswer, kept: seq<Rec>, r: Requester, elapsed: nat, i: nat)
    requires Shows(reply, a, kept, r, elapsed) && KeptAt(a.questionEnd, kept, i) && i >= a.questionEnd
    ensures i < |reply| && i < |a.bytes| && reply[i] == a.bytes[i]
  {
    hide Chained;
    var c := InSomeRecord(kept, a.questionEnd, |a.bytes|, i);
    assert RecordAged(reply, a.bytes, kept[c], elapsed);
  }

  lemma QuestionByte(reply: Msg, a: UpstreamAnswer, key: seq<byte>, recs: seq<Rec>, r: Requester, i: nat)
    requires Stored(a, key, recs) && ValidRequester(r) && KeyOf(r.question) == key
    requires HEADER_LEN <= i < a.questionEnd <= |reply| && reply[HEADER_LEN..a.questionEnd] == r.question
    ensures i < |a.bytes| && Lower(reply[i]) == Lower(a.bytes[i])
  {
    hide Walk, TtlOffsets, QuestionEnd, PlainRecs;
    var q, j := a.bytes[HEADER_LEN..a.questionEnd], i - HEADER_LEN;
    assert q[j] == a.bytes[i] && r.question[j] == reply[i];
    SameKeyByte(q, r.question, j);
  }

  lemma SameKeyByte(q: seq<byte>, q': seq<byte>, j: nat)
    requires |q| >= 4 && |q'| >= 4 && KeyOf(q) == KeyOf(q') && j < |q|
    ensures |q'| == |q| && Lower(q[j]) == Lower(q'[j])
  {
    var n := |q| - 4;
    assert |KeyOf(q)| == |KeyOf(q')|;
    if j < n {
      assert Lower(q[j]) == KeyOf(q)[j] && Lower(q'[j]) == KeyOf(q')[j];
    } else {
      assert q[j] == KeyOf(q)[j] && q'[j] == KeyOf(q')[j];
    }
  }

  /** A name that is read from the question and the kept records only reads the same in the reply. */
  lemma NameShown(reply: Msg, a: UpstreamAnswer, key: seq<byte>, recs: seq<Rec>, kept: seq<Rec>, r: Requester,
                  elapsed: nat, at: nat)
    requires Stored(a, key, recs) && ValidRequester(r) && KeyOf(r.question) == key
    requires Shows(reply, a, kept, r, elapsed) && ReadsKept(a, kept, at)
    ensures Labels(reply, at, at).Some? && SameName(Labels(reply, at, at).value, Labels(a.bytes, at, at).value)
  {
    hide Labels, Reads, Pointers, Stored, KeptAt, ValidRequester, KeyOf;
    var offsets, pointers := Reads(a.bytes, at, at), Pointers(a.bytes, at, at);
    PointersRead(a.bytes, at, at);
    forall i | i in offsets ensures i < |a.bytes| && i < |reply| && Lower(reply[i]) == Lower(a.bytes[i]) {
      KeptAfterHeader(a.questionEnd, kept, i);
      if i >= a.questionEnd {
        KeptByte(reply, a, kept, r, elapsed, i);
      } else {
        QuestionByte(reply, a, key, recs, r, i);
      }
    }
    forall i | i in pointers ensures i < |a.bytes| && i < |reply| && reply[i] == a.bytes[i] {
      KeptByte(reply, a, kept, r, elapsed, i);
    }
    LabelsAgree(a.bytes, reply, at, at);
  }

  lemma KeptAfterHeader(questionEnd: nat, kept: seq<Rec>, i: nat)
    requires KeptAt(questionEnd, kept, i)
    ensures i >= HEADER_LEN
  {
  }

  /** The stored records that a reply keeps. */
  ghost function KeptIn(reply: Msg, whole: Msg, a: UpstreamAnswer, recs: seq<Rec>, r: Requester): seq<Rec>
    requires |reply| >= HEADER_LEN && |a.bytes| >= HEADER_LEN && U16At(a.bytes, 6).value <= |recs|
  {
    if |whole| <= UdpLimit(r) then recs
    else if Tc(reply[2]) then []
    else recs[..Kept(a, recs, r)]
  }

  lemma ChainedPrefix(recs: seq<Rec>, at: nat, size: nat, k: nat)
    requires Chained(recs, at, size) && k <= |recs|
    ensures Chained(recs[..k], at, size)
  {
    forall i | 0 <= i < k ensures Linked(recs[..k], at, size, i) { assert Linked(recs, at, size, i); }
  }

  lemma KeptWithin(a: UpstreamAnswer, recs: seq<Rec>, r: Requester)
    requires |a.bytes| >= HEADER_LEN && U16At(a.bytes, 6).value <= |recs|
    ensures Kept(a, recs, r) <= |recs|
  {
  }

  lemma ReplyShows(reply: Msg, whole: Msg, a: UpstreamAnswer, key: seq<byte>, recs: seq<Rec>, r: Requester,
                   elapsed: nat)
    requires Stored(a, key, recs) && ValidRequester(r) && KeyOf(r.question) == key
    requires a.questionEnd == HEADER_LEN + |r.question| <= |a.bytes| && Whole(whole, a, recs, r, elapsed)
    requires reply == Fit(r, whole)
    ensures |reply| >= HEADER_LEN && |a.bytes| >= HEADER_LEN && U16At(a.bytes, 6).value <= |recs|
    ensures Shows(reply, a, KeptIn(reply, whole, a, recs, r), r, elapsed)
  {
    hide Stored, Whole, Walk, RecordAged, AnswersOnly, Chained, Kept, Tc, KeyOf, ValidRequester, Opt, WithOpt,
         QuestionEnd;
    StoredAnswers(a, key, recs);
    StoredRecords(a, key, recs);
    KeptWithin(a, recs, r);
    if |whole| <= UdpLimit(r) {
      WholeHeader(whole, a, recs, r, elapsed);
      FitUncut(r, whole);
      UntrimmedReply(reply, a, key, recs, r, elapsed);
    } else {
      hide Fit;
      TrimmedReply(reply, whole, a, key, recs, r, elapsed);
      ChainedPrefix(recs, a.questionEnd, |a.bytes|, Kept(a, recs, r));
      ChainedPrefix(recs, a.questionEnd, |a.bytes|, 0);
    }
  }

  /** Putting the question in the requester's spelling, lowering TTLs and cutting records off the end
      keep every name, wherever it stands, that is read from what the reply keeps. */
  lemma NamesKept(reply: Msg, whole: Msg, a: UpstreamAnswer, key: seq<byte>, recs: seq<Rec>, r: Requester,
                  elapsed: nat, at: nat)
    requires Stored(a, key, recs) && ValidRequester(r) && KeyOf(r.question) == key
    requires a.questionEnd == HEADER_LEN + |r.question| <= |a.bytes| && Whole(whole, a, recs, r, elapsed)
    requires reply == Fit(r, whole)
    ensures |reply| >= HEADER_LEN && |a.bytes| >= HEADER_LEN && U16At(a.bytes, 6).value <= |recs|
    ensures ReadsKept(a, KeptIn(reply, whole, a, recs, r), at) ==>
              Labels(reply, at, at).Some? && SameName(Labels(reply, at, at).value, Labels(a.bytes, at, at).value)
  {
    hide Stored, Whole, Fit, ReadsKept, Labels, KeptIn, Shows, KeyOf, ValidRequester, SameName;
    ReplyShows(reply, whole, a, key, recs, r, elapsed);
    var kept := KeptIn(reply, whole, a, recs, r);
    if ReadsKept(a, kept, at) { NameShown(reply, a, key, recs, kept, r, elapsed, at); }
  }

  // ----- the pointer that most records have

  /** A name skipped without pointers reads without them, from its own bytes. */
  lemma {:induction false} PlainName(m: Msg, start: nat, at: nat, from: nat, end: nat)
    requires start <= at && from <= at && SkipFrom(m, from, at, false) == Some(end)
    ensures Labels(m, start, at).Some? && Pointers(m, start, at) == {}
    ensures forall i :: i in Reads(m, start, at) ==> at <= i < end
    decreases |m| - at
  {
    var len := m[at];
    if len != 0 { PlainName(m, start, at + 1 + len, from, end); }
  }

  /** Such a name is read from the question and its own two bytes. */
  lemma PointerReads(m: Msg, at: nat, end: nat)
    requires HEADER_LEN < at && at + 2 <= |m| && m[at] == 0xc0 && m[at + 1] == 12
    requires SkipName(m, HEADER_LEN, false) == Some(end)
    ensures Labels(m, at, at).Some? && Labels(m, at, at) == Labels(m, HEADER_LEN, HEADER_LEN)
    ensures Pointers(m, at, at) == {at, at + 1}
    ensures forall i :: i in Reads(m, at, at) ==> HEADER_LEN <= i < end || i == at || i == at + 1
  {
    assert PointerTo(m, at) == 12;
    PlainName(m, HEADER_LEN, HEADER_LEN, HEADER_LEN, end);
  }

  lemma {:induction false} Apart(recs: seq<Rec>, at: nat, size: nat, c: nat, d: nat)
    requires Chained(recs, at, size) && c < d < |recs|
    ensures recs[c].end <= recs[d].start
    decreases d
  {
    assert Linked(recs, at, size, d) && Linked(recs, at, size, c);
    if c + 1 < d {
      Apart(recs, at, size, c, d - 1);
      assert Linked(recs, at, size, d - 1);
    }
  }

  lemma NameNotTtl(recs: seq<Rec>, at: nat, size: nat, c: nat, d: nat, i: nat)
    requires Chained(recs, at, size) && c < |recs| && d < |recs| && recs[c].start <= i < recs[c].fields
    ensures !InTtl(recs[d], i)
  {
    assert Linked(recs, at, size, c) && Linked(recs, at, size, d);
    if c < d {
      Apart(recs, at, size, c, d);
    } else if d < c {
      Apart(recs, at, size, d, c);
    }
  }

  /** The bytes of a kept record's own name, and those of the question, are kept. */
  lemma NameKept(kept: seq<Rec>, qe: nat, size: nat, c: nat, i: nat)
    requires HEADER_LEN <= qe && Chained(kept, qe, size) && c < |kept|
    requires HEADER_LEN <= i < qe || kept[c].start <= i < kept[c].fields
    ensures KeptAt(qe, kept, i)
  {
    ChainedAfter(kept, qe, size, c);
    assert Linked(kept, qe, size, c);
    forall d | 0 <= d < |kept| ensures !InTtl(kept[d], i) {
      assert Linked(kept, qe, size, d);
      ChainedAfter(kept, qe, size, d);
      if i >= qe { NameNotTtl(kept, qe, size, c, d, i); }
    }
  }

  lemma PointerName(a: UpstreamAnswer, key: seq<byte>, recs: seq<Rec>, c: nat)
    requires Stored(a, key, recs) && c < |recs| && recs[c].start + 2 <= |a.bytes| && a.bytes[recs[c].start] == 0xc0
    ensures recs[c].fields == recs[c].start + 2
    ensures SkipName(a.bytes, HEADER_LEN, false) == Some(a.questionEnd - 4)
  {
    hide PlainRecs, TtlOffsets, Walk;
    WalkRecord(a.bytes, a.questionEnd, |recs|, c);
  }

  lemma {:induction false} WalkRecord(m: Msg, at: nat, n: nat, c: nat)
    requires Walk(m, at, n).Some? && c < n
    ensures NextRec(m, Walk(m, at, n).value[c].start) == Some(Walk(m, at, n).value[c])
    decreases n
  {
    hide NextRec;
    if c < n - 1 { WalkRecord(m, at, n - 1, c); }
  }

  /** A kept record whose name is the pointer to the question's has that name in the reply. */
  lemma QuestionPointerKept(a: UpstreamAnswer, key: seq<byte>, recs: seq<Rec>, k: nat, c: nat)
    requires Stored(a, key, recs) && c < k <= |recs| && recs[c].start + 2 <= |a.bytes|
    requires a.bytes[recs[c].start] == 0xc0 && a.bytes[recs[c].start + 1] == 12
    ensures ReadsKept(a, recs[..k], recs[c].start)
    ensures Labels(a.bytes, recs[c].start, recs[c].start) == Labels(a.bytes, HEADER_LEN, HEADER_LEN)
  {
    hide Labels, Reads, Pointers, KeptAt, Chained;
    var at, kept, qe := recs[c].start, recs[..k], a.questionEnd;
    PointerName(a, key, recs, c);
    StoredRecords(a, key, recs);
    hide Stored;
    ChainedPrefix(recs, qe, |a.bytes|, k);
    PointerReads(a.bytes, at, qe - 4);
    forall i | i in Reads(a.bytes, at, at) ensures KeptAt(qe, kept, i) { NameKept(kept, qe, |a.bytes|, c, i); }
  }
}
