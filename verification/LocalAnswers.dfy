/** Answers built from the records of the local network's resolver (handler.rs). */
module LocalAnswers {
  import opened Bytes
  import opened Wire
  import opened Answers
  import opened Rendering

  const MAX_LOCAL_TTL: nat := 60

  /** One record from the local network's resolver, its data in wire form. */
  datatype LocalRecord = LocalRecord(rtype: nat, rclass: nat, ttl: nat, data: seq<byte>)

  predicate ValidRecord(l: LocalRecord) { l.rtype <= U16_MAX && l.rclass <= U16_MAX && l.ttl <= U32_MAX }

  /** A question's key as it comes from a query: one whole uncompressed name in lowercase, its
      type and its class. */
  ghost predicate IsKey(key: seq<byte>) {
    && 5 <= |key| <= MAX_NAME_LEN + 4
    && KeyOf(key) == key
    && QuestionEnd(Blank() + key) == Some(HEADER_LEN + |key|)
  }

  /** The header of a local answer before its records are counted. */
  function Blank(): (h: seq<byte>)
    ensures |h| == HEADER_LEN
  {
    [0, 0, 0x81, 0x80, 0, 1, 0, 0, 0, 0, 0, 0]
  }

  lemma QueryKeyIsKey(query: Msg)
    requires QuestionEnd(query).Some?
    ensures IsKey(QuestionKey(query, QuestionEnd(query).value))
  {
    var qe := QuestionEnd(query).value;
    var q := query[HEADER_LEN..qe];
    KeyOfKey(q);
    var m := Blank() + KeyOf(q);
    hide KeyOf, Blank, Lower;
    forall i | HEADER_LEN <= i < qe - 4 ensures Lower(m[i]) == Lower(query[i]) {
      assert m[i] == KeyOf(q)[i - HEADER_LEN] && query[i] == q[i - HEADER_LEN];
    }
    SkipAnyCase(query, m, HEADER_LEN, HEADER_LEN);
    assert m[4..6] == Blank()[4..6];
    BlankAsksOnce();
  }

  lemma BlankAsksOnce()
    ensures Blank()[4..6] == [0, 1]
  {
  }

  /** A key is its own key, and differs from the question in case only. */
  lemma KeyOfKey(q: seq<byte>)
    requires |q| >= 5
    ensures |KeyOf(q)| == |q| && KeyOf(KeyOf(q)) == KeyOf(q)
    ensures forall i :: 0 <= i < |q| - 4 ==> Lower(KeyOf(q)[i]) == Lower(q[i])
  {
    var key, n := KeyOf(q), |q| - 4;
    assert key[..n] == Lowercase(q[..n]) && key[n..] == q[n..];
    assert Lowercase(Lowercase(q[..n])) == Lowercase(q[..n]);
    assert forall i :: 0 <= i < n ==> key[i] == key[..n][i] && q[i] == q[..n][i];
  }

  function KeyType(key: seq<byte>): nat
    requires |key| >= 5
  {
    Be16(key[|key| - 4], key[|key| - 3])
  }

  function KeyClass(key: seq<byte>): nat
    requires |key| >= 5
  {
    Be16(key[|key| - 2], key[|key| - 1])
  }

  predicate Wanted(l: LocalRecord, key: seq<byte>)
    requires |key| >= 5
  {
    (l.rtype == KeyType(key) || KeyType(key) == TYPE_ANY) && l.rclass == KeyClass(key)
  }

  function CappedTtl(l: LocalRecord): (n: nat)
    ensures n <= 60 && n <= l.ttl && (n == 60 || n == l.ttl)
  {
    if l.ttl < MAX_LOCAL_TTL then l.ttl else MAX_LOCAL_TTL
  }

  function RecordBytes(l: LocalRecord): (s: seq<byte>)
    requires ValidRecord(l) && |l.data| <= U16_MAX
    ensures |s| == 12 + |l.data|
  {
    [0xc0, 0x0c] + ToBe16(l.rtype) + ToBe16(l.rclass) + ToBe32(CappedTtl(l)) + ToBe16(|l.data|) + l.data
  }

  predicate Room(size: nat, l: LocalRecord) { |l.data| <= U16_MAX && size + 12 + |l.data| <= U16_MAX }

  /** The message before its records are counted, and the records in it. */
  function Filled(key: seq<byte>, records: seq<LocalRecord>): (r: (Msg, seq<LocalRecord>))
    requires 5 <= |key| <= MAX_NAME_LEN + 4 && forall l :: l in records ==> ValidRecord(l)
    ensures HEADER_LEN + |key| + 12 * |r.1| <= |r.0| <= U16_MAX
  {
    if records == [] then (Blank() + key, [])
    else
      var n := |records| - 1;
      var (out, kept) := Filled(key, records[..n]);
      if Wanted(records[n], key) && Room(|out|, records[n]) then
        (out + RecordBytes(records[n]), kept + [records[n]])
      else (out, kept)
  }

  function LocalAnswer(key: seq<byte>, records: seq<LocalRecord>): Msg
    requires 5 <= |key| <= MAX_NAME_LEN + 4 && forall l :: l in records ==> ValidRecord(l)
  {
    var (out, kept) := Filled(key, records);
    SetBytes(out, 6, ToBe16(|kept|))
  }

  /** `local_answer`: the loop. Its count never comes near 65535, so it never stops early. */
  method BuildLocalAnswer(key: seq<byte>, records: seq<LocalRecord>) returns (out: Msg)
    requires 5 <= |key| <= MAX_NAME_LEN + 4 && forall l :: l in records ==> ValidRecord(l)
    ensures out == LocalAnswer(key, records)
  {
    hide RecordBytes, Wanted;
    out := Blank() + key;
    var count, i := 0, 0;
    while i < |records|
      invariant 0 <= i <= |records|
      invariant out == Filled(key, records[..i]).0 && count == |Filled(key, records[..i]).1|
    {
      assert records[..i + 1][..i] == records[..i];
      var l := records[i];
      if Wanted(l, key) && Room(|out|, l) {
        out := out + RecordBytes(l);
        count := count + 1;
        assert count < U16_MAX;
      }
      i := i + 1;
    }
    assert records[..i] == records;
    out := SetBytes(out, 6, ToBe16(count));
  }

  // ----- the walk over a local answer

  /** Where the records of a local answer are. */
  function Places(at: nat, kept: seq<LocalRecord>): (r: seq<Rec>)
    ensures |r| == |kept|
  {
    if kept == [] then []
    else
      var n := |kept| - 1;
      var before := Places(at, kept[..n]);
      var start := End(before, at);
      before + [Rec(start, start + 2, kept[n].rtype, start + 12 + |kept[n].data|)]
  }

  lemma LocalRecordRead(m: Msg, at: nat, l: LocalRecord)
    requires ValidRecord(l) && |l.data| <= U16_MAX
    requires at + 12 + |l.data| <= |m| && m[at..at + 12 + |l.data|] == RecordBytes(l)
    ensures NextRec(m, at) == Some(Rec(at, at + 2, l.rtype, at + 12 + |l.data|))
    ensures TtlAt(m, at + 6) == CappedTtl(l)
    ensures m[at + 12..at + 12 + |l.data|] == l.data
  {
    var s := RecordBytes(l);
    assert forall i :: 0 <= i < |s| ==> m[at + i] == s[i];
    assert SkipName(m, at, true) == Some(at + 2);
    assert s[2] == ToBe16(l.rtype)[0] && s[3] == ToBe16(l.rtype)[1];
    assert s[10] == ToBe16(|l.data|)[0] && s[11] == ToBe16(|l.data|)[1];
    assert s[6..10] == ToBe32(CappedTtl(l));
    assert m[at + 6..at + 10] == s[6..10];
    TtlBack(m, at + 6, CappedTtl(l));
    assert m[at + 12..at + 12 + |l.data|] == s[12..];
  }

  lemma {:induction false} RecordWalks(out: Msg, kept: seq<LocalRecord>, at: nat, l: LocalRecord)
    requires ValidRecord(l) && |l.data| <= U16_MAX && at <= |out|
    requires Walk(out, at, |kept|) == Some(Places(at, kept)) && End(Places(at, kept), at) == |out|
    ensures var out', places := out + RecordBytes(l), Places(at, kept + [l]);
            Walk(out', at, |kept| + 1) == Some(places) && End(places, at) == |out'|
  {
    hide RecordBytes, NextRec, Walk;
    var out' := out + RecordBytes(l);
    assert out'[|out|..|out| + 12 + |l.data|] == RecordBytes(l);
    assert (kept + [l])[..|kept|] == kept;
    LocalRecordRead(out', |out|, l);
    AppendWalks(out, out', at, |kept|);
    WalkOneMore(out', at, |kept|);
  }

  /** The records kept are in the message one after another. */
  lemma {:induction false} FilledWalks(key: seq<byte>, records: seq<LocalRecord>)
    requires 5 <= |key| <= MAX_NAME_LEN + 4 && forall l :: l in records ==> ValidRecord(l)
    ensures var (out, kept) := Filled(key, records);
            var qe := HEADER_LEN + |key|;
            && Walk(out, qe, |kept|) == Some(Places(qe, kept)) && End(Places(qe, kept), qe) == |out|
            && Blank() + key <= out
  {
    hide RecordBytes, Wanted, NextRec, Walk;
    var qe := HEADER_LEN + |key|;
    if records == [] {
      WalkNone(Blank() + key, qe);
    } else {
      var n := |records| - 1;
      FilledWalks(key, records[..n]);
      var (out, kept) := Filled(key, records[..n]);
      var l := records[n];
      if Wanted(l, key) && Room(|out|, l) {
        RecordWalks(out, kept, qe, l);
      }
    }
  }

  lemma WalkNone(m: Msg, at: nat)
    ensures Walk(m, at, 0) == Some([])
  {
  }

  lemma WalkOneMore(m: Msg, at: nat, n: nat)
    requires Walk(m, at, n).Some? && NextRec(m, End(Walk(m, at, n).value, at)).Some?
    ensures Walk(m, at, n + 1) == Some(Walk(m, at, n).value + [NextRec(m, End(Walk(m, at, n).value, at)).value])
  {
  }

  /** A longer message walks to the same records first. */
  lemma AppendWalks(m: Msg, m': Msg, at: nat, n: nat)
    requires Walk(m, at, n).Some? && |m| <= |m'| && at <= |m|
    requires forall i :: at <= i < |m| ==> m'[i] == m[i]
    ensures Walk(m', at, n) == Walk(m, at, n)
  {
    hide Walk;
    var recs := Walk(m, at, n).value;
    WalkChained(m, at, n);
    forall r | r in recs ensures ReadAlike(m, m', r) {
      var i :| 0 <= i < n && recs[i] == r;
      ChainedAfter(recs, at, |m|, i);
      assert Linked(recs, at, |m|, i);
    }
    WalkAgrees(m, m', at, n);
  }

  lemma {:induction false} PlacesTypes(at: nat, kept: seq<LocalRecord>)
    ensures forall i :: 0 <= i < |kept| ==> Places(at, kept)[i].rtype == kept[i].rtype
  {
    if kept != [] { PlacesTypes(at, kept[..|kept| - 1]); }
  }

  lemma {:induction false} AcceptsIfNoOpt(recs: seq<Rec>, from: nat)
    requires |recs| <= from && forall i :: 0 <= i < |recs| ==> recs[i].fields + 4 <= U16_MAX
    ensures Accepts(recs, from) <==> forall i :: 0 <= i < |recs| ==> recs[i].rtype != TYPE_OPT
    ensures (forall i :: 0 <= i < |recs| ==> recs[i].rtype != TYPE_OPT) ==> OptOf(recs).None?
  {
    if recs != [] {
      var n := |recs| - 1;
      AcceptsIfNoOpt(recs[..n], from);
      assert recs == recs[..n] + [recs[n]];
    }
  }

  /** The answer built is taken as an answer to the question, unless it holds an OPT record,
      which may not stand in the answer section. */
  lemma LocalAnswerTaken(key: seq<byte>, records: seq<LocalRecord>)
    requires IsKey(key) && forall l :: l in records ==> ValidRecord(l)
    ensures var m, kept, qe := LocalAnswer(key, records), Filled(key, records).1, HEADER_LEN + |key|;
            && |m| >= HEADER_LEN
            && Walk(m, qe, |kept|) == Some(Places(qe, kept))
            && (Refusal(m, key, true).None? <==> forall i :: 0 <= i < |kept| ==> kept[i].rtype != TYPE_OPT)
  {
    hide Walk, Filled, Places, Accepts, OptOf;
    var (out, kept) := Filled(key, records);
    var m, qe := LocalAnswer(key, records), HEADER_LEN + |key|;
    FilledWalks(key, records);
    AppendWalks(out, m, qe, |kept|);
    assert forall i :: 0 <= i < qe ==> out[i] == (Blank() + key)[i];
    assert m[2] == 0x81;
    QuestionEndAgrees(Blank() + key, m);
    assert m[HEADER_LEN..qe] == key;
    var places := Places(qe, kept);
    WalkChained(m, qe, |kept|);
    forall i | 0 <= i < |kept| ensures places[i].fields + 4 <= U16_MAX {
      assert Linked(places, qe, |m|, i);
    }
    PlacesTypes(qe, kept);
    AcceptsIfNoOpt(places, |kept|);
    assert Counts(m) == |kept|;
  }

  /** The record at this place reads back: its type, class and data, and its TTL capped at a
      minute. */
  ghost predicate ReadsBack(m: Msg, p: Rec, l: LocalRecord) {
    && p.fields == p.start + 2 && p.rtype == l.rtype && p.end == p.start + 12 + |l.data| <= |m|
    && U16At(m, p.fields + 2) == Some(l.rclass) && TtlAt(m, p.fields + 4) == CappedTtl(l)
    && m[p.start + 12..p.end] == l.data
  }

  lemma LocalRecordReadsBack(m: Msg, p: Rec, l: LocalRecord)
    requires ValidRecord(l) && |l.data| <= U16_MAX && p == Rec(p.start, p.start + 2, l.rtype, p.start + 12 + |l.data|)
    requires p.end <= |m| && m[p.start..p.end] == RecordBytes(l)
    ensures ReadsBack(m, p, l)
  {
    LocalRecordRead(m, p.start, l);
    var s := RecordBytes(l);
    assert forall i :: 0 <= i < |s| ==> m[p.start + i] == s[i];
    assert s[4] == ToBe16(l.rclass)[0] && s[5] == ToBe16(l.rclass)[1];
  }

  lemma ReadsBackLater(m: Msg, m': Msg, p: Rec, l: LocalRecord)
    requires ReadsBack(m, p, l) && |m| <= |m'| && forall i :: p.start <= i < p.end ==> m'[i] == m[i]
    ensures ReadsBack(m', p, l)
  {
    assert m'[p.start + 12..p.end] == m[p.start + 12..p.end];
    assert m'[p.fields + 4..p.fields + 8] == m[p.fields + 4..p.fields + 8];
  }

  lemma {:induction false} FilledReadsBack(key: seq<byte>, records: seq<LocalRecord>, i: nat)
    requires 5 <= |key| <= MAX_NAME_LEN + 4 && forall l :: l in records ==> ValidRecord(l)
    requires i < |Filled(key, records).1|
    ensures var (out, kept) := Filled(key, records);
            ReadsBack(out, Places(HEADER_LEN + |key|, kept)[i], kept[i])
            && HEADER_LEN + |key| <= Places(HEADER_LEN + |key|, kept)[i].start
  {
    hide RecordBytes, Wanted, Walk, ReadsBack;
    var qe, n := HEADER_LEN + |key|, |records| - 1;
    var (out, kept) := Filled(key, records[..n]);
    FilledWalks(key, records[..n]);
    var l := records[n];
    if Wanted(l, key) && Room(|out|, l) {
      var out' := out + RecordBytes(l);
      assert (kept + [l])[..|kept|] == kept;
      if i < |kept| {
        FilledReadsBack(key, records[..n], i);
        PlaceWithin(out, Places(qe, kept)[i], kept[i]);
        ReadsBackLater(out, out', Places(qe, kept)[i], kept[i]);
      } else {
        assert out'[|out|..] == RecordBytes(l);
        LocalRecordReadsBack(out', Places(qe, kept + [l])[i], l);
      }
    } else {
      FilledReadsBack(key, records[..n], i);
    }
  }

  lemma PlaceWithin(m: Msg, p: Rec, l: LocalRecord)
    requires ReadsBack(m, p, l)
    ensures p.end <= |m|
  {
  }

  /** Every record of the answer reads back as it was given, its TTL at most a minute. */
  lemma LocalAnswerReadsBack(key: seq<byte>, records: seq<LocalRecord>, i: nat)
    requires 5 <= |key| <= MAX_NAME_LEN + 4 && forall l :: l in records ==> ValidRecord(l)
    requires i < |Filled(key, records).1|
    ensures ReadsBack(LocalAnswer(key, records), Places(HEADER_LEN + |key|, Filled(key, records).1)[i],
                      Filled(key, records).1[i])
  {
    var (out, kept) := Filled(key, records);
    var p := Places(HEADER_LEN + |key|, kept)[i];
    hide Filled, Places;
    FilledReadsBack(key, records, i);
    ReadsBackLater(out, LocalAnswer(key, records), p, kept[i]);
  }

  /** The records of the queried type and class, and the room they take. */
  function WantedOf(key: seq<byte>, records: seq<LocalRecord>): seq<LocalRecord>
    requires |key| >= 5
  {
    if records == [] then []
    else
      var n := |records| - 1;
      WantedOf(key, records[..n]) + if Wanted(records[n], key) then [records[n]] else []
  }

  function SizeOf(records: seq<LocalRecord>): nat {
    if records == [] then 0
    else SizeOf(records[..|records| - 1]) + 12 + |records[|records| - 1].data|
  }

  lemma SizeAppend(records: seq<LocalRecord>, l: LocalRecord)
    ensures SizeOf(records + [l]) == SizeOf(records) + 12 + |l.data|
  {
    assert (records + [l])[..|records|] == records;
  }

  /** None of them is left out of an answer that has room for them all, and nothing else is in
      it. */
  lemma {:induction false} AllWantedKept(key: seq<byte>, records: seq<LocalRecord>)
    requires 5 <= |key| <= MAX_NAME_LEN + 4 && forall l :: l in records ==> ValidRecord(l)
    requires HEADER_LEN + |key| + SizeOf(WantedOf(key, records)) <= U16_MAX
    ensures Filled(key, records).1 == WantedOf(key, records)
    ensures |Filled(key, records).0| == HEADER_LEN + |key| + SizeOf(WantedOf(key, records))
  {
    hide Wanted, RecordBytes;
    if records != [] {
      var n := |records| - 1;
      var before := WantedOf(key, records[..n]);
      SizeAppend(before, records[n]);
      assert before + [] == before;
      AllWantedKept(key, records[..n]);
    }
  }

  /** The records a question of this type and class asks for, in order. */
  function Asked(records: seq<LocalRecord>, qtype: nat, qclass: nat): seq<LocalRecord> {
    if records == [] then []
    else
      var n := |records| - 1;
      var l := records[n];
      Asked(records[..n], qtype, qclass) + if (l.rtype == qtype || qtype == 255) && l.rclass == qclass then [l] else []
  }

  /** The type and the class are the last four bytes of the key. */
  lemma {:induction false} WantedIsAsked(key: seq<byte>, records: seq<LocalRecord>)
    requires |key| >= 5
    ensures var n := |key|;
            WantedOf(key, records) == Asked(records, Be16(key[n - 4], key[n - 3]), Be16(key[n - 2], key[n - 1]))
  {
    hide Be16;
    if records != [] { WantedIsAsked(key, records[..|records| - 1]); }
  }

  lemma {:induction false} WantedOfElements(key: seq<byte>, records: seq<LocalRecord>)
    requires |key| >= 5
    ensures forall l :: l in WantedOf(key, records) <==> l in records && Wanted(l, key)
  {
    hide Wanted;
    if records != [] {
      var n := |records| - 1;
      WantedOfElements(key, records[..n]);
      assert records == records[..n] + [records[n]];
    }
  }

  lemma {:induction false} KeptIsWanted(key: seq<byte>, records: seq<LocalRecord>)
    requires 5 <= |key| <= MAX_NAME_LEN + 4 && forall l :: l in records ==> ValidRecord(l)
    ensures forall l :: l in Filled(key, records).1 ==> l in records && Wanted(l, key)
  {
    hide Wanted, RecordBytes;
    if records != [] {
      var n := |records| - 1;
      KeptIsWanted(key, records[..n]);
      assert records == records[..n] + [records[n]];
    }
  }

  /** An OPT record among the records asked for. */
  predicate AsksForOpt(key: seq<byte>, records: seq<LocalRecord>)
    requires |key| >= 5
  {
    exists l :: l in records && l.rtype == TYPE_OPT && Wanted(l, key)
  }

  /** An answer to records without a wanted OPT is accepted; and if it has room for all the wanted
      records, it is accepted if and only if none of them is an OPT. */
  lemma LocalAnswerAccepted(key: seq<byte>, records: seq<LocalRecord>)
    requires IsKey(key) && forall l :: l in records ==> ValidRecord(l)
    ensures |LocalAnswer(key, records)| >= HEADER_LEN
    ensures !AsksForOpt(key, records) ==> Refusal(LocalAnswer(key, records), key, true).None?
    ensures HEADER_LEN + |key| + SizeOf(WantedOf(key, records)) <= U16_MAX ==>
              (Refusal(LocalAnswer(key, records), key, true).None? <==> !AsksForOpt(key, records))
  {
    hide Refusal, LocalAnswer, Filled, WantedOf, AsksForOpt, SizeOf, Walk, Places;
    LocalAnswerTaken(key, records);
    var kept := Filled(key, records).1;
    if !AsksForOpt(key, records) { NoOptKept(key, records); }
    if HEADER_LEN + |key| + SizeOf(WantedOf(key, records)) <= U16_MAX && AsksForOpt(key, records) {
      OptKept(key, records);
    }
  }

  predicate HasOpt(kept: seq<LocalRecord>) { exists i :: 0 <= i < |kept| && kept[i].rtype == TYPE_OPT }

  lemma NoOptKept(key: seq<byte>, records: seq<LocalRecord>)
    requires 5 <= |key| <= MAX_NAME_LEN + 4 && (forall l :: l in records ==> ValidRecord(l))
    requires !AsksForOpt(key, records)
    ensures !HasOpt(Filled(key, records).1)
  {
    hide Wanted, Filled;
    KeptIsWanted(key, records);
    var kept := Filled(key, records).1;
    forall i | 0 <= i < |kept| ensures kept[i].rtype != TYPE_OPT { assert kept[i] in kept; }
  }

  lemma OptKept(key: seq<byte>, records: seq<LocalRecord>)
    requires 5 <= |key| <= MAX_NAME_LEN + 4 && (forall l :: l in records ==> ValidRecord(l)) && AsksForOpt(key, records)
    requires HEADER_LEN + |key| + SizeOf(WantedOf(key, records)) <= U16_MAX
    ensures HasOpt(Filled(key, records).1)
  {
    hide Wanted, Filled, WantedOf, SizeOf;
    AllWantedKept(key, records);
    WantedOfElements(key, records);
    var l :| l in records && l.rtype == TYPE_OPT && Wanted(l, key);
    assert l in WantedOf(key, records);
  }

  lemma OneWanted(key: seq<byte>, l: LocalRecord)
    requires |key| >= 5 && Wanted(l, key)
    ensures WantedOf(key, [l]) == [l] && SizeOf([l]) == 12 + |l.data|
  {
    hide Wanted;
    assert [l][..0] == [] && [] + [l] == [l];
    SizeAppend([], l);
  }

  /** An answer with a wanted OPT record alone is not accepted. */
  lemma OptRefused(key: seq<byte>, l: LocalRecord)
    requires IsKey(key) && ValidRecord(l) && l.rtype == TYPE_OPT && Wanted(l, key)
    requires HEADER_LEN + |key| + 12 + |l.data| <= U16_MAX
    ensures |LocalAnswer(key, [l])| >= HEADER_LEN && Refusal(LocalAnswer(key, [l]), key, true).Some?
  {
    OneWanted(key, l);
    assert l in [l];
    hide Wanted, Refusal, LocalAnswer, WantedOf, SizeOf;
    LocalAnswerAccepted(key, [l]);
  }

  // ----- a local name

  /** A single label, which is always a name of the local network (local.rs:64-71), in lower case. */
  predicate LocalLabel(name: seq<byte>) { 1 <= |name| <= 63 && DOT !in name && Lowercase(name) == name }

  /** The key of a query of type ANY for that name, in class IN. */
  function LabelAny(name: seq<byte>): seq<byte>
    requires LocalLabel(name)
  {
    [|name|] + name + [0, 0, 255, 0, 1]
  }

  const OPT_RECORD := LocalRecord(TYPE_OPT, 1, 0, [])

  lemma LabelSkipped(m: Msg, at: nat, n: nat)
    requires at + n + 2 <= |m| && m[at] as int == n && 1 <= n <= 63 && m[at + n + 1] == 0
    ensures SkipName(m, at, false) == Some(at + n + 2)
  {
    assert SkipFrom(m, at, at + 1 + n, false) == Some(at + n + 2);
  }

  lemma LabelAnyIsKey(name: seq<byte>)
    requires LocalLabel(name)
    ensures IsKey(LabelAny(name))
  {
    var key, n := LabelAny(name), |name|;
    var m := Blank() + key;
    assert m[HEADER_LEN] as int == n && m[HEADER_LEN + n + 1] == 0;
    LabelSkipped(m, HEADER_LEN, n);
    assert m[4] == 0 && m[5] == 1;
    assert key[..n + 2] == [n] + name + [0] && key[n + 2..] == [0, 255, 0, 1];
    assert Lowercase([n] + name + [0]) == [n] + name + [0];
  }

  /** So for every such name, the answer of an OPT record to a query of type ANY is not accepted. */
  lemma LabelAnyRefused(name: seq<byte>)
    requires LocalLabel(name)
    ensures var key := LabelAny(name);
            && IsKey(key) && ValidRecord(OPT_RECORD) && |LocalAnswer(key, [OPT_RECORD])| >= HEADER_LEN
            && Refusal(LocalAnswer(key, [OPT_RECORD]), key, true).Some?
  {
    var key := LabelAny(name);
    LabelAnyIsKey(name);
    assert key[|name| + 2..] == [0, 255, 0, 1];
    assert Wanted(OPT_RECORD, key);
    hide IsKey, Wanted, Refusal, LocalAnswer, LabelAny;
    OptRefused(key, OPT_RECORD);
  }
}
