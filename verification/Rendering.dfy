/** Taking an upstream answer and rendering it for a requester (answer.rs). */
module Rendering {
  import opened Bytes
  import opened Wire
  import opened Answers

  // ----- taking an answer

  /** Why an answer is refused, in the order the checks are made. `decodes` says whether the
      DNS library could read it. */
  function Refusal(wire: Msg, key: seq<byte>, decodes: bool): Option<AnswerError>
    requires decodes ==> |wire| >= HEADER_LEN
  {
    if !decodes then Some(DoesNotDecode)
    else if wire[2] < 0x80 || wire[2] / 8 % 16 != 0 then Some(NotAResponse)
    else
      match QuestionEnd(wire)
      case None => Some(NoSingleQuestion)
      case Some(qe) =>
        if QuestionKey(wire, qe) != key then Some(AnotherQuestion)
        else
          var walk := Walk(wire, qe, Counts(wire));
          if walk.None? || !Accepts(walk.value, U16At(wire, 6).value + U16At(wire, 8).value) then Some(MalformedRecords)
          else
            match OptOf(walk.value)
            case None => None
            case Some(opt) =>
              if opt.fields + 10 > |wire| || wire[opt.fields + 4] != 0 then Some(ExtendedRcode)
              else if opt.end != End(walk.value, qe) then Some(OptNotLast)
              else None
  }

  lemma QuestionEndAgrees(m: Msg, m': Msg)
    requires QuestionEnd(m).Some?
    requires var qe := QuestionEnd(m).value;
             qe <= |m'| && m'[4] == m[4] && m'[5] == m[5] && forall i :: HEADER_LEN <= i < qe ==> m'[i] == m[i]
    ensures QuestionEnd(m') == QuestionEnd(m)
  {
    SkipAgrees(m, m', HEADER_LEN, HEADER_LEN, false);
  }

  /** A message cut after some of its records still walks to those. */
  lemma CutWalks(m: Msg, m': Msg, at: nat, n: nat, k: nat)
    requires Walk(m, at, n).Some? && k <= n && HEADER_LEN <= at
    requires |m'| <= |m| && forall i :: at <= i < |m'| ==> m'[i] == m[i]
    requires End(Walk(m, at, n).value[..k], at) <= |m'|
    ensures Walk(m', at, k) == Some(Walk(m, at, n).value[..k])
  {
    hide Walk;
    var recs := Walk(m, at, n).value;
    WalkPrefix(m, at, n, k);
    WalkChained(m, at, k);
    forall r | r in recs[..k] ensures ReadAlike(m, m', r) {
      var i :| 0 <= i < k && recs[..k][i] == r;
      ChainedAfter(recs[..k], at, |m|, i);
      assert Linked(recs[..k], at, |m|, i);
    }
    WalkAgrees(m, m', at, k);
  }

  /** The records of an answer that is not refused. */
  ghost function WalkOf(wire: Msg): Option<seq<Rec>>
    requires |wire| >= HEADER_LEN && QuestionEnd(wire).Some?
  {
    Walk(wire, QuestionEnd(wire).value, Counts(wire))
  }

  /** Cut after `k` records, an answer is stored with those. */
  lemma StoredCut(wire: Msg, bytes: Msg, k: nat)
    requires |wire| >= HEADER_LEN && wire[2] >= 0x80 && QuestionEnd(wire).Some? && WalkOf(wire).Some?
    requires k <= |WalkOf(wire).value| && PlainRecs(WalkOf(wire).value[..k])
    requires |bytes| == End(WalkOf(wire).value[..k], QuestionEnd(wire).value) && HEADER_LEN <= |bytes| <= |wire|
    requires QuestionEnd(wire).value <= |bytes|
    requires forall i :: 0 <= i < |bytes| && i != 10 && i != 11 ==> bytes[i] == wire[i]
    requires Counts(bytes) == k
    ensures var qe, recs := QuestionEnd(wire).value, WalkOf(wire).value[..k];
            Stored(UpstreamAnswer(bytes, TtlOffsets(recs), qe), QuestionKey(wire, qe), recs)
  {
    hide Walk, QuestionKey, TtlOffsets, QuestionEnd, PlainRecs, Counts;
    var qe := QuestionEnd(wire).value;
    QuestionEndAgrees(wire, bytes);
    CutWalks(wire, bytes, qe, Counts(wire), k);
    assert bytes[HEADER_LEN..qe] == wire[HEADER_LEN..qe];
    SameKey(wire, bytes, qe);
  }

  /** Without OPT the answer is stored as it came, up to its last record. */
  lemma StoredPlain(wire: Msg, key: seq<byte>)
    requires |wire| >= HEADER_LEN && Refusal(wire, key, true).None? && OptOf(WalkOf(wire).value).None?
    ensures var qe := QuestionEnd(wire).value;
            var recs := WalkOf(wire).value;
            && qe <= End(recs, qe) <= |wire|
            && Stored(UpstreamAnswer(wire[..End(recs, qe)], TtlOffsets(recs), qe), key, recs)
  {
    hide Walk, QuestionKey, TtlOffsets, Accepts, OptOf, QuestionEnd, Stored, Counts;
    var qe, n, recs := QuestionEnd(wire).value, Counts(wire), WalkOf(wire).value;
    assert recs[..n] == recs;
    WalkEnds(wire, qe, n, n);
    AcceptsPlain(recs, U16At(wire, 6).value + U16At(wire, 8).value);
    var bytes := wire[..End(recs, qe)];
    CountsSame(wire, bytes);
    StoredCut(wire, bytes, n);
  }

  lemma CountsSame(wire: Msg, bytes: Msg)
    requires |wire| >= HEADER_LEN && |bytes| >= HEADER_LEN && forall i :: 4 <= i < 12 ==> bytes[i] == wire[i]
    ensures Counts(bytes) == Counts(wire)
  {
  }

  lemma SameKey(m: Msg, m': Msg, qe: nat)
    requires HEADER_LEN + 4 <= qe <= |m| && qe <= |m'| && m'[HEADER_LEN..qe] == m[HEADER_LEN..qe]
    ensures QuestionKey(m', qe) == QuestionKey(m, qe)
  {
  }

  /** With OPT as its last record, it is stored without it and counted without it. */
  lemma StoredWithoutOpt(wire: Msg, key: seq<byte>)
    requires |wire| >= HEADER_LEN && Refusal(wire, key, true).None? && OptOf(WalkOf(wire).value).Some?
    ensures var qe := QuestionEnd(wire).value;
            var recs := WalkOf(wire).value;
            var ar := U16At(wire, 10).value;
            && |recs| > 0 && ar > 0 && recs[|recs| - 1] == OptOf(recs).value
            && qe <= OptOf(recs).value.start <= |wire|
            && var bytes := SetBytes(wire[..OptOf(recs).value.start], 10, ToBe16(ar - 1));
               Stored(UpstreamAnswer(bytes, TtlOffsets(recs), qe), key, recs[..|recs| - 1])
  {
    hide Walk, QuestionKey, TtlOffsets, Accepts, OptOf, QuestionEnd, Stored;
    var qe, n, recs := QuestionEnd(wire).value, Counts(wire), WalkOf(wire).value;
    OptIsLast(wire, qe, n);
    WalkChained(wire, qe, n);
    ChainedAfter(recs, qe, |wire|, n - 1);
    assert Linked(recs, qe, |wire|, n - 1);
    var from := U16At(wire, 6).value + U16At(wire, 8).value;
    LastOpt(recs, from);
    AcceptsPlain(recs[..n - 1], from);
    var start := recs[n - 1].start;
    assert End(recs[..n - 1], qe) == start;
    var bytes := SetBytes(wire[..start], 10, ToBe16(U16At(wire, 10).value - 1));
    CountsLess(wire, bytes);
    StoredCut(wire, bytes, n - 1);
  }

  lemma LastOpt(recs: seq<Rec>, from: nat)
    requires recs != [] && Accepts(recs, from) && recs[|recs| - 1].rtype == TYPE_OPT
    ensures |recs| > from && Accepts(recs[..|recs| - 1], from) && OptOf(recs[..|recs| - 1]).None?
    ensures TtlOffsets(recs) == TtlOffsets(recs[..|recs| - 1])
  {
    assert TtlOffsets(recs[..|recs| - 1]) + [] == TtlOffsets(recs[..|recs| - 1]);
  }

  lemma CountsLess(wire: Msg, bytes: Msg)
    requires |wire| >= HEADER_LEN && |bytes| >= HEADER_LEN && U16At(wire, 10).value > 0
    requires forall i :: 4 <= i < 10 ==> bytes[i] == wire[i]
    requires bytes[10] == ToBe16(U16At(wire, 10).value - 1)[0] && bytes[11] == ToBe16(U16At(wire, 10).value - 1)[1]
    ensures Counts(bytes) == Counts(wire) - 1
  {
  }

  /** The bytes stored are those of the message as far as they go, but for the number of
      additional records. */
  ghost predicate KeptFrom(a: UpstreamAnswer, wire: Msg) {
    |a.bytes| <= |wire| && forall i :: 0 <= i < |a.bytes| && i != 10 && i != 11 ==> a.bytes[i] == wire[i]
  }

  /** `UpstreamAnswer::parse`. */
  method Parse(wire: Msg, key: seq<byte>, decodes: bool) returns (r: Result)
    requires decodes ==> |wire| >= HEADER_LEN
    ensures match Refusal(wire, key, decodes)
            case Some(e) => r == Err(e)
            case None => r.Ok? && Stored(r.value, key, KeptRecs(wire)) && KeptFrom(r.value, wire)
  {
    hide Walk, Accepts, Stored, QuestionKey, TtlOffsets;
    if !decodes {
      return Err(DoesNotDecode);
    }
    if wire[2] < 0x80 || wire[2] / 8 % 16 != 0 {
      return Err(NotAResponse);
    }
    var end := QuestionEnd(wire);
    if end.None? {
      return Err(NoSingleQuestion);
    }
    var qe := end.value;
    if QuestionKey(wire, qe) != key {
      return Err(AnotherQuestion);
    }
    var records := ReadRecords(wire, qe);
    if records.None? {
      return Err(MalformedRecords);
    }
    var found := records.value;
    if found.extendedRcode != 0 {
      return Err(ExtendedRcode);
    }
    if found.opt.None? {
      StoredPlain(wire, key);
      return Ok(UpstreamAnswer(wire[..found.end], found.ttlOffsets, qe));
    }
    var opt := found.opt.value;
    if opt.end != found.end {
      return Err(OptNotLast);
    }
    StoredWithoutOpt(wire, key);
    var bytes := wire[..opt.start];
    bytes := SetBytes(bytes, 10, ToBe16(U16At(wire, 10).value - 1));
    r := Ok(UpstreamAnswer(bytes, found.ttlOffsets, qe));
  }

  // ----- rendering

  predicate InTtl(rec: Rec, i: int) { rec.fields + 4 <= i < rec.fields + 8 }

  /** The record is the same but for its TTL, which is lowered by the age. */
  ghost predicate RecordAged(out: Msg, bytes: Msg, rec: Rec, elapsed: nat) {
    && rec.start < rec.fields && rec.fields + 10 <= rec.end && rec.end <= |out| && rec.end <= |bytes|
    && TtlAt(out, rec.fields + 4) == Aged(TtlAt(bytes, rec.fields + 4), elapsed)
    && forall i :: rec.start <= i < rec.end && !InTtl(rec, i) ==> out[i] == bytes[i]
  }

  /** The whole reply before it is cut: the stored answer with the requester's id, RD bit and
      question, aged records and our OPT. */
  ghost predicate Whole(out: Msg, a: UpstreamAnswer, recs: seq<Rec>, r: Requester, elapsed: nat)
    requires |a.bytes| >= HEADER_LEN && a.questionEnd == HEADER_LEN + |r.question| <= |a.bytes|
  {
    && |out| == |a.bytes| + |Opt(r)|
    && U16At(out, 0) == Some(r.id)
    && out[2] == WithRd(a.bytes[2], r.recursionDesired) && out[3] == a.bytes[3]
    && U16At(out, 4) == U16At(a.bytes, 4) && U16At(out, 6) == U16At(a.bytes, 6) && U16At(out, 8) == U16At(a.bytes, 8)
    && U16At(out, 10) == Some(U16At(a.bytes, 10).value + if r.edns.Some? then 1 else 0)
    && out[HEADER_LEN..a.questionEnd] == r.question
    && (forall i :: 0 <= i < |recs| ==> RecordAged(out, a.bytes, recs[i], elapsed))
    && out[|a.bytes|..] == Opt(r)
  }

  /** An answer with every TTL offset in 16 bits has too few records for a count to overflow. */
  lemma FewRecords(a: UpstreamAnswer, key: seq<byte>, recs: seq<Rec>)
    requires Stored(a, key, recs)
    ensures |recs| < U16_MAX
  {
    hide Walk, QuestionEnd, TtlOffsets;
    var n := |recs|;
    if n > 0 {
      WalkChained(a.bytes, a.questionEnd, n);
      WalkPrefix(a.bytes, a.questionEnd, n, n - 1);
      WalkChained(a.bytes, a.questionEnd, n - 1);
      assert Linked(recs, a.questionEnd, |a.bytes|, n - 1);
      assert End(recs[..n - 1], a.questionEnd) == recs[n - 1].start;
    }
  }

  /** The records of a stored answer follow the question and one another. */
  lemma StoredRecords(a: UpstreamAnswer, key: seq<byte>, recs: seq<Rec>)
    requires Stored(a, key, recs)
    ensures Chained(recs, a.questionEnd, |a.bytes|)
    ensures |a.ttlOffsets| == |recs| && forall i :: 0 <= i < |recs| ==> a.ttlOffsets[i] == recs[i].fields + 4
    ensures forall i :: 0 <= i < |recs| ==> a.questionEnd <= recs[i].start && recs[i].fields + 8 <= |a.bytes|
  {
    hide QuestionEnd, TtlOffsets;
    WalkChained(a.bytes, a.questionEnd, |recs|);
    PlainOffsets(recs);
    forall i | 0 <= i < |recs| ensures a.questionEnd <= recs[i].start && recs[i].fields + 8 <= |a.bytes| {
      ChainedAfter(recs, a.questionEnd, |a.bytes|, i);
      assert Linked(recs, a.questionEnd, |a.bytes|, i);
    }
  }

  /** The first `n` records are aged, and everything outside their TTLs is as in `base`. */
  ghost predicate AgedTo(out: Msg, base: Msg, bytes: Msg, recs: seq<Rec>, n: nat, elapsed: nat)
    requires n <= |recs|
  {
    && |out| == |base|
    && (forall i :: 0 <= i < n ==>
          && recs[i].fields + 8 <= |out| && recs[i].fields + 8 <= |bytes|
          && TtlAt(out, recs[i].fields + 4) == Aged(TtlAt(bytes, recs[i].fields + 4), elapsed))
    && (forall k :: 0 <= k < |out| && OutsideTtls(recs, n, k) ==> out[k] == base[k])
  }

  ghost predicate OutsideTtls(recs: seq<Rec>, n: nat, k: int)
    requires n <= |recs|
  {
    forall i :: 0 <= i < n ==> !InTtl(recs[i], k)
  }

  lemma OutsideFewer(recs: seq<Rec>, n: nat, k: int)
    requires n < |recs| && OutsideTtls(recs, n + 1, k)
    ensures OutsideTtls(recs, n, k) && !InTtl(recs[n], k)
  {
  }

  lemma AgeOneMore(out: Msg, base: Msg, bytes: Msg, recs: seq<Rec>, n: nat, elapsed: nat, at: nat)
    requires n < |recs| && AgedTo(out, base, bytes, recs, n, elapsed)
    requires Chained(recs, at, |bytes|) && |bytes| == |out|
    ensures recs[n].fields + 8 <= |out| && recs[n].fields + 8 <= |bytes|
    ensures var ttl := recs[n].fields + 4;
            AgedTo(SetBytes(out, ttl, ToBe32(Aged(TtlAt(bytes, ttl), elapsed))), base, bytes, recs, n + 1, elapsed)
  {
    hide TtlAt, Aged, ToBe32;
    assert Linked(recs, at, |bytes|, n);
    var ttl := recs[n].fields + 4;
    var value := AgedTtl(bytes, ttl, elapsed);
    var out' := SetBytes(out, ttl, ToBe32(value));
    assert out'[ttl..ttl + 4] == ToBe32(value);
    TtlBack(out', ttl, value);
    forall i | 0 <= i < n ensures TtlAt(out', recs[i].fields + 4) == TtlAt(out, recs[i].fields + 4) {
      ChainedApart(recs, at, |bytes|, i, n);
      assert Linked(recs, at, |bytes|, i);
      SameTtl(out, out', recs[i].fields + 4);
    }
    forall k | 0 <= k < |out'| && OutsideTtls(recs, n + 1, k) ensures out'[k] == base[k] {
      OutsideFewer(recs, n, k);
    }
  }

  function AgedTtl(bytes: Msg, ttl: nat, elapsed: nat): (v: nat)
    requires ttl + 4 <= |bytes|
    ensures v == Aged(TtlAt(bytes, ttl), elapsed) && v <= U32_MAX
  {
    Aged(TtlAt(bytes, ttl), elapsed)
  }

  lemma SameTtl(m: Msg, m': Msg, at: nat)
    requires at + 4 <= |m| && at + 4 <= |m'| && forall i :: at <= i < at + 4 ==> m'[i] == m[i]
    ensures TtlAt(m', at) == TtlAt(m, at)
  {
  }

  /** The header and question of the requester put into the answer. */
  function Addressed(a: UpstreamAnswer, r: Requester): (m: Msg)
    requires ValidRequester(r) && a.questionEnd == HEADER_LEN + |r.question| <= |a.bytes|
    ensures |m| == |a.bytes|
  {
    var withId := SetBytes(a.bytes, 0, ToBe16(r.id));
    var withRd := withId[2 := WithRd(withId[2], r.recursionDesired)];
    SetBytes(withRd, HEADER_LEN, r.question)
  }

  lemma AddressedFields(a: UpstreamAnswer, r: Requester)
    requires ValidRequester(r) && a.questionEnd == HEADER_LEN + |r.question| <= |a.bytes|
    ensures var m := Addressed(a, r);
            && m[0] == ToBe16(r.id)[0] && m[1] == ToBe16(r.id)[1]
            && m[2] == WithRd(a.bytes[2], r.recursionDesired)
            && (forall i :: 3 <= i < HEADER_LEN ==> m[i] == a.bytes[i])
            && m[HEADER_LEN..a.questionEnd] == r.question
            && (forall i :: a.questionEnd <= i < |a.bytes| ==> m[i] == a.bytes[i])
  {
    hide ToBe16;
    var m := Addressed(a, r);
    assert forall i :: 0 <= i < |r.question| ==> m[HEADER_LEN + i] == r.question[i];
  }

  /** The aged answer, addressed to the requester, as a whole reply. */
  lemma AgedIsWhole(out: Msg, a: UpstreamAnswer, key: seq<byte>, recs: seq<Rec>, r: Requester, elapsed: nat)
    requires ValidRequester(r) && Stored(a, key, recs) && a.questionEnd == HEADER_LEN + |r.question| <= |a.bytes|
    requires AgedTo(out, Addressed(a, r), a.bytes, recs, |recs|, elapsed)
    ensures U16At(out, 10) == U16At(a.bytes, 10) && U16At(a.bytes, 10).value < U16_MAX
    ensures r.edns.None? ==> Whole(out, a, recs, r, elapsed)
    ensures r.edns.Some? ==>
              Whole(SetBytes(out + Opt(r), 10, ToBe16(U16At(a.bytes, 10).value + 1)), a, recs, r, elapsed)
  {
    hide Stored, Addressed, TtlAt, Aged;
    StoredRecords(a, key, recs);
    FewRecords(a, key, recs);
    AddressedFields(a, r);
    assert a.questionEnd <= |a.bytes| && U16At(a.bytes, 10).value < U16_MAX by { StoredCounts(a, key, recs); }
    var base := Addressed(a, r);
    forall k | 0 <= k < a.questionEnd ensures out[k] == base[k] {
      FrontOutside(recs, a.questionEnd, |a.bytes|, k);
    }
    assert out[HEADER_LEN..a.questionEnd] == base[HEADER_LEN..a.questionEnd];
    forall i | 0 <= i < |recs| ensures RecordAged(out, a.bytes, recs[i], elapsed) {
      AgedRecord(out, base, a.bytes, recs, i, elapsed, a.questionEnd);
    }
    assert out[|a.bytes|..] == [];
    if r.edns.Some? {
      var m := SetBytes(out + Opt(r), 10, ToBe16(U16At(a.bytes, 10).value + 1));
      OptAppended(out, m, a, recs, r, elapsed);
    }
  }

  lemma StoredCounts(a: UpstreamAnswer, key: seq<byte>, recs: seq<Rec>)
    requires Stored(a, key, recs) && |recs| < U16_MAX
    ensures U16At(a.bytes, 10).Some? && U16At(a.bytes, 10).value < U16_MAX
  {
    hide Walk, QuestionEnd;
  }

  lemma FrontOutside(recs: seq<Rec>, at: nat, size: nat, k: nat)
    requires Chained(recs, at, size) && k < at
    ensures OutsideTtls(recs, |recs|, k)
  {
    forall i | 0 <= i < |recs| ensures !InTtl(recs[i], k) {
      ChainedAfter(recs, at, size, i);
      assert Linked(recs, at, size, i);
    }
  }

  lemma AgedRecord(out: Msg, base: Msg, bytes: Msg, recs: seq<Rec>, i: nat, elapsed: nat, at: nat)
    requires Chained(recs, at, |bytes|) && i < |recs| && |out| == |bytes|
    requires AgedTo(out, base, bytes, recs, |recs|, elapsed)
    requires |base| == |bytes| && forall k :: at <= k < |bytes| ==> base[k] == bytes[k]
    ensures RecordAged(out, bytes, recs[i], elapsed)
  {
    hide TtlAt, Aged;
    assert Linked(recs, at, |bytes|, i);
    ChainedAfter(recs, at, |bytes|, i);
    forall k | recs[i].start <= k < recs[i].end && !InTtl(recs[i], k) ensures out[k] == bytes[k] {
      forall j | 0 <= j < |recs| ensures !InTtl(recs[j], k) {
        assert Linked(recs, at, |bytes|, j);
        if j < i { ChainedApart(recs, at, |bytes|, j, i); }
        if i < j { ChainedApart(recs, at, |bytes|, i, j); }
      }
      assert OutsideTtls(recs, |recs|, k);
    }
  }

  lemma OptAppended(out: Msg, m: Msg, a: UpstreamAnswer, recs: seq<Rec>, r: Requester, elapsed: nat)
    requires ValidRequester(r) && HEADER_LEN <= |a.bytes| == |out|
    requires a.questionEnd == HEADER_LEN + |r.question| <= |a.bytes|
    requires U16At(out, 10) == U16At(a.bytes, 10) && U16At(a.bytes, 10).value < U16_MAX && r.edns.Some?
    requires m == SetBytes(out + Opt(r), 10, ToBe16(U16At(a.bytes, 10).value + 1))
    requires Whole(out, a, recs, r.(edns := None), elapsed)
    requires forall i :: 0 <= i < |recs| ==> HEADER_LEN <= recs[i].start
    ensures Whole(m, a, recs, r, elapsed)
  {
    hide Opt, TtlAt, Aged;
    assert m[|a.bytes|..] == Opt(r);
    assert m[HEADER_LEN..a.questionEnd] == out[HEADER_LEN..a.questionEnd];
    forall i | 0 <= i < |recs| ensures RecordAged(m, a.bytes, recs[i], elapsed) {
      assert RecordAged(out, a.bytes, recs[i], elapsed);
      SameTtl(out, m, recs[i].fields + 4);
    }
  }

  /** `render`: the answer for the requester, `elapsed` seconds after it arrived. */
  method Render(a: UpstreamAnswer, r: Requester, elapsed: nat, ghost key: seq<byte>, ghost recs: seq<Rec>)
    returns (reply: Msg, ghost whole: Msg)
    requires Stored(a, key, recs) && ValidRequester(r) && KeyOf(r.question) == key
    ensures a.questionEnd == HEADER_LEN + |r.question| <= |a.bytes| && Whole(whole, a, recs, r, elapsed)
    ensures reply == Fit(r, whole) && |reply| <= UdpLimit(r)
  {
    hide Walk, TtlAt, Aged, Addressed, AgedTo, Opt, Whole, Fit;
    KeyLength(a, r, key, recs);
    StoredRecords(a, key, recs);
    var out := Addressed(a, r);
    NothingAged(out, a.bytes, recs, elapsed);
    var i := 0;
    while i < |a.ttlOffsets|
      invariant 0 <= i <= |recs| && |out| == |a.bytes|
      invariant AgedTo(out, Addressed(a, r), a.bytes, recs, i, elapsed)
    {
      var at := a.ttlOffsets[i];
      AgeOneMore(out, Addressed(a, r), a.bytes, recs, i, elapsed, a.questionEnd);
      out := SetBytes(out, at, ToBe32(AgedTtl(a.bytes, at, elapsed)));
      i := i + 1;
    }
    AgedIsWhole(out, a, key, recs, r, elapsed);
    if r.edns.Some? {
      out := out + Opt(r);
      out := SetBytes(out, 10, ToBe16(U16At(a.bytes, 10).value + 1));
    }
    whole := out;
    reply := FitReply(r, out);
    FitFits(r, out);
  }

  lemma NothingAged(out: Msg, bytes: Msg, recs: seq<Rec>, elapsed: nat)
    ensures AgedTo(out, out, bytes, recs, 0, elapsed)
  {
  }

  lemma KeyLength(a: UpstreamAnswer, r: Requester, key: seq<byte>, recs: seq<Rec>)
    requires Stored(a, key, recs) && ValidRequester(r) && KeyOf(r.question) == key
    ensures HEADER_LEN + |r.question| == a.questionEnd <= |a.bytes|
  {
    hide Walk, QuestionEnd;
  }

  // ----- what the requester gets

  /** A name reads the same in any letter case: no letter is a label length. */
  lemma {:induction false} SkipAnyCase(m: Msg, m': Msg, start: nat, at: nat)
    requires start <= at && SkipFrom(m, start, at, false).Some?
    requires var end := SkipFrom(m, start, at, false).value;
             end <= |m'| && forall i :: at <= i < end ==> Lower(m'[i]) == Lower(m[i])
    ensures SkipFrom(m', start, at, false) == SkipFrom(m, start, at, false)
    decreases |m| - at
  {
    var len := m[at];
    assert Lower(m'[at]) == Lower(m[at]) && len < 0x40;
    assert m'[at] == len;
    if len > 0 { SkipAnyCase(m, m', start, at + 1 + len); }
  }

  /** A message with the requester's question in place of the stored one has the same single
      question, in the requester's letter case. */
  lemma QuestionKept(a: UpstreamAnswer, key: seq<byte>, recs: seq<Rec>, r: Requester, m: Msg)
    requires Stored(a, key, recs) && ValidRequester(r) && KeyOf(r.question) == key
    requires a.questionEnd <= |m| && U16At(m, 4) == Some(1) && m[HEADER_LEN..a.questionEnd] == r.question
    ensures QuestionEnd(m) == Some(a.questionEnd)
  {
    hide Walk, TtlOffsets;
    var qe := a.questionEnd;
    var q := a.bytes[HEADER_LEN..qe];
    var n := |q| - 4;
    assert SkipName(a.bytes, HEADER_LEN, false) == Some(qe - 4);
    assert Lowercase(q[..n]) == key[..n] == Lowercase(r.question[..n]);
    forall i | HEADER_LEN <= i < qe - 4 ensures Lower(m[i]) == Lower(a.bytes[i]) {
      assert m[i] == r.question[..n][i - HEADER_LEN] && a.bytes[i] == q[..n][i - HEADER_LEN];
      assert Lowercase(q[..n])[i - HEADER_LEN] == Lowercase(r.question[..n])[i - HEADER_LEN];
    }
    SkipAnyCase(a.bytes, m, HEADER_LEN, HEADER_LEN);
  }

  lemma AgedReadsAlike(out: Msg, bytes: Msg, rec: Rec, elapsed: nat)
    requires RecordAged(out, bytes, rec, elapsed)
    ensures ReadAlike(bytes, out, rec)
  {
  }

  lemma WholeWalks(whole: Msg, a: UpstreamAnswer, key: seq<byte>, recs: seq<Rec>, r: Requester, elapsed: nat)
    requires Stored(a, key, recs) && ValidRequester(r) && a.questionEnd == HEADER_LEN + |r.question| <= |a.bytes|
    requires Whole(whole, a, recs, r, elapsed)
    ensures Walk(whole, a.questionEnd, |recs|) == Some(recs)
  {
    hide Walk, RecordAged, QuestionEnd;
    forall rec | rec in recs ensures ReadAlike(a.bytes, whole, rec) {
      var i :| 0 <= i < |recs| && recs[i] == rec;
      AgedReadsAlike(whole, a.bytes, recs[i], elapsed);
    }
    WalkAgrees(a.bytes, whole, a.questionEnd, |recs|);
  }

  lemma OptWalks(m: Msg, at: nat, r: Requester)
    requires at <= |m| && m[at..] == Opt(r) && r.edns.Some?
    ensures NextRec(m, at) == Some(Rec(at, at + 1, TYPE_OPT, at + OPT_LEN)) && |m| == at + OPT_LEN
  {
    var o := Opt(r);
    assert forall i :: 0 <= i < OPT_LEN ==> m[at + i] == o[i];
    assert SkipName(m, at, true) == Some(at + 1);
  }

  /** Records, and after them OPT for a requester with EDNS. */
  function WithOpt(recs: seq<Rec>, at: nat, r: Requester): seq<Rec> {
    recs + if r.edns.Some? then [Rec(at, at + 1, TYPE_OPT, at + OPT_LEN)] else []
  }

  /** The records an untrimmed reply has: the stored ones, and our OPT. */
  function ReplyRecs(a: UpstreamAnswer, recs: seq<Rec>, r: Requester): seq<Rec> { WithOpt(recs, |a.bytes|, r) }

  /** A message whose records are followed by our OPT walks to its very end. */
  lemma OptEnds(m: Msg, at: nat, recs: seq<Rec>, r: Requester)
    requires Walk(m, at, |recs|) == Some(recs) && End(recs, at) <= |m| && m[End(recs, at)..] == Opt(r)
    ensures var all := WithOpt(recs, End(recs, at), r);
            && |all| == |recs| + (if r.edns.Some? then 1 else 0)
            && Walk(m, at, |all|) == Some(all) && End(all, at) == |m|
  {
    hide NextRec, Opt;
    if r.edns.Some? {
      OptWalks(m, End(recs, at), r);
    } else {
      assert recs + [] == recs;
    }
  }

  /** A reply that was not trimmed is a whole message again: its one question is the
      requester's, and the walk over as many records as its header counts finds the stored
      records, aged, then our OPT, and nothing after it. */
  lemma UntrimmedReply(reply: Msg, a: UpstreamAnswer, key: seq<byte>, recs: seq<Rec>, r: Requester, elapsed: nat)
    requires Stored(a, key, recs) && ValidRequester(r) && KeyOf(r.question) == key
    requires a.questionEnd == HEADER_LEN + |r.question| <= |a.bytes| && Whole(reply, a, recs, r, elapsed)
    ensures U16At(reply, 0) == Some(r.id) && Rd(reply[2]) == r.recursionDesired
    ensures QuestionEnd(reply) == Some(a.questionEnd) && reply[HEADER_LEN..a.questionEnd] == r.question
    ensures Counts(reply) == |ReplyRecs(a, recs, r)|
    ensures Walk(reply, a.questionEnd, Counts(reply)) == Some(ReplyRecs(a, recs, r))
    ensures End(ReplyRecs(a, recs, r), a.questionEnd) == |reply|
    ensures forall i :: 0 <= i < |recs| ==> RecordAged(reply, a.bytes, recs[i], elapsed)
  {
    hide RecordAged, QuestionEnd, Opt, NextRec, Stored, KeyOf, ValidRequester, Walk, WithOpt;
    StoredEnd(a, key, recs);
    assert U16At(reply, 4) == Some(1) by { StoredOneQuestion(a, key, recs); }
    QuestionKept(a, key, recs, r, reply);
    WholeWalks(reply, a, key, recs, r, elapsed);
    OptEnds(reply, a.questionEnd, recs, r);
  }

  lemma StoredEnd(a: UpstreamAnswer, key: seq<byte>, recs: seq<Rec>)
    requires Stored(a, key, recs)
    ensures End(recs, a.questionEnd) == |a.bytes| && |a.bytes| >= HEADER_LEN && Counts(a.bytes) == |recs|
  {
    hide Walk, QuestionEnd;
  }

  lemma StoredOneQuestion(a: UpstreamAnswer, key: seq<byte>, recs: seq<Rec>)
    requires Stored(a, key, recs)
    ensures U16At(a.bytes, 4) == Some(1)
  {
    hide Walk;
  }

  /** How many answer records a trimmed reply keeps. */
  function Kept(a: UpstreamAnswer, recs: seq<Rec>, r: Requester): nat
    requires |a.bytes| >= HEADER_LEN && U16At(a.bytes, 6).value <= |recs|
  {
    Fitting(recs[..U16At(a.bytes, 6).value], Budget(r))
  }

  /** A reply of the requester with just these answer records: no authority records, and our OPT at
      its very end as the only additional one. */
  ghost predicate AnswersOnly(reply: Msg, a: UpstreamAnswer, kept: seq<Rec>, r: Requester) {
    && |reply| >= HEADER_LEN && U16At(reply, 0) == Some(r.id) && Rd(reply[2]) == r.recursionDesired
    && |a.bytes| >= HEADER_LEN && reply[3] == a.bytes[3] && U16At(reply, 4) == Some(1)
    && U16At(reply, 6) == Some(|kept|) && U16At(reply, 8) == Some(0)
    && U16At(reply, 10) == Some(if r.edns.Some? then 1 else 0)
    && HEADER_LEN <= a.questionEnd <= |reply| && reply[HEADER_LEN..a.questionEnd] == r.question
    && var all := WithOpt(kept, End(kept, a.questionEnd), r);
       Counts(reply) == |all| && Walk(reply, a.questionEnd, |all|) == Some(all) && End(all, a.questionEnd) == |reply|
  }

  lemma FlagsKept(b: byte)
    ensures Rd(SetTc(b)) == Rd(b) && Tc(SetTc(b)) && Rd(ClearTc(b)) == Rd(b) && !Tc(ClearTc(b))
  {
  }

  /** The reply that keeps answers from the front, all of them if there are none. */
  lemma TrimmedToSome(reply: Msg, whole: Msg, a: UpstreamAnswer, key: seq<byte>, recs: seq<Rec>, r: Requester,
                      elapsed: nat, k: nat)
    requires Stored(a, key, recs) && ValidRequester(r)
    requires a.questionEnd == HEADER_LEN + |r.question| <= |a.bytes| && |a.bytes| >= HEADER_LEN
    requires Whole(whole, a, recs, r, elapsed)
    requires k <= |recs| && k <= U16_MAX && a.questionEnd <= End(recs[..k], a.questionEnd) <= |whole|
    requires |whole| >= HEADER_LEN
    requires reply == Build(r, (ClearTc(whole[2]), whole[3]), whole[a.questionEnd..End(recs[..k], a.questionEnd)], k)
    ensures AnswersOnly(reply, a, recs[..k], r) && !Tc(reply[2])
    ensures Walk(reply, a.questionEnd, k) == Some(recs[..k])
    ensures forall i :: 0 <= i < k ==> RecordAged(reply, a.bytes, recs[i], elapsed)
  {
    hide Walk, RecordAged, Opt, Build, Stored, Whole, SetTc, ClearTc, Rd, Tc;
    WholeHeader(whole, a, recs, r, elapsed);
    FlagsKept(whole[2]);
    var qe := a.questionEnd;
    BuildFields(r, (ClearTc(whole[2]), whole[3]), whole[qe..End(recs[..k], qe)], k);
    KeptRecords(reply, whole, a, key, recs, r, elapsed, k);
    OptEnds(reply, qe, recs[..k], r);
  }

  /** The reply that keeps none and says that it was cut. */
  lemma TrimmedToNone(reply: Msg, whole: Msg, a: UpstreamAnswer, recs: seq<Rec>, r: Requester, elapsed: nat)
    requires ValidRequester(r) && |a.bytes| >= HEADER_LEN && |whole| >= HEADER_LEN
    requires a.questionEnd == HEADER_LEN + |r.question| <= |a.bytes| && Whole(whole, a, recs, r, elapsed)
    requires reply == Build(r, (SetTc(whole[2]), whole[3]), [], 0)
    ensures AnswersOnly(reply, a, [], r) && Tc(reply[2])
  {
    hide Walk, Opt, Build, Whole, SetTc, ClearTc, Rd, Tc;
    WholeHeader(whole, a, recs, r, elapsed);
    FlagsKept(whole[2]);
    BuildFields(r, (SetTc(whole[2]), whole[3]), [], 0);
    NoneWalked(reply, a.questionEnd);
    OptEnds(reply, a.questionEnd, [], r);
  }

  lemma NoneWalked(m: Msg, at: nat)
    ensures Walk(m, at, 0) == Some([])
  {
  }

  /** A reply that had to be trimmed: it keeps as many answer records from the front as fit
      beside our OPT, aged and otherwise unchanged, and clears TC, when the answer section was
      empty or one of them has the queried type; otherwise it sets TC and keeps none. Either way
      it holds nothing else but our OPT. */
  lemma TrimmedReply(reply: Msg, whole: Msg, a: UpstreamAnswer, key: seq<byte>, recs: seq<Rec>, r: Requester,
                     elapsed: nat)
    requires Stored(a, key, recs) && ValidRequester(r) && KeyOf(r.question) == key
    requires a.questionEnd == HEADER_LEN + |r.question| <= |a.bytes| && Whole(whole, a, recs, r, elapsed)
    requires |whole| > UdpLimit(r) && reply == Fit(r, whole)
    ensures |reply| >= HEADER_LEN && U16At(a.bytes, 6).value <= |recs|
    ensures U16At(reply, 0) == Some(r.id) && Rd(reply[2]) == r.recursionDesired && reply[3] == a.bytes[3]
    ensures QuestionEnd(reply) == Some(a.questionEnd) && reply[HEADER_LEN..a.questionEnd] == r.question
    ensures var an, k := U16At(a.bytes, 6).value, Kept(a, recs, r);
            && (Tc(reply[2]) <==>
                  an > 0 && !exists i :: 0 <= i < k && IsOfType(recs[i], QType(r)))
            && AnswersOnly(reply, a, if Tc(reply[2]) then [] else recs[..k], r)
            && (k < an ==> recs[k].end + |Opt(r)| > UdpLimit(r))
            && (!Tc(reply[2]) ==>
                  && Walk(reply, a.questionEnd, k) == Some(recs[..k])
                  && forall i :: 0 <= i < k ==> RecordAged(reply, a.bytes, recs[i], elapsed))
  {
    hide Walk, RecordAged, QuestionEnd, Opt, OfType, Build, Stored, Fitting, Fit, Whole, Tc, Rd, SetTc, ClearTc,
         AnswersOnly;
    WholeHeader(whole, a, recs, r, elapsed);
    var qe := a.questionEnd;
    StoredAnswers(a, key, recs);
    var an, k := U16At(a.bytes, 6).value, Kept(a, recs, r);
    WholeWalks(whole, a, key, recs, r, elapsed);
    WalkPrefix(whole, qe, |recs|, an);
    assert recs[..an][..k] == recs[..k];
    FitShape(r, whole, recs[..an], an);
    OfTypeIs(recs, k, QType(r));
    if an == 0 || OfType(recs[..k], QType(r)) {
      TrimmedToSome(reply, whole, a, key, recs, r, elapsed, k);
      AnswersQuestion(reply, a, key, recs[..k], recs, r);
    } else {
      TrimmedToNone(reply, whole, a, recs, r, elapsed);
      AnswersQuestion(reply, a, key, [], recs, r);
    }
  }

  /** The record is of the type asked for; 255 asks for any. */
  predicate IsOfType(rec: Rec, qtype: nat) { rec.rtype == qtype || qtype == 255 }

  lemma OfTypeIs(recs: seq<Rec>, k: nat, qtype: nat)
    requires k <= |recs|
    ensures OfType(recs[..k], qtype) <==> exists i :: 0 <= i < k && IsOfType(recs[i], qtype)
  {
    var kept := recs[..k];
    if OfType(kept, qtype) {
      var i :| 0 <= i < |kept| && (kept[i].rtype == qtype || qtype == TYPE_ANY);
      assert recs[i] == kept[i] && IsOfType(recs[i], qtype);
    }
    forall i | 0 <= i < k && IsOfType(recs[i], qtype) ensures OfType(kept, qtype) {
      assert kept[i] == recs[i] && (kept[i].rtype == qtype || qtype == TYPE_ANY);
    }
  }

  lemma AnswersQuestion(reply: Msg, a: UpstreamAnswer, key: seq<byte>, kept: seq<Rec>, recs: seq<Rec>, r: Requester)
    requires Stored(a, key, recs) && ValidRequester(r) && KeyOf(r.question) == key && AnswersOnly(reply, a, kept, r)
    ensures QuestionEnd(reply) == Some(a.questionEnd) && |reply| >= HEADER_LEN
    ensures U16At(reply, 0) == Some(r.id) && Rd(reply[2]) == r.recursionDesired && reply[3] == a.bytes[3]
    ensures reply[HEADER_LEN..a.questionEnd] == r.question
  {
    hide Stored, Walk, KeyOf, QuestionEnd;
    QuestionKept(a, key, recs, r, reply);
  }

  /** What cutting a reply to size gives, once its answer records are known. */
  lemma FitShape(r: Requester, whole: Msg, answers: seq<Rec>, an: nat)
    requires ValidRequester(r) && |whole| >= HEADER_LEN + |r.question| && |whole| > UdpLimit(r)
    requires U16At(whole, 6) == Some(an) && Walk(whole, HEADER_LEN + |r.question|, an) == Some(answers)
    ensures var qe, k := HEADER_LEN + |r.question|, Fitting(answers, Budget(r));
            && qe <= End(answers[..k], qe) <= |whole|
            && Fit(r, whole) ==
               if an == 0 || OfType(answers[..k], QType(r)) then
                 Build(r, (ClearTc(whole[2]), whole[3]), whole[qe..End(answers[..k], qe)], k)
               else Build(r, (SetTc(whole[2]), whole[3]), [], 0)
  {
    hide Walk, Opt, OfType, Build;
    WalkEnds(whole, HEADER_LEN + |r.question|, an, Fitting(answers, Budget(r)));
  }

  lemma StoredAnswers(a: UpstreamAnswer, key: seq<byte>, recs: seq<Rec>)
    requires Stored(a, key, recs)
    ensures |a.bytes| >= HEADER_LEN && U16At(a.bytes, 6).value <= |recs|
  {
    hide Walk, QuestionEnd;
  }

  lemma WholeRecords(whole: Msg, a: UpstreamAnswer, recs: seq<Rec>, r: Requester, elapsed: nat)
    requires |a.bytes| >= HEADER_LEN && a.questionEnd == HEADER_LEN + |r.question| <= |a.bytes|
    requires Whole(whole, a, recs, r, elapsed)
    ensures forall i :: 0 <= i < |recs| ==> RecordAged(whole, a.bytes, recs[i], elapsed)
  {
    hide RecordAged;
  }

  lemma WholeHeader(whole: Msg, a: UpstreamAnswer, recs: seq<Rec>, r: Requester, elapsed: nat)
    requires |a.bytes| >= HEADER_LEN && a.questionEnd == HEADER_LEN + |r.question| <= |a.bytes|
    requires Whole(whole, a, recs, r, elapsed)
    ensures |whole| >= |a.bytes| && Rd(whole[2]) == r.recursionDesired && whole[3] == a.bytes[3]
    ensures U16At(whole, 6) == U16At(a.bytes, 6)
  {
    hide RecordAged;
  }

  lemma KeptRecord(reply: Msg, whole: Msg, bytes: Msg, rec: Rec, elapsed: nat)
    requires RecordAged(whole, bytes, rec, elapsed) && rec.end <= |reply|
    requires forall i :: rec.start <= i < rec.end ==> reply[i] == whole[i]
    ensures ReadAlike(whole, reply, rec) && RecordAged(reply, bytes, rec, elapsed)
  {
    hide TtlAt, Aged;
    SameTtl(whole, reply, rec.fields + 4);
  }

  lemma SameBetween(reply: Msg, whole: Msg, from: nat, to: nat)
    requires from <= to <= |reply| && to <= |whole| && reply[from..to] == whole[from..to]
    ensures forall i :: from <= i < to ==> reply[i] == whole[i]
  {
    forall i | from <= i < to ensures reply[i] == whole[i] {
      assert reply[from..to][i - from] == whole[from..to][i - from];
    }
  }

  /** The records kept are at the same offsets, so they read the same. */
  lemma KeptRecords(reply: Msg, whole: Msg, a: UpstreamAnswer, key: seq<byte>, recs: seq<Rec>, r: Requester,
                    elapsed: nat, k: nat)
    requires Stored(a, key, recs) && ValidRequester(r)
    requires a.questionEnd == HEADER_LEN + |r.question| <= |a.bytes| && Whole(whole, a, recs, r, elapsed)
    requires k <= |recs| && a.questionEnd <= End(recs[..k], a.questionEnd) <= |whole|
    requires var qe, end := a.questionEnd, End(recs[..k], a.questionEnd);
             end <= |reply| && reply[qe..end] == whole[qe..end]
    ensures Walk(reply, a.questionEnd, k) == Some(recs[..k])
    ensures forall i :: 0 <= i < k ==> RecordAged(reply, a.bytes, recs[i], elapsed)
  {
    hide Walk, RecordAged, ReadAlike, Opt, Stored, Linked, Whole, Chained, End;
    WholeRecords(whole, a, recs, r, elapsed);
    var qe, end := a.questionEnd, End(recs[..k], a.questionEnd);
    WholeWalks(whole, a, key, recs, r, elapsed);
    SameBetween(reply, whole, qe, end);
    WalkPrefix(whole, qe, |recs|, k);
    WalkChained(whole, qe, k);
    var kept := recs[..k];
    forall i | 0 <= i < k
      ensures ReadAlike(whole, reply, kept[i]) && RecordAged(reply, a.bytes, kept[i], elapsed)
    {
      assert kept[i] == recs[i];
      ChainedAfter(kept, qe, |whole|, i);
      KeptRecord(reply, whole, a.bytes, kept[i], elapsed);
    }
    assert forall i :: 0 <= i < k ==> kept[i] == recs[i];
    WalkAgrees(whole, reply, qe, k);
  }

  // ----- blocked names

  function LocalFlags(r: Requester, rcode: byte): (byte, byte)
    requires rcode < 16
  {
    (0x80 + if r.recursionDesired then 1 else 0, 0x80 + rcode)
  }

  function Zeros(n: nat): (z: seq<byte>)
    ensures |z| == n && forall i :: 0 <= i < n ==> z[i] == 0
  {
    seq(n, _ => 0)
  }

  /** The length of the address given for a blocked name, 0 for none. */
  function BlockLen(r: Requester): nat
    requires ValidRequester(r)
  {
    if QClass(r) != CLASS_IN then 0 else if QType(r) == TYPE_A then 4 else if QType(r) == TYPE_AAAA then 16 else 0
  }

  function BlockRecord(r: Requester): (s: seq<byte>)
    requires ValidRequester(r)
    ensures |s| == 12 + BlockLen(r)
  {
    [0xc0, 0x0c] + ToBe16(QType(r)) + ToBe16(CLASS_IN) + ToBe32(BLOCK_TTL) + ToBe16(BlockLen(r)) + Zeros(BlockLen(r))
  }

  /** `blocked`. */
  function BlockedReply(r: Requester): Msg
    requires ValidRequester(r)
  {
    if BlockLen(r) == 0 then Build(r, LocalFlags(r, NOERROR), [], 0)
    else Build(r, LocalFlags(r, NOERROR), BlockRecord(r), 1)
  }

  lemma BlockRecordFields(m: Msg, at: nat, r: Requester)
    requires ValidRequester(r) && BlockLen(r) > 0
    requires at + 12 + BlockLen(r) <= |m| && m[at..at + 12 + BlockLen(r)] == BlockRecord(r)
    ensures NextRec(m, at) == Some(Rec(at, at + 2, QType(r), at + 12 + BlockLen(r)))
    ensures TtlAt(m, at + 6) == BLOCK_TTL && m[at] == 0xc0 && m[at + 1] == 12 && U16At(m, at + 4) == Some(1)
    ensures forall i :: at + 12 <= i < at + 12 + BlockLen(r) ==> m[i] == 0
  {
    var s, n := BlockRecord(r), BlockLen(r);
    BlockRecordBytes(r);
    hide BlockRecord, QType, QClass, BlockLen;
    forall i | 0 <= i < 12 + n ensures m[at + i] == s[i] { assert m[at..at + 12 + n][i] == s[i]; }
    assert m[at + 0] == 0xc0 && m[at + 1] == 12;
    assert SkipName(m, at, true) == Some(at + 2);
    assert m[at + 6..at + 10] == s[6..10];
    TtlBack(m, at + 6, BLOCK_TTL);
    forall i | at + 12 <= i < at + 12 + n ensures m[i] == 0 {
      assert m[at + (i - at)] == s[i - at];
    }
    assert m[at + 2] == s[2] && m[at + 3] == s[3] && m[at + 4] == s[4] && m[at + 5] == s[5];
    assert m[at + 10] == s[10] && m[at + 11] == s[11];
  }

  lemma BlockRecordBytes(r: Requester)
    requires ValidRequester(r)
    ensures var s, n := BlockRecord(r), BlockLen(r);
            && s[0] == 0xc0 && s[1] == 12 && Be16(s[2], s[3]) == QType(r) && Be16(s[4], s[5]) == 1
            && s[6..10] == ToBe32(BLOCK_TTL) && Be16(s[10], s[11]) == n
            && forall i :: 12 <= i < 12 + n ==> s[i] == 0
  {
    hide QType, QClass, BlockLen, Be16;
    var s := BlockRecord(r);
    var t, c, l := ToBe16(QType(r)), ToBe16(CLASS_IN), ToBe16(BlockLen(r));
    assert s[2] == t[0] && s[3] == t[1] && s[4] == c[0] && s[5] == c[1] && s[10] == l[0] && s[11] == l[1];
  }

  /** The type and class of the question are its last four bytes. */
  lemma QuestionAsks(r: Requester, m: Msg)
    requires ValidRequester(r) && HEADER_LEN + |r.question| <= |m|
    requires m[HEADER_LEN..HEADER_LEN + |r.question|] == r.question
    ensures var qe := HEADER_LEN + |r.question|;
            U16At(m, qe - 4) == Some(QType(r)) && U16At(m, qe - 2) == Some(QClass(r))
  {
    var qe := HEADER_LEN + |r.question|;
    assert forall i :: 0 <= i < |r.question| ==> r.question[i] == m[HEADER_LEN + i];
  }

  /** The bytes of the address that a question of this type and class asks for. */
  function AddressLen(qtype: nat, qclass: nat): nat {
    match (qtype, qclass)
    case (1, 1) => 4
    case (28, 1) => 16
    case _ => 0
  }

  /** A blocked name is answered without error: with one address, all zero and kept for a minute, for a
      question of type A (4 bytes) or AAAA (16 bytes) in class IN, and with none otherwise; the reply
      always fits. */
  lemma BlockedReplyMeaning(r: Requester)
    requires ValidRequester(r)
    ensures var m, qe := BlockedReply(r), HEADER_LEN + |r.question|;
            && |m| >= qe && |m| <= UdpLimit(r) && U16At(m, 0) == Some(r.id) && m[HEADER_LEN..qe] == r.question
            && m[2] >= 0x80 && !Tc(m[2]) && Rd(m[2]) == r.recursionDesired && m[3] == 0x80
            && ZeroAddress(m, qe, AddressLen(U16At(m, qe - 4).value, U16At(m, qe - 2).value))
  {
    hide BlockedReply, Opt, UdpLimit, ZeroAddress, AddressLen, QType, QClass, BlockLen;
    BlockedFields(r);
    QuestionAsks(r, BlockedReply(r));
    BlockLenIs(r);
  }

  lemma BlockLenIs(r: Requester)
    requires ValidRequester(r)
    ensures BlockLen(r) == AddressLen(QType(r), QClass(r))
  {
  }

  /** One record of the question's name, type and class, with this many zero bytes and a TTL of 60 s;
      none for no bytes. */
  ghost predicate ZeroAddress(m: Msg, qe: nat, n: nat)
    requires HEADER_LEN + 4 <= qe <= |m|
  {
    && U16At(m, 6) == Some(if n > 0 then 1 else 0)
    && (n > 0 ==>
          && Walk(m, qe, 1) == Some([Rec(qe, qe + 2, U16At(m, qe - 4).value, qe + 12 + n)])
          && qe + 12 + n <= |m| && m[qe] == 0xc0 && m[qe + 1] == 12 && U16At(m, qe + 4) == Some(1)
          && TtlAt(m, qe + 6) == 60
          && forall i :: qe + 12 <= i < qe + 12 + n ==> m[i] == 0)
  }

  lemma BlockedFields(r: Requester)
    requires ValidRequester(r)
    ensures var m, qe := BlockedReply(r), HEADER_LEN + |r.question|;
            && |m| >= qe && |m| <= UdpLimit(r) && U16At(m, 0) == Some(r.id) && m[HEADER_LEN..qe] == r.question
            && m[2] >= 0x80 && !Tc(m[2]) && Rd(m[2]) == r.recursionDesired && m[3] == 0x80
            && ZeroAddress(m, qe, BlockLen(r))
  {
    hide BlockRecord, Opt, Build, NextRec, Walk, QType, QClass;
    var qe := HEADER_LEN + |r.question|;
    if BlockLen(r) == 0 {
      BuildFields(r, LocalFlags(r, NOERROR), [], 0);
    } else {
      BuildFields(r, LocalFlags(r, NOERROR), BlockRecord(r), 1);
      BlockRecordFields(BlockedReply(r), qe, r);
      WalkOne(BlockedReply(r), qe);
      QuestionAsks(r, BlockedReply(r));
    }
  }

  lemma WalkOne(m: Msg, at: nat)
    requires NextRec(m, at).Some?
    ensures Walk(m, at, 1) == Some([NextRec(m, at).value])
  {
    var rec := NextRec(m, at).value;
    assert Walk(m, at, 0) == Some([]) && [] + [rec] == [rec];
  }

  // ----- what is kept

  /** NOERROR or NXDOMAIN, not truncated, and small enough for some requester. */
  predicate Cacheable(a: UpstreamAnswer)
    requires |a.bytes| >= HEADER_LEN
  {
    (a.bytes[3] % 16 == NOERROR || a.bytes[3] % 16 == NXDOMAIN) && !Tc(a.bytes[2])
    && |a.bytes| + OPT_LEN <= MAX_UDP_PAYLOAD
  }

  /** Exactly the answers without an error or for a name that does not exist, whole, that some
      requester takes with our OPT are kept. */
  lemma CacheableExactly(a: UpstreamAnswer)
    requires |a.bytes| >= HEADER_LEN
    ensures Cacheable(a) <==>
            && (a.bytes[3] % 16 == 0 || a.bytes[3] % 16 == 3) && !Tc(a.bytes[2])
            && exists r :: Takes(r, |a.bytes| + |Opt(r)|)
  {
    if Cacheable(a) {
      var r := Requester(0, false, [], Some(ClientEdns(1232, false)));
      assert Takes(r, |a.bytes| + |Opt(r)|);
    }
  }

  predicate HasAnswers(a: UpstreamAnswer)
    requires |a.bytes| >= HEADER_LEN
  {
    U16At(a.bytes, 6) != Some(0)
  }

  /** `min_ttl`: no record has a smaller TTL, and some record has this one; 0 stands for no records. */
  method MinTtl(a: UpstreamAnswer, ghost key: seq<byte>, ghost recs: seq<Rec>) returns (m: nat)
    requires Stored(a, key, recs)
    ensures recs == [] ==> m == 0
    ensures forall i :: 0 <= i < |recs| ==> recs[i].fields + 8 <= |a.bytes| && m <= TtlAt(a.bytes, recs[i].fields + 4)
    ensures recs != [] ==> exists i :: 0 <= i < |recs| && m == TtlAt(a.bytes, recs[i].fields + 4)
  {
    hide Stored, TtlAt;
    StoredRecords(a, key, recs);
    if |a.ttlOffsets| == 0 {
      return 0;
    }
    m := TtlAt(a.bytes, a.ttlOffsets[0]);
    ghost var best := 0;
    var i := 1;
    while i < |a.ttlOffsets|
      invariant 1 <= i <= |recs| && 0 <= best < i
      invariant m == TtlAt(a.bytes, recs[best].fields + 4)
      invariant forall k :: 0 <= k < i ==> m <= TtlAt(a.bytes, recs[k].fields + 4)
    {
      var ttl := TtlAt(a.bytes, a.ttlOffsets[i]);
      if ttl < m {
        m := ttl;
        best := i;
      }
      i := i + 1;
    }
  }
}
