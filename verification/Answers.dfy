/** Writing replies (answer.rs): local answers built from the requester's question, upstream
    answers checked, stored and adapted to each requester, and both cut to its UDP size. */
module Answers {
  import opened Bytes
  import opened Wire

  const BLOCK_TTL: nat := 60
  const MAX_UDP_PAYLOAD: nat := 1232
  const CLASSIC_UDP_PAYLOAD: nat := 512
  const NOERROR: byte := 0
  const NXDOMAIN: byte := 3
  const TYPE_A: nat := 1
  const TYPE_AAAA: nat := 28
  const TYPE_ANY: nat := 255
  const CLASS_IN: nat := 1
  const OPT_LEN: nat := 11

  // ----- bits of the flag bytes

  predicate Tc(b: byte) { b / 2 % 2 == 1 }
  function SetTc(b: byte): (r: byte)
    ensures Tc(r) && r / 4 == b / 4 && r % 2 == b % 2
  {
    if Tc(b) then b else b + 2
  }
  function ClearTc(b: byte): (r: byte)
    ensures !Tc(r) && r / 4 == b / 4 && r % 2 == b % 2
  {
    if Tc(b) then b - 2 else b
  }
  predicate Rd(b: byte) { b % 2 == 1 }
  function WithRd(b: byte, rd: bool): (r: byte)
    ensures Rd(r) == rd && r / 2 == b / 2
  {
    b - b % 2 + if rd then 1 else 0
  }

  function ToBe32(n: nat): (s: seq<byte>)
    requires n <= U32_MAX
    ensures |s| == 4
  {
    ToBe16(n / 0x1_0000) + ToBe16(n % 0x1_0000)
  }

  function TtlAt(msg: Msg, at: nat): (n: nat)
    requires at + 4 <= |msg|
    ensures n <= U32_MAX
  {
    0x1_0000 * Be16(msg[at], msg[at + 1]) + Be16(msg[at + 2], msg[at + 3])
  }

  lemma TtlBack(msg: Msg, at: nat, n: nat)
    requires n <= U32_MAX && at + 4 <= |msg| && msg[at..at + 4] == ToBe32(n)
    ensures TtlAt(msg, at) == n
  {
    var s := ToBe32(n);
    assert msg[at] == s[0] && msg[at + 1] == s[1] && msg[at + 2] == s[2] && msg[at + 3] == s[3];
  }

  /** A TTL after some seconds: never below 0. */
  function Aged(ttl: nat, elapsed: nat): (n: nat)
    ensures n <= ttl <= n + elapsed && (n > 0 ==> n + elapsed == ttl)
  {
    if ttl >= elapsed then ttl - elapsed else 0
  }

  // ----- the requester

  datatype ClientEdns = ClientEdns(udpPayload: nat, dnssecOk: bool)

  /** What every reply to one query must match. */
  datatype Requester = Requester(id: nat, recursionDesired: bool, question: seq<byte>, edns: Option<ClientEdns>)

  predicate ValidRequester(r: Requester) {
    && r.id <= U16_MAX
    && 5 <= |r.question| <= MAX_NAME_LEN + 4
    && (r.edns.Some? ==> r.edns.value.udpPayload <= U16_MAX)
  }

  function FromQuery(query: Msg, edns: Option<ClientEdns>, questionEnd: nat): (r: Requester)
    requires QuestionEnd(query) == Some(questionEnd)
    requires edns.Some? ==> edns.value.udpPayload <= U16_MAX
    ensures ValidRequester(r)
    ensures KeyOf(r.question) == QuestionKey(query, questionEnd) && r.question == query[HEADER_LEN..questionEnd]
    ensures U16At(query, 0) == Some(r.id) && (r.recursionDesired <==> query[2] % 2 == 1) && r.edns == edns
  {
    Requester(Be16(query[0], query[1]), Rd(query[2]), query[HEADER_LEN..questionEnd], edns)
  }

  function QType(r: Requester): nat
    requires ValidRequester(r)
  {
    var n := |r.question|;
    Be16(r.question[n - 4], r.question[n - 3])
  }

  function QClass(r: Requester): nat
    requires ValidRequester(r)
  {
    var n := |r.question|;
    Be16(r.question[n - 2], r.question[n - 1])
  }

  /** The largest reply the requester accepts. */
  function UdpLimit(r: Requester): (n: nat)
    ensures CLASSIC_UDP_PAYLOAD <= n <= MAX_UDP_PAYLOAD
    ensures r.edns.None? ==> n == CLASSIC_UDP_PAYLOAD
    ensures r.edns.Some? && CLASSIC_UDP_PAYLOAD <= r.edns.value.udpPayload ==> n <= r.edns.value.udpPayload
  {
    match r.edns
    case None => CLASSIC_UDP_PAYLOAD
    case Some(e) =>
      if e.udpPayload < CLASSIC_UDP_PAYLOAD then CLASSIC_UDP_PAYLOAD
      else if e.udpPayload > MAX_UDP_PAYLOAD then MAX_UDP_PAYLOAD
      else e.udpPayload
  }

  /** What a requester takes: 512 bytes of anyone, and up to 1232 of one that offers as much. */
  predicate Takes(r: Requester, n: nat) {
    n <= 512 || (r.edns.Some? && n <= r.edns.value.udpPayload && n <= 1232)
  }

  /** The limit is exact: sizes up to it are taken, and no others. */
  lemma UdpLimitIs(r: Requester, n: nat)
    ensures n <= UdpLimit(r) <==> Takes(r, n)
  {
  }

  /** The OPT record of a reply: none for a requester without one, else ours with the same DO bit. */
  function Opt(r: Requester): (o: seq<byte>)
    ensures |o| == if r.edns.Some? then OPT_LEN else 0
  {
    match r.edns
    case None => []
    case Some(e) =>
      var size := ToBe16(MAX_UDP_PAYLOAD);
      [0, 0, 41, size[0], size[1], 0, 0, if e.dnssecOk then 0x80 else 0, 0, 0, 0]
  }

  /** It is a whole OPT record for the root: our payload size, version 0, no options, and the DO bit
      exactly for a requester that set it. */
  lemma OptFields(r: Requester)
    requires r.edns.Some?
    ensures var o := Opt(r);
            && o[0] == 0 && Be16(o[1], o[2]) == TYPE_OPT && Be16(o[3], o[4]) == 1232
            && o[5] == 0 && o[6] == 0 && (o[7] >= 0x80 <==> r.edns.value.dnssecOk) && o[7] % 0x80 == 0 && o[8] == 0
            && Be16(o[9], o[10]) == 0
  {
  }

  /** `build`: header, question, records and OPT. */
  function Build(r: Requester, flags: (byte, byte), records: seq<byte>, count: nat): (m: Msg)
    requires ValidRequester(r) && count <= U16_MAX
    ensures |m| == HEADER_LEN + |r.question| + |records| + |Opt(r)|
  {
    Front(r, flags, count) + r.question + records + Opt(r)
  }

  function Front(r: Requester, flags: (byte, byte), count: nat): (h: seq<byte>)
    requires ValidRequester(r) && count <= U16_MAX
    ensures |h| == HEADER_LEN
  {
    ToBe16(r.id) + [flags.0, flags.1, 0, 1] + ToBe16(count) + [0, 0, 0, if r.edns.Some? then 1 else 0]
  }

  /** What a built reply holds where. */
  lemma BuildFields(r: Requester, flags: (byte, byte), records: seq<byte>, count: nat)
    requires ValidRequester(r) && count <= U16_MAX
    ensures var m := Build(r, flags, records, count);
            var qe := HEADER_LEN + |r.question|;
            && U16At(m, 0) == Some(r.id) && m[2] == flags.0 && m[3] == flags.1
            && U16At(m, 4) == Some(1) && U16At(m, 6) == Some(count) && U16At(m, 8) == Some(0)
            && U16At(m, 10) == Some(if r.edns.Some? then 1 else 0)
            && m[HEADER_LEN..qe] == r.question
            && m[qe..qe + |records|] == records && m[qe + |records|..] == Opt(r)
  {
    hide Opt;
    var h := Front(r, flags, count);
    var m := Build(r, flags, records, count);
    assert m[..HEADER_LEN] == h;
    assert forall i :: 0 <= i < HEADER_LEN ==> m[i] == h[i];
  }

  // ----- cutting a reply to size

  /** How many records at the front end within the budget. */
  function Fitting(recs: seq<Rec>, budget: nat): (k: nat)
    ensures k <= |recs|
    ensures forall i :: 0 <= i < k ==> recs[i].end <= budget
    ensures k < |recs| ==> recs[k].end > budget
  {
    if recs == [] || recs[0].end > budget then 0 else 1 + Fitting(recs[1..], budget)
  }

  predicate OfType(recs: seq<Rec>, qtype: nat) {
    exists i :: 0 <= i < |recs| && (recs[i].rtype == qtype || qtype == TYPE_ANY)
  }

  function Budget(r: Requester): nat { UdpLimit(r) - |Opt(r)| }

  /** `fit`: the reply if it fits, otherwise without its authority and additional records and
      with as many answer records as fit; with TC and no records when none of the queried type
      would be left. */
  function Fit(r: Requester, reply: Msg): Msg
    requires ValidRequester(r) && |reply| >= HEADER_LEN + |r.question|
  {
    var qe := HEADER_LEN + |r.question|;
    if |reply| <= UdpLimit(r) then reply
    else
      var answers := Walk(reply, qe, U16At(reply, 6).value);
      if answers.None? then Build(r, (SetTc(reply[2]), reply[3]), [], 0)
      else
        var k := Fitting(answers.value, Budget(r));
        var kept := answers.value[..k];
        if answers.value == [] || OfType(kept, QType(r)) then
          WalkEnds(reply, qe, U16At(reply, 6).value, k);
          Build(r, (ClearTc(reply[2]), reply[3]), reply[qe..End(kept, qe)], k)
        else Build(r, (SetTc(reply[2]), reply[3]), [], 0)
  }

  lemma WalkEnds(msg: Msg, at: nat, n: nat, k: nat)
    requires at <= |msg| && Walk(msg, at, n).Some? && k <= n
    ensures at <= End(Walk(msg, at, n).value[..k], at) <= |msg|
  {
    var recs := Walk(msg, at, n).value;
    WalkChained(msg, at, n);
    if k > 0 { ChainedAfter(recs, at, |msg|, k - 1); }
  }

  /** The same, from the loop that reads the answer records. */
  method FitReply(r: Requester, reply: Msg) returns (out: Msg)
    requires ValidRequester(r) && |reply| >= HEADER_LEN + |r.question|
    ensures out == Fit(r, reply)
  {
    hide Walk, Opt, Build, OfType, Fitting, UdpLimit;
    var limit := UdpLimit(r);
    if |reply| <= limit {
      return reply;
    }
    var qe := HEADER_LEN + |r.question|;
    var answers := ReadAnswers(reply, qe);
    if answers.Some? {
      var k := Fitting(answers.value, limit - |Opt(r)|);
      var kept := answers.value[..k];
      if answers.value == [] || OfType(kept, QType(r)) {
        WalkEnds(reply, qe, U16At(reply, 6).value, k);
        return Build(r, (ClearTc(reply[2]), reply[3]), reply[qe..End(kept, qe)], k);
      }
    }
    out := Build(r, (SetTc(reply[2]), reply[3]), [], 0);
  }

  /** Every reply fits. */
  lemma FitFits(r: Requester, reply: Msg)
    requires ValidRequester(r) && |reply| >= HEADER_LEN + |r.question|
    ensures |Fit(r, reply)| <= UdpLimit(r)
  {
    hide Walk, Opt, OfType;
    var qe := HEADER_LEN + |r.question|;
    var answers := Walk(reply, qe, U16At(reply, 6).value);
    if |reply| > UdpLimit(r) && answers.Some? {
      var k := Fitting(answers.value, Budget(r));
      WalkEnds(reply, qe, U16At(reply, 6).value, k);
    }
  }

  /** A reply is left whole exactly when the requester takes it, and otherwise cut to what it takes. */
  lemma FitExactly(r: Requester, reply: Msg)
    requires ValidRequester(r) && |reply| >= HEADER_LEN + |r.question|
    ensures Takes(r, |reply|) <==> Fit(r, reply) == reply
    ensures Takes(r, |Fit(r, reply)|)
  {
    hide Fit, UdpLimit, Takes;
    UdpLimitIs(r, |reply|);
    UdpLimitIs(r, |Fit(r, reply)|);
    FitFits(r, reply);
    FitUncut(r, reply);
  }

  lemma FitUncut(r: Requester, reply: Msg)
    requires ValidRequester(r) && |reply| >= HEADER_LEN + |r.question|
    ensures |reply| <= UdpLimit(r) ==> Fit(r, reply) == reply
  {
  }

  // ----- upstream answers

  datatype UpstreamAnswer = UpstreamAnswer(bytes: Msg, ttlOffsets: seq<nat>, questionEnd: nat)

  datatype AnswerError =
    | DoesNotDecode
    | NotAResponse
    | NoSingleQuestion
    | AnotherQuestion
    | MalformedRecords
    | ExtendedRcode
    | OptNotLast

  datatype Result = Ok(value: UpstreamAnswer) | Err(error: AnswerError)

  function Counts(msg: Msg): nat
    requires |msg| >= HEADER_LEN
  {
    U16At(msg, 6).value + U16At(msg, 8).value + U16At(msg, 10).value
  }

  /** What a stored answer is: a whole response for the question `key` whose records, none of
      them OPT, are `recs`. */
  ghost predicate Stored(a: UpstreamAnswer, key: seq<byte>, recs: seq<Rec>) {
    && QuestionEnd(a.bytes) == Some(a.questionEnd)
    && QuestionKey(a.bytes, a.questionEnd) == key
    && a.bytes[2] >= 0x80
    && Counts(a.bytes) == |recs|
    && Walk(a.bytes, a.questionEnd, |recs|) == Some(recs)
    && End(recs, a.questionEnd) == |a.bytes|
    && PlainRecs(recs)
    && a.ttlOffsets == TtlOffsets(recs)
  }

  ghost predicate PlainRecs(recs: seq<Rec>) {
    forall i :: 0 <= i < |recs| ==> recs[i].rtype != TYPE_OPT && recs[i].fields + 4 <= U16_MAX
  }

  lemma {:induction false} PlainOffsets(recs: seq<Rec>)
    requires PlainRecs(recs)
    ensures |TtlOffsets(recs)| == |recs|
    ensures forall i :: 0 <= i < |recs| ==> TtlOffsets(recs)[i] == recs[i].fields + 4
  {
    if recs != [] { PlainOffsets(recs[..|recs| - 1]); }
  }

  lemma {:induction false} AcceptsPlain(recs: seq<Rec>, from: nat)
    requires Accepts(recs, from) && OptOf(recs).None?
    ensures PlainRecs(recs)
  {
    if recs != [] { AcceptsPlain(recs[..|recs| - 1], from); }
  }

  lemma {:induction false} OptIsRec(recs: seq<Rec>) returns (i: nat)
    requires OptOf(recs).Some?
    ensures i < |recs| && recs[i] == OptOf(recs).value && recs[i].rtype == TYPE_OPT
  {
    var n := |recs| - 1;
    if recs[n].rtype == TYPE_OPT {
      i := n;
    } else {
      i := OptIsRec(recs[..n]);
    }
  }

  /** OPT at the end of the records is the last of them. */
  lemma OptIsLast(msg: Msg, at: nat, n: nat)
    requires Walk(msg, at, n).Some? && OptOf(Walk(msg, at, n).value).Some?
    requires OptOf(Walk(msg, at, n).value).value.end == End(Walk(msg, at, n).value, at)
    ensures n > 0 && OptOf(Walk(msg, at, n).value) == Some(Walk(msg, at, n).value[n - 1])
    ensures Walk(msg, at, n).value[n - 1].rtype == TYPE_OPT
  {
    var recs := Walk(msg, at, n).value;
    var i := OptIsRec(recs);
    WalkChained(msg, at, n);
    assert Linked(recs, at, |msg|, n - 1);
    if i < n - 1 { ChainedApart(recs, at, |msg|, i, n - 1); }
  }

  /** The records of a taken answer that are kept: all but OPT. */
  ghost function KeptRecs(wire: Msg): seq<Rec>
    requires |wire| >= HEADER_LEN && QuestionEnd(wire).Some?
    requires Walk(wire, QuestionEnd(wire).value, Counts(wire)).Some?
  {
    var recs := Walk(wire, QuestionEnd(wire).value, Counts(wire)).value;
    if OptOf(recs).Some? then recs[..|recs| - 1] else recs
  }
}
