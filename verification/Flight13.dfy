/** The first flight of a full TLS 1.3 handshake (flight.rs): any number of retry requests, the
    ServerHello, and then encrypted records. */
module Flight13 {
  import opened Bytes
  import opened Flight

  // ----- messages in pieces

  /** Reading the messages of a first piece and then going on with the second is reading both. */
  lemma {:induction false} MessagesSplit(p: Progress, a: seq<byte>, b: seq<byte>)
    requires p.Clear()
    ensures var (q, left) := Messages(p, a);
            if q.Clear() then Messages(p, a + b) == Messages(q, left + b) else Messages(p, a + b).0 == q
    decreases |a|
  {
    hide MessageProgress;
    if HasMessage(a) {
      var n := MessageLen(a);
      var q := MessageProgress(p, a[0], a[4..n]);
      SameMessage(a, b);
      if q.Clear() { MessagesSplit(q, a[n..], b); }
    }
  }

  lemma SameMessage(a: seq<byte>, b: seq<byte>)
    requires HasMessage(a)
    ensures var n := MessageLen(a);
            && HasMessage(a + b) && MessageLen(a + b) == n && (a + b)[0] == a[0]
            && (a + b)[4..n] == a[4..n] && (a + b)[n..] == a[n..] + b
  {
  }

  /** What is left is never more than there was. */
  lemma {:induction false} LeftWithin(p: Progress, bytes: seq<byte>)
    ensures |Messages(p, bytes).1| <= |bytes|
    decreases |bytes|
  {
    hide MessageProgress;
    if HasMessage(bytes) {
      var n := MessageLen(bytes);
      var q := MessageProgress(p, bytes[0], bytes[4..n]);
      if q.Clear() { LeftWithin(q, bytes[n..]); }
    }
  }

  // ----- the clear part

  /** Retry requests as messages, one after another. */
  function RetryBytes(retries: seq<seq<byte>>): seq<byte>
    requires forall b :: b in retries ==> |b| < 0x100_0000 && ServerHello(b) == Hello
  {
    if retries == [] then [] else Message(2, retries[0]) + RetryBytes(retries[1..])
  }

  /** The clear part of the flight, at most 16 KiB: retry requests, then a ServerHello that starts a
      full TLS 1.3 handshake. */
  datatype Clear13 = Clear13(retries: seq<seq<byte>>, hello: seq<byte>) {
    predicate Valid() {
      && (forall b :: b in retries ==> |b| < 0x100_0000 && ServerHello(b) == Hello)
      && |hello| < 0x100_0000 && ServerHello(hello) == Tls13
      && |RetryBytes(retries)| + 4 + |hello| <= MAX_HANDSHAKE_BYTES
    }
    function Bytes(): seq<byte>
      requires Valid()
    {
      RetryBytes(retries) + Message(SERVER_HELLO, hello)
    }
  }

  /** A retry request leaves the parser where it was. */
  lemma RetryRead(body: seq<byte>, rest: seq<byte>)
    requires |body| < 0x100_0000 && ServerHello(body) == Hello
    ensures Messages(Hello, Message(SERVER_HELLO, body) + rest) == Messages(Hello, rest)
  {
    hide ServerHello, Message;
    MessageStarts(SERVER_HELLO, body, rest);
  }

  lemma HelloRead(hello: seq<byte>, more: seq<byte>)
    requires |hello| < 0x100_0000 && ServerHello(hello) == Tls13
    ensures Messages(Hello, Message(SERVER_HELLO, hello) + more).0 == Tls13
  {
    hide ServerHello, Message;
    MessageStarts(SERVER_HELLO, hello, more);
  }

  /** The whole clear part, whatever follows, starts TLS 1.3. */
  lemma {:induction false} ClearPartRead(retries: seq<seq<byte>>, hello: seq<byte>, more: seq<byte>)
    requires forall b :: b in retries ==> |b| < 0x100_0000 && ServerHello(b) == Hello
    requires |hello| < 0x100_0000 && ServerHello(hello) == Tls13
    ensures Messages(Hello, RetryBytes(retries) + Message(SERVER_HELLO, hello) + more).0 == Tls13
  {
    hide ServerHello, Message, Messages;
    var m := Message(SERVER_HELLO, hello);
    if retries == [] {
      assert RetryBytes(retries) + m + more == m + more;
      HelloRead(hello, more);
    } else {
      var first, rest := Message(SERVER_HELLO, retries[0]), RetryBytes(retries[1..]) + m + more;
      ClearPartRead(retries[1..], hello, more);
      assert RetryBytes(retries) + m + more == first + rest;
      RetryRead(retries[0], rest);
    }
  }

  /** Less than the whole of it leaves the parser waiting for a ServerHello. */
  lemma {:induction false} ClearPartCut(retries: seq<seq<byte>>, hello: seq<byte>, n: nat)
    requires (forall b :: b in retries ==> |b| < 0x100_0000 && ServerHello(b) == Hello) && |hello| < 0x100_0000
    requires n < |RetryBytes(retries) + Message(SERVER_HELLO, hello)|
    ensures Messages(Hello, (RetryBytes(retries) + Message(SERVER_HELLO, hello))[..n]).0 == Hello
  {
    hide ServerHello, Message;
    var m := Message(SERVER_HELLO, hello);
    MessageSize(SERVER_HELLO, hello);
    if retries == [] {
      assert (RetryBytes(retries) + m)[..n] == m[..n];
      MessageCut(SERVER_HELLO, hello, n);
    } else {
      var first, rest := Message(SERVER_HELLO, retries[0]), RetryBytes(retries[1..]) + m;
      assert RetryBytes(retries) + m == first + rest;
      FirstCut(retries[0], rest, n);
      if n >= |first| {
        ClearPartCut(retries[1..], hello, n - |first|);
        hide Messages;
        RetryRead(retries[0], rest[..n - |first|]);
      }
    }
  }

  lemma FirstCut(body: seq<byte>, rest: seq<byte>, n: nat)
    requires |body| < 0x100_0000 && ServerHello(body) == Hello && n <= |Message(SERVER_HELLO, body) + rest|
    ensures var first := Message(SERVER_HELLO, body);
            if n < |first| then Messages(Hello, (first + rest)[..n]).0 == Hello
            else (first + rest)[..n] == first + rest[..n - |first|]
  {
    hide ServerHello, Message;
    var first := Message(SERVER_HELLO, body);
    MessageSize(SERVER_HELLO, body);
    if n < |first| {
      MessageCut(SERVER_HELLO, body, n);
      assert (first + rest)[..n] == first[..n];
    }
  }

  // ----- in records

  /** Before the ServerHello is complete: handshake records, and change cipher spec records, which
      are passed over. */
  predicate ClearKind(kind: byte) { kind == HANDSHAKE || kind == CHANGE_CIPHER_SPEC }

  /** The handshake bytes of the records. */
  function Handshake(records: seq<Record>): seq<byte> {
    if records == [] then []
    else
      var n := |records| - 1;
      Handshake(records[..n]) + if records[n].kind == HANDSHAKE then records[n].fragment else []
  }

  /** The parser waits for a ServerHello and holds what is left of the bytes so far. */
  ghost predicate Waits13(s: State, bytes: seq<byte>) {
    AtBoundary(s) && s.progress == Hello && Messages(Hello, bytes) == (Hello, s.handshake)
  }

  lemma ClearRecordRead(s: State, r: Record, bytes: seq<byte>)
    requires Waits13(s, bytes) && Sendable(r) && ClearKind(r.kind)
    requires r.kind == HANDSHAKE ==>
               |bytes + r.fragment| <= MAX_HANDSHAKE_BYTES && Messages(Hello, bytes + r.fragment).0 == Hello
    ensures Waits13(AfterRecord(s, r), bytes + if r.kind == HANDSHAKE then r.fragment else [])
  {
    hide Messages;
    if r.kind == HANDSHAKE {
      HandshakeRecord(s, r);
      MessagesSplit(Hello, bytes, r.fragment);
      LeftWithin(Hello, bytes + r.fragment);
    } else {
      assert bytes + [] == bytes;
      PassedOver(s, r);
    }
  }

  lemma PassedOver(s: State, r: Record)
    requires AtBoundary(s) && (s.progress == Hello || s.progress == Tls13) && Sendable(r)
    requires r.kind == CHANGE_CIPHER_SPEC
    ensures AtBoundary(AfterRecord(s, r)) && AfterRecord(s, r).progress == s.progress
    ensures AfterRecord(s, r).handshake == s.handshake
  {
    hide Messages;
    FeedRecord(s, r);
    assert RecordBytes(r)[..5][0] == CHANGE_CIPHER_SPEC;
  }

  lemma EncryptedRecord(s: State, r: Record)
    requires AtBoundary(s) && s.progress == Tls13 && Sendable(r) && r.kind == APPLICATION_DATA
    ensures AfterRecord(s, r).progress == CertificateSent
  {
    hide Messages;
    assert RecordBytes(r)[..5][0] == APPLICATION_DATA;
  }

  lemma {:induction false} WaitsFor13(f: Clear13, records: seq<Record>)
    requires f.Valid() && (forall r :: r in records ==> Sendable(r) && ClearKind(r.kind))
    requires Handshake(records) < f.Bytes()
    ensures Waits13(AfterRecords(START, records), Handshake(records))
  {
    hide Messages, AfterRecord, Message, RetryBytes, ServerHello;
    if records == [] {
      StartWaits();
    } else {
      var n := |records| - 1;
      var front, r := records[..n], records[n];
      var bytes := Handshake(front);
      assert bytes <= Handshake(records);
      WaitsFor13(f, front);
      var more := Handshake(records);
      assert more == f.Bytes()[..|more|];
      ClearPartCut(f.retries, f.hello, |more|);
      assert |f.Bytes()| <= MAX_HANDSHAKE_BYTES by { ClearSize(f); }
      ClearRecordRead(AfterRecords(START, front), r, bytes);
    }
  }

  lemma ClearSize(f: Clear13)
    requires f.Valid()
    ensures |f.Bytes()| <= MAX_HANDSHAKE_BYTES
  {
    MessageSize(SERVER_HELLO, f.hello);
  }

  lemma StartWaits()
    ensures Waits13(START, [])
  {
  }

  /** The record that completes the ServerHello. */
  lemma HelloCompleted(f: Clear13, s: State, bytes: seq<byte>, last: Record)
    requires f.Valid() && Waits13(s, bytes) && Sendable(last) && last.kind == HANDSHAKE
    requires f.Bytes() <= bytes + last.fragment
    ensures AfterRecord(s, last).progress == Tls13
  {
    hide Messages, AfterRecord, Message, RetryBytes, ServerHello;
    HandshakeRecord(s, last);
    MessagesSplit(Hello, bytes, last.fragment);
    var all := bytes + last.fragment;
    assert all == f.Bytes() + all[|f.Bytes()|..];
    ClearPartRead(f.retries, f.hello, all[|f.Bytes()|..]);
  }

  lemma {:induction false} AfterCipherSpecs(front: seq<Record>, ccs: seq<Record>)
    requires (forall r :: r in front ==> Sendable(r)) && AfterRecords(START, front).progress == Tls13
    requires forall r :: r in ccs ==> r.kind == CHANGE_CIPHER_SPEC && Sendable(r)
    ensures AfterRecords(START, front + ccs).progress == Tls13
  {
    hide AfterRecord;
    if ccs == [] {
      assert front + ccs == front;
    } else {
      var n := |ccs| - 1;
      AfterCipherSpecs(front, ccs[..n]);
      assert (front + ccs)[..|front| + n] == front + ccs[..n];
      PassedOver(AfterRecords(START, front + ccs[..n]), ccs[n]);
    }
  }

  /** The clear part in records: those before the last byte of the ServerHello, the one that holds
      it, and change cipher spec records after it. */
  datatype Sent13 = Sent13(before: seq<Record>, last: Record, ccs: seq<Record>) {
    predicate Carries(f: Clear13) {
      && f.Valid()
      && (forall r :: r in before ==> Sendable(r) && ClearKind(r.kind)) && Sendable(last) && last.kind == HANDSHAKE
      && Handshake(before) < f.Bytes() && f.Bytes() <= Handshake(before) + last.fragment
      && (forall r :: r in ccs ==> r.kind == CHANGE_CIPHER_SPEC && Sendable(r))
    }
    function Records(): seq<Record> { before + [last] + ccs }
  }

  lemma SentSendable(f: Clear13, sent: Sent13)
    requires sent.Carries(f)
    ensures Sendable(sent.last) && (forall r :: r in sent.before ==> Sendable(r))
    ensures forall r :: r in sent.Records() ==> Sendable(r)
  {
  }

  /** However the retry requests and the ServerHello are split into records, the parser waits for
      the ServerHello until the last byte of the record that completes it. */
  lemma HelloAwaited(f: Clear13, sent: Sent13, cut: nat)
    requires sent.Carries(f) && cut < |RecordBytes(sent.last)|
    ensures Feed(START, Flow(sent.before) + RecordBytes(sent.last)[..cut]).progress == Hello
  {
    hide Feed, RecordBytes, AfterRecord, Messages, Clear13.Bytes, ServerHello;
    var before, last := sent.before, sent.last;
    WaitsFor13(f, before);
    FeedFlow(START, before);
    FeedSplit(START, Flow(before), RecordBytes(last)[..cut]);
    FeedRecordPrefix(AfterRecords(START, before), last, cut);
  }

  lemma HelloSent(f: Clear13, sent: Sent13)
    requires sent.Carries(f) && forall r :: r in sent.Records() ==> Sendable(r)
    ensures AfterRecords(START, sent.Records()).progress == Tls13
  {
    hide Feed, RecordBytes, AfterRecord, Messages, Clear13.Bytes, ServerHello;
    var before, last := sent.before, sent.last;
    WaitsFor13(f, before);
    HelloCompleted(f, AfterRecords(START, before), Handshake(before), last);
    var hello := before + [last];
    assert hello[..|before|] == before && hello[|before|] == last;
    AfterCipherSpecs(hello, sent.ccs);
  }

  /** After that record, change cipher spec records are passed over, and the certificate counts as
      sent exactly at the last byte of the first encrypted record, however the bytes are split into
      writes. */
  lemma Tls13CertificateSent(f: Clear13, sent: Sent13, data: Record, cut: nat)
    requires sent.Carries(f) && data.kind == APPLICATION_DATA && Sendable(data) && cut < |RecordBytes(data)|
    ensures forall r :: r in sent.Records() ==> Sendable(r)
    ensures Feed(START, Flow(sent.Records()) + RecordBytes(data)[..cut]).progress == Tls13
    ensures Feed(START, Flow(sent.Records()) + RecordBytes(data)).progress == CertificateSent
  {
    hide Feed, RecordBytes, AfterRecord, Messages, Sent13.Carries, Sent13.Records, ServerHello, Flow;
    SentSendable(f, sent);
    var front := sent.Records();
    HelloSent(f, sent);
    var t := AfterRecords(START, front);
    EncryptedRecord(t, data);
    FeedFlow(START, front);
    FeedSplit(START, Flow(front), RecordBytes(data)[..cut]);
    FeedRecordPrefix(t, data, cut);
    FeedSplit(START, Flow(front), RecordBytes(data));
    FeedRecord(t, data);
  }
}
