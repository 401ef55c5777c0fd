/** When the certificate counts as sent (flight.rs), for every sequence of bytes written: exactly when
    the whole records among them carry one. */
module FlightExact {
  import opened Bytes
  import opened Flight
  import opened Flight13

  // ----- the records of arbitrary bytes

  /** A whole record starts the bytes. */
  predicate HasRecord(bytes: seq<byte>) { |bytes| >= 5 && |bytes| >= 5 + Be16(bytes[3], bytes[4]) }

  function FirstRecord(bytes: seq<byte>): (r: Record)
    requires HasRecord(bytes)
    ensures Sendable(r)
  {
    Record(bytes[0], (bytes[1], bytes[2]), bytes[5..5 + Be16(bytes[3], bytes[4])])
  }

  /** The whole records that the bytes start with. */
  function RecordsOf(bytes: seq<byte>): (rs: seq<Record>)
    ensures forall r :: r in rs ==> Sendable(r)
    decreases |bytes|
  {
    if !HasRecord(bytes) then []
    else [FirstRecord(bytes)] + RecordsOf(bytes[|RecordBytes(FirstRecord(bytes))|..])
  }

  lemma FirstRecordBytes(bytes: seq<byte>)
    requires HasRecord(bytes)
    ensures var b := RecordBytes(FirstRecord(bytes)); |b| <= |bytes| && bytes == b + bytes[|b|..]
  {
    var r := FirstRecord(bytes);
    var n := |r.fragment|;
    assert Be16(bytes[3], bytes[4]) == n && bytes[3] as int == n / 256 && bytes[4] as int == n % 256;
    assert RecordBytes(r) == bytes[..5] + bytes[5..5 + n];
  }

  lemma {:induction false} FlowFirst(r: Record, rs: seq<Record>)
    requires Sendable(r) && forall x :: x in rs ==> Sendable(x)
    ensures Flow([r] + rs) == RecordBytes(r) + Flow(rs)
    decreases |rs|
  {
    hide RecordBytes;
    var all := [r] + rs;
    if rs == [] {
      assert all[..0] == [] && all[0] == r;
      assert Flow(all) == [] + RecordBytes(r);
    } else {
      var n := |rs| - 1;
      FlowFirst(r, rs[..n]);
      assert all[..n + 1] == [r] + rs[..n] && all[n + 1] == rs[n];
    }
  }

  /** The bytes are their whole records and then less than a record. */
  lemma {:induction false} WholeRecords(bytes: seq<byte>) returns (rest: seq<byte>)
    ensures bytes == Flow(RecordsOf(bytes)) + rest && !HasRecord(rest)
    decreases |bytes|
  {
    hide RecordBytes, FirstRecord;
    if HasRecord(bytes) {
      var r := FirstRecord(bytes);
      var b := RecordBytes(r);
      FirstRecordBytes(bytes);
      rest := WholeRecords(bytes[|b|..]);
      FlowFirst(r, RecordsOf(bytes[|b|..]));
    } else {
      rest := bytes;
    }
  }

  /** Less than a whole record does not move the progress. */
  lemma PartMovesNothing(s: State, bytes: seq<byte>)
    requires AtBoundary(s) && !HasRecord(bytes)
    ensures Feed(s, bytes).progress == s.progress
  {
    hide RecordWritten, Feed;
    if !s.progress.Watching() {
      FeedOver(s, bytes);
    } else if |bytes| < 5 {
      FeedHeader(s, bytes);
    } else {
      var h, f := bytes[..5], bytes[5..];
      assert bytes == h + f && s.header[..0] + h == h;
      FeedHeaderRest(s, h);
      FeedSplit(s, h, f);
      FeedPart(Feed(s, h), f);
    }
  }

  /** What the parser makes of records, first one first. */
  lemma {:induction false} AfterFirst(s: State, r: Record, rs: seq<Record>)
    requires AtBoundary(s) && Sendable(r) && forall x :: x in rs ==> Sendable(x)
    ensures AtBoundary(AfterRecord(s, r)) && AfterRecords(s, [r] + rs) == AfterRecords(AfterRecord(s, r), rs)
    decreases |rs|
  {
    hide AfterRecord;
    FeedRecord(s, r);
    var all := [r] + rs;
    if rs == [] {
      assert all[..0] == [] && all[0] == r;
    } else {
      var n := |rs| - 1;
      AfterFirst(s, r, rs[..n]);
      assert all[..n + 1] == [r] + rs[..n] && all[n + 1] == rs[n];
    }
  }

  /** Bytes move the progress exactly as their whole records do. */
  lemma {:induction false} FeedIsRecords(s: State, bytes: seq<byte>)
    requires AtBoundary(s)
    ensures Feed(s, bytes).progress == AfterRecords(s, RecordsOf(bytes)).progress
    decreases |bytes|
  {
    hide Feed, AfterRecord, RecordBytes, FirstRecord;
    if HasRecord(bytes) {
      var r := FirstRecord(bytes);
      FirstRecordBytes(bytes);
      var b := RecordBytes(r);
      FeedSplit(s, b, bytes[|b|..]);
      FeedRecord(s, r);
      FeedIsRecords(AfterRecord(s, r), bytes[|b|..]);
      AfterFirst(s, r, RecordsOf(bytes[|b|..]));
    } else {
      PartMovesNothing(s, bytes);
    }
  }

  // ----- what the messages show

  predicate Retries(retries: seq<seq<byte>>) {
    forall b :: b in retries ==> |b| < 0x100_0000 && ServerHello(b) == Hello
  }

  /** Retry requests, then a ServerHello. */
  predicate HelloParts(retries: seq<seq<byte>>, hello: seq<byte>, p: Progress) {
    Retries(retries) && |hello| < 0x100_0000 && ServerHello(hello) == p
  }

  /** By the types of section 4 of RFC 8446: 2 is a ServerHello, 11 a Certificate. */
  function HelloBytes(retries: seq<seq<byte>>, hello: seq<byte>): seq<byte>
    requires Retries(retries) && |hello| < 0x100_0000
  {
    RetryBytes(retries) + Message(2, hello)
  }

  /** The bytes start with retry requests and a ServerHello of TLS 1.3. */
  ghost predicate Starts13(bytes: seq<byte>) {
    exists retries, hello :: HelloParts(retries, hello, Tls13) && HelloBytes(retries, hello) <= bytes
  }

  function CertBytes(retries: seq<seq<byte>>, hello: seq<byte>, cert: seq<byte>): seq<byte>
    requires Retries(retries) && |hello| < 0x100_0000 && |cert| < 0x100_0000
  {
    HelloBytes(retries, hello) + Message(11, cert)
  }

  /** They start with retry requests, a ServerHello of TLS 1.2 and a Certificate. */
  ghost predicate Starts12(bytes: seq<byte>) {
    exists retries, hello, cert ::
      HelloParts(retries, hello, Tls12) && |cert| < 0x100_0000 && CertBytes(retries, hello, cert) <= bytes
  }

  lemma Digit(q: nat, r: nat)
    requires r < 256
    ensures (256 * q + r) / 256 == q && (256 * q + r) % 256 == r
  {
  }

  lemma TwoDigits(n: nat)
    ensures n / 65536 == n / 256 / 256
  {
  }

  lemma Be24Parts(a: byte, b: byte, c: byte)
    ensures var n := Be24(a, b, c);
            n < 0x100_0000 && n / 65536 == a as int && n / 256 % 256 == b as int && n % 256 == c as int
  {
    var x: int, y: int, z: int := a, b, c;
    var n := Be24(a, b, c);
    assert n == 256 * (256 * x + y) + z;
    Digit(256 * x + y, z);
    Digit(x, y);
    TwoDigits(n);
  }

  lemma FirstMessage(bytes: seq<byte>)
    requires HasMessage(bytes)
    ensures var n := MessageLen(bytes);
            && |bytes[4..n]| < 0x100_0000 && bytes[..n] == Message(bytes[0], bytes[4..n])
            && bytes == Message(bytes[0], bytes[4..n]) + bytes[n..]
  {
    var n := MessageLen(bytes);
    Be24Parts(bytes[1], bytes[2], bytes[3]);
    hide Be24;
    assert |bytes[4..n]| == n - 4;
    assert Message(bytes[0], bytes[4..n]) == bytes[..4] + bytes[4..n] == bytes[..n];
  }

  /** After a ServerHello of TLS 1.2 the next message decides. */
  lemma After12(bytes: seq<byte>)
    ensures Messages(Tls12, bytes) ==
            if !HasMessage(bytes) then (Tls12, bytes)
            else (if bytes[0] == CERTIFICATE then CertificateSent else NoCertificate, bytes[MessageLen(bytes)..])
  {
  }

  /** Retry requests and a ServerHello are read through. */
  lemma {:induction false} HellosRead(retries: seq<seq<byte>>, hello: seq<byte>, p: Progress, more: seq<byte>)
    requires HelloParts(retries, hello, p)
    ensures Messages(Hello, HelloBytes(retries, hello) + more) == if p.Clear() then Messages(p, more) else (p, more)
    decreases |retries|
  {
    hide ServerHello, Message, Messages;
    var m := Message(SERVER_HELLO, hello);
    if retries == [] {
      assert HelloBytes(retries, hello) + more == m + more;
      HelloThen(hello, more);
    } else {
      var first, rest := Message(SERVER_HELLO, retries[0]), HelloBytes(retries[1..], hello) + more;
      HellosRead(retries[1..], hello, p, more);
      assert HelloBytes(retries, hello) + more == first + rest;
      RetryRead(retries[0], rest);
    }
  }

  lemma HelloThen(hello: seq<byte>, more: seq<byte>)
    requires |hello| < 0x100_0000
    ensures var p := ServerHello(hello);
            Messages(Hello, Message(SERVER_HELLO, hello) + more) == if p.Clear() then Messages(p, more) else (p, more)
  {
    hide ServerHello, Message;
    MessageStarts(SERVER_HELLO, hello, more);
  }

  lemma CertRead(retries: seq<seq<byte>>, hello: seq<byte>, cert: seq<byte>, more: seq<byte>)
    requires HelloParts(retries, hello, Tls12) && |cert| < 0x100_0000
    ensures Messages(Hello, CertBytes(retries, hello, cert) + more).0 == CertificateSent
  {
    hide ServerHello, Message, HelloBytes;
    var m := Message(CERTIFICATE, cert);
    assert CertBytes(retries, hello, cert) + more == HelloBytes(retries, hello) + (m + more);
    HellosRead(retries, hello, Tls12, m + more);
    MessageStarts(CERTIFICATE, cert, more);
    After12(m + more);
  }

  lemma MoreRetries(retries: seq<seq<byte>>, body: seq<byte>, hello: seq<byte>, p: Progress)
    requires HelloParts(retries, hello, p) && |body| < 0x100_0000 && ServerHello(body) == Hello
    ensures HelloParts([body] + retries, hello, p)
    ensures HelloBytes([body] + retries, hello) == Message(SERVER_HELLO, body) + HelloBytes(retries, hello)
  {
    hide ServerHello, Message;
    assert ([body] + retries)[1..] == retries;
  }

  /** Reading them back from bytes that say TLS 1.3. */
  lemma {:induction false} Read13(bytes: seq<byte>) returns (retries: seq<seq<byte>>, hello: seq<byte>)
    requires Messages(Hello, bytes).0 == Tls13
    ensures HelloParts(retries, hello, Tls13) && HelloBytes(retries, hello) <= bytes
    decreases |bytes|
  {
    hide ServerHello, Message;
    var n := MessageLen(bytes);
    var body := bytes[4..n];
    FirstMessage(bytes);
    After12(bytes[n..]);
    if ServerHello(body) == Hello {
      retries, hello := Read13(bytes[n..]);
      hide HelloBytes;
      MoreRetries(retries, body, hello, Tls13);
      retries := [body] + retries;
    } else {
      retries, hello := [], body;
      assert HelloBytes(retries, hello) == Message(SERVER_HELLO, body);
    }
  }

  /** The messages say TLS 1.3 exactly when the bytes start with its hello. */
  lemma Shows13(bytes: seq<byte>)
    ensures Messages(Hello, bytes).0 == Tls13 <==> Starts13(bytes)
  {
    hide ServerHello, Message, HelloBytes, Messages;
    if retries, hello :| HelloParts(retries, hello, Tls13) && HelloBytes(retries, hello) <= bytes {
      var n := |HelloBytes(retries, hello)|;
      assert bytes == HelloBytes(retries, hello) + bytes[n..];
      HellosRead(retries, hello, Tls13, bytes[n..]);
    }
    if Messages(Hello, bytes).0 == Tls13 {
      var retries, hello := Read13(bytes);
    }
  }

  /** Reading them back from bytes that hold a Certificate. */
  lemma {:induction false} Read12(bytes: seq<byte>) returns (retries: seq<seq<byte>>, hello: seq<byte>, cert: seq<byte>)
    requires Messages(Hello, bytes).0 == CertificateSent
    ensures HelloParts(retries, hello, Tls12) && |cert| < 0x100_0000 && CertBytes(retries, hello, cert) <= bytes
    decreases |bytes|
  {
    hide ServerHello, Message, Messages;
    HelloStarts(bytes);
    var n := MessageLen(bytes);
    var body, rest := bytes[4..n], bytes[n..];
    FirstMessage(bytes);
    if ServerHello(body) == Hello {
      retries, hello, cert := Read12(rest);
      hide HelloBytes;
      MoreRetries(retries, body, hello, Tls12);
      var first, all := Message(SERVER_HELLO, body), CertBytes(retries, hello, cert);
      retries := [body] + retries;
      assert CertBytes(retries, hello, cert) == first + all;
    } else {
      After12(rest);
      FirstMessage(rest);
      retries, hello, cert := [], body, rest[4..MessageLen(rest)];
      assert HelloBytes(retries, hello) == Message(SERVER_HELLO, body);
    }
  }

  /** What can lead to a certificate in the clear. */
  lemma HelloStarts(bytes: seq<byte>)
    requires Messages(Hello, bytes).0 == CertificateSent
    ensures HasMessage(bytes) && bytes[0] == SERVER_HELLO
    ensures var n := MessageLen(bytes);
            var p := ServerHello(bytes[4..n]);
            p.Clear() && Messages(p, bytes[n..]).0 == CertificateSent
  {
    hide ServerHello;
    HelloIsNoCertificate(bytes[4..MessageLen(bytes)]);
  }

  lemma HelloIsNoCertificate(body: seq<byte>)
    ensures ServerHello(body) != CertificateSent
  {
  }

  /** The messages hold a Certificate exactly when the bytes start with hellos of TLS 1.2 and one. */
  lemma Shows12(bytes: seq<byte>)
    ensures Messages(Hello, bytes).0 == CertificateSent <==> Starts12(bytes)
  {
    hide ServerHello, Message, HelloBytes, CertBytes, Messages;
    if retries, hello, cert :|
      && HelloParts(retries, hello, Tls12) && |cert| < 0x100_0000
      && CertBytes(retries, hello, cert) <= bytes
    {
      var n := |CertBytes(retries, hello, cert)|;
      assert bytes == CertBytes(retries, hello, cert) + bytes[n..];
      CertRead(retries, hello, cert, bytes[n..]);
    }
    if Messages(Hello, bytes).0 == CertificateSent {
      var retries, hello, cert := Read12(bytes);
    }
  }

  // ----- what the records show

  /** The bytes after the last whole message. */
  function Unfinished(bytes: seq<byte>): seq<byte>
    decreases |bytes|
  {
    if HasMessage(bytes) then Unfinished(bytes[MessageLen(bytes)..]) else bytes
  }

  lemma {:induction false} LeftIsUnfinished(p: Progress, bytes: seq<byte>)
    requires Messages(p, bytes).0.Clear()
    ensures Messages(p, bytes).1 == Unfinished(bytes)
    decreases |bytes|
  {
    hide MessageProgress;
    if HasMessage(bytes) {
      var n := MessageLen(bytes);
      LeftIsUnfinished(MessageProgress(p, bytes[0], bytes[4..n]), bytes[n..]);
    }
  }

  /** By their content types (section 5.1 of RFC 8446: 20 is change cipher spec, 22 handshake, 23
      application data): only handshake records, no unfinished message of more than 16 KiB, and change cipher spec
      records only before the first `hello` handshake bytes are written. */
  ghost predicate Clearly(records: seq<Record>, hello: nat) {
    AllClear(records, hello) && AllBounded(records)
  }

  ghost predicate AllClear(records: seq<Record>, hello: nat) {
    forall i :: 0 <= i < |records| ==> ClearAt(records, hello, i)
  }

  ghost predicate AllBounded(records: seq<Record>) {
    forall i :: 0 <= i <= |records| ==> BoundedAt(records, i)
  }

  ghost predicate BoundedAt(records: seq<Record>, i: nat)
    requires i <= |records|
  {
    |Unfinished(Handshake(records[..i]))| <= 16384
  }

  ghost predicate ClearAt(records: seq<Record>, hello: nat, i: nat)
    requires i < |records|
  {
    || records[i].kind == 22
    || (records[i].kind == 20 && |Handshake(records[..i])| < hello)
  }

  /** The last record completes these bytes, of which the first `hello` are the hellos. */
  ghost predicate Completes(records: seq<Record>, bytes: seq<byte>, hello: nat) {
    && records != []
    && var n := |records| - 1;
       && records[n].kind == 22 && Clearly(records[..n], hello)
       && Handshake(records[..n]) < bytes && bytes <= Handshake(records)
  }

  /** TLS 1.2: the last record completes the Certificate. */
  ghost predicate Sends12(records: seq<Record>) {
    exists retries, hello, cert ::
      HelloParts(retries, hello, Tls12) && |cert| < 0x100_0000
      && Completes(records, CertBytes(retries, hello, cert), |HelloBytes(retries, hello)|)
  }

  /** TLS 1.3: the last record completes the hello. */
  ghost predicate Hellos13(records: seq<Record>) {
    exists retries, hello ::
      HelloParts(retries, hello, Tls13)
      && Completes(records, HelloBytes(retries, hello), |HelloBytes(retries, hello)|)
  }

  /** TLS 1.3: a hello, change cipher spec records, and an encrypted record. */
  ghost predicate Sends13(records: seq<Record>) {
    exists j :: 0 <= j < |records| && Encrypts(records, j)
  }

  ghost predicate Encrypts(records: seq<Record>, j: nat)
    requires j < |records|
  {
    && Hellos13(records[..j])
    && records[|records| - 1].kind == 23
    && forall i :: j <= i < |records| - 1 ==> records[i].kind == 20
  }

  // ----- the same, record by record

  /** The parser still waits in the clear. */
  ghost predicate Followed(records: seq<Record>) {
    records == []
    || (var n := |records| - 1;
        && Followed(records[..n])
        && if records[n].kind == HANDSHAKE then
             var (p, left) := Messages(Hello, Handshake(records));
             p.Clear() && |left| <= MAX_HANDSHAKE_BYTES
           else records[n].kind == CHANGE_CIPHER_SPEC && Messages(Hello, Handshake(records[..n])).0 == Hello)
  }

  /** The last record moves the parser from the clear to `p`. */
  ghost predicate Moves(records: seq<Record>, p: Progress) {
    && records != []
    && var n := |records| - 1;
       Followed(records[..n]) && records[n].kind == HANDSHAKE && Messages(Hello, Handshake(records)).0 == p
  }

  ghost predicate InTls13(records: seq<Record>) {
    Moves(records, Tls13)
    || (records != [] && InTls13(records[..|records| - 1]) && records[|records| - 1].kind == CHANGE_CIPHER_SPEC)
  }

  ghost predicate SentByLast(records: seq<Record>) {
    Moves(records, CertificateSent)
    || (records != [] && InTls13(records[..|records| - 1]) && records[|records| - 1].kind == APPLICATION_DATA)
  }

  ghost predicate Sent(records: seq<Record>) {
    records != [] && (Sent(records[..|records| - 1]) || SentByLast(records))
  }

  lemma OtherRecord(s: State, r: Record)
    requires AtBoundary(s) && s.progress.Watching() && Sendable(r) && (r.kind != HANDSHAKE || !s.progress.Clear())
    ensures var t := AfterRecord(s, r);
            && AtBoundary(t) && (t.progress.Watching() ==> t.handshake == s.handshake)
            && t.progress ==
               if r.kind == CHANGE_CIPHER_SPEC && (s.progress == Hello || s.progress == Tls13) then s.progress
               else if r.kind == APPLICATION_DATA && s.progress == Tls13 then CertificateSent
               else NoCertificate
  {
    hide Messages;
    FeedRecord(s, r);
    assert RecordBytes(r)[..5][0] == r.kind;
  }

  lemma OverRecord(s: State, r: Record)
    requires AtBoundary(s) && !s.progress.Watching() && Sendable(r)
    ensures AfterRecord(s, r) == s
  {
  }

  /** In the clear the parser holds what the handshake bytes so far show. */
  ghost predicate Holds(s: State, records: seq<Record>) {
    s.progress.Clear() ==> Messages(Hello, Handshake(records)) == (s.progress, s.handshake)
  }

  lemma HandshakeStep(s: State, records: seq<Record>)
    requires records != [] && AtBoundary(s) && s.progress.Clear()
    requires var n := |records| - 1; Sendable(records[n]) && records[n].kind == HANDSHAKE && Holds(s, records[..n])
    ensures var t := AfterRecord(s, records[|records| - 1]);
            var (p, left) := Messages(Hello, Handshake(records));
            t.progress == TooMuch(p, left) && Holds(t, records)
  {
    hide Messages, AfterRecord;
    var r := records[|records| - 1];
    HandshakeRecord(s, r);
    MessagesSplit(Hello, Handshake(records[..|records| - 1]), r.fragment);
  }

  /** The state after any records, by what they show. */
  lemma {:induction false} ParserIs(records: seq<Record>)
    requires forall r :: r in records ==> Sendable(r)
    ensures var s := AfterRecords(START, records);
            && Holds(s, records) && (s.progress.Clear() <==> Followed(records))
            && (s.progress == Tls13 <==> InTls13(records)) && (s.progress == CertificateSent <==> Sent(records))
  {
    hide AfterRecord, Messages;
    if records == [] {
      NothingShown();
    } else {
      var n := |records| - 1;
      ParserIs(records[..n]);
      var s, r := AfterRecords(START, records[..n]), records[n];
      if s.progress.Clear() && r.kind == HANDSHAKE {
        HandshakeStep(s, records);
      } else if s.progress.Watching() {
        OtherRecord(s, r);
        assert Handshake(records[..n]) + [] == Handshake(records[..n]);
      } else {
        OverRecord(s, r);
      }
    }
  }

  lemma NothingShown()
    ensures Messages(Hello, []) == (Hello, []) && Handshake([]) == []
  {
  }

  // ----- what was carried is what was followed

  /** Cut short, the bytes leave the parser waiting: for a ServerHello before the first `hello` bytes,
      for a Certificate after them. */
  ghost predicate Waits(bytes: seq<byte>, hello: nat) {
    forall n :: 0 <= n < |bytes| ==> WaitsAt(bytes, hello, n)
  }

  ghost predicate WaitsAt(bytes: seq<byte>, hello: nat, n: nat)
    requires n < |bytes|
  {
    Messages(Hello, bytes[..n]).0 == if n < hello then Hello else Tls12
  }

  lemma HelloWaits(retries: seq<seq<byte>>, hello: seq<byte>)
    requires Retries(retries) && |hello| < 0x100_0000
    ensures Waits(HelloBytes(retries, hello), |HelloBytes(retries, hello)|)
  {
    hide ServerHello, Message, Messages, RetryBytes;
    var all := HelloBytes(retries, hello);
    forall n | 0 <= n < |all| ensures WaitsAt(all, |all|, n) { ClearPartCut(retries, hello, n); }
  }

  lemma CertWaits(retries: seq<seq<byte>>, hello: seq<byte>, cert: seq<byte>)
    requires HelloParts(retries, hello, Tls12) && |cert| < 0x100_0000
    ensures Waits(CertBytes(retries, hello, cert), |HelloBytes(retries, hello)|)
  {
    hide ServerHello, Message, Messages, RetryBytes;
    var first, m, all := HelloBytes(retries, hello), Message(CERTIFICATE, cert), CertBytes(retries, hello, cert);
    MessageSize(CERTIFICATE, cert);
    forall n | 0 <= n < |all| ensures WaitsAt(all, |first|, n) {
      if n < |first| {
        assert all[..n] == first[..n];
        ClearPartCut(retries, hello, n);
      } else {
        var k := n - |first|;
        assert all[..n] == first + m[..k];
        HellosRead(retries, hello, Tls12, m[..k]);
        MessageCut(CERTIFICATE, cert, k);
        After12(m[..k]);
      }
    }
  }

  lemma AllClearStep(records: seq<Record>, hello: nat)
    requires records != []
    ensures var n := |records| - 1;
            AllClear(records, hello) <==> AllClear(records[..n], hello) && ClearAt(records, hello, n)
  {
    hide ClearAt;
    var n := |records| - 1;
    var front := records[..n];
    forall i | 0 <= i < n ensures ClearAt(front, hello, i) <==> ClearAt(records, hello, i) {
      ClearInFront(records, hello, n, i);
    }
  }

  lemma ClearInFront(records: seq<Record>, hello: nat, n: nat, i: nat)
    requires i < n <= |records|
    ensures ClearAt(records[..n], hello, i) <==> ClearAt(records, hello, i)
  {
    hide Handshake;
    assert records[..n][..i] == records[..i];
  }

  lemma AllBoundedStep(records: seq<Record>)
    requires records != []
    ensures var n := |records| - 1;
            AllBounded(records) <==> AllBounded(records[..n]) && BoundedAt(records, |records|)
  {
    hide BoundedAt;
    var n := |records| - 1;
    var front := records[..n];
    forall i | 0 <= i <= n ensures BoundedAt(front, i) <==> BoundedAt(records, i) { BoundedInFront(records, n, i); }
  }

  lemma BoundedInFront(records: seq<Record>, n: nat, i: nat)
    requires i <= n <= |records|
    ensures BoundedAt(records[..n], i) <==> BoundedAt(records, i)
  {
    hide Unfinished, Handshake;
    assert records[..n][..i] == records[..i];
  }

  lemma BoundedEnd(records: seq<Record>)
    ensures BoundedAt(records, |records|) <==> |Unfinished(Handshake(records))| <= MAX_HANDSHAKE_BYTES
  {
    hide Unfinished, Handshake;
    assert records[..|records|] == records;
  }

  lemma ClearlyStep(records: seq<Record>, hello: nat)
    requires records != []
    ensures var n := |records| - 1;
            Clearly(records, hello) <==>
              && Clearly(records[..n], hello) && ClearAt(records, hello, n)
              && |Unfinished(Handshake(records))| <= MAX_HANDSHAKE_BYTES
  {
    hide AllClear, AllBounded, ClearAt, BoundedAt, Unfinished, Handshake;
    AllClearStep(records, hello);
    AllBoundedStep(records);
    BoundedEnd(records);
  }

  /** While the bytes are not complete, the parser follows exactly the records that carry them. */
  lemma {:induction false} FollowedClearly(records: seq<Record>, bytes: seq<byte>, hello: nat)
    requires Waits(bytes, hello) && Handshake(records) < bytes
    ensures Followed(records) <==> Clearly(records, hello)
    decreases |records|
  {
    hide Messages, Waits, Unfinished, Clearly, ClearAt;
    if records == [] {
      ClearlyNone(hello);
    } else {
      var n := |records| - 1;
      var front, now := Handshake(records[..n]), Handshake(records);
      assert front <= now;
      FollowedClearly(records[..n], bytes, hello);
      ClearlyStep(records, hello);
      CutShort(bytes, hello, front);
      CutShort(bytes, hello, now);
      LastClear(records, hello);
      LeftIsUnfinished(Hello, now);
      LeftIsUnfinished(Hello, front);
      if records[n].kind != HANDSHAKE {
        assert now == front;
        if Clearly(records[..n], hello) { ClearlyEnd(records[..n], hello); }
      }
    }
  }

  lemma ClearlyNone(hello: nat)
    ensures Clearly([], hello)
  {
  }

  lemma ClearlyEnd(records: seq<Record>, hello: nat)
    requires Clearly(records, hello)
    ensures |Unfinished(Handshake(records))| <= MAX_HANDSHAKE_BYTES
  {
    hide BoundedAt, AllClear, Unfinished, Handshake;
    assert BoundedAt(records, |records|);
    BoundedEnd(records);
  }

  lemma LastClear(records: seq<Record>, hello: nat)
    requires records != []
    ensures var n := |records| - 1;
            ClearAt(records, hello, n) <==>
              || records[n].kind == HANDSHAKE
              || (records[n].kind == CHANGE_CIPHER_SPEC && |Handshake(records[..n])| < hello)
  {
  }

  lemma CutShort(bytes: seq<byte>, hello: nat, part: seq<byte>)
    requires Waits(bytes, hello) && part < bytes
    ensures Messages(Hello, part).0 == if |part| < hello then Hello else Tls12
  {
    hide Messages;
    assert WaitsAt(bytes, hello, |part|);
    assert bytes[..|part|] == part;
  }

  // ----- both forms agree

  lemma Prefixes(a: seq<byte>, b: seq<byte>, all: seq<byte>)
    requires a <= all && b <= all
    ensures a < b || b <= a
  {
  }

  lemma Moves13(records: seq<Record>)
    ensures Moves(records, Tls13) <==> Hellos13(records)
  {
    hide Messages, Clearly, Waits, HelloBytes, Followed, Handshake;
    if retries, hello :|
      && HelloParts(retries, hello, Tls13)
      && Completes(records, HelloBytes(retries, hello), |HelloBytes(retries, hello)|)
    {
      var bytes := HelloBytes(retries, hello);
      HelloWaits(retries, hello);
      FollowedClearly(records[..|records| - 1], bytes, |bytes|);
      assert Starts13(Handshake(records));
      Shows13(Handshake(records));
    }
    if Moves(records, Tls13) {
      var front := records[..|records| - 1];
      var retries, hello := Read13(Handshake(records));
      var bytes := HelloBytes(retries, hello);
      NotYet13(front, bytes, retries, hello);
      HandshakeGrows(records);
      Prefixes(Handshake(front), bytes, Handshake(records));
      HelloWaits(retries, hello);
      FollowedClearly(front, bytes, |bytes|);
    }
  }

  lemma HandshakeGrows(records: seq<Record>)
    requires records != []
    ensures Handshake(records[..|records| - 1]) <= Handshake(records)
  {
  }

  lemma FollowedShows(records: seq<Record>)
    requires Followed(records)
    ensures Messages(Hello, Handshake(records)).0.Clear()
  {
    hide Messages;
    if records == [] {
      NothingShown();
    } else {
      assert Handshake(records[..|records| - 1]) + [] == Handshake(records[..|records| - 1]);
    }
  }

  lemma NotYet13(front: seq<Record>, bytes: seq<byte>, retries: seq<seq<byte>>, hello: seq<byte>)
    requires Followed(front) && HelloParts(retries, hello, Tls13) && bytes == HelloBytes(retries, hello)
    ensures !(bytes <= Handshake(front))
  {
    hide Messages, HelloBytes, Followed, Handshake;
    FollowedShows(front);
    Shows13(Handshake(front));
  }

  lemma NotYet12(front: seq<Record>, retries: seq<seq<byte>>, hello: seq<byte>, cert: seq<byte>)
    requires Followed(front) && HelloParts(retries, hello, Tls12) && |cert| < 0x100_0000
    ensures !(CertBytes(retries, hello, cert) <= Handshake(front))
  {
    hide Messages, CertBytes, Followed, Handshake;
    FollowedShows(front);
    Shows12(Handshake(front));
  }

  lemma Moves12(records: seq<Record>)
    ensures Moves(records, CertificateSent) <==> Sends12(records)
  {
    hide Messages, Clearly, Waits, HelloBytes, CertBytes, Followed, Handshake;
    if retries, hello, cert :|
      && HelloParts(retries, hello, Tls12) && |cert| < 0x100_0000
      && Completes(records, CertBytes(retries, hello, cert), |HelloBytes(retries, hello)|)
    {
      var bytes := CertBytes(retries, hello, cert);
      CertWaits(retries, hello, cert);
      FollowedClearly(records[..|records| - 1], bytes, |HelloBytes(retries, hello)|);
      assert Starts12(Handshake(records));
      Shows12(Handshake(records));
    }
    if Moves(records, CertificateSent) {
      var front := records[..|records| - 1];
      var retries, hello, cert := Read12(Handshake(records));
      var bytes := CertBytes(retries, hello, cert);
      NotYet12(front, retries, hello, cert);
      HandshakeGrows(records);
      Prefixes(Handshake(front), bytes, Handshake(records));
      CertWaits(retries, hello, cert);
      FollowedClearly(front, bytes, |HelloBytes(retries, hello)|);
    }
  }

  /** A hello and change cipher spec records after it. */
  ghost predicate Hello13At(records: seq<Record>, j: nat) {
    && j <= |records| && Hellos13(records[..j])
    && forall i :: j <= i < |records| ==> records[i].kind == CHANGE_CIPHER_SPEC
  }

  lemma {:induction false} InTls13Is(records: seq<Record>)
    ensures InTls13(records) <==> exists j: nat :: Hello13At(records, j)
    decreases |records|
  {
    hide Moves, Hellos13;
    Moves13(records);
    assert records[..|records|] == records;
    if records == [] {
      MovesNothing();
    } else {
      var n := |records| - 1;
      var front := records[..n];
      InTls13Is(front);
      if InTls13(records) {
        if Moves(records, Tls13) {
          assert Hello13At(records, |records|);
        } else {
          var j: nat :| Hello13At(front, j);
          assert front[..j] == records[..j];
          assert Hello13At(records, j);
        }
      }
      if j: nat :| Hello13At(records, j) && j <= n {
        assert front[..j] == records[..j];
        assert Hello13At(front, j) && records[n].kind == CHANGE_CIPHER_SPEC;
      }
    }
  }

  lemma MovesNothing()
    ensures !Moves([], Tls13) && !Hellos13([])
  {
  }

  /** The last of these records is the one that sends the certificate. */
  ghost predicate Sends(records: seq<Record>) { Sends12(records) || Sends13(records) }

  lemma SentByLastIs(records: seq<Record>)
    ensures SentByLast(records) <==> Sends(records)
  {
    hide Moves, Hellos13, InTls13, Sends12;
    Moves12(records);
    if records != [] {
      var n := |records| - 1;
      var front := records[..n];
      InTls13Is(front);
      if records[n].kind == APPLICATION_DATA {
        if j: nat :| Hello13At(front, j) {
          assert front[..j] == records[..j] && Encrypts(records, j);
        }
        if j :| 0 <= j < |records| && Encrypts(records, j) {
          assert front[..j] == records[..j] && Hello13At(front, j);
        }
      }
    }
  }

  lemma {:induction false} SentIs(records: seq<Record>)
    ensures Sent(records) <==> exists k :: 0 <= k <= |records| && Sends(records[..k])
    decreases |records|
  {
    hide Sends, SentByLast;
    SentByLastIs(records);
    assert records[..|records|] == records;
    if records == [] {
      NothingSent();
    } else {
      var n := |records| - 1;
      var front := records[..n];
      SentIs(front);
      assert forall k :: 0 <= k <= n ==> front[..k] == records[..k];
      if k :| 0 <= k <= n && Sends(front[..k]) { assert Sends(records[..k]); }
      if k :| 0 <= k <= |records| && Sends(records[..k]) {
        if k <= n { assert Sends(front[..k]); }
      }
    }
  }

  lemma NothingSent()
    ensures !Sends([])
  {
  }

  /** Whatever bytes are written, the certificate counts as sent exactly when, for some of the whole
      records among them, the last completes a Certificate after hellos of TLS 1.2, or is encrypted
      after hellos of TLS 1.3. */
  lemma SentExactly(bytes: seq<byte>)
    ensures Feed(START, bytes).progress == CertificateSent <==>
            exists k :: 0 <= k <= |RecordsOf(bytes)| && Sends(RecordsOf(bytes)[..k])
  {
    hide Feed, Sends, Sent, RecordsOf, AfterRecords, InTls13, Followed, Holds;
    FeedIsRecords(START, bytes);
    ParserIs(RecordsOf(bytes));
    SentIs(RecordsOf(bytes));
  }
}
