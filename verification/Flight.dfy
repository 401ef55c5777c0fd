/** Following the proxy's side of a TLS handshake (flight.rs): an incremental parser of the
    records written to the client that tells when the certificate has been written in full. */
module Flight {
  import opened Bytes

  const CHANGE_CIPHER_SPEC: byte := 20
  const HANDSHAKE: byte := 22
  const APPLICATION_DATA: byte := 23

  const SERVER_HELLO: byte := 2
  const CERTIFICATE: byte := 11

  const PRE_SHARED_KEY: nat := 41
  const SUPPORTED_VERSIONS: nat := 43

  /** The `random` of a HelloRetryRequest (section 4.1.3 of RFC 8446). */
  const HELLO_RETRY_REQUEST: seq<byte> := [
    0xcf, 0x21, 0xad, 0x74, 0xe5, 0x9a, 0x61, 0x11, 0xbe, 0x1d, 0x8c, 0x02, 0x1e, 0x65, 0xb8, 0x91,
    0xc2, 0xa2, 0x11, 0x16, 0x7a, 0xbb, 0x8c, 0x5e, 0x07, 0x9e, 0x09, 0xe2, 0xc8, 0xa8, 0x33, 0x9c]

  const MAX_HANDSHAKE_BYTES: nat := 16 * 1024

  datatype Progress = Hello | Tls13 | Tls12 | CertificateSent | NoCertificate {
    predicate Watching() { Hello? || Tls13? || Tls12? }
    /** Handshake messages are still sent in the clear. */
    predicate Clear() { Hello? || Tls12? }
  }

  function Be24(a: byte, b: byte, c: byte): nat {
    var x: int, y: int, z: int := a, b, c;
    65536 * x + 256 * y + z
  }

  // ----- ServerHello

  /** Whether the extensions say TLS 1.3 and whether they accept a pre-shared key; `None` when
      they cannot be read. */
  function Extensions(rest: seq<byte>, tls13: bool, resumed: bool): Option<(bool, bool)>
    decreases |rest|
  {
    if rest == [] then Some((tls13, resumed))
    else if |rest| < 4 || |rest| < 4 + Be16(rest[2], rest[3]) then None
    else
      var kind, len := Be16(rest[0], rest[1]), Be16(rest[2], rest[3]);
      Extensions(rest[4 + len..],
                 if kind == SUPPORTED_VERSIONS then rest[4..4 + len] == [3, 4] else tls13,
                 resumed || kind == PRE_SHARED_KEY)
  }

  function Outcome(read: Option<(bool, bool)>): Progress {
    match read
    case None => NoCertificate
    case Some((tls13, resumed)) => if !tls13 then Tls12 else if resumed then NoCertificate else Tls13
  }

  /** What a ServerHello with this body starts. */
  function ServerHello(body: seq<byte>): Progress {
    if |body| < 34 then NoCertificate
    else if body[2..34] == HELLO_RETRY_REQUEST then Hello
    else if |body| < 35 || |body| < 38 + body[34] as int then NoCertificate
    else
      var rest := body[38 + body[34] as int..];
      if rest == [] then Tls12
      else if |rest| < 2 || |rest| < 2 + Be16(rest[0], rest[1]) then NoCertificate
      else Outcome(Extensions(rest[2..2 + Be16(rest[0], rest[1])], false, false))
  }

  /** `server_hello`: the loop over the extensions. */
  method ReadServerHello(body: seq<byte>) returns (r: Progress)
    ensures r == ServerHello(body)
  {
    if |body| < 34 {
      return NoCertificate;
    }
    if body[2..34] == HELLO_RETRY_REQUEST {
      return Hello;
    }
    if |body| < 35 || |body| < 38 + body[34] as int {
      return NoCertificate;
    }
    var rest := body[38 + body[34] as int..];
    if rest == [] {
      return Tls12;
    }
    if |rest| < 2 || |rest| < 2 + Be16(rest[0], rest[1]) {
      return NoCertificate;
    }
    rest := rest[2..2 + Be16(rest[0], rest[1])];
    ghost var all := rest;
    var tls13, resumed := false, false;
    while rest != []
      invariant Extensions(rest, tls13, resumed) == Extensions(all, false, false)
      decreases |rest|
    {
      if |rest| < 4 || |rest| < 4 + Be16(rest[2], rest[3]) {
        return NoCertificate;
      }
      var kind, len := Be16(rest[0], rest[1]), Be16(rest[2], rest[3]);
      if kind == SUPPORTED_VERSIONS {
        tls13 := rest[4..4 + len] == [3, 4];
      } else if kind == PRE_SHARED_KEY {
        resumed := true;
      }
      rest := rest[4 + len..];
    }
    r := Outcome(Some((tls13, resumed)));
  }

  // ----- handshake messages

  /** The progress one message shows. */
  function MessageProgress(progress: Progress, kind: byte, body: seq<byte>): Progress {
    if progress == Hello && kind == SERVER_HELLO then ServerHello(body)
    else if progress == Tls12 && kind == CERTIFICATE then CertificateSent
    else NoCertificate
  }

  /** Whether a whole message starts the bytes. */
  predicate HasMessage(bytes: seq<byte>) {
    |bytes| >= 4 && |bytes| >= 4 + Be24(bytes[1], bytes[2], bytes[3])
  }

  function MessageLen(bytes: seq<byte>): (n: nat)
    requires HasMessage(bytes)
    ensures 4 <= n <= |bytes|
  {
    4 + Be24(bytes[1], bytes[2], bytes[3])
  }

  /** The whole messages at the start of the bytes: the progress they show and what is left
      of the bytes. Messages after one that ends the clear part are not looked at, and the
      bytes are then kept. */
  function Messages(progress: Progress, bytes: seq<byte>): (Progress, seq<byte>)
    decreases |bytes|
  {
    if !HasMessage(bytes) then (progress, bytes)
    else
      var n := MessageLen(bytes);
      var p := MessageProgress(progress, bytes[0], bytes[4..n]);
      if p.Clear() then Messages(p, bytes[n..]) else (p, bytes[n..])
  }

  function TooMuch(p: Progress, left: seq<byte>): Progress {
    if p.Clear() && |left| > MAX_HANDSHAKE_BYTES then NoCertificate else p
  }

  // ----- records, byte by byte

  /** The parser's state. */
  datatype State = State(progress: Progress, header: seq<byte>, headerLen: nat, remaining: nat, handshake: seq<byte>) {
    predicate Valid() {
      && |header| == 5
      && headerLen <= 5
      && (headerLen == 5 ==> remaining > 0)
      && (!progress.Watching() ==> handshake == [])
    }
    predicate Collects() { |header| == 5 && header[0] == HANDSHAKE && progress.Clear() }
  }

  const START := State(Hello, [0, 0, 0, 0, 0], 0, 0, [])

  /** The record just written in full moves the progress on. */
  function RecordWritten(s: State): State
    requires |s.header| == 5
  {
    var kind := s.header[0];
    var (p, left) := Messages(s.progress, s.handshake);
    var after :=
      if kind == HANDSHAKE && s.progress.Clear() then TooMuch(p, left)
      else if kind == CHANGE_CIPHER_SPEC && (s.progress.Hello? || s.progress.Tls13?) then s.progress
      else if kind == APPLICATION_DATA && s.progress.Tls13? then CertificateSent
      else NoCertificate;
    s.(progress := after,
       headerLen := 0,
       handshake := if !after.Watching() then []
                    else if kind == HANDSHAKE && s.progress.Clear() && after.Clear() then left
                    else s.handshake)
  }

  /** One more byte written. */
  function Step(s: State, b: byte): (r: State)
    requires s.Valid()
    ensures r.Valid()
  {
    if !s.progress.Watching() then s
    else if s.headerLen < 5 then
      var h := s.(header := s.header[s.headerLen := b], headerLen := s.headerLen + 1);
      if h.headerLen < 5 then h
      else
        var len := Be16(h.header[3], h.header[4]);
        if len == 0 then RecordWritten(h.(remaining := 0)) else h.(remaining := len)
    else
      var t := s.(remaining := s.remaining - 1, handshake := if s.Collects() then s.handshake + [b] else s.handshake);
      if t.remaining == 0 then RecordWritten(t) else t
  }

  function Feed(s: State, bytes: seq<byte>): (r: State)
    requires s.Valid()
    ensures r.Valid()
    decreases |bytes|
  {
    if bytes == [] then s else Feed(Step(s, bytes[0]), bytes[1..])
  }

  /** How writes are chopped makes no difference: two writes are one longer write. */
  lemma {:induction false} FeedSplit(s: State, a: seq<byte>, b: seq<byte>)
    requires s.Valid()
    ensures Feed(s, a + b) == Feed(Feed(s, a), b)
    decreases |a|
  {
    hide Step;
    if a == [] {
      assert a + b == b;
    } else {
      FeedSplit(Step(s, a[0]), a[1..], b);
      assert (a + b)[1..] == a[1..] + b;
    }
  }

  lemma {:induction false} FeedOver(s: State, bytes: seq<byte>)
    requires s.Valid() && !s.progress.Watching()
    ensures Feed(s, bytes) == s
  {
    if bytes != [] { FeedOver(s, bytes[1..]); }
  }

  /** Header bytes that do not complete the header are only kept. */
  lemma {:induction false} FeedHeader(s: State, bytes: seq<byte>)
    requires s.Valid() && s.progress.Watching() && s.headerLen + |bytes| < 5
    ensures Feed(s, bytes) ==
            s.(header := s.header[..s.headerLen] + bytes + s.header[s.headerLen + |bytes|..],
               headerLen := s.headerLen + |bytes|)
    decreases |bytes|
  {
    if bytes == [] {
      assert s.header == s.header[..s.headerLen] + bytes + s.header[s.headerLen..];
    } else {
      var t := Step(s, bytes[0]);
      FeedHeader(t, bytes[1..]);
      assert t.header[..t.headerLen] + bytes[1..] == s.header[..s.headerLen] + bytes;
      assert t.header[t.headerLen + |bytes[1..]|..] == s.header[s.headerLen + |bytes|..];
    }
  }

  /** Bytes of a record that do not complete it are only counted and, in the clear, kept. */
  lemma {:induction false} FeedPart(s: State, bytes: seq<byte>)
    requires s.Valid() && s.progress.Watching() && s.headerLen == 5 && |bytes| < s.remaining
    ensures Feed(s, bytes) ==
            s.(remaining := s.remaining - |bytes|,
               handshake := if s.Collects() then s.handshake + bytes else s.handshake)
    decreases |bytes|
  {
    if bytes == [] {
      assert s.handshake + bytes == s.handshake;
    } else {
      var t := Step(s, bytes[0]);
      FeedPart(t, bytes[1..]);
      assert s.handshake + [bytes[0]] + bytes[1..] == s.handshake + bytes;
    }
  }

  /** The rest of a record completes it. */
  lemma FeedRest(s: State, bytes: seq<byte>)
    requires s.Valid() && s.progress.Watching() && s.headerLen == 5 && |bytes| == s.remaining
    ensures Feed(s, bytes) ==
            RecordWritten(s.(remaining := 0, handshake := if s.Collects() then s.handshake + bytes else s.handshake))
  {
    hide RecordWritten;
    var n := |bytes| - 1;
    assert bytes == bytes[..n] + [bytes[n]];
    FeedPart(s, bytes[..n]);
    FeedSplit(s, bytes[..n], [bytes[n]]);
    FeedOne(Feed(s, bytes[..n]), bytes[n]);
    assert s.handshake + bytes[..n] + [bytes[n]] == s.handshake + bytes;
  }

  lemma FeedOne(s: State, b: byte)
    requires s.Valid()
    ensures Feed(s, [b]) == Step(s, b)
  {
    var one: seq<byte> := [b];
    assert one[1..] == [];
    assert Feed(s, one) == Feed(Step(s, b), one[1..]);
  }

  /** The rest of a header gives the length of the record, and completes an empty one. */
  lemma FeedHeaderRest(s: State, bytes: seq<byte>)
    requires s.Valid() && s.progress.Watching() && s.headerLen + |bytes| == 5 && bytes != []
    ensures var h := s.header[..s.headerLen] + bytes;
            var len := Be16(h[3], h[4]);
            var t := s.(header := h, headerLen := 5, remaining := len);
            Feed(s, bytes) == if len == 0 then RecordWritten(t) else t
  {
    hide RecordWritten;
    var n := |bytes| - 1;
    assert bytes == bytes[..n] + [bytes[n]];
    FeedHeader(s, bytes[..n]);
    FeedSplit(s, bytes[..n], [bytes[n]]);
    FeedOne(Feed(s, bytes[..n]), bytes[n]);
    var h := s.header[..s.headerLen] + bytes;
    assert Feed(s, bytes[..n]).header[4 := bytes[n]] == h;
  }

  /** `Records`: the parser with its fields updated by each write. */
  class Records {
    var progress: Progress
    var header: seq<byte>
    var headerLen: nat
    var remaining: nat
    var handshake: seq<byte>

    ghost function Now(): State
      reads this
    {
      State(progress, header, headerLen, remaining, handshake)
    }

    constructor ()
      ensures Now() == START && Now().Valid()
    {
      progress, header, headerLen, remaining, handshake := Hello, [0, 0, 0, 0, 0], 0, 0, [];
    }

    /** `handshake_messages`: the loop over the whole messages. */
    method HandshakeMessages() returns (p: Progress)
      requires progress.Clear()
      modifies this`handshake
      ensures var (shown, left) := Messages(old(progress), old(handshake));
              && p == TooMuch(shown, left)
              && handshake == if shown.Clear() then left else old(handshake)
    {
      hide MessageProgress;
      p := progress;
      var used := 0;
      assert handshake[0..] == handshake;
      while HasMessage(handshake[used..])
        invariant 0 <= used <= |handshake| && handshake == old(handshake)
        invariant p.Clear() && Messages(p, handshake[used..]) == Messages(old(progress), old(handshake))
        decreases |handshake| - used
      {
        var rest := handshake[used..];
        var n := MessageLen(rest);
        assert rest[n..] == handshake[used + n..];
        ghost var before := p;
        if p == Hello && rest[0] == SERVER_HELLO {
          p := ReadServerHello(rest[4..n]);
        } else if p == Tls12 && rest[0] == CERTIFICATE {
          p := CertificateSent;
        } else {
          p := NoCertificate;
        }
        MessageShows(before, rest[0], rest[4..n], p);
        used := used + n;
        if !p.Clear() {
          return;
        }
      }
      handshake := handshake[used..];
      if |handshake| > MAX_HANDSHAKE_BYTES {
        return NoCertificate;
      }
    }

    /** `record_written`. */
    method Complete()
      requires |header| == 5 && progress.Watching()
      modifies this
      ensures progress.Watching() ==> Now() == RecordWritten(old(Now()))
      ensures !progress.Watching() ==> Now().(handshake := []) == RecordWritten(old(Now()))
    {
      hide Messages;
      headerLen := 0;
      if header[0] == HANDSHAKE && progress.Clear() {
        progress := HandshakeMessages();
      } else if header[0] == CHANGE_CIPHER_SPEC && (progress.Hello? || progress.Tls13?) {
      } else if header[0] == APPLICATION_DATA && progress.Tls13? {
        progress := CertificateSent;
      } else {
        progress := NoCertificate;
      }
    }

    /** The state is that after these bytes; a watch that ended keeps no message. */
    ghost predicate Follows(was: State, bytes: seq<byte>)
      requires was.Valid()
      reads this
    {
      |header| == 5 && Feed(was, bytes) == if progress.Watching() then Now() else Now().(handshake := [])
    }

    /** Bytes of a record header. */
    method HeaderBytes(rest: seq<byte>) returns (n: nat)
      requires Now().Valid() && progress.Watching() && headerLen < 5 && rest != []
      modifies this
      ensures 0 < n <= |rest| && Follows(old(Now()), rest[..n])
    {
      hide RecordWritten, Feed, Step;
      n := if 5 - headerLen < |rest| then 5 - headerLen else |rest|;
      if headerLen + n < 5 { FeedHeader(Now(), rest[..n]); } else { FeedHeaderRest(Now(), rest[..n]); }
      header := header[..headerLen] + rest[..n] + header[headerLen + n..];
      headerLen := headerLen + n;
      if headerLen == 5 {
        assert header == old(header)[..old(headerLen)] + rest[..n];
        remaining := Be16(header[3], header[4]);
        if remaining == 0 {
          Complete();
        }
      }
    }

    /** Bytes of a record's fragment. */
    method FragmentBytes(rest: seq<byte>) returns (n: nat)
      requires Now().Valid() && progress.Watching() && headerLen == 5 && rest != []
      modifies this
      ensures 0 < n <= |rest| && Follows(old(Now()), rest[..n])
    {
      hide RecordWritten, Feed, Step;
      n := if remaining < |rest| then remaining else |rest|;
      if n < remaining { FeedPart(Now(), rest[..n]); } else { FeedRest(Now(), rest[..n]); }
      assert Now().Collects() <==> header[0] == HANDSHAKE && progress.Clear();
      if header[0] == HANDSHAKE && progress.Clear() {
        handshake := handshake + rest[..n];
      }
      remaining := remaining - n;
      if remaining == 0 {
        Complete();
      }
    }

    /** `written`: any number of bytes at a time, with the same effect as one by one. */
    method Written(bytes: seq<byte>)
      requires Now().Valid()
      modifies this
      ensures Now() == Feed(old(Now()), bytes) && Now().Valid()
    {
      hide RecordWritten, Feed, Step;
      var rest := bytes;
      ghost var done: seq<byte> := [];
      FeedNone(Now());
      while rest != [] && progress.Watching()
        invariant bytes == done + rest
        invariant Follows(old(Now()), done)
        decreases |rest|
      {
        assert Now().Valid();
        var n;
        if headerLen < 5 {
          n := HeaderBytes(rest);
        } else {
          n := FragmentBytes(rest);
        }
        FeedSplit(old(Now()), done, rest[..n]);
        assert rest == rest[..n] + rest[n..];
        done := done + rest[..n];
        rest := rest[n..];
      }
      if !progress.Watching() {
        handshake := [];
        FeedSplit(old(Now()), done, rest);
        FeedOver(Now(), rest);
      } else {
        assert done + rest == done;
      }
    }
  }

  lemma MessageShows(before: Progress, kind: byte, body: seq<byte>, p: Progress)
    requires p == if before == Hello && kind == SERVER_HELLO then ServerHello(body)
                  else if before == Tls12 && kind == CERTIFICATE then CertificateSent
                  else NoCertificate
    ensures p == MessageProgress(before, kind, body)
  {
  }

  lemma FeedNone(s: State)
    requires s.Valid()
    ensures Feed(s, []) == s
  {
  }

  // ----- whole records

  /** A TLS record: kind, version, length and fragment. */
  datatype Record = Record(kind: byte, version: (byte, byte), fragment: seq<byte>)

  predicate Sendable(r: Record) { |r.fragment| < 65536 }

  function RecordBytes(r: Record): (b: seq<byte>)
    requires Sendable(r)
    ensures |b| == 5 + |r.fragment|
  {
    [r.kind, r.version.0, r.version.1, |r.fragment| / 256, |r.fragment| % 256] + r.fragment
  }

  function Flow(records: seq<Record>): seq<byte>
    requires forall r :: r in records ==> Sendable(r)
  {
    if records == [] then [] else Flow(records[..|records| - 1]) + RecordBytes(records[|records| - 1])
  }

  /** Between records. */
  predicate AtBoundary(s: State) { s.Valid() && s.headerLen == 0 }

  /** What the parser makes of a whole record. */
  function AfterRecord(s: State, r: Record): (t: State)
    requires AtBoundary(s) && Sendable(r)
  {
    if !s.progress.Watching() then s
    else
      RecordWritten(State(s.progress, RecordBytes(r)[..5], 5, 0,
                          if r.kind == HANDSHAKE && s.progress.Clear() then s.handshake + r.fragment else s.handshake))
  }

  /** A whole record moves the parser from one boundary to the next. */
  lemma FeedRecord(s: State, r: Record)
    requires AtBoundary(s) && Sendable(r)
    ensures Feed(s, RecordBytes(r)) == AfterRecord(s, r) && AtBoundary(AfterRecord(s, r))
  {
    hide RecordWritten, Feed;
    var bytes := RecordBytes(r);
    if !s.progress.Watching() {
      FeedOver(s, bytes);
    } else {
      var h, f := bytes[..5], r.fragment;
      assert bytes == h + f && s.header[..0] + h == h;
      FeedHeaderRest(s, h);
      FeedSplit(s, h, f);
      assert Be16(h[3], h[4]) == |f|;
      if f == [] {
        FeedNone(Feed(s, h));
        assert s.handshake + f == s.handshake;
      } else {
        FeedRest(Feed(s, h), f);
      }
      BoundaryAfter(State(s.progress, h, 5, 0, AfterBytes(s, r)));
    }
  }

  function AfterBytes(s: State, r: Record): seq<byte> {
    if r.kind == HANDSHAKE && s.progress.Clear() then s.handshake + r.fragment else s.handshake
  }

  lemma BoundaryAfter(s: State)
    requires |s.header| == 5
    ensures AtBoundary(RecordWritten(s))
  {
  }

  /** Before its last byte a record does not move the progress. */
  lemma FeedRecordPrefix(s: State, r: Record, n: nat)
    requires AtBoundary(s) && Sendable(r) && n < |RecordBytes(r)|
    ensures Feed(s, RecordBytes(r)[..n]).progress == s.progress
  {
    hide RecordWritten, Feed;
    var bytes := RecordBytes(r);
    if !s.progress.Watching() {
      FeedOver(s, bytes[..n]);
    } else if n < 5 {
      FeedHeader(s, bytes[..n]);
    } else {
      var h, f := bytes[..5], r.fragment;
      FeedHeaderRest(s, h);
      assert bytes[..n] == h + f[..n - 5] && s.header[..0] + h == h;
      FeedSplit(s, h, f[..n - 5]);
      assert Be16(h[3], h[4]) == |f|;
      FeedPart(Feed(s, h), f[..n - 5]);
    }
  }

  function AfterRecords(s: State, records: seq<Record>): (t: State)
    requires AtBoundary(s) && forall r :: r in records ==> Sendable(r)
    ensures AtBoundary(t)
  {
    if records == [] then s
    else
      var n := |records| - 1;
      var before := AfterRecords(s, records[..n]);
      FeedRecord(before, records[n]);
      AfterRecord(before, records[n])
  }

  lemma {:induction false} FeedFlow(s: State, records: seq<Record>)
    requires AtBoundary(s) && forall r :: r in records ==> Sendable(r)
    ensures Feed(s, Flow(records)) == AfterRecords(s, records)
  {
    hide Feed, AfterRecord, RecordBytes;
    if records == [] {
      FeedNone(s);
    } else {
      var n := |records| - 1;
      FeedFlow(s, records[..n]);
      FeedSplit(s, Flow(records[..n]), RecordBytes(records[n]));
      FeedRecord(AfterRecords(s, records[..n]), records[n]);
    }
  }

  // ----- a TLS 1.2 flight

  /** A handshake message of this kind and body. */
  function Message(kind: byte, body: seq<byte>): seq<byte>
    requires |body| < 0x100_0000
  {
    [kind, |body| / 65536, |body| / 256 % 256, |body| % 256] + body
  }

  lemma MessageStarts(kind: byte, body: seq<byte>, more: seq<byte>)
    requires |body| < 0x100_0000
    ensures var m := Message(kind, body) + more;
            HasMessage(m) && MessageLen(m) == 4 + |body| && m[0] == kind
            && m[4..4 + |body|] == body && m[4 + |body|..] == more
  {
    var m := Message(kind, body) + more;
    assert m[1] == |body| / 65536 && m[2] == |body| / 256 % 256 && m[3] == |body| % 256;
    assert Be24(m[1], m[2], m[3]) == |body|;
  }

  lemma MessageCut(kind: byte, body: seq<byte>, n: nat)
    requires |body| < 0x100_0000 && n < 4 + |body|
    ensures !HasMessage(Message(kind, body)[..n])
  {
    var m := Message(kind, body);
    assert Be24(m[1], m[2], m[3]) == |body|;
  }

  /** The fragments joined. */
  function Joined(records: seq<Record>): seq<byte> {
    if records == [] then [] else Joined(records[..|records| - 1]) + records[|records| - 1].fragment
  }

  /** The clear flight of a full TLS 1.2 handshake: a ServerHello that starts TLS 1.2, then a
      Certificate, at most 16 KiB together. */
  datatype Flight12 = Flight12(hello: seq<byte>, certificate: seq<byte>) {
    predicate Valid() {
      && ServerHello(hello) == Tls12
      && 8 + |hello| + |certificate| <= MAX_HANDSHAKE_BYTES
    }
    function First(): seq<byte>
      requires Valid()
    {
      Message(SERVER_HELLO, hello)
    }
    function Bytes(): (b: seq<byte>)
      requires Valid()
      ensures |b| == 8 + |hello| + |certificate|
    {
      Message(SERVER_HELLO, hello) + Message(CERTIFICATE, certificate)
    }
  }

  /** What the messages written so far show, wherever they are cut. */
  lemma FlightMessages(f: Flight12, n: nat, more: seq<byte>)
    requires f.Valid() && n <= |f.Bytes()|
    ensures n < |f.First()| ==> Messages(Hello, f.Bytes()[..n]) == (Hello, f.Bytes()[..n])
    ensures |f.First()| <= n < |f.Bytes()| ==>
              Messages(Hello, f.Bytes()[..n]) == (Tls12, f.Bytes()[|f.First()|..n])
    ensures Messages(Hello, f.Bytes() + more).0 == CertificateSent
    ensures Messages(Tls12, f.Bytes()[|f.First()|..] + more).0 == CertificateSent
  {
    hide ServerHello, Message;
    var a, b := Message(SERVER_HELLO, f.hello), Message(CERTIFICATE, f.certificate);
    MessageSize(SERVER_HELLO, f.hello);
    MessageSize(CERTIFICATE, f.certificate);
    assert f.Bytes()[|a|..] == b;
    MessageStarts(CERTIFICATE, f.certificate, more);
    assert Messages(Tls12, b + more).0 == CertificateSent;
    MessageStarts(SERVER_HELLO, f.hello, b + more);
    assert f.Bytes() + more == a + (b + more);
    if n < |a| {
      MessageCut(SERVER_HELLO, f.hello, n);
      assert f.Bytes()[..n] == a[..n];
    } else if n < |f.Bytes()| {
      assert f.Bytes()[..n] == a + b[..n - |a|] && f.Bytes()[|a|..n] == b[..n - |a|];
      MessageStarts(SERVER_HELLO, f.hello, b[..n - |a|]);
      MessageCut(CERTIFICATE, f.certificate, n - |a|);
    }
  }

  lemma MessageSize(kind: byte, body: seq<byte>)
    requires |body| < 0x100_0000
    ensures |Message(kind, body)| == 4 + |body|
  {
  }

  /** While the Certificate is incomplete, the parser holds the bytes of the message being
      written and waits. */
  ghost predicate Waiting12(f: Flight12, s: State, n: nat)
    requires f.Valid()
  {
    && AtBoundary(s) && n < |f.Bytes()|
    && (if n < |f.First()| then s.progress == Hello && s.handshake == f.Bytes()[..n]
        else s.progress == Tls12 && s.handshake == f.Bytes()[|f.First()|..n])
  }

  /** A handshake record in the clear: the messages so far decide. */
  lemma HandshakeRecord(s: State, r: Record)
    requires AtBoundary(s) && s.progress.Clear() && Sendable(r) && r.kind == HANDSHAKE
    ensures var (p, left) := Messages(s.progress, s.handshake + r.fragment);
            var t := AfterRecord(s, r);
            && AtBoundary(t) && t.progress == TooMuch(p, left)
            && (t.progress.Clear() ==> t.handshake == left)
  {
    hide Messages;
    FeedRecord(s, r);
    assert RecordBytes(r)[..5][0] == HANDSHAKE;
  }

  lemma SlicesJoin(s: seq<byte>, i: nat, j: nat, k: nat)
    requires i <= j <= k <= |s|
    ensures s[i..j] + s[j..k] == s[i..k] && s[0..k] == s[..k] && s[j..|s|] == s[j..]
  {
  }

  /** Where the message being written starts. */
  ghost function From12(f: Flight12, n: nat): nat
    requires f.Valid()
  {
    if n < |f.First()| then 0 else |f.First()|
  }

  lemma NextPart12(f: Flight12, s: State, n: nat, r: Record)
    requires f.Valid() && Waiting12(f, s, n) && Sendable(r) && r.kind == HANDSHAKE
    requires n + |r.fragment| < |f.Bytes()| && r.fragment == f.Bytes()[n..n + |r.fragment|]
    ensures Waiting12(f, AfterRecord(s, r), n + |r.fragment|)
  {
    hide Messages, ServerHello, Message, AfterRecord, Flight12.First, Flight12.Bytes;
    var m := n + |r.fragment|;
    HandshakeRecord(s, r);
    SlicesJoin(f.Bytes(), From12(f, n), n, m);
    FlightMessages(f, m, []);
    if n >= |f.First()| { SecondMessage(f, m); }
  }

  lemma LastPart12(f: Flight12, s: State, n: nat, r: Record, more: seq<byte>)
    requires f.Valid() && Waiting12(f, s, n) && Sendable(r) && r.kind == HANDSHAKE
    requires r.fragment == f.Bytes()[n..] + more
    ensures AfterRecord(s, r).progress == CertificateSent
  {
    hide Messages, ServerHello, Message, AfterRecord, Flight12.First, Flight12.Bytes;
    var all, from := f.Bytes(), From12(f, n);
    HandshakeRecord(s, r);
    SlicesJoin(all, from, n, |all|);
    assert s.handshake == all[from..n];
    assert all[from..n] + (all[n..] + more) == all[from..] + more;
    FlightMessages(f, |all|, more);
    assert all[0..] == all;
  }

  /** The next handshake record either leaves the parser waiting or completes the Certificate. */
  lemma NextRecord12(f: Flight12, s: State, n: nat, r: Record)
    requires f.Valid() && Waiting12(f, s, n) && Sendable(r) && r.kind == HANDSHAKE
    requires var k := if n + |r.fragment| < |f.Bytes()| then |r.fragment| else |f.Bytes()| - n;
             r.fragment[..k] == f.Bytes()[n..n + k]
    ensures n + |r.fragment| < |f.Bytes()| ==> Waiting12(f, AfterRecord(s, r), n + |r.fragment|)
    ensures n + |r.fragment| >= |f.Bytes()| ==> AfterRecord(s, r).progress == CertificateSent
  {
    var all := f.Bytes();
    assert n < |all|;
    hide Waiting12, AfterRecord, Flight12.First, Flight12.Bytes, Sendable, Flight12.Valid;
    if n + |r.fragment| < |all| {
      assert r.fragment[..|r.fragment|] == r.fragment;
      NextPart12(f, s, n, r);
    } else {
      var k := |all| - n;
      assert r.fragment == r.fragment[..k] + r.fragment[k..] && all[n..n + k] == all[n..];
      LastPart12(f, s, n, r, r.fragment[k..]);
    }
  }

  lemma SecondMessage(f: Flight12, m: nat)
    requires f.Valid() && |f.First()| <= m < |f.Bytes()|
    ensures Messages(Tls12, f.Bytes()[|f.First()|..m]) == (Tls12, f.Bytes()[|f.First()|..m])
  {
    var a := |f.First()|;
    assert f.Bytes()[a..m] == Message(CERTIFICATE, f.certificate)[..m - a];
    MessageCut(CERTIFICATE, f.certificate, m - a);
  }

  /** Handshake records whose fragments, joined, carry the flight (and possibly more). */
  ghost predicate Carries(records: seq<Record>, f: Flight12)
    requires f.Valid()
  {
    && (forall r :: r in records ==> Sendable(r) && r.kind == HANDSHAKE)
    && (f.Bytes() <= Joined(records) || Joined(records) < f.Bytes())
  }

  lemma JoinedFront(records: seq<Record>, f: Flight12)
    requires f.Valid() && Carries(records, f) && records != []
    ensures Carries(records[..|records| - 1], f)
  {
    var front := Joined(records[..|records| - 1]);
    assert front <= Joined(records);
    var all := f.Bytes();
    if |all| <= |front| {
      assert all <= front;
    } else {
      assert front < all;
    }
  }

  lemma {:induction false} WaitsFor12(f: Flight12, records: seq<Record>)
    requires f.Valid() && Carries(records, f) && |Joined(records)| < |f.Bytes()|
    ensures Waiting12(f, AfterRecords(START, records), |Joined(records)|)
  {
    hide AfterRecord;
    if records == [] {
      assert f.Bytes()[..0] == [];
      MessageSize(SERVER_HELLO, f.hello);
    } else {
      var last := |records| - 1;
      JoinedFront(records, f);
      WaitsFor12(f, records[..last]);
      var n, r := |Joined(records[..last])|, records[last];
      assert Joined(records)[n..] == r.fragment;
      assert r.fragment == f.Bytes()[n..n + |r.fragment|];
      assert r.fragment[..|r.fragment|] == r.fragment;
      NextRecord12(f, AfterRecords(START, records[..last]), n, r);
    }
  }

  /** However a TLS 1.2 flight is split into handshake records, and however the records are
      split into writes, the certificate counts as sent exactly at the last byte of the record
      that completes the Certificate. */
  lemma Tls12CertificateSent(f: Flight12, before: seq<Record>, last: Record, cut: nat)
    requires f.Valid() && Carries(before + [last], f)
    requires |Joined(before)| < |f.Bytes()| <= |Joined(before)| + |last.fragment|
    requires cut < |RecordBytes(last)|
    ensures Feed(START, Flow(before + [last])).progress == CertificateSent
    ensures Feed(START, Flow(before) + RecordBytes(last)[..cut]).progress in {Hello, Tls12}
  {
    hide Feed, AfterRecord, RecordBytes, Message, Flight12.First, Flight12.Bytes, ServerHello;
    var all := before + [last];
    assert all[..|before|] == before && all[|before|] == last;
    JoinedFront(all, f);
    WaitsFor12(f, before);
    var n, k := |Joined(before)|, |f.Bytes()| - |Joined(before)|;
    assert last.fragment[..k] == Joined(all)[n..n + k] == f.Bytes()[n..n + k];
    var s := AfterRecords(START, before);
    NextRecord12(f, s, n, last);
    FeedFlow(START, all);
    FeedFlow(START, before);
    FeedSplit(START, Flow(before), RecordBytes(last)[..cut]);
    FeedRecordPrefix(s, last, cut);
  }

  /** More than 16 KiB of an incomplete message at the end of a record ends the watch. */
  lemma OverlongMessageEndsWatch(s: State, r: Record)
    requires AtBoundary(s) && s.progress.Clear() && Sendable(r) && r.kind == HANDSHAKE
    requires !HasMessage(s.handshake + r.fragment) && |s.handshake| + |r.fragment| > MAX_HANDSHAKE_BYTES
    ensures Feed(s, RecordBytes(r)).progress == NoCertificate
  {
    hide Feed;
    FeedRecord(s, r);
    assert RecordBytes(r)[..5][0] == HANDSHAKE;
  }
}
