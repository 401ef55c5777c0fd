/** What a ServerHello says, read from its parts: the value of `server_hello` (flight.rs) on an
    encoded message. */
module Hellos {
  import opened Bytes
  import opened Flight

  datatype Ext = Ext(kind: nat, data: seq<byte>) {
    predicate Valid() { kind <= U16_MAX && |data| <= U16_MAX }
    function Bytes(): seq<byte>
      requires Valid()
    {
      ToBe16(kind) + ToBe16(|data|) + data
    }
  }

  function ExtBytes(exts: seq<Ext>): seq<byte>
    requires forall e :: e in exts ==> e.Valid()
  {
    if exts == [] then [] else exts[0].Bytes() + ExtBytes(exts[1..])
  }

  /** A ServerHello by its parts; a TLS 1.2 server may leave the extensions out. */
  datatype Parts = Parts(version: seq<byte>, random: seq<byte>, session: seq<byte>, cipher: seq<byte>,
                         compression: byte, extensions: Option<seq<Ext>>)
  {
    predicate Valid() {
      && |version| == 2 && |random| == 32 && |session| <= 255 && |cipher| == 2
      && (extensions.Some? ==>
            && (forall e :: e in extensions.value ==> e.Valid())
            && |ExtBytes(extensions.value)| <= U16_MAX)
    }

    function Front(): seq<byte>
      requires Valid()
    {
      version + random + [|session|] + session + cipher + [compression]
    }

    function Bytes(): seq<byte>
      requires Valid()
    {
      match extensions
      case None => Front()
      case Some(exts) => Front() + ToBe16(|ExtBytes(exts)|) + ExtBytes(exts)
    }
  }

  // ----- what the extensions mean

  /** The last supported_versions extension selects TLS 1.3. */
  ghost predicate Selects13(exts: seq<Ext>) {
    exists i :: 0 <= i < |exts| && exts[i].kind == 43 && exts[i].data == [3, 4]
        && NoVersionAfter(exts, i)
  }

  ghost predicate NoVersionAfter(exts: seq<Ext>, i: nat) {
    forall j :: i < j < |exts| ==> exts[j].kind != 43
  }

  ghost predicate HasVersion(exts: seq<Ext>) { exists i :: 0 <= i < |exts| && exts[i].kind == 43 }

  /** Some extension accepts a pre-shared key. */
  ghost predicate Resumes(exts: seq<Ext>) { exists i :: 0 <= i < |exts| && exts[i].kind == 41 }

  /** What the hello starts: a retry request leaves the parser waiting, TLS 1.3 has a certificate
      unless it resumes a session, and anything else readable is TLS 1.2. */
  ghost function Meaning(h: Parts): Progress {
    if h.random == HELLO_RETRY_REQUEST then Hello
    else if h.extensions.None? || !Selects13(h.extensions.value) then Tls12
    else if Resumes(h.extensions.value) then NoCertificate
    else Tls13
  }

  // ----- the loop over the extensions

  lemma OneExtension(e: Ext, more: seq<byte>, tls13: bool, resumed: bool)
    requires e.Valid()
    ensures Extensions(e.Bytes() + more, tls13, resumed)
         == Extensions(more, if e.kind == SUPPORTED_VERSIONS then e.data == [3, 4] else tls13,
                       resumed || e.kind == PRE_SHARED_KEY)
  {
    hide Be16;
    var all, n := e.Bytes() + more, |e.data|;
    assert all[0] == ToBe16(e.kind)[0] && all[1] == ToBe16(e.kind)[1];
    assert all[2] == ToBe16(n)[0] && all[3] == ToBe16(n)[1];
    assert all[4..4 + n] == e.data && all[4 + n..] == more;
  }

  lemma MeaningOfFirst(exts: seq<Ext>)
    requires exts != []
    ensures var e, rest := exts[0], exts[1..];
            && (HasVersion(exts) <==> e.kind == SUPPORTED_VERSIONS || HasVersion(rest))
            && (Selects13(exts) <==>
                  if HasVersion(rest) then Selects13(rest) else e.kind == SUPPORTED_VERSIONS && e.data == [3, 4])
            && (Resumes(exts) <==> e.kind == PRE_SHARED_KEY || Resumes(rest))
  {
    FirstVersion(exts);
    FirstSelects(exts);
    FirstResumes(exts);
  }

  lemma FirstVersion(exts: seq<Ext>)
    requires exts != []
    ensures HasVersion(exts) <==> exts[0].kind == SUPPORTED_VERSIONS || HasVersion(exts[1..])
  {
    var rest := exts[1..];
    if HasVersion(rest) {
      var i :| 0 <= i < |rest| && rest[i].kind == SUPPORTED_VERSIONS;
      assert exts[i + 1].kind == SUPPORTED_VERSIONS;
    }
    if i :| 0 <= i < |exts| && exts[i].kind == SUPPORTED_VERSIONS && i > 0 {
      assert rest[i - 1].kind == SUPPORTED_VERSIONS;
    }
  }

  lemma FirstResumes(exts: seq<Ext>)
    requires exts != []
    ensures Resumes(exts) <==> exts[0].kind == PRE_SHARED_KEY || Resumes(exts[1..])
  {
    var rest := exts[1..];
    if Resumes(rest) {
      var i :| 0 <= i < |rest| && rest[i].kind == PRE_SHARED_KEY;
      assert exts[i + 1].kind == PRE_SHARED_KEY;
    }
    if i :| 0 <= i < |exts| && exts[i].kind == PRE_SHARED_KEY && i > 0 {
      assert rest[i - 1].kind == PRE_SHARED_KEY;
    }
  }

  lemma LaterVersions(exts: seq<Ext>, i: nat)
    requires 0 < i < |exts|
    ensures NoVersionAfter(exts, i) <==> NoVersionAfter(exts[1..], i - 1)
  {
    var rest := exts[1..];
    assert forall j :: i < j < |exts| ==> exts[j] == rest[j - 1];
    assert forall j :: i - 1 < j < |rest| ==> rest[j] == exts[j + 1];
  }

  lemma FirstSelects(exts: seq<Ext>)
    requires exts != []
    ensures var e, rest := exts[0], exts[1..];
            Selects13(exts) <==>
              if HasVersion(rest) then Selects13(rest) else e.kind == SUPPORTED_VERSIONS && e.data == [3, 4]
  {
    hide NoVersionAfter;
    var rest := exts[1..];
    NoneAfterFirst(exts);
    if i :| 0 < i < |exts| && exts[i].kind == SUPPORTED_VERSIONS && exts[i].data == [3, 4] && NoVersionAfter(exts, i) {
      LaterVersions(exts, i);
      assert rest[i - 1].kind == SUPPORTED_VERSIONS && rest[i - 1].data == [3, 4];
    }
    if Selects13(rest) {
      var i :| 0 <= i < |rest| && rest[i].kind == SUPPORTED_VERSIONS && rest[i].data == [3, 4]
          && NoVersionAfter(rest, i);
      LaterVersions(exts, i + 1);
      assert exts[i + 1] == rest[i];
    }
  }

  lemma NoneAfterFirst(exts: seq<Ext>)
    requires exts != []
    ensures NoVersionAfter(exts, 0) <==> !HasVersion(exts[1..])
  {
    var rest := exts[1..];
    assert forall j :: 0 < j < |exts| ==> exts[j] == rest[j - 1];
    assert forall j :: 0 <= j < |rest| ==> rest[j] == exts[j + 1];
  }

  /** The loop reads a well-formed list to its end, and what it has collected is the meaning. */
  lemma {:induction false} ExtensionsRead(exts: seq<Ext>, tls13: bool, resumed: bool)
    requires forall e :: e in exts ==> e.Valid()
    ensures Extensions(ExtBytes(exts), tls13, resumed)
         == Some((if HasVersion(exts) then Selects13(exts) else tls13, resumed || Resumes(exts)))
  {
    if exts != [] {
      hide Extensions, HasVersion, Selects13, Resumes;
      var e, rest := exts[0], exts[1..];
      var t, r := if e.kind == SUPPORTED_VERSIONS then e.data == [3, 4] else tls13, resumed || e.kind == PRE_SHARED_KEY;
      OneExtension(e, ExtBytes(rest), tls13, resumed);
      ExtensionsRead(rest, t, r);
      MeaningOfFirst(exts);
    }
  }

  lemma SelectsHasVersion(exts: seq<Ext>)
    ensures Selects13(exts) ==> HasVersion(exts)
  {
  }

  // ----- the whole message

  lemma FrontRead(h: Parts, more: seq<byte>)
    requires h.Valid()
    ensures var body, n := h.Front() + more, 38 + |h.session|;
            && |h.Front()| == n && body[2..34] == h.random && body[34] as int == |h.session| && body[n..] == more
  {
    var f := h.version + h.random + [|h.session|];
    assert (h.Front() + more)[..35] == f;
    assert (h.Front() + more)[34] == f[34];
    assert f[2..34] == h.random;
  }

  /** `server_hello` gives the meaning of every ServerHello, whatever its version, session
      identifier, cipher suite and other extensions, and whatever follows the extensions. */
  lemma ServerHelloRead(h: Parts, more: seq<byte>)
    requires h.Valid() && (h.extensions.None? ==> more == [])
    ensures ServerHello(h.Bytes() + more) == Meaning(h)
  {
    hide Extensions, Selects13, Resumes, Parts.Front, Be16;
    match h.extensions
    case None =>
      assert h.Bytes() + more == h.Front() + [];
      FrontRead(h, []);
    case Some(exts) =>
      var list := ExtBytes(exts);
      var rest := ToBe16(|list|) + list + more;
      assert h.Bytes() + more == h.Front() + rest;
      FrontRead(h, rest);
      assert rest[0] == ToBe16(|list|)[0] && rest[1] == ToBe16(|list|)[1];
      assert rest[2..2 + |list|] == list;
      ExtensionsRead(exts, false, false);
      SelectsHasVersion(exts);
  }

  /** A ServerHello cut short is no certificate, unless the cut leaves all of a retry request's
      random, or just the extensions are missing. */
  lemma ServerHelloCut(h: Parts, n: nat)
    requires h.Valid() && n < |h.Bytes()|
    ensures ServerHello(h.Bytes()[..n]) ==
              if h.random == HELLO_RETRY_REQUEST && 34 <= n then Hello
              else if n == |h.Front()| then Tls12
              else NoCertificate
  {
    hide Extensions, Be16;
    var all := h.Bytes();
    var body, front := all[..n], |h.Front()|;
    var more := all[front..];
    assert all == h.Front() + more;
    FrontRead(h, more);
    if n >= 34 {
      assert body[2..34] == all[2..34];
    }
    if n >= front + 2 {
      var list := ExtBytes(h.extensions.value);
      var rest := body[front..];
      assert more == ToBe16(|list|) + list;
      assert rest[0] == more[0] == ToBe16(|list|)[0] && rest[1] == more[1] == ToBe16(|list|)[1];
    }
  }
}
