/** The learning half of the interception policy (policy.rs): which hosts become certificate
    pins, and which pins are taken back. Logging is not modelled. */
module PinLearning {
  import opened Bytes
  import opened PerSecond
  import opened PinRules
  import opened PinEvidence
  import opened PinNotes

  /** `lookup_key`: lowercase, without one trailing dot and without the brackets of an address. */
  function LookupKey(host: seq<byte>): Host {
    Host(Lowercase(Bare(Undotted(host))))
  }

  function Bare(h: seq<byte>): seq<byte> {
    if |h| >= 2 && h[0] == '[' as byte && h[|h| - 1] == ']' as byte then h[1..|h| - 1] else h
  }

  function Undotted(h: seq<byte>): seq<byte> {
    if |h| > 0 && h[|h| - 1] == '.' as byte then h[..|h| - 1] else h
  }

  lemma LowercaseUndotted(h: seq<byte>)
    ensures Undotted(Lowercase(h)) == Lowercase(Undotted(h))
  {
    if |h| > 0 { LowercaseSplit(h, |h| - 1); }
  }

  lemma LowercaseBare(h: seq<byte>)
    ensures Bare(Lowercase(h)) == Lowercase(Bare(h))
  {
    var low := Lowercase(h);
    if |h| >= 2 { assert low[1..|h| - 1] == Lowercase(h[1..|h| - 1]); }
  }

  /** Spelling a host in another case, or with a dot at its end, gives the same key. */
  lemma KeyIgnoresCaseAndDot(host: seq<byte>)
    ensures LookupKey(Lowercase(host)) == LookupKey(host)
    ensures Undotted(host) == host ==> LookupKey(host + ['.' as byte]) == LookupKey(host)
  {
    LowercaseUndotted(host);
    LowercaseBare(Undotted(host));
    assert Lowercase(Lowercase(Bare(Undotted(host)))) == Lowercase(Bare(Undotted(host)));
    assert (host + ['.' as byte])[..|host|] == host;
  }

  /** The host is spelled plainly or in brackets, with or without a dot behind. */
  predicate Spells(host: seq<byte>, bare: seq<byte>) {
    var boxed := [91] + bare + [93];
    || host == boxed + [46] || host == boxed
    || (!(|bare| >= 2 && bare[0] == 91 && bare[|bare| - 1] == 93)
        && (host == bare + [46] || (host == bare && (bare == [] || bare[|bare| - 1] != 46))))
  }

  /** The key of a host is its name in lowercase, however it is spelled. */
  lemma KeyIs(host: seq<byte>, name: seq<byte>)
    ensures LookupKey(host) == Host(name) <==> exists bare :: Spells(host, bare) && name == Lowercase(bare)
  {
    hide Spells, Bare, Undotted, Lowercase;
    SpellsBare(host);
    forall bare | Spells(host, bare) ensures bare == Bare(Undotted(host)) { BareOf(host, bare); }
  }

  lemma SpellsBare(host: seq<byte>)
    ensures Spells(host, Bare(Undotted(host)))
  {
    var u := Undotted(host);
    assert host == u || host == u + [46];
    assert u == Bare(u) || u == [91] + Bare(u) + [93];
  }

  lemma BareOf(host: seq<byte>, bare: seq<byte>)
    requires Spells(host, bare)
    ensures Bare(Undotted(host)) == bare
  {
    var boxed := [91] + bare + [93];
    assert |boxed| >= 2 && boxed[|boxed| - 1] == 93 && boxed[1..|boxed| - 1] == bare;
    assert (boxed + [46])[..|boxed|] == boxed && (bare + [46])[..|bare|] == bare;
  }

  function Latest(seconds: seq<nat>): (r: nat)
    ensures forall t :: t in seconds ==> t <= r
  {
    if seconds == [] then 0
    else
      var before := Latest(seconds[..|seconds| - 1]);
      assert seconds == seconds[..|seconds| - 1] + [seconds[|seconds| - 1]];
      if seconds[|seconds| - 1] > before then seconds[|seconds| - 1] else before
  }

  /** No host, but for one, has pending refusals enough to be learned. */
  predicate Short(pending: Pending, but: Option<Host>) {
    forall h :: h in pending && but != Some(h) ==> |pending[h]| < SILENT_REFUSALS
  }

  lemma ShortBut(pending: Pending, h: Host)
    requires Short(pending, None)
    ensures Short(pending, Some(h))
  {
  }

  lemma ShortNone()
    ensures Short(map[], None)
  {
  }

  lemma ShortWithout(pending: Pending, h: Host)
    requires Short(pending, Some(h))
    ensures Short(pending - {h}, None)
  {
  }

  /** A table with one more entry, or that entry set, and perhaps without others if it was full. */
  ghost predicate OneMore<V>(before: map<Host, V>, after: map<Host, V>, h: Host, v: V, full: bool) {
    && h in after && after[h] == v
    && (forall k :: k in after && k != h ==> k in before && after[k] == before[k])
    && (!full ==> after == before[h := v])
  }

  /** `make_room` for the four tables that need it. */
  method RoomForAlerts(recent: map<Host, nat>, now: nat) returns (room: map<Host, nat>)
    requires |recent| <= MAX_RECENT_REJECTIONS
    ensures Submap(recent, room) && |room| < MAX_RECENT_REJECTIONS
    ensures (|recent| < MAX_RECENT_REJECTIONS ==> room == recent)
    ensures forall h, k :: h in recent && h !in room && Within(recent[h], now, 600) && k in room ==>
                             recent[h] <= room[k]
    ensures |recent| >= MAX_RECENT_REJECTIONS ==> forall h :: h in room ==> Within(recent[h], now, 600)
    ensures forall h, k :: h in recent && h !in room && Within(recent[h], now, 600)
                           && k in recent && k !in room && Within(recent[k], now, 600) ==>
              h == k
  {
    room := MakeRoom(recent, (at: nat) => Within(at, now, REJECTION_WINDOW_SECS), (at: nat) => at);
    SubMap(room, recent);
  }

  method RoomForRefusals(flood: map<Host, Counter>, now: nat) returns (room: map<Host, Counter>)
    requires |flood| <= MAX_RECENT_REJECTIONS
    ensures Submap(flood, room) && |room| < MAX_RECENT_REJECTIONS && (|flood| < MAX_RECENT_REJECTIONS ==> room == flood)
    ensures forall h, k :: h in flood && h !in room && Count(flood[h], now).1 > 0 && k in room ==>
              Last(flood[h]) <= Last(room[k])
    ensures |flood| >= MAX_RECENT_REJECTIONS ==> forall h :: h in room ==> Count(flood[h], now).1 > 0
    ensures forall h, k :: h in flood && h !in room && Count(flood[h], now).1 > 0
                           && k in flood && k !in room && Count(flood[k], now).1 > 0 ==>
              h == k
  {
    room := MakeRoom(flood, (c: Counter) => Count(c, now).1 > 0, (c: Counter) => Last(c));
    SubMap(room, flood);
  }

  predicate AnyWithin(seconds: seq<nat>, now: nat) { exists t :: t in seconds && Within(t, now, REJECTION_WINDOW_SECS) }

  method RoomForSeconds(pending: Pending, now: nat) returns (room: Pending)
    requires |pending| <= MAX_RECENT_REJECTIONS
    ensures Submap(pending, room) && |room| < MAX_RECENT_REJECTIONS
    ensures (|pending| < MAX_RECENT_REJECTIONS ==> room == pending)
    ensures forall h, k :: h in pending && h !in room && AnyWithin(pending[h], now) && k in room ==>
                             Latest(pending[h]) <= Latest(room[k])
    ensures |pending| >= MAX_RECENT_REJECTIONS ==> forall h :: h in room ==> AnyWithin(pending[h], now)
    ensures forall h, k :: h in pending && h !in room && AnyWithin(pending[h], now)
                           && k in pending && k !in room && AnyWithin(pending[k], now) ==>
              h == k
  {
    room := MakeRoom(pending, (seconds: seq<nat>) => AnyWithin(seconds, now), (seconds: seq<nat>) => Latest(seconds));
    SubMap(room, pending);
  }

  method RoomForTrusted(trusted: map<Host, Trusted>, now: nat) returns (room: map<Host, Trusted>)
    requires |trusted| <= MAX_RECENT_REJECTIONS
    ensures Submap(trusted, room) && |room| < MAX_RECENT_REJECTIONS
    ensures (|trusted| < MAX_RECENT_REJECTIONS ==> room == trusted)
    ensures forall h, k :: h in trusted && h !in room && Within(trusted[h].last, now, 600)
                           && k in room ==>
              trusted[h].last <= room[k].last
    ensures |trusted| >= MAX_RECENT_REJECTIONS ==> forall h :: h in room ==> Within(trusted[h].last, now, 600)
    ensures forall h, k :: h in trusted && h !in room && Within(trusted[h].last, now, 600)
                           && k in trusted && k !in room && Within(trusted[k].last, now, 600) ==>
              h == k
  {
    room := MakeRoom(trusted, (t: Trusted) => Within(t.last, now, REJECTION_WINDOW_SECS), (t: Trusted) => t.last);
    SubMap(room, trusted);
  }

  // ----- the record behind the lock

  datatype Learning = Learning(
    pins: Pins,
    recent: map<Host, nat>,
    upstream: seq<Fresh>,
    upstreamSuppressedUntil: Option<nat>,
    silentPending: Pending,
    silentHosts: map<Host, nat>,
    silentFlood: map<Host, Counter>,
    trusted: map<Host, Trusted>,
    silent: seq<Fresh>,
    silentSuppressedUntil: Option<nat>)

  /** What happened so far: how each pin came to be; the time last read, and whether it never
      went back; the evidence; the refusals and handshakes that the counters count; the last
      bursts; and whether a table was ever full when one more host came. */
  datatype History = History(
    source: Sources,
    clock: nat,
    steady: bool,
    log: Log,
    floodTimes: Times,
    trustTimes: Times,
    upstreamBurst: Option<nat>,
    silentBurst: Option<nat>,
    crowded: bool)

  ghost predicate Tables(l: Learning, g: History) {
    TablesOk(l.silentPending, l.silentFlood, g.floodTimes, l.trusted, g.trustTimes, g.log, g.clock, g.steady, g.crowded)
  }

  ghost predicate Notes(l: Learning, g: History) {
    NotesOk(l.recent, l.silentHosts, g.log, g.clock, g.steady, g.crowded)
  }

  /** What every call keeps, but for the pending refusals of one host within a call. */
  ghost predicate SoundBut(l: Learning, g: History, but: Option<Host>) {
    && Notes(l, g)
    && PinsOk(l.pins, g.source, l.upstream, l.silent, g.clock, g.steady)
    && HushOk(g.upstreamBurst, l.upstreamSuppressedUntil, g.clock, g.steady, UPSTREAM_SUPPRESS_SECS)
    && HushOk(g.silentBurst, l.silentSuppressedUntil, g.clock, g.steady, SILENT_SUPPRESS_SECS)
    && Tables(l, g)
    && Short(l.silentPending, but)
  }

  ghost predicate Sound(l: Learning, g: History) { SoundBut(l, g, None) }

  ghost function Ticked(g: History, now: nat): History { g.(clock := now, steady := g.steady && g.clock <= now) }

  lemma TickedSound(l: Learning, g: History, now: nat)
    requires Sound(l, g)
    ensures Sound(l, Ticked(g, now))
  {
    hide PinsOk, Hushed, TablesOk, NotesOk, Short;
    NotesLater(l.recent, l.silentHosts, g.log, g.clock, now, g.steady, g.crowded);
    LaterPins(l.pins, g.source, l.upstream, l.silent, g.clock, now, g.steady);
    Later(l.silentPending, l.silentFlood, g.floodTimes, l.trusted, g.trustTimes, g.log, g.clock, now, g.steady,
          g.crowded);
    if g.steady && g.clock <= now {
      HushedSuppresses(g.upstreamBurst, l.upstreamSuppressedUntil, g.clock, now, UPSTREAM_SUPPRESS_SECS);
      HushedSuppresses(g.silentBurst, l.silentSuppressedUntil, g.clock, now, SILENT_SUPPRESS_SECS);
    }
  }

  function Pruned(l: Learning, now: nat): Learning { l.(pins := Live(l.pins, now)) }

  ghost function PrunedHistory(l: Learning, g: History, now: nat): History {
    Ticked(g, now).(source := Only(g.source, Live(l.pins, now)))
  }

  lemma PrunedSound(l: Learning, g: History, now: nat)
    requires Sound(l, g)
    ensures Sound(Pruned(l, now), PrunedHistory(l, g, now))
    ensures OthersStay(Live(l.pins, now), g.source, Pruned(l, now).pins, PrunedHistory(l, g, now).source)
  {
    hide PinsOk, HushOk, TablesOk, NotesOk, Short, Only;
    TickedSound(l, g, now);
    var g' := Ticked(g, now);
    PruneOthersStay(Live(l.pins, now), g.source);
    FewerPins(l.pins, g'.source, l.upstream, l.silent, g'.clock, g'.steady, Live(l.pins, now));
  }

  /** What is forgotten when a host becomes a pin. */
  function WithoutRefusals(l: Learning, host: Host): Learning {
    l.(silentPending := l.silentPending - {host}, silentFlood := l.silentFlood - {host})
  }

  ghost function LearnedHistory(g: History, host: Host, s: Source): History {
    g.(source := g.source[host := s], floodTimes := g.floodTimes - {host}, log := g.log + [Learned(host)])
  }

  lemma WithoutRefusalsTables(l: Learning, g: History, host: Host, s: Source)
    requires Tables(l, g) && Short(l.silentPending, Some(host))
    ensures Tables(WithoutRefusals(l, host), LearnedHistory(g, host, s))
    ensures Short(WithoutRefusals(l, host).silentPending, None)
    ensures Notes(l, g) ==> Notes(WithoutRefusals(l, host).(recent := l.recent - {host}), LearnedHistory(g, host, s))
  {
    hide TablesOk, NotesOk, Short;
    if Notes(l, g) { NotesEnded(l.recent, l.silentHosts, g.log, g.clock, g.steady, g.crowded, Learned(host)); }
    ShortWithout(l.silentPending, host);
    HostEnded(l.silentPending, l.silentFlood, g.floodTimes, l.trusted, g.trustTimes, g.log, g.clock, g.steady,
              g.crowded, Learned(host));
  }

  // ----- alerts

  function PinnedByAlerts(l: Learning, host: Host, now: nat): Learning {
    WithoutRefusals(l, host).(pins := l.pins[host := now], recent := l.recent - {host},
                              upstream := NotOf(l.upstream, host), silent := NotOf(l.silent, host))
  }

  lemma PinnedByAlertsSound(l: Learning, g: History, host: Host)
    requires Sound(l, g) && host !in l.pins
    ensures Sound(PinnedByAlerts(l, host, g.clock), LearnedHistory(g, host, FromAlerts))
    ensures OthersStay(l.pins, g.source, PinnedByAlerts(l, host, g.clock).pins,
                       LearnedHistory(g, host, FromAlerts).source)
  {
    hide PinsOk, HushOk, TablesOk, NotesOk, Short, NotOf, OthersStay;
    ShortBut(l.silentPending, host);
    WithoutRefusalsTables(l, g, host, FromAlerts);
    LearnedFromAlerts(l.pins, g.source, l.upstream, l.silent, g.clock, g.steady, host);
    LearningOthersStay(l.pins, g.source, host, g.clock, FromAlerts);
  }

  /** The host is the second time within ten minutes the subject of an alert. */
  predicate SecondAlert(l: Learning, host: Host, now: nat) {
    host in l.recent && Within(l.recent[host], now, REJECTION_WINDOW_SECS)
  }

  /** What `record_client_rejection` does: on the history, a pin exactly at a second alert within
      ten minutes while the tables had room, and never without a first. */
  ghost predicate Rejected(l: Learning, g: History, l': Learning, g': History, host: Host, now: nat, learned: bool) {
    var p, q := Pruned(l, now), PrunedHistory(l, g, now);
    && (learned <==> host.name != [] && host !in p.pins && SecondAlert(l, host, now))
    && (learned ==> AlertBefore(g.log, host, now))
    && (!g.crowded && host.name != [] && host !in p.pins ==> (learned <==> AlertBefore(g.log, host, now)))
    && (host.name == [] ==> l' == l && g' == g)
    && (host.name != [] ==> OthersStay(p.pins, g.source, l'.pins, g'.source))
    && (host.name != [] && host in p.pins ==> l' == p && g' == q)
    && (learned ==> l' == PinnedByAlerts(p, host, now) && g' == LearnedHistory(q, host, FromAlerts))
    && (host.name != [] && host !in p.pins && !learned ==> AlertIn(p, q, l', g', host))
  }

  /** The record and the history after an alert that makes no pin. */
  ghost predicate AlertIn(l: Learning, g: History, l': Learning, g': History, host: Host) {
    && l' == l.(recent := l'.recent)
    && OneMore(l.recent, l'.recent, host, g.clock, |l.recent| >= 1024)
    && g' == g.(log := g.log + [Alert(host, g.clock)], crowded := g'.crowded)
    && (g.crowded ==> g'.crowded) && (g'.crowded ==> g.crowded || |l.recent| >= 1024)
  }

  lemma AlertElsewhere(l: Learning, g: History, l': Learning, g': History, host: Host)
    requires AlertIn(l, g, l', g', host)
    ensures OthersStay(l.pins, g.source, l'.pins, g'.source)
  {
    hide OneMore, OthersStay;
    OthersStayPut(l.pins, g.source);
  }

  /** The table tells whether there was an alert. */
  lemma SecondAlertLogged(l: Learning, g: History, host: Host, now: nat)
    requires Sound(l, g)
    ensures SecondAlert(l, host, now) ==> AlertBefore(g.log, host, now)
    ensures !g.crowded ==> (SecondAlert(l, host, now) <==> AlertBefore(g.log, host, now))
  {
    hide PinsOk, HushOk, TablesOk, Short, HangUpsOk, LastAlert;
  }

  /** The alert is remembered. */
  method NoteAlert(l: Learning, ghost g: History, host: Host, now: nat) returns (l': Learning, ghost g': History)
    requires Sound(l, g) && g.clock == now
    ensures Sound(l', g') && AlertIn(l, g, l', g', host)
    ensures host in l'.recent && l'.recent[host] == now
  {
    hide PinsOk, HushOk, TablesOk, NotesOk, Short, Within;
    NotesFit(l.recent, l.silentHosts, g.log, g.clock, g.steady, g.crowded);
    var room := RoomForAlerts(l.recent, now);
    ghost var more := room != l.recent;
    NotesAlert(l.recent, room, l.silentHosts, g.log, now, g.steady, g.crowded, host);
    TablesAside(l.silentPending, l.silentFlood, g.floodTimes, l.trusted, g.trustTimes, g.log, g.clock, g.steady,
                g.crowded, Alert(host, now));
    TablesCrowded(l.silentPending, l.silentFlood, g.floodTimes, l.trusted, g.trustTimes, g.log + [Alert(host, now)],
                  g.clock, g.steady, g.crowded, more);
    l' := l.(recent := room[host := now]);
    g' := g.(log := g.log + [Alert(host, now)], crowded := g.crowded || more);
  }

  // ----- upstream failures

  function TrimmedList(l: Learning, now: nat): Learning {
    l.(upstream := Recent(l.upstream, now, UPSTREAM_RECENT_SECS))
  }

  /** The listed upstream pins of the last minute. */
  function Burst(l: Learning, now: nat): seq<Fresh> { Recent(l.upstream, now, UPSTREAM_BURST_SECS) }

  /** This failure would make three hosts within a minute. */
  predicate IsUpstreamBurst(l: Learning, now: nat) { |HostsOf(Burst(l, now))| + 1 >= UPSTREAM_BURST_HOSTS }

  function PinnedByUpstream(l: Learning, host: Host, now: nat): Learning {
    WithoutRefusals(l, host).(pins := l.pins[host := now], recent := l.recent - {host},
                              upstream := l.upstream + [Fresh(host, now)])
  }

  function UpstreamBurstDone(l: Learning, now: nat): Learning {
    l.(pins := TakenBack(l.pins, Burst(l, now)), upstream := Older(l.upstream, now, UPSTREAM_BURST_SECS),
       upstreamSuppressedUntil := Some(now + UPSTREAM_SUPPRESS_SECS))
  }

  ghost function UpstreamBurstHistory(l: Learning, g: History): History {
    g.(source := Only(g.source, UpstreamBurstDone(l, g.clock).pins), upstreamBurst := Some(g.clock))
  }

  lemma TrimmedSound(l: Learning, g: History)
    requires Sound(l, g)
    ensures Sound(TrimmedList(l, g.clock), g)
  {
    hide PinsOk, HushOk, TablesOk, NotesOk, Short, Recent;
    TrimmedUpstream(l.pins, g.source, l.upstream, l.silent, g.clock, g.steady);
  }

  lemma PinnedByUpstreamSound(l: Learning, g: History, host: Host)
    requires Sound(l, g) && host !in l.pins && !IsUpstreamBurst(l, g.clock)
    ensures Sound(PinnedByUpstream(l, host, g.clock), LearnedHistory(g, host, FromUpstream))
    ensures OthersStay(l.pins, g.source, PinnedByUpstream(l, host, g.clock).pins,
                       LearnedHistory(g, host, FromUpstream).source)
  {
    hide PinsOk, HushOk, TablesOk, NotesOk, Short, Recent, HostsOf, OthersStay;
    ShortBut(l.silentPending, host);
    WithoutRefusalsTables(l, g, host, FromUpstream);
    LearnedFromUpstream(l.pins, g.source, l.upstream, l.silent, g.clock, g.steady, host);
    LearningOthersStay(l.pins, g.source, host, g.clock, FromUpstream);
  }

  lemma UpstreamBurstSound(l: Learning, g: History)
    requires Sound(l, g)
    ensures var l', g' := UpstreamBurstDone(l, g.clock), UpstreamBurstHistory(l, g);
            && Sound(l', g') && OthersStay(l.pins, g.source, l'.pins, g'.source)
            && (g.steady ==> NoneYoung(l'.pins, g'.source, FromUpstream, g.clock, UPSTREAM_BURST_SECS))
  {
    hide PinsOk, HushOk, TablesOk, NotesOk, Short, Recent, Older, TakenBack, Only, OthersStay, NoneYoung;
    UpstreamBurst(l.pins, g.source, l.upstream, l.silent, g.clock, g.steady);
    HushStarts(g.clock, g.steady, UPSTREAM_SUPPRESS_SECS);
  }

  /** `upstream_suppressed` clears what no longer holds. */
  function UpstreamHushKept(l: Learning, now: nat): Learning {
    if Suppresses(l.upstreamSuppressedUntil, now, UPSTREAM_SUPPRESS_SECS) then l
    else l.(upstreamSuppressedUntil := None)
  }

  lemma UpstreamHushSound(l: Learning, g: History)
    requires Sound(l, g)
    ensures Sound(UpstreamHushKept(l, g.clock), g)
    ensures g.steady && g.upstreamBurst.Some? && g.clock < g.upstreamBurst.value + UPSTREAM_SUPPRESS_SECS ==>
              Suppresses(l.upstreamSuppressedUntil, g.clock, UPSTREAM_SUPPRESS_SECS)
  {
    hide PinsOk, TablesOk, NotesOk, Short, Hushed;
    if g.steady {
      HushedSuppresses(g.upstreamBurst, l.upstreamSuppressedUntil, g.clock, g.clock, UPSTREAM_SUPPRESS_SECS);
    }
  }

  /** What `learn_upstream_untrusted` does. */
  ghost predicate UpstreamFailed(l: Learning, g: History, l': Learning, g': History, host: Host, now: nat,
                                 learned: bool) {
    var p, q := Pruned(l, now), PrunedHistory(l, g, now);
    var k := UpstreamHushKept(p, now);
    var ignored := host in p.pins || Suppresses(l.upstreamSuppressedUntil, now, UPSTREAM_SUPPRESS_SECS);
    var t := TrimmedList(k, now);
    && (host.name == [] ==> !learned && l' == l && g' == g)
    && (host.name != [] ==>
          && OthersStay(p.pins, g.source, l'.pins, g'.source)
          && (learned <==> !ignored && !IsUpstreamBurst(t, now))
          && (ignored ==> l' == p && g' == q)
          && (learned ==> l' == PinnedByUpstream(t, host, now) && g' == LearnedHistory(q, host, FromUpstream))
          && (!ignored && !learned ==>
                && l' == UpstreamBurstDone(t, now) && g' == UpstreamBurstHistory(t, q)
                && (q.steady ==> NoneYoung(l'.pins, g'.source, FromUpstream, now, UPSTREAM_BURST_SECS))))
  }

  // ----- silent refusals

  /** `note_silent_host`: whether enough hosts for a burst are refused. */
  method NoteSilentHost(hosts: map<Host, nat>, host: Host, now: nat) returns (hosts': map<Host, nat>, burst: bool)
    requires |hosts| <= MAX_RECENT_REJECTIONS
    ensures burst <==> |Refused(hosts, host, now)| >= SILENT_BURST_HOSTS
    ensures host in hosts' && Submap(Refused(hosts, host, now), hosts') && |hosts'| <= MAX_RECENT_REJECTIONS
    ensures |Refused(hosts, host, now)| <= MAX_RECENT_REJECTIONS ==> hosts' == Refused(hosts, host, now)
  {
    hide Within;
    var kept := map h | h in hosts && Within(hosts[h], now, SILENT_BURST_SECS) :: hosts[h];
    SubMap(kept, hosts);
    WithSize(kept, host, now);
    var room: map<Host, nat> := kept;
    if host !in kept {
      room := MakeRoom<nat>(kept, (at: nat) => true, (at: nat) => at);
    }
    WithSize(room, host, now);
    hosts' := room[host := now];
    burst := |hosts'| >= SILENT_BURST_HOSTS;
  }

  function SilentHushKept(l: Learning, now: nat): Learning {
    if Suppresses(l.silentSuppressedUntil, now, SILENT_SUPPRESS_SECS) then l else l.(silentSuppressedUntil := None)
  }

  lemma SilentHushSound(l: Learning, g: History)
    requires Sound(l, g)
    ensures Sound(SilentHushKept(l, g.clock), g)
    ensures g.steady && g.silentBurst.Some? && g.clock < g.silentBurst.value + SILENT_SUPPRESS_SECS ==>
              Suppresses(l.silentSuppressedUntil, g.clock, SILENT_SUPPRESS_SECS)
  {
    hide PinsOk, TablesOk, NotesOk, Short, Hushed;
    if g.steady {
      HushedSuppresses(g.silentBurst, l.silentSuppressedUntil, g.clock, g.clock, SILENT_SUPPRESS_SECS);
    }
  }

  /** `silent_burst`. */
  function SilentBurstDone(l: Learning, now: nat): Learning {
    l.(pins := TakenBack(l.pins, Recent(l.silent, now, SILENT_BURST_SECS)),
       silent := Older(l.silent, now, SILENT_BURST_SECS),
       silentPending := map[], silentFlood := map[], silentSuppressedUntil := Some(now + SILENT_SUPPRESS_SECS))
  }

  ghost function SilentBurstHistory(l: Learning, g: History, host: Host): History {
    g.(source := Only(g.source, SilentBurstDone(l, g.clock).pins), silentBurst := Some(g.clock), floodTimes := map[],
       log := g.log + [Refusal(host, g.clock, InBurst)])
  }

  lemma SilentBurstSound(l: Learning, g: History, host: Host)
    requires Sound(l, g)
    ensures var l', g' := SilentBurstDone(l, g.clock), SilentBurstHistory(l, g, host);
            && Sound(l', g') && OthersStay(l.pins, g.source, l'.pins, g'.source)
            && (g.steady ==> NoneYoung(l'.pins, g'.source, FromSilence, g.clock, SILENT_BURST_SECS))
  {
    hide PinsOk, HushOk, TablesOk, NotesOk, Short, Recent, Older, TakenBack, Only, OthersStay, NoneYoung;
    EverythingEnded(l.silentPending, l.silentFlood, g.floodTimes, l.trusted, g.trustTimes, g.log, g.clock, g.steady,
                    g.crowded, Refusal(host, g.clock, InBurst));
    NotesAside(l.recent, l.silentHosts, g.log, g.clock, g.steady, g.crowded, Refusal(host, g.clock, InBurst));
    ShortNone();
    SilentBurst(l.pins, g.source, l.upstream, l.silent, g.clock, g.steady);
    HushStarts(g.clock, g.steady, SILENT_SUPPRESS_SECS);
  }

  /** `learn_silent`. */
  function PinnedBySilence(l: Learning, host: Host, now: nat): Learning {
    WithoutRefusals(l, host).(pins := l.pins[host := now], recent := l.recent - {host},
                              upstream := NotOf(l.upstream, host),
                              silent := Recent(l.silent, now, SILENT_RECENT_SECS) + [Fresh(host, now)])
  }

  lemma PinnedBySilenceSound(l: Learning, g: History, host: Host)
    requires SoundBut(l, g, Some(host)) && host !in l.pins
    ensures Sound(PinnedBySilence(l, host, g.clock), LearnedHistory(g, host, FromSilence))
    ensures OthersStay(l.pins, g.source, PinnedBySilence(l, host, g.clock).pins,
                       LearnedHistory(g, host, FromSilence).source)
  {
    hide PinsOk, HushOk, TablesOk, NotesOk, Short, Recent, NotOf, OthersStay;
    WithoutRefusalsTables(l, g, host, FromSilence);
    LearnedFromSilence(l.pins, g.source, l.upstream, l.silent, g.clock, g.steady, host);
    LearningOthersStay(l.pins, g.source, host, g.clock, FromSilence);
  }

  /** A table had no room for this host. */
  predicate Full<V>(m: map<Host, V>, host: Host) { host !in m && |m| >= 1024 }

  /** Room for one more host with counted refusals. */
  method RoomInFlood(l: Learning, ghost g: History, host: Host, now: nat) returns (l': Learning, ghost g': History)
    requires Sound(l, g)
    ensures Sound(l', g') && l' == l.(silentFlood := l'.silentFlood)
    ensures g' == g.(floodTimes := g'.floodTimes, crowded := g'.crowded) && (g.crowded ==> g'.crowded)
    ensures !Full(l'.silentFlood, host) && Submap(l.silentFlood, l'.silentFlood)
    ensures FloodAt(l'.silentFlood, host) == FloodAt(l.silentFlood, host)
    ensures !Full(l.silentFlood, host) ==> l' == l && g'.crowded == g.crowded
  {
    hide PinsOk, HushOk, TablesOk, NotesOk, Short, Count, Last, Restrict;
    if host in l.silentFlood {
      return l, g;
    }
    TablesFit(l.silentPending, l.silentFlood, g.floodTimes, l.trusted, g.trustTimes, g.log, g.clock, g.steady,
              g.crowded);
    var room := RoomForRefusals(l.silentFlood, now);
    RoomForFlood(l.silentPending, l.silentFlood, g.floodTimes, l.trusted, g.trustTimes, g.log, g.clock, g.steady,
                 g.crowded, room);
    NotesCrowded(l.recent, l.silentHosts, g.log, g.clock, g.steady, g.crowded, room != l.silentFlood);
    l' := l.(silentFlood := room);
    g' := g.(floodTimes := Restrict(g.floodTimes, room.Keys), crowded := g.crowded || room != l.silentFlood);
  }

  /** Room for one more host with pending refusals. */
  method RoomInPending(l: Learning, ghost g: History, host: Host, now: nat) returns (l': Learning, ghost g': History)
    requires Sound(l, g)
    ensures Sound(l', g') && l' == l.(silentPending := l'.silentPending)
    ensures g' == g.(crowded := g'.crowded) && (g.crowded ==> g'.crowded)
    ensures !Full(l'.silentPending, host) && Submap(l.silentPending, l'.silentPending)
    ensures At(l'.silentPending, host) == At(l.silentPending, host)
    ensures !Full(l.silentPending, host) ==> l' == l && g' == g
  {
    hide PinsOk, HushOk, TablesOk, NotesOk, AnyWithin, Latest;
    if host in l.silentPending {
      return l, g;
    }
    TablesFit(l.silentPending, l.silentFlood, g.floodTimes, l.trusted, g.trustTimes, g.log, g.clock, g.steady,
              g.crowded);
    var room := RoomForSeconds(l.silentPending, now);
    RoomForPending(l.silentPending, l.silentFlood, g.floodTimes, l.trusted, g.trustTimes, g.log, g.clock, g.steady,
                   g.crowded, room);
    NotesCrowded(l.recent, l.silentHosts, g.log, g.clock, g.steady, g.crowded, room != l.silentPending);
    l' := l.(silentPending := room);
    g' := g.(crowded := g.crowded || room != l.silentPending);
  }

  function FateOf(l: Learning, host: Host, now: nat): Fate {
    if Guarded(l.trusted, host, now) then HeldBack else Counted
  }

  /** The log with one more refusal. */
  ghost function Said(l: Learning, g: History, host: Host): Log {
    g.log + [Refusal(host, g.clock, FateOf(l, host, g.clock))]
  }

  /** The tables after one more refusal of the host that may teach. */
  ghost predicate RefusalIn(l: Learning, g: History, l': Learning, g': History, host: Host) {
    var now := g.clock;
    && l' == l.(silentPending := l'.silentPending, silentFlood := l'.silentFlood)
    && g' == g.(log := Said(l, g, host), floodTimes := g'.floodTimes, crowded := g'.crowded)
    && OneMore(l.silentFlood, l'.silentFlood, host, Add(FloodAt(l.silentFlood, host), now), Full(l.silentFlood, host))
    && (if Guarded(l.trusted, host, now) then l'.silentPending == l.silentPending - {host}
        else OneMore(l.silentPending, l'.silentPending, host, With(Retained(At(l.silentPending, host), now), now),
                     Full(l.silentPending, host)))
    && (g.crowded ==> g'.crowded)
    && (g'.crowded ==>
          || g.crowded || Full(l.silentFlood, host)
          || (!Guarded(l.trusted, host, now) && Full(l.silentPending, host)))
  }

  lemma RefusalSound(l: Learning, g: History, host: Host)
    requires Sound(l, g) && !Full(l.silentFlood, host)
    requires (Guarded(l.trusted, host, g.clock) || !Full(l.silentPending, host))
    ensures var now := g.clock;
            var pending := if Guarded(l.trusted, host, now) then l.silentPending - {host}
                           else l.silentPending[host := With(Retained(At(l.silentPending, host), now), now)];
            && SoundBut(FloodCount(l, host, now).(silentPending := pending),
                        FloodHistory(g, Said(l, g, host), host, now), Some(host))
            && (Guarded(l.trusted, host, now) ==> Short(pending, None))
  {
    hide PinsOk, HushOk, TablesOk, NotesOk, With, Retained, At, Add, FloodAt, Guarded;
    RefusalTables(l.silentPending, l.silentFlood, g.floodTimes, l.trusted, g.trustTimes, g.log, g.clock, g.steady,
                  g.crowded, host, FateOf(l, host, g.clock));
    NotesAside(l.recent, l.silentHosts, g.log, g.clock, g.steady, g.crowded,
               Refusal(host, g.clock, FateOf(l, host, g.clock)));
  }

  /** What is counted for the host, with room made for it. */
  function FloodCount(l: Learning, host: Host, now: nat): Learning {
    l.(silentFlood := l.silentFlood[host := Add(FloodAt(l.silentFlood, host), now)])
  }

  ghost function FloodHistory(g: History, said: Log, host: Host, now: nat): History {
    g.(log := said, floodTimes := g.floodTimes[host := At(g.floodTimes, host) + [now]])
  }

  lemma RoomThenSet<V>(before: map<Host, V>, room: map<Host, V>, h: Host, v: V)
    requires Submap(before, room) && (!Full(before, h) ==> room == before)
    ensures OneMore(before, room[h := v], h, v, Full(before, h))
  {
  }

  /** A refusal that a recent handshake holds back: `count_for_flood`, and nothing stays pending. */
  method HoldBack(l: Learning, ghost g: History, host: Host, now: nat) returns (l': Learning, ghost g': History)
    requires Sound(l, g) && g.clock == now && Guarded(l.trusted, host, now)
    ensures Sound(l', g') && RefusalIn(l, g, l', g', host)
    ensures host !in l'.silentPending && l'.trusted == l.trusted
  {
    hide PinsOk, HushOk, TablesOk, NotesOk, Add, FloodAt, Retained, Submap, OneMore, Full, With, At;
    l', g' := RoomInFlood(l, g, host, now);
    RefusalSound(l', g', host);
    RoomThenSet(l.silentFlood, l'.silentFlood, host, Add(FloodAt(l.silentFlood, host), now));
    l' := FloodCount(l', host, now).(silentPending := l.silentPending - {host});
    g' := FloodHistory(g', Said(l, g, host), host, now);
  }

  lemma FewSeconds(pending: Pending, host: Host, now: nat)
    requires Short(pending, None)
    ensures |Retained(At(pending, host), now)| < SILENT_REFUSALS
  {
  }

  lemma ShortSet(pending: Pending, host: Host, seconds: seq<nat>)
    requires Short(pending, None)
    ensures |seconds| < SILENT_REFUSALS ==> Short(pending[host := seconds], None)
  {
  }

  /** Both tables have room for the host, and nothing else changed. */
  ghost predicate Roomier(l: Learning, g: History, m: Learning, h: History, host: Host) {
    && m == l.(silentPending := m.silentPending, silentFlood := m.silentFlood)
    && h == g.(floodTimes := h.floodTimes, crowded := h.crowded) && (g.crowded ==> h.crowded)
    && !Full(m.silentFlood, host) && !Full(m.silentPending, host)
    && Submap(l.silentFlood, m.silentFlood) && Submap(l.silentPending, m.silentPending)
    && FloodAt(m.silentFlood, host) == FloodAt(l.silentFlood, host)
    && At(m.silentPending, host) == At(l.silentPending, host)
    && (!Full(l.silentFlood, host) ==> m.silentFlood == l.silentFlood)
    && (!Full(l.silentPending, host) ==> m.silentPending == l.silentPending)
    && (h.crowded ==> g.crowded || Full(l.silentFlood, host) || Full(l.silentPending, host))
  }

  method RoomInBoth(l: Learning, ghost g: History, host: Host, now: nat) returns (m: Learning, ghost h: History)
    requires Sound(l, g)
    ensures Sound(m, h) && Roomier(l, g, m, h, host)
    ensures !Full(m.silentFlood, host) && !Full(m.silentPending, host)
  {
    hide SoundBut, Add, FloodAt, Submap, Full, At;
    m, h := RoomInFlood(l, g, host, now);
    m, h := RoomInPending(m, h, host, now);
  }

  function SecondsWith(l: Learning, host: Host, now: nat): seq<nat> {
    With(Retained(At(l.silentPending, host), now), now)
  }

  lemma KeptPending(l: Learning, g: History, m: Learning, h: History, host: Host)
    requires Sound(m, h) && Roomier(l, g, m, h, host) && !Guarded(l.trusted, host, g.clock)
    ensures var seconds := SecondsWith(m, host, g.clock);
            var l' := FloodCount(m, host, g.clock).(silentPending := m.silentPending[host := seconds]);
            var g' := FloodHistory(h, Said(l, g, host), host, g.clock);
            && SoundBut(l', g', Some(host)) && RefusalIn(l, g, l', g', host)
            && (|seconds| < SILENT_REFUSALS ==> Sound(l', g'))
  {
    hide PinsOk, HushOk, TablesOk, NotesOk, Add, FloodAt, Retained, Submap, OneMore, Full, At, Guarded, Short, With;
    RefusalSound(m, h, host);
    ShortSet(m.silentPending, host, SecondsWith(m, host, g.clock));
    RoomThenSet(l.silentFlood, m.silentFlood, host, Add(FloodAt(l.silentFlood, host), g.clock));
    RoomThenSet(l.silentPending, m.silentPending, host, SecondsWith(m, host, g.clock));
  }

  lemma FewPending(l: Learning, g: History, host: Host, now: nat)
    requires Sound(l, g)
    ensures |Retained(At(l.silentPending, host), now)| < SILENT_REFUSALS
  {
    FewSeconds(l.silentPending, host, now);
  }

  /** Any other: `count_for_flood`, and its second is pending. `enough` says that it is new and
      the third. */
  method KeepPending(l: Learning, ghost g: History, host: Host, now: nat)
    returns (l': Learning, ghost g': History, enough: bool)
    requires Sound(l, g) && g.clock == now && !Guarded(l.trusted, host, now)
    ensures SoundBut(l', g', Some(host)) && RefusalIn(l, g, l', g', host)
    ensures enough <==> |At(l'.silentPending, host)| >= SILENT_REFUSALS
    ensures !enough ==> Sound(l', g')
  {
    hide SoundBut, Roomier, Guarded, Add, FloodAt, Retained, RefusalIn, FloodHistory;
    l', g' := RoomInBoth(l, g, host, now);
    FewPending(l', g', host, now);
    KeptPending(l, g, l', g', host);
    var seconds := Retained(At(l'.silentPending, host), now);
    if now in seconds {
      enough := false;
    } else {
      seconds := seconds + [now];
      enough := |seconds| >= SILENT_REFUSALS;
    }
    l' := FloodCount(l', host, now).(silentPending := l'.silentPending[host := seconds]);
    g' := FloodHistory(g', Said(l, g, host), host, now);
  }

  /** What a refusal that may teach does: learns exactly by the rule on runs with a steady clock
      and room in the tables, and never without the evidence. */
  ghost predicate Considered(l: Learning, g: History, l': Learning, g': History, host: Host, learned: bool) {
    if learned then exists c, d :: PinnedFrom(l, g, c, d, l', g', host)
    else RefusalIn(l, g, l', g', host) && Justified(l, g, l', g', host, false)
  }

  ghost predicate PinnedFrom(l: Learning, g: History, c: Learning, d: History, l': Learning, g': History, host: Host) {
    && RefusalIn(l, g, c, d, host) && Justified(l, g, c, d, host, true)
    && l' == PinnedBySilence(c, host, g.clock) && g' == LearnedHistory(d, host, FromSilence)
  }

  /** The evidence for learning the host from the tables after its refusal. */
  ghost predicate Justified(l: Learning, g: History, c: Learning, d: History, host: Host, learned: bool) {
    var said, now := Said(l, g, host), g.clock;
    && (g.steady && !d.crowded ==> (learned <==> Teaches(said, host, now)))
    && (learned && !Guarded(l.trusted, host, now) ==> ThreeSeconds(said, host, now))
    && (learned && Guarded(l.trusted, host, now) ==>
          FloodOf(said, host, now, Count(CounterAt(l.trusted, host), now).0))
  }

  lemma RefusalJustified(l: Learning, g: History, c: Learning, d: History, host: Host)
    requires SoundBut(c, d, Some(host)) && RefusalIn(l, g, c, d, host)
    ensures host in c.silentFlood
    ensures Justified(l, g, c, d, host, LearnsFrom(At(c.silentPending, host), c.silentFlood, c.trusted, host, g.clock))
  {
    hide PinsOk, HushOk, TablesOk, NotesOk, Add, FloodAt, Count, Teaches, ThreeSeconds, FloodOf, IsFlood, CounterAt,
         Short, LearnsFrom;
    Decided(c.silentPending, c.silentFlood, d.floodTimes, c.trusted, d.trustTimes, d.log, d.clock, d.steady,
            d.crowded, host);
  }

  lemma CountedSound(l: Learning, g: History, c: Learning, d: History, host: Host)
    requires SoundBut(c, d, Some(host)) && RefusalIn(l, g, c, d, host) && host !in l.pins
    ensures Sound(PinnedBySilence(c, host, g.clock), LearnedHistory(d, host, FromSilence))
    ensures OthersStay(l.pins, g.source, PinnedBySilence(c, host, g.clock).pins,
                       LearnedHistory(d, host, FromSilence).source)
  {
    hide SoundBut, OthersStay, OneMore, Guarded, Said, Full, PinnedBySilence;
    PinnedBySilenceSound(c, d, host);
  }

  lemma RefusalElsewhere(l: Learning, g: History, c: Learning, d: History, host: Host)
    requires RefusalIn(l, g, c, d, host)
    ensures c.pins == l.pins && d.source == g.source && c.trusted == l.trusted && d.clock == g.clock
    ensures OthersStay(l.pins, g.source, c.pins, d.source)
  {
    hide OneMore, Add, FloodAt, Retained, OthersStay;
    OthersStayPut(l.pins, g.source);
  }

  /** `record_silent_refusal` once the refusal may teach. */
  method ConsiderRefusal(l: Learning, ghost g: History, host: Host, now: nat)
    returns (l': Learning, ghost g': History, learned: bool)
    requires Sound(l, g) && g.clock == now && host !in l.pins
    ensures Sound(l', g') && Considered(l, g, l', g', host, learned)
    ensures OthersStay(l.pins, g.source, l'.pins, g'.source)
    ensures l'.pins == if learned then l.pins[host := now] else l.pins
  {
    hide SoundBut, OthersStay, RefusalIn, Justified, Guarded, Count, IsFlood, LearnedHistory;
    ghost var d := g;
    var c := l;
    if Guarded(l.trusted, host, now) {
      c, d := HoldBack(l, g, host, now);
      RefusalHeld(c, d, host);
    } else {
      c, d, learned := KeepPending(l, g, host, now);
    }
    RefusalElsewhere(l, g, c, d, host);
    RefusalJustified(l, g, c, d, host);
    if Guarded(l.trusted, host, now) {
      var (refusals, seconds) := Count(c.silentFlood[host], now);
      learned := IsFlood(refusals, seconds, Count(CounterAt(c.trusted, host), now).0);
    }
    if !learned {
      return c, d, false;
    }
    CountedSound(l, g, c, d, host);
    l', g' := PinnedBySilence(c, host, now), LearnedHistory(d, host, FromSilence);
    assert PinnedFrom(l, g, c, d, l', g', host);
  }

  lemma RefusalHeld(l: Learning, g: History, host: Host)
    requires Sound(l, g)
    ensures SoundBut(l, g, Some(host))
  {
    hide PinsOk, HushOk, TablesOk, NotesOk;
  }

  /** The history once the refusal is noted. */
  ghost function HungUpHistory(g: History, host: Host, crowded: bool): History {
    g.(log := g.log + [HungUp(host, g.clock)], crowded := crowded)
  }

  /** A burst on the history: refusals on four different hosts within 10 s since the last network
      change. */
  ghost predicate BurstLogged(log: Log, now: nat) { |HostsHungUp(log, now)| >= SILENT_BURST_HOSTS }

  /** What `record_silent_refusal` does. */
  ghost predicate SilentlyRefused(l: Learning, g: History, l': Learning, g': History, host: Host, now: nat,
                                  learned: bool) {
    var p, q, hosts := Pruned(l, now), PrunedHistory(l, g, now), Refused(l.silentHosts, host, now);
    if host.name == [] then !learned && l' == l && g' == g
    else
      && OthersStay(p.pins, g.source, l'.pins, g'.source)
      && if host in p.pins then !learned && l' == p && g' == q
         else if |hosts| >= SILENT_BURST_HOSTS then
           && !learned && l' == SilentBurstDone(p, now).(silentHosts := l'.silentHosts)
           && g' == SilentBurstHistory(p, HungUpHistory(q, host, g'.crowded), host)
           && (|hosts| <= 1024 ==> l'.silentHosts == hosts && g'.crowded == g.crowded)
           && (q.steady ==> NoneYoung(l'.pins, g'.source, FromSilence, now, SILENT_BURST_SECS))
           && BurstLogged(g.log + [HungUp(host, now)], now)
         else
           && (q.steady && !g.crowded ==> !BurstLogged(g.log + [HungUp(host, now)], now))
           && if Suppresses(l.silentSuppressedUntil, now, SILENT_SUPPRESS_SECS) then
                !learned && l' == p.(silentHosts := hosts) && g' == HungUpHistory(q, host, g.crowded)
              else
                Considered(p.(silentHosts := hosts, silentSuppressedUntil := None), HungUpHistory(q, host, g.crowded),
                           l', g', host, learned)
  }

  /** `note_silent_host` on the record: a burst is four hosts of the history, and the other way
      round on a run with a steady clock and room in the tables. */
  method NoteSilent(l: Learning, ghost g: History, host: Host, now: nat)
    returns (l': Learning, ghost g': History, burst: bool)
    requires Sound(l, g) && g.clock == now
    ensures Sound(l', g') && l' == l.(silentHosts := l'.silentHosts) && g' == HungUpHistory(g, host, g'.crowded)
    ensures burst <==> |Refused(l.silentHosts, host, now)| >= SILENT_BURST_HOSTS
    ensures |Refused(l.silentHosts, host, now)| <= 1024 ==>
              l'.silentHosts == Refused(l.silentHosts, host, now) && g'.crowded == g.crowded
    ensures burst ==> BurstLogged(g'.log, now)
    ensures g.steady && !g.crowded ==> (burst <==> BurstLogged(g'.log, now))
  {
    hide PinsOk, HushOk, TablesOk, Short, Refused, HostsHungUp, AlertsOk, HangUpsOk;
    NotesFit(l.recent, l.silentHosts, g.log, g.clock, g.steady, g.crowded);
    BurstOfHosts(l.silentHosts, g.log, now, g.steady, g.crowded, host);
    var hosts;
    hosts, burst := NoteSilentHost(l.silentHosts, host, now);
    ghost var more := hosts != Refused(l.silentHosts, host, now);
    NotesHungUp(l.recent, l.silentHosts, hosts, g.log, now, g.steady, g.crowded, host);
    TablesAside(l.silentPending, l.silentFlood, g.floodTimes, l.trusted, g.trustTimes, g.log, g.clock, g.steady,
                g.crowded, HungUp(host, now));
    TablesCrowded(l.silentPending, l.silentFlood, g.floodTimes, l.trusted, g.trustTimes, g.log + [HungUp(host, now)],
                  g.clock, g.steady, g.crowded, more);
    l' := l.(silentHosts := hosts);
    g' := HungUpHistory(g, host, g.crowded || more);
  }

  /** What `silent_burst` leaves, given the pins that are left. */
  function AfterSilentBurst(l: Learning, left: Pins, now: nat): Learning {
    l.(pins := left, silent := Older(l.silent, now, SILENT_BURST_SECS), silentPending := map[], silentFlood := map[],
       silentSuppressedUntil := Some(now + SILENT_SUPPRESS_SECS))
  }

  lemma BurstElsewhere(l: Learning, hosts: map<Host, nat>, left: Pins, now: nat)
    requires left == TakenBack(l.pins, Recent(l.silent, now, SILENT_BURST_SECS))
    ensures AfterSilentBurst(l.(silentHosts := hosts), left, now) == SilentBurstDone(l.(silentHosts := hosts), now)
    ensures SilentBurstDone(l.(silentHosts := hosts), now) == SilentBurstDone(l, now).(silentHosts := hosts)
  {
  }

  lemma BurstHistoryElsewhere(l: Learning, hosts: map<Host, nat>, g: History, host: Host)
    ensures SilentBurstHistory(l.(silentHosts := hosts), g, host) == SilentBurstHistory(l, g, host)
  {
  }

  lemma ConsideredClock(l: Learning, g: History, l': Learning, g': History, host: Host, learned: bool)
    requires Considered(l, g, l', g', host, learned)
    ensures g'.clock == g.clock && g'.steady == g.steady
  {
    hide OneMore, Add, FloodAt, Retained, Justified, PinnedBySilence;
  }

  // ----- handshakes, network changes, and pins to forget

  /** `record_intercepted_handshake`. */
  ghost predicate Intercepted(l: Learning, g: History, l': Learning, g': History, host: Host, now: nat) {
    if host.name == [] then l' == l && g' == g
    else
      && l' == l.(silentPending := l.silentPending - {host}, trusted := l'.trusted)
      && OneMore(l.trusted, l'.trusted, host, Trusted(now, Add(CounterAt(l.trusted, host), now)), Full(l.trusted, host))
      && g' == Ticked(g, now).(log := g.log + [Handshake(host, now)], trustTimes := g'.trustTimes,
                               crowded := g'.crowded)
      && (g.crowded ==> g'.crowded) && (g'.crowded ==> g.crowded || Full(l.trusted, host))
  }

  method RoomInTrusted(l: Learning, ghost g: History, host: Host, now: nat) returns (l': Learning, ghost g': History)
    requires Sound(l, g)
    ensures Sound(l', g') && l' == l.(trusted := l'.trusted)
    ensures g' == g.(trustTimes := g'.trustTimes, crowded := g'.crowded) && (g.crowded ==> g'.crowded)
    ensures !Full(l'.trusted, host) && Submap(l.trusted, l'.trusted)
    ensures CounterAt(l'.trusted, host) == CounterAt(l.trusted, host)
    ensures !Full(l.trusted, host) ==> l' == l && g'.crowded == g.crowded
  {
    hide PinsOk, HushOk, TablesOk, NotesOk, Short, Within, Restrict;
    if host in l.trusted {
      return l, g;
    }
    TablesFit(l.silentPending, l.silentFlood, g.floodTimes, l.trusted, g.trustTimes, g.log, g.clock, g.steady,
              g.crowded);
    var room := RoomForTrusted(l.trusted, now);
    RoomForTrust(l.silentPending, l.silentFlood, g.floodTimes, l.trusted, g.trustTimes, g.log, g.clock, g.steady,
                 g.crowded, room);
    NotesCrowded(l.recent, l.silentHosts, g.log, g.clock, g.steady, g.crowded, room != l.trusted);
    l' := l.(trusted := room);
    g' := g.(trustTimes := Restrict(g.trustTimes, room.Keys), crowded := g.crowded || room != l.trusted);
  }

  function HandshakeCounted(l: Learning, host: Host, now: nat): Learning {
    l.(silentPending := l.silentPending - {host},
       trusted := l.trusted[host := Trusted(now, Add(CounterAt(l.trusted, host), now))])
  }

  ghost function HandshakeHistory(g: History, host: Host): History {
    g.(log := g.log + [Handshake(host, g.clock)],
       trustTimes := g.trustTimes[host := At(g.trustTimes, host) + [g.clock]])
  }

  lemma HandshakeSound(l: Learning, g: History, host: Host)
    requires Sound(l, g) && !Full(l.trusted, host)
    ensures Sound(HandshakeCounted(l, host, g.clock), HandshakeHistory(g, host))
  {
    hide PinsOk, HushOk, TablesOk, NotesOk, Short, CounterAt, Add, At;
    ShortBut(l.silentPending, host);
    ShortWithout(l.silentPending, host);
    NotesAside(l.recent, l.silentHosts, g.log, g.clock, g.steady, g.crowded, Handshake(host, g.clock));
    HandshakeDone(l.silentPending, l.silentFlood, g.floodTimes, l.trusted, g.trustTimes, g.log, g.clock, g.steady,
                  g.crowded, host);
  }

  /** `on_network_change`: the two lists are emptied, and their fresh pins taken back. */
  function Changed(l: Learning, now: nat): Learning {
    var left := TakenBack(l.pins, Recent(l.upstream, now, UPSTREAM_RECENT_SECS));
    l.(pins := TakenBack(left, Recent(l.silent, now, SILENT_RECENT_SECS)), upstream := [], silent := [],
       silentPending := map[], silentFlood := map[], silentHosts := map[])
  }

  ghost function ChangedHistory(l: Learning, g: History, now: nat): History {
    Ticked(g, now).(source := Only(Only(g.source, TakenBack(l.pins, Recent(l.upstream, now, UPSTREAM_RECENT_SECS))),
                                   Changed(l, now).pins),
                    floodTimes := map[], log := g.log + [NetworkChange])
  }

  lemma ChangedSound(l: Learning, g: History, now: nat)
    requires Sound(l, g)
    ensures var l', g' := Changed(l, now), ChangedHistory(l, g, now);
            && Sound(l', g') && OthersStay(l.pins, g.source, l'.pins, g'.source)
            && (g'.steady ==> && NoneYoung(l'.pins, g'.source, FromUpstream, now, UPSTREAM_RECENT_SECS)
                              && NoneYoung(l'.pins, g'.source, FromSilence, now, SILENT_RECENT_SECS))
  {
    TickedSound(l, g, now);
    var g0 := Ticked(g, now);
    hide PinsOk, HushOk, TablesOk, NotesOk, Short, Recent, TakenBack, Only, OthersStay, NoneYoung, Ticked;
    EverythingEnded(l.silentPending, l.silentFlood, g0.floodTimes, l.trusted, g0.trustTimes, g0.log, g0.clock,
                    g0.steady, g0.crowded, NetworkChange);
    NotesChanged(l.recent, l.silentHosts, g0.log, g0.clock, g0.steady, g0.crowded);
    ShortNone();
    UpstreamDropped(l.pins, g.source, l.upstream, l.silent, now, g0.steady);
    var left := TakenBack(l.pins, Recent(l.upstream, now, UPSTREAM_RECENT_SECS));
    var source := Only(g.source, left);
    SilentDropped(left, source, [], l.silent, now, g0.steady);
    OthersStayTwice(l.pins, g.source, left, source, Changed(l, now).pins, ChangedHistory(l, g, now).source);
    if g0.steady {
      FewerNoneYoung(left, source, FromUpstream, now, UPSTREAM_RECENT_SECS, Recent(l.silent, now, SILENT_RECENT_SECS));
    }
  }

  /** `forget_pins` for one host. */
  function Without(l: Learning, host: Host): Learning {
    WithoutRefusals(l, host).(pins := l.pins - {host}, recent := l.recent - {host},
                              upstream := NotOf(l.upstream, host), silent := NotOf(l.silent, host))
  }

  ghost function WithoutHistory(g: History, host: Host): History {
    g.(source := g.source - {host}, floodTimes := g.floodTimes - {host}, log := g.log + [Forget(host)])
  }

  lemma WithoutSound(l: Learning, g: History, host: Host)
    requires Sound(l, g)
    ensures Sound(Without(l, host), WithoutHistory(g, host))
  {
    hide PinsOk, HushOk, TablesOk, NotesOk, Short, NotOf;
    ShortBut(l.silentPending, host);
    ShortWithout(l.silentPending, host);
    HostEnded(l.silentPending, l.silentFlood, g.floodTimes, l.trusted, g.trustTimes, g.log, g.clock, g.steady,
              g.crowded, Forget(host));
    NotesEnded(l.recent, l.silentHosts, g.log, g.clock, g.steady, g.crowded, Forget(host));
    HostDropped(l.pins, g.source, l.upstream, l.silent, g.clock, g.steady, host);
  }

  lemma WithoutOne(l: Learning, host: Host)
    ensures |Without(l, host).pins| + (if host in l.pins then 1 else 0) == |l.pins|
  {
    var left := l.pins - {host};
    if host in l.pins {
      WithSize(left, host, l.pins[host]);
      assert left[host := l.pins[host]] == l.pins;
    } else {
      assert left == l.pins;
    }
  }

  /** For all of them, in order. */
  function WithoutAll(l: Learning, hosts: seq<seq<byte>>): Learning {
    if hosts == [] then l else Without(WithoutAll(l, hosts[..|hosts| - 1]), LookupKey(hosts[|hosts| - 1]))
  }

  ghost function WithoutAllHistory(g: History, hosts: seq<seq<byte>>): History {
    if hosts == [] then g else WithoutHistory(WithoutAllHistory(g, hosts[..|hosts| - 1]), LookupKey(hosts[|hosts| - 1]))
  }

  function Keys(hosts: seq<seq<byte>>): set<Host> { set h | h in hosts :: LookupKey(h) }

  /** The record without exactly the entries of some hosts. */
  ghost predicate EntriesWithout(l: Learning, l': Learning, keys: set<Host>) {
    && l'.pins == l.pins - keys && l'.recent == l.recent - keys
    && l'.silentPending == l.silentPending - keys && l'.silentFlood == l.silentFlood - keys
    && ListWithout(l.upstream, l'.upstream, keys) && ListWithout(l.silent, l'.silent, keys)
    && l' == l.(pins := l'.pins, recent := l'.recent, silentPending := l'.silentPending, silentFlood := l'.silentFlood,
                upstream := l'.upstream, silent := l'.silent)
  }

  ghost predicate ListWithout(list: seq<Fresh>, list': seq<Fresh>, keys: set<Host>) {
    forall e :: e in list' <==> e in list && e.host !in keys
  }

  lemma NoneWithout(l: Learning)
    ensures EntriesWithout(l, l, {})
  {
    assert l.pins - {} == l.pins && l.recent - {} == l.recent;
    assert l.silentPending - {} == l.silentPending && l.silentFlood - {} == l.silentFlood;
  }

  lemma OneMoreWithout(l: Learning, m: Learning, keys: set<Host>, key: Host)
    requires EntriesWithout(l, m, keys)
    ensures EntriesWithout(l, Without(m, key), keys + {key})
  {
    hide ListWithout, NotOf;
    MinusTwice(l.pins, keys, key);
    MinusTwice(l.recent, keys, key);
    MinusTwice(l.silentPending, keys, key);
    MinusTwice(l.silentFlood, keys, key);
    ListMinus(l.upstream, m.upstream, keys, key);
    ListMinus(l.silent, m.silent, keys, key);
  }

  lemma ListMinus(list: seq<Fresh>, list': seq<Fresh>, keys: set<Host>, key: Host)
    requires ListWithout(list, list', keys)
    ensures ListWithout(list, NotOf(list', key), keys + {key})
  {
  }

  /** Forgetting takes exactly the hosts' entries. */
  lemma {:induction false} WithoutAllEntries(l: Learning, hosts: seq<seq<byte>>)
    ensures EntriesWithout(l, WithoutAll(l, hosts), Keys(hosts))
  {
    hide LookupKey, EntriesWithout, Without;
    if hosts == [] {
      assert Keys(hosts) == {};
      NoneWithout(l);
    } else {
      var n := |hosts| - 1;
      WithoutAllEntries(l, hosts[..n]);
      OneMoreWithout(l, WithoutAll(l, hosts[..n]), Keys(hosts[..n]), LookupKey(hosts[n]));
      assert hosts == hosts[..n] + [hosts[n]];
      assert Keys(hosts) == Keys(hosts[..n]) + {LookupKey(hosts[n])};
    }
  }

  /** How every other pin came to be is remembered, and so is all else but the evidence about the
      hosts. */
  lemma {:induction false} WithoutAllSource(g: History, hosts: seq<seq<byte>>)
    ensures var g' := WithoutAllHistory(g, hosts);
            && g'.source == g.source - Keys(hosts) && g.log <= g'.log
            && g' == g.(source := g'.source, floodTimes := g'.floodTimes, log := g'.log)
  {
    hide LookupKey;
    if hosts == [] {
      assert Keys(hosts) == {} && g.source - {} == g.source;
    } else {
      var n := |hosts| - 1;
      WithoutAllSource(g, hosts[..n]);
      MinusTwice(g.source, Keys(hosts[..n]), LookupKey(hosts[n]));
      assert hosts == hosts[..n] + [hosts[n]];
      assert Keys(hosts) == Keys(hosts[..n]) + {LookupKey(hosts[n])};
    }
  }

  lemma MinusTwice<V>(m: map<Host, V>, keys: set<Host>, key: Host)
    ensures (m - keys) - {key} == m - (keys + {key})
  {
  }

  // ----- what holds between calls

  /** While the clock does not go back: no three hosts whose pins upstream failures taught within
      60 s of each other; no upstream pin of the last five minutes and no silent pin of the last
      minute that a network change could not take back. */
  lemma SteadyPins(l: Learning, g: History)
    requires Sound(l, g) && g.steady
    ensures Sourced(l.pins, g.source) && AtMostTwo(l.pins, g.source)
    ensures forall h :: h in l.pins && g.source[h] == FromUpstream && g.clock <= l.pins[h] + UPSTREAM_RECENT_SECS ==>
                          Fresh(h, l.pins[h]) in l.upstream
    ensures forall h :: h in l.pins && g.source[h] == FromSilence && g.clock <= l.pins[h] + SILENT_RECENT_SECS ==>
                          Fresh(h, l.pins[h]) in l.silent
  {
    hide AtMostTwo, TablesOk, HushOk, Short;
  }

  /** Whatever the clock does: the lists name no host whose pin came from alerts or from the file,
      and every table holds at most 1024 hosts. */
  lemma ListedAndBounded(l: Learning, g: History)
    requires Sound(l, g)
    ensures Sourced(l.pins, g.source)
    ensures forall e :: e in l.upstream + l.silent && e.host in l.pins ==>
                          g.source[e.host] == FromUpstream || g.source[e.host] == FromSilence
    ensures |l.recent| <= 1024 && |l.silentPending| <= 1024 && |l.silentHosts| <= 1024
    ensures |l.silentFlood| <= 1024 && |l.trusted| <= 1024
  {
    hide Calm, HushOk, Short, NotesOk;
    NotesFit(l.recent, l.silentHosts, g.log, g.clock, g.steady, g.crowded);
    TablesFit(l.silentPending, l.silentFlood, g.floodTimes, l.trusted, g.trustTimes, g.log, g.clock, g.steady,
              g.crowded);
    hide TablesOk;
  }

  // ----- the policy

  /** Every call holds the lock, works on the record behind it, and leaves it for the next. */
  class Policy {
    var learning: Learning
    ghost var history: History

    ghost predicate Valid()
      reads this
    {
      Sound(learning, history)
    }

    /** With the pins of the stored file. */
    constructor (stored: Pins)
      ensures Valid()
      ensures learning == Learning(stored, map[], [], None, map[], map[], map[], map[], [], None)
      ensures history == History(map h | h in stored :: FromFile, 0, true, [], map[], map[], None, None, false)
    {
      hide PinsOk, TablesOk, NotesOk;
      NothingYet(0);
      NoNotes();
      StoredPins(stored);
      learning := Learning(stored, map[], [], None, map[], map[], map[], map[], [], None);
      history := History(map h | h in stored :: FromFile, 0, true, [], map[], map[], None, None, false);
    }

    /** `record_client_rejection`: the second alert within ten minutes makes a pin. */
    method RecordClientRejection(host: seq<byte>, now: nat) returns (learned: bool)
      requires Valid()
      modifies this
      ensures Valid() && Rejected(old(learning), old(history), learning, history, LookupKey(host), now, learned)
    {
      hide SoundBut, LookupKey, OthersStay, AlertIn, PinnedByAlerts, LearnedHistory, Live, Only, Within, AlertBefore;
      var key := LookupKey(host);
      if key.name == [] {
        return false;
      }
      PrunedSound(learning, history, now);
      var l := Pruned(learning, now);
      ghost var g := PrunedHistory(learning, history, now);
      if key in l.pins {
        learning, history := l, g;
        return false;
      }
      SecondAlertLogged(l, g, key, now);
      if key in l.recent && Within(l.recent[key], now, REJECTION_WINDOW_SECS) {
        PinnedByAlertsSound(l, g, key);
        OthersStayTwice(l.pins, history.source, l.pins, g.source, PinnedByAlerts(l, key, now).pins,
                        LearnedHistory(g, key, FromAlerts).source);
        learning, history := PinnedByAlerts(l, key, now), LearnedHistory(g, key, FromAlerts);
        return true;
      }
      ghost var pins, source, before := l.pins, history.source, g;
      l, g := NoteAlert(l, g, key, now);
      AlertElsewhere(Pruned(learning, now), before, l, g, key);
      OthersStayTwice(pins, source, pins, before.source, l.pins, g.source);
      learning, history := l, g;
      return false;
    }

    /** `learn_upstream_untrusted`: a pin at once, unless hosts fail together. Nothing is learned
        within ten minutes of a burst. */
    method LearnUpstreamUntrusted(host: seq<byte>, now: nat) returns (learned: bool)
      requires Valid()
      modifies this
      ensures Valid() && UpstreamFailed(old(learning), old(history), learning, history, LookupKey(host), now, learned)
      ensures learned && history.steady && old(history).upstreamBurst.Some? ==>
                old(history).upstreamBurst.value + UPSTREAM_SUPPRESS_SECS <= now
    {
      hide SoundBut, LookupKey, OthersStay, Live, Only, Suppresses, PinnedByUpstream, Recent, HostsOf, Older,
           TakenBack, NoneYoung;
      var key := LookupKey(host);
      if key.name == [] {
        return false;
      }
      PrunedSound(learning, history, now);
      var l := Pruned(learning, now);
      ghost var g := PrunedHistory(learning, history, now);
      if key in l.pins {
        learning, history := l, g;
        return false;
      }
      UpstreamHushSound(l, g);
      if Suppresses(l.upstreamSuppressedUntil, now, UPSTREAM_SUPPRESS_SECS) {
        learning, history := l, g;
        return false;
      }
      l := TrimmedList(l.(upstreamSuppressedUntil := None), now);
      TrimmedSound(UpstreamHushKept(Pruned(learning, now), now), g);
      ghost var pins, source := l.pins, history.source;
      if |HostsOf(Burst(l, now))| + 1 >= UPSTREAM_BURST_HOSTS {
        UpstreamBurstSound(l, g);
        var left := TakeBackAll(l.pins, Burst(l, now));
        learning := l.(pins := left, upstream := Older(l.upstream, now, UPSTREAM_BURST_SECS),
                       upstreamSuppressedUntil := Some(now + UPSTREAM_SUPPRESS_SECS));
        history := UpstreamBurstHistory(l, g);
        OthersStayTwice(pins, source, pins, g.source, learning.pins, history.source);
        return false;
      }
      PinnedByUpstreamSound(l, g, key);
      learning, history := PinnedByUpstream(l, key, now), LearnedHistory(g, key, FromUpstream);
      OthersStayTwice(pins, source, pins, g.source, learning.pins, history.source);
      return true;
    }

    /** `record_silent_refusal`. Nothing is learned within a minute of a burst. */
    method RecordSilentRefusal(host: seq<byte>, now: nat) returns (learned: bool)
      requires Valid()
      modifies this
      ensures Valid() && SilentlyRefused(old(learning), old(history), learning, history, LookupKey(host), now, learned)
      ensures learned && history.steady && old(history).silentBurst.Some? ==>
                old(history).silentBurst.value + SILENT_SUPPRESS_SECS <= now
    {
      hide LookupKey, OthersStay, Live, Only, Suppresses, Considered, Refused, SoundBut, SilentBurstDone, NoneYoung,
           BurstLogged;
      var key := LookupKey(host);
      if key.name == [] {
        return false;
      }
      PrunedSound(learning, history, now);
      var l := Pruned(learning, now);
      ghost var g := PrunedHistory(learning, history, now);
      if key in l.pins {
        learning, history := l, g;
        return false;
      }
      ghost var pins, source, pruned := l.pins, history.source, g.source;
      var burst;
      l, g, burst := NoteSilent(l, g, key, now);
      if burst {
        SilentBurstSound(l, g, key);
        var left := TakeBackAll(l.pins, Recent(l.silent, now, SILENT_BURST_SECS));
        BurstElsewhere(Pruned(learning, now), l.silentHosts, left, now);
        BurstHistoryElsewhere(Pruned(learning, now), l.silentHosts, g, key);
        learning, history := AfterSilentBurst(l, left, now), SilentBurstHistory(l, g, key);
        OthersStayTwice(pins, source, pins, pruned, learning.pins, history.source);
        return false;
      }
      SilentHushSound(l, g);
      if Suppresses(l.silentSuppressedUntil, now, SILENT_SUPPRESS_SECS) {
        learning, history := l, g;
        return false;
      }
      l := l.(silentSuppressedUntil := None);
      ghost var c, g' := l, g;
      l, g', learned := ConsiderRefusal(l, g, key, now);
      OthersStayTwice(pins, source, pins, pruned, l.pins, g'.source);
      ConsideredClock(c, g, l, g', key, learned);
      learning, history := l, g';
    }

    /** `record_intercepted_handshake`. */
    method RecordInterceptedHandshake(host: seq<byte>, now: nat)
      requires Valid()
      modifies this
      ensures Valid() && Intercepted(old(learning), old(history), learning, history, LookupKey(host), now)
    {
      hide LookupKey, SoundBut, CounterAt, Add, Submap, OneMore, Full;
      var key := LookupKey(host);
      if key.name == [] {
        return;
      }
      TickedSound(learning, history, now);
      var l := learning;
      ghost var g := Ticked(history, now);
      l, g := RoomInTrusted(l, g, key, now);
      HandshakeSound(l, g, key);
      RoomThenSet(learning.trusted, l.trusted, key, Trusted(now, Add(CounterAt(learning.trusted, key), now)));
      learning, history := HandshakeCounted(l, key, now), HandshakeHistory(g, key);
    }

    /** `on_network_change`: fresh pins from upstream failures and silent refusals go, those from
        alerts and from the file stay. */
    method OnNetworkChange(now: nat)
      requires Valid()
      modifies this
      ensures Valid() && learning == Changed(old(learning), now)
      ensures history == ChangedHistory(old(learning), old(history), now)
      ensures OthersStay(old(learning).pins, old(history).source, learning.pins, history.source)
      ensures history.steady ==> && NoneYoung(learning.pins, history.source, FromUpstream, now, UPSTREAM_RECENT_SECS)
                                 && NoneYoung(learning.pins, history.source, FromSilence, now, SILENT_RECENT_SECS)
    {
      hide SoundBut, OthersStay, NoneYoung, TakenBack, Recent, ChangedHistory;
      ChangedSound(learning, history, now);
      var pins := TakeBackAll(learning.pins, Recent(learning.upstream, now, UPSTREAM_RECENT_SECS));
      pins := TakeBackAll(pins, Recent(learning.silent, now, SILENT_RECENT_SECS));
      history := ChangedHistory(learning, history, now);
      learning := learning.(pins := pins, upstream := [], silent := [], silentPending := map[], silentFlood := map[],
                            silentHosts := map[]);
    }

    /** `forget_pins`: takes exactly the entries of these hosts, and counts the pins it takes. */
    method ForgetPins(hosts: seq<seq<byte>>) returns (removed: nat)
      requires Valid()
      modifies this
      ensures Valid() && EntriesWithout(old(learning), learning, Keys(hosts))
      ensures removed + |learning.pins| == |old(learning).pins|
      ensures history == WithoutAllHistory(old(history), hosts) && history.source == old(history).source - Keys(hosts)
    {
      hide SoundBut, LookupKey, EntriesWithout, Without, WithoutHistory;
      var l := learning;
      ghost var g := history;
      removed := 0;
      for i := 0 to |hosts|
        invariant learning == old(learning) && history == old(history)
        invariant Sound(l, g) && l == WithoutAll(learning, hosts[..i])
        invariant removed + |l.pins| == |learning.pins| && g == WithoutAllHistory(history, hosts[..i])
      {
        var key := LookupKey(hosts[i]);
        assert hosts[..i + 1][..i] == hosts[..i];
        WithoutSound(l, g, key);
        WithoutOne(l, key);
        if key in l.pins {
          removed := removed + 1;
        }
        l, g := Without(l, key), WithoutHistory(g, key);
      }
      assert hosts[..|hosts|] == hosts;
      WithoutAllEntries(learning, hosts);
      WithoutAllSource(history, hosts);
      learning, history := l, g;
    }
  }
}
