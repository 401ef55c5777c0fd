/** What certificate pin learning keeps true (policy.rs), stated on the learning state's maps
    and lists, and what each kind of change does to it. */
module PinRules {
  import opened Bytes
  import opened PerSecond

  const REJECTION_WINDOW_SECS: nat := 10 * 60
  const PIN_LIFETIME_SECS: nat := 30 * 24 * 60 * 60
  const MAX_RECENT_REJECTIONS: nat := 1024
  const UPSTREAM_BURST_HOSTS: nat := 3
  const UPSTREAM_BURST_SECS: nat := 60
  const UPSTREAM_SUPPRESS_SECS: nat := 10 * 60
  const UPSTREAM_RECENT_SECS: nat := 5 * 60
  const SILENT_REFUSALS: nat := 3
  const SILENT_FLOOD_SECONDS: nat := 10
  const SILENT_FLOOD_RATIO: nat := 5
  const SILENT_RECENT_SECS: nat := 60
  const SILENT_BURST_HOSTS: nat := 4
  const SILENT_BURST_SECS: nat := 10
  const SILENT_SUPPRESS_SECS: nat := 60

  /** A host's lookup key. */
  datatype Host = Host(name: seq<byte>)

  /** How a pin came to be: from the stored file, from two alerts, from an upstream failure or
      from silent refusals. */
  datatype Source = FromFile | FromAlerts | FromUpstream | FromSilence

  /** A pin that can still be taken back, and when it was learned. */
  datatype Fresh = Fresh(host: Host, at: nat)

  type Pins = map<Host, nat>
  type Sources = map<Host, Source>

  predicate PinIsLive(at: nat, now: nat) { Within(at, now, PIN_LIFETIME_SECS - 1) }

  function Filter<T(!new)>(keep: T -> bool, s: seq<T>): (r: seq<T>)
    ensures forall x :: x in r <==> x in s && keep(x)
    ensures |r| <= |s|
  {
    if s == [] then []
    else
      assert s == [s[0]] + s[1..];
      (if keep(s[0]) then [s[0]] else []) + Filter(keep, s[1..])
  }

  /** The entries of a list learned at most `age` seconds ago, or longer ago. */
  function Recent(list: seq<Fresh>, now: nat, age: nat): (r: seq<Fresh>)
    ensures forall e :: e in r <==> e in list && Within(e.at, now, age)
  {
    Filter((e: Fresh) => Within(e.at, now, age), list)
  }

  function Older(list: seq<Fresh>, now: nat, age: nat): (r: seq<Fresh>)
    ensures forall e :: e in r <==> e in list && !Within(e.at, now, age)
  {
    Filter((e: Fresh) => !Within(e.at, now, age), list)
  }

  function NotOf(list: seq<Fresh>, host: Host): (r: seq<Fresh>)
    ensures forall e :: e in r <==> e in list && e.host != host
  {
    Filter((e: Fresh) => e.host != host, list)
  }

  function Live(pins: Pins, now: nat): Pins { map h | h in pins && PinIsLive(pins[h], now) :: pins[h] }

  /** The pins without those still as listed. */
  function TakenBack(pins: Pins, list: seq<Fresh>): Pins { map h | h in pins && Fresh(h, pins[h]) !in list :: pins[h] }

  /** `take_back` for each entry of a list. */
  method TakeBackAll(pins: Pins, list: seq<Fresh>) returns (r: Pins)
    ensures r == TakenBack(pins, list)
  {
    r := pins;
    var i := 0;
    assert pins == TakenBack(pins, list[..0]);
    while i < |list|
      invariant 0 <= i <= |list| && r == TakenBack(pins, list[..i])
    {
      var e := list[i];
      assert list[..i + 1] == list[..i] + [e];
      if e.host in r && r[e.host] == e.at {
        r := r - {e.host};
      }
      i := i + 1;
    }
    assert list[..i] == list;
  }

  lemma AllKept<V>(m: map<Host, V>, r: map<Host, V>)
    requires r.Keys <= m.Keys && |r| >= |m|
    ensures r.Keys == m.Keys
  {
    assert m.Keys == r.Keys + (m.Keys - r.Keys) && m.Keys - r.Keys == {};
  }

  /** `make_room`: room for one more host, made by dropping what is no longer counts and, if
      that is not enough, the entry used longest ago. */
  method MakeRoom<V(==)>(m: map<Host, V>, counts: V -> bool, last: V -> nat) returns (r: map<Host, V>)
    requires |m| <= MAX_RECENT_REJECTIONS
    ensures forall h :: h in r ==> h in m && r[h] == m[h]
    ensures |r| < MAX_RECENT_REJECTIONS
    ensures |m| < MAX_RECENT_REJECTIONS ==> r == m
    ensures (forall h :: h in m ==> counts(m[h])) ==> |m| <= |r| + 1
    ensures |m| >= MAX_RECENT_REJECTIONS ==> forall h :: h in r ==> counts(m[h])
    ensures forall h, k :: h in m && !counts(m[h]) && k in m && counts(m[k]) ==> k in r
    ensures forall h, k :: h in m && h !in r && counts(m[h]) && k in m && k !in r && counts(m[k]) ==> h == k
    ensures forall h, k :: h in m && h !in r && counts(m[h]) && k in r ==> last(m[h]) <= last(r[k])
  {
    if |m| < MAX_RECENT_REJECTIONS {
      return m;
    }
    r := map h | h in m && counts(m[h]) :: m[h];
    SubMap(r, m);
    assert (forall h :: h in m ==> counts(m[h])) ==> r == m;
    if |r| < MAX_RECENT_REJECTIONS {
      return;
    }
    assert r.Keys == m.Keys by { AllKept(m, r); }
    var oldest := Oldest(r, last);
    var rest := r - {oldest};
    assert rest.Keys == r.Keys - {oldest};
    r := rest;
  }

  lemma SubMap<V>(a: map<Host, V>, b: map<Host, V>)
    requires a.Keys <= b.Keys
    ensures |a| <= |b|
  {
    assert b.Keys == a.Keys + (b.Keys - a.Keys);
  }

  lemma WithoutSize<V>(m: map<Host, V>, h: Host)
    ensures |m - {h}| <= |m|
  {
    SubMap(m - {h}, m);
  }

  lemma WithSize<V>(m: map<Host, V>, h: Host, v: V)
    ensures |m[h := v]| == if h in m then |m| else |m| + 1
  {
    assert m[h := v].Keys == m.Keys + {h};
  }

  method Oldest<V(==)>(m: map<Host, V>, last: V -> nat) returns (o: Host)
    requires m != map[]
    ensures o in m && forall k :: k in m ==> last(m[o]) <= last(m[k])
  {
    o :| o in m;
    var left := m.Keys - {o};
    while left != {}
      invariant o in m && left <= m.Keys
      invariant forall k :: k in m && k !in left ==> last(m[o]) <= last(m[k])
      decreases left
    {
      var k :| k in left;
      if last(m[k]) < last(m[o]) {
        o := k;
      }
      left := left - {k};
    }
  }

  // ----- where pins come from

  ghost predicate Sourced(pins: Pins, source: Sources) { pins.Keys == source.Keys }

  /** Only pins learned from upstream failures or silent refusals are listed to be taken back. */
  ghost predicate Retractable(pins: Pins, source: Sources, list: seq<Fresh>)
    requires Sourced(pins, source)
  {
    forall e :: e in list && e.host in pins ==> source[e.host] == FromUpstream || source[e.host] == FromSilence
  }

  function Only(source: Sources, pins: Pins): Sources { map h | h in source && h in pins :: source[h] }

  /** Fewer pins with the same times. */
  ghost predicate Fewer(pins: Pins, pins': Pins) { forall h :: h in pins' ==> h in pins && pins'[h] == pins[h] }

  lemma FewerSourced(pins: Pins, source: Sources, pins': Pins)
    requires Sourced(pins, source) && Fewer(pins, pins')
    ensures Sourced(pins', Only(source, pins'))
    ensures forall h :: h in pins' ==> Only(source, pins')[h] == source[h]
  {
    assert Only(source, pins').Keys == pins'.Keys;
  }

  lemma FewerRetractable(pins: Pins, source: Sources, pins': Pins, list: seq<Fresh>)
    requires Sourced(pins, source) && Retractable(pins, source, list) && Fewer(pins, pins')
    ensures Sourced(pins', Only(source, pins')) && Retractable(pins', Only(source, pins'), list)
  {
    FewerSourced(pins, source, pins');
  }

  /** Taking back what is listed keeps every pin from alerts or from the file. */
  lemma TakenBackKeeps(pins: Pins, source: Sources, list: seq<Fresh>, h: Host)
    requires Sourced(pins, source) && Retractable(pins, source, list)
    requires h in pins && (source[h] == FromFile || source[h] == FromAlerts)
    ensures h in TakenBack(pins, list) && TakenBack(pins, list)[h] == pins[h]
  {
  }

  // ----- with a clock that does not go back

  /** The three times lie within one window. */
  predicate Together(a: nat, b: nat, c: nat, window: nat) {
    a <= b + window && a <= c + window && b <= a + window && b <= c + window && c <= a + window && c <= b + window
  }

  /** No window of 60 s holds upstream pins of more than two hosts. */
  ghost predicate AtMostTwo(pins: Pins, source: Sources)
    requires Sourced(pins, source)
  {
    forall h1, h2, h3 | h1 in pins && h2 in pins && h3 in pins && h1 != h2 && h1 != h3 && h2 != h3
      && source[h1] == FromUpstream && source[h2] == FromUpstream && source[h3] == FromUpstream ::
      !Together(pins[h1], pins[h2], pins[h3], UPSTREAM_BURST_SECS)
  }

  /** Every pin of this source learned at most `age` seconds ago is listed, with its time. */
  ghost predicate ListedWhileFresh(pins: Pins, source: Sources, s: Source, list: seq<Fresh>, clock: nat, age: nat)
    requires Sourced(pins, source)
  {
    && (forall e :: e in list ==> e.at <= clock)
    && (forall h :: h in pins && source[h] == s ==>
          pins[h] <= clock && (clock <= pins[h] + age ==> Fresh(h, pins[h]) in list))
  }

  lemma FewerAtMostTwo(pins: Pins, source: Sources, pins': Pins)
    requires Sourced(pins, source) && AtMostTwo(pins, source) && Fewer(pins, pins')
    ensures Sourced(pins', Only(source, pins')) && AtMostTwo(pins', Only(source, pins'))
  {
    FewerSourced(pins, source, pins');
  }

  lemma FewerListed(pins: Pins, source: Sources, pins': Pins, s: Source, list: seq<Fresh>, clock: nat, age: nat)
    requires Sourced(pins, source) && Fewer(pins, pins') && ListedWhileFresh(pins, source, s, list, clock, age)
    ensures Sourced(pins', Only(source, pins')) && ListedWhileFresh(pins', Only(source, pins'), s, list, clock, age)
  {
    FewerSourced(pins, source, pins');
  }

  /** Time passes. */
  lemma LaterListed(pins: Pins, source: Sources, s: Source, list: seq<Fresh>, clock: nat, now: nat, age: nat)
    requires Sourced(pins, source) && ListedWhileFresh(pins, source, s, list, clock, age) && clock <= now
    ensures ListedWhileFresh(pins, source, s, list, now, age)
  {
  }

  /** The entries that are too old to matter are dropped. */
  lemma TrimmedListed(pins: Pins, source: Sources, s: Source, list: seq<Fresh>, clock: nat, age: nat, kept: nat)
    requires Sourced(pins, source) && ListedWhileFresh(pins, source, s, list, clock, age) && age <= kept
    ensures ListedWhileFresh(pins, source, s, Recent(list, clock, kept), clock, age)
  {
  }

  /** A new pin of another source, for a host that had none, leaves the listed ones listed. */
  lemma OtherLearnedListed(pins: Pins, source: Sources, s: Source, list: seq<Fresh>, clock: nat, age: nat, host: Host,
                           other: Source)
    requires Sourced(pins, source) && ListedWhileFresh(pins, source, s, list, clock, age)
    requires host !in pins && other != s
    ensures Sourced(pins[host := clock], source[host := other])
    ensures ListedWhileFresh(pins[host := clock], source[host := other], s, list, clock, age)
    ensures ListedWhileFresh(pins[host := clock], source[host := other], s, NotOf(list, host), clock, age)
  {
  }

  lemma LearnedListed(pins: Pins, source: Sources, s: Source, list: seq<Fresh>, clock: nat, age: nat, host: Host)
    requires Sourced(pins, source) && ListedWhileFresh(pins, source, s, list, clock, age) && host !in pins
    ensures Sourced(pins[host := clock], source[host := s])
    ensures ListedWhileFresh(pins[host := clock], source[host := s], s, list + [Fresh(host, clock)], clock, age)
  {
    var l := list + [Fresh(host, clock)];
    assert forall e :: e in l <==> e in list || e == Fresh(host, clock);
  }

  /** Taking back the listed pins of the last `back` seconds leaves none that young, and the
      rest listed. */
  lemma TakenBackListed(pins: Pins, source: Sources, s: Source, list: seq<Fresh>, clock: nat, back: nat, age: nat)
    requires Sourced(pins, source) && ListedWhileFresh(pins, source, s, list, clock, age) && back <= age
    ensures var pins' := TakenBack(pins, Recent(list, clock, back));
            && Fewer(pins, pins') && Sourced(pins', Only(source, pins'))
            && (forall h :: h in pins' && source[h] == s ==> pins'[h] + back < clock)
            && ListedWhileFresh(pins', Only(source, pins'), s, Older(list, clock, back), clock, age)
            && (back == age ==> ListedWhileFresh(pins', Only(source, pins'), s, [], clock, age))
  {
    FewerSourced(pins, source, TakenBack(pins, Recent(list, clock, back)));
  }

  function HostsOf(list: seq<Fresh>): set<Host> { set e | e in list :: e.host }

  lemma TwoMembers(s: set<Host>, a: Host, b: Host)
    requires a in s && b in s && a != b
    ensures |s| >= 2
  {
    assert {a, b} <= s;
    assert s == {a, b} + (s - {a, b});
  }

  /** Of two hosts with upstream pins, one is no longer within the burst window. */
  ghost predicate OneIsOld(pins: Pins, source: Sources, clock: nat)
    requires Sourced(pins, source)
  {
    forall a, b | a in pins && b in pins && a != b && source[a] == FromUpstream && source[b] == FromUpstream ::
      !(clock <= pins[a] + UPSTREAM_BURST_SECS && clock <= pins[b] + UPSTREAM_BURST_SECS)
  }

  lemma FewListedOneIsOld(pins: Pins, source: Sources, list: seq<Fresh>, clock: nat)
    requires Sourced(pins, source) && ListedWhileFresh(pins, source, FromUpstream, list, clock, UPSTREAM_RECENT_SECS)
    requires |HostsOf(Recent(list, clock, UPSTREAM_BURST_SECS))| + 1 < UPSTREAM_BURST_HOSTS
    ensures OneIsOld(pins, source, clock)
  {
    var hosts := HostsOf(Recent(list, clock, UPSTREAM_BURST_SECS));
    forall h | h in pins && source[h] == FromUpstream && clock <= pins[h] + UPSTREAM_BURST_SECS ensures h in hosts {
      assert Fresh(h, pins[h]) in Recent(list, clock, UPSTREAM_BURST_SECS);
    }
    forall a, b | a in hosts && b in hosts && a != b ensures |hosts| >= 2 {
      TwoMembers(hosts, a, b);
    }
  }

  /** Learning a third host within 60 s is what the burst rule prevents. */
  lemma LearnedAtMostTwo(pins: Pins, source: Sources, list: seq<Fresh>, clock: nat, host: Host)
    requires Sourced(pins, source) && AtMostTwo(pins, source) && host !in pins
    requires ListedWhileFresh(pins, source, FromUpstream, list, clock, UPSTREAM_RECENT_SECS)
    requires |HostsOf(Recent(list, clock, UPSTREAM_BURST_SECS))| + 1 < UPSTREAM_BURST_HOSTS
    ensures Sourced(pins[host := clock], source[host := FromUpstream])
    ensures AtMostTwo(pins[host := clock], source[host := FromUpstream])
  {
    FewListedOneIsOld(pins, source, list, clock);
    hide ListedWhileFresh, HostsOf;
  }

  lemma OtherLearnedAtMostTwo(pins: Pins, source: Sources, clock: nat, host: Host, other: Source)
    requires Sourced(pins, source) && AtMostTwo(pins, source) && host !in pins && other != FromUpstream
    ensures Sourced(pins[host := clock], source[host := other])
    ensures AtMostTwo(pins[host := clock], source[host := other])
  {
  }

  /** For `length` seconds after a burst, failures teach nothing. */
  ghost predicate Hushed(burst: Option<nat>, until: Option<nat>, clock: nat, length: nat) {
    && (burst.Some? ==> burst.value <= clock && (clock < burst.value + length ==> until == Some(burst.value + length)))
    && (until.Some? ==> burst.Some? && until.value == burst.value + length)
  }

  /** `upstream_suppressed` and `silent_suppressed`. */
  predicate Suppresses(until: Option<nat>, now: nat, length: nat) {
    until.Some? && now < until.value && until.value - now <= length
  }

  lemma HushedSuppresses(burst: Option<nat>, until: Option<nat>, clock: nat, now: nat, length: nat)
    requires Hushed(burst, until, clock, length) && clock <= now
    ensures Suppresses(until, now, length) <==> burst.Some? && now < burst.value + length
    ensures Hushed(burst, if Suppresses(until, now, length) then until else None, now, length)
    ensures Hushed(burst, until, now, length)
  {
  }

  // ----- the pins, where they come from, and the two lists of those that can be taken back

  ghost predicate Safe(pins: Pins, source: Sources, upstream: seq<Fresh>, silent: seq<Fresh>) {
    Sourced(pins, source) && Retractable(pins, source, upstream) && Retractable(pins, source, silent)
  }

  /** What a clock that does not go back adds. */
  ghost predicate Calm(pins: Pins, source: Sources, upstream: seq<Fresh>, silent: seq<Fresh>, clock: nat) {
    && Sourced(pins, source)
    && AtMostTwo(pins, source)
    && ListedWhileFresh(pins, source, FromUpstream, upstream, clock, UPSTREAM_RECENT_SECS)
    && ListedWhileFresh(pins, source, FromSilence, silent, clock, SILENT_RECENT_SECS)
  }

  /** Pins from alerts and from the file stay. */
  ghost predicate OthersStay(pins: Pins, source: Sources, pins': Pins, source': Sources) {
    forall h :: h in pins && h in source && (source[h] == FromFile || source[h] == FromAlerts) ==>
      h in pins' && h in source' && pins'[h] == pins[h] && source'[h] == source[h]
  }

  ghost predicate PinsOk(pins: Pins, source: Sources, upstream: seq<Fresh>, silent: seq<Fresh>, clock: nat,
                         steady: bool) {
    Safe(pins, source, upstream, silent) && (steady ==> Calm(pins, source, upstream, silent, clock))
  }

  lemma LaterPins(pins: Pins, source: Sources, upstream: seq<Fresh>, silent: seq<Fresh>, clock: nat, now: nat,
                  steady: bool)
    requires PinsOk(pins, source, upstream, silent, clock, steady)
    ensures PinsOk(pins, source, upstream, silent, now, steady && clock <= now)
  {
    hide AtMostTwo, ListedWhileFresh;
    if steady && clock <= now {
      LaterListed(pins, source, FromUpstream, upstream, clock, now, UPSTREAM_RECENT_SECS);
      LaterListed(pins, source, FromSilence, silent, clock, now, SILENT_RECENT_SECS);
    }
  }

  lemma FewerPins(pins: Pins, source: Sources, upstream: seq<Fresh>, silent: seq<Fresh>, clock: nat, steady: bool,
                  pins': Pins)
    requires PinsOk(pins, source, upstream, silent, clock, steady) && Fewer(pins, pins')
    ensures PinsOk(pins', Only(source, pins'), upstream, silent, clock, steady)
  {
    hide AtMostTwo, ListedWhileFresh, Retractable, Fewer, Only;
    FewerSourced(pins, source, pins');
    FewerRetractable(pins, source, pins', upstream);
    FewerRetractable(pins, source, pins', silent);
    if steady {
      FewerAtMostTwo(pins, source, pins');
      FewerListed(pins, source, pins', FromUpstream, upstream, clock, UPSTREAM_RECENT_SECS);
      FewerListed(pins, source, pins', FromSilence, silent, clock, SILENT_RECENT_SECS);
    }
  }

  lemma LearnedFromAlerts(pins: Pins, source: Sources, upstream: seq<Fresh>, silent: seq<Fresh>, now: nat,
                          steady: bool, host: Host)
    requires PinsOk(pins, source, upstream, silent, now, steady) && host !in pins
    ensures PinsOk(pins[host := now], source[host := FromAlerts], NotOf(upstream, host), NotOf(silent, host), now,
                   steady)
  {
    if steady {
      hide AtMostTwo, ListedWhileFresh, NotOf;
      OtherLearnedAtMostTwo(pins, source, now, host, FromAlerts);
      OtherLearnedListed(pins, source, FromUpstream, upstream, now, UPSTREAM_RECENT_SECS, host, FromAlerts);
      OtherLearnedListed(pins, source, FromSilence, silent, now, SILENT_RECENT_SECS, host, FromAlerts);
    }
  }

  lemma LearnedSafe(pins: Pins, source: Sources, upstream: seq<Fresh>, silent: seq<Fresh>, now: nat, host: Host)
    requires Safe(pins, source, upstream, silent) && host !in pins
    ensures Safe(pins[host := now], source[host := FromSilence], NotOf(upstream, host),
                 Recent(silent, now, SILENT_RECENT_SECS) + [Fresh(host, now)])
  {
    hide Within;
  }

  lemma LearnedCalm(pins: Pins, source: Sources, upstream: seq<Fresh>, silent: seq<Fresh>, now: nat, host: Host)
    requires Calm(pins, source, upstream, silent, now) && host !in pins
    ensures Calm(pins[host := now], source[host := FromSilence], NotOf(upstream, host),
                 Recent(silent, now, SILENT_RECENT_SECS) + [Fresh(host, now)], now)
  {
    hide AtMostTwo, ListedWhileFresh, NotOf, Recent;
    OtherLearnedAtMostTwo(pins, source, now, host, FromSilence);
    OtherLearnedListed(pins, source, FromUpstream, upstream, now, UPSTREAM_RECENT_SECS, host, FromSilence);
    TrimmedListed(pins, source, FromSilence, silent, now, SILENT_RECENT_SECS, SILENT_RECENT_SECS);
    LearnedListed(pins, source, FromSilence, Recent(silent, now, SILENT_RECENT_SECS), now, SILENT_RECENT_SECS, host);
  }

  lemma LearnedFromSilence(pins: Pins, source: Sources, upstream: seq<Fresh>, silent: seq<Fresh>, now: nat,
                           steady: bool, host: Host)
    requires PinsOk(pins, source, upstream, silent, now, steady) && host !in pins
    ensures PinsOk(pins[host := now], source[host := FromSilence], NotOf(upstream, host),
                   Recent(silent, now, SILENT_RECENT_SECS) + [Fresh(host, now)], now, steady)
  {
    hide Safe, Calm;
    LearnedSafe(pins, source, upstream, silent, now, host);
    if steady { LearnedCalm(pins, source, upstream, silent, now, host); }
  }

  lemma TrimmedUpstream(pins: Pins, source: Sources, upstream: seq<Fresh>, silent: seq<Fresh>, now: nat, steady: bool)
    requires PinsOk(pins, source, upstream, silent, now, steady)
    ensures PinsOk(pins, source, Recent(upstream, now, UPSTREAM_RECENT_SECS), silent, now, steady)
  {
    if steady {
      hide AtMostTwo, ListedWhileFresh, Recent;
      TrimmedListed(pins, source, FromUpstream, upstream, now, UPSTREAM_RECENT_SECS, UPSTREAM_RECENT_SECS);
    }
  }

  lemma LearnedFromUpstream(pins: Pins, source: Sources, upstream: seq<Fresh>, silent: seq<Fresh>, now: nat,
                            steady: bool, host: Host)
    requires PinsOk(pins, source, upstream, silent, now, steady) && host !in pins
    requires |HostsOf(Recent(upstream, now, UPSTREAM_BURST_SECS))| + 1 < UPSTREAM_BURST_HOSTS
    ensures PinsOk(pins[host := now], source[host := FromUpstream], upstream + [Fresh(host, now)], silent, now, steady)
  {
    if steady {
      hide AtMostTwo, ListedWhileFresh, Recent, HostsOf;
      LearnedAtMostTwo(pins, source, upstream, now, host);
      LearnedListed(pins, source, FromUpstream, upstream, now, UPSTREAM_RECENT_SECS, host);
      OtherLearnedListed(pins, source, FromSilence, silent, now, SILENT_RECENT_SECS, host, FromUpstream);
    }
  }

  lemma ShorterRetractable(pins: Pins, source: Sources, list: seq<Fresh>, list': seq<Fresh>)
    requires Sourced(pins, source) && Retractable(pins, source, list) && forall e :: e in list' ==> e in list
    ensures Retractable(pins, source, list')
  {
  }

  lemma TakenBackOthersStay(pins: Pins, source: Sources, list: seq<Fresh>)
    requires Sourced(pins, source) && Retractable(pins, source, list)
    ensures Fewer(pins, TakenBack(pins, list))
    ensures OthersStay(pins, source, TakenBack(pins, list), Only(source, TakenBack(pins, list)))
  {
    hide Sourced;
    forall h | h in pins && h in source && (source[h] == FromFile || source[h] == FromAlerts)
      ensures h in TakenBack(pins, list)
    {
      TakenBackKeeps(pins, source, list, h);
    }
  }

  /** No pin of this source is at most `age` seconds old. */
  ghost predicate NoneYoung(pins: Pins, source: Sources, s: Source, now: nat, age: nat) {
    forall h :: h in pins && h in source && source[h] == s ==> pins[h] + age < now
  }

  /** An upstream burst: the listed pins of the last 60 s go, and no pin from alerts or the file. */
  lemma UpstreamBurst(pins: Pins, source: Sources, upstream: seq<Fresh>, silent: seq<Fresh>, now: nat, steady: bool)
    requires PinsOk(pins, source, upstream, silent, now, steady)
    ensures var pins' := TakenBack(pins, Recent(upstream, now, UPSTREAM_BURST_SECS));
            var source', list' := Only(source, pins'), Older(upstream, now, UPSTREAM_BURST_SECS);
            && PinsOk(pins', source', list', silent, now, steady)
            && OthersStay(pins, source, pins', source')
            && (steady ==> NoneYoung(pins', source', FromUpstream, now, UPSTREAM_BURST_SECS))
  {
    hide AtMostTwo, ListedWhileFresh, Retractable, Recent, Older, Fewer, OthersStay, Sourced;
    var burst := Recent(upstream, now, UPSTREAM_BURST_SECS);
    var pins' := TakenBack(pins, burst);
    ShorterRetractable(pins, source, upstream, burst);
    TakenBackOthersStay(pins, source, burst);
    FewerPins(pins, source, upstream, silent, now, steady, pins');
    ShorterRetractable(pins', Only(source, pins'), upstream, Older(upstream, now, UPSTREAM_BURST_SECS));
    if steady {
      TakenBackListed(pins, source, FromUpstream, upstream, now, UPSTREAM_BURST_SECS, UPSTREAM_RECENT_SECS);
    }
  }

  /** A silent burst: the listed pins of the last 10 s go, and no pin from alerts or the file. */
  lemma SilentBurst(pins: Pins, source: Sources, upstream: seq<Fresh>, silent: seq<Fresh>, now: nat, steady: bool)
    requires PinsOk(pins, source, upstream, silent, now, steady)
    ensures var pins' := TakenBack(pins, Recent(silent, now, SILENT_BURST_SECS));
            var source', list' := Only(source, pins'), Older(silent, now, SILENT_BURST_SECS);
            && PinsOk(pins', source', upstream, list', now, steady)
            && OthersStay(pins, source, pins', source')
            && (steady ==> NoneYoung(pins', source', FromSilence, now, SILENT_BURST_SECS))
  {
    hide AtMostTwo, ListedWhileFresh, Retractable, Recent, Older, Fewer, OthersStay, Sourced;
    var burst := Recent(silent, now, SILENT_BURST_SECS);
    var pins' := TakenBack(pins, burst);
    ShorterRetractable(pins, source, silent, burst);
    TakenBackOthersStay(pins, source, burst);
    FewerPins(pins, source, upstream, silent, now, steady, pins');
    ShorterRetractable(pins', Only(source, pins'), silent, Older(silent, now, SILENT_BURST_SECS));
    if steady {
      TakenBackListed(pins, source, FromSilence, silent, now, SILENT_BURST_SECS, SILENT_RECENT_SECS);
    }
  }

  /** The upstream half of a network change. */
  lemma UpstreamDropped(pins: Pins, source: Sources, upstream: seq<Fresh>, silent: seq<Fresh>, now: nat, steady: bool)
    requires PinsOk(pins, source, upstream, silent, now, steady)
    ensures var pins' := TakenBack(pins, Recent(upstream, now, UPSTREAM_RECENT_SECS));
            var source', list' := Only(source, pins'), [];
            && PinsOk(pins', source', list', silent, now, steady)
            && OthersStay(pins, source, pins', source')
            && (steady ==> NoneYoung(pins', source', FromUpstream, now, UPSTREAM_RECENT_SECS))
  {
    hide AtMostTwo, ListedWhileFresh, Retractable, Recent, Older, Fewer, OthersStay, Sourced;
    var burst := Recent(upstream, now, UPSTREAM_RECENT_SECS);
    var pins' := TakenBack(pins, burst);
    ShorterRetractable(pins, source, upstream, burst);
    TakenBackOthersStay(pins, source, burst);
    FewerPins(pins, source, upstream, silent, now, steady, pins');
    ShorterRetractable(pins', Only(source, pins'), upstream, []);
    if steady {
      TakenBackListed(pins, source, FromUpstream, upstream, now, UPSTREAM_RECENT_SECS, UPSTREAM_RECENT_SECS);
    }
  }

  /** The silent half of a network change. */
  lemma SilentDropped(pins: Pins, source: Sources, upstream: seq<Fresh>, silent: seq<Fresh>, now: nat, steady: bool)
    requires PinsOk(pins, source, upstream, silent, now, steady)
    ensures var pins' := TakenBack(pins, Recent(silent, now, SILENT_RECENT_SECS));
            var source', list' := Only(source, pins'), [];
            && PinsOk(pins', source', upstream, list', now, steady)
            && OthersStay(pins, source, pins', source')
            && (steady ==> NoneYoung(pins', source', FromSilence, now, SILENT_RECENT_SECS))
  {
    hide AtMostTwo, ListedWhileFresh, Retractable, Recent, Older, Fewer, OthersStay, Sourced;
    var burst := Recent(silent, now, SILENT_RECENT_SECS);
    var pins' := TakenBack(pins, burst);
    ShorterRetractable(pins, source, silent, burst);
    TakenBackOthersStay(pins, source, burst);
    FewerPins(pins, source, upstream, silent, now, steady, pins');
    ShorterRetractable(pins', Only(source, pins'), silent, []);
    if steady {
      TakenBackListed(pins, source, FromSilence, silent, now, SILENT_RECENT_SECS, SILENT_RECENT_SECS);
    }
  }

  lemma HostDropped(pins: Pins, source: Sources, upstream: seq<Fresh>, silent: seq<Fresh>, clock: nat, steady: bool,
                    host: Host)
    requires PinsOk(pins, source, upstream, silent, clock, steady)
    ensures PinsOk(pins - {host}, source - {host}, NotOf(upstream, host), NotOf(silent, host), clock, steady)
  {
    var pins', source' := pins - {host}, source - {host};
    assert source' == Only(source, pins');
    FewerPins(pins, source, upstream, silent, clock, steady, pins');
    hide AtMostTwo, ListedWhileFresh, Retractable, NotOf, Only, Sourced;
    ShorterRetractable(pins', source', upstream, NotOf(upstream, host));
    ShorterRetractable(pins', source', silent, NotOf(silent, host));
    if steady {
      WithoutListed(pins', source', FromUpstream, upstream, clock, UPSTREAM_RECENT_SECS, host);
      WithoutListed(pins', source', FromSilence, silent, clock, SILENT_RECENT_SECS, host);
    }
  }

  lemma WithoutListed(pins: Pins, source: Sources, s: Source, list: seq<Fresh>, clock: nat, age: nat, host: Host)
    requires Sourced(pins, source) && ListedWhileFresh(pins, source, s, list, clock, age) && host !in pins
    ensures ListedWhileFresh(pins, source, s, NotOf(list, host), clock, age)
  {
  }

  /** After a burst nothing is learned for a while. */
  ghost predicate HushOk(burst: Option<nat>, until: Option<nat>, clock: nat, steady: bool, length: nat) {
    steady ==> Hushed(burst, until, clock, length)
  }

  lemma LearningOthersStay(pins: Pins, source: Sources, host: Host, now: nat, s: Source)
    requires host !in pins
    ensures OthersStay(pins, source, pins[host := now], source[host := s])
  {
  }

  lemma OthersStayPut(pins: Pins, source: Sources)
    ensures OthersStay(pins, source, pins, source)
  {
  }

  lemma OthersStayTwice(pins: Pins, source: Sources, pins1: Pins, source1: Sources, pins2: Pins, source2: Sources)
    requires OthersStay(pins, source, pins1, source1) && OthersStay(pins1, source1, pins2, source2)
    ensures OthersStay(pins, source, pins2, source2)
  {
  }

  lemma PruneOthersStay(pins: Pins, source: Sources)
    ensures OthersStay(pins, source, pins, Only(source, pins))
  {
  }

  lemma FewerNoneYoung(pins: Pins, source: Sources, s: Source, now: nat, age: nat, list: seq<Fresh>)
    requires NoneYoung(pins, source, s, now, age)
    ensures NoneYoung(TakenBack(pins, list), Only(source, TakenBack(pins, list)), s, now, age)
  {
  }

  lemma StoredPins(stored: Pins)
    ensures var source := map h | h in stored :: FromFile;
            PinsOk(stored, source, [], [], 0, true)
  {
  }

  lemma HushStarts(now: nat, steady: bool, length: nat)
    ensures HushOk(Some(now), Some(now + length), now, steady, length)
  {
  }
}
