/** What a run of calls shows about a host's silent refusals, and how the pending refusals and
    the counters of pin learning (policy.rs) stand for it. */
module PinEvidence {
  import opened Bytes
  import opened PerSecond
  import opened PinRules

  /** What became of a silent refusal: it counts, a recent handshake holds it back, or it was
      part of a burst. */
  datatype Fate = Counted | HeldBack | InBurst

  /** What adds to or takes from the evidence. A silent refusal of a host that is no pin is first
      logged as `HungUp`; unless refusals teach nothing then, what becomes of it follows. */
  datatype Event =
    | Alert(host: Host, now: nat)
    | HungUp(host: Host, now: nat)
    | Refusal(host: Host, now: nat, fate: Fate)
    | Handshake(host: Host, now: nat)
    | Learned(host: Host)
    | NetworkChange
    | Forget(host: Host)

  type Log = seq<Event>

  /** The seconds of the host's silent refusals since its last handshake, since it was last held
      back, learned or forgotten, and since the last burst or network change. */
  function Since(log: Log, h: Host): set<nat> {
    if log == [] then {}
    else
      var before := Since(log[..|log| - 1], h);
      match log[|log| - 1]
      case Refusal(host, now, InBurst) => {}
      case Refusal(host, now, Counted) => if host == h then before + {now} else before
      case Refusal(host, now, HeldBack) => if host == h then {} else before
      case Alert(_, _) => before
      case HungUp(_, _) => before
      case NetworkChange => {}
      case e => if e.host == h then {} else before
  }

  /** The times of all silent refusals of the host since it was last learned or forgotten, and
      the last burst or network change. */
  function Refusals(log: Log, h: Host): seq<nat> {
    if log == [] then []
    else
      var before := Refusals(log[..|log| - 1], h);
      match log[|log| - 1]
      case Refusal(host, now, fate) => if fate == InBurst then [] else if host == h then before + [now] else before
      case Handshake(_, _) => before
      case Alert(_, _) => before
      case HungUp(_, _) => before
      case NetworkChange => []
      case e => if e.host == h then [] else before
  }

  /** The times of the handshakes completed for the host. */
  function Handshakes(log: Log, h: Host): seq<nat> {
    if log == [] then []
    else
      var before := Handshakes(log[..|log| - 1], h);
      match log[|log| - 1]
      case Handshake(host, now) => if host == h then before + [now] else before
      case _ => before
  }

  lemma Appended(log: Log, e: Event)
    ensures (log + [e])[..|log|] == log && (log + [e])[|log|] == e && |log + [e]| == |log| + 1
  {
  }

  // ----- what teaches

  /** The refusals of the last ten minutes fall in three different seconds. */
  ghost predicate ThreeSeconds(log: Log, h: Host, now: nat) { |Lately(Since(log, h), now)| >= SILENT_REFUSALS }

  function Lately(since: set<nat>, now: nat): set<nat> { set t | t in since && Within(t, now, REJECTION_WINDOW_SECS) }

  /** In the last minute, refusals in ten different seconds, and five times the handshakes. */
  ghost predicate FloodOf(log: Log, h: Host, now: nat, handshakes: nat) {
    var m := Minute(Refusals(log, h), now);
    |Seconds(m)| >= SILENT_FLOOD_SECONDS && Saturate(|m|) >= handshakes * SILENT_FLOOD_RATIO
  }

  /** The rule: three seconds, or a flood if a client completed a handshake in the last ten
      minutes. */
  ghost predicate Teaches(log: Log, h: Host, now: nat) {
    var handshakes := Handshakes(log, h);
    if handshakes != [] && Within(handshakes[|handshakes| - 1], now, REJECTION_WINDOW_SECS) then
      FloodOf(log, h, now, Saturate(|Minute(handshakes, now)|))
    else
      ThreeSeconds(log, h, now)
  }

  // ----- what is kept

  /** The handshakes clients completed for one host: the last one, and those of the last minute. */
  datatype Trusted = Trusted(last: nat, recent: Counter)

  type Pending = map<Host, seq<nat>>
  type Times = map<Host, seq<nat>>

  function At(times: map<Host, seq<nat>>, h: Host): seq<nat> { if h in times then times[h] else [] }

  predicate Distinct(s: seq<nat>) { forall i, j :: 0 <= i < j < |s| ==> s[i] != s[j] }

  ghost predicate PendingFrom(pending: Pending, log: Log) {
    forall h :: h in pending ==> Distinct(pending[h]) && forall t :: t in pending[h] ==> t in Since(log, h)
  }

  ghost predicate FloodFrom(flood: map<Host, Counter>, times: Times, log: Log) {
    && flood.Keys == times.Keys
    && (forall h :: h in flood ==> flood[h] == CounterOf(times[h]) && multiset(times[h]) <= multiset(Refusals(log, h)))
  }

  ghost predicate TrustShown(t: Trusted, times: seq<nat>) {
    |times| > 0 && t == Trusted(times[|times| - 1], CounterOf(times))
  }

  ghost predicate TrustedFrom(trusted: map<Host, Trusted>, times: Times) {
    trusted.Keys == times.Keys && forall h :: h in trusted ==> TrustShown(trusted[h], times[h])
  }

  /** With a clock that does not go back. */
  ghost predicate TimesSteady(times: Times, clock: nat) {
    forall h :: h in times ==> Steady(times[h]) && forall t :: t in times[h] ==> t <= clock
  }

  /** While no table was ever full, nothing was dropped. */
  ghost predicate PendingAll(pending: Pending, log: Log, clock: nat) {
    forall h :: Covers(At(pending, h), Since(log, h), clock)
  }

  predicate Covers(seconds: seq<nat>, since: set<nat>, clock: nat) {
    forall t :: t in since ==> t <= clock && (Within(t, clock, REJECTION_WINDOW_SECS) ==> t in seconds)
  }

  ghost predicate FloodAll(times: Times, log: Log) { forall h :: At(times, h) == Refusals(log, h) }

  ghost predicate TrustAll(times: Times, log: Log) { forall h :: At(times, h) == Handshakes(log, h) }

  // ----- fewer hosts

  lemma FewerPending(log: Log, pending: Pending, fewer: Pending)
    requires PendingFrom(pending, log) && forall h :: h in fewer ==> h in pending && fewer[h] == pending[h]
    ensures PendingFrom(fewer, log)
  {
  }

  ghost function Restrict(times: Times, keys: set<Host>): Times { map h | h in times && h in keys :: times[h] }

  lemma FewerFlood(log: Log, flood: map<Host, Counter>, ft: Times, fewer: map<Host, Counter>, clock: nat)
    requires FloodFrom(flood, ft, log) && forall h :: h in fewer ==> h in flood && fewer[h] == flood[h]
    ensures FloodFrom(fewer, Restrict(ft, fewer.Keys), log)
    ensures TimesSteady(ft, clock) ==> TimesSteady(Restrict(ft, fewer.Keys), clock)
    ensures fewer == flood ==> Restrict(ft, fewer.Keys) == ft
  {
    assert Restrict(ft, fewer.Keys).Keys == fewer.Keys;
  }

  lemma FewerTrusted(trusted: map<Host, Trusted>, tt: Times, fewer: map<Host, Trusted>, clock: nat)
    requires TrustedFrom(trusted, tt) && forall h :: h in fewer ==> h in trusted && fewer[h] == trusted[h]
    ensures TrustedFrom(fewer, Restrict(tt, fewer.Keys))
    ensures TimesSteady(tt, clock) ==> TimesSteady(Restrict(tt, fewer.Keys), clock)
    ensures fewer == trusted ==> Restrict(tt, fewer.Keys) == tt
  {
    assert Restrict(tt, fewer.Keys).Keys == fewer.Keys;
  }

  // ----- time passes

  lemma LaterSteady(times: Times, clock: nat, now: nat)
    requires TimesSteady(times, clock) && clock <= now
    ensures TimesSteady(times, now)
  {
  }

  lemma LaterPending(pending: Pending, log: Log, clock: nat, now: nat)
    requires PendingAll(pending, log, clock) && clock <= now
    ensures PendingAll(pending, log, now)
  {
    forall h ensures Covers(At(pending, h), Since(log, h), now) {
      assert Covers(At(pending, h), Since(log, h), clock);
    }
  }

  // ----- a burst or a network change, and a host that is learned or forgotten

  ghost predicate EndsAll(e: Event) { e.NetworkChange? || (e.Refusal? && e.fate == InBurst) }

  lemma AllEnded(log: Log, e: Event, tt: Times, clock: nat)
    requires EndsAll(e)
    ensures PendingFrom(map[], log + [e]) && FloodFrom(map[], map[], log + [e])
    ensures PendingAll(map[], log + [e], clock) && FloodAll(map[], log + [e])
    ensures TrustAll(tt, log) ==> TrustAll(tt, log + [e])
  {
    Appended(log, e);
  }

  /** The pending refusals of the event's host end. */
  ghost predicate EndsPending(e: Event) {
    e.Learned? || e.Forget? || e.Handshake? || (e.Refusal? && e.fate == HeldBack)
  }

  lemma PendingEnded(log: Log, e: Event, pending: Pending, clock: nat)
    requires PendingFrom(pending, log) && EndsPending(e)
    ensures PendingFrom(pending - {e.host}, log + [e])
    ensures PendingAll(pending, log, clock) ==> PendingAll(pending - {e.host}, log + [e], clock)
  {
    Appended(log, e);
    forall k | Covers(At(pending, k), Since(log, k), clock)
      ensures Covers(At(pending - {e.host}, k), Since(log + [e], k), clock)
    {
    }
  }

  lemma FloodEnded(log: Log, e: Event, flood: map<Host, Counter>, ft: Times, tt: Times, clock: nat)
    requires FloodFrom(flood, ft, log) && (e.Learned? || e.Forget?)
    ensures FloodFrom(flood - {e.host}, ft - {e.host}, log + [e])
    ensures FloodAll(ft, log) ==> FloodAll(ft - {e.host}, log + [e])
    ensures TrustAll(tt, log) ==> TrustAll(tt, log + [e])
    ensures TimesSteady(ft, clock) ==> TimesSteady(ft - {e.host}, clock)
  {
    Appended(log, e);
    hide CounterOf, Steady;
    assert (flood - {e.host}).Keys == (ft - {e.host}).Keys;
    forall k | At(ft, k) == Refusals(log, k) ensures At(ft - {e.host}, k) == Refusals(log + [e], k) {
    }
  }

  // ----- a handshake

  lemma CounterAppend(times: seq<nat>, now: nat)
    ensures CounterOf(times + [now]) == Add(CounterOf(times), now) && CounterOf([]) == []
    ensures multiset(times + [now]) == multiset(times) + multiset{now}
  {
    assert (times + [now])[..|times|] == times;
  }

  lemma FloodAside(log: Log, h: Host, now: nat, flood: map<Host, Counter>, ft: Times)
    requires FloodFrom(flood, ft, log)
    ensures FloodFrom(flood, ft, log + [Handshake(h, now)])
    ensures FloodAll(ft, log) ==> FloodAll(ft, log + [Handshake(h, now)])
  {
    Appended(log, Handshake(h, now));
  }

  function CounterAt(trusted: map<Host, Trusted>, h: Host): Counter { if h in trusted then trusted[h].recent else [] }

  lemma TrustSoFar(h: Host, trusted: map<Host, Trusted>, tt: Times)
    requires TrustedFrom(trusted, tt)
    ensures CounterAt(trusted, h) == CounterOf(At(tt, h))
    ensures h in trusted <==> At(tt, h) != []
    ensures h in trusted ==> trusted[h].last == At(tt, h)[|At(tt, h)| - 1]
  {
    if h in trusted { assert TrustShown(trusted[h], tt[h]); }
  }

  lemma TrustCounted(log: Log, h: Host, now: nat, trusted: map<Host, Trusted>, tt: Times)
    requires TrustedFrom(trusted, tt)
    ensures TrustedFrom(trusted[h := Trusted(now, Add(CounterAt(trusted, h), now))], tt[h := At(tt, h) + [now]])
    ensures TrustAll(tt, log) ==> TrustAll(tt[h := At(tt, h) + [now]], log + [Handshake(h, now)])
  {
    Appended(log, Handshake(h, now));
    hide Add, CounterOf, CounterAt;
    TrustSoFar(h, trusted, tt);
    CounterAppend(At(tt, h), now);
    forall k | At(tt, k) == Handshakes(log, k)
      ensures At(tt[h := At(tt, h) + [now]], k) == Handshakes(log + [Handshake(h, now)], k)
    {
    }
  }

  lemma SteadyCounted(times: Times, h: Host, clock: nat)
    requires TimesSteady(times, clock)
    ensures TimesSteady(times[h := At(times, h) + [clock]], clock)
  {
    var longer := At(times, h) + [clock];
    forall i, j | 0 <= i < j < |longer| ensures longer[i] <= longer[j] {
      if j == |longer| - 1 { assert At(times, h)[i] in At(times, h); }
    }
  }

  // ----- a refusal

  lemma RefusalsAppend(log: Log, h: Host, now: nat, fate: Fate)
    requires fate != InBurst
    ensures forall k :: Refusals(log + [Refusal(h, now, fate)], k) ==
                        if k == h then Refusals(log, h) + [now] else Refusals(log, k)
    ensures forall k :: Handshakes(log + [Refusal(h, now, fate)], k) == Handshakes(log, k)
  {
    Appended(log, Refusal(h, now, fate));
  }

  lemma FloodCounted(log: Log, h: Host, now: nat, fate: Fate, flood: map<Host, Counter>, ft: Times, tt: Times)
    requires FloodFrom(flood, ft, log) && fate != InBurst
    ensures var log' := log + [Refusal(h, now, fate)];
            && FloodFrom(flood[h := Add(if h in flood then flood[h] else [], now)], ft[h := At(ft, h) + [now]], log')
            && (FloodAll(ft, log) ==> FloodAll(ft[h := At(ft, h) + [now]], log'))
            && (TrustAll(tt, log) ==> TrustAll(tt, log'))
  {
    hide Add, CounterOf, Refusals, Handshakes;
    RefusalsAppend(log, h, now, fate);
    CounterAppend(At(ft, h), now);
    CounterAppend(Refusals(log, h), now);
    forall k | At(ft, k) == Refusals(log, k)
      ensures At(ft[h := At(ft, h) + [now]], k) == Refusals(log + [Refusal(h, now, fate)], k)
    {
    }
  }

  lemma {:induction false} FilterDistinct(keep: nat -> bool, s: seq<nat>)
    requires Distinct(s)
    ensures Distinct(Filter(keep, s))
  {
    if s != [] {
      FilterDistinct(keep, s[1..]);
      assert forall t :: t in s[1..] ==> t != s[0];
    }
  }

  /** The pending seconds that still count. */
  function Retained(seconds: seq<nat>, now: nat): (r: seq<nat>)
    ensures forall t :: t in r <==> t in seconds && Within(t, now, REJECTION_WINDOW_SECS)
    ensures |r| <= |seconds|
  {
    Filter((t: nat) => Within(t, now, REJECTION_WINDOW_SECS), seconds)
  }

  /** The second of the refusal is added to them if it is a new one. */
  function With(kept: seq<nat>, now: nat): (r: seq<nat>)
    ensures forall t :: t in r <==> t in kept || t == now
  {
    if now in kept then kept else kept + [now]
  }

  lemma PendingCounted(log: Log, h: Host, now: nat, pending: Pending)
    requires PendingFrom(pending, log)
    ensures var log' := log + [Refusal(h, now, Counted)];
            var seconds := With(Retained(At(pending, h), now), now);
            && PendingFrom(pending[h := seconds], log') && Distinct(seconds)
            && (PendingAll(pending, log, now) ==> PendingAll(pending[h := seconds], log', now))
  {
    FilterDistinct((t: nat) => Within(t, now, REJECTION_WINDOW_SECS), At(pending, h));
    Appended(log, Refusal(h, now, Counted));
    var seconds := With(Retained(At(pending, h), now), now);
    forall k | Covers(At(pending, k), Since(log, k), now)
      ensures Covers(At(pending[h := seconds], k), Since(log + [Refusal(h, now, Counted)], k), now)
    {
    }
  }

  lemma {:induction false} DistinctSize(s: seq<nat>)
    requires Distinct(s)
    ensures |Seconds(s)| == |s|
  {
    if s != [] {
      var n := |s| - 1;
      DistinctSize(s[..n]);
      assert Seconds(s) == Seconds(s[..n]) + {s[n]};
    }
  }

  /** Three pending seconds are three seconds of the log, and the other way round if nothing was
      dropped. */
  lemma PendingShowsThree(log: Log, h: Host, now: nat, seconds: seq<nat>)
    requires Distinct(seconds) && Seconds(seconds) <= Lately(Since(log, h), now)
    ensures |seconds| >= SILENT_REFUSALS ==> ThreeSeconds(log, h, now)
    ensures Covers(seconds, Since(log, h), now) ==> (|seconds| >= SILENT_REFUSALS <==> ThreeSeconds(log, h, now))
  {
    var shown := Lately(Since(log, h), now);
    DistinctSize(seconds);
    SubsetSize(Seconds(seconds), shown);
    if Covers(seconds, Since(log, h), now) { SubsetSize(shown, Seconds(seconds)); }
  }

  // ----- a flood

  lemma FewerInMinute(a: seq<nat>, b: seq<nat>, now: nat)
    requires multiset(a) <= multiset(b)
    ensures |Minute(a, now)| <= |Minute(b, now)|
    ensures |Seconds(Minute(a, now))| <= |Seconds(Minute(b, now))|
  {
    hide Minute, Within;
    MinuteMultiset(a, now);
    MinuteMultiset(b, now);
    var x, y := Minute(a, now), Minute(b, now);
    assert multiset(x) <= multiset(y);
    FewerTimes(x, y);
  }

  lemma FewerTimes(x: seq<nat>, y: seq<nat>)
    requires multiset(x) <= multiset(y)
    ensures |x| <= |y| && |Seconds(x)| <= |Seconds(y)|
  {
    assert |multiset(y)| == |multiset(x)| + |multiset(y) - multiset(x)|;
    forall t | t in Seconds(x) ensures t in Seconds(y) {
      assert t in multiset(x);
      assert t in multiset(y);
    }
    SubsetSize(Seconds(x), Seconds(y));
  }

  predicate IsFlood(refusals: nat, seconds: nat, handshakes: nat) {
    seconds >= SILENT_FLOOD_SECONDS && refusals >= handshakes * SILENT_FLOOD_RATIO
  }

  /** Whatever the clock does, a counted flood is one of the log; and the other way round if the
      clock did not go back and nothing was dropped. */
  lemma CounterShowsFlood(log: Log, h: Host, now: nat, times: seq<nat>, handshakes: nat)
    requires multiset(times) <= multiset(Refusals(log, h))
    ensures var (refusals, seconds) := Count(CounterOf(times), now);
            && (IsFlood(refusals, seconds, handshakes) ==> FloodOf(log, h, now, handshakes))
            && (Steady(times) && (forall t :: t in times ==> t <= now) && times == Refusals(log, h) ==>
                  (IsFlood(refusals, seconds, handshakes) <==> FloodOf(log, h, now, handshakes)))
  {
    hide Minute, Count, CounterOf, Steady;
    CountIsSound(times, now);
    if Steady(times) && forall t :: t in times ==> t <= now { CountIsExact(times, now); }
    FewerInMinute(times, Refusals(log, h), now);
  }

  // ----- each table, on any run

  /** The pending refusals are those of the log, and all of them while the tables had room. */
  ghost predicate PendingOk(pending: Pending, log: Log, clock: nat, steady: bool, crowded: bool) {
    && |pending| <= MAX_RECENT_REJECTIONS
    && PendingFrom(pending, log)
    && (steady && !crowded ==> PendingAll(pending, log, clock))
  }

  /** The same for the refusals counted. */
  ghost predicate FloodOk(flood: map<Host, Counter>, ft: Times, log: Log, clock: nat, steady: bool, crowded: bool) {
    && |flood| <= MAX_RECENT_REJECTIONS
    && FloodFrom(flood, ft, log)
    && (steady ==> TimesSteady(ft, clock))
    && (!crowded ==> FloodAll(ft, log))
  }

  /** The same for the handshakes counted. */
  ghost predicate TrustOk(trusted: map<Host, Trusted>, tt: Times, log: Log, clock: nat, steady: bool, crowded: bool) {
    && |trusted| <= MAX_RECENT_REJECTIONS
    && TrustedFrom(trusted, tt)
    && (steady ==> TimesSteady(tt, clock))
    && (!crowded ==> TrustAll(tt, log))
  }

  ghost predicate TablesOk(pending: Pending, flood: map<Host, Counter>, ft: Times, trusted: map<Host, Trusted>,
                           tt: Times, log: Log, clock: nat, steady: bool, crowded: bool) {
    && PendingOk(pending, log, clock, steady, crowded)
    && FloodOk(flood, ft, log, clock, steady, crowded)
    && TrustOk(trusted, tt, log, clock, steady, crowded)
  }

  lemma Later(pending: Pending, flood: map<Host, Counter>, ft: Times, trusted: map<Host, Trusted>, tt: Times,
              log: Log, clock: nat, now: nat, steady: bool, crowded: bool)
    requires TablesOk(pending, flood, ft, trusted, tt, log, clock, steady, crowded)
    ensures TablesOk(pending, flood, ft, trusted, tt, log, now, steady && clock <= now, crowded)
  {
    hide TimesSteady, PendingFrom, FloodFrom, TrustedFrom, PendingAll, FloodAll, TrustAll;
    if steady && clock <= now {
      LaterSteady(ft, clock, now);
      LaterSteady(tt, clock, now);
      if !crowded { LaterPending(pending, log, clock, now); }
    }
  }

  /** A host is learned or forgotten. */
  lemma HostEnded(pending: Pending, flood: map<Host, Counter>, ft: Times, trusted: map<Host, Trusted>, tt: Times,
                  log: Log, clock: nat, steady: bool, crowded: bool, e: Event)
    requires TablesOk(pending, flood, ft, trusted, tt, log, clock, steady, crowded)
    requires e.Learned? || e.Forget?
    ensures TablesOk(pending - {e.host}, flood - {e.host}, ft - {e.host}, trusted, tt, log + [e], clock, steady,
                     crowded)
  {
    hide TimesSteady, PendingFrom, FloodFrom, TrustedFrom, PendingAll, FloodAll, TrustAll;
    PendingEnded(log, e, pending, clock);
    FloodEnded(log, e, flood, ft, tt, clock);
    WithoutSize(pending, e.host);
    WithoutSize(flood, e.host);
  }

  /** A burst or a network change. */
  lemma EverythingEnded(pending: Pending, flood: map<Host, Counter>, ft: Times, trusted: map<Host, Trusted>, tt: Times,
                        log: Log, clock: nat, steady: bool, crowded: bool, e: Event)
    requires TablesOk(pending, flood, ft, trusted, tt, log, clock, steady, crowded) && EndsAll(e)
    ensures TablesOk(map[], map[], map[], trusted, tt, log + [e], clock, steady, crowded)
  {
    hide PendingFrom, FloodFrom, TrustedFrom, PendingAll, FloodAll, TrustAll;
    AllEnded(log, e, tt, clock);
  }

  ghost predicate Submap<V>(m: map<Host, V>, fewer: map<Host, V>) {
    |fewer| <= |m| && forall h :: h in fewer ==> h in m && fewer[h] == m[h]
  }

  /** Room is made in a table; it was full if that dropped anything. */
  lemma RoomForPending(pending: Pending, flood: map<Host, Counter>, ft: Times, trusted: map<Host, Trusted>, tt: Times,
                       log: Log, clock: nat, steady: bool, crowded: bool, fewer: Pending)
    requires TablesOk(pending, flood, ft, trusted, tt, log, clock, steady, crowded) && Submap(pending, fewer)
    ensures TablesOk(fewer, flood, ft, trusted, tt, log, clock, steady, crowded || fewer != pending)
  {
    hide PendingFrom, PendingAll, FloodFrom, FloodAll, TrustedFrom, TrustAll, TimesSteady;
    FewerPending(log, pending, fewer);
  }

  lemma RoomForFlood(pending: Pending, flood: map<Host, Counter>, ft: Times, trusted: map<Host, Trusted>, tt: Times,
                     log: Log, clock: nat, steady: bool, crowded: bool, fewer: map<Host, Counter>)
    requires TablesOk(pending, flood, ft, trusted, tt, log, clock, steady, crowded) && Submap(flood, fewer)
    ensures TablesOk(pending, fewer, Restrict(ft, fewer.Keys), trusted, tt, log, clock, steady,
                     crowded || fewer != flood)
  {
    hide PendingFrom, PendingAll, FloodFrom, FloodAll, TrustedFrom, TrustAll, TimesSteady, Restrict;
    FewerFlood(log, flood, ft, fewer, clock);
  }

  lemma RoomForTrust(pending: Pending, flood: map<Host, Counter>, ft: Times, trusted: map<Host, Trusted>, tt: Times,
                     log: Log, clock: nat, steady: bool, crowded: bool, fewer: map<Host, Trusted>)
    requires TablesOk(pending, flood, ft, trusted, tt, log, clock, steady, crowded) && Submap(trusted, fewer)
    ensures TablesOk(pending, flood, ft, fewer, Restrict(tt, fewer.Keys), log, clock, steady,
                     crowded || fewer != trusted)
  {
    hide PendingFrom, PendingAll, FloodFrom, FloodAll, TrustedFrom, TrustAll, TimesSteady, Restrict;
    FewerTrusted(trusted, tt, fewer, clock);
  }

  /** A handshake. */
  lemma HandshakeDone(pending: Pending, flood: map<Host, Counter>, ft: Times, trusted: map<Host, Trusted>, tt: Times,
                      log: Log, clock: nat, steady: bool, crowded: bool, h: Host)
    requires TablesOk(pending, flood, ft, trusted, tt, log, clock, steady, crowded)
    requires h in trusted || |trusted| < MAX_RECENT_REJECTIONS
    ensures var log' := log + [Handshake(h, clock)];
            var trust := Trusted(clock, Add(CounterAt(trusted, h), clock));
            TablesOk(pending - {h}, flood, ft, trusted[h := trust], tt[h := At(tt, h) + [clock]], log', clock, steady,
                     crowded)
  {
    hide TimesSteady, PendingFrom, FloodFrom, TrustedFrom, PendingAll, FloodAll, TrustAll, Add, CounterAt, At;
    PendingEnded(log, Handshake(h, clock), pending, clock);
    WithoutSize(pending, h);
    FloodAside(log, h, clock, flood, ft);
    TrustCounted(log, h, clock, trusted, tt);
    WithSize(trusted, h, Trusted(clock, Add(CounterAt(trusted, h), clock)));
    if steady { SteadyCounted(tt, h, clock); }
  }

  function FloodAt(flood: map<Host, Counter>, h: Host): Counter { if h in flood then flood[h] else [] }

  /** A refusal is counted for a flood. */
  lemma RefusalCounted(flood: map<Host, Counter>, ft: Times, trusted: map<Host, Trusted>, tt: Times,
                       log: Log, clock: nat, steady: bool, crowded: bool, h: Host, fate: Fate)
    requires FloodOk(flood, ft, log, clock, steady, crowded)
    requires TrustOk(trusted, tt, log, clock, steady, crowded)
    requires (h in flood || |flood| < MAX_RECENT_REJECTIONS) && fate != InBurst
    ensures var log' := log + [Refusal(h, clock, fate)];
            && FloodOk(flood[h := Add(FloodAt(flood, h), clock)], ft[h := At(ft, h) + [clock]], log', clock, steady,
                       crowded)
            && TrustOk(trusted, tt, log', clock, steady, crowded)
  {
    hide TimesSteady, FloodFrom, TrustedFrom, FloodAll, TrustAll, Add, At;
    FloodCounted(log, h, clock, fate, flood, ft, tt);
    WithSize(flood, h, Add(FloodAt(flood, h), clock));
    if steady { SteadyCounted(ft, h, clock); }
  }

  /** A refusal that a handshake holds back, and one that is pending. */
  lemma RefusalHeldBack(pending: Pending, log: Log, clock: nat, steady: bool, crowded: bool, h: Host)
    requires PendingOk(pending, log, clock, steady, crowded)
    ensures PendingOk(pending - {h}, log + [Refusal(h, clock, HeldBack)], clock, steady, crowded)
  {
    hide PendingFrom, PendingAll;
    PendingEnded(log, Refusal(h, clock, HeldBack), pending, clock);
    WithoutSize(pending, h);
  }

  lemma RefusalPending(pending: Pending, log: Log, clock: nat, steady: bool, crowded: bool, h: Host)
    requires PendingOk(pending, log, clock, steady, crowded) && (h in pending || |pending| < MAX_RECENT_REJECTIONS)
    ensures var log' := log + [Refusal(h, clock, Counted)];
            var seconds := With(Retained(At(pending, h), clock), clock);
            PendingOk(pending[h := seconds], log', clock, steady, crowded)
  {
    hide PendingFrom, PendingAll;
    WithSize(pending, h, With(Retained(At(pending, h), clock), clock));
    PendingCounted(log, h, clock, pending);
  }

  lemma Shown(pending: Pending, log: Log, now: nat, all: bool, h: Host)
    requires PendingFrom(pending, log) && h in pending && (all ==> PendingAll(pending, log, now))
    requires forall t :: t in pending[h] ==> Within(t, now, REJECTION_WINDOW_SECS)
    ensures Seconds(pending[h]) <= Lately(Since(log, h), now)
    ensures all ==> Covers(pending[h], Since(log, h), now)
  {
    if all { assert Covers(At(pending, h), Since(log, h), now); }
  }

  lemma HandshakesExact(trusted: map<Host, Trusted>, tt: Times, log: Log, clock: nat, h: Host)
    requires TrustOk(trusted, tt, log, clock, true, false)
    ensures Count(CounterAt(trusted, h), clock).0 == Saturate(|Minute(Handshakes(log, h), clock)|)
  {
    hide Count, CounterOf, CounterAt, Minute, TrustShown;
    TrustSoFar(h, trusted, tt);
    assert At(tt, h) == Handshakes(log, h);
    CountIsExact(At(tt, h), clock);
  }

  lemma FloodExact(flood: map<Host, Counter>, ft: Times, log: Log, clock: nat, steady: bool, crowded: bool, h: Host,
                   handshakes: nat)
    requires FloodOk(flood, ft, log, clock, steady, crowded) && h in flood
    ensures var (refusals, seconds) := Count(flood[h], clock);
            && (IsFlood(refusals, seconds, handshakes) ==> FloodOf(log, h, clock, handshakes))
            && (steady && !crowded ==> (IsFlood(refusals, seconds, handshakes) <==> FloodOf(log, h, clock, handshakes)))
  {
    hide Count, CounterOf, Steady, FloodOf, IsFlood;
    CounterShowsFlood(log, h, clock, ft[h], handshakes);
    if !crowded { assert At(ft, h) == Refusals(log, h); }
  }

  /** Whether a handshake holds back the host's refusals. */
  predicate Guarded(trusted: map<Host, Trusted>, host: Host, now: nat) {
    host in trusted && Within(trusted[host].last, now, REJECTION_WINDOW_SECS)
  }

  lemma GuardDecided(trusted: map<Host, Trusted>, tt: Times, log: Log, clock: nat, steady: bool, h: Host)
    requires TrustOk(trusted, tt, log, clock, steady, false)
    ensures var handshakes := Handshakes(log, h);
            Guarded(trusted, h, clock) <==>
            handshakes != [] && Within(handshakes[|handshakes| - 1], clock, REJECTION_WINDOW_SECS)
  {
    TrustSoFar(h, trusted, tt);
    assert At(tt, h) == Handshakes(log, h);
  }

  lemma NothingYet(clock: nat)
    ensures TablesOk(map[], map[], map[], map[], map[], [], clock, true, false)
  {
  }

  /** One silent refusal in all tables that have room for it. */
  lemma RefusalTables(pending: Pending, flood: map<Host, Counter>, ft: Times, trusted: map<Host, Trusted>, tt: Times,
                      log: Log, clock: nat, steady: bool, crowded: bool, h: Host, fate: Fate)
    requires TablesOk(pending, flood, ft, trusted, tt, log, clock, steady, crowded) && fate != InBurst
    requires h in flood || |flood| < MAX_RECENT_REJECTIONS
    requires fate == Counted ==> h in pending || |pending| < MAX_RECENT_REJECTIONS
    ensures var seconds := With(Retained(At(pending, h), clock), clock);
            var pending' := if fate == HeldBack then pending - {h} else pending[h := seconds];
            TablesOk(pending', flood[h := Add(FloodAt(flood, h), clock)], ft[h := At(ft, h) + [clock]], trusted, tt,
                     log + [Refusal(h, clock, fate)], clock, steady, crowded)
  {
    hide PendingOk, FloodOk, TrustOk, Add, FloodAt, At, Retained, With;
    RefusalCounted(flood, ft, trusted, tt, log, clock, steady, crowded, h, fate);
    if fate == HeldBack {
      RefusalHeldBack(pending, log, clock, steady, crowded, h);
    } else {
      RefusalPending(pending, log, clock, steady, crowded, h);
    }
  }

  /** With what is counted after a refusal of the host, whether it is learned. */
  ghost function LearnsFrom(seconds: seq<nat>, flood: map<Host, Counter>, trusted: map<Host, Trusted>, h: Host,
                            now: nat): bool
    requires h in flood
  {
    if Guarded(trusted, h, now) then
      var (refusals, different) := Count(flood[h], now);
      IsFlood(refusals, different, Count(CounterAt(trusted, h), now).0)
    else
      |seconds| >= SILENT_REFUSALS
  }

  /** The decision taken on the tables is the rule about the log, for a run with a steady clock
      and tables that had room; and on any other run, a host is learned only on the evidence
      that the rule asks for. */
  lemma Decided(pending: Pending, flood: map<Host, Counter>, ft: Times, trusted: map<Host, Trusted>, tt: Times,
                log: Log, clock: nat, steady: bool, crowded: bool, h: Host)
    requires TablesOk(pending, flood, ft, trusted, tt, log, clock, steady, crowded) && h in flood
    requires !Guarded(trusted, h, clock) ==>
               h in pending && forall t :: t in pending[h] ==> Within(t, clock, REJECTION_WINDOW_SECS)
    ensures var learned := LearnsFrom(At(pending, h), flood, trusted, h, clock);
            && (learned && !Guarded(trusted, h, clock) ==> ThreeSeconds(log, h, clock))
            && (learned && Guarded(trusted, h, clock) ==>
                  FloodOf(log, h, clock, Count(CounterAt(trusted, h), clock).0))
            && (steady && !crowded ==> (learned <==> Teaches(log, h, clock)))
  {
    hide Count, ThreeSeconds, FloodOf, IsFlood, PendingFrom, PendingAll, Within, Handshakes, Since;
    if Guarded(trusted, h, clock) {
      FloodExact(flood, ft, log, clock, steady, crowded, h, Count(CounterAt(trusted, h), clock).0);
    } else {
      Shown(pending, log, clock, steady && !crowded, h);
      PendingShown(pending, log, h);
      PendingShowsThree(log, h, clock, pending[h]);
    }
    if steady && !crowded {
      GuardDecided(trusted, tt, log, clock, steady, h);
      HandshakesExact(trusted, tt, log, clock, h);
    }
  }

  lemma PendingShown(pending: Pending, log: Log, h: Host)
    requires PendingFrom(pending, log) && h in pending
    ensures Distinct(pending[h])
  {
  }

  lemma TablesFit(pending: Pending, flood: map<Host, Counter>, ft: Times, trusted: map<Host, Trusted>, tt: Times,
                  log: Log, clock: nat, steady: bool, crowded: bool)
    requires TablesOk(pending, flood, ft, trusted, tt, log, clock, steady, crowded)
    ensures |pending| <= MAX_RECENT_REJECTIONS && |flood| <= MAX_RECENT_REJECTIONS && |trusted| <= MAX_RECENT_REJECTIONS
  {
  }

  /** An alert, or a silent refusal before it is looked at, is no evidence yet. */
  lemma TablesAside(pending: Pending, flood: map<Host, Counter>, ft: Times, trusted: map<Host, Trusted>, tt: Times,
                    log: Log, clock: nat, steady: bool, crowded: bool, e: Event)
    requires TablesOk(pending, flood, ft, trusted, tt, log, clock, steady, crowded) && (e.Alert? || e.HungUp?)
    ensures TablesOk(pending, flood, ft, trusted, tt, log + [e], clock, steady, crowded)
  {
    hide CounterOf, TimesSteady, TrustedFrom, Since, Refusals, Handshakes, PendingAll;
    AsideLogged(log, e);
    if steady && !crowded { PendingAllSame(pending, log, log + [e], clock); }
  }

  lemma AsideLogged(log: Log, e: Event)
    requires e.Alert? || e.HungUp?
    ensures forall h :: Since(log + [e], h) == Since(log, h)
    ensures forall h :: Refusals(log + [e], h) == Refusals(log, h)
    ensures forall h :: Handshakes(log + [e], h) == Handshakes(log, h)
  {
    Appended(log, e);
  }

  lemma PendingAllSame(pending: Pending, log: Log, log': Log, clock: nat)
    requires PendingAll(pending, log, clock) && forall h :: Since(log', h) == Since(log, h)
    ensures PendingAll(pending, log', clock)
  {
    hide Since;
    forall h ensures Covers(At(pending, h), Since(log', h), clock) {
      assert Covers(At(pending, h), Since(log, h), clock);
    }
  }

  lemma TablesCrowded(pending: Pending, flood: map<Host, Counter>, ft: Times, trusted: map<Host, Trusted>, tt: Times,
                      log: Log, clock: nat, steady: bool, crowded: bool, more: bool)
    requires TablesOk(pending, flood, ft, trusted, tt, log, clock, steady, crowded)
    ensures TablesOk(pending, flood, ft, trusted, tt, log, clock, steady, crowded || more)
  {
    hide PendingFrom, PendingAll, FloodFrom, FloodAll, TrustedFrom, TrustAll, TimesSteady;
  }
}
