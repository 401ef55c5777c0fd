/** Pin learning (policy.rs) in plain terms: when each call of the policy learns a host, and which pins
    each call drops, on the record and on the history. */
module PinMeaning {
  import opened Bytes
  import opened PerSecond
  import opened PinRules
  import opened PinEvidence
  import opened PinNotes
  import opened PinLearning

  /** At most `age` seconds ago, and no more than an hour ahead. */
  predicate Near(at: nat, now: nat, age: nat) { at <= now + 3600 && now <= at + age }

  lemma WithinIsNear(at: nat, now: nat, age: nat)
    ensures Within(at, now, age) <==> Near(at, now, age)
  {
  }

  /** Refusals make a host worth keeping in a full table if one is of the last ten minutes. */
  lemma KeptForRefusals(seconds: seq<nat>, now: nat)
    ensures AnyWithin(seconds, now) <==> exists i :: 0 <= i < |seconds| && Near(seconds[i], now, 600)
  {
    if AnyWithin(seconds, now) {
      var t :| t in seconds && Within(t, now, REJECTION_WINDOW_SECS);
      var i :| 0 <= i < |seconds| && seconds[i] == t;
      assert Near(seconds[i], now, 600);
    }
    forall i | 0 <= i < |seconds| && Near(seconds[i], now, 600) ensures AnyWithin(seconds, now) {
      assert seconds[i] in seconds && Within(seconds[i], now, REJECTION_WINDOW_SECS);
    }
  }

  const DAY: nat := 86400

  /** The host is pinned: for less than thirty days. */
  predicate Pinned(pins: Pins, host: Host, now: nat) {
    host in pins && pins[host] <= now + 3600 && now < pins[host] + 30 * DAY
  }

  /** Pruning keeps exactly the pins of the last thirty days. */
  lemma PrunedExactly(l: Learning, host: Host, now: nat)
    ensures host in Pruned(l, now).pins <==> Pinned(l.pins, host, now)
    ensures host in Pruned(l, now).pins ==> Pruned(l, now).pins[host] == l.pins[host]
  {
  }

  // ----- alerts

  /** The host's last alert that made no pin was in the last ten minutes. */
  predicate AlertedLately(log: Log, host: Host, now: nat) {
    LastAlert(log, host).Some? && Near(LastAlert(log, host).value, now, 600)
  }

  /** An alert teaches exactly a host with a name, not pinned, with another alert in the last ten
      minutes: on the record, and on the history while no table was full. */
  lemma AlertTeachesExactly(l: Learning, g: History, l': Learning, g': History, host: Host, now: nat, learned: bool)
    requires Rejected(l, g, l', g', host, now, learned)
    ensures learned <==>
            host.name != [] && !Pinned(l.pins, host, now) && host in l.recent && Near(l.recent[host], now, 600)
    ensures !g.crowded ==>
              (learned <==> host.name != [] && !Pinned(l.pins, host, now) && AlertedLately(g.log, host, now))
    ensures learned ==> host in l'.pins && l'.pins[host] == now
  {
    hide Live, LastAlert, OthersStay, AlertIn, WithoutRefusals, LearnedHistory;
    PrunedExactly(l, host, now);
  }

  // ----- upstream failures

  /** Failures are held back at `now` until this time, if it is not too far ahead. */
  predicate HeldBackUntil(until: Option<nat>, now: nat, length: nat) {
    until.Some? && now < until.value && until.value <= now + length
  }

  lemma SuppressesIs(until: Option<nat>, now: nat, length: nat)
    ensures Suppresses(until, now, length) <==> HeldBackUntil(until, now, length)
  {
  }

  /** A burst within so many seconds before `now`. */
  predicate BurstLately(burst: Option<nat>, now: nat, length: nat) { burst.Some? && now < burst.value + length }

  /** With a steady clock, what holds back is a burst of the history. */
  lemma HeldBackByBurst(l: Learning, g: History, now: nat)
    requires Sound(l, g) && g.steady && g.clock <= now
    ensures HeldBackUntil(l.upstreamSuppressedUntil, now, 600) <==> BurstLately(g.upstreamBurst, now, 600)
    ensures HeldBackUntil(l.silentSuppressedUntil, now, 60) <==> BurstLately(g.silentBurst, now, 60)
  {
    hide PinsOk, TablesOk, NotesOk, Short, Hushed;
    HushedSuppresses(g.upstreamBurst, l.upstreamSuppressedUntil, g.clock, now, 600);
    HushedSuppresses(g.silentBurst, l.silentSuppressedUntil, g.clock, now, 60);
    SuppressesIs(l.upstreamSuppressedUntil, now, 600);
    SuppressesIs(l.silentSuppressedUntil, now, 60);
  }

  /** The hosts on the list with an entry of the last minute. */
  function FailedLately(list: seq<Fresh>, now: nat): set<Host> { set e | e in list && Near(e.at, now, 60) :: e.host }

  lemma BurstIs(l: Learning, now: nat)
    ensures IsUpstreamBurst(TrimmedList(UpstreamHushKept(Pruned(l, now), now), now), now) <==>
            |FailedLately(l.upstream, now)| >= 2
  {
    var t := TrimmedList(UpstreamHushKept(Pruned(l, now), now), now);
    assert HostsOf(Burst(t, now)) == FailedLately(l.upstream, now);
  }

  /** An upstream failure teaches exactly a host with a name, not pinned, while no burst holds it back
      and fewer than two hosts failed in the last minute. With a steady clock, what holds it back is
      a burst of the last ten minutes, and nothing else. */
  lemma FailureTeachesExactly(l: Learning, g: History, l': Learning, g': History, host: Host, now: nat, learned: bool)
    requires Sound(l, g) && UpstreamFailed(l, g, l', g', host, now, learned)
    ensures learned <==>
            && host.name != [] && !Pinned(l.pins, host, now) && !HeldBackUntil(l.upstreamSuppressedUntil, now, 600)
            && |FailedLately(l.upstream, now)| < 2
    ensures g.steady && g.clock <= now ==>
              (learned <==>
                 && host.name != [] && !Pinned(l.pins, host, now) && !BurstLately(g.upstreamBurst, now, 600)
                 && |FailedLately(l.upstream, now)| < 2)
    ensures learned ==> host in l'.pins && l'.pins[host] == now
  {
    hide SoundBut, Live, OthersStay, NoneYoung, WithoutRefusals, LearnedHistory, Recent, HostsOf, TakenBack, Older,
         IsUpstreamBurst;
    PrunedExactly(l, host, now);
    SuppressesIs(l.upstreamSuppressedUntil, now, 600);
    BurstIs(l, now);
    if g.steady && g.clock <= now { HeldBackByBurst(l, g, now); }
  }

  /** A failure that is not held back, of a host not pinned, beside two others takes back exactly the
      pins listed in the last minute, and holds failures back for ten minutes. */
  lemma FailuresTogether(l: Learning, g: History, l': Learning, g': History, host: Host, now: nat, learned: bool,
                         h: Host)
    requires Sound(l, g) && UpstreamFailed(l, g, l', g', host, now, learned)
    requires host.name != [] && !Pinned(l.pins, host, now) && !HeldBackUntil(l.upstreamSuppressedUntil, now, 600)
    requires |FailedLately(l.upstream, now)| >= 2
    ensures l'.upstreamSuppressedUntil == Some(now + 600) && g'.upstreamBurst == Some(now)
    ensures h in l'.pins <==>
            && Pinned(l.pins, h, now)
            && !(Fresh(h, l.pins[h]) in l.upstream && Near(l.pins[h], now, 60))
    ensures h in l'.pins ==> l'.pins[h] == l.pins[h]
  {
    hide SoundBut, OthersStay, NoneYoung, WithoutRefusals, LearnedHistory, IsUpstreamBurst, Live;
    PrunedExactly(l, host, now);
    PrunedExactly(l, h, now);
    SuppressesIs(l.upstreamSuppressedUntil, now, 600);
    BurstIs(l, now);
  }

  // ----- silent refusals

  /** The hosts of the table refused within ten seconds, and this one. */
  function RefusedLately(hosts: map<Host, nat>, host: Host, now: nat): set<Host> {
    (set h | h in hosts && Near(hosts[h], now, 10)) + {host}
  }

  lemma RefusedIs(hosts: map<Host, nat>, host: Host, now: nat)
    ensures Refused(hosts, host, now).Keys == RefusedLately(hosts, host, now)
    ensures |Refused(hosts, host, now)| == |RefusedLately(hosts, host, now)|
  {
    var m := Refused(hosts, host, now);
    assert m.Keys == RefusedLately(hosts, host, now);
    assert |m| == |m.Keys|;
  }

  /** A refusal goes on to be considered exactly for a host with a name, not pinned, with fewer than
      four hosts refused within ten seconds and no burst that holds it back. */
  predicate MayTeach(l: Learning, host: Host, now: nat) {
    && host.name != [] && !Pinned(l.pins, host, now) && |RefusedLately(l.silentHosts, host, now)| < 4
    && !HeldBackUntil(l.silentSuppressedUntil, now, 60)
  }

  /** The handshake of a client with the host in the last ten minutes. */
  predicate HandshakeLately(log: Log, host: Host, now: nat) {
    var hs := Handshakes(log, host);
    hs != [] && Near(hs[|hs| - 1], now, 600)
  }

  /** The history with this refusal: it hung up, and counts or is held back. */
  ghost function WithRefusal(log: Log, host: Host, now: nat): Log {
    log + [HungUp(host, now)] + [Refusal(host, now, if HandshakeLately(log, host, now) then HeldBack else Counted)]
  }

  /** Enough refusals: after a handshake in the last ten minutes, refusals in ten different seconds of
      the last minute, five times as many as handshakes; without one, refusals in three different
      seconds of the last ten minutes. */
  ghost predicate Enough(log: Log, host: Host, now: nat) {
    if HandshakeLately(log, host, now) then
      && |set t | t in Refusals(log, host) && Near(t, now, 60)| >= 10
      && Saturate(|Minute(Refusals(log, host), now)|) >= 5 * Saturate(|Minute(Handshakes(log, host), now)|)
    else |set t | t in Since(log, host) && Near(t, now, 600)| >= 3
  }

  lemma {:induction false} MinuteIs(times: seq<nat>, now: nat)
    ensures forall t :: t in Minute(times, now) <==> t in times && Near(t, now, 60)
  {
    if times != [] {
      var n := |times| - 1;
      MinuteIs(times[..n], now);
      assert times == times[..n] + [times[n]];
    }
  }

  lemma TeachesIsEnough(log: Log, host: Host, now: nat)
    ensures Teaches(log, host, now) <==> Enough(log, host, now)
  {
    hide Since, Refusals, Handshakes, Minute;
    MinuteIs(Refusals(log, host), now);
    assert Seconds(Minute(Refusals(log, host), now)) == set t | t in Refusals(log, host) && Near(t, now, 60);
    assert Lately(Since(log, host), now) == set t | t in Since(log, host) && Near(t, now, 600);
  }

  /** While no table was full, the table of handshakes tells whether one was lately. */
  lemma GuardedIsLately(l: Learning, g: History, host: Host, now: nat)
    requires Sound(l, g) && !g.crowded
    ensures Guarded(l.trusted, host, now) <==> HandshakeLately(g.log, host, now)
  {
    TickedSound(l, g, now);
    hide PinsOk, HushOk, NotesOk, Short, PendingOk, FloodOk, Handshakes;
    var g' := Ticked(g, now);
    GuardDecided(l.trusted, g'.trustTimes, g'.log, now, g'.steady, host);
  }

  lemma ConsideredTeaches(l: Learning, g: History, l': Learning, g': History, host: Host, learned: bool)
    requires Considered(l, g, l', g', host, learned) && g.steady && !g'.crowded
    ensures learned <==> Teaches(Said(l, g, host), host, g.clock)
    ensures !g.crowded
  {
    hide OneMore, Add, FloodAt, Retained, Teaches, ThreeSeconds, FloodOf, Guarded, With, Full, PinnedBySilence;
    if learned {
      var c, d :| PinnedFrom(l, g, c, d, l', g', host);
    }
  }

  /** The record and the history that a refusal which may teach is considered on. */
  ghost predicate ConsideredHere(l: Learning, g: History, l': Learning, g': History, host: Host, now: nat,
                                 learned: bool) {
    var p := Pruned(l, now).(silentHosts := Refused(l.silentHosts, host, now), silentSuppressedUntil := None);
    Considered(p, HungUpHistory(PrunedHistory(l, g, now), host, g.crowded), l', g', host, learned)
  }

  /** A refusal is considered exactly when it may teach. */
  lemma ConsideredExactly(l: Learning, g: History, l': Learning, g': History, host: Host, now: nat, learned: bool)
    requires SilentlyRefused(l, g, l', g', host, now, learned)
    ensures MayTeach(l, host, now) ==> ConsideredHere(l, g, l', g', host, now, learned)
    ensures !MayTeach(l, host, now) ==> !learned
  {
    hide Live, OthersStay, NoneYoung, Considered, SilentBurstDone, SilentBurstHistory, HungUpHistory, BurstLogged,
         Refused, RefusedLately;
    PrunedExactly(l, host, now);
    RefusedIs(l.silentHosts, host, now);
    SuppressesIs(l.silentSuppressedUntil, now, 60);
  }

  /** A silent refusal teaches only if it may; and then, on a run with a steady clock and room in the
      tables, exactly with enough refusals on the history. What holds it back is then a burst of the
      last minute, and nothing else (`HeldBackByBurst`). */
  lemma SilenceTeachesExactly(l: Learning, g: History, l': Learning, g': History, host: Host, now: nat, learned: bool)
    requires Sound(l, g) && SilentlyRefused(l, g, l', g', host, now, learned)
    ensures learned ==> MayTeach(l, host, now)
    ensures MayTeach(l, host, now) && g.steady && g.clock <= now && !g'.crowded ==>
              (learned <==> Enough(WithRefusal(g.log, host, now), host, now))
  {
    hide SoundBut, SilentlyRefused, MayTeach, Enough, Teaches, Considered, Guarded, HandshakeLately;
    ConsideredExactly(l, g, l', g', host, now, learned);
    if MayTeach(l, host, now) && g.steady && g.clock <= now && !g'.crowded {
      var p := Pruned(l, now).(silentHosts := Refused(l.silentHosts, host, now), silentSuppressedUntil := None);
      var q := HungUpHistory(PrunedHistory(l, g, now), host, g.crowded);
      ConsideredTeaches(p, q, l', g', host, learned);
      GuardedIsLately(l, g, host, now);
      TeachesIsEnough(WithRefusal(g.log, host, now), host, now);
      assert Said(p, q, host) == WithRefusal(g.log, host, now);
    }
  }

  /** Four hosts refused within ten seconds take back exactly the silent pins listed in that time, and
      hold refusals back for a minute. */
  lemma RefusalsTogether(l: Learning, g: History, l': Learning, g': History, host: Host, now: nat, learned: bool,
                         h: Host)
    requires SilentlyRefused(l, g, l', g', host, now, learned)
    requires host.name != [] && !Pinned(l.pins, host, now) && |RefusedLately(l.silentHosts, host, now)| >= 4
    ensures l'.silentSuppressedUntil == Some(now + 60) && g'.silentBurst == Some(now)
    ensures l'.silentPending == map[] && l'.silentFlood == map[]
    ensures h in l'.pins <==>
            && Pinned(l.pins, h, now)
            && !(Fresh(h, l.pins[h]) in l.silent && Near(l.pins[h], now, 10))
    ensures h in l'.pins ==> l'.pins[h] == l.pins[h]
  {
    hide Live, OthersStay, NoneYoung, Considered, BurstLogged, Refused, RefusedLately;
    PrunedExactly(l, host, now);
    PrunedExactly(l, h, now);
    RefusedIs(l.silentHosts, host, now);
  }

  // ----- network changes

  /** A network change takes exactly the pins still as listed: those of upstream failures in the last
      five minutes, and of silent refusals in the last minute. */
  lemma ChangeDropsExactly(l: Learning, now: nat, h: Host)
    ensures h in Changed(l, now).pins <==>
            && h in l.pins
            && !(Fresh(h, l.pins[h]) in l.upstream && Near(l.pins[h], now, 300))
            && !(Fresh(h, l.pins[h]) in l.silent && Near(l.pins[h], now, 60))
    ensures h in Changed(l, now).pins ==> Changed(l, now).pins[h] == l.pins[h]
    ensures Changed(l, now).recent == l.recent && Changed(l, now).trusted == l.trusted
    ensures Changed(l, now).upstreamSuppressedUntil == l.upstreamSuppressedUntil
    ensures Changed(l, now).silentSuppressedUntil == l.silentSuppressedUntil
  {
  }
}
