/** The two tables of single sightings of pin learning (policy.rs), alerts that made no pin yet and
    hosts that hung up, and how they stand for the history. */
module PinNotes {
  import opened Bytes
  import opened PerSecond
  import opened PinRules
  import opened PinEvidence

  /** The time of the host's last alert since it was last learned or forgotten. */
  function LastAlert(log: Log, h: Host): Option<nat> {
    if log == [] then None else AlertAfter(LastAlert(log[..|log| - 1], h), log[|log| - 1], h)
  }

  function AlertAfter(before: Option<nat>, e: Event, h: Host): Option<nat> {
    match e
    case Alert(host, now) => if host == h then Some(now) else before
    case Learned(host) => if host == h then None else before
    case Forget(host) => if host == h then None else before
    case _ => before
  }

  /** The time the host last hung up since the last network change. */
  function LastHangUp(log: Log, h: Host): Option<nat> {
    if log == [] then None else HangUpAfter(LastHangUp(log[..|log| - 1], h), log[|log| - 1], h)
  }

  function HangUpAfter(before: Option<nat>, e: Event, h: Host): Option<nat> {
    match e
    case HungUp(host, now) => if host == h then Some(now) else before
    case NetworkChange => None
    case _ => before
  }

  lemma LastsAfter(log: Log, e: Event)
    ensures forall h :: LastAlert(log + [e], h) == AlertAfter(LastAlert(log, h), e, h)
    ensures forall h :: LastHangUp(log + [e], h) == HangUpAfter(LastHangUp(log, h), e, h)
  {
    Appended(log, e);
  }

  function HungUpHosts(log: Log): set<Host> {
    if log == [] then {}
    else HungUpHosts(log[..|log| - 1]) + if log[|log| - 1].HungUp? then {log[|log| - 1].host} else {}
  }

  /** An alert of the host in the last ten minutes, since it was last learned or forgotten. */
  predicate AlertBefore(log: Log, h: Host, now: nat) {
    LastAlert(log, h).Some? && Within(LastAlert(log, h).value, now, REJECTION_WINDOW_SECS)
  }

  /** The host hung up within the burst window, since the last network change. */
  predicate HungUpLately(log: Log, h: Host, now: nat) {
    LastHangUp(log, h).Some? && Within(LastHangUp(log, h).value, now, SILENT_BURST_SECS)
  }

  function HostsHungUp(log: Log, now: nat): set<Host> { set h | h in HungUpHosts(log) && HungUpLately(log, h, now) }

  lemma {:induction false} HungUpIsListed(log: Log, h: Host)
    ensures LastHangUp(log, h).Some? ==> h in HungUpHosts(log)
  {
    if log != [] { HungUpIsListed(log[..|log| - 1], h); }
  }

  // ----- the tables

  /** The table holds last alerts, and all of them while the tables had room. */
  ghost predicate AlertsOk(recent: map<Host, nat>, log: Log, crowded: bool) {
    && |recent| <= MAX_RECENT_REJECTIONS
    && (forall h :: h in recent ==> LastAlert(log, h) == Some(recent[h]))
    && (!crowded ==> forall h :: LastAlert(log, h).Some? ==> h in recent)
  }

  predicate Noted(hosts: map<Host, nat>, last: Option<nat>, h: Host, clock: nat) {
    last.Some? ==> last.value <= clock && (Within(last.value, clock, SILENT_BURST_SECS) ==> h in hosts)
  }

  /** The table holds times of last hang-ups, and all of the burst window while the clock did not
      go back and the tables had room. */
  ghost predicate HangUpsOk(hosts: map<Host, nat>, log: Log, clock: nat, steady: bool, crowded: bool) {
    && |hosts| <= MAX_RECENT_REJECTIONS
    && (forall h :: h in hosts ==> LastHangUp(log, h) == Some(hosts[h]))
    && (steady && !crowded ==> forall h :: Noted(hosts, LastHangUp(log, h), h, clock))
  }

  ghost predicate NotesOk(recent: map<Host, nat>, hosts: map<Host, nat>, log: Log, clock: nat, steady: bool,
                          crowded: bool) {
    AlertsOk(recent, log, crowded) && HangUpsOk(hosts, log, clock, steady, crowded)
  }

  lemma NoNotes()
    ensures NotesOk(map[], map[], [], 0, true, false)
  {
  }

  lemma NotesFit(recent: map<Host, nat>, hosts: map<Host, nat>, log: Log, clock: nat, steady: bool, crowded: bool)
    requires NotesOk(recent, hosts, log, clock, steady, crowded)
    ensures |recent| <= MAX_RECENT_REJECTIONS && |hosts| <= MAX_RECENT_REJECTIONS
  {
  }

  lemma NotesLater(recent: map<Host, nat>, hosts: map<Host, nat>, log: Log, clock: nat, now: nat, steady: bool,
                   crowded: bool)
    requires NotesOk(recent, hosts, log, clock, steady, crowded)
    ensures NotesOk(recent, hosts, log, now, steady && clock <= now, crowded)
  {
    if steady && clock <= now && !crowded {
      forall h ensures Noted(hosts, LastHangUp(log, h), h, now) {
        assert Noted(hosts, LastHangUp(log, h), h, clock);
      }
    }
  }

  lemma NotesCrowded(recent: map<Host, nat>, hosts: map<Host, nat>, log: Log, clock: nat, steady: bool, crowded: bool,
                     more: bool)
    requires NotesOk(recent, hosts, log, clock, steady, crowded)
    ensures NotesOk(recent, hosts, log, clock, steady, crowded || more)
  {
  }

  /** What neither table looks at. */
  lemma NotesAside(recent: map<Host, nat>, hosts: map<Host, nat>, log: Log, clock: nat, steady: bool, crowded: bool,
                   e: Event)
    requires NotesOk(recent, hosts, log, clock, steady, crowded) && (e.Handshake? || e.Refusal?)
    ensures NotesOk(recent, hosts, log + [e], clock, steady, crowded)
  {
    hide LastAlert, LastHangUp;
    LastsAfter(log, e);
  }

  lemma AlertsEnded(recent: map<Host, nat>, log: Log, crowded: bool, e: Event)
    requires AlertsOk(recent, log, crowded) && (e.Learned? || e.Forget?)
    ensures AlertsOk(recent - {e.host}, log + [e], crowded)
  {
    hide LastAlert;
    var rest, log' := recent - {e.host}, log + [e];
    WithoutSize(recent, e.host);
    forall h | h in rest ensures LastAlert(log', h) == Some(rest[h]) { LastAlertAfter(log, e, h); }
    if !crowded {
      forall h | LastAlert(log', h).Some? ensures h in rest { LastAlertAfter(log, e, h); }
    }
  }

  lemma LastAlertAfter(log: Log, e: Event, h: Host)
    ensures LastAlert(log + [e], h) == AlertAfter(LastAlert(log, h), e, h)
  {
    Appended(log, e);
  }

  lemma HangUpsAside(hosts: map<Host, nat>, log: Log, clock: nat, steady: bool, crowded: bool, e: Event)
    requires HangUpsOk(hosts, log, clock, steady, crowded) && !e.HungUp? && !e.NetworkChange?
    ensures HangUpsOk(hosts, log + [e], clock, steady, crowded)
  {
    hide LastAlert, LastHangUp, Noted;
    LastsAfter(log, e);
  }

  /** A host is learned or forgotten. */
  lemma NotesEnded(recent: map<Host, nat>, hosts: map<Host, nat>, log: Log, clock: nat, steady: bool, crowded: bool,
                   e: Event)
    requires NotesOk(recent, hosts, log, clock, steady, crowded) && (e.Learned? || e.Forget?)
    ensures NotesOk(recent - {e.host}, hosts, log + [e], clock, steady, crowded)
  {
    hide AlertsOk, HangUpsOk;
    AlertsEnded(recent, log, crowded, e);
    HangUpsAside(hosts, log, clock, steady, crowded, e);
  }

  lemma NotesChanged(recent: map<Host, nat>, hosts: map<Host, nat>, log: Log, clock: nat, steady: bool, crowded: bool)
    requires NotesOk(recent, hosts, log, clock, steady, crowded)
    ensures NotesOk(recent, map[], log + [NetworkChange], clock, steady, crowded)
  {
    hide LastAlert, LastHangUp;
    LastsAfter(log, NetworkChange);
  }

  /** An alert is noted, in a table that has room for it. */
  lemma NotesAlert(recent: map<Host, nat>, room: map<Host, nat>, hosts: map<Host, nat>, log: Log, clock: nat,
                   steady: bool,
                   crowded: bool, host: Host)
    requires NotesOk(recent, hosts, log, clock, steady, crowded) && Submap(recent, room)
    requires |room| < MAX_RECENT_REJECTIONS
    ensures NotesOk(room[host := clock], hosts, log + [Alert(host, clock)], clock, steady, crowded || room != recent)
  {
    var e := Alert(host, clock);
    hide LastAlert, LastHangUp;
    LastsAfter(log, e);
    WithSize(room, host, clock);
  }

  // ----- hosts that hang up together

  /** The hosts noted within the burst window, with this one. */
  function Refused(hosts: map<Host, nat>, host: Host, now: nat): map<Host, nat> {
    (map h | h in hosts && Within(hosts[h], now, SILENT_BURST_SECS) :: hosts[h])[host := now]
  }

  /** They hung up lately; and while the clock did not go back and the tables had room, they are all
      that did. */
  lemma RefusedHungUp(hosts: map<Host, nat>, log: Log, now: nat, steady: bool, crowded: bool, host: Host)
    requires HangUpsOk(hosts, log, now, steady, crowded)
    ensures var log' := log + [HungUp(host, now)];
            && Refused(hosts, host, now).Keys <= HostsHungUp(log', now)
            && (steady && !crowded ==> Refused(hosts, host, now).Keys == HostsHungUp(log', now))
  {
    var e := HungUp(host, now);
    var log' := log + [e];
    hide LastHangUp, HungUpHosts;
    LastsAfter(log, e);
    forall h ensures LastHangUp(log', h).Some? ==> h in HungUpHosts(log') { HungUpIsListed(log', h); }
    if steady && !crowded {
      forall h | h in HostsHungUp(log', now) ensures h in Refused(hosts, host, now) {
        assert Noted(hosts, LastHangUp(log, h), h, now);
      }
    }
  }

  /** Enough hosts for a burst. */
  lemma BurstOfHosts(hosts: map<Host, nat>, log: Log, now: nat, steady: bool, crowded: bool, host: Host)
    requires HangUpsOk(hosts, log, now, steady, crowded)
    ensures var hungUp := |HostsHungUp(log + [HungUp(host, now)], now)|;
            && |Refused(hosts, host, now)| <= hungUp
            && (steady && !crowded ==> |Refused(hosts, host, now)| == hungUp)
  {
    RefusedHungUp(hosts, log, now, steady, crowded, host);
    hide HangUpsOk, HostsHungUp;
    var few, all := Refused(hosts, host, now).Keys, HostsHungUp(log + [HungUp(host, now)], now);
    assert all == few + (all - few);
  }

  /** The hang-up is noted. */
  lemma NotesHungUp(recent: map<Host, nat>, hosts: map<Host, nat>, hosts': map<Host, nat>, log: Log, now: nat,
                    steady: bool,
                    crowded: bool, host: Host)
    requires NotesOk(recent, hosts, log, now, steady, crowded)
    requires Submap(Refused(hosts, host, now), hosts') && host in hosts' && |hosts'| <= MAX_RECENT_REJECTIONS
    ensures NotesOk(recent, hosts', log + [HungUp(host, now)], now, steady,
                    crowded || hosts' != Refused(hosts, host, now))
  {
    hide AlertsOk, HangUpsOk, Refused;
    AlertsAside(recent, log, crowded, HungUp(host, now));
    AlertsCrowded(recent, log + [HungUp(host, now)], crowded, crowded || hosts' != Refused(hosts, host, now));
    HangUpNoted(hosts, hosts', log, now, steady, crowded, host);
  }

  lemma AlertsAside(recent: map<Host, nat>, log: Log, crowded: bool, e: Event)
    requires AlertsOk(recent, log, crowded) && e.HungUp?
    ensures AlertsOk(recent, log + [e], crowded)
  {
    hide LastAlert, LastHangUp;
    LastsAfter(log, e);
  }

  lemma AlertsCrowded(recent: map<Host, nat>, log: Log, crowded: bool, more: bool)
    requires AlertsOk(recent, log, crowded) && (crowded ==> more)
    ensures AlertsOk(recent, log, more)
  {
    hide LastAlert;
  }

  lemma HangUpNoted(hosts: map<Host, nat>, hosts': map<Host, nat>, log: Log, now: nat, steady: bool, crowded: bool,
                    host: Host)
    requires HangUpsOk(hosts, log, now, steady, crowded)
    requires Submap(Refused(hosts, host, now), hosts') && host in hosts' && |hosts'| <= MAX_RECENT_REJECTIONS
    ensures HangUpsOk(hosts', log + [HungUp(host, now)], now, steady, crowded || hosts' != Refused(hosts, host, now))
  {
    var e := HungUp(host, now);
    hide LastAlert, LastHangUp;
    LastsAfter(log, e);
    if steady && !crowded && hosts' == Refused(hosts, host, now) {
      forall h ensures Noted(hosts', LastHangUp(log + [e], h), h, now) {
        assert Noted(hosts, LastHangUp(log, h), h, now);
      }
    }
  }
}
