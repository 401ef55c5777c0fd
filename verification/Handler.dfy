/** Answering DNS queries from the caches and keeping the answers (handler.rs): the part of the
    handler that decides what is kept for whom, and for which network. */
module Handler {
  import opened Bytes
  import opened Wire
  import opened Answers
  import opened Rendering
  import opened AnswerCache
  import opened LocalAnswers

  const LOCAL_CACHE_CAPACITY: nat := 128

  predicate DnssecOk(r: Requester) { r.edns.Some? && r.edns.value.dnssecOk }

  /** `cache_key`: the question's key followed by the requester's DO bit. */
  function CacheKey(key: seq<byte>, dnssecOk: bool): Key { key + [if dnssecOk then 1 else 0] }

  lemma CacheKeyInjective(k1: seq<byte>, d1: bool, k2: seq<byte>, d2: bool)
    requires CacheKey(k1, d1) == CacheKey(k2, d2)
    ensures k1 == k2 && d1 == d2
  {
    var c1, c2 := CacheKey(k1, d1), CacheKey(k2, d2);
    assert c1[..|c1| - 1] == k1 && c2[..|c2| - 1] == k2;
    assert c1[|c1| - 1] == c2[|c2| - 1];
  }

  /** An answer held. `key`, `dnssecOk` and `network` say which query it was fetched for: its
      question, its DO bit and the network generation it was asked under. They are there for
      the statements only. */
  datatype Held = Held(answer: UpstreamAnswer, key: seq<byte>, dnssecOk: bool, network: nat)

  /** A query sent upstream, or to the local network's resolver. */
  datatype Job = Job(requester: Requester, key: seq<byte>, local: bool, network: nat)

  datatype State = State(cache: Cache<Held>, network: string, generation: nat, local: Cache<Held>, jobs: multiset<Job>)

  function Fresh(): Cache<Held> { Empty(LOCAL_CACHE_CAPACITY, MAX_LOCAL_TTL) }

  const START := State(Empty(CACHE_CAPACITY, MAX_CACHE_TTL), "", 0, Empty(LOCAL_CACHE_CAPACITY, MAX_LOCAL_TTL),
                       multiset{})

  datatype Event =
    | Query(requester: Requester, local: bool, now: nat)
    | Complete(job: Job, answer: Option<UpstreamAnswer>, minTtl: nat, now: nat)
    | SetNetwork(name: string)

  /** The answer belongs to the question and can be rendered for it. */
  ghost predicate Usable(a: UpstreamAnswer, key: seq<byte>) { exists recs :: Stored(a, key, recs) }

  ghost predicate HeldUnder(c: Cache<Held>) {
    && AnswerCache.Valid(c)
    && forall k :: k in c.entries ==>
         k == CacheKey(c.entries[k].answer.key, c.entries[k].answer.dnssecOk)
         && Usable(c.entries[k].answer.answer, c.entries[k].answer.key)
  }

  ghost predicate ProperJob(j: Job, generation: nat) {
    ValidRequester(j.requester) && KeyOf(j.requester.question) == j.key && j.network <= generation
  }

  /** What every state reached keeps. */
  ghost predicate Safe(s: State) {
    && HeldUnder(s.cache) && HeldUnder(s.local)
    && Current(s.local, s.generation)
    && JobsProper(s.jobs, s.generation)
  }

  /** Every local answer was asked for under this generation. */
  ghost predicate Current(c: Cache<Held>, generation: nat) {
    forall k :: k in c.entries ==> c.entries[k].answer.network == generation
  }

  ghost predicate JobsProper(jobs: multiset<Job>, generation: nat) {
    forall j :: j in jobs ==> ProperJob(j, generation)
  }

  lemma JobMade(jobs: multiset<Job>, generation: nat, j: Job)
    requires JobsProper(jobs, generation) && ProperJob(j, generation)
    ensures JobsProper(jobs + multiset{j}, generation)
  {
  }

  lemma JobDone(jobs: multiset<Job>, generation: nat, j: Job)
    requires JobsProper(jobs, generation)
    ensures JobsProper(jobs - multiset{j}, generation)
    ensures j in jobs ==> ProperJob(j, generation)
  {
  }

  lemma JobsLater(jobs: multiset<Job>, generation: nat)
    requires JobsProper(jobs, generation)
    ensures JobsProper(jobs, generation + 1)
  {
  }

  lemma JobIsProper(s: State, job: Job)
    requires Safe(s) && job in s.jobs
    ensures ProperJob(job, s.generation) && HeldValidState(s)
  {
    hide HeldUnder;
    HeldValid(s.cache);
    HeldValid(s.local);
    JobDone(s.jobs, s.generation, job);
  }

  /** A query can be any well-formed one; only a job that is out can be completed, and with an
      answer that was checked against its question. */
  ghost predicate Possible(s: State, ev: Event) {
    match ev
    case Query(r, _, _) => ValidRequester(r)
    case Complete(job, answer, _, _) =>
      job in s.jobs && (answer.Some? ==> |answer.value.bytes| >= HEADER_LEN && Usable(answer.value, job.key))
    case SetNetwork(_) => true
  }

  /** What a query finds, with the age of the answer. */
  function Lookup(s: State, r: Requester, local: bool, now: nat): (State, Option<(Held, nat)>)
    requires AnswerCache.Valid(s.cache) && AnswerCache.Valid(s.local) && ValidRequester(r)
  {
    var ck := CacheKey(KeyOf(r.question), DnssecOk(r));
    if local then
      var (c, hit) := Get(s.local, ck, now);
      (s.(local := c), hit)
    else
      var (c, hit) := Get(s.cache, ck, now);
      (s.(cache := c), hit)
  }

  function JobFor(s: State, r: Requester, local: bool): Job
    requires ValidRequester(r)
  {
    Job(r, KeyOf(r.question), local, if local then s.generation else 0)
  }

  function Next(s: State, ev: Event): State
    requires AnswerCache.Valid(s.cache) && AnswerCache.Valid(s.local)
    requires ev.Query? ==> ValidRequester(ev.requester)
    requires ev.Complete? && ev.answer.Some? ==> |ev.answer.value.bytes| >= HEADER_LEN
  {
    match ev
    case Query(r, local, now) =>
      var (t, hit) := Lookup(s, r, local, now);
      if hit.Some? then t else t.(jobs := t.jobs + multiset{JobFor(s, r, local)})
    case Complete(job, answer, minTtl, now) =>
      var t := s.(jobs := s.jobs - multiset{job});
      if answer.None? then t
      else
        var held := Held(answer.value, job.key, DnssecOk(job.requester), job.network);
        var ck := CacheKey(job.key, DnssecOk(job.requester));
        if !job.local then
          if Cacheable(answer.value) then t.(cache := Put(s.cache, ck, held, minTtl, now)) else t
        else if HasAnswers(answer.value) && Cacheable(answer.value) && s.generation == job.network then
          t.(local := Put(s.local, ck, held, minTtl, now))
        else t
    case SetNetwork(name) =>
      if s.network == name then s
      else s.(network := name, generation := s.generation + 1, local := Fresh())
  }

  lemma PutHeld(c: Cache<Held>, key: Key, held: Held, minTtl: nat, now: nat)
    requires HeldUnder(c) && key == CacheKey(held.key, held.dnssecOk) && Usable(held.answer, held.key)
    ensures HeldUnder(Put(c, key, held, minTtl, now))
  {
    hide Usable, CacheKey, Drop, Distinct;
    PutValid(c, key, held, minTtl, now);
  }

  lemma GetHeld(c: Cache<Held>, key: Key, now: nat)
    requires HeldUnder(c)
    ensures HeldUnder(Get(c, key, now).0)
    ensures forall k :: k in Get(c, key, now).0.entries ==>
              k in c.entries && Get(c, key, now).0.entries[k] == c.entries[k]
    ensures Get(c, key, now).1.Some? ==> key in c.entries && Get(c, key, now).1.value.0 == c.entries[key].answer
  {
    hide Usable, CacheKey, Drop, Distinct;
    GetValid(c, key, now);
  }

  lemma QuerySafe(s: State, r: Requester, local: bool, now: nat)
    requires Safe(s) && ValidRequester(r)
    ensures HeldValidState(s) && Safe(Next(s, Query(r, local, now)))
  {
    hide HeldUnder, Usable, Get, CacheKey, KeyOf, JobsProper;
    HeldValid(s.cache);
    HeldValid(s.local);
    var ck := CacheKey(KeyOf(r.question), DnssecOk(r));
    GetHeld(s.local, ck, now);
    GetHeld(s.cache, ck, now);
    JobMade(s.jobs, s.generation, JobFor(s, r, local));
  }

  lemma CompleteSafe(s: State, job: Job, answer: Option<UpstreamAnswer>, minTtl: nat, now: nat)
    requires Safe(s) && Possible(s, Complete(job, answer, minTtl, now))
    ensures HeldValidState(s) && Safe(Next(s, Complete(job, answer, minTtl, now)))
  {
    hide HeldUnder, Usable, Put, CacheKey, KeyOf, Cacheable, HasAnswers, JobsProper;
    HeldValid(s.cache);
    HeldValid(s.local);
    JobDone(s.jobs, s.generation, job);
    if answer.Some? {
      var held := Held(answer.value, job.key, DnssecOk(job.requester), job.network);
      var ck := CacheKey(job.key, DnssecOk(job.requester));
      PutHeld(s.cache, ck, held, minTtl, now);
      PutHeld(s.local, ck, held, minTtl, now);
      PutEntries(s.local, ck, held, minTtl, now);
    }
  }

  lemma NextSafe(s: State, ev: Event)
    requires Safe(s) && Possible(s, ev)
    ensures Safe(Next(s, ev))
  {
    match ev {
      case Query(r, local, now) => QuerySafe(s, r, local, now);
      case Complete(job, answer, minTtl, now) => CompleteSafe(s, job, answer, minTtl, now);
      case SetNetwork(name) =>
        hide HeldUnder, JobsProper;
        FreshHeld();
        JobsLater(s.jobs, s.generation);
    }
  }

  lemma HeldValid(c: Cache<Held>)
    requires HeldUnder(c)
    ensures AnswerCache.Valid(c)
  {
  }

  lemma FreshHeld()
    ensures HeldUnder(Fresh()) && Fresh().entries == map[] && HeldUnder(Empty(CACHE_CAPACITY, MAX_CACHE_TTL))
  {
  }

  lemma PutEntries(c: Cache<Held>, key: Key, held: Held, minTtl: nat, now: nat)
    requires AnswerCache.Valid(c)
    ensures forall k :: k in Put(c, key, held, minTtl, now).entries ==>
              var e := Put(c, key, held, minTtl, now).entries[k];
              e.answer == held || (k in c.entries && e == c.entries[k])
  {
    hide Drop, Distinct;
  }

  // ----- every run

  ghost predicate Run(events: seq<Event>)
    decreases |events|, 0
  {
    events == [] || (var n := |events| - 1; Run(events[..n]) && Possible(After(events[..n]), events[n]))
  }

  ghost function After(events: seq<Event>): (s: State)
    requires Run(events)
    ensures Safe(s)
    decreases |events|, 1
  {
    if events == [] then
      FreshHeld();
      START
    else
      var n := |events| - 1;
      var s := After(events[..n]);
      HeldValid(s.cache);
      HeldValid(s.local);
      NextSafe(s, events[n]);
      Next(s, events[n])
  }

  /** Over every run, what a query is answered from a cache with was fetched for the same
      question and the same DO bit, so it can be rendered for it and carries DNSSEC records
      only for a requester that asked for them (RFC 3225); a local answer was asked for under
      the current network. */
  lemma HitWasFetchedAlike(events: seq<Event>, r: Requester, local: bool, now: nat)
    requires Run(events) && ValidRequester(r)
    requires Lookup(After(events), r, local, now).1.Some?
    ensures var held := Lookup(After(events), r, local, now).1.value.0;
            && held.key == KeyOf(r.question) && (held.dnssecOk <==> r.edns.Some? && r.edns.value.dnssecOk)
            && Usable(held.answer, KeyOf(r.question))
            && (local ==> held.network == After(events).generation)
  {
    hide Usable, CacheKey, KeyOf, Get, After, Run;
    var s := After(events);
    var ck := CacheKey(KeyOf(r.question), DnssecOk(r));
    var c := if local then s.local else s.cache;
    GetHeld(c, ck, now);
    var held := c.entries[ck].answer;
    CacheKeyInjective(held.key, held.dnssecOk, KeyOf(r.question), DnssecOk(r));
  }

  // ----- the handler updated in place

  const SERVFAIL: byte := 2

  function EmptyReply(r: Requester, rcode: byte): Msg
    requires ValidRequester(r) && rcode < 16
  {
    Build(r, LocalFlags(r, rcode), [], 0)
  }

  class DnsHandler {
    const cache: LruAnswers<Held>
    var local: LruAnswers<Held>
    var network: string
    var generation: nat
    ghost var jobs: multiset<Job>

    ghost function Now(): State
      reads this, cache, local
    {
      State(cache.Now(), network, generation, local.Now(), jobs)
    }

    ghost predicate Valid()
      reads this, cache, local
    {
      cache != local && Safe(Now())
    }

    constructor ()
      ensures Valid() && Now() == START
    {
      cache := new LruAnswers<Held>(CACHE_CAPACITY, MAX_CACHE_TTL);
      local := new LruAnswers<Held>(LOCAL_CACHE_CAPACITY, MAX_LOCAL_TTL);
      network, generation, jobs := "", 0, multiset{};
      new;
      FreshHeld();
    }

    /** The part of `handle_packet` that answers from a cache or gives a job. */
    method Ask(r: Requester, isLocal: bool, now: nat) returns (reply: Option<Msg>, job: Option<Job>)
      requires Valid() && ValidRequester(r)
      modifies this, cache, local
      ensures Valid() && Possible(old(Now()), Query(r, isLocal, now))
      ensures HeldValidState(old(Now())) && Now() == Next(old(Now()), Query(r, isLocal, now))
      ensures reply.Some? <==> job.None?
      ensures var hit := Lookup(old(Now()), r, isLocal, now).1;
              && (reply.Some? <==> hit.Some?)
              && (hit.Some? ==> && |reply.value| <= UdpLimit(r)
                                && Rendered(reply.value, hit.value.0.answer, KeyOf(r.question), r, hit.value.1))
      ensures job.Some? ==> job.value in jobs && job.value == JobFor(old(Now()), r, isLocal)
    {
      hide HeldUnder, Usable, Put, Get, KeyOf, AnswerCache.Valid, CacheKey, Rendered;
      var before := generation;
      ghost var was := Now();
      HeldValid(was.cache);
      HeldValid(was.local);
      NextSafe(was, Query(r, isLocal, now));
      var key := KeyOf(r.question);
      var ck := CacheKey(key, DnssecOk(r));
      ghost var held := if isLocal then was.local else was.cache;
      GetHeld(held, ck, now);
      var hit;
      if isLocal {
        hit := local.Find(ck, now);
      } else {
        hit := cache.Find(ck, now);
      }
      if hit.Some? {
        assert Usable(hit.value.0.answer, key) by { HitUsable(held, ck, now, key, DnssecOk(r)); }
        var payload := RenderHit(hit.value.0.answer, r, hit.value.1, key);
        return Some(payload), None;
      }
      var made := Job(r, key, isLocal, if isLocal then before else 0);
      jobs := jobs + multiset{made};
      return None, Some(made);
    }

    /** `complete`: the reply for a forwarded query, and the answer kept if it may be. */
    method CompleteJob(job: Job, wire: Option<Msg>, decodes: bool, now: nat) returns (payload: Msg)
      requires Valid() && job in jobs && !job.local
      requires wire.Some? && decodes ==> |wire.value| >= HEADER_LEN
      modifies this, cache, local
      ensures Valid() && network == old(network) && generation == old(generation) && jobs == old(jobs) - multiset{job}
      ensures ValidRequester(job.requester) && |payload| <= UdpLimit(job.requester)
      ensures exists answer, minTtl :: Checked(job, wire, decodes, payload, answer, minTtl)
                && Completed(old(Now()), job, answer, minTtl, now, Now())
    {
      hide Checked, Safe, Put, Get, AnswerCache.Valid, CacheKey, KeyOf, Usable, Cacheable, HasAnswers;
      ghost var was := Now();
      JobIsProper(was, job);
      var answer, minTtl := None, 0;
      payload, answer, minTtl := Check(job, wire, decodes);
      NextSafe(was, Complete(job, answer, minTtl, now));
      if answer.Some? && Cacheable(answer.value) {
        cache.Store(CacheKey(job.key, DnssecOk(job.requester)),
                    Held(answer.value, job.key, DnssecOk(job.requester), job.network), minTtl, now);
      }
      jobs := jobs - multiset{job};
      assert Completed(was, job, answer, minTtl, now, Now());
    }

    /** `complete_local`: the same for the local network's records, kept only if the network is
        still the one the query was asked on. */
    method CompleteLocalJob(job: Job, records: Option<seq<LocalRecord>>, decodes: bool, now: nat) returns (payload: Msg)
      requires Valid() && job in jobs && job.local
      requires records.Some? ==> forall l :: l in records.value ==> ValidRecord(l)
      modifies this, cache, local
      ensures Valid() && network == old(network) && generation == old(generation) && jobs == old(jobs) - multiset{job}
      ensures ValidRequester(job.requester) && |payload| <= UdpLimit(job.requester)
      ensures 5 <= |job.key| <= MAX_NAME_LEN + 4
      ensures exists answer, minTtl :: Checked(job, LocalWire(job.key, records), decodes, payload, answer, minTtl)
                && Completed(old(Now()), job, answer, minTtl, now, Now())
    {
      hide Checked, Safe, Put, Get, AnswerCache.Valid, CacheKey, KeyOf, Usable, Cacheable, HasAnswers, LocalAnswer;
      ghost var was := Now();
      JobIsProper(was, job);
      var wire: Option<Msg> := None;
      if records.Some? {
        var built := BuildLocalAnswer(job.key, records.value);
        wire := Some(built);
      }
      assert wire == LocalWire(job.key, records);
      var answer, minTtl := None, 0;
      payload, answer, minTtl := Check(job, wire, decodes);
      NextSafe(was, Complete(job, answer, minTtl, now));
      if answer.Some? && HasAnswers(answer.value) && Cacheable(answer.value) && generation == job.network {
        local.Store(CacheKey(job.key, DnssecOk(job.requester)),
                    Held(answer.value, job.key, DnssecOk(job.requester), job.network), minTtl, now);
      }
      jobs := jobs - multiset{job};
      assert Completed(was, job, answer, minTtl, now, Now());
    }

    /** `set_network`. */
    method ChangeNetwork(name: string)
      requires Valid()
      modifies this
      ensures Valid() && HeldValidState(old(Now())) && Now() == Next(old(Now()), SetNetwork(name))
      ensures local == old(local) || fresh(local)
    {
      hide HeldUnder;
      HeldValid(cache.Now());
      HeldValid(local.Now());
      NextSafe(Now(), SetNetwork(name));
      if network != name {
        network := name;
        generation := generation + 1;
        local := new LruAnswers<Held>(LOCAL_CACHE_CAPACITY, MAX_LOCAL_TTL);
      }
    }
  }

  /** The message made of the local network's records. */
  function LocalWire(key: seq<byte>, records: Option<seq<LocalRecord>>): (wire: Option<Msg>)
    requires 5 <= |key| <= MAX_NAME_LEN + 4 && (records.Some? ==> forall l :: l in records.value ==> ValidRecord(l))
    ensures wire.Some? ==> |wire.value| >= HEADER_LEN
  {
    if records.Some? then Some(LocalAnswer(key, records.value)) else None
  }

  /** The job is completed with this checked answer. */
  ghost predicate Completed(s: State, job: Job, answer: Option<UpstreamAnswer>, minTtl: nat, now: nat, t: State) {
    var ev := Complete(job, answer, minTtl, now);
    Possible(s, ev) && HeldValidState(s) && t == Next(s, ev)
  }

  ghost predicate HeldValidState(s: State) { AnswerCache.Valid(s.cache) && AnswerCache.Valid(s.local) }

  lemma HitUsable(c: Cache<Held>, ck: Key, now: nat, key: seq<byte>, dnssecOk: bool)
    requires HeldUnder(c) && ck == CacheKey(key, dnssecOk) && AnswerCache.Valid(c) && Get(c, ck, now).1.Some?
    ensures Usable(Get(c, ck, now).1.value.0.answer, key)
  {
    hide Usable, CacheKey, Get;
    GetHeld(c, ck, now);
    var held := c.entries[ck].answer;
    CacheKeyInjective(held.key, held.dnssecOk, key, dnssecOk);
  }

  /** The payload is the stored answer rendered for the requester, aged by `elapsed` seconds and
      cut to what the requester takes. */
  ghost predicate RenderedFrom(payload: Msg, a: UpstreamAnswer, key: seq<byte>, r: Requester, elapsed: nat,
                               recs: seq<Rec>, whole: Msg) {
    && Stored(a, key, recs) && ValidRequester(r)
    && |a.bytes| >= HEADER_LEN && a.questionEnd == HEADER_LEN + |r.question| <= |a.bytes|
    && Whole(whole, a, recs, r, elapsed) && payload == Fit(r, whole)
  }

  ghost predicate Rendered(payload: Msg, a: UpstreamAnswer, key: seq<byte>, r: Requester, elapsed: nat) {
    exists recs, whole :: RenderedFrom(payload, a, key, r, elapsed, recs, whole)
  }

  method RenderHit(a: UpstreamAnswer, r: Requester, elapsed: nat, ghost key: seq<byte>) returns (payload: Msg)
    requires Usable(a, key) && ValidRequester(r) && KeyOf(r.question) == key
    ensures |payload| <= UdpLimit(r) && Rendered(payload, a, key, r, elapsed)
  {
    hide Whole, Fit, Walk, QuestionKey, QuestionEnd;
    ghost var recs :| Stored(a, key, recs);
    ghost var whole;
    payload, whole := Render(a, r, elapsed, key, recs);
    assert RenderedFrom(payload, a, key, r, elapsed, recs, whole);
  }

  /** The smallest TTL of the records, 0 without any. */
  ghost predicate LeastTtl(a: UpstreamAnswer, recs: seq<Rec>, m: nat) {
    && (recs == [] ==> m == 0)
    && (forall i :: 0 <= i < |recs| ==> recs[i].fields + 8 <= |a.bytes| && m <= TtlAt(a.bytes, recs[i].fields + 4))
    && (recs != [] ==> exists i :: 0 <= i < |recs| && m == TtlAt(a.bytes, recs[i].fields + 4))
  }

  /** What checking a message for a job gives. */
  ghost predicate Checked(job: Job, wire: Option<Msg>, decodes: bool, payload: Msg, answer: Option<UpstreamAnswer>,
                          minTtl: nat)
    requires ValidRequester(job.requester) && (wire.Some? && decodes ==> |wire.value| >= HEADER_LEN)
  {
    if wire.Some? && Refusal(wire.value, job.key, decodes).None? then
      && answer.Some? && Stored(answer.value, job.key, KeptRecs(wire.value)) && KeptFrom(answer.value, wire.value)
      && LeastTtl(answer.value, KeptRecs(wire.value), minTtl)
      && Rendered(payload, answer.value, job.key, job.requester, 0)
    else
      answer.None? && payload == EmptyReply(job.requester, SERVFAIL)
  }

  /** The checked answer of a job, if it has a usable one, with its smallest TTL, and the reply
      it gives: SERVFAIL without one. */
  method Check(job: Job, wire: Option<Msg>, decodes: bool)
    returns (payload: Msg, answer: Option<UpstreamAnswer>, minTtl: nat)
    requires ValidRequester(job.requester) && KeyOf(job.requester.question) == job.key
    requires wire.Some? && decodes ==> |wire.value| >= HEADER_LEN
    ensures |payload| <= UdpLimit(job.requester) && Checked(job, wire, decodes, payload, answer, minTtl)
    ensures answer.Some? ==> |answer.value.bytes| >= HEADER_LEN && Usable(answer.value, job.key)
  {
    hide Stored, Walk, Accepts, QuestionEnd, QuestionKey, Opt, Rendered, KeptFrom, TtlAt;
    payload, answer, minTtl := EmptyReply(job.requester, SERVFAIL), None, 0;
    if wire.Some? {
      var parsed := Parse(wire.value, job.key, decodes);
      if parsed.Ok? {
        ghost var recs := KeptRecs(wire.value);
        StoredAnswers(parsed.value, job.key, recs);
        answer := Some(parsed.value);
        assert Usable(parsed.value, job.key);
        payload := RenderHit(parsed.value, job.requester, 0, job.key);
        minTtl := MinTtl(parsed.value, job.key, recs);
      }
    }
  }

  /** A job whose local records hold no OPT record it asks for gets its answer. With such a record, and
      room for all records asked for, it gets SERVFAIL and nothing is kept. */
  lemma OptRecordFails(job: Job, records: seq<LocalRecord>, payload: Msg, answer: Option<UpstreamAnswer>, minTtl: nat)
    requires ValidRequester(job.requester) && IsKey(job.key) && forall l :: l in records ==> ValidRecord(l)
    requires Checked(job, LocalWire(job.key, Some(records)), true, payload, answer, minTtl)
    ensures !AsksForOpt(job.key, records) ==> answer.Some?
    ensures AsksForOpt(job.key, records) && HEADER_LEN + |job.key| + SizeOf(WantedOf(job.key, records)) <= U16_MAX ==>
              answer.None? && payload == EmptyReply(job.requester, 2)
  {
    LocalAnswerAccepted(job.key, records);
    hide Refusal, LocalAnswer, EmptyReply, Stored, KeptFrom, LeastTtl, Rendered, WantedOf, SizeOf, AsksForOpt;
  }

  /** For every single label: a query of type ANY and an OPT record give SERVFAIL. */
  lemma LabelAnyFails(job: Job, name: seq<byte>, payload: Msg, answer: Option<UpstreamAnswer>, minTtl: nat)
    requires ValidRequester(job.requester) && LocalLabel(name) && job.key == LabelAny(name)
    requires Checked(job, LocalWire(job.key, Some([OPT_RECORD])), true, payload, answer, minTtl)
    ensures answer.None? && payload == EmptyReply(job.requester, 2)
  {
    LabelAnyRefused(name);
    hide Refusal, LocalAnswer, EmptyReply, Stored, LabelAny;
  }

  // ----- what is kept is served

  /** A reply without records: the requester's id, RD bit and question, the error code, and our OPT. */
  lemma EmptyReplyMeaning(r: Requester, rcode: byte)
    requires ValidRequester(r) && rcode < 16
    ensures var m, qe := EmptyReply(r, rcode), HEADER_LEN + |r.question|;
            && |m| >= qe && U16At(m, 0) == Some(r.id) && m[2] >= 0x80 && m[2] < 0x82 && Rd(m[2]) == r.recursionDesired
            && m[3] >= 0x80 && m[3] % 16 == rcode && m[3] < 0x90
            && U16At(m, 4) == Some(1) && U16At(m, 6) == Some(0) && U16At(m, 8) == Some(0)
            && m[HEADER_LEN..qe] == r.question && m[qe..] == Opt(r)
            && U16At(m, 10) == Some(if r.edns.Some? then 1 else 0)
  {
    BuildFields(r, LocalFlags(r, rcode), [], 0);
  }

  /** An answer that may be kept: for a local query it must hold answers, and the network must still be
      the one it was asked on. */
  predicate Keeps(s: State, job: Job, a: UpstreamAnswer)
    requires |a.bytes| >= HEADER_LEN
  {
    Cacheable(a) && (job.local ==> U16At(a.bytes, 6) != Some(0) && job.network == s.generation)
  }

  lemma PutThenGet(c: Cache<Held>, key: Key, held: Held, minTtl: nat, now: nat, later: nat)
    requires AnswerCache.Valid(c)
    ensures AnswerCache.Valid(Put(c, key, held, minTtl, now))
    ensures Get(Put(c, key, held, minTtl, now), key, later).1 ==
            if Lives(minTtl, c.maxTtl, Age(later, now)) then Some((held, Age(later, now))) else None
  {
    InsertedIsHit(c, key, held, minTtl, now, [], {}, later);
  }

  /** A completed answer that may be kept is what the next query alike gets, for as long as it lives: up
      to an hour, or a minute for a local one. */
  lemma CompletedIsServed(s: State, job: Job, a: UpstreamAnswer, minTtl: nat, now: nat, r: Requester, later: nat)
    requires Safe(s) && Possible(s, Complete(job, Some(a), minTtl, now)) && Keeps(s, job, a)
    requires s.cache.maxTtl == 3600 && s.local.maxTtl == 60
    requires ValidRequester(r) && KeyOf(r.question) == job.key && DnssecOk(r) == DnssecOk(job.requester)
    ensures HeldValidState(s) && HeldValidState(Next(s, Complete(job, Some(a), minTtl, now)))
    ensures var age := Age(later, now);
            Lookup(Next(s, Complete(job, Some(a), minTtl, now)), r, job.local, later).1 ==
            if Lives(minTtl, if job.local then 60 else 3600, age) then
              Some((Held(a, job.key, DnssecOk(job.requester), job.network), age))
            else None
  {
    hide Put, Get, AnswerCache.Valid, CacheKey, KeyOf, Cacheable, Usable, Lives, Age, HeldUnder, Current, JobsProper;
    var ck, held := CacheKey(job.key, DnssecOk(r)), Held(a, job.key, DnssecOk(r), job.network);
    HeldValid(s.cache);
    HeldValid(s.local);
    PutThenGet(if job.local then s.local else s.cache, ck, held, minTtl, now, later);
  }

  /** The caches keep their limits over every run. */
  lemma {:induction false} RunLimits(events: seq<Event>)
    requires Run(events)
    ensures After(events).cache.maxTtl == 3600 && After(events).local.maxTtl == 60
    ensures After(events).cache.capacity == 2000 && After(events).local.capacity == 128
  {
    if events != [] {
      var n := |events| - 1;
      RunLimits(events[..n]);
      var s := After(events[..n]);
      hide Possible, Next, Safe;
      SafeHeld(s);
      NextLimits(s, events[n]);
    }
  }

  lemma SafeHeld(s: State)
    requires Safe(s)
    ensures HeldValidState(s)
  {
    hide HeldUnder;
    HeldValid(s.cache);
    HeldValid(s.local);
  }

  lemma NextLimits(s: State, ev: Event)
    requires HeldValidState(s) && Possible(s, ev)
    ensures Next(s, ev).cache.maxTtl == s.cache.maxTtl && Next(s, ev).cache.capacity == s.cache.capacity
    ensures !ev.SetNetwork? ==>
              Next(s, ev).local.capacity == s.local.capacity && Next(s, ev).local.maxTtl == s.local.maxTtl
    ensures ev.SetNetwork? && ev.name != s.network ==>
              Next(s, ev).local.capacity == 128 && Next(s, ev).local.maxTtl == 60
    ensures ev.SetNetwork? && ev.name == s.network ==> Next(s, ev) == s
  {
    hide Usable, Cacheable, CacheKey, KeyOf, AnswerCache.Valid, Put, Get;
    match ev
    case Query(r, local, now) =>
      var ck := CacheKey(KeyOf(r.question), DnssecOk(r));
      GetLimits(s.cache, ck, now);
      GetLimits(s.local, ck, now);
    case Complete(job, answer, minTtl, now) =>
      if answer.Some? {
        var ck := CacheKey(job.key, DnssecOk(job.requester));
        var held := Held(answer.value, job.key, DnssecOk(job.requester), job.network);
        PutLimits(s.cache, ck, held, minTtl, now);
        PutLimits(s.local, ck, held, minTtl, now);
      }
    case SetNetwork(_) =>
  }

  lemma GetLimits(c: Cache<Held>, key: Key, now: nat)
    requires AnswerCache.Valid(c)
    ensures Get(c, key, now).0.maxTtl == c.maxTtl && Get(c, key, now).0.capacity == c.capacity
  {
  }

  lemma PutLimits(c: Cache<Held>, key: Key, held: Held, minTtl: nat, now: nat)
    requires AnswerCache.Valid(c)
    ensures var d := Put(c, key, held, minTtl, now); d.maxTtl == c.maxTtl && d.capacity == c.capacity
  {
  }

  /** On another network nothing local is served, and on the same one everything still is. */
  lemma NetworkDecides(s: State, name: string, r: Requester, now: nat)
    requires Safe(s) && ValidRequester(r)
    ensures HeldValidState(s) && HeldValidState(Next(s, SetNetwork(name)))
    ensures Lookup(Next(s, SetNetwork(name)), r, true, now).1 ==
            if name == s.network then Lookup(s, r, true, now).1 else None
    ensures Lookup(Next(s, SetNetwork(name)), r, false, now).1 == Lookup(s, r, false, now).1
  {
    hide HeldUnder, KeyOf, CacheKey;
    HeldValid(s.cache);
    HeldValid(s.local);
  }
}
