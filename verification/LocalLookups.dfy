/** Local network lookups (engine.rs): one open lookup for each question, the queries that
    wait for it, and the index that finds it. */
module LocalLookups {
  import opened Bytes

  const LOCAL_PENDING: nat := 64
  const LOCAL_JOBS_PER_LOOKUP: nat := 16

  /** A query that waits for an answer; `ticket` tells equal queries apart. */
  datatype Job = Job(ticket: nat, name: seq<byte>, rtype: nat, rclass: nat)

  /** What a lookup asks; the name is in lowercase, so that spelling does not tell lookups apart. */
  datatype Question = Question(name: seq<byte>, rtype: nat, rclass: nat)

  function QuestionOf(job: Job): Question { Question(Lowercase(job.name), job.rtype, job.rclass) }

  datatype Lookup = Lookup(question: Question, jobs: seq<Job>, since: nat)

  /** A lookup handed to the resolver. */
  datatype Call = Call(id: nat, name: seq<byte>, rtype: nat, rclass: nat)

  /** The resolver is asked what the first job of the lookup asks. */
  predicate AsksFor(c: Call, l: Lookup) {
    l.jobs != [] && c.name == l.jobs[0].name && c.rtype == l.jobs[0].rtype && c.rclass == l.jobs[0].rclass
  }

  datatype Table = Table(nextId: nat, waiting: map<nat, Lookup>, byQuestion: map<Question, nat>)

  const EMPTY := Table(0, map[], map[])

  /** The index and the table are inverse to each other. */
  ghost predicate Inverse(t: Table) {
    && (forall q :: q in t.byQuestion ==> t.byQuestion[q] in t.waiting && t.waiting[t.byQuestion[q]].question == q)
    && (forall id :: id in t.waiting ==>
          t.waiting[id].question in t.byQuestion && t.byQuestion[t.waiting[id].question] == id)
  }

  /** Ids are below the next one, and the limits hold. */
  ghost predicate Limited(t: Table) {
    && (forall id :: id in t.waiting ==> id < t.nextId && Asks(t.waiting[id]))
    && |t.waiting| <= LOCAL_PENDING
  }

  /** A lookup has 1 to 16 jobs, all with its question. */
  ghost predicate Asks(l: Lookup) {
    && 1 <= |l.jobs| <= LOCAL_JOBS_PER_LOOKUP
    && forall j :: j in l.jobs ==> QuestionOf(j) == l.question
  }

  ghost predicate Good(t: Table) { Inverse(t) && Limited(t) }

  // ----- the jobs that wait

  /** The jobs of the lookups with an id below `n`. */
  function Jobs(waiting: map<nat, Lookup>, n: nat): multiset<Job> {
    if n == 0 then multiset{}
    else Jobs(waiting, n - 1) + if n - 1 in waiting then multiset(waiting[n - 1].jobs) else multiset{}
  }

  /** All the jobs that wait. */
  function Waiting(t: Table): multiset<Job> { Jobs(t.waiting, t.nextId) }

  function Only(waiting: map<nat, Lookup>, ids: set<nat>): map<nat, Lookup> {
    map id | id in waiting && id in ids :: waiting[id]
  }

  lemma {:induction false} JobsSplit(waiting: map<nat, Lookup>, ids: set<nat>, n: nat)
    ensures Jobs(waiting, n) == Jobs(waiting - ids, n) + Jobs(Only(waiting, ids), n)
  {
    if n > 0 { JobsSplit(waiting, ids, n - 1); }
  }

  lemma {:induction false} JobsAgree(a: map<nat, Lookup>, b: map<nat, Lookup>, n: nat)
    requires forall id: nat :: id < n ==> (id in a <==> id in b) && (id in a ==> a[id] == b[id])
    ensures Jobs(a, n) == Jobs(b, n)
  {
    if n > 0 { JobsAgree(a, b, n - 1); }
  }

  /** Setting one lookup changes only its own jobs. */
  lemma {:induction false} JobsUpdate(waiting: map<nat, Lookup>, id: nat, l: Lookup, n: nat)
    requires id < n
    ensures Jobs(waiting[id := l], n) ==
            Jobs(waiting, n) - (if id in waiting then multiset(waiting[id].jobs) else multiset{}) + multiset(l.jobs)
    ensures id in waiting ==> multiset(waiting[id].jobs) <= Jobs(waiting, n)
  {
    if id == n - 1 {
      JobsAgree(waiting[id := l], waiting, n - 1);
    } else {
      JobsUpdate(waiting, id, l, n - 1);
      var before := if id in waiting then multiset(waiting[id].jobs) else multiset{};
      var last := if n - 1 in waiting then multiset(waiting[n - 1].jobs) else multiset{};
      Replaced(Jobs(waiting, n - 1), before, multiset(l.jobs), last);
    }
  }

  lemma Replaced(all: multiset<Job>, before: multiset<Job>, after: multiset<Job>, last: multiset<Job>)
    requires before <= all
    ensures (all - before + after) + last == (all + last) - before + after && before <= all + last
  {
  }

  // ----- the steps

  /** The lookups with these ids taken out, and out of the index. */
  function Without(t: Table, ids: set<nat>): Table {
    t.(waiting := t.waiting - ids,
       byQuestion := map q | q in t.byQuestion && t.byQuestion[q] !in ids :: t.byQuestion[q])
  }

  lemma WithoutGood(t: Table, ids: set<nat>)
    requires Good(t)
    ensures Good(Without(t, ids))
    ensures Waiting(t) == Waiting(Without(t, ids)) + Jobs(Only(t.waiting, ids), t.nextId)
  {
    JobsSplit(t.waiting, ids, t.nextId);
    var rest := t.waiting - ids;
    assert rest.Keys <= t.waiting.Keys;
    SubsetSize(rest.Keys, t.waiting.Keys);
  }

  function Expired(t: Table, now: nat, deadline: nat): set<nat> {
    set id | id in t.waiting && t.waiting[id].since + deadline <= now
  }

  /** A query joins the lookup for its question or opens one, if there is room. The indexed
      lookup is there: its access needs no check. */
  function Offer(t: Table, job: Job, now: nat): (r: (Table, bool))
    requires Good(t)
  {
    var q := QuestionOf(job);
    if q in t.byQuestion then
      var id := t.byQuestion[q];
      var l := t.waiting[id];
      if |l.jobs| < LOCAL_JOBS_PER_LOOKUP then
        (t.(waiting := t.waiting[id := l.(jobs := l.jobs + [job])]), true)
      else (t, false)
    else if |t.waiting| >= LOCAL_PENDING then (t, false)
    else
      (Table(t.nextId + 1, t.waiting[t.nextId := Lookup(q, [job], now)], t.byQuestion[q := t.nextId]), true)
  }

  lemma OfferInverse(t: Table, job: Job, now: nat)
    requires Good(t)
    ensures Inverse(Offer(t, job, now).0)
  {
    hide Asks;
    AllBelow(t);
  }

  lemma AllBelow(t: Table)
    requires Limited(t)
    ensures t.nextId !in t.waiting
  {
  }

  lemma JoinAsks(l: Lookup, job: Job)
    requires Asks(l) && |l.jobs| < LOCAL_JOBS_PER_LOOKUP && QuestionOf(job) == l.question
    ensures Asks(l.(jobs := l.jobs + [job]))
  {
  }

  lemma SetLimited(t: Table, id: nat, l: Lookup, t': Table)
    requires Limited(t) && Asks(l) && id < t'.nextId && t.nextId <= t'.nextId
    requires t'.waiting == t.waiting[id := l]
    requires id in t.waiting || |t.waiting| < LOCAL_PENDING
    ensures Limited(t')
  {
    hide Asks;
    assert t'.waiting.Keys == t.waiting.Keys + {id};
  }

  lemma OfferLimited(t: Table, job: Job, now: nat)
    requires Good(t)
    ensures Limited(Offer(t, job, now).0)
  {
    hide Asks, QuestionOf, Inverse, Limited;
    var q := QuestionOf(job);
    var t' := Offer(t, job, now).0;
    if q in t.byQuestion {
      var id := t.byQuestion[q];
      IndexedWaits(t, q);
      AsksAt(t, id);
      var l := t.waiting[id];
      if |l.jobs| < LOCAL_JOBS_PER_LOOKUP {
        JoinAsks(l, job);
        SetLimited(t, id, l.(jobs := l.jobs + [job]), t');
      }
    } else if |t.waiting| < LOCAL_PENDING {
      OpenAsks(job, now);
      SetLimited(t, t.nextId, Lookup(q, [job], now), t');
    }
  }

  lemma AsksAt(t: Table, id: nat)
    requires Limited(t) && id in t.waiting
    ensures id < t.nextId && Asks(t.waiting[id])
  {
  }

  lemma IndexedWaits(t: Table, q: Question)
    requires Inverse(t) && q in t.byQuestion
    ensures t.byQuestion[q] in t.waiting && t.waiting[t.byQuestion[q]].question == q
  {
  }

  lemma OpenAsks(job: Job, now: nat)
    ensures Asks(Lookup(QuestionOf(job), [job], now))
  {
  }

  /** An offer leaves the first jobs of the open lookups in place, and is the first of a new one. */
  lemma OfferOpens(t: Table, job: Job, now: nat)
    requires Good(t)
    ensures var t' := Offer(t, job, now).0;
            && (forall id :: id in t.waiting ==> id in t'.waiting && t.waiting[id].jobs <= t'.waiting[id].jobs)
            && (t'.nextId > t.nextId ==> t.nextId in t'.waiting && t'.waiting[t.nextId].jobs == [job])
  {
    hide Limited;
    AllBelow(t);
  }

  lemma OfferGood(t: Table, job: Job, now: nat)
    requires Good(t)
    ensures Good(Offer(t, job, now).0)
  {
    hide Offer, Inverse, Limited;
    OfferInverse(t, job, now);
    OfferLimited(t, job, now);
  }

  /** The job offered waits afterwards, or nothing has changed. */
  lemma OfferConserves(t: Table, job: Job, now: nat)
    requires Good(t)
    ensures var (t', waits) := Offer(t, job, now);
            Waiting(t') == Waiting(t) + if waits then multiset{job} else multiset{}
  {
    var q := QuestionOf(job);
    if q in t.byQuestion {
      var id := t.byQuestion[q];
      var l := t.waiting[id];
      if |l.jobs| < LOCAL_JOBS_PER_LOOKUP {
        JobsUpdate(t.waiting, id, l.(jobs := l.jobs + [job]), t.nextId);
        assert multiset(l.jobs + [job]) == multiset(l.jobs) + multiset{job};
      }
    } else if |t.waiting| < LOCAL_PENDING {
      JobsAgree(t.waiting[t.nextId := Lookup(q, [job], now)], t.waiting, t.nextId);
    }
  }

  /** The queries of one batch, offered in turn; `failed` are those that cannot wait. */
  function OfferAll(t: Table, jobs: seq<Job>, now: nat): (r: (Table, seq<Job>))
    requires Good(t)
    ensures Good(r.0)
  {
    if jobs == [] then (t, [])
    else
      var n := |jobs| - 1;
      var (t1, failed) := OfferAll(t, jobs[..n], now);
      var (t2, waits) := Offer(t1, jobs[n], now);
      OfferGood(t1, jobs[n], now);
      (t2, if waits then failed else failed + [jobs[n]])
  }

  lemma {:induction false} OfferAllConserves(t: Table, jobs: seq<Job>, now: nat)
    requires Good(t)
    ensures var (t', failed) := OfferAll(t, jobs, now);
            Waiting(t') + multiset(failed) == Waiting(t) + multiset(jobs)
  {
    hide Good, Waiting, Offer;
    if jobs != [] {
      var n := |jobs| - 1;
      OfferAllConserves(t, jobs[..n], now);
      var (t1, failed) := OfferAll(t, jobs[..n], now);
      OfferConserves(t1, jobs[n], now);
      var (t2, waits) := Offer(t1, jobs[n], now);
      assert jobs == jobs[..n] + [jobs[n]];
      var failed' := if waits then failed else failed + [jobs[n]];
      assert OfferAll(t, jobs, now) == (t2, failed');
      assert Waiting(t2) + multiset(failed') == (Waiting(t1) + multiset(failed)) + multiset{jobs[n]};
      assert (Waiting(t) + multiset(jobs[..n])) + multiset{jobs[n]} == Waiting(t) + multiset(jobs);
    }
  }

  // ----- whole runs

  /** What can happen: a batch of queries arrives (with or without a resolver set), or the
      resolver answers a lookup. */
  datatype Event =
    | Submit(jobs: seq<Job>, now: nat, resolver: bool)
    | Complete(id: nat)

  /** The table after an event, and the jobs it answers. */
  function Step(t: Table, ev: Event, deadline: nat): (r: (Table, multiset<Job>))
    requires Good(t)
    ensures Good(r.0)
  {
    match ev
    case Submit(jobs, now, resolver) =>
      var ids := Expired(t, now, deadline);
      WithoutGood(t, ids);
      var expired := Jobs(Only(t.waiting, ids), t.nextId);
      if !resolver then (Without(t, ids), expired + multiset(jobs))
      else
        var (t', failed) := OfferAll(Without(t, ids), jobs, now);
        (t', expired + multiset(failed))
    case Complete(id) =>
      WithoutGood(t, {id});
      (Without(t, {id}), if id in t.waiting then multiset(t.waiting[id].jobs) else multiset{})
  }

  function Submitted(ev: Event): multiset<Job> {
    match ev
    case Submit(jobs, _, _) => multiset(jobs)
    case Complete(_) => multiset{}
  }

  lemma {:induction false} OnlyOne(waiting: map<nat, Lookup>, id: nat, n: nat)
    requires id < n || id !in waiting
    ensures Jobs(Only(waiting, {id}), n) == if id in waiting then multiset(waiting[id].jobs) else multiset{}
  {
    if n > 0 {
      if id == n - 1 {
        NoJobs(Only(waiting, {id}), n - 1);
      } else {
        OnlyOne(waiting, id, n - 1);
      }
    }
  }

  lemma {:induction false} NoJobs(waiting: map<nat, Lookup>, n: nat)
    requires forall id: nat :: id < n ==> id !in waiting
    ensures Jobs(waiting, n) == multiset{}
  {
    if n > 0 { NoJobs(waiting, n - 1); }
  }

  lemma Regrouped(w': multiset<Job>, failed: multiset<Job>, w: multiset<Job>, added: multiset<Job>,
                  expired: multiset<Job>)
    requires w' + failed == w + added
    ensures w' + (expired + failed) == (w + expired) + added
  {
    assert w' + (expired + failed) == (w' + failed) + expired;
    assert (w + added) + expired == (w + expired) + added;
  }

  /** An event answers and keeps waiting exactly the jobs that waited or arrived. */
  lemma StepConserves(t: Table, ev: Event, deadline: nat)
    requires Good(t)
    ensures var (t', answered) := Step(t, ev, deadline);
            Waiting(t') + answered == Waiting(t) + Submitted(ev)
  {
    hide Waiting, Only, Jobs, Offer, OfferAll, Expired;
    match ev {
      case Submit(jobs, now, resolver) =>
        hide Good, Without;
        var ids := Expired(t, now, deadline);
        WithoutGood(t, ids);
        var s, expired, added := Without(t, ids), Jobs(Only(t.waiting, ids), t.nextId), multiset(jobs);
        assert Waiting(s) + expired == Waiting(t);
        if resolver {
          OfferAllConserves(s, jobs, now);
          var (t', failed) := OfferAll(s, jobs, now);
          Regrouped(Waiting(t'), multiset(failed), Waiting(s), added, expired);
          assert Step(t, ev, deadline) == (t', expired + multiset(failed));
        } else {
          Regrouped(Waiting(s), added, Waiting(s), added, expired);
          assert Step(t, ev, deadline) == (s, expired + added);
        }
      case Complete(id) =>
        WithoutGood(t, {id});
        OnlyOne(t.waiting, id, t.nextId);
    }
  }

  /** Ids only grow, a lookup that is closed never waits again, and its answer comes back
      empty. */
  lemma StepClosesForGood(t: Table, ev: Event, deadline: nat, id: nat)
    requires Good(t) && id < t.nextId && id !in t.waiting
    ensures var (t', answered) := Step(t, ev, deadline);
            && t.nextId <= t'.nextId && id !in t'.waiting
            && (ev == Complete(id) ==> answered == multiset{} && t' == t)
  {
    match ev {
      case Submit(jobs, now, resolver) =>
        var s := Without(t, Expired(t, now, deadline));
        WithoutGood(t, Expired(t, now, deadline));
        if resolver { OfferAllFresh(s, jobs, now, id); }
      case Complete(other) =>
        if other == id {
          assert t.waiting - {id} == t.waiting;
          assert Without(t, {id}).byQuestion == t.byQuestion;
        }
    }
  }

  lemma OfferFresh(t: Table, job: Job, now: nat, id: nat)
    requires Good(t) && id < t.nextId && id !in t.waiting
    ensures t.nextId <= Offer(t, job, now).0.nextId && id !in Offer(t, job, now).0.waiting
  {
  }

  lemma {:induction false} OfferAllFresh(t: Table, jobs: seq<Job>, now: nat, id: nat)
    requires Good(t) && id < t.nextId && id !in t.waiting
    ensures t.nextId <= OfferAll(t, jobs, now).0.nextId && id !in OfferAll(t, jobs, now).0.waiting
  {
    hide Good, Offer;
    if jobs != [] {
      var n := |jobs| - 1;
      OfferAllFresh(t, jobs[..n], now, id);
      OfferFresh(OfferAll(t, jobs[..n], now).0, jobs[n], now, id);
    }
  }

  /** The table after a run from the start, and the jobs answered in it. */
  function Run(events: seq<Event>, deadline: nat): (r: (Table, multiset<Job>))
    ensures Good(r.0)
  {
    if events == [] then (EMPTY, multiset{})
    else
      var n := |events| - 1;
      var (t, answered) := Run(events[..n], deadline);
      var (t', more) := Step(t, events[n], deadline);
      (t', answered + more)
  }

  function AllSubmitted(events: seq<Event>): multiset<Job> {
    if events == [] then multiset{}
    else AllSubmitted(events[..|events| - 1]) + Submitted(events[|events| - 1])
  }

  /** Over every run each job submitted waits in the table or has been answered, never both
      and never twice. */
  lemma {:induction false} RunConserves(events: seq<Event>, deadline: nat)
    ensures var (t, answered) := Run(events, deadline);
            Waiting(t) + answered == AllSubmitted(events)
  {
    hide Waiting, Step;
    if events == [] {
      NoJobs(EMPTY.waiting, 0);
      assert Waiting(EMPTY) == multiset{} by { EmptyWaits(); }
    } else {
      var n := |events| - 1;
      RunConserves(events[..n], deadline);
      var (t, answered) := Run(events[..n], deadline);
      StepConserves(t, events[n], deadline);
      var (t', more) := Step(t, events[n], deadline);
      assert Run(events, deadline) == (t', answered + more);
      assert Waiting(t') + (answered + more) == (Waiting(t') + more) + answered;
      assert (Waiting(t) + Submitted(events[n])) + answered == (Waiting(t) + answered) + Submitted(events[n]);
    }
  }

  lemma EmptyWaits()
    ensures Waiting(EMPTY) == multiset{}
  {
  }

  /** A job submitted once is in one place: it waits in one lookup, the one for its question,
      or it was answered once. */
  lemma JobInOnePlace(events: seq<Event>, deadline: nat, job: Job)
    requires AllSubmitted(events)[job] == 1
    ensures var (t, answered) := Run(events, deadline);
            || (answered[job] == 1 && forall id :: id in t.waiting ==> job !in t.waiting[id].jobs)
            || (answered[job] == 0 && QuestionOf(job) in t.byQuestion
                && multiset(t.waiting[t.byQuestion[QuestionOf(job)]].jobs)[job] == 1
                && forall id :: id in t.waiting && id != t.byQuestion[QuestionOf(job)] ==> job !in t.waiting[id].jobs)
  {
    hide Run, AllSubmitted;
    RunConserves(events, deadline);
    var (t, answered) := Run(events, deadline);
    assert Waiting(t)[job] + answered[job] == 1;
    forall id | id in t.waiting ensures multiset(t.waiting[id].jobs)[job] <= Waiting(t)[job] {
      JobsUpdate(t.waiting, id, t.waiting[id], t.nextId);
    }
    if Waiting(t)[job] == 1 {
      var id := SomewhereWaiting(t, job, t.nextId);
      assert job in multiset(t.waiting[id].jobs);
    } else {
      forall id | id in t.waiting ensures job !in t.waiting[id].jobs {
        assert job !in multiset(t.waiting[id].jobs);
      }
    }
  }

  lemma {:induction false} SomewhereWaiting(t: Table, job: Job, n: nat) returns (id: nat)
    requires Good(t) && job in Jobs(t.waiting, n)
    ensures id in t.waiting && job in t.waiting[id].jobs
  {
    if n - 1 in t.waiting && job in t.waiting[n - 1].jobs {
      id := n - 1;
    } else {
      assert n - 1 in t.waiting ==> job !in multiset(t.waiting[n - 1].jobs);
      id := SomewhereWaiting(t, job, n - 1);
    }
  }

  // ----- the table updated in place

  class LocalJobs {
    var nextId: nat
    var waiting: map<nat, Lookup>
    var byQuestion: map<Question, nat>

    ghost function Now(): Table
      reads this
    {
      Table(nextId, waiting, byQuestion)
    }

    constructor ()
      ensures Now() == EMPTY && Good(Now())
    {
      nextId, waiting, byQuestion := 0, map[], map[];
    }

    /** `remove`. */
    method Remove(id: nat) returns (r: Option<Lookup>)
      requires Good(Now())
      modifies this
      ensures Now() == Without(old(Now()), {id}) && Good(Now())
      ensures r == if id in old(waiting) then Some(old(waiting[id])) else None
    {
      hide Inverse, Limited;
      WithoutGood(Now(), {id});
      WithoutOne(Now(), id);
      if id !in waiting {
        return None;
      }
      var lookup := waiting[id];
      waiting := waiting - {id};
      byQuestion := byQuestion - {lookup.question};
      r := Some(lookup);
    }

    /** The lookups past their deadline are taken out, in any order. */
    method Expire(now: nat, deadline: nat) returns (failed: seq<Job>)
      requires Good(Now())
      modifies this
      ensures Now() == Without(old(Now()), Expired(old(Now()), now, deadline)) && Good(Now())
      ensures multiset(failed) == Jobs(Only(old(waiting), Expired(old(Now()), now, deadline)), old(nextId))
    {
      hide Good, Jobs, Only, Without;
      var expired := set id | id in waiting && waiting[id].since + deadline <= now;
      failed := [];
      ghost var done: set<nat> := {};
      var left := expired;
      NothingOut(Now());
      while left != {}
        invariant left + done == expired && left * done == {}
        invariant Now() == Without(old(Now()), done) && Good(Now())
        invariant multiset(failed) == Jobs(Only(old(waiting), done), old(nextId))
        decreases left
      {
        var id :| id in left;
        OneMoreOut(old(Now()), done, id);
        var lookup := Remove(id);
        failed := failed + lookup.value.jobs;
        left := left - {id};
        done := done + {id};
      }
      assert done == expired;
    }

    /** `resolve_locally`, up to handing the calls to the resolver. */
    method ResolveLocally(jobs: seq<Job>, now: nat, deadline: nat, resolver: bool)
      returns (failed: seq<Job>, calls: seq<Call>)
      requires Good(Now())
      modifies this
      ensures Good(Now()) && Now() == Step(old(Now()), Submit(jobs, now, resolver), deadline).0
      ensures multiset(failed) == Step(old(Now()), Submit(jobs, now, resolver), deadline).1
      ensures |calls| == nextId - old(nextId)
      ensures forall i :: 0 <= i < |calls| ==> calls[i].id == old(nextId) + i
      ensures forall i :: 0 <= i < |calls| ==> calls[i].id in waiting && AsksFor(calls[i], waiting[calls[i].id])
    {
      hide Good, Jobs, Offer;
      failed := Expire(now, deadline);
      calls := [];
      ghost var start, expired := Now(), failed;
      ghost var refused: seq<Job> := [];
      var i := 0;
      while i < |jobs|
        invariant 0 <= i <= |jobs| && Good(Now())
        invariant resolver ==> (Now(), refused) == OfferAll(start, jobs[..i], now)
        invariant !resolver ==> Now() == start && refused == jobs[..i]
        invariant failed == expired + refused
        invariant start.nextId == old(nextId) && |calls| == nextId - old(nextId)
        invariant forall k :: 0 <= k < |calls| ==> calls[k].id == old(nextId) + k
        invariant forall k :: 0 <= k < |calls| ==> calls[k].id in waiting && AsksFor(calls[k], waiting[calls[k].id])
      {
        assert jobs[..i + 1][..i] == jobs[..i];
        var waits := false;
        if resolver {
          var before := nextId;
          OfferOpens(Now(), jobs[i], now);
          waits := this.Join(jobs[i], now);
          if nextId > before {
            calls := calls + [Call(before, jobs[i].name, jobs[i].rtype, jobs[i].rclass)];
          }
        }
        if !waits {
          failed := failed + [jobs[i]];
          refused := refused + [jobs[i]];
        }
        i := i + 1;
      }
      assert jobs[..i] == jobs;
    }

    /** One query of the batch. */
    method Join(job: Job, now: nat) returns (waits: bool)
      requires Good(Now())
      modifies this
      ensures (Now(), waits) == Offer(old(Now()), job, now) && Good(Now())
      ensures nextId == old(nextId) || nextId == old(nextId) + 1
    {
      OfferGood(Now(), job, now);
      var q := QuestionOf(job);
      if q in byQuestion {
        var id := byQuestion[q];
        var lookup := waiting[id];
        if |lookup.jobs| < LOCAL_JOBS_PER_LOOKUP {
          waiting := waiting[id := lookup.(jobs := lookup.jobs + [job])];
          return true;
        }
        return false;
      }
      if |waiting| >= LOCAL_PENDING {
        return false;
      }
      var id := nextId;
      nextId := nextId + 1;
      byQuestion := byQuestion[q := id];
      waiting := waiting[id := Lookup(q, [job], now)];
      return true;
    }

    /** `complete_local`: the jobs to answer, none when the id is closed already. */
    method CompleteLocal(id: nat) returns (jobs: seq<Job>)
      requires Good(Now())
      modifies this
      ensures Good(Now()) && Now() == Step(old(Now()), Complete(id), 0).0
      ensures multiset(jobs) == Step(old(Now()), Complete(id), 0).1
    {
      hide Good, Without;
      var lookup := Remove(id);
      jobs := if lookup.Some? then lookup.value.jobs else [];
    }
  }

  lemma WithoutOne(t: Table, id: nat)
    requires Inverse(t)
    ensures Without(t, {id}) ==
            if id in t.waiting then
              t.(waiting := t.waiting - {id}, byQuestion := t.byQuestion - {t.waiting[id].question})
            else t
  {
    var w := Without(t, {id});
    if id in t.waiting {
      var q := t.waiting[id].question;
      forall p | p in t.byQuestion ensures t.byQuestion[p] == id <==> p == q {
        assert t.waiting[t.byQuestion[p]].question == p;
      }
      assert w.byQuestion == t.byQuestion - {q};
    } else {
      assert t.waiting - {id} == t.waiting && w.byQuestion == t.byQuestion;
    }
  }

  lemma NothingOut(t: Table)
    ensures Without(t, {}) == t
    ensures Jobs(Only(t.waiting, {}), t.nextId) == multiset{}
  {
    assert t.waiting - {} == t.waiting;
    assert Without(t, {}).byQuestion == t.byQuestion;
    NoJobs(Only(t.waiting, {}), t.nextId);
  }

  lemma OneMoreOut(t: Table, ids: set<nat>, id: nat)
    requires Good(t) && id !in ids && id in t.waiting
    ensures Without(Without(t, ids), {id}) == Without(t, ids + {id})
    ensures id in Without(t, ids).waiting && Without(t, ids).waiting[id] == t.waiting[id]
    ensures Jobs(Only(t.waiting, ids + {id}), t.nextId) == Jobs(Only(t.waiting, ids), t.nextId)
              + multiset(t.waiting[id].jobs)
  {
    assert t.waiting - ids - {id} == t.waiting - (ids + {id});
    assert Without(Without(t, ids), {id}).byQuestion == Without(t, ids + {id}).byQuestion;
    var m := Only(t.waiting, ids);
    assert Only(t.waiting, ids + {id}) == m[id := t.waiting[id]];
    JobsUpdate(m, id, t.waiting[id], t.nextId);
  }
}
