/** Which queries wait on the local network, and which are failed at once (engine.rs): the whole effect
    of a batch on each question, without going through its queries one by one. */
module LookupsExact {
  import opened Bytes
  import opened LocalLookups

  // ----- the lookup of a question

  /** The open lookup of a question. */
  function OpenFor(t: Table, q: Question): Option<Lookup>
    requires Good(t)
  {
    if q in t.byQuestion then Some(t.waiting[t.byQuestion[q]]) else None
  }

  /** It is the one that waits for that question. */
  lemma OpenForIs(t: Table, q: Question, l: Lookup)
    requires Good(t)
    ensures OpenFor(t, q) == Some(l) <==> exists id :: id in t.waiting && t.waiting[id] == l && l.question == q
    ensures OpenFor(t, q) == None <==> forall id :: id in t.waiting ==> t.waiting[id].question != q
  {
    hide Limited;
  }

  // ----- a batch

  /** The jobs that ask this, in order. */
  function Same(jobs: seq<Job>, q: Question): seq<Job> {
    if jobs == [] then []
    else
      var n := |jobs| - 1;
      Same(jobs[..n], q) + if QuestionOf(jobs[n]) == q then [jobs[n]] else []
  }

  /** The questions without an open lookup that the jobs ask, in the order they come up. */
  function News(t: Table, jobs: seq<Job>): seq<Question>
    requires Good(t)
  {
    if jobs == [] then []
    else
      var n := |jobs| - 1;
      var before, q := News(t, jobs[..n]), QuestionOf(jobs[n]);
      if OpenFor(t, q).Some? || q in before then before else before + [q]
  }

  function First<T>(s: seq<T>, n: int): seq<T> { if n <= 0 then [] else if |s| <= n then s else s[..n] }

  /** The question has a lookup, or is new while fewer than 64 are open. */
  predicate HasLookup(t: Table, jobs: seq<Job>, q: Question)
    requires Good(t)
  {
    OpenFor(t, q).Some? || q in First(News(t, jobs), 64 - |t.waiting|)
  }

  function JobsFor(t: Table, q: Question): seq<Job>
    requires Good(t)
  {
    if OpenFor(t, q).Some? then OpenFor(t, q).value.jobs else []
  }

  /** A job that comes after `before` waits: its question has a lookup, and fewer than 16 jobs ask it. */
  predicate Accepted(t: Table, before: seq<Job>, job: Job)
    requires Good(t)
  {
    var q := QuestionOf(job);
    HasLookup(t, before + [job], q) && |JobsFor(t, q)| + |Same(before, q)| < 16
  }

  /** The jobs of a batch that cannot wait, in order. */
  function Turned(t: Table, jobs: seq<Job>): seq<Job>
    requires Good(t)
  {
    if jobs == [] then []
    else
      var n := |jobs| - 1;
      Turned(t, jobs[..n]) + if Accepted(t, jobs[..n], jobs[n]) then [] else [jobs[n]]
  }

  /** The lookup of a question after a batch: the first 16 of the jobs that waited and those that came,
      begun when it was, or now. */
  function Expected(t: Table, jobs: seq<Job>, now: nat, q: Question): Option<Lookup>
    requires Good(t)
  {
    var all := First(JobsFor(t, q) + Same(jobs, q), 16);
    if OpenFor(t, q).Some? then Some(OpenFor(t, q).value.(jobs := all))
    else if HasLookup(t, jobs, q) then Some(Lookup(q, all, now))
    else None
  }

  // ----- one job

  /** What one offer does to each question. */
  lemma OfferExactly(t: Table, job: Job, now: nat, q: Question)
    requires Good(t)
    ensures var (t', waits) := Offer(t, job, now);
            var own := OpenFor(t, QuestionOf(job));
            && Good(t')
            && (waits <==> if own.Some? then |own.value.jobs| < 16 else |t.waiting| < 64)
            && |t'.waiting| == |t.waiting| + (if waits && own.None? then 1 else 0)
            && (OpenFor(t', q) ==
                if q != QuestionOf(job) || !waits then OpenFor(t, q)
                else if own.Some? then Some(own.value.(jobs := own.value.jobs + [job]))
                else Some(Lookup(q, [job], now)))
  {
    OfferGood(t, job, now);
    hide Limited, Inverse, QuestionOf;
    var own := QuestionOf(job);
    if own in t.byQuestion {
      IndexedWaits(t, own);
      var id := t.byQuestion[own];
      if |t.waiting[id].jobs| < LOCAL_JOBS_PER_LOOKUP {
        Joined(t, id, t.waiting[id].(jobs := t.waiting[id].jobs + [job]), q);
      }
    } else if |t.waiting| < LOCAL_PENDING {
      AllBelow(t);
      Opened(t, own, Lookup(own, [job], now), q);
    }
  }

  lemma Joined(t: Table, id: nat, l: Lookup, q: Question)
    requires Good(t) && id in t.waiting && l.question == t.waiting[id].question
    ensures |t.waiting[id := l]| == |t.waiting|
    ensures q in t.byQuestion && q != l.question ==> t.waiting[id := l][t.byQuestion[q]] == t.waiting[t.byQuestion[q]]
  {
    hide Limited;
    assert t.waiting[id := l].Keys == t.waiting.Keys;
    if q in t.byQuestion && q != l.question { assert t.byQuestion[q] != id; }
  }

  lemma Opened(t: Table, own: Question, l: Lookup, q: Question)
    requires Good(t) && t.nextId !in t.waiting
    ensures |t.waiting[t.nextId := l]| == |t.waiting| + 1
    ensures q in t.byQuestion ==> t.waiting[t.nextId := l][t.byQuestion[q]] == t.waiting[t.byQuestion[q]]
  {
    hide Limited;
    assert t.waiting[t.nextId := l].Keys == t.waiting.Keys + {t.nextId};
    if q in t.byQuestion { assert t.byQuestion[q] in t.waiting; }
  }

  lemma SameNext(jobs: seq<Job>, job: Job, q: Question)
    ensures Same(jobs + [job], q) == Same(jobs, q) + if QuestionOf(job) == q then [job] else []
  {
    assert (jobs + [job])[..|jobs|] == jobs;
  }

  lemma NewsNext(t: Table, jobs: seq<Job>, job: Job)
    requires Good(t)
    ensures var before, q := News(t, jobs), QuestionOf(job);
            News(t, jobs + [job]) == if OpenFor(t, q).Some? || q in before then before else before + [q]
  {
    hide Good;
    assert (jobs + [job])[..|jobs|] == jobs;
  }

  lemma TurnedNext(t: Table, jobs: seq<Job>, job: Job)
    requires Good(t)
    ensures Turned(t, jobs + [job]) == Turned(t, jobs) + if Accepted(t, jobs, job) then [] else [job]
  {
    hide Good, Accepted;
    assert (jobs + [job])[..|jobs|] == jobs;
  }

  /** The new questions are those that are asked and have no lookup, each once. */
  lemma {:induction false} NewsAre(t: Table, jobs: seq<Job>, q: Question)
    requires Good(t)
    ensures q in News(t, jobs) <==> OpenFor(t, q).None? && Same(jobs, q) != []
    ensures forall i, j :: 0 <= i < j < |News(t, jobs)| ==> News(t, jobs)[i] != News(t, jobs)[j]
  {
    hide Good, OpenFor, QuestionOf;
    if jobs != [] {
      var n := |jobs| - 1;
      assert jobs == jobs[..n] + [jobs[n]];
      NewsAre(t, jobs[..n], q);
      if QuestionOf(jobs[n]) == q { NewsAre(t, jobs[..n], QuestionOf(jobs[n])); }
    }
  }

  /** How a further job changes which questions have a lookup. */
  lemma LookupNext(t: Table, jobs: seq<Job>, job: Job, q: Question)
    requires Good(t)
    ensures var own := QuestionOf(job);
            HasLookup(t, jobs + [job], q) <==>
              || HasLookup(t, jobs, q)
              || (q == own && OpenFor(t, own).None? && own !in News(t, jobs) && |News(t, jobs)| < 64 - |t.waiting|)
  {
    hide Good, OpenFor, QuestionOf, News;
    NewsNext(t, jobs, job);
  }

  // ----- the whole batch

  /** The table after the jobs, for one question. */
  ghost predicate AsExpected(t: Table, jobs: seq<Job>, now: nat, t': Table, q: Question)
    requires Good(t)
  {
    && Good(t') && OpenFor(t', q) == Expected(t, jobs, now, q)
    && |t'.waiting| == |t.waiting| + |First(News(t, jobs), 64 - |t.waiting|)|
  }

  lemma FirstNext<T>(s: seq<T>, x: T, n: int)
    ensures First(s + [x], n) == if |s| < n then s + [x] else First(s, n)
  {
  }

  /** A job of another question leaves this one alone. */
  lemma OtherJob(t: Table, jobs: seq<Job>, job: Job, now: nat, q: Question)
    requires Good(t) && QuestionOf(job) != q
    ensures Expected(t, jobs + [job], now, q) == Expected(t, jobs, now, q)
  {
    hide Good, OpenFor, QuestionOf, HasLookup;
    SameNext(jobs, job, q);
    assert Same(jobs, q) + [] == Same(jobs, q);
    LookupNext(t, jobs, job, q);
  }

  /** How many lookups are open after a further job. */
  lemma SizeNext(t: Table, jobs: seq<Job>, job: Job)
    requires Good(t)
    ensures var own, room := QuestionOf(job), 64 - |t.waiting|;
            |First(News(t, jobs + [job]), room)| == |First(News(t, jobs), room)|
              + if OpenFor(t, own).None? && own !in News(t, jobs) && |News(t, jobs)| < room then 1 else 0
  {
    hide Good, OpenFor, QuestionOf, News;
    NewsNext(t, jobs, job);
    FirstNext(News(t, jobs), QuestionOf(job), 64 - |t.waiting|);
  }

  /** A job whose question has a lookup joins it while there is room. */
  lemma OwnLookup(t: Table, jobs: seq<Job>, job: Job, now: nat)
    requires Good(t) && HasLookup(t, jobs, QuestionOf(job))
    ensures var q := QuestionOf(job);
            var before := Expected(t, jobs, now, q);
            && before.Some? && (Accepted(t, jobs, job) <==> |before.value.jobs| < 16)
            && (Expected(t, jobs + [job], now, q) ==
                if |before.value.jobs| < 16 then Some(before.value.(jobs := before.value.jobs + [job])) else before)
  {
    hide Good, OpenFor, QuestionOf, HasLookup;
    var q := QuestionOf(job);
    LookupNext(t, jobs, job, q);
    SameNext(jobs, job, q);
    var all := JobsFor(t, q) + Same(jobs, q);
    assert JobsFor(t, q) + (Same(jobs, q) + [job]) == all + [job];
    FirstNext(all, job, 16);
  }

  /** A job whose question has none opens one while there is room. */
  lemma NoLookupYet(t: Table, jobs: seq<Job>, job: Job, now: nat)
    requires Good(t) && !HasLookup(t, jobs, QuestionOf(job))
    ensures var q, room := QuestionOf(job), 64 - |t.waiting|;
            && Expected(t, jobs, now, q).None? && OpenFor(t, q).None?
            && (Accepted(t, jobs, job) <==> |First(News(t, jobs), room)| < room)
            && (Accepted(t, jobs, job) <==> q !in News(t, jobs) && |News(t, jobs)| < room)
  {
    var q, room := QuestionOf(job), 64 - |t.waiting|;
    assert |t.waiting| <= 64;
    hide Good, OpenFor, QuestionOf, News, Same;
    LookupNext(t, jobs, job, q);
    NotAmongFirst(News(t, jobs), room, q);
  }

  lemma NoLookup(t: Table, jobs: seq<Job>, job: Job, now: nat)
    requires Good(t) && !HasLookup(t, jobs, QuestionOf(job))
    ensures var q, room := QuestionOf(job), 64 - |t.waiting|;
            && Expected(t, jobs, now, q).None? && OpenFor(t, q).None?
            && (Accepted(t, jobs, job) <==> |First(News(t, jobs), room)| < room)
            && (Accepted(t, jobs, job) <==> q !in News(t, jobs) && |News(t, jobs)| < room)
            && (Expected(t, jobs + [job], now, q) ==
                if Accepted(t, jobs, job) then Some(Lookup(q, [job], now)) else None)
  {
    var q, room := QuestionOf(job), 64 - |t.waiting|;
    hide Good, OpenFor, QuestionOf, News, First, Accepted;
    NoLookupYet(t, jobs, job, now);
    LookupNext(t, jobs, job, q);
    NewsAre(t, jobs, q);
    SameNext(jobs, job, q);
    hide Same;
    if q !in News(t, jobs) { OneJob(job); }
  }

  lemma NotAmongFirst<T>(s: seq<T>, n: int, x: T)
    requires x !in First(s, n)
    ensures |First(s, n)| < n <==> x !in s && |s| < n
  {
  }

  lemma OneJob(job: Job)
    ensures First([] + ([] + [job]), 16) == [job]
  {
  }

  lemma BatchNext(t: Table, jobs: seq<Job>, job: Job, now: nat, t1: Table, q: Question)
    requires Good(t) && AsExpected(t, jobs, now, t1, q) && AsExpected(t, jobs, now, t1, QuestionOf(job))
    ensures var (t2, waits) := Offer(t1, job, now);
            AsExpected(t, jobs + [job], now, t2, q) && (waits <==> Accepted(t, jobs, job))
  {
    hide Good, OpenFor, QuestionOf, HasLookup, Accepted, Expected, News, First;
    OfferExactly(t1, job, now, q);
    SizeNext(t, jobs, job);
    if HasLookup(t, jobs, QuestionOf(job)) {
      OwnLookup(t, jobs, job, now);
      Known(t, jobs, QuestionOf(job));
    } else {
      NoLookup(t, jobs, job, now);
    }
    if q != QuestionOf(job) { OtherJob(t, jobs, job, now, q); }
  }

  lemma Known(t: Table, jobs: seq<Job>, q: Question)
    requires Good(t) && HasLookup(t, jobs, q)
    ensures OpenFor(t, q).Some? || q in News(t, jobs)
  {
  }

  /** A batch turns away exactly the jobs that are not accepted, and leaves each question the expected
      lookup. */
  lemma {:induction false} BatchExactly(t: Table, jobs: seq<Job>, now: nat, q: Question)
    requires Good(t)
    ensures var (t', failed) := OfferAll(t, jobs, now);
            AsExpected(t, jobs, now, t', q) && failed == Turned(t, jobs)
    decreases |jobs|
  {
    hide Good, AsExpected, Offer, QuestionOf, Accepted, Turned, OpenFor, Expected;
    if jobs == [] {
      NothingAsked(t, now, q);
    } else {
      var n := |jobs| - 1;
      var front := jobs[..n];
      BatchExactly(t, front, now, q);
      BatchExactly(t, front, now, QuestionOf(jobs[n]));
      var (t1, failed) := OfferAll(t, front, now);
      BatchNext(t, front, jobs[n], now, t1, q);
      assert jobs == front + [jobs[n]];
      TurnedNext(t, front, jobs[n]);
      assert failed + [] == failed;
    }
  }

  lemma NothingAsked(t: Table, now: nat, q: Question)
    requires Good(t)
    ensures AsExpected(t, [], now, t, q) && Turned(t, []) == []
  {
    hide Inverse;
    if OpenFor(t, q).Some? {
      var l := OpenFor(t, q).value;
      OpenAsk(t, q);
      assert l.jobs + [] == l.jobs;
    }
  }

  lemma OpenAsk(t: Table, q: Question)
    requires Good(t) && OpenFor(t, q).Some?
    ensures 1 <= |OpenFor(t, q).value.jobs| <= 16 && OpenFor(t, q).value.question == q
  {
    IndexedWaits(t, q);
    AsksAt(t, t.byQuestion[q]);
  }

  // ----- the events

  /** The lookup has waited for less than the deadline. */
  predicate InTime(l: Lookup, now: nat, deadline: nat) { now < l.since + deadline }

  /** At a submission, exactly the lookups past their deadline go. */
  lemma StillOpen(t: Table, now: nat, deadline: nat, q: Question)
    requires Good(t)
    ensures var s := Without(t, Expired(t, now, deadline));
            && Good(s)
            && (OpenFor(s, q) ==
                if OpenFor(t, q).Some? && InTime(OpenFor(t, q).value, now, deadline) then OpenFor(t, q) else None)
            && s.waiting.Keys == set id | id in t.waiting && InTime(t.waiting[id], now, deadline)
  {
    WithoutGood(t, Expired(t, now, deadline));
    hide Limited;
    if q in t.byQuestion { IndexedWaits(t, q); }
  }

  /** A submission with a resolver: what is past its deadline fails, of the jobs that come exactly those
      not accepted fail, and each question has the expected lookup. */
  lemma SubmitExactly(t: Table, jobs: seq<Job>, now: nat, deadline: nat, q: Question)
    requires Good(t)
    ensures var s := Without(t, Expired(t, now, deadline));
            var (t', answered) := Step(t, Submit(jobs, now, true), deadline);
            && Good(s) && OpenFor(t', q) == Expected(s, jobs, now, q)
            && answered == Jobs(Only(t.waiting, Expired(t, now, deadline)), t.nextId) + multiset(Turned(s, jobs))
  {
    hide Good, OfferAll, Expected, Turned, OpenFor, Jobs, Only, Expired;
    WithoutGood(t, Expired(t, now, deadline));
    BatchExactly(Without(t, Expired(t, now, deadline)), jobs, now, q);
  }

  /** Without a resolver every job that comes fails, and nothing is opened. */
  lemma SubmitWithoutResolver(t: Table, jobs: seq<Job>, now: nat, deadline: nat, q: Question)
    requires Good(t)
    ensures var s := Without(t, Expired(t, now, deadline));
            var (t', answered) := Step(t, Submit(jobs, now, false), deadline);
            && Good(s) && OpenFor(t', q) == OpenFor(s, q) && t'.nextId == t.nextId
            && answered == Jobs(Only(t.waiting, Expired(t, now, deadline)), t.nextId) + multiset(jobs)
  {
    WithoutGood(t, Expired(t, now, deadline));
  }

  /** An answer closes exactly its own lookup, and answers its jobs. */
  lemma CompleteExactly(t: Table, id: nat, q: Question, deadline: nat)
    requires Good(t)
    ensures var (t', answered) := Step(t, Complete(id), deadline);
            && (OpenFor(t', q) ==
                if id in t.waiting && t.waiting[id].question == q then None else OpenFor(t, q))
            && answered == if id in t.waiting then multiset(t.waiting[id].jobs) else multiset{}
  {
    WithoutGood(t, {id});
    hide Limited;
    if q in t.byQuestion { IndexedWaits(t, q); }
  }
}
