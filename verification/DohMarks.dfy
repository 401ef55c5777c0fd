/** What the queries of a DoH upstream record (doh.rs), in every interleaving: a failure marks it down
    unless a reset came between, and an answer marks it up. */
module DohMarks {
  import opened Bytes
  import opened Doh

  // ----- runs and their prefixes

  lemma {:induction false} PossiblePrefix(actions: seq<Action>, n: nat)
    requires Possible(actions) && n <= |actions|
    ensures Possible(actions[..n])
    decreases |actions|
  {
    hide Apply, Enabled;
    if n == |actions| {
      assert actions[..n] == actions;
    } else {
      var front := actions[..|actions| - 1];
      PossiblePrefix(front, n);
      assert front[..n] == actions[..n];
    }
  }

  /** The state after the first `n` actions. */
  function Reached(actions: seq<Action>, n: nat): State
    requires Possible(actions) && n <= |actions|
  {
    PossiblePrefix(actions, n);
    After(actions[..n])
  }

  lemma ReachedNext(actions: seq<Action>, n: nat)
    requires Possible(actions) && n < |actions|
    ensures Enabled(Reached(actions, n), actions[n])
    ensures Reached(actions, n + 1) == Apply(Reached(actions, n), actions[n])
  {
    hide Apply, Enabled;
    PossiblePrefix(actions, n + 1);
    assert actions[..n + 1][..n] == actions[..n];
  }

  lemma ReachedEnd(actions: seq<Action>)
    requires Possible(actions)
    ensures Reached(actions, |actions|) == After(actions)
  {
    assert actions[..|actions|] == actions;
  }

  /** The resets begun among the first `n` actions. */
  function Resets(actions: seq<Action>, n: nat): nat
    requires n <= |actions|
  {
    if n == 0 then 0 else Resets(actions, n - 1) + if actions[n - 1].ResetBump? then 1 else 0
  }

  lemma EpochStep(s: State, a: Action)
    requires Enabled(s, a)
    ensures Apply(s, a).epoch == s.epoch + if a.ResetBump? then 1 else 0
  {
  }

  /** The epoch is the number of resets begun. */
  lemma {:induction false} EpochCounts(actions: seq<Action>, n: nat)
    requires Possible(actions) && n <= |actions|
    ensures Reached(actions, n).epoch == Resets(actions, n)
  {
    hide Apply, Enabled;
    if n > 0 {
      EpochCounts(actions, n - 1);
      ReachedNext(actions, n - 1);
      EpochStep(Reached(actions, n - 1), actions[n - 1]);
    }
  }

  lemma {:induction false} ResetsGrow(actions: seq<Action>, m: nat, n: nat)
    requires m <= n <= |actions|
    ensures Resets(actions, m) <= Resets(actions, n)
    decreases n
  {
    if m < n { ResetsGrow(actions, m, n - 1); }
  }

  // ----- which epoch an attempt is of

  /** The attempt a query makes, or has just failed, began with this epoch. */
  function EpochOf(pc: Pc): Option<nat> {
    match pc
    case Try(_, _, e, _) => Some(e)
    case Check(e, _) => Some(e)
    case Swap(e, _) => Some(e)
    case Recheck(e, _) => Some(e)
    case Undo(e, _) => Some(e)
    case _ => None
  }

  lemma EpochOfStep(s: State, a: Action, q: nat)
    requires Enabled(s, a) && q in Apply(s, a).queries && EpochOf(Apply(s, a).queries[q].pc).Some?
    ensures if a == ReadEpoch(q) then EpochOf(Apply(s, a).queries[q].pc) == Some(s.epoch)
            else q in s.queries && EpochOf(s.queries[q].pc) == EpochOf(Apply(s, a).queries[q].pc)
  {
    if IsReset(a) {
    } else if a.q != q {
      OwnStep(s, a);
    }
  }

  /** The query last read the epoch at step `j`. */
  predicate LastRead(actions: seq<Action>, n: nat, q: nat, j: nat)
    requires n <= |actions|
  {
    j < n && actions[j] == ReadEpoch(q) && forall k :: j < k < n ==> actions[k] != ReadEpoch(q)
  }

  /** An attempt is of the epoch that its query last read. */
  lemma {:induction false} EpochWasRead(actions: seq<Action>, n: nat, q: nat) returns (j: nat)
    requires Possible(actions) && n <= |actions| && q in Reached(actions, n).queries
    requires EpochOf(Reached(actions, n).queries[q].pc).Some?
    ensures LastRead(actions, n, q, j)
    ensures EpochOf(Reached(actions, n).queries[q].pc) == Some(Resets(actions, j))
  {
    hide Apply, Enabled;
    if n == 0 {
      assert false;
    } else {
      ReachedNext(actions, n - 1);
      EpochOfStep(Reached(actions, n - 1), actions[n - 1], q);
      if actions[n - 1] == ReadEpoch(q) {
        j := n - 1;
        EpochCounts(actions, n - 1);
      } else {
        j := EpochWasRead(actions, n - 1, q);
      }
    }
  }

  // ----- a failure

  /** Thirty seconds from now, as far as 64 bits go. */
  function HalfMinuteAfter(now: nat): nat {
    if now + 30 <= 0xffff_ffff_ffff_ffff then now + 30 else 0xffff_ffff_ffff_ffff
  }

  /** The query's attempt fails at step `i`. */
  predicate Fails(actions: seq<Action>, i: nat, q: nat, now: nat) {
    i < |actions| && (actions[i] == ColdFailed(q, now) || actions[i] == WarmTimeout(q, now))
  }

  /** The query sets the mark to `until` at some step from `i` on and before `n`. */
  ghost predicate Marks(actions: seq<Action>, i: nat, n: nat, q: nat, until: nat)
    requires Possible(actions) && n <= |actions|
  {
    exists j :: i <= j < n && actions[j] == SetMark(q) && Reached(actions, j + 1).downUntil == until
  }

  /** Where a query is that failed with this epoch while it lasts. */
  predicate Failing(pc: Pc, epoch: nat, until: nat, marked: bool) {
    if marked then pc == Recheck(epoch, until) || pc == Done else pc == Check(epoch, until) || pc == Swap(epoch, until)
  }

  lemma FailsTo(s: State, a: Action, q: nat, now: nat)
    requires Enabled(s, a) && (a == ColdFailed(q, now) || a == WarmTimeout(q, now))
    ensures q in s.queries && s.queries[q].pc.Try? && q in Apply(s, a).queries
    ensures Apply(s, a).queries[q].pc == Check(s.queries[q].pc.epoch, HalfMinuteAfter(now))
  {
  }

  lemma FailingStep(s: State, a: Action, q: nat, epoch: nat, until: nat, marked: bool)
    requires Enabled(s, a) && s.epoch == epoch && !a.ResetBump?
    requires q in s.queries && Failing(s.queries[q].pc, epoch, until, marked)
    ensures var t := Apply(s, a);
            && q in t.queries && Failing(t.queries[q].pc, epoch, until, marked || a == SetMark(q))
            && (a == SetMark(q) ==> !marked && t.downUntil == until)
  {
    if !IsReset(a) && a.q != q { OwnStep(s, a); }
  }

  /** From its failure on, and while no reset begins, the query is on its way to the mark or has set
      it. */
  lemma {:induction false} FailingSince(actions: seq<Action>, i: nat, n: nat, q: nat, now: nat)
    requires Possible(actions) && i < n <= |actions| && Fails(actions, i, q, now)
    requires q in Reached(actions, i).queries && Reached(actions, i).queries[q].pc.Try?
    requires Reached(actions, i).queries[q].pc.epoch == Resets(actions, n)
    ensures var epoch, until := Resets(actions, n), HalfMinuteAfter(now);
            q in Reached(actions, n).queries
            && Failing(Reached(actions, n).queries[q].pc, epoch, until, Marks(actions, i + 1, n, q, until))
    decreases n
  {
    hide Apply, Enabled, HalfMinuteAfter, Failing;
    var epoch, until := Resets(actions, n), HalfMinuteAfter(now);
    ReachedNext(actions, n - 1);
    var s, a := Reached(actions, n - 1), actions[n - 1];
    if n == i + 1 {
      FailsTo(s, a, q, now);
      JustFailed(epoch, until);
    } else {
      PastEpoch(actions, i, q);
      ResetsGrow(actions, i, n - 1);
      FailingSince(actions, i, n - 1, q, now);
      EpochCounts(actions, n - 1);
      var marked := Marks(actions, i + 1, n - 1, q, until);
      FailingStep(s, a, q, epoch, until, marked);
      MarksNext(actions, i + 1, n - 1, q, until);
    }
  }

  lemma JustFailed(epoch: nat, until: nat)
    ensures Failing(Check(epoch, until), epoch, until, false)
  {
  }

  lemma PastEpoch(actions: seq<Action>, i: nat, q: nat)
    requires Possible(actions) && i <= |actions|
    requires q in Reached(actions, i).queries && Reached(actions, i).queries[q].pc.Try?
    ensures Reached(actions, i).queries[q].pc.epoch <= Resets(actions, i)
  {
    hide Apply, Enabled;
    var j := EpochWasRead(actions, i, q);
    ResetsGrow(actions, j, i);
  }

  lemma MarksNext(actions: seq<Action>, i: nat, n: nat, q: nat, until: nat)
    requires Possible(actions) && i <= n < |actions|
    ensures Marks(actions, i, n + 1, q, until) <==>
            Marks(actions, i, n, q, until) || (actions[n] == SetMark(q) && Reached(actions, n + 1).downUntil == until)
  {
    hide Reached;
  }

  /** In every interleaving, a query whose attempt failed and that is done has marked the upstream down
      for half a minute, if no reset began since the attempt did. */
  lemma FailureIsMarked(actions: seq<Action>, i: nat, q: nat, now: nat)
    requires Possible(actions) && Fails(actions, i, q, now)
    requires q in After(actions).queries && After(actions).queries[q].pc == Done
    requires forall j :: LastRead(actions, i, q, j) ==> Resets(actions, j) == Resets(actions, |actions|)
    ensures Marks(actions, i + 1, |actions|, q, HalfMinuteAfter(now))
  {
    hide Apply, Enabled, HalfMinuteAfter;
    ReachedEnd(actions);
    ReachedNext(actions, i);
    FailsTo(Reached(actions, i), actions[i], q, now);
    var j := EpochWasRead(actions, i, q);
    FailingSince(actions, i, |actions|, q, now);
  }

  /** In every interleaving, a failure of an attempt from before a reset is not recorded: the query is done
      once it has seen the count. */
  lemma StaleFailureIgnored(actions: seq<Action>, i: nat, q: nat, j: nat)
    requires Possible(actions) && i < |actions| && actions[i] == CheckEpoch(q) && LastRead(actions, i, q, j)
    ensures q in Reached(actions, i + 1).queries
    ensures if Resets(actions, j) < Resets(actions, i) then Reached(actions, i + 1).queries[q].pc == Done
            else Reached(actions, i + 1).queries[q].pc.Swap?
  {
    hide Apply, Enabled;
    ReachedNext(actions, i);
    Checked(Reached(actions, i), q);
    var k := EpochWasRead(actions, i, q);
    EpochCounts(actions, i);
    ResetsGrow(actions, j, i);
  }

  lemma Checked(s: State, q: nat)
    requires Enabled(s, CheckEpoch(q))
    ensures q in s.queries && EpochOf(s.queries[q].pc).Some? && q in Apply(s, CheckEpoch(q)).queries
    ensures var pc := Apply(s, CheckEpoch(q)).queries[q].pc;
            if EpochOf(s.queries[q].pc) == Some(s.epoch) then pc.Swap? else pc == Done
  {
  }

  /** The actions that may change the mark. */
  predicate TouchesMark(a: Action) { a.SetMark? || a.ClearMark? || a.TakeBack? || a.ResetClear? }

  lemma MarkStep(s: State, a: Action)
    requires Enabled(s, a) && !TouchesMark(a)
    ensures Apply(s, a).downUntil == s.downUntil
  {
  }

  /** A mark stands until a query sets, clears or takes back one, or a reset clears it. */
  lemma {:induction false} MarkStands(actions: seq<Action>, m: nat, n: nat)
    requires Possible(actions) && m <= n <= |actions|
    requires forall k :: m <= k < n ==> !TouchesMark(actions[k])
    ensures Reached(actions, n).downUntil == Reached(actions, m).downUntil
    decreases n
  {
    hide Apply, Enabled;
    if m < n {
      MarkStands(actions, m, n - 1);
      ReachedNext(actions, n - 1);
      MarkStep(Reached(actions, n - 1), actions[n - 1]);
    }
  }

  /** Taking back clears a mark only if it is the query's own value; a reset always does. */
  lemma MarkCleared(s: State, a: Action)
    requires Enabled(s, a)
    ensures a.ClearMark? || a.ResetClear? ==> Apply(s, a).downUntil == 0
    ensures a.TakeBack? ==>
              Apply(s, a).downUntil == if s.downUntil == s.queries[a.q].pc.until then 0 else s.downUntil
  {
  }

  // ----- an answer

  lemma AnsweredStep(s: State, a: Action, q: nat)
    requires Enabled(s, a) && q in s.queries && s.queries[q].pc == MarkUp
    ensures q in Apply(s, a).queries
    ensures Apply(s, a).queries[q].pc == if a == ClearMark(q) then Done else MarkUp
    ensures a == ClearMark(q) ==> Apply(s, a).downUntil == 0
  {
    if !IsReset(a) && a.q != q { OwnStep(s, a); }
  }

  lemma AnswersTo(s: State, q: nat)
    requires Enabled(s, Answered(q))
    ensures q in Apply(s, Answered(q)).queries && Apply(s, Answered(q)).queries[q].pc == MarkUp
  {
  }

  /** The query marks the upstream up at some step from `i` on and before `n`. */
  ghost predicate MarksUp(actions: seq<Action>, i: nat, n: nat, q: nat)
    requires Possible(actions) && n <= |actions|
  {
    exists j :: i <= j < n && actions[j] == ClearMark(q) && Reached(actions, j + 1).downUntil == 0
  }

  /** In every interleaving, an answered query that has not marked the upstream up is about to. */
  lemma {:induction false} AnswerMarksUp(actions: seq<Action>, i: nat, n: nat, q: nat)
    requires Possible(actions) && i < n <= |actions| && actions[i] == Answered(q)
    ensures q in Reached(actions, n).queries
    ensures MarksUp(actions, i + 1, n, q) || Reached(actions, n).queries[q].pc == MarkUp
    decreases n
  {
    hide Apply, Enabled;
    ReachedNext(actions, n - 1);
    var s, a := Reached(actions, n - 1), actions[n - 1];
    if n == i + 1 {
      AnswersTo(s, q);
    } else {
      AnswerMarksUp(actions, i, n - 1, q);
      if MarksUp(actions, i + 1, n - 1, q) {
        StaysKnown(s, a, q);
        var j :| i + 1 <= j < n - 1 && actions[j] == ClearMark(q) && Reached(actions, j + 1).downUntil == 0;
        assert MarksUp(actions, i + 1, n, q);
      } else {
        AnsweredStep(s, a, q);
        if a == ClearMark(q) { assert Reached(actions, n - 1 + 1).downUntil == 0; }
      }
    }
  }

  lemma StaysKnown(s: State, a: Action, q: nat)
    requires Enabled(s, a) && q in s.queries
    ensures q in Apply(s, a).queries
  {
    if !IsReset(a) && a.q != q { OwnStep(s, a); }
  }

  // ----- how a query ends

  /** The attempt was answered, or has failed for good. */
  predicate Outcome(a: Action, q: nat) {
    || a == Answered(q)
    || (a.WarmTimeout? && a.q == q)
    || (a.ColdFailed? && a.q == q)
  }

  predicate Over(pc: Pc) { pc.MarkUp? || pc.Check? || pc.Swap? || pc.Recheck? || pc.Undo? || pc.Done? }

  lemma OverStep(s: State, a: Action, q: nat)
    requires Enabled(s, a) && q in Apply(s, a).queries
    ensures Over(Apply(s, a).queries[q].pc) <==> Outcome(a, q) || (q in s.queries && Over(s.queries[q].pc))
  {
    if !IsReset(a) && a.q != q { OwnStep(s, a); }
  }

  lemma OutcomeKnown(s: State, a: Action, q: nat)
    requires Enabled(s, a) && Outcome(a, q)
    ensures q in Apply(s, a).queries
  {
  }

  /** In every interleaving, a query ends only by an answer or a failure of an attempt: a connection that
      breaks, or an attempt that a reset stops, is tried again. */
  lemma {:induction false} EndsByOutcome(actions: seq<Action>, n: nat, q: nat)
    requires Possible(actions) && n <= |actions|
    ensures (exists i :: 0 <= i < n && Outcome(actions[i], q)) <==>
            q in Reached(actions, n).queries && Over(Reached(actions, n).queries[q].pc)
  {
    hide Apply, Enabled, Over, Outcome;
    if n > 0 {
      EndsByOutcome(actions, n - 1, q);
      ReachedNext(actions, n - 1);
      var s, a := Reached(actions, n - 1), actions[n - 1];
      if q in s.queries { StaysKnown(s, a, q); }
      if Outcome(a, q) { OutcomeKnown(s, a, q); }
      if q in Apply(s, a).queries { OverStep(s, a, q); }
    }
  }

  // ----- dead connections

  lemma DiscardDrops(s: State, use: Use)
    requires SlotSound(s) && UseSound(s.born, Some(use))
    ensures Discard(s, use.gen).sender != Some(use.conn)
  {
    if s.sender == Some(use.conn) { assert s.generation in s.born && use.gen in s.born; }
  }

  /** In every interleaving, a query whose connection broke or stopped answering leaves it shared with
      nobody, and a reset leaves no connection shared. */
  lemma DeadIsDropped(actions: seq<Action>, a: Action)
    requires Possible(actions) && Enabled(After(actions), a) && (a.WarmBroke? || a.WarmTimeout? || a.ResetDrop?)
    ensures var s, t := After(actions), Apply(After(actions), a);
            if a.ResetDrop? then t.sender == None
            else s.queries[a.q].use.Some? && t.sender != Some(s.queries[a.q].use.value.conn)
  {
    InvAlways(actions);
    hide MarksSafe, NoResetLost, FewTries, After, Possible, BornSound;
    var s := After(actions);
    if !a.ResetDrop? {
      assert UseSound(s.born, s.queries[a.q].use);
      DiscardDrops(s, s.queries[a.q].use.value);
    }
  }

  /** The actions that may change the shared connection: a new one, a drop for being idle or by a reset,
      and a failure of the connection itself. */
  predicate TouchesSlot(s: State, a: Action)
    requires Enabled(s, a)
  {
    || a.Connect? || a.DropIdle? || (a.BeginCold? && a.idle) || (a.ResetDrop? && s.sender.Some?)
    || ((a.WarmBroke? || a.WarmTimeout?) && s.queries[a.q].use.value.gen == s.generation)
  }

  predicate ChangesSlot(actions: seq<Action>, k: nat)
    requires Possible(actions) && k < |actions|
  {
    ReachedNext(actions, k);
    TouchesSlot(Reached(actions, k), actions[k])
  }

  lemma SlotStep(s: State, a: Action)
    requires Enabled(s, a) && !TouchesSlot(s, a)
    ensures Apply(s, a).sender == s.sender && Apply(s, a).generation == s.generation
  {
  }

  /** In every interleaving, a connection stays shared until one of these. */
  lemma {:induction false} ConnectionStays(actions: seq<Action>, m: nat, n: nat)
    requires Possible(actions) && m <= n <= |actions|
    requires forall k :: m <= k < n ==> !ChangesSlot(actions, k)
    ensures Reached(actions, n).sender == Reached(actions, m).sender
    ensures Reached(actions, n).generation == Reached(actions, m).generation
    decreases n
  {
    hide Apply, Enabled;
    if m < n {
      ConnectionStays(actions, m, n - 1);
      assert !ChangesSlot(actions, n - 1);
      ReachedNext(actions, n - 1);
      SlotStep(Reached(actions, n - 1), actions[n - 1]);
    }
  }

  /** An idle connection is dropped; a new one is shared, and used by the query that opened it. */
  lemma SlotChanges(s: State, a: Action)
    requires Enabled(s, a)
    ensures a.DropIdle? || (a.BeginCold? && a.idle) ==> Apply(s, a).sender == None
    ensures a.Connect? ==>
              var t := Apply(s, a);
              t.sender.Some? && a.q in t.queries && t.queries[a.q].use == Some(Use(t.generation, t.sender.value))
  {
  }

  // ----- who is woken

  predicate Registered(pc: Pc) { pc.Read? || pc.Try? }

  lemma WakeStep(s: State, a: Action, q: nat)
    requires Enabled(s, a) && q in Apply(s, a).queries && Registered(Apply(s, a).queries[q].pc)
    ensures var woken := Apply(s, a).queries[q].pc.notified;
            if a == Register(q) then !woken
            else && q in s.queries && Registered(s.queries[q].pc)
                 && (woken <==> a.ResetNotify? || s.queries[q].pc.notified)
  {
    if !IsReset(a) && a.q != q { OwnStep(s, a); }
  }

  /** The query last registered for resets at step `j`. */
  predicate LastRegistered(actions: seq<Action>, n: nat, q: nat, j: nat)
    requires n <= |actions|
  {
    j < n && actions[j] == Register(q) && forall k :: j < k < n ==> actions[k] != Register(q)
  }

  /** In every interleaving, a registered query was woken exactly if a reset notified since. */
  lemma {:induction false} WokenByReset(actions: seq<Action>, n: nat, q: nat) returns (j: nat)
    requires Possible(actions) && n <= |actions| && q in Reached(actions, n).queries
    requires Registered(Reached(actions, n).queries[q].pc)
    ensures LastRegistered(actions, n, q, j)
    ensures Reached(actions, n).queries[q].pc.notified <==> exists k :: j < k < n && actions[k].ResetNotify?
  {
    hide Apply, Enabled;
    if n == 0 {
      assert false;
    } else {
      ReachedNext(actions, n - 1);
      WakeStep(Reached(actions, n - 1), actions[n - 1], q);
      if actions[n - 1] == Register(q) {
        j := n - 1;
      } else {
        j := WokenByReset(actions, n - 1, q);
      }
    }
  }
}
