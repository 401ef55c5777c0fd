/** The marks, resets and shared connection of one DoH upstream (doh.rs) as a state machine:
    any number of queries and resets, interleaved at each atomic operation. */
module Doh {
  import opened Bytes

  const DOWN_FOR: nat := 30
  const U64_MAX: nat := 0xffff_ffff_ffff_ffff

  /** Until when a failure at `now` marks the upstream down: never 0, which means up, even
      without the source's lower limit of 1. */
  function DownUntil(now: nat): (until: nat)
    ensures 0 < until <= U64_MAX
  {
    if now + DOWN_FOR > U64_MAX then U64_MAX else now + DOWN_FOR
  }

  /** A connection a query uses, and the slot's generation when it got it. */
  datatype Use = Use(gen: nat, conn: nat)

  /** Where a query is. `warm` is the attempt on the open connection; `stop` is set while a
      reset may still stop the attempt. */
  datatype Pc =
    | Start
    | Arm(warm: bool, stop: bool)
    | Read(warm: bool, stop: bool, notified: bool)
    | Try(warm: bool, stop: bool, epoch: nat, notified: bool)
    | MarkUp
    | Check(epoch: nat, until: nat)
    | Swap(epoch: nat, until: nat)
    | Recheck(epoch: nat, until: nat)
    | Undo(epoch: nat, until: nat)
    | Done

  datatype Query = Query(pc: Pc, tries: nat, use: Option<Use>)

  /** Where a reset is, after it has bumped the epoch. */
  datatype ResetPc = Clear | DropSlot | Notify | Over

  /** `writer` and `writerEpoch` tell who wrote `downUntil` last; `born` is the connection
      stored at each generation. They are there for the statements only. */
  datatype State = State(
    epoch: nat,
    downUntil: nat,
    sender: Option<nat>,
    generation: nat,
    nextConn: nat,
    queries: map<nat, Query>,
    resets: map<nat, ResetPc>,
    writer: nat,
    writerEpoch: nat,
    born: map<nat, nat>)

  const INIT := State(0, 0, None, 0, 0, map[], map[], 0, 0, map[])

  /** One atomic operation of one query or reset. */
  datatype Action =
    | Spawn(q: nat)
    | BeginWarm(q: nat)
    | BeginCold(q: nat, idle: bool)
    | Register(q: nat)
    | ReadEpoch(q: nat)
    | DropIdle(q: nat)
    | Reuse(q: nat)
    | Connect(q: nat)
    | Stopped(q: nat)
    | Answered(q: nat)
    | WarmBroke(q: nat)
    | WarmTimeout(q: nat, now: nat)
    | ColdFailed(q: nat, now: nat)
    | ClearMark(q: nat)
    | CheckEpoch(q: nat)
    | SetMark(q: nat)
    | CheckAgain(q: nat)
    | TakeBack(q: nat)
    | ResetBump(r: nat)
    | ResetClear(r: nat)
    | ResetDrop(r: nat)
    | ResetNotify(r: nat)

  /** `discard`: drops the shared connection if it is still of this generation. */
  function Discard(s: State, gen: nat): State {
    if s.generation == gen then s.(sender := None) else s
  }

  function At(s: State, q: nat, pc: Pc): State
    requires q in s.queries
  {
    s.(queries := s.queries[q := s.queries[q].(pc := pc)])
  }

  /** Every query registered for resets is woken. */
  function Woken(q: Query): Query {
    match q.pc
    case Read(warm, stop, _) => q.(pc := Read(warm, stop, true))
    case Try(warm, stop, epoch, _) => q.(pc := Try(warm, stop, epoch, true))
    case _ => q
  }

  predicate Enabled(s: State, a: Action) {
    match a
    case Spawn(q) => q !in s.queries
    case ResetBump(r) => r !in s.resets
    case ResetClear(r) => r in s.resets && s.resets[r] == Clear
    case ResetDrop(r) => r in s.resets && s.resets[r] == DropSlot
    case ResetNotify(r) => r in s.resets && s.resets[r] == Notify
    case BeginWarm(q) => q in s.queries && s.queries[q].pc == Start && s.sender.Some?
    case BeginCold(q, idle) => q in s.queries && s.queries[q].pc == Start
    case Register(q) => q in s.queries && s.queries[q].pc.Arm?
    case ReadEpoch(q) => q in s.queries && s.queries[q].pc.Read?
    case DropIdle(q) => q in s.queries && s.queries[q].pc.Try? && !s.queries[q].pc.warm && s.sender.Some?
    case Reuse(q) => q in s.queries && s.queries[q].pc.Try? && !s.queries[q].pc.warm && s.sender.Some?
    case Connect(q) => q in s.queries && s.queries[q].pc.Try? && !s.queries[q].pc.warm
    case Stopped(q) => q in s.queries && s.queries[q].pc.Try? && s.queries[q].pc.stop && s.queries[q].pc.notified
    case Answered(q) => q in s.queries && s.queries[q].pc.Try? && s.queries[q].use.Some?
    case WarmBroke(q) => q in s.queries && s.queries[q].pc.Try? && s.queries[q].pc.warm && s.queries[q].use.Some?
    case WarmTimeout(q, _) => q in s.queries && s.queries[q].pc.Try? && s.queries[q].pc.warm && s.queries[q].use.Some?
    case ColdFailed(q, _) => q in s.queries && s.queries[q].pc.Try? && !s.queries[q].pc.warm
    case ClearMark(q) => q in s.queries && s.queries[q].pc == MarkUp
    case CheckEpoch(q) => q in s.queries && s.queries[q].pc.Check?
    case SetMark(q) => q in s.queries && s.queries[q].pc.Swap?
    case CheckAgain(q) => q in s.queries && s.queries[q].pc.Recheck?
    case TakeBack(q) => q in s.queries && s.queries[q].pc.Undo?
  }

  function Apply(s: State, a: Action): State
    requires Enabled(s, a)
  {
    match a
    case Spawn(q) => s.(queries := s.queries[q := Query(Start, 0, None)])
    // The open connection is used if there is one; an idle one is dropped first.
    case BeginWarm(q) =>
      s.(queries := s.queries[q := s.queries[q].(pc := Arm(true, true),
                                                 use := Some(Use(s.generation, s.sender.value)))])
    case BeginCold(q, idle) => At(if idle then s.(sender := None) else s, q, Arm(false, true))
    // Registered before the epoch is read.
    case Register(q) =>
      var pc := s.queries[q].pc;
      s.(queries := s.queries[q := s.queries[q].(pc := Read(pc.warm, pc.stop, false), tries := s.queries[q].tries + 1)])
    case ReadEpoch(q) =>
      var pc := s.queries[q].pc;
      At(s, q, Try(pc.warm, pc.stop, s.epoch, pc.notified))
    // A cold attempt looks at the open connection again, and may find it idle too.
    case DropIdle(q) => s.(sender := None)
    case Reuse(q) => s.(queries := s.queries[q := s.queries[q].(use := Some(Use(s.generation, s.sender.value)))])
    case Connect(q) =>
      var gen := s.generation + 1;
      s.(generation := gen, sender := Some(s.nextConn), nextConn := s.nextConn + 1, born := s.born[gen := s.nextConn],
         queries := s.queries[q := s.queries[q].(use := Some(Use(gen, s.nextConn)))])
    // A stopped attempt is made once more, and that one may not be stopped.
    case Stopped(q) => At(s, q, Arm(false, false))
    case Answered(q) => At(s, q, MarkUp)
    case WarmBroke(q) => At(Discard(s, s.queries[q].use.value.gen), q, Arm(false, true))
    case WarmTimeout(q, now) =>
      At(Discard(s, s.queries[q].use.value.gen), q, Check(s.queries[q].pc.epoch, DownUntil(now)))
    case ColdFailed(q, now) => At(s, q, Check(s.queries[q].pc.epoch, DownUntil(now)))
    // `mark_up` and the four operations of `mark_down`.
    case ClearMark(q) => At(s.(downUntil := 0), q, Done)
    case CheckEpoch(q) =>
      var pc := s.queries[q].pc;
      At(s, q, if s.epoch != pc.epoch then Done else Swap(pc.epoch, pc.until))
    case SetMark(q) =>
      var pc := s.queries[q].pc;
      At(s.(downUntil := pc.until, writer := q, writerEpoch := pc.epoch), q, Recheck(pc.epoch, pc.until))
    case CheckAgain(q) =>
      var pc := s.queries[q].pc;
      At(s, q, if s.epoch != pc.epoch then Undo(pc.epoch, pc.until) else Done)
    case TakeBack(q) =>
      At(if s.downUntil == s.queries[q].pc.until then s.(downUntil := 0) else s, q, Done)
    // The four operations of `reset_connections`.
    case ResetBump(r) => s.(epoch := s.epoch + 1, resets := s.resets[r := Clear])
    case ResetClear(r) => s.(downUntil := 0, resets := s.resets[r := DropSlot])
    case ResetDrop(r) =>
      var t := if s.sender.Some? then s.(sender := None, generation := s.generation + 1) else s;
      t.(resets := s.resets[r := Notify])
    case ResetNotify(r) =>
      s.(resets := s.resets[r := Over], queries := map q | q in s.queries :: Woken(s.queries[q]))
  }

  predicate IsReset(a: Action) { a.ResetBump? || a.ResetClear? || a.ResetDrop? || a.ResetNotify? }

  /** A query's own operation leaves the other queries, the epoch and the resets alone. */
  lemma OwnStep(s: State, a: Action)
    requires Enabled(s, a) && !IsReset(a)
    ensures var t := Apply(s, a);
            a.q in t.queries && t.queries == s.queries[a.q := t.queries[a.q]] && t.epoch == s.epoch
                && t.resets == s.resets
  {
  }

  // ----- marks

  /** The query is between setting its mark and having made sure it may stay. */
  predicate Marking(pc: Pc) { pc.Recheck? || pc.Undo? }

  /** No query has read an epoch that is still to come. */
  ghost predicate EpochsPast(s: State) {
    && s.writerEpoch <= s.epoch
    && forall q :: q in s.queries ==> PcPast(s.queries[q].pc, s.epoch)
  }

  predicate PcPast(pc: Pc, epoch: nat) {
    match pc
    case Try(_, _, e, _) => e <= epoch
    case Check(e, _) => e <= epoch
    case Swap(e, _) => e <= epoch
    case Recheck(e, _) => e <= epoch
    case Undo(e, _) => e <= epoch
    case _ => true
  }

  /** A mark from an older epoch is about to go: a reset has yet to clear it, or the query
      that set it has yet to take it back and still finds its own value there. */
  ghost predicate StaleMarkGoes(s: State) {
    s.downUntil != 0 && s.writerEpoch != s.epoch ==>
      || (exists r :: r in s.resets && s.resets[r] == Clear)
      || (&& s.writer in s.queries
          && Marking(s.queries[s.writer].pc)
          && s.queries[s.writer].pc.epoch == s.writerEpoch
          && s.queries[s.writer].pc.until == s.downUntil)
  }

  /** A mark of the current epoch whose query is still at it carries that query's values. */
  ghost predicate MarkIsWriters(s: State) {
    s.downUntil != 0 && s.writer in s.queries && Marking(s.queries[s.writer].pc) ==>
      s.queries[s.writer].pc.epoch == s.writerEpoch && s.queries[s.writer].pc.until == s.downUntil
  }

  ghost predicate MarksSafe(s: State) {
    EpochsPast(s) && StaleMarkGoes(s) && MarkIsWriters(s) && WriterPast(s)
  }

  /** The last writer has left `SetMark` behind, for good. */
  ghost predicate WriterPast(s: State) {
    s.downUntil != 0 ==>
      s.writer in s.queries && (Marking(s.queries[s.writer].pc) || s.queries[s.writer].pc == Done)
  }

  /** No reset is between bumping the epoch and clearing the mark, and no query between setting
      a mark and having made sure of it. */
  ghost predicate Quiet(s: State) {
    && (forall r :: r in s.resets ==> s.resets[r] != Clear)
    && (forall q :: q in s.queries ==> !Marking(s.queries[q].pc))
  }

  /** What a query's own operation keeps of the epoch, and what a reset does. */
  lemma OwnEpoch(s: State, a: Action)
    requires Enabled(s, a) && !IsReset(a) && s.writerEpoch <= s.epoch
    requires a.q in s.queries ==> PcPast(s.queries[a.q].pc, s.epoch)
    ensures var t := Apply(s, a);
            a.q in t.queries && PcPast(t.queries[a.q].pc, s.epoch) && t.writerEpoch <= s.epoch
  {
  }

  lemma ResetEpochs(s: State, a: Action)
    requires EpochsPast(s) && Enabled(s, a) && IsReset(a)
    ensures EpochsPast(Apply(s, a))
  {
  }

  lemma EpochsKept(s: State, a: Action)
    requires EpochsPast(s) && Enabled(s, a)
    ensures EpochsPast(Apply(s, a))
  {
    hide Apply, Enabled;
    if IsReset(a) {
      ResetEpochs(s, a);
    } else {
      OwnStep(s, a);
      OwnEpoch(s, a);
    }
  }

  /** A mark is set by `SetMark` only, and cleared or left by everything else; a query that is
      marking goes on with the same values until it is done, and never leaves `Done`. */
  lemma MarkStep(s: State, a: Action)
    requires Enabled(s, a)
    ensures var t := Apply(s, a);
            && (a.SetMark? ==> t.writer == a.q && a.q in t.queries
                               && t.queries[a.q].pc == Recheck(t.writerEpoch, t.downUntil))
            && (!a.SetMark? ==> t.downUntil == 0
                                || (t.downUntil == s.downUntil && t.writer == s.writer
                                    && t.writerEpoch == s.writerEpoch))
  {
  }

  lemma OwnMarking(s: State, a: Action)
    requires Enabled(s, a) && !IsReset(a) && a.q in s.queries
    requires Marking(s.queries[a.q].pc) || s.queries[a.q].pc == Done
    ensures a.q in Apply(s, a).queries
    ensures var before, pc := s.queries[a.q].pc, Apply(s, a).queries[a.q].pc;
            && (Marking(pc) || pc == Done)
            && (Marking(pc) ==> Marking(before) && pc.epoch == before.epoch && pc.until == before.until)
  {
  }

  lemma ResetLeavesMarking(s: State, a: Action, q: nat)
    requires Enabled(s, a) && IsReset(a) && q in s.queries && (Marking(s.queries[q].pc) || s.queries[q].pc == Done)
    ensures q in Apply(s, a).queries && Apply(s, a).queries[q].pc == s.queries[q].pc
  {
  }

  lemma WriterKept(s: State, a: Action)
    requires WriterPast(s) && MarkIsWriters(s) && Enabled(s, a)
    ensures WriterPast(Apply(s, a)) && MarkIsWriters(Apply(s, a))
  {
    hide Apply, Enabled;
    MarkStep(s, a);
    if s.downUntil != 0 && !a.SetMark? {
      if IsReset(a) {
        ResetLeavesMarking(s, a, s.writer);
      } else {
        OwnStep(s, a);
        if a.q == s.writer { OwnMarking(s, a); }
      }
    }
  }

  lemma StaleMarkStillGoes(s: State, a: Action)
    requires MarksSafe(s) && Enabled(s, a)
    ensures StaleMarkGoes(Apply(s, a))
  {
    var t := Apply(s, a);
    if a.ResetBump? { assert t.resets[a.r] == Clear; }
    if r :| r in s.resets && s.resets[r] == Clear {
      if a != ResetClear(r) { assert r in t.resets && t.resets[r] == Clear; }
    }
  }

  lemma MarksKept(s: State, a: Action)
    requires MarksSafe(s) && Enabled(s, a)
    ensures MarksSafe(Apply(s, a))
  {
    hide EpochsPast, StaleMarkGoes, MarkIsWriters, WriterPast, Apply;
    EpochsKept(s, a);
    WriterKept(s, a);
    StaleMarkStillGoes(s, a);
  }

  // ----- resets reach the attempts

  /** A reset is between bumping the epoch and waking the attempts. */
  predicate Coming(pc: ResetPc) { pc == Clear || pc == DropSlot || pc == Notify }

  ghost predicate ResetComing(s: State) {
    exists r :: r in s.resets && Coming(s.resets[r])
  }

  /** An attempt whose epoch is past has been woken, or a reset is about to wake it. */
  ghost predicate NoResetLost(s: State) {
    forall q :: q in s.queries && s.queries[q].pc.Try? && s.queries[q].pc.epoch != s.epoch ==>
      s.queries[q].pc.notified || ResetComing(s)
  }

  /** The epoch of an attempt is the current one when it is read, and no own operation changes
      it or whether the attempt was woken. */
  lemma OwnAttempt(s: State, a: Action)
    requires Enabled(s, a) && !IsReset(a)
    ensures a.q in Apply(s, a).queries
    ensures var pc := Apply(s, a).queries[a.q].pc;
            pc.Try? && pc.epoch != s.epoch ==> a.q in s.queries && pc == s.queries[a.q].pc
  {
  }

  lemma ResetWakes(s: State, a: Action)
    requires NoResetLost(s) && Enabled(s, a) && IsReset(a)
    ensures NoResetLost(Apply(s, a))
  {
    var t := Apply(s, a);
    if a.ResetBump? { assert Coming(t.resets[a.r]); }
    if r :| r in s.resets && Coming(s.resets[r]) {
      if a != ResetNotify(r) { assert r in t.resets && Coming(t.resets[r]); }
    }
  }

  lemma NoResetLostKept(s: State, a: Action)
    requires NoResetLost(s) && Enabled(s, a)
    ensures NoResetLost(Apply(s, a))
  {
    hide Apply, Enabled;
    if IsReset(a) {
      ResetWakes(s, a);
    } else {
      OwnStep(s, a);
      OwnAttempt(s, a);
    }
  }

  // ----- attempts

  /** The most attempts begun by a query at each place: after one that a reset stopped, one
      more; after a broken warm connection, a cold one. */
  function MostTries(pc: Pc): nat {
    if pc.Start? || (pc.Arm? && pc.warm) then 0
    else if pc.Arm? then (if pc.stop then 1 else 2)
    else if pc.Read? || pc.Try? then (if pc.warm then 1 else if pc.stop then 2 else 3)
    else 3
  }

  predicate TriesFine(q: Query) {
    && q.tries <= MostTries(q.pc)
    && (q.pc.Arm? || q.pc.Read? || q.pc.Try? ==> q.pc.warm ==> q.pc.stop)
  }

  ghost predicate FewTries(s: State) {
    forall q :: q in s.queries ==> TriesFine(s.queries[q])
  }

  lemma OwnTries(s: State, a: Action)
    requires Enabled(s, a) && !IsReset(a) && (a.q in s.queries ==> TriesFine(s.queries[a.q]))
    ensures a.q in Apply(s, a).queries && TriesFine(Apply(s, a).queries[a.q])
  {
  }

  lemma ResetTries(s: State, a: Action)
    requires FewTries(s) && Enabled(s, a) && IsReset(a)
    ensures FewTries(Apply(s, a))
  {
  }

  lemma FewTriesKept(s: State, a: Action)
    requires FewTries(s) && Enabled(s, a)
    ensures FewTries(Apply(s, a))
  {
    hide Apply, Enabled, TriesFine;
    if IsReset(a) {
      ResetTries(s, a);
    } else {
      OwnStep(s, a);
      OwnTries(s, a);
    }
  }

  // ----- the shared connection

  /** Each generation had at most one connection, the shared one is that of the current
      generation, and every query remembers the generation of the connection it uses. */
  ghost predicate SlotSound(s: State) {
    && BornSound(s.born, s.generation, s.nextConn)
    && (s.sender.Some? ==> s.generation in s.born && s.born[s.generation] == s.sender.value)
    && forall q :: q in s.queries ==> UseSound(s.born, s.queries[q].use)
  }

  ghost predicate BornSound(born: map<nat, nat>, generation: nat, nextConn: nat) {
    && (forall g :: g in born ==> g <= generation && born[g] < nextConn)
    && (forall g, h :: g in born && h in born && born[g] == born[h] ==> g == h)
  }

  predicate UseSound(born: map<nat, nat>, use: Option<Use>) {
    use.Some? ==> use.value.gen in born && born[use.value.gen] == use.value.conn
  }

  lemma ConnectBorn(born: map<nat, nat>, generation: nat, nextConn: nat)
    requires BornSound(born, generation, nextConn)
    ensures BornSound(born[generation + 1 := nextConn], generation + 1, nextConn + 1)
    ensures forall use :: UseSound(born, use) ==> UseSound(born[generation + 1 := nextConn], use)
  {
  }

  ghost predicate SenderSound(s: State) {
    && BornSound(s.born, s.generation, s.nextConn)
    && (s.sender.Some? ==> s.generation in s.born && s.born[s.generation] == s.sender.value)
  }

  /** Only `Connect` stores a connection; anything else leaves the slot or empties it. */
  lemma SlotStep(s: State, a: Action)
    requires Enabled(s, a)
    ensures var t := Apply(s, a);
            if a.Connect? then
              && t.generation == s.generation + 1 && t.nextConn == s.nextConn + 1
              && t.born == s.born[t.generation := s.nextConn] && t.sender == Some(s.nextConn)
            else
              && t.born == s.born && t.nextConn == s.nextConn
              && (t.sender == None || t.sender == s.sender) && t.generation >= s.generation
              && (t.sender.Some? ==> t.generation == s.generation)
  {
  }

  lemma SenderKept(s: State, a: Action)
    requires SenderSound(s) && Enabled(s, a)
    ensures SenderSound(Apply(s, a)) && (a.Connect? || Apply(s, a).born == s.born)
  {
    hide Apply, Enabled;
    SlotStep(s, a);
    ConnectBorn(s.born, s.generation, s.nextConn);
  }

  /** A query uses the slot's connection, the one it stores itself, or the one it used. */
  lemma UseStep(s: State, a: Action)
    requires Enabled(s, a) && !IsReset(a)
    ensures a.q in Apply(s, a).queries
    ensures var use := Apply(s, a).queries[a.q].use;
            || use == None || (a.q in s.queries && use == s.queries[a.q].use)
            || (s.sender.Some? && use == Some(Use(s.generation, s.sender.value)))
            || (a.Connect? && use == Some(Use(s.generation + 1, s.nextConn)))
  {
  }

  lemma OwnUse(s: State, a: Action)
    requires SenderSound(s) && Enabled(s, a) && !IsReset(a)
    requires (a.q in s.queries ==> UseSound(s.born, s.queries[a.q].use))
    ensures a.q in Apply(s, a).queries && UseSound(Apply(s, a).born, Apply(s, a).queries[a.q].use)
  {
    hide Apply, Enabled;
    SlotStep(s, a);
    UseStep(s, a);
  }

  lemma ResetUses(s: State, a: Action)
    requires SlotSound(s) && Enabled(s, a) && IsReset(a)
    ensures forall q :: q in Apply(s, a).queries ==> UseSound(Apply(s, a).born, Apply(s, a).queries[q].use)
  {
    hide BornSound;
  }

  lemma SlotKept(s: State, a: Action)
    requires SlotSound(s) && Enabled(s, a)
    ensures SlotSound(Apply(s, a))
  {
    SenderKept(s, a);
    hide Apply, Enabled, BornSound, UseSound;
    if IsReset(a) {
      ResetUses(s, a);
    } else {
      OwnStep(s, a);
      OwnUse(s, a);
      SlotStep(s, a);
      ConnectUses(s);
    }
  }

  lemma ConnectUses(s: State)
    requires SlotSound(s)
    ensures forall q :: q in s.queries ==> UseSound(s.born[s.generation + 1 := s.nextConn], s.queries[q].use)
  {
  }

  /** A query that discards drops the connection it used itself, or nothing. */
  lemma DiscardsOwn(s: State, q: nat)
    requires SlotSound(s) && q in s.queries && s.queries[q].use.Some?
    ensures var use := s.queries[q].use.value;
            Discard(s, use.gen) != s ==> s.sender == Some(use.conn)
  {
  }

  // ----- every run

  ghost predicate Inv(s: State) {
    MarksSafe(s) && NoResetLost(s) && FewTries(s) && SlotSound(s)
  }

  /** The actions can be taken one after another. */
  predicate Possible(actions: seq<Action>)
    decreases |actions|, 0
  {
    actions == [] || (var n := |actions| - 1; Possible(actions[..n]) && Enabled(After(actions[..n]), actions[n]))
  }

  function After(actions: seq<Action>): State
    requires Possible(actions)
    decreases |actions|, 1
  {
    if actions == [] then INIT
    else
      var n := |actions| - 1;
      Apply(After(actions[..n]), actions[n])
  }

  lemma {:induction false} InvAlways(actions: seq<Action>)
    requires Possible(actions)
    ensures Inv(After(actions))
  {
    hide MarksSafe, NoResetLost, FewTries, SlotSound, Apply, Enabled;
    if actions == [] {
      InvAtStart();
    } else {
      var n := |actions| - 1;
      InvAlways(actions[..n]);
      var s := After(actions[..n]);
      MarksKept(s, actions[n]);
      NoResetLostKept(s, actions[n]);
      FewTriesKept(s, actions[n]);
      SlotKept(s, actions[n]);
    }
  }

  lemma InvAtStart()
    ensures Inv(INIT)
  {
  }

  /** In every interleaving, once no reset and no mark is half done, a mark that stands was
      set by an attempt that read the current epoch: a failure from before the last reset
      never stays recorded. */
  lemma NoStaleMarkStays(actions: seq<Action>)
    requires Possible(actions) && Quiet(After(actions))
    ensures var s := After(actions);
            s.downUntil != 0 ==> s.writerEpoch == s.epoch
  {
    hide NoResetLost, FewTries, SlotSound, After, Possible;
    InvAlways(actions);
  }

  /** In every interleaving, an attempt that may be stopped and whose epoch is past has been
      woken, or a reset that bumped the epoch has yet to wake it. */
  lemma StaleAttemptIsWoken(actions: seq<Action>, q: nat)
    requires Possible(actions) && q in After(actions).queries
    requires var pc := After(actions).queries[q].pc;
             pc.Try? && pc.stop && pc.epoch != After(actions).epoch
    ensures After(actions).queries[q].pc.notified || ResetComing(After(actions))
  {
    hide MarksSafe, FewTries, SlotSound, After, Possible;
    InvAlways(actions);
  }

  /** Under any number of resets a query makes at most three attempts. */
  lemma AtMostThreeAttempts(actions: seq<Action>, q: nat)
    requires Possible(actions) && q in After(actions).queries
    ensures After(actions).queries[q].tries <= 3
  {
    hide MarksSafe, NoResetLost, SlotSound, After, Possible;
    InvAlways(actions);
  }

  /** In every interleaving, what a query discards is the connection it used itself. */
  lemma OnlyOwnConnectionDiscarded(actions: seq<Action>, q: nat)
    requires Possible(actions) && q in After(actions).queries && After(actions).queries[q].use.Some?
    ensures var s := After(actions);
            var use := s.queries[q].use.value;
            Discard(s, use.gen) != s ==> s.sender == Some(use.conn)
  {
    hide MarksSafe, NoResetLost, FewTries, After, Possible, Discard, SlotSound;
    InvAlways(actions);
    DiscardsOwn(After(actions), q);
  }
}
