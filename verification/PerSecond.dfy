/** Connections counted per second over the last minute (policy.rs). */
module PerSecond {
  import opened Bytes

  const CLOCK_TOLERANCE_SECS: nat := 3600
  const SILENT_FLOOD_SECS: nat := 60

  /** Whether `at` lies at most `maxAge` seconds before `now`, and not far after it. */
  predicate Within(at: nat, now: nat, maxAge: nat) {
    at <= now + CLOCK_TOLERANCE_SECS && now - at <= maxAge
  }

  function Saturate(n: nat): (r: nat)
    ensures r <= n && r <= U32_MAX
  {
    if n <= U32_MAX then n else U32_MAX
  }

  datatype Tally = Tally(second: nat, count: nat)

  type Counter = seq<Tally>

  function Retain(c: Counter, now: nat): Counter {
    if c == [] then []
    else
      var n := |c| - 1;
      Retain(c[..n], now) + if Within(c[n].second, now, SILENT_FLOOD_SECS) then [c[n]] else []
  }

  /** One more for the entry of this second, or `None` without one. */
  function Bump(c: Counter, now: nat): Option<Counter> {
    if c == [] then None
    else if c[0].second == now then Some([Tally(now, Saturate(c[0].count + 1))] + c[1..])
    else
      match Bump(c[1..], now)
      case None => None
      case Some(rest) => Some([c[0]] + rest)
  }

  /** `add`: counts a connection, and forgets the seconds that are too old. */
  function Add(c: Counter, now: nat): Counter {
    var kept := Retain(c, now);
    match Bump(kept, now)
    case Some(bumped) => bumped
    case None => kept + [Tally(now, 1)]
  }

  /** `count`: the connections, and the different seconds with any. */
  function Count(c: Counter, now: nat): (nat, nat) {
    if c == [] then (0, 0)
    else
      var n := |c| - 1;
      var (connections, seconds) := Count(c[..n], now);
      if Within(c[n].second, now, SILENT_FLOOD_SECS) then (Saturate(connections + c[n].count), seconds + 1)
      else (connections, seconds)
  }

  /** `last`. */
  function Last(c: Counter): (r: nat)
    ensures forall t :: t in c ==> t.second <= r
  {
    if c == [] then 0
    else
      var n := |c| - 1;
      var before := Last(c[..n]);
      assert c == c[..n] + [c[n]];
      if c[n].second > before then c[n].second else before
  }

  // ----- what is counted

  /** The counter after these connections, one after another. */
  function CounterOf(times: seq<nat>): Counter {
    if times == [] then [] else Add(CounterOf(times[..|times| - 1]), times[|times| - 1])
  }

  predicate Steady(times: seq<nat>) { forall i, j :: 0 <= i < j < |times| ==> times[i] <= times[j] }

  /** The connections of the last minute. */
  function Minute(times: seq<nat>, now: nat): seq<nat> {
    if times == [] then []
    else
      var n := |times| - 1;
      Minute(times[..n], now) + if Within(times[n], now, SILENT_FLOOD_SECS) then [times[n]] else []
  }

  function Seconds(times: seq<nat>): set<nat> { set t | t in times }

  lemma SteadyFront(times: seq<nat>)
    requires Steady(times) && times != []
    ensures Steady(times[..|times| - 1])
    ensures forall t :: t in times ==> t <= times[|times| - 1]
  {
  }

  lemma {:induction false} MinuteElements(times: seq<nat>, now: nat)
    ensures forall t :: t in Minute(times, now) <==> t in times && Within(t, now, SILENT_FLOOD_SECS)
  {
    if times != [] {
      var n := |times| - 1;
      MinuteElements(times[..n], now);
      assert times == times[..n] + [times[n]];
    }
  }

  /** One more connection of the last second of the counter, or of a later one. */
  function Push(c: Counter, t: nat): (r: Counter)
    ensures r != [] && LastSecond(r) == t
  {
    if c != [] && LastSecond(c) == t then Front(c) + [Tally(t, Saturate(c[|c| - 1].count + 1))]
    else c + [Tally(t, 1)]
  }

  function Front(c: Counter): Counter
    requires c != []
  {
    c[..|c| - 1]
  }

  function LastSecond(c: Counter): nat
    requires c != []
  {
    c[|c| - 1].second
  }

  predicate Ascending(c: Counter) {
    c == [] || (Ascending(Front(c)) && (Front(c) != [] ==> LastSecond(Front(c)) < LastSecond(c)))
  }

  function SecondSet(c: Counter): set<nat> {
    if c == [] then {} else SecondSet(Front(c)) + {LastSecond(c)}
  }

  /** The connections of each second, in order of their time. */
  function Grouped(times: seq<nat>): Counter {
    if times == [] then [] else Push(Grouped(times[..|times| - 1]), times[|times| - 1])
  }

  lemma FrontAppend(c: Counter, t: Tally)
    ensures Front(c + [t]) == c && LastSecond(c + [t]) == t.second
  {
  }

  lemma PushAscends(c: Counter, t: nat)
    requires Ascending(c) && (c != [] ==> LastSecond(c) <= t)
    ensures Ascending(Push(c, t)) && SecondSet(Push(c, t)) == SecondSet(c) + {t}
  {
    FrontAppend(c, Tally(t, 1));
    if c != [] { FrontAppend(Front(c), Tally(t, Saturate(c[|c| - 1].count + 1))); }
  }

  lemma {:induction false} AscendingBelow(c: Counter)
    requires Ascending(c)
    ensures c != [] ==> forall s :: s in SecondSet(c) ==> s <= LastSecond(c)
    ensures |SecondSet(c)| == |c|
  {
    if c != [] {
      AscendingBelow(Front(c));
      assert LastSecond(c) !in SecondSet(Front(c));
    }
  }

  /** Groups of a steady list: their seconds ascend to its last one, and are those of the list. */
  lemma {:induction false} GroupedSeconds(times: seq<nat>)
    requires Steady(times)
    ensures var g := Grouped(times);
            && Ascending(g) && SecondSet(g) == Seconds(times)
            && (times == [] <==> g == []) && (times != [] ==> LastSecond(g) == times[|times| - 1])
  {
    hide Push, Steady;
    if times != [] {
      var n := |times| - 1;
      SteadyFront(times);
      GroupedSeconds(times[..n]);
      assert times == times[..n] + [times[n]];
      if n > 0 { assert times[n - 1] in times; }
      PushAscends(Grouped(times[..n]), times[n]);
      assert Seconds(times) == Seconds(times[..n]) + {times[n]};
    }
  }

  // ----- the counter is the groups of the last minute

  lemma RetainAppend(c: Counter, t: Tally, now: nat)
    ensures Retain(c + [t], now) == Retain(c, now) + if Within(t.second, now, SILENT_FLOOD_SECS) then [t] else []
  {
    assert (c + [t])[..|c|] == c;
  }

  /** Of an ascending counter, what is left ends before what comes later. */
  lemma {:induction false} RetainBelow(c: Counter, now: nat)
    requires Ascending(c)
    ensures Ascending(Retain(c, now))
    ensures Retain(c, now) != [] ==> c != [] && LastSecond(Retain(c, now)) <= LastSecond(c)
    ensures c != [] && Within(LastSecond(c), now, SILENT_FLOOD_SECS) ==>
              Retain(c, now) == Retain(Front(c), now) + [c[|c| - 1]]
  {
    if c != [] {
      RetainBelow(Front(c), now);
      if Within(LastSecond(c), now, SILENT_FLOOD_SECS) {
        FrontAppend(Retain(Front(c), now), c[|c| - 1]);
      } else {
        assert Retain(Front(c), now) + [] == Retain(Front(c), now);
      }
    }
  }

  lemma PushRetain(c: Counter, t: nat, now: nat)
    requires Ascending(c) && (c != [] ==> LastSecond(c) <= t)
    ensures Retain(Push(c, t), now) ==
            if Within(t, now, SILENT_FLOOD_SECS) then Push(Retain(c, now), t) else Retain(c, now)
  {
    hide Retain, Within, Saturate, Ascending;
    if c != [] && LastSecond(c) == t {
      PushRetainSame(c, now);
    } else {
      RetainBelow(c, now);
      RetainAppend(c, Tally(t, 1), now);
      assert Retain(c, now) + [] == Retain(c, now);
    }
  }

  lemma PushRetainSame(c: Counter, now: nat)
    requires c != []
    ensures var t := LastSecond(c);
            Retain(Push(c, t), now) ==
            if Within(t, now, SILENT_FLOOD_SECS) then Push(Retain(c, now), t) else Retain(c, now)
  {
    hide Retain, Within, Saturate;
    var front, last := Front(c), c[|c| - 1];
    assert c == front + [last];
    var kept := Retain(front, now);
    RetainAppend(front, last, now);
    RetainAppend(front, Tally(last.second, Saturate(last.count + 1)), now);
    if Within(last.second, now, SILENT_FLOOD_SECS) { FrontAppend(kept, last); }
  }

  lemma MinuteAppend(times: seq<nat>, t: nat, now: nat)
    ensures Minute(times + [t], now) == Minute(times, now) + if Within(t, now, SILENT_FLOOD_SECS) then [t] else []
  {
    assert (times + [t])[..|times|] == times;
  }

  lemma GroupedAppend(times: seq<nat>, t: nat)
    ensures Grouped(times + [t]) == Push(Grouped(times), t)
  {
    assert (times + [t])[..|times|] == times;
  }

  /** Dropping old groups is grouping what is left after dropping old connections. */
  lemma {:induction false} RetainGrouped(times: seq<nat>, now: nat)
    requires Steady(times)
    ensures Retain(Grouped(times), now) == Grouped(Minute(times, now))
  {
    hide Push, Steady;
    if times != [] {
      var n := |times| - 1;
      SteadyFront(times);
      var before, t := times[..n], times[n];
      RetainGrouped(before, now);
      GroupedSeconds(before);
      if before != [] { assert before[n - 1] in times; }
      PushRetain(Grouped(before), t, now);
      GroupedAppend(Minute(before, now), t);
      assert Minute(before, now) + [] == Minute(before, now);
    }
  }

  /** Counting one more in the entry of its second, or in a new one, is pushing it. */
  lemma {:induction false} BumpIsPush(c: Counter, now: nat)
    requires Ascending(c) && (c != [] ==> LastSecond(c) <= now)
    ensures match Bump(c, now)
            case Some(b) => b == Push(c, now)
            case None => c + [Tally(now, 1)] == Push(c, now)
  {
    if c != [] {
      EarlierSeconds(c);
      BumpEnd(c, now);
    }
  }

  lemma {:induction false} EarlierSeconds(c: Counter)
    requires Ascending(c)
    ensures forall i :: 0 <= i < |c| - 1 ==> c[i].second < c[|c| - 1].second
  {
    if c != [] {
      EarlierSeconds(Front(c));
      assert forall i :: 0 <= i < |c| - 1 ==> c[i] == Front(c)[i];
    }
  }

  lemma {:induction false} BumpEnd(c: Counter, now: nat)
    requires c != [] && forall i :: 0 <= i < |c| - 1 ==> c[i].second != now
    ensures Bump(c, now) ==
            if LastSecond(c) == now then Some(Front(c) + [Tally(now, Saturate(c[|c| - 1].count + 1))]) else None
    decreases |c|
  {
    if |c| == 1 {
      assert c[1..] == [] && Front(c) == [];
      assert Bump(c[1..], now) == None;
      var one := [Tally(now, Saturate(c[0].count + 1))];
      assert one + c[1..] == Front(c) + one;
    } else {
      assert forall i :: 0 <= i < |c[1..]| - 1 ==> c[1..][i] == c[i + 1];
      BumpEnd(c[1..], now);
      assert c[0].second != now;
      assert c[1..][|c| - 2] == c[|c| - 1];
      assert Front(c) == [c[0]] + Front(c[1..]);
      var more := [Tally(now, Saturate(c[|c| - 1].count + 1))];
      assert [c[0]] + (Front(c[1..]) + more) == Front(c) + more;
    }
  }

  /** Later, only what is still within the minute is left of an earlier minute. */
  lemma {:induction false} MinuteTwice(times: seq<nat>, earlier: nat, now: nat)
    requires earlier <= now && forall t :: t in times ==> t <= earlier
    ensures Minute(Minute(times, earlier), now) == Minute(times, now)
  {
    if times != [] {
      var n := |times| - 1;
      assert forall t :: t in times[..n] ==> t in times;
      MinuteTwice(times[..n], earlier, now);
      var m := Minute(times[..n], earlier);
      assert times[n] in times;
      MinuteAppend(m, times[n], now);
      assert m + [] == m;
      assert Minute(m, now) + [] == Minute(m, now);
    }
  }

  lemma {:induction false} MinuteSteady(times: seq<nat>, now: nat)
    requires Steady(times)
    ensures Steady(Minute(times, now))
  {
    if times != [] {
      var n := |times| - 1;
      SteadyFront(times);
      MinuteSteady(times[..n], now);
      MinuteElements(times[..n], now);
      var m := Minute(times[..n], now);
      forall i | 0 <= i < |m| ensures m[i] <= times[n] {
        assert m[i] in times[..n];
        assert m[i] in times;
      }
    }
  }

  /** With a clock that does not go back, the counter holds exactly the groups of the last
      minute before its last connection. */
  lemma {:induction false} CounterIsGrouped(times: seq<nat>)
    requires Steady(times)
    ensures times == [] ==> CounterOf(times) == []
    ensures times != [] ==> CounterOf(times) == Grouped(Minute(times, times[|times| - 1]))
  {
    hide Steady, Push, Bump;
    if times != [] {
      var n := |times| - 1;
      var before, now := times[..n], times[n];
      SteadyFront(times);
      assert forall t :: t in before ==> t in times;
      CounterIsGrouped(before);
      var m := Minute(before, now);
      CounterRetained(before, now);
      MinuteSteady(before, now);
      GroupedSeconds(m);
      MinuteElements(before, now);
      if m != [] { assert m[|m| - 1] in before; }
      BumpIsPush(Grouped(m), now);
      GroupedAppend(m, now);
    }
  }

  lemma CounterRetained(before: seq<nat>, now: nat)
    requires Steady(before) && forall t :: t in before ==> t <= now
    requires before == [] ==> CounterOf(before) == []
    requires before != [] ==> CounterOf(before) == Grouped(Minute(before, before[|before| - 1]))
    ensures Retain(CounterOf(before), now) == Grouped(Minute(before, now))
  {
    hide Steady, Push, CounterOf;
    if before != [] {
      var last := before[|before| - 1];
      SteadyFront(before);
      assert last in before;
      MinuteSteady(before, last);
      RetainGrouped(Minute(before, last), now);
      MinuteTwice(before, last, now);
    }
  }

  lemma CountAppend(c: Counter, t: Tally, now: nat)
    ensures var (n, s) := Count(c, now);
            Count(c + [t], now) ==
            if Within(t.second, now, SILENT_FLOOD_SECS) then (Saturate(n + t.count), s + 1) else (n, s)
  {
    assert (c + [t])[..|c|] == c;
  }

  predicate Counted(c: Counter) { forall i :: 0 <= i < |c| ==> c[i].count <= U32_MAX }

  lemma SaturateOnce(n: nat, m: nat)
    ensures Saturate(n + Saturate(m + 1)) == Saturate(Saturate(n + m) + 1)
  {
  }

  lemma PushCount(c: Counter, t: nat, now: nat)
    requires Within(t, now, SILENT_FLOOD_SECS) && Counted(c)
    ensures Counted(Push(c, t))
    ensures Count(Push(c, t), now).0 == Saturate(Count(c, now).0 + 1)
    ensures Count(Push(c, t), now).1 == Count(c, now).1 + (|Push(c, t)| - |c|)
  {
    hide Count, Within;
    if c != [] && LastSecond(c) == t {
      var last, n := c[|c| - 1], Count(Front(c), now).0;
      CountAppend(Front(c), Tally(t, Saturate(last.count + 1)), now);
      assert c == Front(c) + [last];
      CountAppend(Front(c), last, now);
      SaturateOnce(n, last.count);
    } else {
      CountAppend(c, Tally(t, 1), now);
    }
  }

  lemma {:induction false} CountGrouped(times: seq<nat>, now: nat)
    requires forall t :: t in times ==> Within(t, now, SILENT_FLOOD_SECS)
    ensures Counted(Grouped(times)) && Count(Grouped(times), now) == (Saturate(|times|), |Grouped(times)|)
  {
    hide Push, Counted;
    if times == [] {
      NoneCounted();
    } else {
      var n := |times| - 1;
      assert times[n] in times;
      assert forall t :: t in times[..n] ==> t in times;
      CountGrouped(times[..n], now);
      PushCount(Grouped(times[..n]), times[n], now);
    }
  }

  lemma NoneCounted()
    ensures Counted([]) && forall now :: Count([], now) == (0, 0)
  {
  }

  /** With a clock that does not go back, the counter counts exactly the connections of the
      last minute (up to the largest 32-bit number), and the different seconds with any. */
  lemma CountIsExact(times: seq<nat>, now: nat)
    requires Steady(times) && forall t :: t in times ==> t <= now
    ensures Count(CounterOf(times), now) ==
            (Saturate(|Minute(times, now)|), |Seconds(Minute(times, now))|)
  {
    hide Steady, Push, CounterOf;
    CounterIsGrouped(times);
    var c, m := CounterOf(times), Minute(times, now);
    CounterRetained(times, now);
    MinuteSteady(times, now);
    GroupedSeconds(m);
    AscendingBelow(Grouped(m));
    MinuteElements(times, now);
    CountGrouped(m, now);
    CountRetained(c, now);
  }

  /** Only the entries of the last minute are counted. */
  lemma {:induction false} CountRetained(c: Counter, now: nat)
    ensures Count(c, now) == Count(Retain(c, now), now)
  {
    if c != [] {
      var n := |c| - 1;
      CountRetained(c[..n], now);
      CountAppend(Retain(c[..n], now), c[n], now);
      assert Retain(c[..n], now) + [] == Retain(c[..n], now);
    }
  }

  // ----- with any clock

  lemma {:induction false} MinuteMultiset(times: seq<nat>, now: nat)
    ensures forall t :: multiset(Minute(times, now))[t] ==
                        if Within(t, now, SILENT_FLOOD_SECS) then multiset(times)[t] else 0
  {
    if times != [] {
      var n := |times| - 1;
      MinuteMultiset(times[..n], now);
      assert times == times[..n] + [times[n]];
    }
  }

  /** One entry for each second, with no more connections than there were in it. */
  ghost predicate Below(c: Counter, m: multiset<nat>) {
    && (forall i, j :: 0 <= i < j < |c| ==> c[i].second != c[j].second)
    && (forall i :: 0 <= i < |c| ==> 1 <= c[i].count <= m[c[i].second])
  }

  lemma {:induction false} RetainBelowAny(c: Counter, now: nat, m: multiset<nat>)
    requires Below(c, m)
    ensures Below(Retain(c, now), m)
    ensures forall t :: t in Retain(c, now) ==> t in c
  {
    if c != [] {
      var n := |c| - 1;
      RetainBelowAny(c[..n], now, m);
      var front := Retain(c[..n], now);
      forall i | 0 <= i < |front| ensures front[i].second != c[n].second {
        assert front[i] in c[..n];
      }
    }
  }

  lemma BelowFirst(x: Tally, rest: Counter, b: Counter, m: multiset<nat>, now: nat)
    requires Below([x] + rest, m) && Below(b, m + multiset{now}) && Alike(rest, b)
    ensures Below([x] + b, m + multiset{now}) && Alike([x] + rest, [x] + b)
  {
    var c, d := [x] + rest, [x] + b;
    forall i | 0 <= i < |d| ensures d[i].second == c[i].second {
      if i > 0 { assert d[i] == b[i - 1] && c[i] == rest[i - 1]; }
    }
    forall i | 0 <= i < |d| ensures 1 <= d[i].count <= (m + multiset{now})[d[i].second] {
      if i > 0 { assert d[i] == b[i - 1]; } else { assert d[i] == c[0]; }
    }
  }

  lemma {:induction false} BumpBelow(c: Counter, now: nat, m: multiset<nat>)
    requires Below(c, m)
    ensures match Bump(c, now)
            case Some(b) => Below(b, m + multiset{now}) && Alike(c, b)
            case None => forall i :: 0 <= i < |c| ==> c[i].second != now
  {
    if c != [] && c[0].second != now {
      var x, rest := c[0], c[1..];
      assert c == [x] + rest;
      BumpBelow(rest, now, m);
      if Bump(rest, now).Some? {
        hide Below, Alike;
        BelowFirst(x, rest, Bump(rest, now).value, m, now);
      }
    }
  }

  ghost predicate Alike(c: Counter, d: Counter) {
    |c| == |d| && forall i :: 0 <= i < |c| ==> c[i].second == d[i].second
  }

  lemma AppendBelow(c: Counter, now: nat, m: multiset<nat>)
    requires Below(c, m) && forall i :: 0 <= i < |c| ==> c[i].second != now
    ensures Below(c + [Tally(now, 1)], m + multiset{now})
  {
  }

  lemma AddBelow(c: Counter, now: nat, m: multiset<nat>)
    requires Below(c, m)
    ensures Below(Add(c, now), m + multiset{now})
  {
    hide Bump, Retain, Below, Alike;
    RetainBelowAny(c, now, m);
    var kept := Retain(c, now);
    BumpBelow(kept, now, m);
    if Bump(kept, now).None? { AppendBelow(kept, now, m); }
  }

  /** Whatever the clock does, the counter never counts more than there was. */
  lemma {:induction false} CounterBelow(times: seq<nat>)
    ensures Below(CounterOf(times), multiset(times))
  {
    if times != [] {
      hide Add, Below;
      var n := |times| - 1;
      CounterBelow(times[..n]);
      assert times == times[..n] + [times[n]];
      AddBelow(CounterOf(times[..n]), times[n], multiset(times[..n]));
    }
  }

  lemma {:induction false} CountBelow(c: Counter, now: nat, m: multiset<nat>, seconds: set<nat>)
    requires forall i, j :: 0 <= i < j < |c| ==> c[i].second != c[j].second
    requires forall i :: 0 <= i < |c| && Within(c[i].second, now, SILENT_FLOOD_SECS) ==>
                           c[i].count <= m[c[i].second] && c[i].second in seconds
    ensures Count(c, now).0 <= Saturate(|m|) && Count(c, now).1 <= |seconds|
  {
    if c != [] {
      var n := |c| - 1;
      var last := c[n];
      if Within(last.second, now, SILENT_FLOOD_SECS) {
        var rest := m[last.second := 0];
        assert |m| == |rest| + m[last.second];
        CountBelow(c[..n], now, rest, seconds - {last.second});
      } else {
        CountBelow(c[..n], now, m, seconds);
      }
    }
  }

  /** Whatever the clock does, no more connections are counted than there were in the last
      minute, and no more different seconds. */
  lemma CountIsSound(times: seq<nat>, now: nat)
    ensures Count(CounterOf(times), now).0 <= Saturate(|Minute(times, now)|)
    ensures Count(CounterOf(times), now).1 <= |Seconds(Minute(times, now))|
  {
    hide Count, CounterOf, Minute;
    CounterBelow(times);
    MinuteMultiset(times, now);
    var c, m := CounterOf(times), multiset(Minute(times, now));
    forall i | 0 <= i < |c| && Within(c[i].second, now, SILENT_FLOOD_SECS)
      ensures c[i].count <= m[c[i].second] && c[i].second in Seconds(Minute(times, now))
    {
      assert c[i].second in m;
    }
    CountBelow(c, now, m, Seconds(Minute(times, now)));
  }
}
