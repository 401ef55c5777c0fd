/** The answer cache (cache.rs): the most recently used answers, each kept for its lifetime. */
module AnswerCache {
  import opened Bytes

  const CACHE_CAPACITY: nat := 2000
  const MIN_CACHE_TTL: nat := 10
  const MAX_CACHE_TTL: nat := 3600

  type Key = seq<byte>

  datatype Entry<+A> = Entry(answer: A, storedAt: nat, lifetime: nat)

  /** `order` has the least recently used key first. */
  datatype Cache<+A> = Cache(entries: map<Key, Entry<A>>, order: seq<Key>, capacity: nat, maxTtl: nat)

  function Empty<A>(capacity: nat, maxTtl: nat): Cache<A> {
    Cache(map[], [], if capacity < 1 then 1 else capacity, if maxTtl < MIN_CACHE_TTL then MIN_CACHE_TTL else maxTtl)
  }

  predicate Distinct(s: seq<Key>) { forall i, j :: 0 <= i < j < |s| ==> s[i] != s[j] }

  /** The order lists exactly the keys held, once each, and no more than fit. */
  ghost predicate Valid<A>(c: Cache<A>) {
    && Distinct(c.order)
    && (forall k :: k in c.order <==> k in c.entries)
    && |c.order| <= c.capacity
    && 1 <= c.capacity && MIN_CACHE_TTL <= c.maxTtl
  }

  function Lifetime(minTtl: nat, maxTtl: nat): (n: nat)
    requires MIN_CACHE_TTL <= maxTtl
    ensures MIN_CACHE_TTL <= n <= maxTtl
    ensures MIN_CACHE_TTL <= minTtl <= maxTtl ==> n == minTtl
  {
    if minTtl < MIN_CACHE_TTL then MIN_CACHE_TTL else if minTtl > maxTtl then maxTtl else minTtl
  }

  function Age(now: nat, storedAt: nat): nat { if now >= storedAt then now - storedAt else 0 }

  function Drop(s: seq<Key>, key: Key): seq<Key> {
    if s == [] then []
    else
      var n := |s| - 1;
      Drop(s[..n], key) + if s[n] == key then [] else [s[n]]
  }

  lemma {:induction false} DropElements(s: seq<Key>, key: Key)
    ensures forall k :: k in Drop(s, key) <==> k in s && k != key
    ensures Distinct(s) ==> Distinct(Drop(s, key))
    ensures |Drop(s, key)| <= |s| && (key in s ==> |Drop(s, key)| < |s|)
  {
    if s != [] {
      var n := |s| - 1;
      DropElements(s[..n], key);
      assert s == s[..n] + [s[n]];
      if Distinct(s) && s[n] != key {
        assert s[n] !in s[..n];
        assert s[n] !in Drop(s[..n], key);
      }
    }
  }

  /** `insert`: the entry becomes the most recent one; the least recent makes room. */
  function Put<A>(c: Cache<A>, key: Key, answer: A, minTtl: nat, now: nat): Cache<A>
    requires Valid(c)
  {
    var e := Entry(answer, now, Lifetime(minTtl, c.maxTtl));
    if key in c.entries then
      c.(entries := c.entries[key := e], order := Drop(c.order, key) + [key])
    else if |c.order| == c.capacity then
      c.(entries := (c.entries - {c.order[0]})[key := e], order := c.order[1..] + [key])
    else
      c.(entries := c.entries[key := e], order := c.order + [key])
  }

  /** `get`: the live answer and its age; an expired one is removed. */
  function Get<A>(c: Cache<A>, key: Key, now: nat): (Cache<A>, Option<(A, nat)>)
    requires Valid(c)
  {
    if key !in c.entries then (c, None)
    else
      var e := c.entries[key];
      var elapsed := Age(now, e.storedAt);
      if elapsed >= e.lifetime then (c.(entries := c.entries - {key}, order := Drop(c.order, key)), None)
      else (c.(order := Drop(c.order, key) + [key]), Some((e.answer, elapsed)))
  }

  lemma PutValid<A>(c: Cache<A>, key: Key, answer: A, minTtl: nat, now: nat)
    requires Valid(c)
    ensures Valid(Put(c, key, answer, minTtl, now))
  {
    hide Distinct, Lifetime;
    if key in c.entries {
      hide Drop;
      DropElements(c.order, key);
      DistinctAppend(Drop(c.order, key), key);
    } else {
      DistinctAppend(c.order, key);
      if |c.order| == c.capacity {
        DistinctRest(c.order);
        DistinctAppend(c.order[1..], key);
      }
    }
  }

  lemma DistinctAppend(s: seq<Key>, key: Key)
    requires Distinct(s) && key !in s
    ensures Distinct(s + [key]) && forall k :: k in s + [key] <==> k in s || k == key
  {
  }

  lemma DistinctRest(s: seq<Key>)
    requires Distinct(s) && s != []
    ensures Distinct(s[1..]) && forall k :: k in s[1..] <==> k in s && k != s[0]
  {
    assert s == [s[0]] + s[1..];
  }

  lemma GetValid<A>(c: Cache<A>, key: Key, now: nat)
    requires Valid(c)
    ensures Valid(Get(c, key, now).0)
  {
    DropElements(c.order, key);
  }

  // ----- runs

  datatype Op<+A> =
    | Insert(key: Key, answer: A, minTtl: nat, now: nat)
    | Ask(key: Key, now: nat)

  function Do<A>(c: Cache<A>, op: Op<A>): (r: Cache<A>)
    requires Valid(c)
    ensures Valid(r)
  {
    match op
    case Insert(key, answer, minTtl, now) =>
      PutValid(c, key, answer, minTtl, now);
      Put(c, key, answer, minTtl, now)
    case Ask(key, now) =>
      GetValid(c, key, now);
      Get(c, key, now).0
  }

  function After<A>(c: Cache<A>, ops: seq<Op<A>>): (r: Cache<A>)
    requires Valid(c)
    ensures Valid(r)
  {
    if ops == [] then c else Do(After(c, ops[..|ops| - 1]), ops[|ops| - 1])
  }

  /** The last insertion under the key. */
  function LastInsert<A>(ops: seq<Op<A>>, key: Key): Option<Op<A>> {
    if ops == [] then None
    else
      var op := ops[|ops| - 1];
      if op.Insert? && op.key == key then Some(op) else LastInsert(ops[..|ops| - 1], key)
  }

  /** The entry that insertion makes. */
  ghost predicate Made<A(!new)>(e: Entry<A>, op: Option<Op<A>>, maxTtl: nat)
    requires MIN_CACHE_TTL <= maxTtl
  {
    op.Some? && op.value.Insert? && e == Entry(op.value.answer, op.value.now, Lifetime(op.value.minTtl, maxTtl))
  }

  lemma HeldAfterOne<A(!new)>(c: Cache<A>, op: Op<A>, key: Key)
    requires Valid(c) && key in Do(c, op).entries
    ensures Do(c, op).maxTtl == c.maxTtl
    ensures if op.Insert? && op.key == key then Made(Do(c, op).entries[key], Some(op), c.maxTtl)
            else key in c.entries && Do(c, op).entries[key] == c.entries[key]
  {
    hide Drop, Distinct, Lifetime, Age;
  }

  /** What the cache holds for a key is what its last insert put there. */
  lemma {:induction false} HeldIsLastInsert<A(!new)>(capacity: nat, maxTtl: nat, ops: seq<Op<A>>, key: Key)
    requires key in After(Empty(capacity, maxTtl), ops).entries
    ensures After(Empty(capacity, maxTtl), ops).maxTtl == Empty<A>(capacity, maxTtl).maxTtl
    ensures Made(After(Empty(capacity, maxTtl), ops).entries[key], LastInsert(ops, key),
                 Empty<A>(capacity, maxTtl).maxTtl)
  {
    if ops != [] {
      hide Do, Valid, Made, Empty;
      var n := |ops| - 1;
      var before := After(Empty(capacity, maxTtl), ops[..n]);
      SameLimits(capacity, maxTtl, ops[..n]);
      HeldAfterOne(before, ops[n], key);
      if !(ops[n].Insert? && ops[n].key == key) { HeldIsLastInsert(capacity, maxTtl, ops[..n], key); }
    }
  }

  lemma {:induction false} SameLimits<A>(capacity: nat, maxTtl: nat, ops: seq<Op<A>>)
    ensures After(Empty(capacity, maxTtl), ops).maxTtl == Empty<A>(capacity, maxTtl).maxTtl
    ensures After(Empty(capacity, maxTtl), ops).capacity == Empty<A>(capacity, maxTtl).capacity
  {
    if ops != [] { SameLimits(capacity, maxTtl, ops[..|ops| - 1]); }
  }

  /** After any run, a hit is the last answer inserted under the key, and it is younger than
      its lifetime: its smallest TTL within 10 s and the cache's maximum. */
  lemma HitIsLastInsert<A(!new)>(capacity: nat, maxTtl: nat, ops: seq<Op<A>>, key: Key, now: nat)
    requires Get(After(Empty(capacity, maxTtl), ops), key, now).1.Some?
    ensures var (answer, age) := Get(After(Empty(capacity, maxTtl), ops), key, now).1.value;
            var last := LastInsert(ops, key);
            && last.Some? && last.value.Insert?
            && answer == last.value.answer && age == Age(now, last.value.now)
            && Lives(last.value.minTtl, if maxTtl < 10 then 10 else maxTtl, age)
  {
    HeldIsLastInsert(capacity, maxTtl, ops, key);
    var last := LastInsert(ops, key).value;
    LivesExactly(last.minTtl, Empty<A>(capacity, maxTtl).maxTtl, Age(now, last.now));
  }

  // ----- what is not forgotten

  /** The keys used after `key` are all among `used`. */
  predicate Recent(order: seq<Key>, key: Key, used: set<Key>) {
    order != [] &&
    var n := |order| - 1;
    order[n] == key || (order[n] in used && Recent(order[..n], key, used))
  }

  lemma RecentAppend(order: seq<Key>, key: Key, used: set<Key>, k: Key)
    requires k == key || (k in used && Recent(order, key, used))
    ensures Recent(order + [k], key, used)
  {
    assert (order + [k])[..|order|] == order;
  }

  lemma {:induction false} RecentDrop(order: seq<Key>, key: Key, used: set<Key>, other: Key)
    requires Recent(order, key, used) && other != key
    ensures Recent(Drop(order, other), key, used)
  {
    var n := |order| - 1;
    if order[n] == key {
      RecentAppend(Drop(order[..n], other), key, used, key);
    } else {
      RecentDrop(order[..n], key, used, other);
      if order[n] == other {
        assert Drop(order[..n], other) + [] == Drop(order[..n], other);
      } else {
        RecentAppend(Drop(order[..n], other), key, used, order[n]);
      }
    }
  }

  lemma {:induction false} RecentRest(order: seq<Key>, key: Key, used: set<Key>)
    requires Recent(order, key, used) && order[0] != key
    ensures Recent(order[1..], key, used)
  {
    var n := |order| - 1;
    assert order[1..][n - 1] == order[n];
    if order[n] != key {
      RecentRest(order[..n], key, used);
      assert order[1..][..n - 1] == order[..n][1..];
    }
  }

  /** If the key comes first, all the others are among those used since. */
  lemma {:induction false} RecentFirst(order: seq<Key>, key: Key, used: set<Key>)
    requires Recent(order, key, used) && order[0] == key && Distinct(order)
    ensures forall k :: k in order[1..] ==> k in used
  {
    var n := |order| - 1;
    if n > 0 {
      assert order[n] != order[0];
      RecentFirst(order[..n], key, used);
      assert order[1..] == order[..n][1..] + [order[n]];
    }
  }

  /** The operation leaves the key's own entry alone. */
  predicate Spares<A>(op: Op<A>, key: Key, e: Entry<A>, used: set<Key>) {
    if op.key == key then op.Ask? && Age(op.now, e.storedAt) < e.lifetime else op.key in used
  }

  lemma SizeWithin(s: seq<Key>, used: set<Key>)
    requires Distinct(s) && forall k :: k in s ==> k in used
    ensures |s| <= |used|
    decreases |s|
  {
    if s != [] {
      var n := |s| - 1;
      assert forall k :: k in s[..n] ==> k in used - {s[n]};
      SizeWithin(s[..n], used - {s[n]});
    }
  }

  /** When a new key needs room, the key in question is not the one to go. */
  lemma NotEvicted(order: seq<Key>, key: Key, used: set<Key>, k: Key)
    requires Distinct(order) && Recent(order, key, used) && k in used && k !in order && |used| < |order|
    ensures order[0] != key
  {
    if order[0] == key {
      RecentFirst(order, key, used);
      SizeWithin(order[1..] + [k], used);
    }
  }

  lemma StepSpares<A>(c: Cache<A>, op: Op<A>, key: Key, used: set<Key>)
    requires Valid(c) && key in c.entries && Recent(c.order, key, used) && |used| < c.capacity
    requires Spares(op, key, c.entries[key], used)
    ensures var d := Do(c, op);
            key in d.entries && d.entries[key] == c.entries[key] && Recent(d.order, key, used)
                && d.capacity == c.capacity
  {
    hide Recent, Drop, Distinct;
    var k := op.key;
    if k == key {
      RecentAppend(Drop(c.order, k), key, used, k);
    } else if k in c.entries {
      RecentDrop(c.order, key, used, k);
      RecentAppend(Drop(c.order, k), key, used, k);
    } else if op.Insert? {
      if |c.order| == c.capacity {
        NotEvicted(c.order, key, used, k);
        RecentRest(c.order, key, used);
        RecentAppend(c.order[1..], key, used, k);
      } else {
        RecentAppend(c.order, key, used, k);
      }
    }
  }

  /** An answer is not forgotten while fewer other keys than the capacity are used: it is still
      there, and asking for it within its lifetime is a hit. */
  lemma {:induction false} RecentIsKept<A>(c: Cache<A>, ops: seq<Op<A>>, key: Key, used: set<Key>)
    requires Valid(c) && key in c.entries && Recent(c.order, key, used) && |used| < c.capacity
    requires forall op :: op in ops ==> Spares(op, key, c.entries[key], used)
    ensures var d := After(c, ops);
            && key in d.entries && d.entries[key] == c.entries[key]
            && Recent(d.order, key, used) && d.capacity == c.capacity
  {
    hide Do, Spares, Recent, Valid;
    if ops != [] {
      var n := |ops| - 1;
      RecentIsKept(c, ops[..n], key, used);
      StepSpares(After(c, ops[..n]), ops[n], key, used);
    }
  }

  /** An answer of this smallest TTL may be given at this age: for ten seconds at least, and no longer
      than the cache keeps any. */
  predicate Lives(minTtl: nat, maxTtl: nat, age: nat) { age < 10 || (age < minTtl && age < maxTtl) }

  lemma LivesExactly(minTtl: nat, maxTtl: nat, age: nat)
    requires MIN_CACHE_TTL <= maxTtl
    ensures age < Lifetime(minTtl, maxTtl) <==> Lives(minTtl, maxTtl, age)
  {
  }

  /** The seconds since then; none when the clock went back. */
  lemma AgeIs(now: nat, storedAt: nat)
    ensures storedAt <= now ==> storedAt + Age(now, storedAt) == now
    ensures now <= storedAt ==> Age(now, storedAt) == 0
  {
  }

  lemma JustPut<A>(c: Cache<A>, key: Key, answer: A, minTtl: nat, now: nat, used: set<Key>)
    requires Valid(c)
    ensures var d := Put(c, key, answer, minTtl, now);
            && Valid(d) && d.capacity == c.capacity && d.maxTtl == c.maxTtl && Recent(d.order, key, used)
            && key in d.entries && d.entries[key] == Entry(answer, now, Lifetime(minTtl, c.maxTtl))
  {
    PutValid(c, key, answer, minTtl, now);
    hide Drop, Distinct, Lifetime;
  }

  /** While fewer other keys than the capacity are used, an inserted answer is given exactly as long
      as it lives, with its age, whatever else happens. */
  lemma InsertedIsHit<A>(c: Cache<A>, key: Key, answer: A, minTtl: nat, storedAt: nat, ops: seq<Op<A>>, used: set<Key>,
                         now: nat)
    requires Valid(c) && |used| < c.capacity
    requires forall op :: op in ops ==>
               if op.key == key then op.Ask? && Lives(minTtl, c.maxTtl, Age(op.now, storedAt)) else op.key in used
    ensures Valid(Put(c, key, answer, minTtl, storedAt))
    ensures var age := Age(now, storedAt);
            Get(After(Put(c, key, answer, minTtl, storedAt), ops), key, now).1 ==
            if Lives(minTtl, c.maxTtl, age) then Some((answer, age)) else None
  {
    hide Put, Valid, Recent, Lifetime, Lives, Age, After;
    JustPut(c, key, answer, minTtl, storedAt, used);
    var d := Put(c, key, answer, minTtl, storedAt);
    forall op | op in ops ensures Spares(op, key, d.entries[key], used) {
      if op.key == key { LivesExactly(minTtl, c.maxTtl, Age(op.now, storedAt)); }
    }
    RecentIsKept(d, ops, key, used);
    LivesExactly(minTtl, c.maxTtl, Age(now, storedAt));
  }

  /** `AnswerCache`: the cache with its table updated in place. */
  class LruAnswers<A> {
    var entries: map<Key, Entry<A>>
    var order: seq<Key>
    const capacity: nat
    const maxTtl: nat

    ghost function Now(): Cache<A>
      reads this
    {
      Cache(entries, order, capacity, maxTtl)
    }

    constructor (capacity: nat, maxTtl: nat)
      ensures Now() == Empty(capacity, maxTtl) && Valid(Now())
    {
      this.capacity := if capacity < 1 then 1 else capacity;
      this.maxTtl := if maxTtl < MIN_CACHE_TTL then MIN_CACHE_TTL else maxTtl;
      entries, order := map[], [];
    }

    method Store(key: Key, answer: A, minTtl: nat, now: nat)
      requires Valid(Now())
      modifies this
      ensures Now() == Put(old(Now()), key, answer, minTtl, now) && Valid(Now())
    {
      hide Drop, Distinct;
      PutValid(Now(), key, answer, minTtl, now);
      var entry := Entry(answer, now, Lifetime(minTtl, maxTtl));
      if key in entries {
        order := Drop(order, key) + [key];
      } else {
        if |order| == capacity {
          entries := entries - {order[0]};
          order := order[1..];
        }
        order := order + [key];
      }
      entries := entries[key := entry];
    }

    method Find(key: Key, now: nat) returns (r: Option<(A, nat)>)
      requires Valid(Now())
      modifies this
      ensures (Now(), r) == Get(old(Now()), key, now) && Valid(Now())
    {
      hide Drop, Distinct;
      GetValid(Now(), key, now);
      if key !in entries {
        return None;
      }
      var entry := entries[key];
      var elapsed := Age(now, entry.storedAt);
      if elapsed >= entry.lifetime {
        entries := entries - {key};
        order := Drop(order, key);
        return None;
      }
      order := Drop(order, key) + [key];
      r := Some((entry.answer, elapsed));
    }
  }
}
