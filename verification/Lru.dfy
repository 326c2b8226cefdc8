/**
 The cache with capacity and expiry (util/cache/cache.go), each method taken as one step.
 */
module Lru {
  datatype Slot<V> = Slot(value: V, expires: int)

  datatype Options = Options(maxSize: int, expiration: int, renewOnGet: bool, deleteOnGet: bool)

  /** The recency list, least recent first, and the entries by key. */
  datatype Cache<K(==), V> = Cache(lru: seq<K>, slots: map<K, Slot<V>>)

  datatype Lookup<V> = NotFound | Expired | Hit(value: V)

  /** What a step leaves behind: the cache, and the evictions reported, in order. */
  datatype Outcome<K(==), V> = Outcome(cache: Cache<K, V>, evicted: seq<(K, V)>)

  predicate Distinct<K(==)>(s: seq<K>) {
    forall i, j :: 0 <= i < j < |s| ==> s[i] != s[j]
  }

  ghost function Elements<K>(s: seq<K>): set<K> {
    set k | k in s
  }

  /** List and map hold the same keys, each once. */
  ghost predicate Consistent<K, V>(c: Cache<K, V>) {
    Distinct(c.lru) && Elements(c.lru) == c.slots.Keys
  }

  /** A negative capacity is no bound at all. */
  ghost predicate WellFormed<K, V>(o: Options, c: Cache<K, V>) {
    Consistent(c) && (o.maxSize >= 0 ==> |c.lru| <= o.maxSize)
  }

  /** The sequence without (the first occurrence of) a key. */
  function Without<K(==)>(s: seq<K>, k: K): (r: seq<K>)
    ensures |r| == if k in s then |s| - 1 else |s|
  {
    if s == [] then [] else if s[0] == k then s[1..] else [s[0]] + Without(s[1..], k)
  }

  function Drop<K(==), V>(c: Cache<K, V>, k: K): Cache<K, V> {
    Cache(Without(c.lru, k), c.slots - {k})
  }

  function Bump<K(==), V>(c: Cache<K, V>, k: K, slot: Slot<V>): Cache<K, V> {
    Cache(Without(c.lru, k) + [k], c.slots[k := slot])
  }

  function Get<K(==), V>(o: Options, c: Cache<K, V>, k: K, now: int): (r: (Lookup<V>, Outcome<K, V>)) {
    if k !in c.slots then (NotFound, Outcome(c, []))
    else
      var slot := c.slots[k];
      if now >= slot.expires then
        (Expired, if o.deleteOnGet then Outcome(Drop(c, k), [(k, slot.value)]) else Outcome(c, []))
      else
        (Hit(slot.value), Outcome(Bump(c, k, if o.renewOnGet then slot.(expires := now + o.expiration) else slot), []))
  }

  function Set<K(==), V>(o: Options, c: Cache<K, V>, k: K, v: V, now: int): (r: Outcome<K, V>)
    requires Consistent(c) && (o.maxSize != 0 || k in c.slots)
  {
    var slot := Slot(v, now + o.expiration);
    if k in c.slots then Outcome(Bump(c, k, slot), [])
    else if |c.lru| == o.maxSize then
      var victim := c.lru[0];
      assert victim in Elements(c.lru);
      var left := Drop(c, victim);
      Outcome(Cache(left.lru + [k], left.slots[k := slot]), [(victim, c.slots[victim].value)])
    else Outcome(Cache(c.lru + [k], c.slots[k := slot]), [])
  }

  function Delete<K(==), V>(c: Cache<K, V>, k: K): Outcome<K, V> {
    if k in c.slots then Outcome(Drop(c, k), [(k, c.slots[k].value)]) else Outcome(c, [])
  }

  /** Deletes the expired among the given keys, one after the other. */
  function Sweep<K(==), V>(c: Cache<K, V>, keys: seq<K>, now: int): (r: Outcome<K, V>)
    decreases |keys|
  {
    if keys == [] then Outcome(c, [])
    else if keys[0] in c.slots && c.slots[keys[0]].expires <= now then
      var rest := Sweep(Drop(c, keys[0]), keys[1..], now);
      rest.(evicted := [(keys[0], c.slots[keys[0]].value)] + rest.evicted)
    else Sweep(c, keys[1..], now)
  }

  // -------- what each operation does, entry by entry --------

  /**
   A get hits exactly an entry that has not expired, whatever the options, and answers with the value held. A hit
   changes at most that entry's expiry, to a lifetime from now if gets renew; an expired entry goes exactly if gets
   delete, and is then reported; nothing else changes.
   */
  lemma GetSlots<K, V>(o: Options, c: Cache<K, V>, k: K, now: int)
    ensures var (found, out) := Get(o, c, k, now);
            && (found.NotFound? <==> k !in c.slots)
            && (found.Hit? <==> k in c.slots && now < c.slots[k].expires)
            && (found.Hit? ==>
                  && found.value == c.slots[k].value && out.evicted == []
                  && out.cache.slots == c.slots[k := Slot(c.slots[k].value, if o.renewOnGet then now + o.expiration else c.slots[k].expires)])
            && (found.Expired? && o.deleteOnGet ==> out.cache.slots == c.slots - {k} && out.evicted == [(k, c.slots[k].value)])
            && (found.NotFound? || (found.Expired? && !o.deleteOnGet) ==> out == Outcome(c, []))
  {
  }

  /**
   A set stores the value with a lifetime from now. It removes another entry exactly if the key is new and the list is
   at capacity, and that is the one in front, which is reported.
   */
  lemma SetSlots<K, V>(o: Options, c: Cache<K, V>, k: K, v: V, now: int)
    requires Consistent(c) && (o.maxSize != 0 || k in c.slots)
    ensures var out := Set(o, c, k, v, now);
            if k !in c.slots && |c.lru| == o.maxSize then
              && c.lru[0] in c.slots && out.evicted == [(c.lru[0], c.slots[c.lru[0]].value)]
              && out.cache.slots == (c.slots - {c.lru[0]})[k := Slot(v, now + o.expiration)]
            else
              out.evicted == [] && out.cache.slots == c.slots[k := Slot(v, now + o.expiration)]
  {
    if k !in c.slots && |c.lru| == o.maxSize {
      assert c.lru[0] in Elements(c.lru);
    }
  }

  /** A delete removes the entry, if there is one, and reports it. */
  lemma DeleteSlots<K, V>(c: Cache<K, V>, k: K)
    ensures var out := Delete(c, k);
            && out.cache.slots == c.slots - {k}
            && out.evicted == if k in c.slots then [(k, c.slots[k].value)] else []
  {
  }

  // -------- consistency --------

  lemma {:induction false} WithoutElements<K>(s: seq<K>, k: K)
    requires Distinct(s)
    ensures Distinct(Without(s, k)) && Elements(Without(s, k)) == Elements(s) - {k}
  {
    if s != [] {
      var rest := s[1..];
      assert Elements(s) == {s[0]} + Elements(rest);
      assert s[0] !in rest by {
        assert forall i :: 0 <= i < |rest| ==> rest[i] == s[i + 1];
      }
      if s[0] != k {
        WithoutElements(rest, k);
        var t := Without(rest, k);
        assert s[0] !in t by { assert s[0] !in Elements(t); }
        assert Elements([s[0]] + t) == {s[0]} + Elements(t);
      }
    }
  }

  lemma PushElements<K>(s: seq<K>, k: K)
    requires Distinct(s) && k !in s
    ensures Distinct(s + [k]) && Elements(s + [k]) == Elements(s) + {k}
  {
  }

  lemma DropConsistent<K, V>(c: Cache<K, V>, k: K)
    requires Consistent(c)
    ensures Consistent(Drop(c, k))
  {
    WithoutElements(c.lru, k);
  }

  lemma BumpConsistent<K, V>(c: Cache<K, V>, k: K, slot: Slot<V>)
    requires Consistent(c)
    ensures Consistent(Bump(c, k, slot))
  {
    WithoutElements(c.lru, k);
    assert k !in Elements(Without(c.lru, k));
    PushElements(Without(c.lru, k), k);
  }

  lemma GetWellFormed<K, V>(o: Options, c: Cache<K, V>, k: K, now: int)
    requires WellFormed(o, c)
    ensures WellFormed(o, Get(o, c, k, now).1.cache)
  {
    if k in c.slots {
      var slot := c.slots[k];
      DropConsistent(c, k);
      BumpConsistent(c, k, if o.renewOnGet then slot.(expires := now + o.expiration) else slot);
    }
  }

  lemma SetWellFormed<K, V>(o: Options, c: Cache<K, V>, k: K, v: V, now: int)
    requires WellFormed(o, c) && o.maxSize != 0
    ensures WellFormed(o, Set(o, c, k, v, now).cache)
  {
    var slot := Slot(v, now + o.expiration);
    if k in c.slots {
      BumpConsistent(c, k, slot);
    } else {
      assert k !in Elements(c.lru);
      if |c.lru| == o.maxSize {
        assert c.lru[0] in Elements(c.lru);
        DropConsistent(c, c.lru[0]);
        assert k !in Elements(Without(c.lru, c.lru[0]));
        PushElements(Without(c.lru, c.lru[0]), k);
      } else {
        PushElements(c.lru, k);
      }
    }
  }

  /** What a sweep leaves: the cache without the expired among the given keys. */
  lemma {:induction false} SweepResult<K, V>(c: Cache<K, V>, keys: seq<K>, now: int)
    requires Consistent(c)
    ensures var r := Sweep(c, keys, now).cache;
            && Consistent(r) && |r.lru| <= |c.lru|
            && r.slots == map k | k in c.slots && !(k in keys && c.slots[k].expires <= now) :: c.slots[k]
    decreases |keys|
  {
    hide Without, Distinct, Elements;
    if keys != [] {
      var k := keys[0];
      if k in c.slots && c.slots[k].expires <= now {
        DropConsistent(c, k);
        SweepResult(Drop(c, k), keys[1..], now);
      } else {
        SweepResult(c, keys[1..], now);
      }
    }
  }

  // -------- whole runs --------

  datatype Op<K, V> = GetOp(key: K) | SetOp(key: K, value: V) | DeleteOp(key: K) | CleanupOp(order: seq<K>)

  /** An operation and the clock reading it sees. */
  datatype Event<K, V> = Event(op: Op<K, V>, now: int)

  ghost function Step<K, V>(o: Options, c: Cache<K, V>, e: Event<K, V>): Outcome<K, V>
    requires WellFormed(o, c) && o.maxSize != 0
  {
    match e.op
    case GetOp(k) => Get(o, c, k, e.now).1
    case SetOp(k, v) => Set(o, c, k, v, e.now)
    case DeleteOp(k) => Delete(c, k)
    case CleanupOp(order) => Sweep(c, order, e.now)
  }

  lemma StepWellFormed<K, V>(o: Options, c: Cache<K, V>, e: Event<K, V>)
    requires WellFormed(o, c) && o.maxSize != 0
    ensures WellFormed(o, Step(o, c, e).cache)
  {
    match e.op
    case GetOp(k) => GetWellFormed(o, c, k, e.now);
    case SetOp(k, v) => SetWellFormed(o, c, k, v, e.now);
    case DeleteOp(k) => DropConsistent(c, k);
    case CleanupOp(order) => SweepResult(c, order, e.now);
  }

  /** The cache after a run from empty: consistent and within capacity, whatever the operations. */
  ghost function After<K, V>(o: Options, run: seq<Event<K, V>>): (c: Cache<K, V>)
    requires o.maxSize != 0
    ensures WellFormed(o, c)
    decreases |run|
  {
    if run == [] then Cache([], map[])
    else
      var n := |run| - 1;
      StepWellFormed(o, After(o, run[..n]), run[n]);
      Step(o, After(o, run[..n]), run[n]).cache
  }

  /** Does this event use the key: set it, or ask for it before it expires? */
  ghost predicate Uses<K, V>(c: Cache<K, V>, e: Event<K, V>, k: K) {
    match e.op
    case GetOp(x) => x == k && k in c.slots && e.now < c.slots[k].expires
    case SetOp(x, _) => x == k
    case _ => false
  }

  /** The position in the run of the last use of a key, or -1. */
  ghost function LastUse<K, V>(o: Options, run: seq<Event<K, V>>, k: K): (i: int)
    requires o.maxSize != 0
    ensures -1 <= i < |run|
    decreases |run|
  {
    if run == [] then -1
    else
      var n := |run| - 1;
      if Uses(After(o, run[..n]), run[n], k) then n else LastUse(o, run[..n], k)
  }

  ghost predicate Ascending<K>(s: seq<K>, rank: K -> int) {
    forall i, j :: 0 <= i < j < |s| ==> rank(s[i]) < rank(s[j])
  }

  lemma ConsAscending<K>(h: K, t: seq<K>, rank: K -> int)
    requires Ascending(t, rank) && forall x :: x in t ==> rank(h) < rank(x)
    ensures Ascending([h] + t, rank)
  {
    var s := [h] + t;
    forall i, j | 0 <= i < j < |s| ensures rank(s[i]) < rank(s[j]) {
      assert s[j] == t[j - 1];
      if i > 0 {
        assert s[i] == t[i - 1];
      }
    }
  }

  lemma TailAscending<K>(s: seq<K>, rank: K -> int)
    requires s != [] && Ascending(s, rank)
    ensures Ascending(s[1..], rank) && forall x :: x in s[1..] ==> rank(s[0]) < rank(x)
  {
    var t := s[1..];
    assert forall i :: 0 <= i < |t| ==> t[i] == s[i + 1];
  }

  lemma {:induction false} WithoutAscending<K>(s: seq<K>, k: K, rank: K -> int)
    requires Ascending(s, rank)
    ensures Ascending(Without(s, k), rank)
    ensures forall x :: x in Without(s, k) ==> x in s
  {
    if s != [] {
      TailAscending(s, rank);
      if s[0] != k {
        WithoutAscending(s[1..], k, rank);
        ConsAscending(s[0], Without(s[1..], k), rank);
      }
    }
  }

  lemma {:induction false} SweepAscending<K, V>(c: Cache<K, V>, keys: seq<K>, now: int, rank: K -> int)
    requires Ascending(c.lru, rank)
    ensures Ascending(Sweep(c, keys, now).cache.lru, rank)
    decreases |keys|
  {
    if keys != [] {
      WithoutAscending(c.lru, keys[0], rank);
      SweepAscending(Drop(c, keys[0]), keys[1..], now, rank);
      SweepAscending(c, keys[1..], now, rank);
    }
  }

  lemma SameRank<K>(s: seq<K>, before: K -> int, after: K -> int)
    requires Ascending(s, before) && forall x :: x in s ==> after(x) == before(x)
    ensures Ascending(s, after)
  {
  }

  lemma PushAscending<K>(s: seq<K>, k: K, before: K -> int, after: K -> int)
    requires Ascending(s, before) && forall x :: x in s ==> after(x) == before(x) < after(k)
    ensures Ascending(s + [k], after)
  {
    SameRank(s, before, after);
  }

  lemma MovedToBack<K>(s: seq<K>, k: K, before: K -> int, after: K -> int)
    requires Distinct(s) && Ascending(s, before) && forall x :: x in s && x != k ==> after(x) == before(x) < after(k)
    ensures Ascending(Without(s, k) + [k], after)
  {
    WithoutElements(s, k);
    WithoutAscending(s, k, before);
    forall x | x in Without(s, k) ensures x in s && x != k {
      assert x in Elements(Without(s, k));
    }
    PushAscending(Without(s, k), k, before, after);
  }

  /** One more event keeps the list in order of last use. */
  lemma StepAscending<K, V>(o: Options, c: Cache<K, V>, e: Event<K, V>, before: K -> int, after: K -> int, n: int)
    requires WellFormed(o, c) && o.maxSize != 0 && Ascending(c.lru, before)
    requires forall k :: before(k) < n
    requires forall k :: after(k) == if Uses(c, e, k) then n else before(k)
    ensures Ascending(Step(o, c, e).cache.lru, after)
  {
    match e.op
    case GetOp(k) =>
      if Uses(c, e, k) {
        MovedToBack(c.lru, k, before, after);
      } else {
        SameRank(c.lru, before, after);
        WithoutAscending(c.lru, k, after);
      }
    case SetOp(k, v) =>
      assert Uses(c, e, k);
      if k in c.slots {
        MovedToBack(c.lru, k, before, after);
      } else {
        assert k !in Elements(c.lru);
        WithoutAscending(c.lru, if c.lru == [] then k else c.lru[0], before);
        PushAscending(c.lru, k, before, after);
        if |c.lru| == o.maxSize {
          PushAscending(Without(c.lru, c.lru[0]), k, before, after);
        }
      }
    case DeleteOp(k) =>
      SameRank(c.lru, before, after);
      WithoutAscending(c.lru, k, after);
    case CleanupOp(order) =>
      SameRank(c.lru, before, after);
      SweepAscending(c, order, e.now, after);
  }

  /** After every run the list is in order of last use, so the capacity victim is the key unused for longest. */
  lemma {:induction false} LeastRecentFirst<K, V>(o: Options, run: seq<Event<K, V>>)
    requires o.maxSize != 0
    ensures Ascending(After(o, run).lru, (k: K) => LastUse(o, run, k))
    decreases |run|
  {
    if run != [] {
      var n := |run| - 1;
      LeastRecentFirst(o, run[..n]);
      StepAscending(o, After(o, run[..n]), run[n], (k: K) => LastUse(o, run[..n], k), (k: K) => LastUse(o, run, k), n);
    }
  }

  /** When a new key meets a full cache, what goes is the key unused for longest. */
  lemma VictimUnusedLongest<K, V>(o: Options, run: seq<Event<K, V>>, k: K, v: V, now: int)
    requires o.maxSize != 0 && k !in After(o, run).slots && |After(o, run).lru| == o.maxSize
    ensures var c := After(o, run);
            var evicted := Set(o, c, k, v, now).evicted;
            && |evicted| == 1 && evicted[0].0 in c.slots
            && forall x :: x in c.slots && x != evicted[0].0 ==> LastUse(o, run, evicted[0].0) < LastUse(o, run, x)
  {
    LeastRecentFirst(o, run);
    var c := After(o, run);
    var rank := (x: K) => LastUse(o, run, x);
    forall x | x in c.slots && x != c.lru[0] ensures LastUse(o, run, c.lru[0]) < LastUse(o, run, x) {
      assert x in Elements(c.lru);
      var i :| 0 <= i < |c.lru| && c.lru[i] == x;
      assert rank(c.lru[0]) < rank(c.lru[i]);
    }
  }

  /** The position in the run of the last event that sets a key, or -1. */
  function LastSet<K(==), V>(run: seq<Event<K, V>>, k: K): (i: int)
    ensures -1 <= i < |run|
    ensures i >= 0 ==> run[i].op.SetOp? && run[i].op.key == k
    ensures forall j :: i < j < |run| ==> !(run[j].op.SetOp? && run[j].op.key == k)
    decreases |run|
  {
    if run == [] then -1
    else
      var n := |run| - 1;
      if run[n].op.SetOp? && run[n].op.key == k then n else LastSet(run[..n], k)
  }

  /** What one event does to the entry of a key it does not set: keep the value, and the expiry unless renewed. */
  lemma StepKeeps<K, V>(o: Options, c: Cache<K, V>, e: Event<K, V>, k: K)
    requires WellFormed(o, c) && o.maxSize != 0 && k in Step(o, c, e).cache.slots
    requires !(e.op.SetOp? && e.op.key == k)
    ensures k in c.slots && Step(o, c, e).cache.slots[k].value == c.slots[k].value
    ensures !o.renewOnGet ==> Step(o, c, e).cache.slots[k].expires == c.slots[k].expires
  {
    if e.op.CleanupOp? {
      SweepResult(c, e.op.order, e.now);
    }
  }

  /** After every run, a key that is cached has the value last set, and expires a lifetime after it was set. */
  lemma {:induction false} HoldsWhatWasSet<K, V>(o: Options, run: seq<Event<K, V>>, k: K)
    requires o.maxSize != 0 && k in After(o, run).slots
    ensures var i := LastSet(run, k);
            && i >= 0 && After(o, run).slots[k].value == run[i].op.value
            && (!o.renewOnGet ==> After(o, run).slots[k].expires == run[i].now + o.expiration)
    decreases |run|
  {
    if run != [] {
      var n := |run| - 1;
      var c := After(o, run[..n]);
      if !(run[n].op.SetOp? && run[n].op.key == k) {
        StepKeeps(o, c, run[n], k);
        HoldsWhatWasSet(o, run[..n], k);
      }
    }
  }

  /** An event that does not use a key leaves its entry as it is, if it leaves it. */
  lemma StepSpares<K, V>(o: Options, c: Cache<K, V>, e: Event<K, V>, k: K)
    requires WellFormed(o, c) && o.maxSize != 0 && k in Step(o, c, e).cache.slots && !Uses(c, e, k)
    ensures k in c.slots && Step(o, c, e).cache.slots[k] == c.slots[k]
  {
    if e.op.CleanupOp? {
      SweepResult(c, e.op.order, e.now);
    }
  }

  /** When gets renew, a cached key expires one lifetime after its last use. */
  lemma {:induction false} RenewedByUse<K, V>(o: Options, run: seq<Event<K, V>>, k: K)
    requires o.maxSize != 0 && o.renewOnGet && k in After(o, run).slots
    ensures var i := LastUse(o, run, k);
            i >= 0 && After(o, run).slots[k].expires == run[i].now + o.expiration
    decreases |run|
  {
    if run != [] {
      var n := |run| - 1;
      var c := After(o, run[..n]);
      if !Uses(c, run[n], k) {
        StepSpares(o, c, run[n], k);
        RenewedByUse(o, run[..n], k);
      }
    }
  }

  // -------- evictions --------

  function Has<K(==), V>(c: Cache<K, V>, k: K): nat {
    if k in c.slots then 1 else 0
  }

  function Count<K(==), V>(evicted: seq<(K, V)>, k: K): nat {
    if evicted == [] then 0 else (if evicted[0].0 == k then 1 else 0) + Count(evicted[1..], k)
  }

  /** Does this event bring a key into the cache? */
  function Inserts<K(==), V>(c: Cache<K, V>, e: Event<K, V>, k: K): nat {
    if e.op.SetOp? && e.op.key == k && k !in c.slots then 1 else 0
  }

  lemma {:induction false} SweepEvicts<K, V>(c: Cache<K, V>, keys: seq<K>, now: int, k: K)
    ensures var r := Sweep(c, keys, now);
            Has(c, k) == Count(r.evicted, k) + Has(r.cache, k)
    decreases |keys|
  {
    if keys != [] {
      SweepEvicts(Drop(c, keys[0]), keys[1..], now, k);
      SweepEvicts(c, keys[1..], now, k);
    }
  }

  lemma StepEvicts<K, V>(o: Options, c: Cache<K, V>, e: Event<K, V>, k: K)
    requires WellFormed(o, c) && o.maxSize != 0
    ensures var r := Step(o, c, e);
            Has(c, k) + Inserts(c, e, k) == Count(r.evicted, k) + Has(r.cache, k)
  {
    match e.op
    case CleanupOp(order) => SweepEvicts(c, order, e.now, k);
    case SetOp(x, v) =>
      if x !in c.slots && |c.lru| == o.maxSize {
        assert c.lru[0] in Elements(c.lru);
      }
    case _ =>
  }

  /** Every eviction reports the value the key held at that moment. */
  lemma {:induction false} SweepReports<K, V>(c: Cache<K, V>, keys: seq<K>, now: int)
    ensures forall p :: p in Sweep(c, keys, now).evicted ==>
              p.0 in c.slots && c.slots[p.0].value == p.1 && c.slots[p.0].expires <= now
    decreases |keys|
  {
    if keys != [] {
      SweepReports(Drop(c, keys[0]), keys[1..], now);
      SweepReports(c, keys[1..], now);
    }
  }

  ghost function Inserted<K, V>(o: Options, run: seq<Event<K, V>>, k: K): nat
    requires o.maxSize != 0
    decreases |run|
  {
    if run == [] then 0
    else var n := |run| - 1; Inserted(o, run[..n], k) + Inserts(After(o, run[..n]), run[n], k)
  }

  ghost function Evicted<K, V>(o: Options, run: seq<Event<K, V>>, k: K): nat
    requires o.maxSize != 0
    decreases |run|
  {
    if run == [] then 0
    else var n := |run| - 1; Evicted(o, run[..n], k) + Count(Step(o, After(o, run[..n]), run[n]).evicted, k)
  }

  /** Over every run, each time a key leaves the cache is reported exactly once. */
  lemma {:induction false} EvictedOnce<K, V>(o: Options, run: seq<Event<K, V>>, k: K)
    requires o.maxSize != 0
    ensures Inserted(o, run, k) == Evicted(o, run, k) + Has(After(o, run), k)
    decreases |run|
  {
    if run != [] {
      var n := |run| - 1;
      EvictedOnce(o, run[..n], k);
      StepEvicts(o, After(o, run[..n]), run[n], k);
    }
  }

  // -------- the cache as the source runs it --------

  /** An outcome that comes after some evictions. */
  ghost function Evicting<K, V>(evicted: seq<(K, V)>, out: Outcome<K, V>): Outcome<K, V> {
    out.(evicted := evicted + out.evicted)
  }

  lemma AfterNothing<K, V>(out: Outcome<K, V>)
    ensures Evicting([], out) == out
  {
    assert [] + out.evicted == out.evicted;
  }

  lemma SweepStep<K, V>(evicted: seq<(K, V)>, c: Cache<K, V>, keys: seq<K>, now: int)
    ensures keys == [] ==> Evicting(evicted, Sweep(c, keys, now)) == Outcome(c, evicted)
    ensures keys != [] && keys[0] in c.slots && c.slots[keys[0]].expires <= now ==>
              Evicting(evicted, Sweep(c, keys, now)) ==
              Evicting(evicted + [(keys[0], c.slots[keys[0]].value)], Sweep(Drop(c, keys[0]), keys[1..], now))
    ensures keys != [] && !(keys[0] in c.slots && c.slots[keys[0]].expires <= now) ==>
              Evicting(evicted, Sweep(c, keys, now)) == Evicting(evicted, Sweep(c, keys[1..], now))
  {
    if keys == [] {
      assert evicted + [] == evicted;
    } else if keys[0] in c.slots && c.slots[keys[0]].expires <= now {
      var gone, rest := [(keys[0], c.slots[keys[0]].value)], Sweep(Drop(c, keys[0]), keys[1..], now);
      assert evicted + (gone + rest.evicted) == (evicted + gone) + rest.evicted;
    }
  }

  class LruCache<K(==), V> {
    const o: Options
    var lru: seq<K>
    var cache: map<K, Slot<V>>

    ghost function View(): Cache<K, V>
      reads this
    {
      Cache(lru, cache)
    }

    ghost predicate Valid()
      reads this
    {
      WellFormed(o, View())
    }

    constructor (o: Options)
      ensures Valid() && this.o == o && View() == Cache([], map[])
    {
      this.o := o;
      lru, cache := [], map[];
    }

    method Remove(key: K) returns (evicted: seq<(K, V)>)
      requires Consistent(View()) && key in cache
      modifies this
      ensures View() == Drop(old(View()), key) && evicted == [(key, old(cache)[key].value)]
      ensures Consistent(View())
    {
      DropConsistent(View(), key);
      evicted := [(key, cache[key].value)];
      cache := cache - {key};
      lru := Without(lru, key);
    }

    method Lookup(key: K, now: int) returns (r: Lookup<V>, evicted: seq<(K, V)>)
      requires Valid()
      modifies this
      ensures Valid() && (r, Outcome(View(), evicted)) == Get(o, old(View()), key, now)
    {
      GetWellFormed(o, View(), key, now);
      evicted := [];
      if key !in cache {
        return NotFound, [];
      }
      if now >= cache[key].expires {
        if o.deleteOnGet {
          evicted := Remove(key);
        }
        return Expired, evicted;
      }
      lru := Without(lru, key) + [key];
      r := Hit(cache[key].value);
      if o.renewOnGet {
        cache := cache[key := cache[key].(expires := now + o.expiration)];
      }
      assert cache == cache[key := cache[key]];
    }

    /** Sets an entry; with capacity zero there is no victim to evict, and every set breaks off. */
    method Store(key: K, value: V, now: int) returns (evicted: seq<(K, V)>, ok: bool)
      requires Valid()
      modifies this
      ensures Valid() && (ok <==> o.maxSize != 0)
      ensures ok ==> Outcome(View(), evicted) == Set(o, old(View()), key, value, now)
      ensures !ok ==> View() == old(View()) == Cache([], map[]) && evicted == []
    {
      hide Distinct;
      evicted, ok := [], true;
      assert o.maxSize == 0 ==> cache.Keys == Elements(lru) == {};
      if o.maxSize != 0 {
        SetWellFormed(o, View(), key, value, now);
      }
      var slot := Slot(value, now + o.expiration);
      if key in cache {
        cache := cache[key := slot];
        lru := Without(lru, key) + [key];
        return;
      }
      if |lru| == o.maxSize {
        if lru == [] {
          return [], false;
        }
        assert lru[0] in Elements(lru);
        evicted := Remove(lru[0]);
      }
      cache := cache[key := slot];
      lru := lru + [key];
    }

    method Erase(key: K) returns (evicted: seq<(K, V)>)
      requires Valid()
      modifies this
      ensures Valid() && Outcome(View(), evicted) == Delete(old(View()), key)
    {
      evicted := [];
      if key in cache {
        evicted := Remove(key);
      }
    }

    /**
     Removes what has expired. The entries are visited in the order the map yields them, which may be any;
     afterwards exactly the unexpired entries remain.
     */
    method Cleanup(order: seq<K>, now: int) returns (evicted: seq<(K, V)>)
      requires Valid() && Distinct(order) && Elements(order) == cache.Keys
      modifies this
      ensures Valid() && Outcome(View(), evicted) == Sweep(old(View()), order, now)
      ensures cache == map k | k in old(cache) && old(cache)[k].expires > now :: old(cache)[k]
    {
      hide Distinct, Sweep;
      ghost var start := View();
      SweepResult(start, order, now);
      assert forall k :: k in cache ==> k in Elements(order);
      evicted := [];
      var i := 0;
      assert order[0..] == order;
      AfterNothing(Sweep(start, order, now));
      while i < |order|
        invariant 0 <= i <= |order| && Consistent(View())
        invariant Sweep(start, order, now) == Evicting(evicted, Sweep(View(), order[i..], now))
      {
        SweepStep(evicted, View(), order[i..], now);
        assert order[i..][1..] == order[i + 1..];
        var key := order[i];
        if key in cache && cache[key].expires <= now {
          var e := Remove(key);
          evicted := evicted + e;
        }
        i := i + 1;
      }
      SweepStep(evicted, View(), order[i..], now);
    }
  }
}
