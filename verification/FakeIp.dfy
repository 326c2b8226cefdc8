/**
 The fake-IP resolver (resolver/fakeip.go): every host asked for is given an address from a private pool, and
 traffic to that address is later mapped back to the host.

 Two caches with their own clocks, the pool, and an eviction callback that returns addresses to the pool have
 to stay consistent with each other.
 */
module FakeIp {
  import opened Common
  import opened Bytes
  import opened IpPool
  import L = Lru

  datatype Record = Record(domain: string, fakeIp: Addr)

  /** Capacity, lifetime in nanoseconds, no renewal on a hit, expired entries deleted when found. */
  const OPTIONS := L.Options(4096, 60_000_000_000, false, true)

  /**
   The resolver's state. `latest` is a history: for every address ever given out, the record it was last
   given out with.
   */
  datatype State = State(
    pool: Pool,
    cache: L.Cache<string, Record>,
    ipCache: L.Cache<Addr, Record>,
    tun: Addr,
    dns: Addr,
    latest: map<Addr, Record>)

  // -------- the operations --------

  /** What setting up a resolver can come to; the address after 255.255.255.255 cannot be formed. */
  datatype Created = Refused | Panics | Made(state: State)

  function New(p: Prefix): Created {
    match NewPool(p)
    case None => Refused
    case Some(pool) =>
      var (p1, tun) := AllocateFor(pool, p.addr);
      if tun == None then Refused
      else if IpToInt(tun.value) == 0xFFFF_FFFF then Panics
      else
        var (p2, dns) := AllocateFor(p1, IntToIp(IpToInt(tun.value) + 1));
        if dns == None then Refused
        else Made(State(p2, L.Cache([], map[]), L.Cache([], map[]), tun.value, dns.value, map[]))
  }

  /** The eviction callback, for each eviction in turn. */
  function ReleaseAll(pool: Pool, evicted: seq<(string, Record)>): (r: Pool)
    requires Sound(pool)
    ensures Sound(r)
    decreases |evicted|
  {
    if evicted == [] then pool else ReleaseAll(Release(pool, evicted[0].1.fakeIp).0, evicted[1..])
  }

  function WithHosts(s: State, out: L.Outcome<string, Record>): State
    requires Sound(s.pool)
  {
    s.(cache := out.cache, pool := ReleaseAll(s.pool, out.evicted))
  }

  /** Looks a host up in the host cache. */
  function Find(s: State, host: string, now: int): (State, Option<Record>)
    requires Sound(s.pool)
  {
    var (found, out) := L.Get(OPTIONS, s.cache, host, now);
    (WithHosts(s, out), if found.Hit? then Some(found.value) else None)
  }

  /** A new record for a host, with a new address. */
  function NewRecord(checksum: string -> u32, s: State, host: string, t2: int, t3: int): (State, Option<Record>)
    requires Sound(s.pool) && L.Consistent(s.cache) && L.Consistent(s.ipCache)
  {
    var (pool, ip) := Allocate(s.pool, checksum(host));
    if ip == None then (s, None)
    else
      var record := Record(host, ip.value);
      var t := WithHosts(s.(pool := pool), L.Set(OPTIONS, s.cache, host, record, t2));
      (t.(ipCache := L.Set(OPTIONS, s.ipCache, ip.value, record, t3).cache, latest := s.latest[ip.value := record]),
       Some(record))
  }

  /** The record for a host: the cached one, or a new one. */
  function Query(checksum: string -> u32, s: State, host: string, t1: int, t2: int, t3: int): (State, Option<Record>)
    requires Valid(s)
  {
    FindValid(s, host, t1);
    var (t, found) := Find(s, host, t1);
    if found.Some? then (t, found) else NewRecord(checksum, t, host, t2, t3)
  }

  /** The record for an address. */
  function FindByIp(s: State, ip: Addr, t1: int, t2: int): (State, Option<Record>)
    requires Sound(s.pool)
  {
    var (found, out) := L.Get(OPTIONS, s.ipCache, ip, t1);
    var s1 := s.(ipCache := out.cache);
    if found.Hit? then Find(s1, found.value.domain, t2) else (s1, None)
  }

  function CleanHosts(s: State, order: seq<string>, now: int): State
    requires Sound(s.pool)
  {
    WithHosts(s, L.Sweep(s.cache, order, now))
  }

  function CleanIps(s: State, order: seq<Addr>, now: int): State {
    s.(ipCache := L.Sweep(s.ipCache, order, now).cache)
  }

  // -------- what stays true --------

  predicate Taken(pool: Pool, ip: Addr)
    requires Sound(pool)
  {
    Index(pool, ip) >= 0 && pool.flags[Index(pool, ip)]
  }

  /** The addresses of the records in the host cache. */
  ghost function Held(s: State): set<Addr> {
    set h | h in s.cache.slots :: s.cache.slots[h].value.fakeIp
  }

  /** A cached record is filed under its own host and is the latest to have its address. */
  ghost predicate Filed(s: State, h: string)
    requires h in s.cache.slots
  {
    var r := s.cache.slots[h].value;
    r.domain == h && r.fakeIp in s.latest && s.latest[r.fakeIp] == r
  }

  /** Addresses are taken exactly when reserved or held, and both caches agree with the history. */
  ghost predicate Balanced(s: State, reserved: set<Addr>) {
    && Sound(s.pool) && L.WellFormed(OPTIONS, s.cache) && L.WellFormed(OPTIONS, s.ipCache)
    && (forall ip :: Taken(s.pool, ip) <==> ip in reserved + Held(s))
    && reserved !! Held(s)
    && (forall h :: h in s.cache.slots ==> Filed(s, h))
    && (forall ip :: ip in s.ipCache.slots ==> ip in s.latest && s.ipCache.slots[ip].value == s.latest[ip])
  }

  /**
   The invariant of every run: the addresses taken in the pool are exactly the tunnel's, the DNS server's and
   those of the cached records, and the first two are distinct and never given to a host.
   */
  ghost predicate Valid(s: State) {
    Balanced(s, {s.tun, s.dns}) && s.tun != s.dns
  }

  /** No two cached hosts share an address. */
  lemma HostsShareNoAddress(s: State, g: string, h: string)
    requires Valid(s) && g in s.cache.slots && h in s.cache.slots && g != h
    ensures s.cache.slots[g].value.fakeIp != s.cache.slots[h].value.fakeIp
  {
    assert Filed(s, g) && Filed(s, h);
  }

  // -------- each step keeps it --------

  lemma SameIndex(pool: Pool, a: Addr, b: Addr)
    requires Sound(pool) && Index(pool, a) == Index(pool, b) >= 0
    ensures a == b
  {
    IndexBijection(pool, a, 0);
    IndexBijection(pool, b, 0);
  }

  lemma ReleaseTaken(pool: Pool, ip: Addr)
    requires Sound(pool)
    ensures forall x :: Taken(Release(pool, ip).0, x) <==> Taken(pool, x) && x != ip
  {
    hide Index;
    forall x ensures Taken(Release(pool, ip).0, x) <==> Taken(pool, x) && x != ip {
      SameRange(pool, Release(pool, ip).0, x);
      if x != ip && Index(pool, x) >= 0 && Index(pool, ip) == Index(pool, x) {
        SameIndex(pool, x, ip);
      }
    }
  }

  lemma SameRange(p: Pool, q: Pool, ip: Addr)
    requires Sound(p) && Sound(q) && p.hmin == q.hmin && p.hmax == q.hmax
    ensures Index(p, ip) == Index(q, ip)
  {
  }

  lemma AllocateTaken(pool: Pool, ip: Addr, q: Pool)
    requires Sound(pool) && Index(pool, ip) >= 0 && q == pool.(flags := pool.flags[Index(pool, ip) := true])
    ensures forall x :: Taken(q, x) <==> Taken(pool, x) || x == ip
  {
    hide Index;
    forall x ensures Taken(q, x) <==> Taken(pool, x) || x == ip {
      SameRange(pool, q, x);
      if x != ip && Index(pool, ip) == Index(pool, x) {
        SameIndex(pool, x, ip);
      }
    }
  }

  lemma ReleaseOne(pool: Pool, e: (string, Record))
    requires Sound(pool)
    ensures ReleaseAll(pool, [e]) == Release(pool, e.1.fakeIp).0
  {
    assert [e][1..] == [];
  }

  /** A host leaves the cache and its address returns to the pool. */
  ghost function Evict(s: State, h: string): State
    requires Sound(s.pool) && h in s.cache.slots
  {
    s.(cache := L.Drop(s.cache, h), pool := Release(s.pool, s.cache.slots[h].value.fakeIp).0)
  }

  lemma EvictHeld(s: State, h: string)
    requires Sound(s.pool) && h in s.cache.slots && forall g :: g in s.cache.slots ==> Filed(s, g)
    ensures Held(Evict(s, h)) == Held(s) - {s.cache.slots[h].value.fakeIp}
  {
    var ip := s.cache.slots[h].value.fakeIp;
    forall g | g in s.cache.slots && g != h ensures s.cache.slots[g].value.fakeIp != ip {
      assert Filed(s, g) && Filed(s, h);
    }
    forall x | x in Held(s) && x != ip ensures x in Held(Evict(s, h)) {
      var g :| g in s.cache.slots && s.cache.slots[g].value.fakeIp == x;
      assert g in Evict(s, h).cache.slots;
    }
  }

  lemma EvictBalanced(s: State, h: string, reserved: set<Addr>)
    requires Balanced(s, reserved) && h in s.cache.slots
    ensures Balanced(Evict(s, h), reserved)
  {
    var ip := s.cache.slots[h].value.fakeIp;
    EvictHeld(s, h);
    ReleaseTaken(s.pool, ip);
    L.DropConsistent(s.cache, h);
    assert ip in Held(s);
    forall g | g in Evict(s, h).cache.slots ensures Filed(Evict(s, h), g) {
      assert Filed(s, g);
    }
  }

  /** Re-ordering the host cache changes nothing that matters. */
  lemma ReorderBalanced(s: State, c: L.Cache<string, Record>, reserved: set<Addr>)
    requires Balanced(s, reserved) && L.WellFormed(OPTIONS, c) && c.slots == s.cache.slots
    ensures Balanced(s.(cache := c), reserved)
  {
    var t := s.(cache := c);
    assert Held(t) == Held(s);
    forall h | h in c.slots ensures Filed(t, h) {
      assert Filed(s, h);
    }
  }

  lemma FindBalanced(s: State, host: string, now: int, reserved: set<Addr>)
    requires Balanced(s, reserved)
    ensures Balanced(Find(s, host, now).0, reserved)
    ensures Find(s, host, now).1 == None ==> host !in Find(s, host, now).0.cache.slots
    ensures Find(s, host, now).1.Some? ==>
              && Find(s, host, now).0.cache.slots == s.cache.slots && host in s.cache.slots
              && Find(s, host, now).1.value == s.cache.slots[host].value
    ensures var t := Find(s, host, now).0; t.latest == s.latest && t.tun == s.tun && t.dns == s.dns && t.ipCache == s.ipCache
  {
    var (found, out) := L.Get(OPTIONS, s.cache, host, now);
    L.GetWellFormed(OPTIONS, s.cache, host, now);
    match found {
      case NotFound =>
        assert WithHosts(s, out) == s;
      case Expired =>
        EvictBalanced(s, host, reserved);
        ReleaseOne(s.pool, out.evicted[0]);
        assert out.evicted == [out.evicted[0]];
        assert WithHosts(s, out) == Evict(s, host);
      case Hit(_) =>
        assert out.cache.slots == s.cache.slots;
        ReorderBalanced(s, out.cache, reserved);
        assert WithHosts(s, out) == s.(cache := out.cache);
    }
  }

  lemma FindValid(s: State, host: string, now: int)
    requires Valid(s)
    ensures Valid(Find(s, host, now).0)
  {
    FindBalanced(s, host, now, {s.tun, s.dns});
  }

  lemma {:induction false} SweepBalanced(s: State, keys: seq<string>, now: int, reserved: set<Addr>)
    requires Balanced(s, reserved)
    ensures Balanced(WithHosts(s, L.Sweep(s.cache, keys, now)), reserved)
    decreases |keys|
  {
    if keys == [] {
      assert WithHosts(s, L.Sweep(s.cache, keys, now)) == s;
    } else if keys[0] in s.cache.slots && s.cache.slots[keys[0]].expires <= now {
      var t := Evict(s, keys[0]);
      EvictBalanced(s, keys[0], reserved);
      SweepBalanced(t, keys[1..], now, reserved);
      var rest := L.Sweep(t.cache, keys[1..], now);
      var out := L.Sweep(s.cache, keys, now);
      assert out.evicted[1..] == rest.evicted;
      assert WithHosts(s, out) == WithHosts(t, rest);
    } else {
      SweepBalanced(s, keys[1..], now, reserved);
    }
  }

  lemma IpCacheBalanced(s: State, c: L.Cache<Addr, Record>, reserved: set<Addr>)
    requires Balanced(s, reserved) && L.WellFormed(OPTIONS, c)
    requires forall ip :: ip in c.slots ==> ip in s.ipCache.slots && c.slots[ip] == s.ipCache.slots[ip]
    ensures Balanced(s.(ipCache := c), reserved)
  {
    var t := s.(ipCache := c);
    assert Held(t) == Held(s);
    forall h | h in s.cache.slots ensures Filed(t, h) {
      assert Filed(s, h);
    }
  }

  /** The host, its record and its address enter both caches. */
  ghost function Enter(s: State, record: Record, hosts: L.Cache<string, Record>, ips: L.Cache<Addr, Record>): State {
    s.(cache := hosts, ipCache := ips, latest := s.latest[record.fakeIp := record])
  }

  lemma EnterBalanced(s: State, record: Record, hosts: L.Cache<string, Record>, ips: L.Cache<Addr, Record>,
                      reserved: set<Addr>, e1: int, e2: int)
    requires Balanced(s, reserved + {record.fakeIp}) && record.fakeIp !in reserved && record.domain !in s.cache.slots
    requires L.WellFormed(OPTIONS, hosts) && hosts.slots == s.cache.slots[record.domain := L.Slot(record, e1)]
    requires L.WellFormed(OPTIONS, ips)
    requires forall ip :: ip in ips.slots ==>
               if ip == record.fakeIp then ips.slots[ip].value == record
               else ip in s.ipCache.slots && ips.slots[ip] == s.ipCache.slots[ip]
    ensures Balanced(Enter(s, record, hosts, ips), reserved)
  {
    var t := Enter(s, record, hosts, ips);
    EnterHeld(s, record, hosts, ips, e1);
    forall h | h in t.cache.slots ensures Filed(t, h) {
      if h != record.domain {
        assert Filed(s, h) && s.cache.slots[h].value.fakeIp in Held(s);
      }
    }
  }

  lemma EnterHeld(s: State, record: Record, hosts: L.Cache<string, Record>, ips: L.Cache<Addr, Record>, e: int)
    requires record.domain !in s.cache.slots && hosts.slots == s.cache.slots[record.domain := L.Slot(record, e)]
    ensures Held(Enter(s, record, hosts, ips)) == Held(s) + {record.fakeIp}
  {
    var t := Enter(s, record, hosts, ips);
    assert t.cache.slots[record.domain].value.fakeIp == record.fakeIp;
    forall x | x in Held(s) ensures x in Held(t) {
      var g :| g in s.cache.slots && s.cache.slots[g].value.fakeIp == x;
      assert g in t.cache.slots && t.cache.slots[g] == s.cache.slots[g];
    }
  }

  /** Making room for a new host is evicting the victim, if there is one. */
  ghost function MakeRoom(s: State): State
    requires Sound(s.pool) && L.Consistent(s.cache)
  {
    if |s.cache.lru| == OPTIONS.maxSize then
      assert s.cache.lru[0] in L.Elements(s.cache.lru);
      Evict(s, s.cache.lru[0])
    else s
  }

  lemma MakeRoomBalanced(s: State, reserved: set<Addr>)
    requires Balanced(s, reserved)
    ensures Balanced(MakeRoom(s), reserved)
  {
    if |s.cache.lru| == OPTIONS.maxSize {
      assert s.cache.lru[0] in L.Elements(s.cache.lru);
      EvictBalanced(s, s.cache.lru[0], reserved);
    }
  }

  lemma SetMakesRoom(s: State, record: Record, now: int)
    requires Sound(s.pool) && L.WellFormed(OPTIONS, s.cache) && record.domain !in s.cache.slots
    ensures var out := L.Set(OPTIONS, s.cache, record.domain, record, now);
            var room := MakeRoom(s);
            && out.cache.slots == room.cache.slots[record.domain := L.Slot(record, now + OPTIONS.expiration)]
            && WithHosts(s, out) == room.(cache := out.cache)
            && record.domain !in room.cache.slots
  {
    var out := L.Set(OPTIONS, s.cache, record.domain, record, now);
    if |s.cache.lru| == OPTIONS.maxSize {
      assert s.cache.lru[0] in L.Elements(s.cache.lru);
      ReleaseOne(s.pool, out.evicted[0]);
      assert out.evicted == [out.evicted[0]];
    }
  }

  lemma SetSlots(c: L.Cache<Addr, Record>, ip: Addr, record: Record, now: int)
    requires L.WellFormed(OPTIONS, c)
    ensures var r := L.Set(OPTIONS, c, ip, record, now).cache.slots;
            forall x :: x in r ==> if x == ip then r[x].value == record else x in c.slots && r[x] == c.slots[x]
  {
  }

  lemma QueryValid(checksum: string -> u32, s: State, host: string, t1: int, t2: int, t3: int)
    requires Valid(s)
    ensures Valid(Query(checksum, s, host, t1, t2, t3).0)
  {
    hide Index, Allocate, Release, L.Set, L.Get, ReleaseAll, L.Consistent;
    var reserved := {s.tun, s.dns};
    FindBalanced(s, host, t1, reserved);
    var (s1, found) := Find(s, host, t1);
    var (pool, ip) := Allocate(s1.pool, checksum(host));
    AllocateContract(s1.pool, checksum(host));
    if found == None && ip.Some? {
      var record := Record(host, ip.value);
      AllocateTaken(s1.pool, ip.value, pool);
      var s2 := s1.(pool := pool);
      PoolBalanced(s1, pool, ip.value, reserved);
      MakeRoomBalanced(s2, reserved + {ip.value});
      SetMakesRoom(s2, record, t2);
      var hosts := L.Set(OPTIONS, s1.cache, host, record, t2).cache;
      var ips := L.Set(OPTIONS, s1.ipCache, ip.value, record, t3).cache;
      L.SetWellFormed(OPTIONS, s1.cache, host, record, t2);
      L.SetWellFormed(OPTIONS, s1.ipCache, ip.value, record, t3);
      SetSlots(s1.ipCache, ip.value, record, t3);
      EnterBalanced(MakeRoom(s2), record, hosts, ips, reserved, t2 + OPTIONS.expiration, t3 + OPTIONS.expiration);
      assert Query(checksum, s, host, t1, t2, t3).0 == Enter(MakeRoom(s2), record, hosts, ips);
    }
  }

  lemma PoolBalanced(s: State, pool: Pool, ip: Addr, reserved: set<Addr>)
    requires Balanced(s, reserved) && Sound(pool) && !Taken(s.pool, ip)
    requires forall x :: Taken(pool, x) <==> Taken(s.pool, x) || x == ip
    ensures Balanced(s.(pool := pool), reserved + {ip}) && ip !in reserved
  {
    var t := s.(pool := pool);
    assert Held(t) == Held(s);
    forall h | h in s.cache.slots ensures Filed(t, h) {
      assert Filed(s, h);
    }
  }

  lemma FindByIpValid(s: State, ip: Addr, t1: int, t2: int)
    requires Valid(s)
    ensures Valid(FindByIp(s, ip, t1, t2).0)
  {
    var reserved := {s.tun, s.dns};
    var (found, out) := L.Get(OPTIONS, s.ipCache, ip, t1);
    L.GetWellFormed(OPTIONS, s.ipCache, ip, t1);
    IpCacheBalanced(s, out.cache, reserved);
    if found.Hit? {
      FindBalanced(s.(ipCache := out.cache), found.value.domain, t2, reserved);
    }
  }

  lemma CleanIpsValid(s: State, order: seq<Addr>, now: int)
    requires Valid(s)
    ensures Valid(CleanIps(s, order, now))
  {
    L.SweepResult(s.ipCache, order, now);
    IpCacheBalanced(s, L.Sweep(s.ipCache, order, now).cache, {s.tun, s.dns});
  }

  // -------- setting up --------

  lemma AllocateForTaken(pool: Pool, ip: Addr)
    requires Sound(pool)
    ensures var (q, r) := AllocateFor(pool, ip);
            && (r == None <==> Index(pool, ip) == -1 && FirstFree(pool.flags) == -1)
            && (r.Some? ==>
                  && (Index(pool, ip) >= 0 ==> r.value == ip)
                  && (Index(pool, ip) == -1 ==> !Taken(pool, r.value) && r.value == AddrAt(pool, FirstFree(pool.flags)))
                  && Index(pool, r.value) >= 0 && q.hmin == pool.hmin && q.hmax == pool.hmax
                  && forall x :: Taken(q, x) <==> Taken(pool, x) || x == r.value)
  {
    var (q, r) := AllocateFor(pool, ip);
    if r.Some? {
      if Index(pool, ip) == -1 {
        IndexBijection(pool, ip, FirstFree(pool.flags));
      }
      AllocateTaken(pool, r.value, q);
    }
  }

  /** In a pool with at most one address taken, another is free: pools hold at least two. */
  lemma OneTakenLeavesRoom(pool: Pool, ip: Addr)
    requires Sound(pool) && forall x :: Taken(pool, x) ==> x == ip
    ensures FirstFree(pool.flags) != -1
  {
    if FirstFree(pool.flags) == -1 {
      IndexBijection(pool, ip, 0);
      IndexBijection(pool, ip, 1);
      assert Taken(pool, AddrAt(pool, 0)) && Taken(pool, AddrAt(pool, 1));
    }
  }

  lemma TopAddress(p: Prefix)
    requires 0 <= p.bits <= 31
    ensures var pool := NewPool(p).value;
            && (pool.hmax == 0xFFFF_FFFF ==> p.bits == 31)
            && (Index(pool, p.addr) == -1 ==> p.bits < 31)
  {
    BlockFits(p);
    BlockOf(IpToInt(p.addr), Span(p), IpToInt(p.addr) / Span(p));
  }

  lemma FreshPoolFree(p: Prefix)
    requires 0 <= p.bits <= 31
    ensures FirstFree(NewPool(p).value.flags) == 0
  {
  }

  lemma FreshValid(pool: Pool, tun: Addr, dns: Addr)
    requires Sound(pool) && tun != dns && forall ip :: Taken(pool, ip) <==> ip == tun || ip == dns
    ensures Valid(State(pool, L.Cache([], map[]), L.Cache([], map[]), tun, dns, map[]))
  {
  }

  /**
   A resolver can be set up for every prefix from /0 to /31 except 255.255.255.255/31, and starts out valid;
   the tunnel gets the prefix's own address if that is a usable host, and otherwise the first one.
   */
  lemma NewContract(p: Prefix)
    ensures New(p).Refused? <==> !(0 <= p.bits <= 31)
    ensures New(p).Panics? <==> p.bits == 31 && IpToInt(p.addr) == 0xFFFF_FFFF
    ensures New(p).Made? ==>
              && Valid(New(p).state) && New(p).state.cache.slots == map[]
              && New(p).state.tun == (if UsableHost(p, IpToInt(p.addr)) then p.addr else IntToIp(NewPool(p).value.hmin))
  {
    hide IpToInt, IntToIp, AllocateFor, FirstFree, Span, Valid;
    PoolSpansUsableHosts(p, IpToInt(p.addr));
    if 0 <= p.bits <= 31 {
      var pool := NewPool(p).value;
      TopAddress(p);
      AllocateForTaken(pool, p.addr);
      OneTakenLeavesRoom(pool, p.addr);
      var (p1, tun) := AllocateFor(pool, p.addr);
      FreshPoolFree(p);
      IndexBijection(pool, p.addr, 0);
      AddressBijection(0, tun.value);
      if IpToInt(tun.value) != 0xFFFF_FFFF {
        var next := IntToIp(IpToInt(tun.value) + 1);
        AddressBijection(IpToInt(tun.value) + 1, next);
        AllocateForTaken(p1, next);
        OneTakenLeavesRoom(p1, tun.value);
        FreshValid(AllocateFor(p1, next).0, tun.value, AllocateFor(p1, next).1.value);
      }
    }
  }

  /** The DNS server gets the address after the tunnel's if that is usable, and otherwise the first one. */
  lemma DnsAddress(p: Prefix)
    requires New(p).Made?
    ensures var (pool, tun) := (NewPool(p).value, IpToInt(New(p).state.tun));
            IpToInt(New(p).state.dns) == if tun < pool.hmax then tun + 1 else pool.hmin
  {
    hide IpToInt, IntToIp, AllocateFor, FirstFree, Span;
    PoolSpansUsableHosts(p, IpToInt(p.addr));
    var pool := NewPool(p).value;
    var (p1, t) := AllocateFor(pool, p.addr);
    AllocateForTaken(pool, p.addr);
    var tun := t.value;
    AddressBijection(IpToInt(tun) + 1, tun);
    AllocateForTaken(p1, IntToIp(IpToInt(tun) + 1));
    if IpToInt(tun) == pool.hmax {
      LowestFree(p1, tun);
      AddressBijection(pool.hmin, tun);
    }
  }

  lemma LowestFree(pool: Pool, tun: Addr)
    requires Sound(pool) && IpToInt(tun) == pool.hmax && forall x :: Taken(pool, x) ==> x == tun
    ensures FirstFree(pool.flags) == 0 && AddrAt(pool, 0) == IntToIp(pool.hmin)
  {
    hide IpToInt, IntToIp;
    IndexBijection(pool, tun, 0);
    AddressBijection(pool.hmin, tun);
    assert !Taken(pool, AddrAt(pool, 0));
  }

  // -------- every run --------

  datatype Event =
    | Asked(host: string, t1: int, t2: int, t3: int)
    | LookedUp(ip: Addr, t1: int, t2: int)
    | HostsCleaned(hosts: seq<string>, now: int)
    | IpsCleaned(ips: seq<Addr>, now: int)

  ghost function Step(checksum: string -> u32, s: State, e: Event): State
    requires Valid(s)
  {
    match e
    case Asked(host, t1, t2, t3) => Query(checksum, s, host, t1, t2, t3).0
    case LookedUp(ip, t1, t2) => FindByIp(s, ip, t1, t2).0
    case HostsCleaned(hosts, now) => CleanHosts(s, hosts, now)
    case IpsCleaned(ips, now) => CleanIps(s, ips, now)
  }

  lemma StepValid(checksum: string -> u32, s: State, e: Event)
    requires Valid(s)
    ensures Valid(Step(checksum, s, e)) && Step(checksum, s, e).tun == s.tun && Step(checksum, s, e).dns == s.dns
  {
    match e
    case Asked(host, t1, t2, t3) => QueryValid(checksum, s, host, t1, t2, t3);
    case LookedUp(ip, t1, t2) => FindByIpValid(s, ip, t1, t2);
    case HostsCleaned(hosts, now) => SweepBalanced(s, hosts, now, {s.tun, s.dns});
    case IpsCleaned(ips, now) => CleanIpsValid(s, ips, now);
  }

  /** The state after a run of queries, lookups and clean-ups, with clocks that may read anything. */
  ghost function RunFrom(checksum: string -> u32, s: State, events: seq<Event>): (t: State)
    requires Valid(s)
    ensures Valid(t) && t.tun == s.tun && t.dns == s.dns
    decreases |events|
  {
    if events == [] then s
    else StepValid(checksum, s, events[0]); RunFrom(checksum, Step(checksum, s, events[0]), events[1..])
  }

  /**
   Over every run of every resolver: what is taken in the pool is exactly the tunnel's and the DNS server's
   address and those of the cached hosts; those two are distinct and never given out; no two hosts share one.
   */
  lemma AddressesConserved(checksum: string -> u32, p: Prefix, events: seq<Event>)
    requires 0 <= p.bits <= 31 && !(p.bits == 31 && IpToInt(p.addr) == 0xFFFF_FFFF)
    ensures New(p).Made? && Valid(New(p).state)
    ensures var s := RunFrom(checksum, New(p).state, events);
            && (forall ip :: Taken(s.pool, ip) <==> ip == s.tun || ip == s.dns || ip in Held(s))
            && s.tun != s.dns && s.tun !in Held(s) && s.dns !in Held(s)
            && (forall g, h :: g in s.cache.slots && h in s.cache.slots && g != h ==>
                  s.cache.slots[g].value.fakeIp != s.cache.slots[h].value.fakeIp)
  {
    hide New, RunFrom, Taken, Held, L.WellFormed;
    NewContract(p);
    var s := RunFrom(checksum, New(p).state, events);
    forall g, h | g in s.cache.slots && h in s.cache.slots && g != h
      ensures s.cache.slots[g].value.fakeIp != s.cache.slots[h].value.fakeIp
    {
      HostsShareNoAddress(s, g, h);
    }
  }

  /**
   A query either answers with the host's own record, cached from then on under an address that is taken, or
   fails, which happens exactly when the host has no live record and the pool is full.
   */
  lemma QueryAnswers(checksum: string -> u32, s: State, host: string, t1: int, t2: int, t3: int)
    requires Valid(s)
    ensures var (t, r) := Query(checksum, s, host, t1, t2, t3);
            && (r == None <==> Find(s, host, t1).1 == None && Free(Find(s, host, t1).0.pool.flags) == 0)
            && (r.Some? ==>
                  && r.value.domain == host && host in t.cache.slots && t.cache.slots[host].value == r.value
                  && t.latest[r.value.fakeIp] == r.value && r.value.fakeIp != s.tun && r.value.fakeIp != s.dns
                  && Sound(t.pool) && Taken(t.pool, r.value.fakeIp))
            && (host in s.cache.slots && t1 < s.cache.slots[host].expires ==> r == Some(s.cache.slots[host].value))
  {
    FindBalanced(s, host, t1, {s.tun, s.dns});
    QueryValid(checksum, s, host, t1, t2, t3);
    var (s1, found) := Find(s, host, t1);
    AllocateContract(s1.pool, checksum(host));
    var (t, r) := Query(checksum, s, host, t1, t2, t3);
    if r.Some? {
      if found == None {
        var (pool, ip) := Allocate(s1.pool, checksum(host));
        SetMakesRoom(s1.(pool := pool), r.value, t2);
      }
      assert Filed(t, host) && r.value.fakeIp in Held(t);
    }
  }

  /**
   In every valid state, a successful reverse lookup names the host most recently given the address, with the
   record that host has now. If a cached record holds the address the answer is that very record; the answer
   carries the address asked for exactly when some cached record holds it.
   */
  lemma ReverseLookup(s: State, ip: Addr, t1: int, t2: int)
    requires Valid(s) && FindByIp(s, ip, t1, t2).1.Some?
    ensures var r := FindByIp(s, ip, t1, t2).1.value;
            && ip in s.latest && r.domain == s.latest[ip].domain
            && r.domain in s.cache.slots && s.cache.slots[r.domain].value == r
            && (forall h :: h in s.cache.slots && s.cache.slots[h].value.fakeIp == ip ==> r == s.cache.slots[h].value)
            && (r.fakeIp == ip <==> ip in Held(s))
  {
    var (found, out) := L.Get(OPTIONS, s.ipCache, ip, t1);
    L.GetWellFormed(OPTIONS, s.ipCache, ip, t1);
    IpCacheBalanced(s, out.cache, {s.tun, s.dns});
    FindBalanced(s.(ipCache := out.cache), found.value.domain, t2, {s.tun, s.dns});
    forall h | h in s.cache.slots && s.cache.slots[h].value.fakeIp == ip
      ensures s.latest[ip] == s.cache.slots[h].value && s.cache.slots[h].value.domain == h
    {
      assert Filed(s, h);
    }
    var r := FindByIp(s, ip, t1, t2).1.value;
    if ip in Held(s) {
      var h :| h in s.cache.slots && s.cache.slots[h].value.fakeIp == ip;
    }
  }

  /** A reverse lookup answers exactly if the address has a live entry and the host it names has a live record. */
  lemma FoundIff(s: State, ip: Addr, t1: int, t2: int)
    requires Sound(s.pool)
    ensures FindByIp(s, ip, t1, t2).1.Some? <==>
            && ip in s.ipCache.slots && t1 < s.ipCache.slots[ip].expires
            && var host := s.ipCache.slots[ip].value.domain;
            host in s.cache.slots && t2 < s.cache.slots[host].expires
    ensures FindByIp(s, ip, t1, t2).1.Some? ==>
              FindByIp(s, ip, t1, t2).1.value == s.cache.slots[s.ipCache.slots[ip].value.domain].value
  {
    hide L.Drop, L.Bump, Release;
  }

  /**
   What a query for a host without a live record does, if an address is free: the host gets the address allocated for
   its checksum, in both caches, for a minute each; hosts already cached stay unless there are 4096.
   */
  lemma QueryNew(checksum: string -> u32, s: State, host: string, t1: int, t2: int, t3: int)
    requires Valid(s) && Find(s, host, t1).1 == None && Query(checksum, s, host, t1, t2, t3).1.Some?
    ensures var s1 := Find(s, host, t1).0;
            var (t, r) := Query(checksum, s, host, t1, t2, t3);
            && Sound(s1.pool) && L.Consistent(s1.cache) && host !in s1.cache.slots
            && r.value.domain == host && Allocate(s1.pool, checksum(host)).1 == Some(r.value.fakeIp)
            && host in t.cache.slots && t.cache.slots[host] == L.Slot(r.value, t2 + 60_000_000_000)
            && r.value.fakeIp in t.ipCache.slots && t.ipCache.slots[r.value.fakeIp] == L.Slot(r.value, t3 + 60_000_000_000)
            && (|s1.cache.lru| < 4096 ==> t.cache.slots == s1.cache.slots[host := L.Slot(r.value, t2 + 60_000_000_000)])
            && (|s1.cache.lru| == 4096 ==>
                  t.cache.slots == (s1.cache.slots - {s1.cache.lru[0]})[host := L.Slot(r.value, t2 + 60_000_000_000)])
  {
    hide Index, Allocate, Release, L.Set, L.Get, ReleaseAll;
    FindBalanced(s, host, t1, {s.tun, s.dns});
    var s1 := Find(s, host, t1).0;
    var (pool, ip) := Allocate(s1.pool, checksum(host));
    L.SetSlots(OPTIONS, s1.cache, host, Record(host, ip.value), t2);
    L.SetSlots(OPTIONS, s1.ipCache, ip.value, Record(host, ip.value), t3);
  }

  /** Asking for a host and looking up the address it was given, within both lifetimes, gives that record back. */
  lemma AskThenLookUp(checksum: string -> u32, s: State, host: string, t1: int, t2: int, t3: int, u1: int, u2: int)
    requires Valid(s) && Find(s, host, t1).1 == None && Query(checksum, s, host, t1, t2, t3).1.Some?
    requires u1 < t3 + 60_000_000_000 && u2 < t2 + 60_000_000_000
    ensures var (t, r) := Query(checksum, s, host, t1, t2, t3);
            Sound(t.pool) && FindByIp(t, r.value.fakeIp, u1, u2).1 == r
  {
    hide Query, Find, FindByIp, Allocate, L.WellFormed, Taken;
    QueryNew(checksum, s, host, t1, t2, t3);
    QueryValid(checksum, s, host, t1, t2, t3);
    var (t, r) := Query(checksum, s, host, t1, t2, t3);
    FoundIff(t, r.value.fakeIp, u1, u2);
  }

  /** Cleaning up, in any order, leaves exactly the hosts that have not expired, and takes back exactly the others' addresses. */
  lemma CleanedHosts(s: State, order: seq<string>, now: int)
    requires Valid(s) && L.Elements(order) == s.cache.slots.Keys
    ensures var t := CleanHosts(s, order, now);
            && Valid(t) && t.cache.slots == (map h | h in s.cache.slots && s.cache.slots[h].expires > now :: s.cache.slots[h])
            && (forall ip :: Taken(t.pool, ip) <==>
                  ip == s.tun || ip == s.dns || exists h :: h in s.cache.slots && s.cache.slots[h].expires > now && s.cache.slots[h].value.fakeIp == ip)
  {
    hide Taken, ReleaseAll;
    SweepBalanced(s, order, now, {s.tun, s.dns});
    L.SweepResult(s.cache, order, now);
    var t := CleanHosts(s, order, now);
    assert forall h :: h in s.cache.slots ==> h in L.Elements(order);
    forall ip ensures ip in Held(t) <==>
                        exists h :: h in s.cache.slots && s.cache.slots[h].expires > now && s.cache.slots[h].value.fakeIp == ip
    {
      if h :| h in s.cache.slots && s.cache.slots[h].expires > now && s.cache.slots[h].value.fakeIp == ip {
        assert h in t.cache.slots;
      }
    }
  }

  /** Cleaning up the address cache leaves exactly the entries that have not expired, and the hosts alone. */
  lemma CleanedIps(s: State, order: seq<Addr>, now: int)
    requires Valid(s) && L.Elements(order) == s.ipCache.slots.Keys
    ensures var t := CleanIps(s, order, now);
            && t == s.(ipCache := t.ipCache)
            && t.ipCache.slots == map ip | ip in s.ipCache.slots && s.ipCache.slots[ip].expires > now :: s.ipCache.slots[ip]
  {
    L.SweepResult(s.ipCache, order, now);
    assert forall ip :: ip in s.ipCache.slots ==> ip in L.Elements(order);
  }

  /** What a caller can check: the answer carries the address asked for exactly when that is taken in the pool. */
  lemma RightAddressIff(s: State, ip: Addr, t1: int, t2: int)
    requires Valid(s) && ip != s.tun && ip != s.dns && FindByIp(s, ip, t1, t2).1.Some?
    ensures FindByIp(s, ip, t1, t2).1.value.fakeIp == ip <==> Taken(s.pool, ip)
  {
    hide FindByIp, Taken, L.WellFormed;
    ReverseLookup(s, ip, t1, t2);
  }

  // -------- a reverse lookup that answers with another address --------

  /** The lifetime of a record, in nanoseconds. */
  const LIFE := OPTIONS.expiration

  /** A pool of at least four addresses with at most three taken is not full. */
  lemma RoomForOne(pool: Pool, a: Addr, b: Addr, c: Addr, checksum: u32)
    requires Sound(pool) && |pool.flags| >= 4 && forall x :: Taken(pool, x) ==> x == a || x == b || x == c
    ensures Allocate(pool, checksum).1.Some?
  {
    AllocateContract(pool, checksum);
    NoneFree(pool.flags);
    IndexBijection(pool, a, 0);
    IndexBijection(pool, a, 1);
    IndexBijection(pool, a, 2);
    IndexBijection(pool, a, 3);
    assert !(Taken(pool, AddrAt(pool, 0)) && Taken(pool, AddrAt(pool, 1)) && Taken(pool, AddrAt(pool, 2)) && Taken(pool, AddrAt(pool, 3)));
  }

  lemma NewHasRoom(p: Prefix)
    requires 0 <= p.bits <= 29
    ensures New(p).Made? && Valid(New(p).state) && |New(p).state.pool.flags| >= 4
    ensures var s := New(p).state; s.cache == L.Cache([], map[]) && s.ipCache == L.Cache([], map[])
  {
    hide IpToInt, IntToIp, FirstFree, Span, Index;
    NewContract(p);
    BlockFits(p);
  }

  /** Asking for a host that is not cached, with room in pool and caches. */
  lemma AskUncached(checksum: string -> u32, s: State, host: string, t1: int, t2: int, t3: int)
    requires Valid(s) && host !in s.cache.slots && |s.cache.lru| < 4096 && |s.ipCache.lru| < 4096
    requires Allocate(s.pool, checksum(host)).1.Some?
    ensures var (pool, ip) := Allocate(s.pool, checksum(host));
            var record := Record(host, ip.value);
            var t := Query(checksum, s, host, t1, t2, t3).0;
            && t.pool == pool && !Taken(s.pool, ip.value) && |t.ipCache.lru| <= |s.ipCache.lru| + 1
            && t.cache == L.Cache(s.cache.lru + [host], s.cache.slots[host := L.Slot(record, t2 + LIFE)])
            && t.ipCache.slots == s.ipCache.slots[ip.value := L.Slot(record, t3 + LIFE)]
            && t.tun == s.tun && t.dns == s.dns
  {
    hide Allocate, Index;
    AllocateContract(s.pool, checksum(host));
  }

  /** Asking for a host whose record has expired first gives its address back. */
  lemma AskExpired(checksum: string -> u32, s: State, host: string, now: int)
    requires Valid(s) && host in s.cache.slots && s.cache.slots[host].expires <= now
    ensures Valid(Evict(s, host)) && host !in Evict(s, host).cache.slots
    ensures Query(checksum, s, host, now, now, now) == Query(checksum, Evict(s, host), host, now, now, now)
  {
    hide Allocate, Index, Release;
    EvictBalanced(s, host, {s.tun, s.dns});
    var out := L.Get(OPTIONS, s.cache, host, now).1;
    ReleaseOne(s.pool, out.evicted[0]);
    assert out.evicted == [out.evicted[0]];
    assert Find(s, host, now).0 == Evict(s, host);
  }

  /**
   Two hosts with one checksum: c is asked for and then a, which therefore gets another address; c expires; a
   expires too and is asked for again, and now gets the address c had.
   */
  function StaleRun(a: string, c: string): seq<Event> {
    [Asked(c, 0, 0, 0), Asked(a, 0, 1, 2), HostsCleaned([c, a], LIFE), Asked(a, LIFE + 1, LIFE + 1, LIFE + 1)]
  }

  lemma TakenTwice(pool: Pool, checksum: u32)
    requires Sound(pool) && Allocate(pool, checksum).1.Some?
    requires Allocate(Allocate(pool, checksum).0, checksum).1.Some?
    ensures var (p1, x) := Allocate(pool, checksum);
            var (p2, y) := Allocate(p1, checksum);
            && x != y && Taken(p1, x.value)
            && Release(Release(p2, x.value).0, y.value).0 == pool
  {
    hide Allocate;
    var (p1, x) := Allocate(pool, checksum);
    AllocateContract(pool, checksum);
    AllocateContract(p1, checksum);
    var (p2, y) := Allocate(p1, checksum);
    var i, j := Index(pool, x.value), Index(pool, y.value);
    assert p2.flags[i := false][j := false] == pool.flags;
  }
  /** The state after both hosts were asked for: c has x and a has y. */
  ghost predicate BothAsked(s: State, a: string, c: string, x: Addr, y: Addr) {
    && s.cache == L.Cache([c, a], map[c := L.Slot(Record(c, x), LIFE), a := L.Slot(Record(a, y), LIFE + 1)])
    && s.ipCache.slots == map[x := L.Slot(Record(c, x), LIFE), y := L.Slot(Record(a, y), LIFE + 2)]
    && |s.ipCache.lru| <= 2 && x != y
  }

  lemma AskFirst(checksum: string -> u32, s: State, c: string) returns (x: Addr)
    requires Valid(s) && s.cache == L.Cache([], map[]) && s.ipCache == L.Cache([], map[]) && |s.pool.flags| >= 4
    ensures var (p1, ip) := Allocate(s.pool, checksum(c));
            var s1 := Query(checksum, s, c, 0, 0, 0).0;
            && ip == Some(x) && Valid(s1) && s1.pool == p1 && s1.tun == s.tun && s1.dns == s.dns
            && s1.cache == L.Cache([c], map[c := L.Slot(Record(c, x), LIFE)])
            && s1.ipCache.slots == map[x := L.Slot(Record(c, x), LIFE)] && |s1.ipCache.lru| <= 1
            && |p1.flags| >= 4 && forall ip :: Taken(p1, ip) ==> ip == s.tun || ip == s.dns || ip == x
  {
    hide Allocate, Query, Index, Release, L.WellFormed, FirstFree;
    RoomForOne(s.pool, s.tun, s.dns, s.tun, checksum(c));
    AskUncached(checksum, s, c, 0, 0, 0);
    QueryValid(checksum, s, c, 0, 0, 0);
    AllocateContract(s.pool, checksum(c));
    var (p1, ip) := Allocate(s.pool, checksum(c));
    AllocateTaken(s.pool, ip.value, p1);
    x := ip.value;
    assert [] + [c] == [c];
  }

  lemma AskBoth(checksum: string -> u32, s: State, a: string, c: string) returns (x: Addr, y: Addr)
    requires Valid(s) && s.cache == L.Cache([], map[]) && s.ipCache == L.Cache([], map[]) && |s.pool.flags| >= 4
    requires a != c && checksum(a) == checksum(c)
    ensures var s1 := Step(checksum, s, Asked(c, 0, 0, 0));
            && Valid(s1) && var s2 := Step(checksum, s1, Asked(a, 0, 1, 2));
            && Valid(s2) && BothAsked(s2, a, c, x, y)
            && Allocate(s.pool, checksum(a)).1 == Some(x) && Release(Release(s2.pool, x).0, y).0 == s.pool
  {
    hide Allocate, Query, Index, Release, L.WellFormed, FirstFree, Taken, Held;
    var k := checksum(a);
    x := AskFirst(checksum, s, c);
    var s1 := Step(checksum, s, Asked(c, 0, 0, 0));
    RoomForOne(s1.pool, s.tun, s.dns, x, k);
    AskUncached(checksum, s1, a, 0, 1, 2);
    QueryValid(checksum, s1, a, 0, 1, 2);
    TakenTwice(s.pool, k);
    assert [c] + [a] == [c, a];
    y := Allocate(s1.pool, k).1.value;
  }

  /** The clean-up evicts c and leaves a. */
  lemma CleanOne(s: State, a: string, c: string, x: Addr, y: Addr)
    requires Valid(s) && a != c && BothAsked(s, a, c, x, y)
    ensures CleanHosts(s, [c, a], LIFE) == Evict(s, c)
    ensures Evict(s, c).cache == L.Cache([a], map[a := L.Slot(Record(a, y), LIFE + 1)])
  {
    hide Release, Index, Taken, Held, L.WellFormed;
    var order := [c, a];
    assert order[1..] == [a] && [a][1..] == [];
    var left := L.Drop(s.cache, c);
    assert left == L.Cache([a], map[a := L.Slot(Record(a, y), LIFE + 1)]);
    assert L.Sweep(left, [a], LIFE) == L.Outcome(left, []);
    assert L.Sweep(s.cache, order, LIFE) == L.Outcome(left, [(c, Record(c, x))]);
    ReleaseOne(s.pool, (c, Record(c, x)));
  }

  /** The host asked for again gets x, while the address cache still maps y to it. */
  lemma AskAgain(checksum: string -> u32, s: State, a: string, x: Addr, y: Addr, pool: Pool)
    requires Valid(s) && s.cache == L.Cache([a], map[a := L.Slot(Record(a, y), LIFE + 1)]) && |s.ipCache.lru| <= 2 && x != y
    requires y in s.ipCache.slots && s.ipCache.slots[y] == L.Slot(Record(a, y), LIFE + 2)
    requires Release(s.pool, y).0 == pool && Allocate(pool, checksum(a)).1 == Some(x)
    ensures var t := Query(checksum, s, a, LIFE + 1, LIFE + 1, LIFE + 1).0;
            && Valid(t) && FindByIp(t, y, LIFE + 1, LIFE + 1).1 == Some(Record(a, x))
  {
    hide Allocate, Query, Index, Release, L.WellFormed, FirstFree, Taken, NewRecord;
    QueryValid(checksum, s, a, LIFE + 1, LIFE + 1, LIFE + 1);
    AskExpired(checksum, s, a, LIFE + 1);
    AskUncached(checksum, Evict(s, a), a, LIFE + 1, LIFE + 1, LIFE + 1);
  }

  lemma FourSteps(checksum: string -> u32, s: State, e1: Event, e2: Event, e3: Event, e4: Event)
    requires Valid(s)
    requires Valid(Step(checksum, s, e1)) && Valid(Step(checksum, Step(checksum, s, e1), e2))
    requires Valid(Step(checksum, Step(checksum, Step(checksum, s, e1), e2), e3))
    ensures RunFrom(checksum, s, [e1, e2, e3, e4])
         == Step(checksum, Step(checksum, Step(checksum, Step(checksum, s, e1), e2), e3), e4)
  {
    hide Step, Valid;
    var s1 := Step(checksum, s, e1);
    var s2 := Step(checksum, s1, e2);
    var s3 := Step(checksum, s2, e3);
    assert [e1, e2, e3, e4][1..] == [e2, e3, e4] && [e2, e3, e4][1..] == [e3, e4] && [e3, e4][1..] == [e4] && [e4][1..] == [];
    StepValid(checksum, s3, e4);
    assert RunFrom(checksum, s3, [e4]) == RunFrom(checksum, Step(checksum, s3, e4), []);
    assert RunFrom(checksum, s2, [e3, e4]) == RunFrom(checksum, s3, [e4]);
    assert RunFrom(checksum, s1, [e2, e3, e4]) == RunFrom(checksum, s2, [e3, e4]);
  }

  /**
   It does happen: with any prefix up to /29, and any two hosts with one checksum, there is a run after which the
   reverse lookup of an address that was given to a host answers with that host's record under another address.
   */
  lemma StaleReverseLookup(checksum: string -> u32, p: Prefix, a: string, c: string) returns (x: Addr, y: Addr)
    requires 0 <= p.bits <= 29 && a != c && checksum(a) == checksum(c)
    ensures New(p).Made? && Valid(New(p).state) && x != y
    ensures var s := RunFrom(checksum, New(p).state, StaleRun(a, c));
            FindByIp(s, y, LIFE + 1, LIFE + 1).1 == Some(Record(a, x))
  {
    hide New, Valid, BothAsked, Query, CleanHosts, Release, Allocate, RunFrom, FindByIp;
    NewHasRoom(p);
    var s := New(p).state;
    x, y := AskBoth(checksum, s, a, c);
    var e1, e2 := Asked(c, 0, 0, 0), Asked(a, 0, 1, 2);
    var s2 := Step(checksum, Step(checksum, s, e1), e2);
    StaleAfter(checksum, s2, a, c, x, y, s.pool);
    FourSteps(checksum, s, e1, e2, HostsCleaned([c, a], LIFE), Asked(a, LIFE + 1, LIFE + 1, LIFE + 1));
  }

  lemma StaleAfter(checksum: string -> u32, s: State, a: string, c: string, x: Addr, y: Addr, pool: Pool)
    requires Valid(s) && a != c && BothAsked(s, a, c, x, y) && Sound(pool)
    requires Allocate(pool, checksum(a)).1 == Some(x) && Release(Release(s.pool, x).0, y).0 == pool
    ensures var s3 := Step(checksum, s, HostsCleaned([c, a], LIFE));
            && Valid(s3) && x != y
            && var s4 := Step(checksum, s3, Asked(a, LIFE + 1, LIFE + 1, LIFE + 1));
            FindByIp(s4, y, LIFE + 1, LIFE + 1).1 == Some(Record(a, x))
  {
    hide Query, CleanHosts, Release, Allocate, FindByIp, L.WellFormed, Taken;
    CleanOne(s, a, c, x, y);
    EvictBalanced(s, c, {s.tun, s.dns});
    AskAgain(checksum, Evict(s, c), a, x, y, pool);
  }

  // -------- the resolver as the source runs it --------

  class Resolver {
    const checksum: string -> u32
    const pool: AddressPool
    const cache: L.LruCache<string, Record>
    const ipCache: L.LruCache<Addr, Record>
    const tun: Addr
    const dns: Addr
    ghost var latest: map<Addr, Record>

    ghost function View(): State
      reads this, pool, pool.flags, cache, ipCache
    {
      State(pool.View(), cache.View(), ipCache.View(), tun, dns, latest)
    }

    /** The parts are separate objects, with the options the resolver sets. */
    ghost predicate Wired()
      reads this, pool, pool.flags, cache, ipCache
    {
      && cache as object != ipCache && cache.o == OPTIONS && ipCache.o == OPTIONS
      && pool.Valid() && cache.Valid() && ipCache.Valid()
    }

    ghost predicate Ready()
      reads this, pool, pool.flags, cache, ipCache
    {
      Wired() && Valid(View())
    }

    constructor (checksum: string -> u32, p: Prefix)
      requires 0 <= p.bits <= 31 && !(p.bits == 31 && IpToInt(p.addr) == 0xFFFF_FFFF)
      ensures New(p).Made? && Ready() && View() == New(p).state && this.checksum == checksum
      ensures fresh(pool) && fresh(pool.flags) && fresh(cache) && fresh(ipCache)
    {
      NewContract(p);
      this.checksum := checksum;
      var addresses := new AddressPool(p);
      var t := addresses.ClaimFor(p.addr);
      var d := addresses.ClaimFor(IntToIp(IpToInt(t.value) + 1));
      pool, tun, dns := addresses, t.value, d.value;
      cache := new L.LruCache<string, Record>(OPTIONS);
      ipCache := new L.LruCache<Addr, Record>(OPTIONS);
      latest := map[];
    }

    /** The eviction callback, for the evictions of one cache operation. */
    method OnRelease(evicted: seq<(string, Record)>)
      requires pool.Valid()
      modifies pool.flags
      ensures pool.Valid() && pool.View() == ReleaseAll(old(pool.View()), evicted)
    {
      assert evicted[0..] == evicted;
      for i := 0 to |evicted|
        invariant pool.Valid() && ReleaseAll(pool.View(), evicted[i..]) == ReleaseAll(old(pool.View()), evicted)
      {
        assert evicted[i..][1..] == evicted[i + 1..];
        var _ := pool.ReleaseIp(evicted[i].1.fakeIp);
      }
    }

    method FindHost(host: string, now: int) returns (r: Option<Record>)
      requires Wired()
      modifies pool.flags, cache
      ensures Wired() && (View(), r) == Find(old(View()), host, now)
    {
      var found, evicted := cache.Lookup(host, now);
      OnRelease(evicted);
      r := if found.Hit? then Some(found.value) else None;
    }

    method MakeRecord(host: string, t2: int, t3: int) returns (r: Option<Record>)
      requires Wired()
      modifies this`latest, pool.flags, cache, ipCache
      ensures Wired()
      ensures (View(), r) == NewRecord(checksum, old(View()), host, t2, t3)
    {
      var ip := pool.AllocateIp(checksum(host));
      if ip == None {
        return None;
      }
      var record := Record(host, ip.value);
      var evicted, _ := cache.Store(host, record, t2);
      OnRelease(evicted);
      var _, _ := ipCache.Store(ip.value, record, t3);
      latest := latest[ip.value := record];
      r := Some(record);
    }

    /** Answers a query; every reachable state stays balanced. */
    method Ask(host: string, t1: int, t2: int, t3: int) returns (r: Option<Record>)
      requires Ready()
      modifies this`latest, pool.flags, cache, ipCache
      ensures Ready() && (View(), r) == Query(checksum, old(View()), host, t1, t2, t3)
    {
      QueryValid(checksum, View(), host, t1, t2, t3);
      FindBalanced(View(), host, t1, {tun, dns});
      r := FindHost(host, t1);
      if r == None {
        r := MakeRecord(host, t2, t3);
      }
    }

    method LookUp(ip: Addr, t1: int, t2: int) returns (r: Option<Record>)
      requires Ready()
      modifies pool.flags, cache, ipCache
      ensures Ready() && (View(), r) == FindByIp(old(View()), ip, t1, t2)
    {
      FindByIpValid(View(), ip, t1, t2);
      var found, _ := ipCache.Lookup(ip, t1);
      if !found.Hit? {
        return None;
      }
      r := FindHost(found.value.domain, t2);
    }

    /** The background clean-up of the host cache; every address it frees goes back to the pool. */
    method CleanUpHosts(order: seq<string>, now: int)
      requires Ready() && L.Distinct(order) && L.Elements(order) == cache.cache.Keys
      modifies pool.flags, cache
      ensures Ready() && View() == CleanHosts(old(View()), order, now)
    {
      SweepBalanced(View(), order, now, {tun, dns});
      var evicted := cache.Cleanup(order, now);
      OnRelease(evicted);
    }

    method CleanUpIps(order: seq<Addr>, now: int)
      requires Ready() && L.Distinct(order) && L.Elements(order) == ipCache.cache.Keys
      modifies ipCache
      ensures Ready() && View() == CleanIps(old(View()), order, now)
    {
      CleanIpsValid(View(), order, now);
      var _ := ipCache.Cleanup(order, now);
    }
  }
}
