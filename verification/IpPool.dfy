/** The pool of addresses behind the fake DNS answers (resolver/pool.go), for IPv4 prefixes. */
module IpPool {
  import opened Common
  import opened Bytes
  import opened Bits

  // -------- addresses and prefixes --------

  /** The four bytes of an address, most significant first. */
  datatype Addr = Addr(a: byte, b: byte, c: byte, d: byte)

  function IntToIp(v: u32): Addr {
    Addr(v / 0x100_0000, v / 0x1_0000 % 256, v / 0x100 % 256, v % 256)
  }

  function IpToInt(ip: Addr): u32 {
    ip.a as int * 0x100_0000 + ip.b as int * 0x1_0000 + ip.c as int * 0x100 + ip.d as int
  }

  /** Addresses and 32-bit numbers are in one-to-one correspondence. */
  lemma AddressBijection(v: u32, ip: Addr)
    ensures IpToInt(IntToIp(v)) == v && IntToIp(IpToInt(ip)) == ip
  {
    BytesOfWord(ip.a, ip.b, ip.c, ip.d);
    WordOfBytes(v);
  }

  lemma BytesOfWord(a: int, b: int, c: int, d: int)
    requires 0 <= a < 256 && 0 <= b < 256 && 0 <= c < 256 && 0 <= d < 256
    ensures var w := a * 0x100_0000 + b * 0x1_0000 + c * 0x100 + d;
            w / 0x100_0000 == a && w / 0x1_0000 % 256 == b && w / 0x100 % 256 == c && w % 256 == d
  {
    var w := a * 0x100_0000 + b * 0x1_0000 + c * 0x100 + d;
    assert w / 0x100 == a * 0x1_0000 + b * 0x100 + c;
    assert w / 0x1_0000 == a * 0x100 + b;
  }

  datatype Prefix = Prefix(addr: Addr, bits: int)

  predicate IsValid(p: Prefix) {
    0 <= p.bits <= 32
  }

  /** The number of addresses a prefix spans. */
  function Span(p: Prefix): (n: nat)
    requires IsValid(p)
    ensures n > 0
  {
    Pow2(32 - p.bits)
  }

  function Base(p: Prefix): int
    requires IsValid(p)
  {
    IpToInt(p.addr) / Span(p) * Span(p)
  }

  /** A usable host address: inside the prefix, and not its first or last unless the prefix holds only two. */
  ghost predicate UsableHost(p: Prefix, v: u32)
    requires IsValid(p)
  {
    && v / Span(p) == IpToInt(p.addr) / Span(p)
    && (p.bits >= 31 || (v % Span(p) != 0 && v % Span(p) != Span(p) - 1))
  }

  lemma {:induction false} Pow2Adds(m: nat, n: nat)
    ensures Pow2(m + n) == Pow2(m) * Pow2(n)
  {
    if m > 0 {
      Pow2Adds(m - 1, n);
      assert Pow2(m) * Pow2(n) == 2 * (Pow2(m - 1) * Pow2(n));
    }
  }

  lemma LastBlock(v: nat, s: nat, blocks: nat)
    requires s > 0 && v < blocks * s
    ensures v / s * s <= v && v / s * s + s <= blocks * s
  {
    BlockOf(v, s, v / s);
    if v / s >= blocks {
      MulMonotone(blocks, v / s, s);
    }
    MulMonotone(v / s + 1, blocks, s);
  }

  lemma BlocksFillSpace(bits: nat)
    requires bits <= 32
    ensures Pow2(bits) * Pow2(32 - bits) == 0x1_0000_0000
  {
    hide Pow2;
    Pow2Adds(bits, 32 - bits);
    Pow2Adds(16, 16);
    Pow2Values();
  }

  /** The block of a prefix ends within the address space. */
  lemma BlockFits(p: Prefix)
    requires IsValid(p)
    ensures 0 <= Base(p) <= IpToInt(p.addr) && Base(p) + Span(p) <= 0x1_0000_0000
    ensures p.bits == 32 ==> Span(p) == 1
    ensures p.bits == 31 ==> Span(p) == 2
    ensures p.bits < 31 ==> Span(p) >= 4
    ensures p.bits < 30 ==> Span(p) >= 8
  {
    hide IpToInt, Pow2;
    BlocksFillSpace(p.bits);
    LastBlock(IpToInt(p.addr), Span(p), Pow2(p.bits));
    SmallSpans(32 - p.bits);
  }

  lemma SmallSpans(h: nat)
    ensures h == 0 ==> Pow2(h) == 1
    ensures h == 1 ==> Pow2(h) == 2
    ensures h > 1 ==> Pow2(h) >= 4
    ensures h > 2 ==> Pow2(h) >= 8
  {
    if h > 1 {
      assert Pow2(h) == 2 * (2 * Pow2(h - 2));
      assert h > 2 ==> Pow2(h - 2) == 2 * Pow2(h - 3);
    }
  }

  // -------- the pool --------

  datatype Pool = Pool(hmin: u32, hmax: u32, bits: int, flags: seq<bool>)

  predicate Sound(p: Pool) {
    p.hmin < p.hmax && |p.flags| == p.hmax - p.hmin + 1
  }

  function NewPool(p: Prefix): (r: Option<Pool>)
    ensures r.Some? ==> Sound(r.value)
  {
    if !IsValid(p) || p.bits == 32 then None
    else
      BlockFits(p);
      var base := Base(p);
      var last := base + (Span(p) - 1);
      var (hmin, hmax) := if p.bits == 31 then (base, last) else (base + 1, last - 1);
      Some(Pool(hmin, hmax, p.bits, seq(hmax - hmin + 1, _ => false)))
  }

  /** A pool exists for every prefix from /0 to /31, and spans exactly its usable hosts. */
  lemma PoolSpansUsableHosts(p: Prefix, v: u32)
    ensures NewPool(p).Some? <==> 0 <= p.bits <= 31
    ensures NewPool(p).Some? ==> NewPool(p).value.bits == p.bits && forall i :: 0 <= i < |NewPool(p).value.flags| ==> !NewPool(p).value.flags[i]
    ensures NewPool(p).Some? ==> (NewPool(p).value.hmin <= v <= NewPool(p).value.hmax <==> UsableHost(p, v))
  {
    if NewPool(p).Some? {
      BlockFits(p);
      BlockOf(v, Span(p), IpToInt(p.addr) / Span(p));
    }
  }

  function Index(p: Pool, ip: Addr): (i: int)
    requires Sound(p)
    ensures -1 <= i < |p.flags|
  {
    var v := IpToInt(ip);
    if p.hmin <= v <= p.hmax then v - p.hmin else -1
  }

  function AddrAt(p: Pool, i: nat): Addr
    requires Sound(p) && i < |p.flags|
  {
    IntToIp(p.hmin + i)
  }

  /** Inside the pool, addresses and indices correspond one to one. */
  lemma IndexBijection(p: Pool, ip: Addr, i: nat)
    requires Sound(p) && i < |p.flags|
    ensures Index(p, AddrAt(p, i)) == i
    ensures Index(p, ip) >= 0 ==> AddrAt(p, Index(p, ip)) == ip
  {
    hide IntToIp, IpToInt;
    AddressBijection(p.hmin + i, ip);
    AddressBijection(0, ip);
  }

  // -------- what a prefix means, on the bits of an address --------

  /** Bit j of an address as it is written, the first of the four bytes and its most significant bit coming first. */
  ghost function AddrBit(ip: Addr, j: nat): nat
    requires j < 32
  {
    if j < 8 then Bit(ip.a, 7 - j) else if j < 16 then Bit(ip.b, 15 - j) else if j < 24 then Bit(ip.c, 23 - j) else Bit(ip.d, 31 - j)
  }

  lemma ByteBit(high: nat, b: byte, i: nat)
    requires i < 8
    ensures Bit(high * 256 + b, i) == Bit(b, i)
  {
    var w := high * 256 + b as int;
    assert Pow2(8) == 256 by { Pow2Values(); }
    assert w % 256 == b as int;
    ModBit(w, 8, i);
  }

  lemma ShiftBytes(w: nat, i: nat)
    ensures Bit(w, i + 8) == Bit(w / 0x100, i) && Bit(w, i + 16) == Bit(w / 0x1_0000, i) && Bit(w, i + 24) == Bit(w / 0x100_0000, i)
  {
    hide Pow2, Bit;
    assert Pow2(8) == 0x100 && Pow2(16) == 0x1_0000 by { Pow2Values(); }
    ShrBit(w, 8, i);
    ShrBit(w, 16, i);
    ShrBit(w / 0x1_0000, 8, i);
    ShrBit(w, 16, i + 8);
    assert w / 0x1_0000 / 0x100 == w / 0x100_0000;
  }

  /** The number of an address has the address's bits. */
  lemma WordBit(ip: Addr, i: nat)
    requires i < 32
    ensures Bit(IpToInt(ip), i) == AddrBit(ip, 31 - i)
  {
    hide Bit;
    var a, b, c, d := ip.a as int, ip.b as int, ip.c as int, ip.d as int;
    var w := IpToInt(ip);
    assert w / 0x100 == (a * 256 + b) * 256 + c && w / 0x1_0000 == a * 256 + b && w / 0x100_0000 == a;
    if i < 8 {
      assert w == ((a * 256 + b) * 256 + c) * 256 + d;
      ByteBit((a * 256 + b) * 256 + c, ip.d, i);
    } else if i < 16 {
      ShiftBytes(w, i - 8);
      ByteBit(a * 256 + b, ip.c, i - 8);
    } else if i < 24 {
      ShiftBytes(w, i - 16);
      ByteBit(a, ip.b, i - 16);
    } else {
      ShiftBytes(w, i - 24);
    }
  }

  /** Two addresses agree in their first n bits. */
  ghost predicate SamePrefix(x: Addr, y: Addr, n: int) {
    forall j :: 0 <= j < n && j < 32 ==> AddrBit(x, j) == AddrBit(y, j)
  }

  /** The bits of an address from the n-th on are all b. */
  ghost predicate HostBitsAre(x: Addr, n: int, b: nat) {
    forall j :: 0 <= j < 32 && n <= j ==> AddrBit(x, j) == b
  }

  lemma PrefixBits(x: Addr, y: Addr, n: nat)
    requires n <= 32
    ensures SamePrefix(x, y, n) <==> Agree(IpToInt(x), IpToInt(y), 32 - n, 32)
  {
    hide Bit, IpToInt, AddrBit;
    forall i | 0 <= i < 32
      ensures Bit(IpToInt(x), i) == AddrBit(x, 31 - i) && Bit(IpToInt(y), i) == AddrBit(y, 31 - i)
    {
      WordBit(x, i);
      WordBit(y, i);
    }
    if SamePrefix(x, y, n) {
      forall i | 32 - n <= i < 32 ensures Bit(IpToInt(x), i) == Bit(IpToInt(y), i) {
        assert AddrBit(x, 31 - i) == AddrBit(y, 31 - i);
      }
    }
    if Agree(IpToInt(x), IpToInt(y), 32 - n, 32) {
      forall j | 0 <= j < n ensures AddrBit(x, j) == AddrBit(y, j) {
        assert Bit(IpToInt(x), 31 - j) == Bit(IpToInt(y), 31 - j);
      }
    }
  }

  lemma HostBits(x: Addr, n: nat, b: nat)
    requires n <= 32
    ensures HostBitsAre(x, n, b) <==> AllAre(IpToInt(x), 0, 32 - n, b)
  {
    hide Bit, IpToInt, AddrBit;
    forall i | 0 <= i < 32 ensures Bit(IpToInt(x), i) == AddrBit(x, 31 - i) {
      WordBit(x, i);
    }
    if HostBitsAre(x, n, b) {
      forall i | 0 <= i < 32 - n ensures Bit(IpToInt(x), i) == b {
        assert AddrBit(x, 31 - i) == b;
      }
    }
    if AllAre(IpToInt(x), 0, 32 - n, b) {
      forall j | n <= j < 32 ensures AddrBit(x, j) == b {
        assert Bit(IpToInt(x), 31 - j) == b;
      }
    }
  }

  /**
   A pool is its prefix: it holds exactly the addresses that share the prefix's leading bits and whose remaining bits
   are neither all zero nor all one, or for a /31 both addresses.
   */
  lemma PoolIsPrefix(p: Prefix, ip: Addr)
    requires 0 <= p.bits <= 31
    ensures Index(NewPool(p).value, ip) >= 0 <==>
            SamePrefix(ip, p.addr, p.bits) && (p.bits == 31 || (!HostBitsAre(ip, p.bits, 0) && !HostBitsAre(ip, p.bits, 1)))
  {
    hide Bit, IpToInt, AddrBit, Pow2, Agree, AllAre, SamePrefix, HostBitsAre;
    var v := IpToInt(ip);
    PoolSpansUsableHosts(p, v);
    PrefixBits(ip, p.addr, p.bits);
    HostBits(ip, p.bits, 0);
    HostBits(ip, p.bits, 1);
    assert Pow2(32) == 0x1_0000_0000 by { Pow2Adds(16, 16); Pow2Values(); }
    SameBlock(v, IpToInt(p.addr), 32 - p.bits, 32);
    BlockEnds(v, 32 - p.bits);
  }

  function Free(flags: seq<bool>): nat {
    if flags == [] then 0 else Free(flags[1..]) + if flags[0] then 0 else 1
  }

  /** The first free index, or -1. */
  function FirstFree(flags: seq<bool>): (i: int)
    ensures -1 <= i < |flags|
    ensures i >= 0 ==> !flags[i] && forall j :: 0 <= j < i ==> flags[j]
    ensures i == -1 ==> forall j :: 0 <= j < |flags| ==> flags[j]
  {
    if flags == [] then -1
    else if !flags[0] then 0
    else
      var i := FirstFree(flags[1..]);
      if i == -1 then -1 else i + 1
  }

  /** Claims a given address if it is in range (even if it is taken), and otherwise the first free one. */
  function AllocateFor(p: Pool, ip: Addr): (r: (Pool, Option<Addr>))
    requires Sound(p)
    ensures Sound(r.0)
  {
    var i := Index(p, ip);
    if i != -1 then (p.(flags := p.flags[i := true]), Some(ip))
    else
      var j := FirstFree(p.flags);
      if j == -1 then (p, None) else (p.(flags := p.flags[j := true]), Some(AddrAt(p, j)))
  }

  /** Allocates the address a host's checksum points to, or else the first free one. */
  function Allocate(p: Pool, checksum: u32): (r: (Pool, Option<Addr>))
    requires Sound(p)
    ensures Sound(r.0)
  {
    var h := checksum % |p.flags|;
    var i := if p.flags[h] then FirstFree(p.flags) else h;
    if i == -1 then (p, None) else (p.(flags := p.flags[i := true]), Some(AddrAt(p, i)))
  }

  function Release(p: Pool, ip: Addr): (r: (Pool, bool))
    requires Sound(p)
    ensures Sound(r.0)
  {
    var i := Index(p, ip);
    if i != -1 then (p.(flags := p.flags[i := false]), true) else (p, false)
  }

  lemma {:induction false} FreeUpdate(flags: seq<bool>, i: nat, used: bool)
    requires i < |flags|
    ensures Free(flags[i := used]) == Free(flags) + (if used then 0 else 1) - (if flags[i] then 0 else 1)
  {
    if i > 0 {
      assert flags[i := used][1..] == flags[1..][i - 1 := used];
      FreeUpdate(flags[1..], i - 1, used);
    }
  }

  lemma {:induction false} NoneFree(flags: seq<bool>)
    ensures Free(flags) == 0 <==> forall i :: 0 <= i < |flags| ==> flags[i]
  {
    if flags != [] {
      NoneFree(flags[1..]);
      assert (forall i :: 0 <= i < |flags| ==> flags[i]) <==> flags[0] && forall i :: 0 <= i < |flags[1..]| ==> flags[1..][i];
    }
  }

  /**
   Allocation fails exactly when the pool is full; otherwise it returns an address that was free, takes that
   one and no other, and lowers the number available by one. A host gets the address its checksum points to
   whenever that is free, and otherwise the lowest free one.
   */
  lemma AllocateContract(p: Pool, checksum: u32)
    requires Sound(p)
    ensures var (q, ip) := Allocate(p, checksum);
            && (ip == None <==> Free(p.flags) == 0)
            && (ip == None ==> q == p)
            && (ip.Some? ==>
                  && Index(p, ip.value) >= 0 && !p.flags[Index(p, ip.value)]
                  && q == p.(flags := p.flags[Index(p, ip.value) := true])
                  && Free(q.flags) == Free(p.flags) - 1
                  && (!p.flags[checksum % |p.flags|] ==> Index(p, ip.value) == checksum % |p.flags|)
                  && (p.flags[checksum % |p.flags|] ==> forall j :: 0 <= j < Index(p, ip.value) ==> p.flags[j]))
  {
    NoneFree(p.flags);
    var h := checksum % |p.flags|;
    var i := if p.flags[h] then FirstFree(p.flags) else h;
    if i != -1 {
      IndexBijection(p, IntToIp(0), i);
      FreeUpdate(p.flags, i, true);
    }
  }

  /** Releasing a taken address frees that one and no other, and raises the number available by one. */
  lemma ReleaseFrees(p: Pool, ip: Addr)
    requires Sound(p) && Index(p, ip) >= 0 && p.flags[Index(p, ip)]
    ensures var (q, ok) := Release(p, ip);
            && ok && q == p.(flags := p.flags[Index(p, ip) := false])
            && Free(q.flags) == Free(p.flags) + 1
  {
    FreeUpdate(p.flags, Index(p, ip), false);
  }

  /** An address outside the pool is not released, and the pool stays as it is. */
  lemma ReleaseOutside(p: Pool, ip: Addr)
    requires Sound(p) && Index(p, ip) == -1
    ensures Release(p, ip) == (p, false)
  {
  }

  /** Releasing an address undoes the allocation that took it. */
  lemma ReleaseUndoesAllocate(p: Pool, checksum: u32)
    requires Sound(p) && Allocate(p, checksum).1.Some?
    ensures var (q, ip) := Allocate(p, checksum);
            Release(q, ip.value) == (p, true) && Free(Release(q, ip.value).0.flags) == Free(q.flags) + 1
  {
    AllocateContract(p, checksum);
    var (q, ip) := Allocate(p, checksum);
    var i := Index(p, ip.value);
    assert q.flags[i := false] == p.flags;
  }

  // -------- the pool as the source runs it --------

  class AddressPool {
    const hmin: u32
    const hmax: u32
    const bits: int
    const flags: array<bool>

    ghost function View(): Pool
      reads this, flags
    {
      Pool(hmin, hmax, bits, flags[..])
    }

    ghost predicate Valid()
      reads this, flags
    {
      Sound(View())
    }

    constructor (p: Prefix)
      requires 0 <= p.bits <= 31
      ensures NewPool(p).Some? && View() == NewPool(p).value && fresh(flags) && Valid()
    {
      BlockFits(p);
      var base := Base(p);
      var last := base + (Span(p) - 1);
      var lo, hi := base + 1, last - 1;
      if p.bits == 31 {
        lo, hi := base, last;
      }
      hmin, hmax, bits := lo, hi, p.bits;
      flags := new bool[hi - lo + 1](_ => false);
      new;
      assert flags[..] == seq(hi - lo + 1, _ => false);
    }

    method Available() returns (count: nat)
      ensures count == Free(flags[..])
    {
      count := 0;
      for i := 0 to flags.Length
        invariant count + Free(flags[i..]) == Free(flags[..])
      {
        assert flags[i..][1..] == flags[i + 1..];
        if !flags[i] {
          count := count + 1;
        }
      }
    }

    method FindFree() returns (index: int)
      ensures index == FirstFree(flags[..])
    {
      index := -1;
      for i := 0 to flags.Length
        invariant forall j :: 0 <= j < i ==> flags[j]
      {
        if !flags[i] {
          return i;
        }
      }
    }

    method IndexOf(ip: Addr) returns (i: int)
      requires Valid()
      ensures i == Index(View(), ip)
    {
      var v := IpToInt(ip);
      i := if v >= hmin && v <= hmax then v - hmin else -1;
    }

    method ClaimFor(ip: Addr) returns (r: Option<Addr>)
      requires Valid()
      modifies flags
      ensures Valid() && (View(), r) == AllocateFor(old(View()), ip)
    {
      hide IntToIp, IpToInt, Index, FirstFree;
      var index := IndexOf(ip);
      if index != -1 {
        flags[index] := true;
        return Some(ip);
      }
      index := FindFree();
      if index == -1 {
        return None;
      }
      flags[index] := true;
      r := Some(IntToIp(hmin + index));
    }

    method ReleaseIp(ip: Addr) returns (ok: bool)
      requires Valid()
      modifies flags
      ensures Valid() && (View(), ok) == Release(old(View()), ip)
    {
      hide IpToInt, Index;
      var index := IndexOf(ip);
      if index != -1 {
        flags[index] := false;
        return true;
      }
      return false;
    }

    method AllocateIp(checksum: u32) returns (r: Option<Addr>)
      requires Valid()
      modifies flags
      ensures Valid() && (View(), r) == Allocate(old(View()), checksum)
    {
      hide IntToIp, FirstFree;
      var index := checksum % flags.Length;
      if flags[index] {
        var free := FindFree();
        if free != -1 {
          index := free;
        }
      }
      if flags[index] {
        return None;
      }
      flags[index] := true;
      r := Some(IntToIp(hmin + index));
    }
  }
}
