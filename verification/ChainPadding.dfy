/**
 How much padding a chain frame carries (ssr/protocol/auth_chain_a.go and auth_chain_b.go).

 Both ends compute it from the previous frame's digest, so it has to depend on nothing else.
 */
module ChainPadding {
  import opened Common
  import opened Bytes
  import opened XorShift

  /** What computing a padding length yields: the length, the digest as left behind, the generator as left behind. */
  datatype Padding = Padding(len: nat, hash: Digest, rng: Rng)

  type Method = (nat, Digest, Rng) -> Padding

  /** The fallback range of padding for a payload of n bytes. */
  function Range(n: nat): (k: nat)
    ensures 31 <= k <= 1021
    ensures k == 31 <==> n > 1300
    ensures k == 127 <==> 900 < n <= 1300
    ensures k == 521 <==> 400 < n <= 900
    ensures k == 1021 <==> n <= 400
    ensures n <= 1440 ==> n + k <= 1471
  {
    if n > 1300 then 31 else if n > 900 then 127 else if n > 400 then 521 else 1021
  }

  function PaddingA(n: nat, hash: Digest, rng: Rng): Padding {
    if n > 1440 then Padding(0, hash, rng)
    else
      var r := Seeded(hash, n);
      Padding(Draw(r) % Range(n), Stamp(hash, n), Advance(r))
  }

  /** How chain_a pads: not beyond 1440 bytes, otherwise by one draw from a generator seeded with digest and length. */
  lemma PaddingByLength(n: nat, hash: Digest, rng: Rng)
    ensures var p, g := PaddingA(n, hash, rng), Seeded(hash, n);
            && (n > 1440 ==> p == Padding(0, hash, rng))
            && (n <= 1440 ==> p.rng == Advance(g) && p.hash == Stamp(hash, n))
            && (1300 < n <= 1440 ==> p.len == Draw(g) % 31)
            && (900 < n <= 1300 ==> p.len == Draw(g) % 127)
            && (400 < n <= 900 ==> p.len == Draw(g) % 521)
            && (n <= 400 ==> p.len == Draw(g) % 1021)
  {
    hide Seeded, Draw, Advance, Stamp;
  }

  // -------- auth_chain_b: preferred total sizes --------

  predicate Sorted(s: seq<nat>) {
    forall i, j :: 0 <= i < j < |s| ==> s[i] <= s[j]
  }

  predicate Sizes(s: seq<nat>) {
    Sorted(s) && |s| > 0 && forall i :: 0 <= i < |s| ==> s[i] < 1440
  }

  datatype Lists = Lists(first: seq<nat>, second: seq<nat>, overhead: nat)

  /** Two ascending lists of preferred sizes, and the bytes other layers add. */
  type SizeTable = t: Lists | Sizes(t.first) && Sizes(t.second) witness Lists([0], [0], 0)

  /** The first position whose element is at least x, or the length if there is none. */
  function LowerBound(s: seq<nat>, x: nat): (k: nat)
    ensures k <= |s|
    ensures forall i :: 0 <= i < k ==> s[i] < x
    ensures k < |s| ==> s[k] >= x
  {
    if s == [] || s[0] >= x then 0 else 1 + LowerBound(s[1..], x)
  }

  function Slot(list: seq<nat>, want: nat, v: nat): (at: nat)
    requires list != []
    ensures LowerBound(list, want) <= at < LowerBound(list, want) + |list|
  {
    LowerBound(list, want) + v % |list|
  }

  /** The padding chosen for a payload below 1440 bytes, and the generator after choosing. */
  function Choose(t: SizeTable, n: nat, r: Rng): (c: (nat, Rng))
    requires n < 1440
    ensures n + c.0 <= 1471
    ensures n + t.overhead + c.0 in t.first || n + t.overhead + c.0 in t.second || c.0 < Range(n)
  {
    var want := n + t.overhead;
    var at := Slot(t.first, want, Draw(r));
    var r1 := Advance(r);
    if at < |t.first| then (t.first[at] - want, r1)
    else
      var low := LowerBound(t.second, want);
      var at2 := Slot(t.second, want, Draw(r1));
      var r2 := Advance(r1);
      if at2 < |t.second| then (t.second[at2] - want, r2)
      else if at2 < low + |t.second| - 1 then (0, r2)
      else (Draw(r2) % Range(n), Advance(r2))
  }

  function PaddingB(t: SizeTable, n: nat, hash: Digest, rng: Rng): (p: Padding)
  {
    if n >= 1440 then Padding(0, hash, rng)
    else
      var (len, r) := Choose(t, n, Seeded(hash, n));
      Padding(len, Stamp(hash, n), r)
  }

  /** k is the first position of a list whose element is at least x, or its length. */
  predicate IsFirst(s: seq<nat>, x: nat, k: nat) {
    k <= |s| && (forall i :: 0 <= i < k ==> s[i] < x) && (k < |s| ==> s[k] >= x)
  }

  lemma FirstIsLowerBound(s: seq<nat>, x: nat, k: nat)
    requires IsFirst(s, x, k)
    ensures k == LowerBound(s, x)
  {
    hide LowerBound;
  }

  /** A length by the table: where each list's first fitting size is, the first draw that stays inside a list picks one. */
  ghost predicate Sized(t: SizeTable, n: nat, g: Rng, k1: nat, k2: nat, len: nat, after: Rng) {
    var i, j := k1 + Draw(g) % |t.first|, k2 + Draw(Advance(g)) % |t.second|;
    var g2 := Advance(Advance(g));
    if i < |t.first| then n + t.overhead + len == t.first[i] && after == Advance(g)
    else if j < |t.second| then n + t.overhead + len == t.second[j] && after == g2
    else if j < k2 + |t.second| - 1 then len == 0 && after == g2
    else len == Draw(g2) % Range(n) && after == Advance(g2)
  }

  lemma ChosenBySizes(t: SizeTable, n: nat, g: Rng, k1: nat, k2: nat)
    requires n < 1440 && IsFirst(t.first, n + t.overhead, k1) && IsFirst(t.second, n + t.overhead, k2)
    ensures var (len, after) := Choose(t, n, g); Sized(t, n, g, k1, k2, len, after)
  {
    hide Draw, Advance, LowerBound, Range;
    FirstIsLowerBound(t.first, n + t.overhead, k1);
    FirstIsLowerBound(t.second, n + t.overhead, k2);
  }

  /**
   How chain_b pads below 1440 bytes, by up to three draws: up to the size a first draw picks among those of the
   first list that fit, counting on from the smallest; if that runs past the list, the same with the second draw and
   the second list; past that too, by none, or if the second draw was the largest possible, by the third draw.
   */
  lemma PaddingBySizes(t: SizeTable, n: nat, hash: Digest, rng: Rng, k1: nat, k2: nat)
    requires n < 1440 && IsFirst(t.first, n + t.overhead, k1) && IsFirst(t.second, n + t.overhead, k2)
    ensures var p, g := PaddingB(t, n, hash, rng), Seeded(hash, n);
            p.hash == Stamp(hash, n) && Sized(t, n, g, k1, k2, p.len, p.rng)
  {
    hide Seeded, Draw, Advance, Stamp, LowerBound, Range, Choose, Sized, IsFirst;
    ChosenBySizes(t, n, Seeded(hash, n), k1, k2);
  }

  lemma NoPaddingBeyond(t: SizeTable, n: nat, hash: Digest, rng: Rng)
    requires n >= 1440
    ensures PaddingB(t, n, hash, rng) == Padding(0, hash, rng)
  {
  }

  // -------- what the framing relies on --------

  /** Two digests that differ at most in the two bytes seeding overwrites. */
  predicate AlikeHash(a: Digest, b: Digest) {
    a[2..] == b[2..]
  }

  /** For payloads of n bytes, length and generator depend only on the part of the digest that survives seeding. */
  ghost predicate Paces(m: Method, n: nat) {
    forall h, g, r, q :: AlikeHash(h, g) ==> PacesAt(m, n, h, g, r, q)
  }

  ghost predicate PacesAt(m: Method, n: nat, h: Digest, g: Digest, r: Rng, q: Rng) {
    m(n, h, r).len == m(n, g, q).len && m(n, h, r).rng == m(n, g, q).rng && AlikeHash(m(n, h, r).hash, h)
  }

  /** Payloads of n bytes get no padding, and change neither digest nor generator. */
  ghost predicate Leaves(m: Method, n: nat) {
    forall h, r :: m(n, h, r) == Padding(0, h, r)
  }

  /** Depending on the payload length alone, a rule re-seeds the generator, whatever it was, or leaves everything be. */
  ghost predicate Reseeds(m: Method) {
    forall n: nat :: Paces(m, n) || Leaves(m, n)
  }

  /** Payloads the encoder emits never reach the decoder's length limit. */
  ghost predicate FitsWindow(m: Method) {
    forall n: nat, h, r :: n <= 2800 ==> n + m(n, h, r).len < 4096
  }

  /** Two ends whose digests are alike compute the same padding length. */
  lemma SameLength(m: Method, n: nat, h: Digest, g: Digest, r: Rng, q: Rng)
    requires Reseeds(m) && AlikeHash(h, g)
    ensures m(n, h, r).len == m(n, g, q).len
    ensures AlikeHash(m(n, h, r).hash, h) && AlikeHash(m(n, g, q).hash, g)
    ensures Paces(m, n) ==> m(n, h, r).rng == m(n, g, q).rng
    ensures !Paces(m, n) ==> m(n, h, r) == Padding(0, h, r) && m(n, g, q) == Padding(0, g, q)
  {
    if Paces(m, n) {
      assert PacesAt(m, n, h, g, r, q) && PacesAt(m, n, g, h, q, r);
    }
  }

  /** Re-seeding happens for payloads of up to 1440 bytes. */
  lemma PaddingAContract()
    ensures Reseeds(PaddingA) && FitsWindow(PaddingA)
    ensures forall n: nat :: n <= 1440 ==> Paces(PaddingA, n)
  {
    hide Seeded, Stamp, Draw, Advance;
    forall n: nat | n <= 1440 ensures Paces(PaddingA, n) {
      forall h: Digest, g: Digest, r: Rng, q: Rng | AlikeHash(h, g) ensures PacesAt(PaddingA, n, h, g, r, q) {
        SeedIgnoresFirstTwo(h, g, n);
      }
    }
    forall n: nat ensures Paces(PaddingA, n) || Leaves(PaddingA, n) {
    }
  }

  function MethodB(t: SizeTable): Method {
    (n: nat, h: Digest, r: Rng) => PaddingB(t, n, h, r)
  }

  /** Re-seeding happens for payloads below 1440 bytes. */
  lemma PaddingBContract(t: SizeTable)
    ensures Reseeds(MethodB(t)) && FitsWindow(MethodB(t))
    ensures forall n: nat :: n < 1440 ==> Paces(MethodB(t), n)
  {
    hide Seeded, Stamp, Choose;
    forall n: nat | n < 1440 ensures Paces(MethodB(t), n) {
      forall h: Digest, g: Digest, r: Rng, q: Rng | AlikeHash(h, g) ensures PacesAt(MethodB(t), n, h, g, r, q) {
        SeedIgnoresFirstTwo(h, g, n);
      }
    }
    forall n: nat ensures Paces(MethodB(t), n) || Leaves(MethodB(t), n) {
    }
  }

  // -------- the methods as the source runs them --------

  /** Counts on from the smallest size that fits by a draw; the position may lie past the end. */
  method PickFrom(list: seq<nat>, want: nat, random: XorShift128Plus) returns (pos: nat, at: nat)
    requires list != [] && Sorted(list)
    modifies random
    ensures pos == LowerBound(list, want) && at == Slot(list, want, Draw(old(random.State())))
    ensures random.State() == Advance(old(random.State()))
  {
    hide Draw, Advance;
    pos := Search(list, want);
    var v := random.Next();
    at := pos + v % |list|;
  }

  /** How both rules end: a draw below the bound that the payload length leaves. */
  method BelowRange(length: nat, random: XorShift128Plus) returns (pad: nat)
    modifies random
    ensures pad == Draw(old(random.State())) % Range(length) && random.State() == Advance(old(random.State()))
  {
    hide Draw, Advance;
    var v := random.Next();
    if length > 1300 {
      return v % 31;
    }
    if length > 900 {
      return v % 127;
    }
    if length > 400 {
      return v % 521;
    }
    return v % 1021;
  }

  method GetRandLengthA(length: nat, lastHash: array<byte>, random: XorShift128Plus) returns (pad: nat)
    requires lastHash.Length == 16
    modifies lastHash, random
    ensures Padding(pad, lastHash[..], random.State()) == PaddingA(length, old(lastHash[..]), old(random.State()))
  {
    if length > 1440 {
      return 0;
    }
    random.InitFromBinAndLength(lastHash, length);
    pad := BelowRange(length, random);
  }

  /** Binary search for the first element that is at least x. */
  method Search(s: seq<nat>, x: nat) returns (k: nat)
    requires Sorted(s)
    ensures k == LowerBound(s, x)
  {
    var j := |s|;
    k := 0;
    while k < j
      invariant 0 <= k <= j <= |s|
      invariant k > 0 ==> s[k - 1] < x
      invariant j < |s| ==> s[j] >= x
    {
      var h := (k + j) / 2;
      if s[h] < x {
        k := h + 1;
      } else {
        j := h;
      }
    }
  }

  method GetRandLengthB(t: SizeTable, length: nat, lastHash: array<byte>, random: XorShift128Plus) returns (pad: nat)
    requires lastHash.Length == 16
    modifies lastHash, random
    ensures Padding(pad, lastHash[..], random.State()) == PaddingB(t, length, old(lastHash[..]), old(random.State()))
  {
    hide Advance, Draw, LowerBound, Seeded, Stamp, Range, Slot;
    if length >= 1440 {
      return 0;
    }
    random.InitFromBinAndLength(lastHash, length);
    var pos, finalPos := PickFrom(t.first, length + t.overhead, random);
    if finalPos < |t.first| {
      return t.first[finalPos] - length - t.overhead;
    }
    pos, finalPos := PickFrom(t.second, length + t.overhead, random);
    if finalPos < |t.second| {
      return t.second[finalPos] - length - t.overhead;
    }
    if finalPos < pos + |t.second| - 1 {
      return 0;
    }
    pad := BelowRange(length, random);
  }

  // -------- building the size table --------

  function Insert(s: seq<nat>, x: nat): (r: seq<nat>)
    ensures |r| == |s| + 1 && multiset(r) == multiset(s) + multiset{x}
  {
    if s == [] || x <= s[0] then
      [x] + s
    else
      assert s == [s[0]] + s[1..];
      [s[0]] + Insert(s[1..], x)
  }

  lemma ConsSorted(h: nat, t: seq<nat>)
    requires Sorted(t) && forall x :: x in t ==> h <= x
    ensures Sorted([h] + t)
  {
    forall i, j | 0 <= i < j < |[h] + t| ensures ([h] + t)[i] <= ([h] + t)[j] {
      assert ([h] + t)[j] == t[j - 1] && t[j - 1] in t;
      assert i > 0 ==> ([h] + t)[i] == t[i - 1];
    }
  }

  lemma HeadLeast(s: seq<nat>)
    requires Sorted(s) && s != []
    ensures Sorted(s[1..]) && forall x :: x in s || x in s[1..] ==> s[0] <= x
  {
  }

  lemma {:induction false} InsertSorted(s: seq<nat>, x: nat)
    requires Sorted(s)
    ensures Sorted(Insert(s, x))
  {
    hide Sorted;
    if s == [] {
      ConsSorted(x, []) by { NoneSorted(); }
    } else {
      HeadLeast(s);
      if x <= s[0] {
        ConsSorted(x, s);
      } else {
        var t := Insert(s[1..], x);
        InsertSorted(s[1..], x);
        forall y | y in t ensures s[0] <= y {
          assert y in multiset(t);
          assert y == x || y in s[1..];
        }
        ConsSorted(s[0], t);
      }
    }
  }

  lemma NoneSorted()
    ensures Sorted([])
  {
  }

  /** The ascending arrangement of a list. */
  function Ascending(s: seq<nat>): (r: seq<nat>)
    ensures multiset(r) == multiset(s) && |r| == |s|
  {
    if s == [] then []
    else
      assert s == s[..|s| - 1] + [s[|s| - 1]];
      Insert(Ascending(s[..|s| - 1]), s[|s| - 1])
  }

  lemma {:induction false} AscendingSorted(s: seq<nat>)
    ensures Sorted(Ascending(s))
  {
    if s != [] {
      AscendingSorted(s[..|s| - 1]);
      InsertSorted(Ascending(s[..|s| - 1]), s[|s| - 1]);
    }
  }

  function SizeDraws(r: Rng, k: nat): (s: seq<nat>)
    ensures |s| == k
    ensures forall i :: 0 <= i < k ==> s[i] < 1440
  {
    if k == 0 then [] else SizeDraws(r, k - 1) + [Draw(AdvanceBy(r, k - 1)) % 2340 % 2040 % 1440]
  }

  /** The table drawn from a generator, and the generator afterwards. */
  function TableFrom(r: Rng, overhead: nat): (Lists, Rng) {
    var m := Draw(r) % 8 + 4;
    var r1 := AdvanceBy(Advance(r), m);
    var n := Draw(r1) % 16 + 8;
    (Lists(Ascending(SizeDraws(Advance(r), m)), Ascending(SizeDraws(Advance(r1), n)), overhead), AdvanceBy(Advance(r1), n))
  }

  /** The table both ends derive from the shared key, if the key can seed a generator. */
  function TableOf(key: seq<byte>, overhead: nat): Option<(Lists, Rng)> {
    match FromBin(key)
    case None => None
    case Some(r) => Some(TableFrom(r, overhead))
  }

  lemma {:induction false} SizeDrawsAt(r: Rng, k: nat, i: nat)
    requires i < k
    ensures SizeDraws(r, k)[i] == Draw(AdvanceBy(r, i)) % 2340 % 2040 % 1440
  {
    hide Draw, Advance;
    if i < k - 1 {
      SizeDrawsAt(r, k - 1, i);
    }
  }

  lemma {:induction false} AdvanceJoins(r: Rng, k: nat)
    ensures AdvanceBy(Advance(r), k) == AdvanceBy(r, k + 1)
  {
    hide Advance;
    if k > 0 {
      AdvanceJoins(r, k - 1);
    }
  }

  lemma {:induction false} AdvanceTwice(r: Rng, j: nat, k: nat)
    ensures AdvanceBy(AdvanceBy(r, j), k) == AdvanceBy(r, j + k)
  {
    hide Advance;
    if k > 0 {
      AdvanceTwice(r, j, k - 1);
    }
  }

  /** k draws from a given one on, each reduced three times. */
  ghost function DrawsFrom(r: Rng, from: nat, k: nat): (s: seq<nat>)
    ensures |s| == k && forall i :: 0 <= i < k ==> s[i] == SizeAt(r, from + i)
  {
    hide SizeAt;
    if k == 0 then [] else DrawsFrom(r, from, k - 1) + [SizeAt(r, from + k - 1)]
  }

  /** The size the given draw stands for. */
  ghost function SizeAt(r: Rng, at: nat): nat {
    Draw(AdvanceBy(r, at)) % 2340 % 2040 % 1440
  }

  lemma ListDraws(r: Rng, from: nat, k: nat)
    ensures SizeDraws(AdvanceBy(r, from), k) == DrawsFrom(r, from, k)
  {
    hide Draw, Advance, SizeDraws, AdvanceBy;
    forall i | 0 <= i < k ensures SizeDraws(AdvanceBy(r, from), k)[i] == DrawsFrom(r, from, k)[i] {
      SizeDrawsAt(AdvanceBy(r, from), k, i);
      AdvanceTwice(r, from, i);
    }
  }

  /**
   Where the sizes come from, in draws counted from the seeding: draw 0 says how many sizes follow for the first
   list, the next draw how many follow for the second; each list holds its draws, in ascending order.
   */
  lemma TableDraws(r: Rng, overhead: nat)
    ensures var (t, after) := TableFrom(r, overhead);
            var m := Draw(r) % 8 + 4;
            var n := Draw(AdvanceBy(r, m + 1)) % 16 + 8;
            && t.overhead == overhead && Sorted(t.first) && Sorted(t.second)
            && multiset(t.first) == multiset(DrawsFrom(r, 1, m)) && multiset(t.second) == multiset(DrawsFrom(r, m + 2, n))
            && after == AdvanceBy(r, m + 2 + n)
  {
    hide Draw, Advance, Ascending, SizeDraws, DrawsFrom, AdvanceBy, Sorted;
    var m := Draw(r) % 8 + 4;
    AdvanceJoins(r, m);
    NextAdvances(r, 0);
    NextAdvances(r, m + 1);
    var n := Draw(AdvanceBy(r, m + 1)) % 16 + 8;
    ListSorted(r, 1, m);
    ListSorted(r, m + 2, n);
    AdvanceTwice(r, m + 2, n);
  }

  lemma NextAdvances(r: Rng, k: nat)
    ensures AdvanceBy(r, 0) == r && AdvanceBy(r, k + 1) == Advance(AdvanceBy(r, k))
  {
    hide Advance;
  }

  lemma ListSorted(r: Rng, from: nat, k: nat)
    ensures var list := Ascending(SizeDraws(AdvanceBy(r, from), k));
            Sorted(list) && multiset(list) == multiset(DrawsFrom(r, from, k))
  {
    hide Draw, Advance, Ascending, SizeDraws, DrawsFrom, AdvanceBy, Sorted;
    ListDraws(r, from, k);
    AscendingSorted(DrawsFrom(r, from, k));
  }

  lemma DrawsMakeSizes(r: Rng, k: nat)
    requires k > 0
    ensures Sizes(Ascending(SizeDraws(r, k)))
  {
    var s := SizeDraws(r, k);
    AscendingSorted(s);
    forall i | 0 <= i < |s| ensures Ascending(s)[i] < 1440 {
      assert Ascending(s)[i] in multiset(s);
    }
  }

  /** A table exists exactly for the keys of at least 16 bytes, and is then one the padding rule can search. */
  lemma TableIsSizeTable(key: seq<byte>, overhead: nat)
    ensures TableOf(key, overhead).Some? <==> |key| >= 16
    ensures TableOf(key, overhead).Some? ==>
              var t := TableOf(key, overhead).value.0;
              Sizes(t.first) && Sizes(t.second) && 4 <= |t.first| <= 11 && 8 <= |t.second| <= 23
  {
    hide TableFrom;
    if |key| >= 16 {
      DrawnTable(FromFull(key), overhead);
    }
  }

  /** Without a key there is no table. */
  lemma NoKeyNoTable(overhead: nat)
    ensures TableOf([], overhead) == None
  {
  }

  lemma DrawnTable(r: Rng, overhead: nat)
    ensures var t := TableFrom(r, overhead).0;
            Sizes(t.first) && Sizes(t.second) && 4 <= |t.first| <= 11 && 8 <= |t.second| <= 23
  {
    hide Advance, Draw, Ascending, SizeDraws, AdvanceBy;
    var m := Draw(r) % 8 + 4;
    var r1 := AdvanceBy(Advance(r), m);
    DrawsMakeSizes(Advance(r), m);
    DrawsMakeSizes(Advance(r1), Draw(r1) % 16 + 8);
  }

  method DrawList(random: XorShift128Plus, length: nat) returns (list: seq<nat>)
    modifies random
    ensures list == Ascending(SizeDraws(old(random.State()), length))
    ensures random.State() == AdvanceBy(old(random.State()), length)
  {
    hide Advance, Draw, Ascending;
    var drawn: seq<nat> := [];
    for i := 0 to length
      invariant drawn == SizeDraws(old(random.State()), i)
      invariant random.State() == AdvanceBy(old(random.State()), i)
    {
      var v := random.Next();
      drawn := drawn + [v % 2340 % 2040 % 1440];
    }
    list := SortInts(drawn);
  }

  method SortInts(s: seq<nat>) returns (r: seq<nat>)
    ensures r == Ascending(s)
  {
    r := [];
    for i := 0 to |s|
      invariant r == Ascending(s[..i])
    {
      assert s[..i + 1][..i] == s[..i];
      r := Insert(r, s[i]);
    }
    assert s[..|s|] == s;
  }

  /** Derives the table, or runs off the end of a key that cannot seed the generator. */
  method InitDataSize(key: array<byte>, overhead: nat, random: XorShift128Plus) returns (t: Option<SizeTable>)
    modifies random
    ensures t.Some? <==> TableOf(key[..], overhead).Some?
    ensures t.Some? ==> (t.value, random.State()) == TableOf(key[..], overhead).value
    ensures t == None ==> random.State() == old(random.State())
  {
    hide Advance, Draw, Ascending, SizeDraws;
    var ok := random.InitFromBin(key);
    if !ok {
      return None;
    }
    DrawnTable(random.State(), overhead);
    var v := random.Next();
    var first := DrawList(random, v % 8 + 4);
    v := random.Next();
    var second := DrawList(random, v % 16 + 8);
    t := Some(Lists(first, second, overhead));
  }
}
