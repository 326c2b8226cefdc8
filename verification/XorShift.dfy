/** The xorshift128+ generator that paces padding lengths (ssr/tools/random.go). */
module XorShift {
  import opened Common
  import opened Bytes
  import opened Bits

  /** The two words of generator state. */
  datatype Rng = Rng(s0: u64, s1: u64)

  function Shl23(x: u64): u64 {
    x as int * 0x80_0000 % 0x1_0000_0000_0000_0000
  }

  /** The state after one draw. */
  function Advance(r: Rng): Rng {
    var x := Xor64(r.s0, Shl23(r.s0));
    var y := r.s1;
    Rng(y, Xor64(x, Xor64(Xor64(y, x / 0x2_0000), y / 0x400_0000)))
  }

  /** The value of one draw: the sum of the two new words, modulo 2^64. */
  function Draw(r: Rng): u64 {
    (Advance(r).s1 as int + r.s1 as int) % 0x1_0000_0000_0000_0000
  }

  /** Bit j of the first word after its shift to the left by 23 is mixed in; nothing beyond 64 bits. */
  ghost function Mixed(x: u64, j: nat): nat {
    if j >= 64 then 0 else (Bit(x, j) + if j >= 23 then Bit(x, j - 23) else 0) % 2
  }

  /**
   The xorshift128+ step, bit by bit: with x the first word and y the second, y becomes the first word, and bit i
   of the second is the exclusive-or of the bits i and i - 23 of x, i of y, i + 17 and i - 6 of x, and i + 26 of y.
   */
  lemma AdvanceBits(r: Rng, i: nat)
    requires i < 64
    ensures Advance(r).s0 == r.s1
    ensures Bit(Advance(r).s1, i) == (Mixed(r.s0, i) + Bit(r.s1, i) + Mixed(r.s0, i + 17) + Bit(r.s1, i + 26)) % 2
  {
    hide Xor, Bit, Mixed, Pow2;
    var x, y := Xor64(r.s0, Shl23(r.s0)), r.s1;
    MixedBit(r.s0, i);
    MixedBit(r.s0, i + 17);
    Powers();
    ShrBit(x, 17, i);
    ShrBit(y, 26, i);
    XorBit(Xor64(y, x / 0x2_0000), y / 0x400_0000, i);
    XorBit(y, x / 0x2_0000, i);
    XorBit(x, Xor64(Xor64(y, x / 0x2_0000), y / 0x400_0000), i);
  }

  lemma Powers()
    ensures Pow2(17) == 0x2_0000 && Pow2(23) == 0x80_0000 && Pow2(26) == 0x400_0000 && Pow2(64) == 0x1_0000_0000_0000_0000
  {
    Pow2Values();
    assert Pow2(17) == 2 * Pow2(16) && Pow2(18) == 2 * Pow2(17) && Pow2(19) == 2 * Pow2(18);
    assert Pow2(20) == 2 * Pow2(19) && Pow2(21) == 2 * Pow2(20) && Pow2(22) == 2 * Pow2(21);
    assert Pow2(23) == 2 * Pow2(22) && Pow2(24) == 2 * Pow2(23) && Pow2(25) == 2 * Pow2(24);
  }

  lemma MixedBit(x: u64, j: nat)
    ensures Bit(Xor64(x, Shl23(x)), j) == Mixed(x, j)
  {
    hide Xor, Bit, Pow2;
    Powers();
    XorBit(x, Shl23(x), j);
    if j < 64 {
      ModBit(x * 0x80_0000, 64, j);
      ShlBit(x, 23, j);
    } else {
      HighBit(Xor64(x, Shl23(x)), 64, j);
    }
  }

  /** A draw is the sum of the two new words, modulo 2^64. */
  lemma DrawSums(r: Rng)
    ensures Draw(r) == (Advance(r).s0 + Advance(r).s1) % 0x1_0000_0000_0000_0000
  {
    hide Xor;
  }

  function AdvanceBy(r: Rng, k: nat): Rng {
    if k == 0 then r else Advance(AdvanceBy(r, k - 1))
  }

  /** Two words, least significant byte first. */
  function FromFull(bin: seq<byte>): (r: Rng)
    requires |bin| >= 16
    ensures r.s0 == FromLe64(bin[..8]) && r.s1 == FromLe64(bin[8..16])
  {
    Rng(FromLe64(bin[..8]), FromLe64(bin[8..16]))
  }

  /** Seeding fails exactly on fewer than 16 bytes: the zero padding meant for them is lost. */
  function FromBin(bin: seq<byte>): (r: Option<Rng>)
    ensures r.Some? <==> |bin| >= 16
  {
    if |bin| < 16 then None else Some(FromFull(bin))
  }

  /** The digest with its first two bytes replaced by a length. */
  function Stamp(bin: seq<byte>, length: nat): (r: seq<byte>)
    requires |bin| >= 16
    ensures |r| == |bin| && r[2..] == bin[2..]
    ensures r[0] as int + 0x100 * r[1] as int == length % 0x1_0000
  {
    Le16(length % 0x1_0000) + bin[2..]
  }

  lemma FourTimes(r: Rng)
    ensures AdvanceBy(r, 4) == Advance(Advance(Advance(Advance(r))))
  {
    hide Advance;
    assert AdvanceBy(r, 1) == Advance(r);
    assert AdvanceBy(r, 2) == Advance(Advance(r));
    assert AdvanceBy(r, 3) == Advance(Advance(Advance(r)));
  }

  /** The state after seeding from a digest and a length: four draws are discarded. */
  function Seeded(bin: seq<byte>, length: nat): (r: Rng)
    requires |bin| >= 16
    ensures r == Advance(Advance(Advance(Advance(FromFull(Stamp(bin, length))))))
  {
    hide Advance;
    FourTimes(FromFull(Stamp(bin, length)));
    AdvanceBy(FromFull(Stamp(bin, length)), 4)
  }

  /** Seeding reads the digest only beyond its first two bytes. */
  lemma SeedIgnoresFirstTwo(a: seq<byte>, b: seq<byte>, length: nat)
    requires |a| == |b| >= 16 && a[2..] == b[2..]
    ensures Stamp(a, length) == Stamp(b, length)
    ensures Seeded(a, length) == Seeded(b, length)
  {
  }

  class XorShift128Plus {
    var s0: u64
    var s1: u64

    function State(): Rng
      reads this
    {
      Rng(s0, s1)
    }

    constructor ()
      ensures State() == Rng(0, 0)
    {
      s0, s1 := 0, 0;
    }

    method Next() returns (v: u64)
      modifies this
      ensures State() == Advance(old(State()))
      ensures v == Draw(old(State()))
    {
      var x, y := s0, s1;
      s0 := y;
      x := Xor64(x, Shl23(x));
      x := Xor64(x, Xor64(Xor64(y, x / 0x2_0000), y / 0x400_0000));
      s1 := x;
      v := (x as int + y as int) % 0x1_0000_0000_0000_0000;
    }

    /** Seeds, or runs off the end: a short seed is padded in a copy that is then dropped. */
    method InitFromBin(bin: array<byte>) returns (ok: bool)
      modifies this
      ensures ok <==> FromBin(bin[..]).Some?
      ensures State() == if ok then FromBin(bin[..]).value else old(State())
    {
      var full: seq<byte> := [];
      if bin.Length < 16 {
        var padded := bin[..];
        while |padded| < 16
          decreases 16 - |padded|
        {
          padded := padded + [0];
        }
      } else {
        full := bin[..];
      }
      if |full| < 16 {
        return false;
      }
      s0 := FromLe64(full[..8]);
      s1 := FromLe64(full[8..16]);
      return true;
    }

    /** Seeds from the digest after writing the length into its first two bytes, in place. */
    method InitFromBinAndLength(bin: array<byte>, length: nat)
      requires bin.Length >= 16
      modifies this, bin
      ensures bin[..] == Stamp(old(bin[..]), length)
      ensures State() == Seeded(old(bin[..]), length)
    {
      var w := Le16(length % 0x1_0000);
      bin[0], bin[1] := w[0], w[1];
      assert bin[..] == Stamp(old(bin[..]), length);
      assert bin[..][..8] == bin[..8] && bin[..][8..16] == bin[8..16];
      s0 := FromLe64(bin[..8]);
      s1 := FromLe64(bin[8..16]);
      ghost var seed := FromFull(bin[..]);
      assert State() == AdvanceBy(seed, 0);
      for i := 0 to 4
        invariant bin[..] == Stamp(old(bin[..]), length)
        invariant State() == AdvanceBy(seed, i)
      {
        var _ := Next();
      }
    }
  }
}
