/** Bytes, fixed-width words and bitwise exclusive-or, in plain integer arithmetic. */
module Bytes {

  type byte = x: int | 0 <= x < 256

  type u16 = x: int | 0 <= x < 0x1_0000

  type u32 = x: int | 0 <= x < 0x1_0000_0000

  type u64 = x: int | 0 <= x < 0x1_0000_0000_0000_0000

  /** An MD5-sized digest. */
  type Digest = s: seq<byte> | |s| == 16 witness seq(16, _ => 0)

  /** The bytes a random source yields from its from-th draw on. */
  function Noise(random: nat -> nat, from: nat, n: nat): (r: seq<byte>)
    ensures |r| == n && forall i :: 0 <= i < n ==> r[i] == random(from + i) % 256
  {
    seq(n, i requires 0 <= i < n => random(from + i) % 256)
  }

  /** Least significant byte first. */
  function Le16(n: u16): (b: seq<byte>)
    ensures |b| == 2 && n == b[0] as int + 0x100 * b[1] as int && FromLe16(b) == n
  {
    [n % 256, n / 256]
  }

  function FromLe16(b: seq<byte>): u16
    requires |b| == 2
  {
    (b[0] as int) + 256 * (b[1] as int)
  }

  /** Most significant byte first. */
  function Be16(n: u16): (b: seq<byte>)
    ensures |b| == 2 && n == 0x100 * b[0] as int + b[1] as int && FromBe16(b) == n
  {
    [n / 256, n % 256]
  }

  function FromBe16(b: seq<byte>): u16
    requires |b| == 2
  {
    256 * (b[0] as int) + (b[1] as int)
  }

  function Le32(n: u32): (b: seq<byte>)
    ensures |b| == 4
    ensures n == b[0] as int + 0x100 * b[1] as int + 0x1_0000 * b[2] as int + 0x100_0000 * b[3] as int
  {
    WordOfBytes(n);
    [n % 256, n / 0x100 % 256, n / 0x1_0000 % 256, n / 0x100_0000]
  }

  lemma WordOfBytes(v: u32)
    ensures v == v / 0x100_0000 * 0x100_0000 + v / 0x1_0000 % 256 * 0x1_0000 + v / 0x100 % 256 * 0x100 + v % 256
  {
    assert v / 0x1_0000 == v / 0x100 / 0x100 && v / 0x100_0000 == v / 0x1_0000 / 0x100;
  }

  function FromLe64(b: seq<byte>): (n: u64)
    requires |b| == 8
    ensures n == b[0] as int + 0x100 * b[1] as int + 0x1_0000 * b[2] as int + 0x100_0000 * b[3] as int
                 + 0x1_0000_0000 * b[4] as int + 0x100_0000_0000 * b[5] as int
                 + 0x1_0000_0000_0000 * b[6] as int + 0x100_0000_0000_0000 * b[7] as int
  {
    FromLe16(b[..2]) as int + 0x1_0000 * (FromLe16(b[2..4]) as int)
    + 0x1_0000_0000 * (FromLe16(b[4..6]) as int) + 0x1_0000_0000_0000 * (FromLe16(b[6..]) as int)
  }

  /** Wrapping increment of an unsigned 32-bit counter. */
  function Inc32(n: u32): (m: u32)
    ensures m == (n + 1) % 0x1_0000_0000
  {
    if n == 0xFFFF_FFFF then 0 else n + 1
  }

  function Pow2(k: nat): (p: nat)
    ensures p > 0
  {
    if k == 0 then 1 else 2 * Pow2(k - 1)
  }

  // -------- integer division --------

  lemma MulMonotone(a: int, b: int, s: nat)
    requires a <= b
    ensures a * s <= b * s
  {
  }

  /** v lies in the q-th block of s numbers exactly when q blocks fit below it and q + 1 do not. */
  lemma BlockOf(v: nat, s: nat, q: nat)
    requires s > 0
    ensures v / s == q <==> q * s <= v < q * s + s
    ensures v / s == q ==> v % s == v - q * s
  {
    assert v == v / s * s + v % s;
    if v / s < q {
      MulMonotone(v / s + 1, q, s);
    } else if v / s > q {
      MulMonotone(q + 1, v / s, s);
    }
  }

  // -------- exclusive or --------

  /** Bitwise exclusive-or of two non-negative integers of any width. */
  function Xor(a: nat, b: nat): (r: nat)
    decreases a + b
  {
    if a == 0 && b == 0 then 0 else (a % 2 + b % 2) % 2 + 2 * Xor(a / 2, b / 2)
  }

  /** Exclusive-or acts on the lowest bit and on the remaining bits separately. */
  lemma XorBits(a: nat, b: nat)
    ensures Xor(a, b) % 2 == (a % 2 + b % 2) % 2
    ensures Xor(a, b) / 2 == Xor(a / 2, b / 2)
  {
    if a == 0 && b == 0 {
      assert Xor(a / 2, b / 2) == 0;
    } else {
      Halves((a % 2 + b % 2) % 2, Xor(a / 2, b / 2));
    }
  }

  lemma Halves(bit: nat, x: nat)
    requires bit < 2
    ensures (bit + 2 * x) % 2 == bit && (bit + 2 * x) / 2 == x
  {
  }

  /** Exclusive-or with the same mask twice is the identity. */
  lemma {:induction false} XorInvolutive(a: nat, b: nat)
    ensures Xor(Xor(a, b), b) == a
    decreases a + b
  {
    if a != 0 || b != 0 {
      var x := Xor(a, b);
      XorInvolutive(a / 2, b / 2);
      XorBits(a, b);
      XorBits(x, b);
      ParityAbsorbs(a, b, x);
    }
  }

  lemma ParityAbsorbs(a: nat, b: nat, x: nat)
    requires x % 2 == (a % 2 + b % 2) % 2
    ensures (x % 2 + b % 2) % 2 == a % 2
  {
  }

  /** Exclusive-or stays within the width of its operands. */
  lemma {:induction false} XorBound(a: nat, b: nat, k: nat)
    requires a < Pow2(k) && b < Pow2(k)
    ensures Xor(a, b) < Pow2(k)
    decreases k
  {
    if k > 0 {
      XorBound(a / 2, b / 2, k - 1);
    }
  }

  lemma {:induction false} Pow2Values()
    ensures Pow2(8) == 0x100 && Pow2(16) == 0x1_0000 && Pow2(64) == 0x1_0000_0000_0000_0000
  {
    assert Pow2(4) == 16;
    assert Pow2(8) == 256;
    assert Pow2(12) == 0x1000;
    assert Pow2(16) == 0x1_0000;
    assert Pow2(20) == 0x10_0000;
    assert Pow2(24) == 0x100_0000;
    assert Pow2(32) == 0x1_0000_0000 by { assert Pow2(28) == 0x1000_0000; }
    assert Pow2(40) == 0x100_0000_0000 by { assert Pow2(36) == 0x10_0000_0000; }
    assert Pow2(48) == 0x1_0000_0000_0000 by { assert Pow2(44) == 0x1000_0000_0000; }
    assert Pow2(56) == 0x100_0000_0000_0000 by { assert Pow2(52) == 0x10_0000_0000_0000; }
    assert Pow2(60) == 0x1000_0000_0000_0000;
  }

  function Xor8(a: byte, b: byte): byte {
    Pow2Values(); XorBound(a, b, 8); Xor(a, b)
  }

  function Xor16(a: u16, b: u16): u16 {
    Pow2Values(); XorBound(a, b, 16); Xor(a, b)
  }

  lemma Xor16Involutive(a: u16, b: u16)
    ensures Xor16(Xor16(a, b), b) == a
  {
    XorInvolutive(a, b);
  }

  function Xor64(a: u64, b: u64): u64 {
    Pow2Values(); XorBound(a, b, 64); Xor(a, b)
  }
}
