/** The bits of non-negative integers, and what exclusive-or, shifts and truncation do to each of them. */
module Bits {
  import opened Bytes

  /** Bit i, counted from the least significant one. */
  ghost function Bit(n: nat, i: nat): (b: nat)
    ensures b < 2
    decreases i
  {
    if i == 0 then n % 2 else Bit(n / 2, i - 1)
  }

  lemma {:induction false} XorBit(a: nat, b: nat, i: nat)
    ensures Bit(Xor(a, b), i) == (Bit(a, i) + Bit(b, i)) % 2
    decreases i
  {
    hide Xor;
    XorBits(a, b);
    if i > 0 {
      XorBit(a / 2, b / 2, i - 1);
    }
  }

  lemma Doubled(q: nat, m: nat)
    ensures q * (2 * m) == 2 * (q * m)
  {
  }

  /** Halving a number halves its place among blocks of even size. */
  lemma HalfBlock(x: nat, m: nat, q: nat, r: nat)
    requires m > 0 && r == q * m && 2 * r <= x < 2 * r + 2 * m
    ensures x / 2 / m == q && x / 2 % m == x / 2 - r
  {
    BlockOf(x / 2, m, q);
  }

  lemma DoubleBlock(x: nat, m: nat) returns (q: nat, r: nat)
    requires m > 0
    ensures q == x / (2 * m) && r == q * m && 2 * r <= x < 2 * r + 2 * m && x % (2 * m) == x - 2 * r
  {
    q := x / (2 * m);
    r := q * m;
    BlockOf(x, 2 * m, q);
    Doubled(q, m);
  }

  lemma DivDiv(x: nat, m: nat)
    requires m > 0
    ensures x / 2 / m == x / (2 * m)
  {
    var q, r := DoubleBlock(x, m);
    HalfBlock(x, m, q, r);
  }

  function Quotient(x: nat, m: nat): nat
    requires m > 0
  {
    NotNegative(x, m);
    x / m
  }

  lemma NotNegative(x: nat, m: nat)
    requires m > 0
    ensures x / m >= 0
  {
    if x / m < 0 {
      MulMonotone(x / m, -1, m);
    }
  }

  lemma DivPow2(x: nat, k: nat)
    ensures Quotient(x, Pow2(k)) == if k == 0 then x else Quotient(x / 2, Pow2(k - 1))
  {
    if k > 0 {
      DivDiv(x, Pow2(k - 1));
    }
  }

  /** A shift to the right. */
  lemma {:induction false} ShrBit(x: nat, k: nat, i: nat)
    ensures Bit(Quotient(x, Pow2(k)), i) == Bit(x, i + k)
    decreases k
  {
    hide Bit, Pow2;
    DivPow2(x, k);
    if k > 0 {
      ShrBit(x / 2, k - 1, i);
      BitStep(x, i + k - 1);
    }
  }

  lemma BitStep(x: nat, i: nat)
    ensures Bit(x, i + 1) == Bit(x / 2, i)
  {
  }

  /** A shift to the left. */
  lemma {:induction false} ShlBit(x: nat, k: nat, i: nat)
    ensures Bit(x * Pow2(k), i) == if i < k then 0 else Bit(x, i - k)
    decreases k
  {
    if k > 0 {
      var y := x * Pow2(k - 1);
      assert x * Pow2(k) == 2 * y;
      Halves(0, y);
      if i > 0 {
        ShlBit(x, k - 1, i - 1);
        BitStep(2 * y, i - 1);
      }
    }
  }

  lemma ModHalf(y: nat, m: nat)
    requires m > 0
    ensures y % (2 * m) % 2 == y % 2 && y % (2 * m) / 2 == y / 2 % m
  {
    var q, r := DoubleBlock(y, m);
    HalfBlock(y, m, q, r);
    OddEven(y, r);
  }

  lemma OddEven(y: nat, r: nat)
    requires 2 * r <= y
    ensures (y - 2 * r) % 2 == y % 2 && (y - 2 * r) / 2 == y / 2 - r
  {
  }

  /** Truncation to n bits. */
  lemma {:induction false} ModBit(y: nat, n: nat, i: nat)
    requires i < n
    ensures Bit(y % Pow2(n), i) == Bit(y, i)
    decreases n
  {
    ModHalf(y, Pow2(n - 1));
    if i > 0 {
      ModBit(y / 2, n - 1, i - 1);
    }
  }

  /** A number of n bits has none beyond. */
  lemma {:induction false} HighBit(x: nat, n: nat, i: nat)
    requires x < Pow2(n) && i >= n
    ensures Bit(x, i) == 0
    decreases i
  {
    if i > 0 {
      HighBit(x / 2, if n == 0 then 0 else n - 1, i - 1);
    }
  }

  /** Two numbers have the same bits from one position up to another. */
  ghost predicate Agree(x: nat, y: nat, lo: nat, hi: nat) {
    forall i :: lo <= i < hi ==> Bit(x, i) == Bit(y, i)
  }

  /** A number's bits from one position up to another are all b. */
  ghost predicate AllAre(x: nat, lo: nat, hi: nat, b: nat) {
    forall i :: lo <= i < hi ==> Bit(x, i) == b
  }

  /** Numbers of n bits that agree in each of them are equal. */
  lemma {:induction false} SameBits(x: nat, y: nat, n: nat)
    requires x < Pow2(n) && y < Pow2(n) && Agree(x, y, 0, n)
    ensures x == y
    decreases n
  {
    if n > 0 {
      assert Bit(x, 0) == Bit(y, 0);
      forall i | 0 <= i < n - 1 ensures Bit(x / 2, i) == Bit(y / 2, i) {
        BitStep(x, i);
        BitStep(y, i);
        assert Bit(x, i + 1) == Bit(y, i + 1);
      }
      SameBits(x / 2, y / 2, n - 1);
    }
  }

  lemma {:induction false} ZeroBit(i: nat)
    ensures Bit(0, i) == 0
  {
    if i > 0 {
      ZeroBit(i - 1);
    }
  }

  lemma {:induction false} OnesBit(n: nat, i: nat)
    requires i < n
    ensures Bit(Pow2(n) - 1, i) == 1
    decreases n
  {
    Halves(1, Pow2(n - 1) - 1);
    if i > 0 {
      OnesBit(n - 1, i - 1);
    }
  }

  lemma Residue(x: nat, m: nat)
    requires m > 0
    ensures 0 <= x % m < m
  {
  }

  /** Numbers lie in the same block of 2^h exactly if their bits from h on agree. */
  lemma SameBlock(x: nat, y: nat, h: nat, n: nat)
    requires x < Pow2(n) && y < Pow2(n)
    ensures Quotient(x, Pow2(h)) == Quotient(y, Pow2(h)) <==> Agree(x, y, h, n)
  {
    hide Pow2, Quotient;
    if Quotient(x, Pow2(h)) == Quotient(y, Pow2(h)) {
      BlockBits(x, y, h, n);
    }
    if Agree(x, y, h, n) {
      BitsBlock(x, y, h, n);
    }
  }

  lemma BlockBits(x: nat, y: nat, h: nat, n: nat)
    requires Quotient(x, Pow2(h)) == Quotient(y, Pow2(h))
    ensures Agree(x, y, h, n)
  {
    hide Pow2, Quotient;
    forall i | h <= i < n ensures Bit(x, i) == Bit(y, i) {
      ShrBit(x, h, i - h);
      ShrBit(y, h, i - h);
    }
  }

  lemma BitsBlock(x: nat, y: nat, h: nat, n: nat)
    requires x < Pow2(n) && y < Pow2(n) && Agree(x, y, h, n)
    ensures Quotient(x, Pow2(h)) == Quotient(y, Pow2(h))
  {
    hide Pow2, Quotient;
    var p, q := Quotient(x, Pow2(h)), Quotient(y, Pow2(h));
    NotLarger(x, h);
    NotLarger(y, h);
    forall i | 0 <= i < n ensures Bit(p, i) == Bit(q, i) {
      ShrBit(x, h, i);
      ShrBit(y, h, i);
      if i + h >= n {
        HighBit(x, n, i + h);
        HighBit(y, n, i + h);
      }
    }
    SameBits(p, q, n);
  }

  lemma {:induction false} NotLarger(x: nat, k: nat)
    ensures Quotient(x, Pow2(k)) <= x
    decreases k
  {
    hide Pow2, Quotient;
    DivPow2(x, k);
    if k > 0 {
      NotLarger(x / 2, k - 1);
    }
  }

  /** A number is at the start of its block of 2^h exactly if its lowest h bits are zero, at the end if they are one. */
  lemma BlockEnds(x: nat, h: nat)
    ensures x % Pow2(h) == 0 <==> AllAre(x, 0, h, 0)
    ensures x % Pow2(h) == Pow2(h) - 1 <==> AllAre(x, 0, h, 1)
  {
    hide Pow2, AllAre;
    Residue(x, Pow2(h));
    LowAre(x, h, 0, 0);
    LowAre(x, h, Pow2(h) - 1, 1);
  }

  /** y is the number of h bits that are all b. */
  lemma LowAre(x: nat, h: nat, y: nat, b: nat)
    requires (y == 0 && b == 0) || (y == Pow2(h) - 1 && b == 1)
    ensures x % Pow2(h) == y <==> AllAre(x, 0, h, b)
  {
    hide Pow2;
    Residue(x, Pow2(h));
    var low: nat := x % Pow2(h);
    forall i | 0 <= i < h ensures Bit(low, i) == Bit(x, i) && Bit(y, i) == b {
      ModBit(x, h, i);
      ZeroBit(i);
      OnesBit(h, i);
    }
    if AllAre(x, 0, h, b) {
      SameBits(low, y, h);
    }
  }
}
