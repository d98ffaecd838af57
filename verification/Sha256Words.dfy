/** What the words of the digest are: every 32-bit operation bit by bit, and the constants as the
    fractional parts of roots of primes, as sections 3.2, 4.1.2, 4.2.2 and 5.3.3 of FIPS 180-4 say. */
module Sha256Words {
  import opened Powers
  import opened Sha256
  import R = Radix

  // ----- bits -----

  /** Bit `i` of a number, the lowest one first. */
  function Bit(x: nat, i: nat): (b: nat)
    ensures b < 2
    decreases i, x
  {
    if i == 0 then x % 2 else Bit(x / 2, i - 1)
  }

  lemma {:induction false} BitIs(x: nat, i: nat)
    ensures Bit(x, i) == x / Pow2(i) % 2
    decreases i
  {
    if i > 0 {
      BitIs(x / 2, i - 1);
      HalfThenRest(x, Pow2(i - 1));
    }
  }

  lemma HalfThenRest(x: nat, p: nat)
    requires p > 0
    ensures x / (2 * p) == x / 2 / p
  {
    var h, r := x / 2, x % 2;
    var a, b := h / p, h % p;
    assert h == p * a + b;
    assert x == 2 * p * a + (2 * b + r);
    R.Quotient(x, 2 * p, a, 2 * b + r);
  }

  lemma {:induction false} HighBitsAreZero(x: nat, n: nat, i: nat)
    requires x < Pow2(n) && i >= n
    ensures Bit(x, i) == 0
    decreases n
  {
    if n == 0 {
      ZeroBits(i);
    } else {
      HighBitsAreZero(x / 2, n - 1, i - 1);
    }
  }

  lemma {:induction false} ZeroBits(i: nat)
    ensures Bit(0, i) == 0
  {
    if i > 0 { ZeroBits(i - 1); }
  }

  /** Words are told apart by their bits. */
  lemma {:induction false} SameBits(x: nat, y: nat, n: nat)
    requires x < Pow2(n) && y < Pow2(n) && forall i | 0 <= i < n :: Bit(x, i) == Bit(y, i)
    ensures x == y
    decreases n
  {
    if n > 0 {
      forall i | 0 <= i < n - 1 ensures Bit(x / 2, i) == Bit(y / 2, i) { assert Bit(x, i + 1) == Bit(y, i + 1); }
      SameBits(x / 2, y / 2, n - 1);
      assert Bit(x, 0) == Bit(y, 0);
    }
  }

  // ----- the operations, bit by bit -----

  lemma AddIs(x: Word, y: Word)
    ensures Add(x, y) == (x + y) % WORD_SIZE
  {
  }

  lemma {:induction false} ShrBit(x: Word, n: nat, i: nat)
    ensures Bit(Shr(x, n), i) == Bit(x, i + n)
    decreases n
  {
    if n > 0 { ShrBit(x / 2, n - 1, i); }
  }

  /** A bit put on top leaves those below alone. */
  lemma {:induction false} TopBit(z: nat, b: nat, n: nat, i: nat)
    requires z < Pow2(n) && b < 2 && i <= n
    ensures Bit(z + b * Pow2(n), i) == if i < n then Bit(z, i) else b
    decreases n
  {
    if n > 0 {
      var top := b * Pow2(n - 1);
      assert b * Pow2(n) == 2 * top;
      assert (z + 2 * top) / 2 == z / 2 + top && (z + 2 * top) % 2 == z % 2;
      if i > 0 { TopBit(z / 2, b, n - 1, i - 1); }
    } else {
      assert z == 0 && b * Pow2(0) == b;
    }
  }

  lemma RotrOne(x: Word, i: nat)
    requires i < 32
    ensures Bit(x / 2 + x % 2 * 0x8000_0000, i) == Bit(x, (i + 1) % 32)
  {
    Pow2Word();
    assert Pow2(31) == 0x8000_0000;
    TopBit(x / 2, x % 2, 31, i);
  }

  /** Rotation moves every bit down and wraps round. */
  lemma {:induction false} RotrBit(x: Word, n: nat, i: nat)
    requires i < 32
    ensures Bit(Rotr(x, n), i) == Bit(x, (i + n) % 32)
    decreases n
  {
    if n > 0 {
      var y: Word := x / 2 + x % 2 * 0x8000_0000;
      RotrBit(y, n - 1, i);
      RotrOne(x, (i + n - 1) % 32);
      NextPlace(i + n - 1);
    } else {
      assert i % 32 == i;
    }
  }

  lemma NextPlace(j: nat)
    ensures (j % 32 + 1) % 32 == (j + 1) % 32
  {
  }

  lemma Halves(n: nat, low: nat, high: nat)
    requires low < 2 && n == low + 2 * high
    ensures n % 2 == low && n / 2 == high
  {
  }

  lemma ParityOfSum(x: nat, y: nat)
    ensures (x % 2 + y % 2) % 2 == (x + y) % 2
  {
  }

  lemma {:induction false} AndBit(x: nat, y: nat, i: nat)
    ensures Bit(BitAnd(x, y), i) == if Bit(x, i) == 1 && Bit(y, i) == 1 then 1 else 0
    decreases i
  {
    if x == 0 || y == 0 {
      ZeroBits(i);
    } else {
      AndHalves(x, y);
      if i > 0 { AndBit(x / 2, y / 2, i - 1); }
    }
  }

  lemma AndHalves(x: nat, y: nat)
    requires x > 0 && y > 0
    ensures BitAnd(x, y) % 2 == (if x % 2 == 1 && y % 2 == 1 then 1 else 0) && BitAnd(x, y) / 2 == BitAnd(x / 2, y / 2)
  {
    var low, high := if x % 2 == 1 && y % 2 == 1 then 1 else 0, BitAnd(x / 2, y / 2);
    Halves(BitAnd(x, y), low, high);
  }

  lemma {:induction false} XorBit(x: nat, y: nat, i: nat)
    ensures Bit(BitXor(x, y), i) == (Bit(x, i) + Bit(y, i)) % 2
    decreases i
  {
    if x == 0 || y == 0 {
      ZeroBits(i);
    } else {
      XorHalves(x, y);
      if i > 0 { XorBit(x / 2, y / 2, i - 1); }
    }
  }

  lemma XorStep(x: nat, y: nat)
    requires x > 0 && y > 0
    ensures BitXor(x, y) == (x + y) % 2 + 2 * BitXor(x / 2, y / 2)
  {
  }

  lemma XorHalves(x: nat, y: nat)
    requires x > 0 && y > 0
    ensures BitXor(x, y) % 2 == (x % 2 + y % 2) % 2 && BitXor(x, y) / 2 == BitXor(x / 2, y / 2)
  {
    XorStep(x, y);
    Halves(BitXor(x, y), (x + y) % 2, BitXor(x / 2, y / 2));
    ParityOfSum(x, y);
  }

  lemma {:induction false} ComplementBit(x: nat, n: nat, i: nat)
    requires x < Pow2(n) && i < n
    ensures Bit(Pow2(n) - 1 - x, i) == 1 - Bit(x, i)
    decreases n
  {
    if i > 0 {
      ComplementBit(x / 2, n - 1, i - 1);
      assert (Pow2(n) - 1 - x) / 2 == Pow2(n - 1) - 1 - x / 2;
    }
  }

  lemma NotBit(x: Word, i: nat)
    requires i < 32
    ensures Bit(Not(x), i) == 1 - Bit(x, i)
  {
    Pow2Word();
    ComplementBit(x, 32, i);
  }

  /** Each bit of the first word chooses between the other two. */
  lemma ChBit(x: Word, y: Word, z: Word, i: nat)
    requires i < 32
    ensures Bit(Ch(x, y, z), i) == if Bit(x, i) == 1 then Bit(y, i) else Bit(z, i)
  {
    XorBit(And(x, y), And(Not(x), z), i);
    AndBit(x, y, i);
    AndBit(Not(x), z, i);
    NotBit(x, i);
  }

  /** Each bit is what at least two of the three words have. */
  lemma MajBit(x: Word, y: Word, z: Word, i: nat)
    ensures Bit(Maj(x, y, z), i) == if Bit(x, i) + Bit(y, i) + Bit(z, i) >= 2 then 1 else 0
  {
    XorBit(Xor(And(x, y), And(x, z)), And(y, z), i);
    XorBit(And(x, y), And(x, z), i);
    AndBit(x, y, i);
    AndBit(x, z, i);
    AndBit(y, z, i);
  }

  lemma ThreeXor(a: Word, b: Word, c: Word, i: nat)
    ensures Bit(Xor(Xor(a, b), c), i) == (Bit(a, i) + Bit(b, i) + Bit(c, i)) % 2
  {
    XorBit(Xor(a, b), c, i);
    XorBit(a, b, i);
  }

  /** The mixing functions, each bit as a parity of three bits of the argument. */
  lemma SigmaBits(x: Word, i: nat)
    requires i < 32
    ensures Bit(BigSigma0(x), i) == (Bit(x, (i + 2) % 32) + Bit(x, (i + 13) % 32) + Bit(x, (i + 22) % 32)) % 2
    ensures Bit(BigSigma1(x), i) == (Bit(x, (i + 6) % 32) + Bit(x, (i + 11) % 32) + Bit(x, (i + 25) % 32)) % 2
    ensures Bit(SmallSigma0(x), i) == (Bit(x, (i + 7) % 32) + Bit(x, (i + 18) % 32) + Bit(x, i + 3)) % 2
    ensures Bit(SmallSigma1(x), i) == (Bit(x, (i + 17) % 32) + Bit(x, (i + 19) % 32) + Bit(x, i + 10)) % 2
  {
    BigBits(x, i);
    ThreeXor(Rotr(x, 7), Rotr(x, 18), Shr(x, 3), i);
    RotrBit(x, 7, i);
    RotrBit(x, 18, i);
    ShrBit(x, 3, i);
    ThreeXor(Rotr(x, 17), Rotr(x, 19), Shr(x, 10), i);
    RotrBit(x, 17, i);
    RotrBit(x, 19, i);
    ShrBit(x, 10, i);
  }

  lemma BigBits(x: Word, i: nat)
    requires i < 32
    ensures Bit(BigSigma0(x), i) == (Bit(x, (i + 2) % 32) + Bit(x, (i + 13) % 32) + Bit(x, (i + 22) % 32)) % 2
    ensures Bit(BigSigma1(x), i) == (Bit(x, (i + 6) % 32) + Bit(x, (i + 11) % 32) + Bit(x, (i + 25) % 32)) % 2
  {
    ThreeXor(Rotr(x, 2), Rotr(x, 13), Rotr(x, 22), i);
    RotrBit(x, 2, i);
    RotrBit(x, 13, i);
    RotrBit(x, 22, i);
    ThreeXor(Rotr(x, 6), Rotr(x, 11), Rotr(x, 25), i);
    RotrBit(x, 6, i);
    RotrBit(x, 11, i);
    RotrBit(x, 25, i);
  }
}
