/** The constants of the digest: the first 32 bits of the fractional parts of the cube roots of the
    first 64 primes and of the square roots of the first eight, sections 4.2.2 and 5.3.3 of FIPS
    180-4. */
module Sha256Constants {
  import opened Sha256

  // ----- primes -----

  predicate Divides(d: nat, n: nat)
    requires d > 0
  {
    n % d == 0
  }

  ghost predicate IsPrime(n: nat) { n > 1 && forall d: nat | 1 < d < n :: !Divides(d, n) }

  /** How many primes there are below a number. */
  ghost function PrimesBelow(n: nat): nat { if n == 0 then 0 else PrimesBelow(n - 1) + if IsPrime(n - 1) then 1 else 0 }

  /** None of the primes up to 17 divides the number, unless it is one of them. */
  predicate Sieved(n: nat) {
    && n > 1 && (n == 2 || n % 2 != 0) && (n == 3 || n % 3 != 0) && (n == 5 || n % 5 != 0) && (n == 7 || n % 7 != 0)
    && (n == 11 || n % 11 != 0) && (n == 13 || n % 13 != 0) && (n == 17 || n % 17 != 0)
  }

  function SievedBelow(n: nat): nat { if n == 0 then 0 else SievedBelow(n - 1) + if Sieved(n - 1) then 1 else 0 }

  lemma Inherits(n: nat, s: nat, t: nat, p: nat)
    requires n == s * t && p > 0 && s % p == 0
    ensures n % p == 0
  {
    var u := s / p;
    assert s == p * u;
    assert n == u * t * p;
    Remainder(n, p, u * t, 0);
  }

  lemma SmallDivisor(n: nat, s: nat, t: nat)
    requires n == s * t && 1 < s <= 18 && s < n
    ensures !Sieved(n)
  {
    var p := if s % 2 == 0 then 2 else if s % 3 == 0 then 3 else if s % 5 == 0 then 5 else s;
    Inherits(n, s, t, p);
  }

  lemma ProductAtLeast(s: nat, t: nat)
    requires s >= 19 && t >= 19
    ensures s * t >= 361
  {
    assert (s - 19) * t >= 0;
  }

  lemma NotBoth(s: nat, t: nat, n: nat)
    requires n == s * t && n < 361 && s >= 19
    ensures t <= 18
  {
    if t >= 19 { ProductAtLeast(s, t); }
  }

  lemma SievedIsPrime(n: nat)
    requires n < 361
    ensures IsPrime(n) <==> Sieved(n)
  {
    if Sieved(n) {
      forall d: nat | 1 < d < n ensures !Divides(d, n) {
        if Divides(d, n) {
          var q := n / d;
          assert n == d * q;
          Cofactor(n, d, q);
          if d <= 18 { SmallDivisor(n, d, q); } else { NotBoth(d, q, n); SmallDivisor(n, q, d); }
        }
      }
    } else if n > 1 {
      var d := if n % 2 == 0 then 2 else if n % 3 == 0 then 3 else if n % 5 == 0 then 5 else if n % 7 == 0 then 7
               else if n % 11 == 0 then 11 else if n % 13 == 0 then 13 else 17;
      assert Divides(d, n) && d < n;
    }
  }

  lemma Cofactor(n: nat, d: nat, q: nat)
    requires n == d * q && 1 < d < n
    ensures 1 < q < n
  {
    assert q != 0 && q != 1;
    assert (d - 1) * q >= 1;
  }

  lemma {:induction false} SameCount(n: nat)
    requires n <= 361
    ensures PrimesBelow(n) == SievedBelow(n)
  {
    if n > 0 {
      SameCount(n - 1);
      SievedIsPrime(n - 1);
    }
  }

  // ----- roots -----

  /** The first 32 bits behind the point of the cube root of `p`, whose whole part is `c`. */
  predicate CubeRootBits(k: Word, p: nat, c: nat) {
    var v := c * 0x1_0000_0000 + k;
    v * v * v <= p * 0x1_0000_0000_0000_0000_0000_0000 < (v + 1) * (v + 1) * (v + 1)
  }

  predicate SquareRootBits(k: Word, p: nat, c: nat) {
    var v := c * 0x1_0000_0000 + k;
    v * v <= p * 0x1_0000_0000_0000_0000 < (v + 1) * (v + 1)
  }

  /** The prime with `i` primes below it. */
  ghost predicate NthPrime(i: nat, p: nat) { IsPrime(p) && PrimesBelow(p) == i }

  /** No number from `lo` to `hi` passes the sieve. */
  predicate NoneIn(lo: nat, hi: nat)
    decreases hi - lo
  {
    lo >= hi || (!Sieved(lo) && NoneIn(lo + 1, hi))
  }

  lemma {:induction false} NoneInCount(lo: nat, hi: nat)
    requires lo <= hi && NoneIn(lo, hi)
    ensures SievedBelow(hi) == SievedBelow(lo)
    decreases hi - lo
  {
    if lo < hi { NoneInCount(lo + 1, hi); }
  }

  const P0: seq<nat> := [2, 3, 5, 7, 11, 13, 17, 19]
  const P1: seq<nat> := [23, 29, 31, 37, 41, 43, 47, 53]
  const P2: seq<nat> := [59, 61, 67, 71, 73, 79, 83, 89]
  const P3: seq<nat> := [97, 101, 103, 107, 109, 113, 127, 131]
  const P4: seq<nat> := [137, 139, 149, 151, 157, 163, 167, 173]
  const P5: seq<nat> := [179, 181, 191, 193, 197, 199, 211, 223]
  const P6: seq<nat> := [227, 229, 233, 239, 241, 251, 257, 263]
  const P7: seq<nat> := [269, 271, 277, 281, 283, 293, 307, 311]

  const PRIMES: seq<nat> := P0 + P1 + P2 + P3 + P4 + P5 + P6 + P7


  ghost predicate CubeRootOf(k: Word, p: nat) { exists c: nat :: CubeRootBits(k, p, c) }

  ghost predicate SquareRootOf(k: Word, p: nat) { exists c: nat :: SquareRootBits(k, p, c) }

  lemma Cube(k: Word, p: nat, c: nat)
    requires CubeRootBits(k, p, c)
    ensures CubeRootOf(k, p)
  {
  }

  lemma Square(k: Word, p: nat, c: nat)
    requires SquareRootBits(k, p, c)
    ensures SquareRootOf(k, p)
  {
  }

  /** `q` is the next number behind `p` that passes the sieve. */
  ghost predicate Follows(p: nat, q: nat) { p < q < 361 && Sieved(q) && NoneIn(p + 1, q) }

  lemma Gap(p: nat, from: nat, q: nat)
    requires from == p + 1 <= q < 361 && Sieved(q) && NoneIn(from, q)
    ensures Follows(p, q)
  {
  }

  /** The entries of a row: each a root of its prime, and the primes one behind the other. */
  ghost predicate RowOk(k: seq<Word>, p: seq<nat>, before: nat) {
    && |k| == |p| == 8 && (forall i | 0 <= i < 8 :: CubeRootOf(k[i], p[i]))
    && Follows(before, p[0]) && (forall i | 0 < i < 8 :: Follows(p[i - 1], p[i]))
  }

  lemma RowIs(k0: Word, k1: Word, k2: Word, k3: Word, k4: Word, k5: Word, k6: Word, k7: Word,
              p0: nat, p1: nat, p2: nat, p3: nat, p4: nat, p5: nat, p6: nat, p7: nat, before: nat)
    requires CubeRootOf(k0, p0) && CubeRootOf(k1, p1) && CubeRootOf(k2, p2) && CubeRootOf(k3, p3)
    requires CubeRootOf(k4, p4) && CubeRootOf(k5, p5) && CubeRootOf(k6, p6) && CubeRootOf(k7, p7)
    requires Follows(before, p0) && Follows(p0, p1) && Follows(p1, p2) && Follows(p2, p3)
    requires Follows(p3, p4) && Follows(p4, p5) && Follows(p5, p6) && Follows(p6, p7)
    ensures RowOk([k0, k1, k2, k3, k4, k5, k6, k7], [p0, p1, p2, p3, p4, p5, p6, p7], before)
  {
  }

  lemma Gaps0()
    ensures Follows(0, 2) && Follows(2, 3) && Follows(3, 5) && Follows(5, 7)
    ensures Follows(7, 11) && Follows(11, 13) && Follows(13, 17) && Follows(17, 19)
  {
    Gap(0, 1, 2);
    Gap(2, 3, 3);
    Gap(3, 4, 5);
    Gap(5, 6, 7);
    Gap(7, 8, 11);
    Gap(11, 12, 13);
    Gap(13, 14, 17);
    Gap(17, 18, 19);
  }

  lemma Cubes0()
    ensures CubeRootOf(0x428a2f98, 2) && CubeRootOf(0x71374491, 3) && CubeRootOf(0xb5c0fbcf, 5) && CubeRootOf(0xe9b5dba5, 7)
    ensures CubeRootOf(0x3956c25b, 11) && CubeRootOf(0x59f111f1, 13) && CubeRootOf(0x923f82a4, 17) && CubeRootOf(0xab1c5ed5, 19)
  {
    Cube(0x428a2f98, 2, 1);
    Cube(0x71374491, 3, 1);
    Cube(0xb5c0fbcf, 5, 1);
    Cube(0xe9b5dba5, 7, 1);
    Cube(0x3956c25b, 11, 2);
    Cube(0x59f111f1, 13, 2);
    Cube(0x923f82a4, 17, 2);
    Cube(0xab1c5ed5, 19, 2);
  }

  lemma Row0()
    ensures RowOk(K0, P0, 0)
  {
    Gaps0();
    Cubes0();
    RowIs(0x428a2f98, 0x71374491, 0xb5c0fbcf, 0xe9b5dba5, 0x3956c25b, 0x59f111f1, 0x923f82a4, 0xab1c5ed5,
          2, 3, 5, 7, 11, 13, 17, 19, 0);
  }

  lemma Gaps1()
    ensures Follows(19, 23) && Follows(23, 29) && Follows(29, 31) && Follows(31, 37)
    ensures Follows(37, 41) && Follows(41, 43) && Follows(43, 47) && Follows(47, 53)
  {
    Gap(19, 20, 23);
    Gap(23, 24, 29);
    Gap(29, 30, 31);
    Gap(31, 32, 37);
    Gap(37, 38, 41);
    Gap(41, 42, 43);
    Gap(43, 44, 47);
    Gap(47, 48, 53);
  }

  lemma Cubes1()
    ensures CubeRootOf(0xd807aa98, 23) && CubeRootOf(0x12835b01, 29) && CubeRootOf(0x243185be, 31) && CubeRootOf(0x550c7dc3, 37)
    ensures CubeRootOf(0x72be5d74, 41) && CubeRootOf(0x80deb1fe, 43) && CubeRootOf(0x9bdc06a7, 47) && CubeRootOf(0xc19bf174, 53)
  {
    Cube(0xd807aa98, 23, 2);
    Cube(0x12835b01, 29, 3);
    Cube(0x243185be, 31, 3);
    Cube(0x550c7dc3, 37, 3);
    Cube(0x72be5d74, 41, 3);
    Cube(0x80deb1fe, 43, 3);
    Cube(0x9bdc06a7, 47, 3);
    Cube(0xc19bf174, 53, 3);
  }

  lemma Row1()
    ensures RowOk(K1, P1, 19)
  {
    Gaps1();
    Cubes1();
    RowIs(0xd807aa98, 0x12835b01, 0x243185be, 0x550c7dc3, 0x72be5d74, 0x80deb1fe, 0x9bdc06a7, 0xc19bf174,
          23, 29, 31, 37, 41, 43, 47, 53, 19);
  }

  lemma Gaps2()
    ensures Follows(53, 59) && Follows(59, 61) && Follows(61, 67) && Follows(67, 71)
    ensures Follows(71, 73) && Follows(73, 79) && Follows(79, 83) && Follows(83, 89)
  {
    Gap(53, 54, 59);
    Gap(59, 60, 61);
    Gap(61, 62, 67);
    Gap(67, 68, 71);
    Gap(71, 72, 73);
    Gap(73, 74, 79);
    Gap(79, 80, 83);
    Gap(83, 84, 89);
  }

  lemma Cubes2()
    ensures CubeRootOf(0xe49b69c1, 59) && CubeRootOf(0xefbe4786, 61) && CubeRootOf(0x0fc19dc6, 67) && CubeRootOf(0x240ca1cc, 71)
    ensures CubeRootOf(0x2de92c6f, 73) && CubeRootOf(0x4a7484aa, 79) && CubeRootOf(0x5cb0a9dc, 83) && CubeRootOf(0x76f988da, 89)
  {
    Cube(0xe49b69c1, 59, 3);
    Cube(0xefbe4786, 61, 3);
    Cube(0x0fc19dc6, 67, 4);
    Cube(0x240ca1cc, 71, 4);
    Cube(0x2de92c6f, 73, 4);
    Cube(0x4a7484aa, 79, 4);
    Cube(0x5cb0a9dc, 83, 4);
    Cube(0x76f988da, 89, 4);
  }

  lemma Row2()
    ensures RowOk(K2, P2, 53)
  {
    Gaps2();
    Cubes2();
    RowIs(0xe49b69c1, 0xefbe4786, 0x0fc19dc6, 0x240ca1cc, 0x2de92c6f, 0x4a7484aa, 0x5cb0a9dc, 0x76f988da,
          59, 61, 67, 71, 73, 79, 83, 89, 53);
  }

  lemma Gaps3()
    ensures Follows(89, 97) && Follows(97, 101) && Follows(101, 103) && Follows(103, 107)
    ensures Follows(107, 109) && Follows(109, 113) && Follows(113, 127) && Follows(127, 131)
  {
    Gap(89, 90, 97);
    Gap(97, 98, 101);
    Gap(101, 102, 103);
    Gap(103, 104, 107);
    Gap(107, 108, 109);
    Gap(109, 110, 113);
    Gap(113, 114, 127);
    Gap(127, 128, 131);
  }

  lemma Cubes3()
    ensures CubeRootOf(0x983e5152, 97) && CubeRootOf(0xa831c66d, 101) && CubeRootOf(0xb00327c8, 103) && CubeRootOf(0xbf597fc7, 107)
    ensures CubeRootOf(0xc6e00bf3, 109) && CubeRootOf(0xd5a79147, 113) && CubeRootOf(0x06ca6351, 127) && CubeRootOf(0x14292967, 131)
  {
    Cube(0x983e5152, 97, 4);
    Cube(0xa831c66d, 101, 4);
    Cube(0xb00327c8, 103, 4);
    Cube(0xbf597fc7, 107, 4);
    Cube(0xc6e00bf3, 109, 4);
    Cube(0xd5a79147, 113, 4);
    Cube(0x06ca6351, 127, 5);
    Cube(0x14292967, 131, 5);
  }

  lemma Row3()
    ensures RowOk(K3, P3, 89)
  {
    Gaps3();
    Cubes3();
    RowIs(0x983e5152, 0xa831c66d, 0xb00327c8, 0xbf597fc7, 0xc6e00bf3, 0xd5a79147, 0x06ca6351, 0x14292967,
          97, 101, 103, 107, 109, 113, 127, 131, 89);
  }

  lemma Gaps4()
    ensures Follows(131, 137) && Follows(137, 139) && Follows(139, 149) && Follows(149, 151)
    ensures Follows(151, 157) && Follows(157, 163) && Follows(163, 167) && Follows(167, 173)
  {
    Gap(131, 132, 137);
    Gap(137, 138, 139);
    Gap(139, 140, 149);
    Gap(149, 150, 151);
    Gap(151, 152, 157);
    Gap(157, 158, 163);
    Gap(163, 164, 167);
    Gap(167, 168, 173);
  }

  lemma Cubes4()
    ensures CubeRootOf(0x27b70a85, 137) && CubeRootOf(0x2e1b2138, 139) && CubeRootOf(0x4d2c6dfc, 149) && CubeRootOf(0x53380d13, 151)
    ensures CubeRootOf(0x650a7354, 157) && CubeRootOf(0x766a0abb, 163) && CubeRootOf(0x81c2c92e, 167) && CubeRootOf(0x92722c85, 173)
  {
    Cube(0x27b70a85, 137, 5);
    Cube(0x2e1b2138, 139, 5);
    Cube(0x4d2c6dfc, 149, 5);
    Cube(0x53380d13, 151, 5);
    Cube(0x650a7354, 157, 5);
    Cube(0x766a0abb, 163, 5);
    Cube(0x81c2c92e, 167, 5);
    Cube(0x92722c85, 173, 5);
  }

  lemma Row4()
    ensures RowOk(K4, P4, 131)
  {
    Gaps4();
    Cubes4();
    RowIs(0x27b70a85, 0x2e1b2138, 0x4d2c6dfc, 0x53380d13, 0x650a7354, 0x766a0abb, 0x81c2c92e, 0x92722c85,
          137, 139, 149, 151, 157, 163, 167, 173, 131);
  }

  lemma Gaps5()
    ensures Follows(173, 179) && Follows(179, 181) && Follows(181, 191) && Follows(191, 193)
    ensures Follows(193, 197) && Follows(197, 199) && Follows(199, 211) && Follows(211, 223)
  {
    Gap(173, 174, 179);
    Gap(179, 180, 181);
    Gap(181, 182, 191);
    Gap(191, 192, 193);
    Gap(193, 194, 197);
    Gap(197, 198, 199);
    Gap(199, 200, 211);
    Gap(211, 212, 223);
  }

  lemma Cubes5()
    ensures CubeRootOf(0xa2bfe8a1, 179) && CubeRootOf(0xa81a664b, 181) && CubeRootOf(0xc24b8b70, 191) && CubeRootOf(0xc76c51a3, 193)
    ensures CubeRootOf(0xd192e819, 197) && CubeRootOf(0xd6990624, 199) && CubeRootOf(0xf40e3585, 211) && CubeRootOf(0x106aa070, 223)
  {
    Cube(0xa2bfe8a1, 179, 5);
    Cube(0xa81a664b, 181, 5);
    Cube(0xc24b8b70, 191, 5);
    Cube(0xc76c51a3, 193, 5);
    Cube(0xd192e819, 197, 5);
    Cube(0xd6990624, 199, 5);
    Cube(0xf40e3585, 211, 5);
    Cube(0x106aa070, 223, 6);
  }

  lemma Row5()
    ensures RowOk(K5, P5, 173)
  {
    Gaps5();
    Cubes5();
    RowIs(0xa2bfe8a1, 0xa81a664b, 0xc24b8b70, 0xc76c51a3, 0xd192e819, 0xd6990624, 0xf40e3585, 0x106aa070,
          179, 181, 191, 193, 197, 199, 211, 223, 173);
  }

  lemma Gaps6()
    ensures Follows(223, 227) && Follows(227, 229) && Follows(229, 233) && Follows(233, 239)
    ensures Follows(239, 241) && Follows(241, 251) && Follows(251, 257) && Follows(257, 263)
  {
    Gap(223, 224, 227);
    Gap(227, 228, 229);
    Gap(229, 230, 233);
    Gap(233, 234, 239);
    Gap(239, 240, 241);
    Gap(241, 242, 251);
    Gap(251, 252, 257);
    Gap(257, 258, 263);
  }

  lemma Cubes6()
    ensures CubeRootOf(0x19a4c116, 227) && CubeRootOf(0x1e376c08, 229) && CubeRootOf(0x2748774c, 233) && CubeRootOf(0x34b0bcb5, 239)
    ensures CubeRootOf(0x391c0cb3, 241) && CubeRootOf(0x4ed8aa4a, 251) && CubeRootOf(0x5b9cca4f, 257) && CubeRootOf(0x682e6ff3, 263)
  {
    Cube(0x19a4c116, 227, 6);
    Cube(0x1e376c08, 229, 6);
    Cube(0x2748774c, 233, 6);
    Cube(0x34b0bcb5, 239, 6);
    Cube(0x391c0cb3, 241, 6);
    Cube(0x4ed8aa4a, 251, 6);
    Cube(0x5b9cca4f, 257, 6);
    Cube(0x682e6ff3, 263, 6);
  }

  lemma Row6()
    ensures RowOk(K6, P6, 223)
  {
    Gaps6();
    Cubes6();
    RowIs(0x19a4c116, 0x1e376c08, 0x2748774c, 0x34b0bcb5, 0x391c0cb3, 0x4ed8aa4a, 0x5b9cca4f, 0x682e6ff3,
          227, 229, 233, 239, 241, 251, 257, 263, 223);
  }

  lemma Gaps7()
    ensures Follows(263, 269) && Follows(269, 271) && Follows(271, 277) && Follows(277, 281)
    ensures Follows(281, 283) && Follows(283, 293) && Follows(293, 307) && Follows(307, 311)
  {
    Gap(263, 264, 269);
    Gap(269, 270, 271);
    Gap(271, 272, 277);
    Gap(277, 278, 281);
    Gap(281, 282, 283);
    Gap(283, 284, 293);
    Gap(293, 294, 307);
    Gap(307, 308, 311);
  }

  lemma Cubes7()
    ensures CubeRootOf(0x748f82ee, 269) && CubeRootOf(0x78a5636f, 271) && CubeRootOf(0x84c87814, 277) && CubeRootOf(0x8cc70208, 281)
    ensures CubeRootOf(0x90befffa, 283) && CubeRootOf(0xa4506ceb, 293) && CubeRootOf(0xbef9a3f7, 307) && CubeRootOf(0xc67178f2, 311)
  {
    Cube(0x748f82ee, 269, 6);
    Cube(0x78a5636f, 271, 6);
    Cube(0x84c87814, 277, 6);
    Cube(0x8cc70208, 281, 6);
    Cube(0x90befffa, 283, 6);
    Cube(0xa4506ceb, 293, 6);
    Cube(0xbef9a3f7, 307, 6);
    Cube(0xc67178f2, 311, 6);
  }

  lemma Row7()
    ensures RowOk(K7, P7, 263)
  {
    Gaps7();
    Cubes7();
    RowIs(0x748f82ee, 0x78a5636f, 0x84c87814, 0x8cc70208, 0x90befffa, 0xa4506ceb, 0xbef9a3f7, 0xc67178f2,
          269, 271, 277, 281, 283, 293, 307, 311, 263);
  }

  /** The rows put together. */
  lemma EightRows<T>(a0: seq<T>, a1: seq<T>, a2: seq<T>, a3: seq<T>, a4: seq<T>, a5: seq<T>, a6: seq<T>, a7: seq<T>, i: nat)
    requires |a0| == |a1| == |a2| == |a3| == |a4| == |a5| == |a6| == |a7| == 8 && i < 64
    ensures var all := a0 + a1 + a2 + a3 + a4 + a5 + a6 + a7;
            && |all| == 64
            && all[i] == if i < 8 then a0[i] else if i < 16 then a1[i - 8] else if i < 24 then a2[i - 16]
                         else if i < 32 then a3[i - 24] else if i < 40 then a4[i - 32] else if i < 48 then a5[i - 40]
                         else if i < 56 then a6[i - 48] else a7[i - 56]
  {
  }

  lemma TableOk(k0: seq<Word>, k1: seq<Word>, k2: seq<Word>, k3: seq<Word>, k4: seq<Word>, k5: seq<Word>, k6: seq<Word>,
                k7: seq<Word>, p0: seq<nat>, p1: seq<nat>, p2: seq<nat>, p3: seq<nat>, p4: seq<nat>, p5: seq<nat>,
                p6: seq<nat>, p7: seq<nat>, i: nat)
    requires i < 64 && RowOk(k0, p0, 0) && RowOk(k1, p1, p0[7]) && RowOk(k2, p2, p1[7]) && RowOk(k3, p3, p2[7])
    requires RowOk(k4, p4, p3[7]) && RowOk(k5, p5, p4[7]) && RowOk(k6, p6, p5[7]) && RowOk(k7, p7, p6[7])
    ensures var k, p := k0 + k1 + k2 + k3 + k4 + k5 + k6 + k7, p0 + p1 + p2 + p3 + p4 + p5 + p6 + p7;
            && |k| == |p| == 64 && CubeRootOf(k[i], p[i]) && Follows(if i == 0 then 0 else p[i - 1], p[i])
  {
    EightRows(k0, k1, k2, k3, k4, k5, k6, k7, i);
    EightRows(p0, p1, p2, p3, p4, p5, p6, p7, i);
    EightRows(p0, p1, p2, p3, p4, p5, p6, p7, if i == 0 then 0 else i - 1);
  }

  lemma EntryAt(i: nat)
    requires i < 64
    ensures |K| == |PRIMES| == 64 && CubeRootOf(K[i], PRIMES[i]) && Follows(if i == 0 then 0 else PRIMES[i - 1], PRIMES[i])
  {
    Row0();
    Row1();
    Row2();
    Row3();
    Row4();
    Row5();
    Row6();
    Row7();
    LastOfRows();
    TableOk(K0, K1, K2, K3, K4, K5, K6, K7, P0, P1, P2, P3, P4, P5, P6, P7, i);
  }

  lemma LastOfRows()
    ensures |P0| == |P1| == |P2| == |P3| == |P4| == |P5| == |P6| == 8
    ensures P0[7] == 19 && P1[7] == 53 && P2[7] == 89 && P3[7] == 131
    ensures P4[7] == 173 && P5[7] == 223 && P6[7] == 263
  {
  }

  lemma {:induction false} CountAt(i: nat)
    requires i < 64
    ensures |PRIMES| == 64 && SievedBelow(PRIMES[i]) == i && Sieved(PRIMES[i]) && PRIMES[i] < 361
  {
    EntryAt(i);
    NoneInCount(if i == 0 then 1 else PRIMES[i - 1] + 1, PRIMES[i]);
    if i > 0 { CountAt(i - 1); } else { assert SievedBelow(1) == 0; }
  }

  lemma PrimeAt(i: nat)
    requires i < 64
    ensures |PRIMES| == 64 && NthPrime(i, PRIMES[i])
  {
    CountAt(i);
    SievedIsPrime(PRIMES[i]);
    SameCount(PRIMES[i]);
  }

  /** Round constant `i` is the first 32 bits of the fractional part of the cube root of the prime
      that has `i` primes below it. */
  lemma RoundConstant(i: nat)
    requires i < 64
    ensures |K| == 64 && exists p: nat :: NthPrime(i, p) && CubeRootOf(K[i], p)
  {
    PrimeAt(i);
    EntryAt(i);
  }

  lemma SquaresAre()
    ensures |H0| == |P0| == 8 && forall i | 0 <= i < 8 :: SquareRootOf(H0[i], P0[i])
  {
    Square(0x6a09e667, 2, 1);
    Square(0xbb67ae85, 3, 1);
    Square(0x3c6ef372, 5, 2);
    Square(0xa54ff53a, 7, 2);
    Square(0x510e527f, 11, 3);
    Square(0x9b05688c, 13, 3);
    Square(0x1f83d9ab, 17, 4);
    Square(0x5be0cd19, 19, 4);
  }

  /** Starting word `i` is the first 32 bits of the fractional part of its square root. */
  lemma StartingWord(i: nat)
    requires i < 8
    ensures |H0| == 8 && exists p: nat :: NthPrime(i, p) && SquareRootOf(H0[i], p)
  {
    PrimeAt(i);
    SquaresAre();
    Row0();
    EightRows(P0, P1, P2, P3, P4, P5, P6, P7, i);
    assert SquareRootOf(H0[i], PRIMES[i]);
  }
}
