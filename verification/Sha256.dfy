/** SHA-256: the digest code, with its block loop, tail buffer and rotating registers, against
    the definition in FIPS 180-4. A 32-bit word is a number below 2^32. */
module Sha256 {
  import opened Powers

  const WORD_SIZE: nat := 0x1_0000_0000

  type Byte = b: nat | b < 256
  type Word = w: nat | w < WORD_SIZE

  // ----- 32-bit operations, FIPS 180-4, section 3.2 -----

  function Add(x: Word, y: Word): Word { if x + y < WORD_SIZE then x + y else x + y - WORD_SIZE }

  function Not(x: Word): Word { WORD_SIZE - 1 - x }

  function Shr(x: Word, n: nat): Word
    decreases n, x
  {
    if n == 0 then x else Shr(x / 2, n - 1)
  }

  /** Rotation to the right, one bit at a time: the lowest bit becomes the highest. */
  function Rotr(x: Word, n: nat): Word
    decreases n, x
  {
    if n == 0 then x else Rotr(x / 2 + x % 2 * 0x8000_0000, n - 1)
  }

  function And(x: Word, y: Word): Word { AndBound(x, y); BitAnd(x, y) }

  function Xor(x: Word, y: Word): Word { Pow2Word(); XorBound(x, y, 32); BitXor(x, y) }

  /** The number whose bits are set where both arguments' are. */
  function BitAnd(x: nat, y: nat): nat {
    if x == 0 || y == 0 then 0 else (if x % 2 == 1 && y % 2 == 1 then 1 else 0) + 2 * BitAnd(x / 2, y / 2)
  }

  /** The number whose bits are set where exactly one argument's is. */
  function BitXor(x: nat, y: nat): nat {
    if x == 0 then y else if y == 0 then x else (x + y) % 2 + 2 * BitXor(x / 2, y / 2)
  }

  lemma Pow2Word()
    ensures Pow2(32) == WORD_SIZE
  {
    assert Pow2(8) == 256;
    Pow2Sum(8, 8);
    Pow2Sum(16, 16);
  }

  lemma {:induction false} Pow2Sum(a: nat, b: nat)
    ensures Pow2(a + b) == Pow2(a) * Pow2(b)
  {
    if a > 0 { Pow2Sum(a - 1, b); }
  }

  lemma {:induction false} AndBound(x: nat, y: nat)
    ensures BitAnd(x, y) <= x
  {
    if x != 0 && y != 0 { AndBound(x / 2, y / 2); }
  }

  lemma {:induction false} XorBound(x: nat, y: nat, n: nat)
    requires x < Pow2(n) && y < Pow2(n)
    ensures BitXor(x, y) < Pow2(n)
  {
    if x != 0 && y != 0 { XorBound(x / 2, y / 2, n - 1); }
  }

  // ----- functions and constants, FIPS 180-4, sections 4.1.2, 4.2.2 and 5.3.3 -----

  function Ch(x: Word, y: Word, z: Word): Word { Xor(And(x, y), And(Not(x), z)) }

  function Maj(x: Word, y: Word, z: Word): Word { Xor(Xor(And(x, y), And(x, z)), And(y, z)) }

  function BigSigma0(x: Word): Word { Xor(Xor(Rotr(x, 2), Rotr(x, 13)), Rotr(x, 22)) }

  function BigSigma1(x: Word): Word { Xor(Xor(Rotr(x, 6), Rotr(x, 11)), Rotr(x, 25)) }

  function SmallSigma0(x: Word): Word { Xor(Xor(Rotr(x, 7), Rotr(x, 18)), Shr(x, 3)) }

  function SmallSigma1(x: Word): Word { Xor(Xor(Rotr(x, 17), Rotr(x, 19)), Shr(x, 10)) }

  const K0: seq<Word> := [0x428a2f98, 0x71374491, 0xb5c0fbcf, 0xe9b5dba5, 0x3956c25b, 0x59f111f1, 0x923f82a4, 0xab1c5ed5]
  const K1: seq<Word> := [0xd807aa98, 0x12835b01, 0x243185be, 0x550c7dc3, 0x72be5d74, 0x80deb1fe, 0x9bdc06a7, 0xc19bf174]
  const K2: seq<Word> := [0xe49b69c1, 0xefbe4786, 0x0fc19dc6, 0x240ca1cc, 0x2de92c6f, 0x4a7484aa, 0x5cb0a9dc, 0x76f988da]
  const K3: seq<Word> := [0x983e5152, 0xa831c66d, 0xb00327c8, 0xbf597fc7, 0xc6e00bf3, 0xd5a79147, 0x06ca6351, 0x14292967]
  const K4: seq<Word> := [0x27b70a85, 0x2e1b2138, 0x4d2c6dfc, 0x53380d13, 0x650a7354, 0x766a0abb, 0x81c2c92e, 0x92722c85]
  const K5: seq<Word> := [0xa2bfe8a1, 0xa81a664b, 0xc24b8b70, 0xc76c51a3, 0xd192e819, 0xd6990624, 0xf40e3585, 0x106aa070]
  const K6: seq<Word> := [0x19a4c116, 0x1e376c08, 0x2748774c, 0x34b0bcb5, 0x391c0cb3, 0x4ed8aa4a, 0x5b9cca4f, 0x682e6ff3]
  const K7: seq<Word> := [0x748f82ee, 0x78a5636f, 0x84c87814, 0x8cc70208, 0x90befffa, 0xa4506ceb, 0xbef9a3f7, 0xc67178f2]

  const K: seq<Word> := K0 + K1 + K2 + K3 + K4 + K5 + K6 + K7

  const H0: seq<Word> := [
    0x6a09e667, 0xbb67ae85, 0x3c6ef372, 0xa54ff53a, 0x510e527f, 0x9b05688c, 0x1f83d9ab, 0x5be0cd19]

  lemma ConstantSizes()
    ensures |K| == 64 && |H0| == 8
  {
  }

  // ----- FIPS 180-4, section 5.1.1: padding -----

  function Zeros(n: nat): seq<Byte> { seq(n, _ => 0) }

  /** Byte `k` of a number, counting from the least significant one. */
  function ByteOf(n: nat, k: nat): Byte
    decreases k, n
  {
    if k == 0 then n % 256 else ByteOf(n / 256, k - 1)
  }

  /** The low `k` bytes of a number, the most significant one first. */
  function Field(n: nat, k: nat): (r: seq<Byte>)
    ensures |r| == k
    decreases k, n
  {
    if k == 0 then [] else Field(n / 256, k - 1) + [n % 256]
  }

  /** The bit length as eight bytes. */
  function LengthField(bits: nat): (r: seq<Byte>)
    ensures |r| == 8
  {
    Field(bits, 8)
  }

  function Value(bytes: seq<Byte>): nat {
    if bytes == [] then 0 else Value(bytes[..|bytes| - 1]) * 256 + bytes[|bytes| - 1]
  }

  function Pow256(k: nat): (r: nat)
    ensures r > 0
  {
    if k == 0 then 1 else 256 * Pow256(k - 1)
  }

  lemma {:induction false} FieldValue(n: nat, k: nat)
    ensures Value(Field(n, k)) == n % Pow256(k)
    decreases k
  {
    if k > 0 {
      assert Field(n, k)[..k - 1] == Field(n / 256, k - 1);
      FieldValue(n / 256, k - 1);
      LowDigits(n, Pow256(k - 1));
    }
  }

  lemma {:induction false} FieldOf(n: nat, bytes: seq<Byte>)
    requires forall j | 0 <= j < |bytes| :: bytes[j] == ByteOf(n, |bytes| - 1 - j)
    ensures bytes == Field(n, |bytes|)
    decreases |bytes|
  {
    if bytes != [] {
      var k := |bytes| - 1;
      forall j | 0 <= j < k ensures bytes[..k][j] == ByteOf(n / 256, k - 1 - j) {
        assert bytes[j] == ByteOf(n, k - j);
      }
      FieldOf(n / 256, bytes[..k]);
      assert bytes == bytes[..k] + [bytes[k]];
    }
  }

  lemma LowDigits(n: nat, p: nat)
    requires p > 0
    ensures n / 256 % p * 256 + n % 256 == n % (256 * p)
  {
    var q, d := n / 256, n % 256;
    var hi, lo := q / p, q % p;
    assert q == hi * p + lo;
    assert n == hi * (256 * p) + (lo * 256 + d);
    Remainder(n, 256 * p, hi, lo * 256 + d);
  }

  lemma AtLeast(a: nat, b: nat)
    requires a >= 1
    ensures a * b >= b
  {
  }

  lemma Remainder(n: nat, m: nat, q: nat, r: nat)
    requires m > 0 && r < m && n == q * m + r
    ensures n % m == r
  {
    var q' := n / m;
    var less, more := q - q', q' - q;
    assert less * m == q * m - q' * m && more * m == q' * m - q * m;
    if less >= 1 { AtLeast(less, m); } else if more >= 1 { AtLeast(more, m); }
  }

  /** The length field spells the bit length exactly when that is below 2^64. */
  lemma LengthFieldValue(bits: nat)
    ensures Value(LengthField(bits)) == bits <==> bits < 0x1_0000_0000_0000_0000
  {
    FieldValue(bits, 8);
    assert Pow256(4) == 0x1_0000_0000;
    assert Pow256(8) == 256 * (256 * (256 * (256 * Pow256(4))));
  }

  /** The number of zero bytes: the fewest that make the message, the 0x80 byte and the
      eight-byte length fill whole blocks. */
  function ZeroCount(length: nat): nat { (119 - length % 64) % 64 }

  function Pad(message: seq<Byte>): seq<Byte> {
    message + [0x80] + Zeros(ZeroCount(|message|)) + LengthField(8 * |message|)
  }

  predicate WholeBlocks(length: nat, zeros: nat) { (length + 1 + zeros + 8) % 64 == 0 }

  /** The padding is the shortest allowed one. */
  lemma PadFillsBlocks(message: seq<Byte>)
    ensures |Pad(message)| % 64 == 0
    ensures forall k: nat | WholeBlocks(|message|, k) :: ZeroCount(|message|) <= k
  {
    var n := |message|;
    assert |Pad(message)| == n + 1 + ZeroCount(n) + 8;
    ShortestPad(n, ZeroCount(n));
    forall k: nat | WholeBlocks(n, k) ensures ZeroCount(n) <= k { ShortestPad(n, k); }
  }

  lemma ShortestPad(n: nat, k: nat)
    ensures WholeBlocks(n, ZeroCount(n)) && (WholeBlocks(n, k) ==> ZeroCount(n) <= k)
  {
    var q, r := n / 64, n % 64;
    assert n == 64 * q + r;
    assert ZeroCount(n) == if r <= 55 then 55 - r else 119 - r;
    assert (n + 1 + k + 8) % 64 == (r + 9 + k) % 64;
  }

  // ----- FIPS 180-4, section 6.2.2: computation -----

  function BigEndian(a: Byte, b: Byte, c: Byte, d: Byte): Word {
    a * 0x1000000 + b * 0x10000 + c * 0x100 + d
  }

  /** Word `t` of the message schedule of a 64-byte block. */
  function Schedule(block: seq<Byte>, t: nat): Word
    requires |block| == 64
  {
    if t < 16 then BigEndian(block[4 * t], block[4 * t + 1], block[4 * t + 2], block[4 * t + 3])
    else Add(Add(Add(SmallSigma1(Schedule(block, t - 2)), Schedule(block, t - 7)), SmallSigma0(Schedule(block, t - 15))), Schedule(block, t - 16))
  }

  datatype Registers = Registers(a: Word, b: Word, c: Word, d: Word, e: Word, f: Word, g: Word, h: Word)

  function Load(h: seq<Word>): Registers
    requires |h| == 8
  {
    Registers(h[0], h[1], h[2], h[3], h[4], h[5], h[6], h[7])
  }

  /** The working variables before round `t`, and the two temporary words of round `t`. */
  function Work(h: seq<Word>, block: seq<Byte>, t: nat): Registers
    requires |h| == 8 && |block| == 64 && t <= 64
    decreases t, 0, h, block
  {
    if t == 0 then Load(h)
    else
      var v, t1 := Work(h, block, t - 1), Temp1(h, block, t - 1);
      Registers(Add(t1, Temp2(h, block, t - 1)), v.a, v.b, v.c, Add(v.d, t1), v.e, v.f, v.g)
  }

  function Temp1(h: seq<Word>, block: seq<Byte>, t: nat): Word
    requires |h| == 8 && |block| == 64 && t < 64
    decreases t, 1, h, block
  {
    ConstantSizes();
    var v := Work(h, block, t);
    Add(Add(Add(Add(v.h, BigSigma1(v.e)), Ch(v.e, v.f, v.g)), K[t]), Schedule(block, t))
  }

  function Temp2(h: seq<Word>, block: seq<Byte>, t: nat): Word
    requires |h| == 8 && |block| == 64 && t < 64
    decreases t, 1, h, block
  {
    var v := Work(h, block, t);
    Add(BigSigma0(v.a), Maj(v.a, v.b, v.c))
  }

  function Plus(h: seq<Word>, v: Registers): (r: seq<Word>)
    requires |h| == 8
    ensures |r| == 8
  {
    [Add(v.a, h[0]), Add(v.b, h[1]), Add(v.c, h[2]), Add(v.d, h[3]), Add(v.e, h[4]), Add(v.f, h[5]), Add(v.g, h[6]), Add(v.h, h[7])]
  }

  function Compress(h: seq<Word>, block: seq<Byte>): (r: seq<Word>)
    requires |h| == 8 && |block| == 64
    ensures |r| == 8
  {
    Plus(h, Work(h, block, 64))
  }

  /** The hash value after the first `n` blocks of the data. */
  function HashBlocks(data: seq<Byte>, n: nat): (r: seq<Word>)
    requires 64 * n <= |data|
    ensures |r| == 8
  {
    ConstantSizes();
    if n == 0 then H0 else Compress(HashBlocks(data, n - 1), data[64 * (n - 1)..64 * n])
  }

  function Split(w: Word): seq<Byte> { [w / 0x1000000, w / 0x10000 % 256, w / 0x100 % 256, w % 256] }

  function SplitAll(h: seq<Word>): seq<Byte> {
    if h == [] then [] else SplitAll(h[..|h| - 1]) + Split(h[|h| - 1])
  }

  /** The SHA-256 digest of a message. */
  function Digest(message: seq<Byte>): seq<Byte> {
    PadFillsBlocks(message);
    SplitAll(HashBlocks(Pad(message), |Pad(message)| / 64))
  }

  // ----- the code -----

  lemma SumOrder(a: Word, b: Word, c: Word, d: Word)
    ensures Add(Add(Add(a, b), c), d) == Add(Add(Add(d, c), b), a)
  {
  }

  /** The message schedule, filled word by word into an array. */
  method ExpandBlock(block: seq<Byte>) returns (words: array<Word>)
    requires |block| == 64
    ensures fresh(words) && words.Length == 64
    ensures forall t | 0 <= t < 64 :: words[t] == Schedule(block, t)
  {
    words := new Word[64];
    for i := 0 to 16
      invariant forall t | 0 <= t < i :: words[t] == Schedule(block, t)
    {
      words[i] := BigEndian(block[4 * i], block[4 * i + 1], block[4 * i + 2], block[4 * i + 3]);
    }
    for i := 16 to 64
      invariant forall t | 0 <= t < i :: words[t] == Schedule(block, t)
    {
      var word := NextWord(words[i - 16], words[i - 15], words[i - 7], words[i - 2]);
      words[i] := word;
    }
  }

  method NextWord(w16: Word, w15: Word, w7: Word, w2: Word) returns (w: Word)
    ensures w == Add(Add(Add(SmallSigma1(w2), w7), SmallSigma0(w15)), w16)
  {
    var s0 := Xor(Xor(Rotr(w15, 7), Rotr(w15, 18)), Shr(w15, 3));
    var s1 := Xor(Xor(Rotr(w2, 17), Rotr(w2, 19)), Shr(w2, 10));
    w := Add(Add(Add(w16, s0), w7), s1);
    SumOrder(w16, s0, w7, s1);
  }

  /** The 64 rounds, rotating the registers one by one. */
  method RunRounds(ghost start: seq<Word>, block: seq<Byte>, words: array<Word>, r: Registers) returns (v: Registers)
    requires |start| == 8 && |block| == 64 && r == Load(start) && words.Length == 64
    requires forall t | 0 <= t < 64 :: words[t] == Schedule(block, t)
    ensures v == Work(start, block, 64)
  {
    ConstantSizes();
    var a, b, c, d, e, f, g, h := r.a, r.b, r.c, r.d, r.e, r.f, r.g, r.h;
    for i := 0 to 64
      invariant Registers(a, b, c, d, e, f, g, h) == Work(start, block, i)
    {
      var s1 := Xor(Xor(Rotr(e, 6), Rotr(e, 11)), Rotr(e, 25));
      var choice := Xor(And(e, f), And(Not(e), g));
      var t1 := Add(Add(Add(Add(h, s1), choice), K[i]), words[i]);
      var s0 := Xor(Xor(Rotr(a, 2), Rotr(a, 13)), Rotr(a, 22));
      var majority := Xor(Xor(And(a, b), And(a, c)), And(b, c));
      var t2 := Add(s0, majority);
      assert t1 == Temp1(start, block, i) && t2 == Temp2(start, block, i);
      h := g;
      g := f;
      f := e;
      e := Add(d, t1);
      d := c;
      c := b;
      b := a;
      a := Add(t1, t2);
    }
    v := Registers(a, b, c, d, e, f, g, h);
  }

  method AddRegisters(state: array<Word>, v: Registers)
    requires state.Length == 8
    modifies state
    ensures state[..] == Plus(old(state[..]), v)
  {
    state[0] := Add(state[0], v.a);
    state[1] := Add(state[1], v.b);
    state[2] := Add(state[2], v.c);
    state[3] := Add(state[3], v.d);
    state[4] := Add(state[4], v.e);
    state[5] := Add(state[5], v.f);
    state[6] := Add(state[6], v.g);
    state[7] := Add(state[7], v.h);
  }

  /** Absorbs the block at `offset` into the state, in place. */
  method Transform(state: array<Word>, data: seq<Byte>, offset: nat)
    requires state.Length == 8 && offset + 64 <= |data|
    modifies state
    ensures state[..] == Compress(old(state[..]), data[offset..offset + 64])
  {
    var block := data[offset..offset + 64];
    var words := ExpandBlock(block);
    var r := Registers(state[0], state[1], state[2], state[3], state[4], state[5], state[6], state[7]);
    var v := RunRounds(state[..], block, words, r);
    AddRegisters(state, v);
  }

  lemma {:induction false} SamePrefix(a: seq<Byte>, b: seq<Byte>, n: nat)
    requires 64 * n <= |a| && 64 * n <= |b| && a[..64 * n] == b[..64 * n]
    ensures HashBlocks(a, n) == HashBlocks(b, n)
  {
    if n > 0 {
      assert a[..64 * (n - 1)] == a[..64 * n][..64 * (n - 1)] && b[..64 * (n - 1)] == b[..64 * n][..64 * (n - 1)];
      SamePrefix(a, b, n - 1);
      assert a[64 * (n - 1)..64 * n] == a[..64 * n][64 * (n - 1)..] && b[64 * (n - 1)..64 * n] == b[..64 * n][64 * (n - 1)..];
    }
  }

  method WriteLength(tail: array<Byte>, end: nat, bits: nat)
    requires 8 <= end <= tail.Length
    modifies tail
    ensures forall j | 0 <= j < tail.Length :: tail[j] == if end - 8 <= j < end then ByteOf(bits, end - 1 - j) else old(tail[j])
  {
    for i := 0 to 8
      invariant forall j | 0 <= j < tail.Length :: tail[j] == if end - i <= j < end then ByteOf(bits, end - 1 - j) else old(tail[j])
    {
      tail[end - 1 - i] := ByteOf(bits, i);
    }
  }

  /** The tail buffer: what is left of the input, the 0x80 byte, zeros and the length. */
  method FillTail(input: seq<Byte>, offset: nat) returns (tail: array<Byte>, blocks: nat)
    requires offset <= |input| < offset + 64 && offset % 64 == 0 && |input| < 0x2000_0000_0000_0000
    ensures fresh(tail) && tail.Length == 128 && 1 <= blocks <= 2
    ensures input[..offset] + tail[..64 * blocks] == Pad(input)
  {
    tail := new Byte[128](_ => 0);
    var remaining := |input| - offset;
    for i := 0 to remaining
      invariant forall j | 0 <= j < 128 :: tail[j] == if j < i then input[offset + j] else 0
    {
      tail[i] := input[offset + i];
    }
    tail[remaining] := 0x80;
    blocks := if remaining < 56 then 1 else 2;
    var bits := |input| * 8 % 0x1_0000_0000_0000_0000;
    WriteLength(tail, 64 * blocks, bits);
    ghost var t := tail[..64 * blocks];
    assert t[..remaining] == input[offset..];
    TailIsPad(input, offset, t, blocks);
  }

  /** The tail holds the rest of the input, the 0x80 byte, zeros, and the length field. */
  ghost predicate TailBytes(input: seq<Byte>, offset: nat, tail: seq<Byte>)
    requires offset <= |input| < offset + |tail| - 8
  {
    var remaining := |input| - offset;
    && tail[..remaining] == input[offset..] && tail[remaining] == 0x80
    && (forall j | remaining < j < |tail| - 8 :: tail[j] == 0)
    && (forall j | |tail| - 8 <= j < |tail| :: tail[j] == ByteOf(8 * |input|, |tail| - 1 - j))
  }

  lemma TailIsPad(input: seq<Byte>, offset: nat, tail: seq<Byte>, blocks: nat)
    requires offset <= |input| < offset + 64 && offset % 64 == 0
    requires blocks == (if |input| - offset < 56 then 1 else 2) && |tail| == 64 * blocks
    requires TailBytes(input, offset, tail)
    ensures input[..offset] + tail == Pad(input)
  {
    var remaining, end := |input| - offset, |tail| - 8;
    TailLength(|input|, offset, blocks);
    assert tail[remaining + 1..end] == Zeros(ZeroCount(|input|));
    TailField(8 * |input|, tail);
    FourPieces(input, offset, tail, remaining, end);
  }

  lemma TailField(bits: nat, tail: seq<Byte>)
    requires |tail| >= 8 && forall j | |tail| - 8 <= j < |tail| :: tail[j] == ByteOf(bits, |tail| - 1 - j)
    ensures tail[|tail| - 8..] == LengthField(bits)
  {
    FieldOf(bits, tail[|tail| - 8..]);
  }

  lemma TailLength(length: nat, offset: nat, blocks: nat)
    requires offset <= length < offset + 64 && offset % 64 == 0 && blocks == if length - offset < 56 then 1 else 2
    ensures length - offset + 1 + ZeroCount(length) + 8 == 64 * blocks
  {
    assert length % 64 == length - offset;
  }

  lemma FourPieces(input: seq<Byte>, offset: nat, tail: seq<Byte>, i: nat, j: nat)
    requires offset <= |input| && i < j <= |tail| && tail[..i] == input[offset..]
    ensures input[..offset] + tail == input + [tail[i]] + tail[i + 1..j] + tail[j..]
  {
    assert tail == tail[..i] + [tail[i]] + tail[i + 1..j] + tail[j..];
    assert input == input[..offset] + input[offset..];
  }

  /** Absorbs every whole block of the input. */
  method HashInput(state: array<Word>, input: seq<Byte>) returns (offset: nat)
    requires state.Length == 8 && state[..] == H0
    modifies state
    ensures offset <= |input| < offset + 64 && offset % 64 == 0
    ensures state[..] == HashBlocks(input, offset / 64)
  {
    offset := 0;
    ghost var n := 0;
    while |input| - offset >= 64
      invariant offset == 64 * n <= |input|
      invariant state[..] == HashBlocks(input, n)
    {
      Transform(state, input, offset);
      offset := offset + 64;
      n := n + 1;
    }
  }

  /** Absorbs the tail buffer, which completes the padded message. */
  method HashTail(state: array<Word>, tail: seq<Byte>, blocks: nat, ghost done: nat, ghost data: seq<Byte>)
    requires state.Length == 8 && 64 * blocks <= |tail| && |data| == 64 * (done + blocks)
    requires tail[..64 * blocks] == data[64 * done..] && state[..] == HashBlocks(data, done)
    modifies state
    ensures state[..] == HashBlocks(data, done + blocks)
  {
    for block := 0 to blocks
      invariant state[..] == HashBlocks(data, done + block)
    {
      assert tail[block * 64..block * 64 + 64] == tail[..64 * blocks][block * 64..block * 64 + 64];
      assert data[64 * (done + block)..64 * (done + block + 1)] == data[64 * done..][block * 64..block * 64 + 64];
      Transform(state, tail, block * 64);
    }
  }

  method WriteOut(state: array<Word>) returns (out: seq<Byte>)
    requires state.Length == 8
    ensures out == SplitAll(state[..])
  {
    out := [];
    for i := 0 to 8
      invariant out == SplitAll(state[..i])
    {
      assert state[..i + 1][..i] == state[..i];
      out := out + Split(state[i]);
    }
    assert state[..8] == state[..];
  }

  /** The digest code computes the standard's digest, for every input whose bit length
      fits the 64-bit length field. */
  method Sha256(input: seq<Byte>) returns (out: seq<Byte>)
    requires |input| < 0x2000_0000_0000_0000
    ensures out == Digest(input)
  {
    ConstantSizes();
    PadFillsBlocks(input);
    var state := new Word[8](i requires 0 <= i < 8 => H0[i]);
    assert state[..] == H0;
    var offset := HashInput(state, input);
    var tail, blocks := FillTail(input, offset);
    ghost var data, done := Pad(input), offset / 64;
    assert 64 * done == offset && |data| == 64 * (done + blocks);
    assert data[..offset] == input[..offset] && data[offset..] == tail[..64 * blocks];
    SamePrefix(input, data, done);
    HashTail(state, tail[..], blocks, done, data);
    assert |data| / 64 == done + blocks;
    out := WriteOut(state);
  }
}
