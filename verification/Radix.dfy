/** Quotients and positional numbers with symbolic bases. */
module Radix {

  lemma Multiple(b: int, d: int)
    requires b > 0
    ensures d >= 1 ==> b * d >= b
    ensures d <= -1 ==> b * d <= -b
  {
    assert b * d == b + b * (d - 1) == -b + b * (d + 1);
  }

  lemma Quotient(n: nat, b: int, q: int, r: int)
    requires 0 <= r < b && n == b * q + r
    ensures n / b == q
  {
    var p, s := n / b, n % b;
    assert n == b * p + s && s < b;
    assert b * (p - q) == b * p - b * q;
    Multiple(b, p - q);
  }

  lemma DivStep(x: nat, b: nat)
    requires b > 0
    ensures (x + b) / b == x / b + 1
  {
    var q, r := x / b, x % b;
    assert x == b * q + r;
    assert b * (q + 1) == b * q + b;
    Quotient(x + b, b, q + 1, r);
  }

  // Quotient and remainder by repeated subtraction, for bases that are not constants.

  function Quot(x: nat, n: nat): nat
    requires n > 0
    decreases x
  {
    if x < n then 0 else 1 + Quot(x - n, n)
  }

  function Rem(x: nat, n: nat): (r: nat)
    requires n > 0
    ensures r < n
    decreases x
  {
    if x < n then x else Rem(x - n, n)
  }

  /** A digit and what stands before it can be taken apart again. */
  lemma {:induction false} Apart(a: nat, n: nat, b: nat)
    requires b < n
    ensures Quot(a * n + b, n) == a && Rem(a * n + b, n) == b
  {
    if a == 0 {
      assert a * n == 0;
    } else {
      Apart(a - 1, n, b);
      assert (a - 1) * n == a * n - n && (a - 1) * n >= 0;
    }
  }

  lemma {:induction false} Together(x: nat, n: nat)
    requires n > 0
    ensures Quot(x, n) * n + Rem(x, n) == x
    decreases x
  {
    if x >= n {
      Together(x - n, n);
      assert (Quot(x - n, n) + 1) * n == Quot(x - n, n) * n + n;
    }
  }

  lemma Scaled(a: nat, b: nat, n: nat)
    requires a <= b
    ensures a * n <= b * n
  {
    assert (b - a) * n >= 0;
  }

  lemma Below(a: nat, m: nat, n: nat, b: nat)
    requires a < m && b < n
    ensures a * n + b < m * n
  {
    Scaled(a + 1, m, n);
    assert (a + 1) * n == a * n + n;
  }

  /** A place inside the i-th of e blocks. */
  lemma InBlock(e: nat, size: nat, i: nat, x: nat)
    requires i < e && x < size
    ensures i * size + x < e * size && Quot(i * size + x, size) == i && Rem(i * size + x, size) == x
  {
    Apart(i, size, x);
    Below(i, e, size, x);
  }

  lemma DigitBelow(x: nat, m: nat, n: nat)
    requires n > 0 && x < m * n
    ensures Quot(x, n) < m
  {
    Together(x, n);
    if Quot(x, n) >= m { Scaled(m, Quot(x, n), n); }
  }
}
