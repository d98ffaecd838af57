/** Decimal text of integers, as std::to_string writes it and digit loops read it. */
module Decimal {

  predicate IsDigit(c: char) { '0' <= c <= '9' }

  function Digit(d: nat): char
    requires d < 10
  {
    '0' + d as char
  }

  function DigitValue(c: char): nat
    requires IsDigit(c)
  {
    (c - '0') as nat
  }

  /** The decimal text of a natural number, without leading zeros. */
  function Text(n: nat): (s: string)
    ensures s != [] && forall i | 0 <= i < |s| :: IsDigit(s[i])
  {
    if n < 10 then [Digit(n)] else Text(n / 10) + [Digit(n % 10)]
  }

  function IntText(n: int): (s: string)
    ensures s != []
  {
    if n < 0 then "-" + Text(-n) else Text(n)
  }

  predicate AllDigits(s: string) { forall i | 0 <= i < |s| :: IsDigit(s[i]) }

  /** The number a digit string stands for, most significant digit first. */
  function Value(s: string): nat
    requires AllDigits(s)
  {
    if s == [] then 0 else Value(s[..|s| - 1]) * 10 + DigitValue(s[|s| - 1])
  }

  /** Reading what was written gives the number back. */
  lemma {:induction false} ValueOfText(n: nat)
    ensures AllDigits(Text(n)) && Value(Text(n)) == n
  {
    if n >= 10 {
      ValueOfText(n / 10);
      assert Text(n)[..|Text(n)| - 1] == Text(n / 10);
    } else {
      assert Text(n)[..0] == [];
    }
  }

  function Pow10(k: nat): nat { if k == 0 then 1 else 10 * Pow10(k - 1) }

  lemma {:induction false} TextLength(n: nat, k: nat)
    requires k > 0 && n < Pow10(k)
    ensures |Text(n)| <= k
  {
    if n >= 10 { TextLength(n / 10, k - 1); }
  }

  /** No partial value of a digit string exceeds its full value, so a reader that stays in
      range at the end was in range all along. */
  lemma {:induction false} PartialValues(s: string, k: nat)
    requires AllDigits(s) && k <= |s|
    ensures Value(s[..k]) <= Value(s)
  {
    if k < |s| {
      PartialValues(s[..|s| - 1], k);
      assert s[..|s| - 1][..k] == s[..k];
    } else {
      assert s[..k] == s;
    }
  }

  /** The end of the run of digits that starts at `i`. */
  function DigitsEnd(s: string, i: nat): (e: nat)
    requires i <= |s|
    ensures i <= e <= |s| && AllDigits(s[i..e]) && (e < |s| ==> !IsDigit(s[e]))
    decreases |s| - i
  {
    if i < |s| && IsDigit(s[i]) then
      var e := DigitsEnd(s, i + 1);
      assert s[i..e] == [s[i]] + s[i + 1..e];
      e
    else i
  }

  lemma {:induction false} DigitsEndAt(s: string, i: nat, e: nat)
    requires i <= e <= |s| && AllDigits(s[i..e]) && (e < |s| ==> !IsDigit(s[e]))
    ensures DigitsEnd(s, i) == e
    decreases e - i
  {
    if i < e {
      assert s[i..e][0] == s[i];
      assert s[i + 1..e] == s[i..e][1..];
      DigitsEndAt(s, i + 1, e);
    }
  }

  lemma {:induction false} DigitsShift(line: string, pos: nat, k: nat)
    requires pos + k <= |line|
    ensures DigitsEnd(line[pos..], k) == DigitsEnd(line, pos + k) - pos
    decreases |line| - pos - k
  {
    if pos + k < |line| {
      assert line[pos..][k] == line[pos + k];
      if IsDigit(line[pos + k]) { DigitsShift(line, pos, k + 1); }
    }
  }

  lemma DigitsHere(line: string, pos: nat)
    requires pos <= |line|
    ensures var d, end := line[pos..], DigitsEnd(line, pos);
            DigitsEnd(d, 0) == end - pos && d[..end - pos] == line[pos..end]
  {
    DigitsShift(line, pos, 0);
  }

  lemma LeadingDigits(m: nat, rest: string)
    requires rest != [] && !IsDigit(rest[0])
    ensures var d := Text(m) + rest; DigitsEnd(d, 0) == |Text(m)| && d[..|Text(m)|] == Text(m)
  {
    var d := Text(m) + rest;
    assert d[..|Text(m)|] == Text(m) == d[0..|Text(m)|];
    DigitsEndAt(d, 0, |Text(m)|);
  }

  /** The loop that reads a run of digits. */
  method ReadDigits(s: string, from: nat) returns (value: nat, end: nat)
    requires from <= |s|
    ensures end == DigitsEnd(s, from) && value == Value(s[from..end])
  {
    value, end := 0, from;
    while end < |s| && IsDigit(s[end])
      invariant from <= end <= |s| && DigitsEnd(s, end) == DigitsEnd(s, from)
      invariant AllDigits(s[from..end]) && value == Value(s[from..end])
    {
      assert s[from..end + 1][..end - from] == s[from..end];
      value := value * 10 + DigitValue(s[end]);
      end := end + 1;
    }
  }
}
