/** A whole expert pair, gate and up rows through the activation into the down rows: the vector
    code, the scalar reference, and the comparison that gates the benchmark. Over exact reals, with
    the activation and its rounding as one given function. */
module ExpertPair {
  import opened RowProducts
  import opened Wrappers

  const HIDDEN: nat := 2560
  const INTERMEDIATE: nat := 640

  /** The activation of a gate and an up value, rounded. */
  type Activation = (real, real) -> real

  /** The two banks of a pair and what they are applied to. */
  datatype Job = Job(gateUp: Bank, down: Bank, expert: nat, input: seq<real>, act: Activation)

  ghost predicate ValidJob(j: Job) {
    && ValidBank(j.gateUp) && j.expert < j.gateUp.view.experts && |j.input| == HIDDEN
    && j.gateUp.view.rows == 2 * INTERMEDIATE && j.gateUp.view.columns == HIDDEN
    && ValidBank(j.down) && j.expert < j.down.view.experts
    && j.down.view.rows == HIDDEN && j.down.view.columns == INTERMEDIATE
  }

  class Scratch {
    const activation: array<real>
    const output: array<real>

    constructor ()
      ensures Valid() && fresh(activation) && fresh(output)
    {
      activation := new real[INTERMEDIATE](_ => 0.0);
      output := new real[HIDDEN](_ => 0.0);
    }

    ghost predicate Valid() { activation.Length == INTERMEDIATE && output.Length == HIDDEN && activation != output }

    ghost function Contents(): Buffers
      reads activation, output
    {
      Buffers(activation[..], output[..])
    }
  }

  datatype Buffers = Buffers(activation: seq<real>, output: seq<real>)

  // ----- what a pair computes -----

  ghost predicate GoodDivisor(b: Bank, expert: nat) { expert < |b.divisors| && b.divisors[expert] > 0.0 }

  ghost function ActivationAt(j: Job, row: nat): real
    requires GoodDivisor(j.gateUp, j.expert) && |j.input| == HIDDEN
  {
    j.act(RowProduct(j.gateUp, j.expert, row, j.input), RowProduct(j.gateUp, j.expert, row + INTERMEDIATE, j.input))
  }

  ghost function Activations(j: Job): seq<real>
    requires GoodDivisor(j.gateUp, j.expert) && |j.input| == HIDDEN
  {
    seq(INTERMEDIATE, row requires 0 <= row < INTERMEDIATE => ActivationAt(j, row))
  }

  ghost function Outputs(b: Bank, expert: nat, activation: seq<real>): seq<real>
    requires GoodDivisor(b, expert) && |activation| == INTERMEDIATE
  {
    seq(HIDDEN, row requires 0 <= row < HIDDEN => RowProduct(b, expert, row, activation))
  }

  /** What a pair leaves in its buffers: nothing new when the first bank's divisor is refused, and
      only the activation when the second one's is. */
  ghost function Computed(j: Job, before: Buffers): Buffers
    requires |j.input| == HIDDEN
  {
    if !GoodDivisor(j.gateUp, j.expert) then before
    else if !GoodDivisor(j.down, j.expert) then Buffers(Activations(j), before.output)
    else Buffers(Activations(j), Outputs(j.down, j.expert, Activations(j)))
  }

  ghost predicate Accepted(j: Job) { GoodDivisor(j.gateUp, j.expert) && GoodDivisor(j.down, j.expert) }

  function Total(s: seq<real>): real { if s == [] then 0.0 else Total(s[..|s| - 1]) + s[|s| - 1] }

  lemma TotalGrows(s: seq<real>, v: real)
    ensures Total(s + [v]) == Total(s) + v
  {
    assert (s + [v])[..|s|] == s;
  }

  // ----- the scalar reference -----

  method ScalarActivations(j: Job, activation: array<real>) returns (ok: bool)
    requires ValidJob(j) && activation.Length == INTERMEDIATE
    modifies activation
    ensures ok <==> GoodDivisor(j.gateUp, j.expert)
    ensures activation[..] == if ok then Activations(j) else old(activation[..])
  {
    for row := 0 to INTERMEDIATE
      invariant row > 0 ==> GoodDivisor(j.gateUp, j.expert)
      invariant forall i | 0 <= i < row :: activation[i] == ActivationAt(j, i)
      invariant row == 0 ==> activation[..] == old(activation[..])
    {
      var gate := ScalarRow(j.gateUp, j.expert, row, j.input);
      if gate.InvalidDivisor? { return false; }
      var up := ScalarRow(j.gateUp, j.expert, row + INTERMEDIATE, j.input);
      if up.InvalidDivisor? { return false; }
      activation[row] := j.act(gate.value, up.value);
    }
    return true;
  }

  method ScalarOutputs(b: Bank, expert: nat, activation: seq<real>, output: array<real>) returns (ok: bool)
    requires ValidBank(b) && expert < b.view.experts && b.view.rows == HIDDEN && b.view.columns == INTERMEDIATE
    requires |activation| == INTERMEDIATE && output.Length == HIDDEN
    modifies output
    ensures ok <==> GoodDivisor(b, expert)
    ensures output[..] == if ok then Outputs(b, expert, activation) else old(output[..])
  {
    for row := 0 to HIDDEN
      invariant row > 0 ==> GoodDivisor(b, expert)
      invariant forall i | 0 <= i < row :: output[i] == RowProduct(b, expert, i, activation)
      invariant row == 0 ==> output[..] == old(output[..])
    {
      var value := ScalarRow(b, expert, row, activation);
      if value.InvalidDivisor? { return false; }
      output[row] := value.value;
    }
    return true;
  }

  method ComputePairScalar(j: Job, scratch: Scratch) returns (ok: bool)
    requires ValidJob(j) && scratch.Valid()
    modifies scratch.activation, scratch.output
    ensures ok <==> Accepted(j)
    ensures scratch.Contents() == Computed(j, old(scratch.Contents()))
  {
    ok := ScalarActivations(j, scratch.activation);
    if !ok { return; }
    ok := ScalarOutputs(j.down, j.expert, scratch.activation[..], scratch.output);
  }

  // ----- the vector code -----

  method VectorActivations(j: Job, activation: array<real>) returns (ok: bool)
    requires ValidJob(j) && activation.Length == INTERMEDIATE
    modifies activation
    ensures ok <==> GoodDivisor(j.gateUp, j.expert)
    ensures activation[..] == if ok then Activations(j) else old(activation[..])
  {
    for row := 0 to INTERMEDIATE
      invariant row > 0 ==> GoodDivisor(j.gateUp, j.expert)
      invariant forall i | 0 <= i < row :: activation[i] == ActivationAt(j, i)
      invariant row == 0 ==> activation[..] == old(activation[..])
    {
      var both := GateUpRows(j.gateUp, j.expert, row, INTERMEDIATE, j.input);
      if both.InvalidPair? { return false; }
      activation[row] := j.act(both.gate, both.up);
    }
    return true;
  }

  /** One down row, given what the whole output is to be. */
  method OutputRow(b: Bank, expert: nat, row: nat, activation: seq<real>, ghost want: seq<real>) returns (r: Result)
    requires ValidBank(b) && expert < b.view.experts && row < b.view.rows == HIDDEN && b.view.columns == INTERMEDIATE
    requires |activation| == INTERMEDIATE && (GoodDivisor(b, expert) ==> want == Outputs(b, expert, activation))
    ensures r.Value? <==> GoodDivisor(b, expert)
    ensures r.Value? ==> |want| == HIDDEN && r.value == want[row]
  {
    r := DownRow(b, expert, row, activation);
  }

  method VectorOutputs(b: Bank, expert: nat, activation: seq<real>, output: array<real>, ghost want: seq<real>)
    returns (checksum: Option<real>)
    requires ValidBank(b) && expert < b.view.experts && b.view.rows == HIDDEN && b.view.columns == INTERMEDIATE
    requires |activation| == INTERMEDIATE && output.Length == HIDDEN
    requires GoodDivisor(b, expert) ==> want == Outputs(b, expert, activation)
    modifies output
    ensures checksum.Some? <==> GoodDivisor(b, expert)
    ensures output[..] == if checksum.Some? then want else old(output[..])
    ensures checksum.Some? ==> checksum.value == Total(want)
  {
    var sum := 0.0;
    for row := 0 to HIDDEN
      invariant row > 0 ==> GoodDivisor(b, expert) && |want| == HIDDEN
      invariant row > 0 ==> output[..row] == want[..row] && sum == Total(want[..row])
      invariant row == 0 ==> output[..] == old(output[..]) && sum == 0.0
    {
      var value := OutputRow(b, expert, row, activation, want);
      if value.InvalidDivisor? { return None; }
      output[row] := value.value;
      sum := sum + value.value;
      TotalGrows(want[..row], want[row]);
      assert want[..row + 1] == want[..row] + [want[row]];
    }
    assert output[..] == output[..HIDDEN] && want[..HIDDEN] == want;
    return Some(sum);
  }

  method ComputePairVector(j: Job, scratch: Scratch) returns (checksum: Option<real>)
    requires ValidJob(j) && scratch.Valid()
    modifies scratch.activation, scratch.output
    ensures checksum.Some? <==> Accepted(j)
    ensures scratch.Contents() == Computed(j, old(scratch.Contents()))
    ensures checksum.Some? ==> checksum.value == Total(scratch.output[..])
  {
    var ok := VectorActivations(j, scratch.activation);
    if !ok { return None; }
    ghost var want := if GoodDivisor(j.down, j.expert) then Outputs(j.down, j.expert, scratch.activation[..]) else [];
    checksum := VectorOutputs(j.down, j.expert, scratch.activation[..], scratch.output, want);
  }

  // ----- the comparison -----

  function Product(a: real, b: real): real { a * b }

  function Mean(a: real, n: nat): real
    requires n > 0
  {
    a / n as real
  }

  /** A non-negative square root of every non-negative number. */
  ghost predicate IsRoot(root: real -> real) {
    forall v: real | v >= 0.0 :: root(v) >= 0.0 && Product(root(v), root(v)) == v
  }

  datatype Comparison = Comparison(cosine: real, nrmse: real, maxAbs: real)

  function Products(a: seq<real>, b: seq<real>, n: nat): real
    requires n <= |a| && n <= |b|
  {
    if n == 0 then 0.0 else Products(a, b, n - 1) + Product(a[n - 1], b[n - 1])
  }

  function Errors(reference: seq<real>, candidate: seq<real>): (e: seq<real>)
    requires |reference| == |candidate|
    ensures |e| == |reference|
  {
    seq(|reference|, i requires 0 <= i < |reference| => candidate[i] - reference[i])
  }

  function Abs(a: real): real { if a < 0.0 then -a else a }

  function LargestTo(e: seq<real>, n: nat): real
    requires n <= |e|
  {
    if n == 0 then 0.0
    else
      var before := LargestTo(e, n - 1);
      if before < Abs(e[n - 1]) then Abs(e[n - 1]) else before
  }

  function Quotient(a: real, d: real, otherwise: real): real { if d == 0.0 then otherwise else a / d }

  function Compared(reference: seq<real>, candidate: seq<real>, root: real -> real): Comparison
    requires |reference| == |candidate| > 0
  {
    var n, e := |reference|, Errors(reference, candidate);
    var refSq, candSq := Products(reference, reference, n), Products(candidate, candidate, n);
    var errRms := root(Mean(Products(e, e, n), n));
    Comparison(Quotient(Products(reference, candidate, n), root(Product(refSq, candSq)), 1.0),
               Quotient(errRms, root(Mean(refSq, n)), errRms), LargestTo(e, n))
  }

  method CompareVectors(reference: seq<real>, candidate: seq<real>, root: real -> real) returns (r: Option<Comparison>)
    ensures r == if |reference| != |candidate| || reference == [] then None else Some(Compared(reference, candidate, root))
  {
    if |reference| != |candidate| || reference == [] { return None; }
    ghost var errors := Errors(reference, candidate);
    var dot, refSq, candSq, errSq, maxAbs := 0.0, 0.0, 0.0, 0.0, 0.0;
    for i := 0 to |reference|
      invariant dot == Products(reference, candidate, i)
      invariant refSq == Products(reference, reference, i) && candSq == Products(candidate, candidate, i)
      invariant errSq == Products(errors, errors, i) && maxAbs == LargestTo(errors, i)
    {
      var a, b := reference[i], candidate[i];
      var e := b - a;
      dot, refSq, candSq, errSq := dot + Product(a, b), refSq + Product(a, a), candSq + Product(b, b), errSq + Product(e, e);
      maxAbs := if maxAbs < Abs(e) then Abs(e) else maxAbs;
    }
    var cosine := Quotient(dot, root(Product(refSq, candSq)), 1.0);
    var refRms, errRms := root(Mean(refSq, |reference|)), root(Mean(errSq, |reference|));
    return Some(Comparison(cosine, Quotient(errRms, refRms, errRms), maxAbs));
  }

  lemma {:induction false} SquaresSum(a: seq<real>, n: nat)
    requires n <= |a|
    ensures Products(a, a, n) >= 0.0
  {
    if n > 0 { SquaresSum(a, n - 1); }
  }

  lemma {:induction false} NoErrors(e: seq<real>, n: nat)
    requires n <= |e| && forall i | 0 <= i < n :: e[i] == 0.0
    ensures Products(e, e, n) == 0.0 && LargestTo(e, n) == 0.0
  {
    if n > 0 { NoErrors(e, n - 1); }
  }

  lemma RootOfSquare(root: real -> real, q: real)
    requires IsRoot(root) && q >= 0.0
    ensures root(Product(q, q)) == q
  {
    var d := root(Product(q, q));
    SquareOrder(0.0, q);
    if d < q { SquareOrder(d, q); } else { SquareOrder(q, d); }
  }

  lemma SquareOrder(a: real, b: real)
    requires 0.0 <= a <= b
    ensures 0.0 <= Product(a, a) && (a < b ==> Product(a, a) < Product(b, b)) && 0.0 <= Product(b, b)
  {
    if a < b {
      var d := b - a;
      assert b * b == a * a + d * a + d * b;
      assert d * a >= 0.0 && d * b > 0.0;
    }
  }

  lemma QuotientOfSelf(q: real)
    ensures Quotient(q, q, 1.0) == 1.0
  {
    if q != 0.0 {
      var r := q / q;
      assert r * q == q;
      assert (r - 1.0) * q == 0.0;
    }
  }

  lemma ZeroMean(n: nat)
    requires n > 0
    ensures Mean(0.0, n) == 0.0 == Product(0.0, 0.0)
  {
  }

  /** Equal vectors compare as perfectly alike. */
  lemma SameVectors(v: seq<real>, root: real -> real)
    requires v != [] && IsRoot(root)
    ensures Compared(v, v, root) == Comparison(1.0, 0.0, 0.0)
  {
    var n, e := |v|, Errors(v, v);
    var q := Products(v, v, n);
    SquaresSum(v, n);
    NoErrors(e, n);
    RootOfSquare(root, q);
    RootOfSquare(root, 0.0);
    ZeroMean(n);
    QuotientOfSelf(q);
  }

  lemma QuotientOrder(a: real, d: real, b: real)
    requires d > 0.0
    ensures (Quotient(a, d, a) <= b <==> a <= Product(b, d)) && (Quotient(a, d, 1.0) >= b <==> a >= Product(b, d))
  {
    var q := a / d;
    assert q * d == a;
    if q <= b { assert (b - q) * d >= 0.0; } else { assert (q - b) * d > 0.0; }
    if q >= b { assert (q - b) * d >= 0.0; } else { assert (b - q) * d > 0.0; }
  }

  lemma SquaresOrder(a: real, b: real)
    requires a >= 0.0 && b >= 0.0
    ensures a <= b <==> Product(a, a) <= Product(b, b)
  {
    if a <= b { SquareOrder(a, b); } else { SquareOrder(b, a); }
  }

  lemma SquareOfProduct(b: real, r: real, m: real)
    requires Product(r, r) == m
    ensures Product(Product(b, r), Product(b, r)) == Product(Product(b, b), m)
  {
    assert b * r * (b * r) == b * b * (r * r);
  }

  lemma MeanOrder(a: real, c: real, b: real, n: nat)
    requires n > 0
    ensures Mean(a, n) <= Product(b, Mean(c, n)) <==> a <= Product(b, c)
  {
    var k, x, y := n as real, a / n as real, c / n as real;
    assert x * k == a && y * k == c;
    assert b * y * k == b * (y * k);
    if x <= b * y { assert (b * y - x) * k >= 0.0; } else { assert (x - b * y) * k > 0.0; }
  }

  lemma RootsCompare(err: real, ref: real, b: real, n: nat, root: real -> real)
    requires IsRoot(root) && n > 0 && err >= 0.0 && ref > 0.0 && b >= 0.0
    ensures root(Mean(ref, n)) > 0.0
    ensures Quotient(root(Mean(err, n)), root(Mean(ref, n)), root(Mean(err, n))) <= b <==> err <= Product(Product(b, b), ref)
  {
    MeansPositive(err, ref, n);
    var e, r := root(Mean(err, n)), root(Mean(ref, n));
    assert Product(r, r) == Mean(ref, n) && Product(e, e) == Mean(err, n);
    NonzeroRoot(r, Mean(ref, n));
    QuotientOrder(e, r, b);
    BothNonnegative(b, r);
    SquaresOrder(e, Product(b, r));
    SquareOfProduct(b, r, Mean(ref, n));
    MeanOrder(err, ref, Product(b, b), n);
  }

  lemma MeansPositive(err: real, ref: real, n: nat)
    requires n > 0 && err >= 0.0 && ref > 0.0
    ensures Mean(err, n) >= 0.0 && Mean(ref, n) > 0.0
  {
  }

  lemma NonzeroRoot(r: real, m: real)
    requires r >= 0.0 && Product(r, r) == m && m > 0.0
    ensures r > 0.0
  {
  }

  lemma BothNonnegative(a: real, b: real)
    requires a >= 0.0 && b >= 0.0
    ensures Product(a, b) >= 0.0
  {
  }

  lemma {:induction false} LargestMeans(e: seq<real>, n: nat, i: nat)
    requires n <= |e|
    ensures LargestTo(e, n) >= 0.0 && (i < n ==> Abs(e[i]) <= LargestTo(e, n))
    ensures n > 0 ==> exists k | 0 <= k < n :: LargestTo(e, n) == Abs(e[k])
  {
    if n > 0 {
      LargestMeans(e, n - 1, i);
    }
  }

  /** What the comparison says of a reference that is not all zero: the relative error is at most `b`
      exactly when the squared errors are at most `b` squared of the squared reference, and the
      largest error bounds every one and is one of them. */
  lemma ComparisonMeans(reference: seq<real>, candidate: seq<real>, root: real -> real, b: real, i: nat)
    requires |reference| == |candidate| > 0 && IsRoot(root) && b >= 0.0 && i < |reference|
    requires Products(reference, reference, |reference|) > 0.0
    ensures var n, e, r := |reference|, Errors(reference, candidate), Compared(reference, candidate, root);
            && (r.nrmse <= b <==> Products(e, e, n) <= Product(Product(b, b), Products(reference, reference, n)))
            && Abs(candidate[i] - reference[i]) <= r.maxAbs
            && exists k | 0 <= k < n :: r.maxAbs == Abs(e[k])
  {
    var n, e := |reference|, Errors(reference, candidate);
    SquaresSum(e, n);
    RootsCompare(Products(e, e, n), Products(reference, reference, n), b, n, root);
    LargestMeans(e, n, i);
  }

  /** The numerical gate of the benchmark. */
  predicate Passes(r: Comparison) { r.cosine >= 0.99999 && r.nrmse <= 0.002 }

  datatype Verdict = Passed | BadDivisor | Failed

  /** The check before a benchmark: the vector code and the scalar reference leave the same output,
      so the gate is never what stops it, and only a refused divisor does. */
  method VerifyPair(j: Job, root: real -> real) returns (v: Verdict, scalar: Scratch, vectorized: Scratch)
    requires ValidJob(j) && IsRoot(root)
    ensures v == if Accepted(j) then Passed else BadDivisor
    ensures scalar.Valid() && vectorized.Valid()
    ensures Accepted(j) ==> scalar.Contents() == vectorized.Contents()
  {
    scalar := new Scratch();
    vectorized := new Scratch();
    var ok := ComputePairScalar(j, scalar);
    if !ok { return BadDivisor, scalar, vectorized; }
    var checksum := ComputePairVector(j, vectorized);
    if checksum.None? { return BadDivisor, scalar, vectorized; }
    SameVectors(scalar.output[..], root);
    var result := CompareVectors(scalar.output[..], vectorized.output[..], root);
    if result.None? || !Passes(result.value) { return Failed, scalar, vectorized; }
    return Passed, scalar, vectorized;
  }
}
