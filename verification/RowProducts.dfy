/** One row of an NVFP4 expert times an input, as the vector code and as the scalar reference
    compute it, over exact reals. */
module RowProducts {
  import opened BankLayout

  // ----- what the bytes stand for -----

  function Magnitude(code: nat): real {
    if code == 0 then 0.0 else if code == 1 then 0.5 else if code == 2 then 1.0 else if code == 3 then 1.5
    else if code == 4 then 2.0 else if code == 5 then 3.0 else if code == 6 then 4.0 else 6.0
  }

  /** A four-bit weight: the top bit is the sign, the others select one of eight magnitudes. */
  function E2m1(code: nat): real { if code < 8 then Magnitude(code) else -Magnitude(code - 8) }

  /** That is the four-bit floating-point format: a sign bit, two exponent bits with bias one, and
      one fraction bit; exponent zero is subnormal. */
  lemma E2m1Format(sign: nat, exponent: nat, fraction: nat)
    requires sign < 2 && exponent < 4 && fraction < 2
    ensures var value := if exponent == 0 then 0.5 * fraction as real
                         else (1.0 + 0.5 * fraction as real) * (if exponent == 1 then 1.0 else if exponent == 2 then 2.0 else 4.0);
            E2m1(8 * sign + 2 * exponent + fraction) == if sign == 1 then -value else value
  {
  }

  /** A bank: its layout, its bytes, what a scale byte stands for and the experts' divisors. */
  datatype Bank = Bank(view: View, bytes: seq<nat>, scales: seq<real>, divisors: seq<real>)

  /** Even columns are in the low half of a code byte. */
  function NibbleOf(byte: nat, column: nat): nat { if column % 2 == 0 then byte % 16 else byte / 16 }

  /** The byte at an address; outside the bank it is taken to be zero. */
  function ByteAt(b: Bank, a: Address): nat {
    if Offset(b.view, a) < |b.bytes| then b.bytes[Offset(b.view, a)] else 0
  }

  /** The code bytes and the scale bytes of a row, column by column. */
  function RowCodes(b: Bank, expert: nat, row: nat, n: nat): (r: seq<nat>)
    ensures |r| == n
  {
    if n == 0 then [] else RowCodes(b, expert, row, n - 1) + [ByteAt(b, Code(expert, row, n - 1))]
  }

  function RowScales(b: Bank, expert: nat, row: nat, n: nat): (r: seq<nat>)
    ensures |r| == n
  {
    if n == 0 then [] else RowScales(b, expert, row, n - 1) + [ByteAt(b, Scale(expert, row, n - 1))]
  }

  lemma {:induction false} RowCodeAt(b: Bank, expert: nat, row: nat, n: nat, k: nat)
    requires k < n
    ensures RowCodes(b, expert, row, n)[k] == ByteAt(b, Code(expert, row, k))
  {
    if k < n - 1 { RowCodeAt(b, expert, row, n - 1, k); }
  }

  lemma {:induction false} RowScaleAt(b: Bank, expert: nat, row: nat, n: nat, g: nat)
    requires g < n
    ensures RowScales(b, expert, row, n)[g] == ByteAt(b, Scale(expert, row, g))
  {
    if g < n - 1 { RowScaleAt(b, expert, row, n - 1, g); }
  }

  /** The factor of a group: its decoded scale times the inverse of the expert's divisor. */
  function Coeff(table: seq<real>, code: nat, inverse: real): real {
    if code < |table| then table[code] * inverse else 0.0
  }

  function Decoded(code: nat, coeff: real): real { E2m1(code) * coeff }

  /** The weight of a column: its code times the factor of its group of sixteen. */
  function ColumnWeight(codes: seq<nat>, scales: seq<nat>, table: seq<real>, inverse: real, c: nat): real
    requires c / 2 < |codes| && c / 16 < |scales|
  {
    Decoded(NibbleOf(codes[c / 2], c), Coeff(table, scales[c / 16], inverse))
  }

  /** The first n weights of a row. */
  function Weights(codes: seq<nat>, scales: seq<nat>, table: seq<real>, inverse: real, n: nat): (w: seq<real>)
    requires n <= 2 * |codes| && n <= 16 * |scales|
    ensures |w| == n
  {
    if n == 0 then []
    else Weights(codes, scales, table, inverse, n - 1) + [ColumnWeight(codes, scales, table, inverse, n - 1)]
  }

  lemma {:induction false} WeightAt(codes: seq<nat>, scales: seq<nat>, table: seq<real>, inverse: real, n: nat, c: nat)
    requires n <= 2 * |codes| && n <= 16 * |scales| && c < n
    ensures Weights(codes, scales, table, inverse, n)[c] == ColumnWeight(codes, scales, table, inverse, c)
  {
    if c < n - 1 { WeightAt(codes, scales, table, inverse, n - 1, c); }
  }

  function Term(w: seq<real>, x: seq<real>, i: nat): real
    requires i < |w| && i < |x|
  {
    w[i] * x[i]
  }

  /** The product of a row and an input over the first n columns. */
  function Dot(w: seq<real>, x: seq<real>, n: nat): real
    requires n <= |w| && n <= |x|
  {
    if n == 0 then 0.0 else Dot(w, x, n - 1) + Term(w, x, n - 1)
  }

  // ----- loading a group -----

  function Nibble(packed: seq<nat>, lane: nat): nat
    requires |packed| == 8 && lane < 16
  {
    NibbleOf(packed[lane / 2], lane)
  }

  predicate LaneIs(packed: seq<nat>, coeff: real, w: seq<real>, group: nat, lane: nat)
    requires |packed| == 8 && lane < 16 && group * 16 + 16 <= |w|
  {
    w[group * 16 + lane] == Decoded(Nibble(packed, lane), coeff)
  }

  predicate AllBytes(s: seq<nat>) { forall i | 0 <= i < |s| :: s[i] < 256 }

  /** Eight bytes and a coefficient that stand for the sixteen weights from column 16 * group on. */
  ghost predicate Holds(packed: seq<nat>, coeff: real, w: seq<real>, group: nat) {
    && |packed| == 8 && AllBytes(packed) && group * 16 + 16 <= |w|
    && forall lane: nat | lane < 16 :: LaneIs(packed, coeff, w, group, lane)
  }

  /** An address of the layout is a byte of the bank. */
  predicate Reaches(v: View, size: nat, a: Address) { Valid(v, a) ==> Offset(v, a) < size }

  ghost predicate ValidBank(b: Bank) {
    && (forall a: Address :: Reaches(b.view, |b.bytes|, a)) && AllBytes(b.bytes) && b.view.columns % 16 == 0
    && |b.scales| == 256 && |b.divisors| == b.view.experts
  }

  lemma CodeReached(v: View, d: nat, a: nat, i: nat, r: nat, k: nat)
    requires Shape(v, d, a) && Valid(v, Code(i, r, k))
    ensures Offset(v, Code(i, r, k)) < TotalBytes(v)
  {
    Usable(v, d, a);
    CodesMap(v, d, a, i, r, k);
  }

  lemma ScaleReached(v: View, d: nat, a: nat, i: nat, r: nat, g: nat)
    requires Shape(v, d, a) && Valid(v, Scale(i, r, g))
    ensures Offset(v, Scale(i, r, g)) < TotalBytes(v)
  {
    Usable(v, d, a);
    ScalesMap(v, d, a, i, r, g);
  }

  lemma ShapeReaches(v: View, d: nat, a: nat, x: Address)
    requires Shape(v, d, a) && Valid(v, x)
    ensures Offset(v, x) < TotalBytes(v)
  {
    match x
    case Code(i, r, k) => CodeReached(v, d, a, i, r, k);
    case Scale(i, r, g) => ScaleReached(v, d, a, i, r, g);
    case Divisor(_, _) =>
  }

  lemma ShapeIsReached(v: View, d: nat, a: nat)
    requires Shape(v, d, a)
    ensures v.columns % 16 == 0 && forall x: Address :: Reaches(v, TotalBytes(v), x)
  {
    assert v.columns == 16 * (a * 4);
    forall x: Address ensures Reaches(v, TotalBytes(v), x) {
      if Valid(v, x) { ShapeReaches(v, d, a, x); }
    }
  }

  /** Every bank with a view of a good geometry, and as many bytes as that asks for, is one. */
  lemma AcceptedBankIsValid(b: Bank, experts: nat, rows: nat, columns: nat)
    requires GoodGeometry(experts, rows, columns) && b.view == ViewOf(experts, rows, columns)
    requires |b.bytes| == TotalBytes(b.view)
    requires AllBytes(b.bytes) && |b.scales| == 256 && |b.divisors| == b.view.experts
    ensures ValidBank(b)
  {
    var d, a := Tiled(rows, columns);
    ViewShape(experts, d, a);
    ShapeIsReached(b.view, d, a);
  }

  /** Where a row's codes and scales start; computed once per row. */
  function CodeBase(v: View, expert: nat, row: nat): nat { expert * v.codesPerExpert + row * (v.columns / 2) }

  function ScaleBase(v: View, expert: nat, row: nat): nat {
    v.scaleOffset + expert * v.scalesPerExpert + ScaleRowBase(row, v.columns)
  }

  /** What a group's bytes give are the weights of the row there. */
  ghost predicate GroupTied(bytes: seq<nat>, table: seq<real>, codeBase: nat, scaleBase: nat, inverse: real,
                            w: seq<real>, group: nat) {
    var at, s := codeBase + group * 8, ScaleByte(scaleBase, group);
    && at + 8 <= |bytes| && s < |bytes| && bytes[s] < |table|
    && Holds(bytes[at..at + 8], Coeff(table, bytes[s], inverse), w, group)
  }

  ghost predicate Tied(bytes: seq<nat>, table: seq<real>, codeBase: nat, scaleBase: nat, inverse: real,
                       w: seq<real>, groups: nat) {
    && |w| == groups * 16
    && forall group: nat | group < groups :: GroupTied(bytes, table, codeBase, scaleBase, inverse, w, group)
  }

  lemma CodeIndex(v: View, expert: nat, row: nat, k: nat)
    ensures CodeBase(v, expert, row) + k == Offset(v, Code(expert, row, k))
  {
  }

  lemma ScaleIndex(v: View, expert: nat, row: nat, g: nat)
    ensures ScaleByte(ScaleBase(v, expert, row), g) == Offset(v, Scale(expert, row, g))
  {
  }

  lemma CodeInBank(b: Bank, expert: nat, row: nat, groups: nat, k: nat)
    requires ValidBank(b) && expert < b.view.experts && row < b.view.rows && b.view.columns == groups * 16 && k < groups * 8
    ensures CodeThere(b.bytes, CodeBase(b.view, expert, row), RowCodes(b, expert, row, groups * 8), k)
  {
    var a := Code(expert, row, k);
    assert Reaches(b.view, |b.bytes|, a);
    assert Valid(b.view, a);
    CodeIndex(b.view, expert, row, k);
    RowCodeAt(b, expert, row, groups * 8, k);
  }

  lemma ScaleInBank(b: Bank, expert: nat, row: nat, groups: nat, g: nat)
    requires ValidBank(b) && expert < b.view.experts && row < b.view.rows && b.view.columns == groups * 16 && g < groups
    ensures ScaleThere(b.bytes, b.scales, ScaleBase(b.view, expert, row), RowScales(b, expert, row, groups), g)
  {
    var a := Scale(expert, row, g);
    assert Reaches(b.view, |b.bytes|, a);
    assert Valid(b.view, a);
    ScaleIndex(b.view, expert, row, g);
    RowScaleAt(b, expert, row, groups, g);
  }

  lemma ColumnOf(group: nat, lane: nat)
    requires lane < 16
    ensures var c := group * 16 + lane; c / 2 == group * 8 + lane / 2 && c % 2 == lane % 2 && c / 16 == group
  {
  }

  lemma LaneHolds(codes: seq<nat>, scales: seq<nat>, table: seq<real>, inverse: real, group: nat, lane: nat)
    requires |codes| == 8 * |scales| && group < |scales| && scales[group] < |table| && lane < 16
    ensures ColumnWeight(codes, scales, table, inverse, group * 16 + lane)
         == Decoded(NibbleOf(codes[group * 8 + lane / 2], lane), Coeff(table, scales[group], inverse))
  {
    ColumnOf(group, lane);
  }

  lemma NibbleHolds(codes: seq<nat>, packed: seq<nat>, group: nat, lane: nat)
    requires group * 8 + 8 <= |codes| && packed == codes[group * 8..group * 8 + 8] && lane < 16
    ensures Nibble(packed, lane) == NibbleOf(codes[group * 8 + lane / 2], lane)
  {
  }

  lemma WeightHolds(codes: seq<nat>, scales: seq<nat>, table: seq<real>, inverse: real, w: seq<real>, packed: seq<nat>,
                    group: nat, lane: nat)
    requires |codes| == 8 * |scales| && group < |scales| && scales[group] < |table| && lane < 16
    requires w == Weights(codes, scales, table, inverse, |scales| * 16) && packed == codes[group * 8..group * 8 + 8]
    ensures LaneIs(packed, Coeff(table, scales[group], inverse), w, group, lane)
  {
    NibbleHolds(codes, packed, group, lane);
    LaneHolds(codes, scales, table, inverse, group, lane);
    WeightAt(codes, scales, table, inverse, |scales| * 16, group * 16 + lane);
  }

  /** Eight code bytes and a scale byte hold the sixteen weights of their group. */
  lemma CodesHold(codes: seq<nat>, scales: seq<nat>, table: seq<real>, inverse: real, w: seq<real>, group: nat)
    requires |codes| == 8 * |scales| && group < |scales| && scales[group] < |table| && AllBytes(codes)
    requires w == Weights(codes, scales, table, inverse, |scales| * 16)
    ensures Holds(codes[group * 8..group * 8 + 8], Coeff(table, scales[group], inverse), w, group)
  {
    var packed, coeff := codes[group * 8..group * 8 + 8], Coeff(table, scales[group], inverse);
    forall lane: nat | lane < 16 ensures LaneIs(packed, coeff, w, group, lane) {
      WeightHolds(codes, scales, table, inverse, w, packed, group, lane);
    }
  }

  /** A code byte and a scale byte of a row are where the loops look for them. */
  predicate CodeThere(bytes: seq<nat>, codeBase: nat, codes: seq<nat>, k: nat)
    requires k < |codes|
  {
    codeBase + k < |bytes| && bytes[codeBase + k] == codes[k] < 256
  }

  predicate ScaleThere(bytes: seq<nat>, table: seq<real>, scaleBase: nat, scales: seq<nat>, g: nat)
    requires g < |scales|
  {
    var at := ScaleByte(scaleBase, g);
    at < |bytes| && bytes[at] == scales[g] < |table|
  }

  ghost predicate RowInBank(bytes: seq<nat>, table: seq<real>, codeBase: nat, scaleBase: nat, codes: seq<nat>, scales: seq<nat>) {
    && |codes| == 8 * |scales| && (forall k: nat | k < |codes| :: CodeThere(bytes, codeBase, codes, k))
    && forall g: nat | g < |scales| :: ScaleThere(bytes, table, scaleBase, scales, g)
  }

  lemma RowIsInBank(b: Bank, expert: nat, row: nat, groups: nat)
    requires ValidBank(b) && expert < b.view.experts && row < b.view.rows && b.view.columns == groups * 16
    ensures RowInBank(b.bytes, b.scales, CodeBase(b.view, expert, row), ScaleBase(b.view, expert, row),
                      RowCodes(b, expert, row, groups * 8), RowScales(b, expert, row, groups))
  {
    var codes, scales := RowCodes(b, expert, row, groups * 8), RowScales(b, expert, row, groups);
    var codeBase, scaleBase := CodeBase(b.view, expert, row), ScaleBase(b.view, expert, row);
    forall k: nat | k < |codes| ensures CodeThere(b.bytes, codeBase, codes, k) { CodeInBank(b, expert, row, groups, k); }
    forall g: nat | g < |scales| ensures ScaleThere(b.bytes, b.scales, scaleBase, scales, g) {
      ScaleInBank(b, expert, row, groups, g);
    }
  }

  lemma PackedIsCodes(bytes: seq<nat>, codeBase: nat, codes: seq<nat>, n: nat)
    requires n + 8 <= |codes| && forall k: nat | k < |codes| :: CodeThere(bytes, codeBase, codes, k)
    ensures codeBase + n + 8 <= |bytes| && bytes[codeBase + n..codeBase + n + 8] == codes[n..n + 8]
  {
    assert CodeThere(bytes, codeBase, codes, n + 7);
    var a, c := bytes[codeBase + n..codeBase + n + 8], codes[n..n + 8];
    forall i | 0 <= i < 8 ensures a[i] == c[i] { assert CodeThere(bytes, codeBase, codes, n + i); }
  }

  lemma CodesAreBytes(bytes: seq<nat>, codeBase: nat, codes: seq<nat>)
    requires forall k: nat | k < |codes| :: CodeThere(bytes, codeBase, codes, k)
    ensures AllBytes(codes)
  {
    forall k | 0 <= k < |codes| ensures codes[k] < 256 { assert CodeThere(bytes, codeBase, codes, k); }
  }

  lemma GroupIsTied(bytes: seq<nat>, table: seq<real>, codeBase: nat, scaleBase: nat, inverse: real,
                    codes: seq<nat>, scales: seq<nat>, w: seq<real>, group: nat)
    requires RowInBank(bytes, table, codeBase, scaleBase, codes, scales) && group < |scales|
    requires AllBytes(codes) && w == Weights(codes, scales, table, inverse, |scales| * 16)
    ensures GroupTied(bytes, table, codeBase, scaleBase, inverse, w, group)
  {
    var at, s := codeBase + group * 8, ScaleByte(scaleBase, group);
    assert ScaleThere(bytes, table, scaleBase, scales, group);
    PackedIsCodes(bytes, codeBase, codes, group * 8);
    CodesHold(codes, scales, table, inverse, w, group);
    assert bytes[at..at + 8] == codes[group * 8..group * 8 + 8] && bytes[s] == scales[group];
  }

  lemma RowIsTied(bytes: seq<nat>, table: seq<real>, codeBase: nat, scaleBase: nat, inverse: real,
                  codes: seq<nat>, scales: seq<nat>)
    requires RowInBank(bytes, table, codeBase, scaleBase, codes, scales)
    ensures Tied(bytes, table, codeBase, scaleBase, inverse, Weights(codes, scales, table, inverse, |scales| * 16), |scales|)
  {
    var w := Weights(codes, scales, table, inverse, |scales| * 16);
    CodesAreBytes(bytes, codeBase, codes);
    forall group: nat | group < |scales| ensures GroupTied(bytes, table, codeBase, scaleBase, inverse, w, group) {
      GroupIsTied(bytes, table, codeBase, scaleBase, inverse, codes, scales, w, group);
    }
  }

  method LoadGroup(bytes: seq<nat>, table: seq<real>, codeBase: nat, scaleBase: nat, inverse: real, group: nat,
                   ghost groups: nat, ghost w: seq<real>) returns (packed: seq<nat>, coeff: real)
    requires Tied(bytes, table, codeBase, scaleBase, inverse, w, groups) && group < groups
    ensures Holds(packed, coeff, w, group)
  {
    assert GroupTied(bytes, table, codeBase, scaleBase, inverse, w, group);
    coeff := Coeff(table, bytes[ScaleByte(scaleBase, group)], inverse);
    packed := bytes[codeBase + group * 8..codeBase + group * 8 + 8];
  }

  // ----- the scalar reference -----

  datatype Result = Value(value: real) | InvalidDivisor

  method ScalarLane(packed: seq<nat>, coeff: real, input: seq<real>, group: nat, lane: nat, ghost w: seq<real>)
    returns (t: real)
    requires Holds(packed, coeff, w, group) && lane < 16 && group * 16 + 16 <= |input|
    ensures t == Term(w, input, group * 16 + lane)
  {
    var byte := packed[lane / 2];
    var code := if lane % 2 == 0 then byte % 16 else byte / 16;
    assert code == Nibble(packed, lane) && LaneIs(packed, coeff, w, group, lane);
    t := E2m1(code) * coeff * input[group * 16 + lane];
  }

  method ScalarGroup(packed: seq<nat>, coeff: real, input: seq<real>, group: nat, start: real, ghost w: seq<real>)
    returns (sum: real)
    requires Holds(packed, coeff, w, group) && group * 16 + 16 <= |input| && start == Dot(w, input, group * 16)
    ensures sum == Dot(w, input, group * 16 + 16)
  {
    sum := start;
    for lane := 0 to 16
      invariant sum == Dot(w, input, group * 16 + lane)
    {
      var term := ScalarLane(packed, coeff, input, group, lane, w);
      sum := term + sum;
    }
  }

  method ScalarGroups(bytes: seq<nat>, table: seq<real>, codeBase: nat, scaleBase: nat, inverse: real, groups: nat,
                      input: seq<real>, ghost w: seq<real>) returns (sum: real)
    requires Tied(bytes, table, codeBase, scaleBase, inverse, w, groups) && |input| == groups * 16
    ensures sum == Dot(w, input, groups * 16)
  {
    sum := 0.0;
    for group := 0 to groups
      invariant sum == Dot(w, input, group * 16)
    {
      var packed, coeff := LoadGroup(bytes, table, codeBase, scaleBase, inverse, group, groups, w);
      sum := ScalarGroup(packed, coeff, input, group, sum, w);
    }
  }

  /** The stored weights of a row. */
  ghost function RowWeights(b: Bank, expert: nat, row: nat, inverse: real, groups: nat): seq<real> {
    Weights(RowCodes(b, expert, row, groups * 8), RowScales(b, expert, row, groups), b.scales, inverse, groups * 16)
  }

  /** The stored row times the input: what both implementations are for. */
  ghost function RowProduct(b: Bank, expert: nat, row: nat, input: seq<real>): real
    requires expert < |b.divisors| && b.divisors[expert] > 0.0 && |input| % 16 == 0
  {
    Dot(RowWeights(b, expert, row, 1.0 / b.divisors[expert], |input| / 16), input, |input|)
  }

  lemma ProductIs(b: Bank, expert: nat, row: nat, input: seq<real>, groups: nat)
    requires expert < |b.divisors| && b.divisors[expert] > 0.0 && |input| == groups * 16
    ensures |input| % 16 == 0
    ensures RowProduct(b, expert, row, input)
         == Dot(RowWeights(b, expert, row, 1.0 / b.divisors[expert], groups), input, groups * 16)
  {
    assert |input| / 16 == groups;
  }

  /** A column in terms of its code byte and what its scale byte stands for: even columns are in
      the low half of the byte. */
  function PlainWeight(code: nat, scale: real, c: nat): real {
    E2m1(if c % 2 == 0 then code % 16 else code / 16) * scale
  }

  /** The columns of a row, from its code bytes and scale bytes. */
  function PlainWeights(codes: seq<nat>, scales: seq<nat>, table: seq<real>, n: nat): (v: seq<real>)
    requires n <= 2 * |codes| && n <= 16 * |scales| && AllBytes(scales) && |table| == 256
    ensures |v| == n
  {
    seq(n, c requires 0 <= c < n => PlainWeight(codes[c / 2], table[scales[c / 16]], c))
  }

  lemma DividedWeight(w: real, s: real, i: real, d: real)
    requires i * d == 1.0
    ensures w * (s * i) * d == w * s
  {
    assert w * (s * i) * d == w * s * (i * d);
  }

  /** `w` times `d` is `v`. */
  predicate Scaled(w: real, d: real, v: real) { w * d == v }

  lemma WeightMeans(codes: seq<nat>, scales: seq<nat>, table: seq<real>, d: real, n: nat, c: nat)
    requires c < n <= 2 * |codes| && n <= 16 * |scales| && AllBytes(scales) && |table| == 256 && d > 0.0
    ensures Scaled(Weights(codes, scales, table, 1.0 / d, n)[c], d, PlainWeights(codes, scales, table, n)[c])
  {
    WeightAt(codes, scales, table, 1.0 / d, n, c);
    InverseOf(d);
    ColumnMeans(codes[c / 2], scales[c / 16], table, 1.0 / d, d, c);
  }

  lemma InverseOf(d: real)
    requires d > 0.0
    ensures 1.0 / d * d == 1.0
  {
  }

  lemma ColumnMeans(code: nat, scale: nat, table: seq<real>, i: real, d: real, c: nat)
    requires scale < |table| && i * d == 1.0
    ensures Scaled(Decoded(NibbleOf(code, c), Coeff(table, scale, i)), d, PlainWeight(code, table[scale], c))
  {
    DividedWeight(E2m1(NibbleOf(code, c)), table[scale], i, d);
  }

  lemma ScaledTerm(sum: real, plain: real, d: real, w: real, v: real, x: real)
    requires Scaled(sum, d, plain) && Scaled(w, d, v)
    ensures Scaled(sum + w * x, d, plain + v * x)
  {
    assert w * x * d == w * d * x;
  }

  lemma {:induction false} DotScaled(w: seq<real>, v: seq<real>, input: seq<real>, n: nat, d: real)
    requires n <= |input| && n <= |w| && n <= |v| && forall c | 0 <= c < n :: Scaled(w[c], d, v[c])
    ensures Scaled(Dot(w, input, n), d, Dot(v, input, n))
  {
    if n > 0 {
      DotScaled(w, v, input, n - 1, d);
      ScaledTerm(Dot(w, input, n - 1), Dot(v, input, n - 1), d, w[n - 1], v[n - 1], input[n - 1]);
    }
  }

  lemma RowBytes(b: Bank, expert: nat, row: nat, n: nat)
    requires AllBytes(b.bytes)
    ensures AllBytes(RowScales(b, expert, row, n))
  {
    var s := RowScales(b, expert, row, n);
    forall g | 0 <= g < n ensures s[g] < 256 { RowScaleAt(b, expert, row, n, g); }
  }

  /** What both implementations compute, times the expert's divisor, is the sum over the columns of
      four-bit weight times scale times input; the bytes are those at the row's addresses. */
  lemma RowProductMeans(b: Bank, expert: nat, row: nat, input: seq<real>)
    requires |b.scales| == 256 && AllBytes(b.bytes) && |input| % 16 == 0
    requires expert < |b.divisors| && b.divisors[expert] > 0.0
    ensures var groups := |input| / 16;
            var codes, scales := RowCodes(b, expert, row, groups * 8), RowScales(b, expert, row, groups);
            && (forall k | 0 <= k < groups * 8 :: codes[k] == ByteAt(b, Code(expert, row, k)))
            && (forall g | 0 <= g < groups :: scales[g] == ByteAt(b, Scale(expert, row, g)))
            && AllBytes(scales)
            && Scaled(RowProduct(b, expert, row, input), b.divisors[expert],
                      Dot(PlainWeights(codes, scales, b.scales, |input|), input, |input|))
  {
    var groups, d := |input| / 16, b.divisors[expert];
    var codes, scales := RowCodes(b, expert, row, groups * 8), RowScales(b, expert, row, groups);
    RowBytes(b, expert, row, groups);
    forall k | 0 <= k < groups * 8 ensures codes[k] == ByteAt(b, Code(expert, row, k)) { RowCodeAt(b, expert, row, groups * 8, k); }
    forall g | 0 <= g < groups ensures scales[g] == ByteAt(b, Scale(expert, row, g)) { RowScaleAt(b, expert, row, groups, g); }
    ProductMeans(codes, scales, b.scales, d, input);
  }

  lemma ProductMeans(codes: seq<nat>, scales: seq<nat>, table: seq<real>, d: real, input: seq<real>)
    requires |input| <= 2 * |codes| && |input| <= 16 * |scales| && AllBytes(scales) && |table| == 256 && d > 0.0
    ensures Scaled(Dot(Weights(codes, scales, table, 1.0 / d, |input|), input, |input|), d,
                   Dot(PlainWeights(codes, scales, table, |input|), input, |input|))
  {
    var n := |input|;
    var w, v := Weights(codes, scales, table, 1.0 / d, n), PlainWeights(codes, scales, table, n);
    forall c | 0 <= c < n ensures Scaled(w[c], d, v[c]) { WeightMeans(codes, scales, table, d, n, c); }
    DotScaled(w, v, input, n, d);
  }

  ghost predicate TiedTo(b: Bank, expert: nat, row: nat, inverse: real, groups: nat) {
    Tied(b.bytes, b.scales, CodeBase(b.view, expert, row), ScaleBase(b.view, expert, row), inverse,
         RowWeights(b, expert, row, inverse, groups), groups)
  }

  lemma TiedRow(b: Bank, expert: nat, row: nat, inverse: real, groups: nat)
    requires ValidBank(b) && expert < b.view.experts && row < b.view.rows && b.view.columns == groups * 16
    ensures TiedTo(b, expert, row, inverse, groups)
  {
    RowIsInBank(b, expert, row, groups);
    RowIsTied(b.bytes, b.scales, CodeBase(b.view, expert, row), ScaleBase(b.view, expert, row), inverse,
              RowCodes(b, expert, row, groups * 8), RowScales(b, expert, row, groups));
  }

  method ScalarTied(b: Bank, expert: nat, row: nat, input: seq<real>, groups: nat) returns (sum: real)
    requires expert < |b.divisors| && b.divisors[expert] > 0.0 && |input| == groups * 16 && |input| % 16 == 0
    requires TiedTo(b, expert, row, 1.0 / b.divisors[expert], groups)
    ensures sum == RowProduct(b, expert, row, input)
  {
    var inverse := 1.0 / b.divisors[expert];
    ProductIs(b, expert, row, input, groups);
    sum := ScalarGroups(b.bytes, b.scales, CodeBase(b.view, expert, row), ScaleBase(b.view, expert, row), inverse,
                        groups, input, RowWeights(b, expert, row, inverse, groups));
  }

  method ScalarRow(b: Bank, expert: nat, row: nat, input: seq<real>) returns (r: Result)
    requires ValidBank(b) && expert < b.view.experts && row < b.view.rows && |input| == b.view.columns
    ensures r.InvalidDivisor? <==> !(b.divisors[expert] > 0.0)
    ensures r.Value? ==> |input| % 16 == 0 && r.value == RowProduct(b, expert, row, input)
  {
    if !(b.divisors[expert] > 0.0) { return InvalidDivisor; }
    var groups := b.view.columns / 16;
    TiedRow(b, expert, row, 1.0 / b.divisors[expert], groups);
    var sum := ScalarTied(b, expert, row, input, groups);
    return Value(sum);
  }

  // ----- vectors -----

  /** Byte lanes: the low nibble of each. */
  function LowNibbles(v: seq<nat>): seq<nat> { seq(|v|, i requires 0 <= i < |v| => v[i] % 16) }

  /** Sixteen byte lanes as eight little-endian words, each shifted right by four bits. */
  function ShiftWords(v: seq<nat>): seq<nat>
    requires |v| == 16
  {
    seq(16, i requires 0 <= i < 16 =>
      if i % 2 == 0 then (v[i] + 256 * v[i + 1]) / 16 % 256 else (v[i - 1] + 256 * v[i]) / 16 / 256)
  }

  /** The low eight byte lanes of two vectors, taken in turn. */
  function Interleave(a: seq<nat>, b: seq<nat>): seq<nat>
    requires |a| == 16 && |b| == 16
  {
    seq(16, i requires 0 <= i < 16 => if i % 2 == 0 then a[i / 2] else b[i / 2])
  }

  function Doubled(code: nat): int {
    if code < 5 then code else if code == 5 then 6 else if code == 6 then 8 else if code == 7 then 12
    else if code < 13 then 8 - code else if code == 13 then -6 else if code == 14 then -8 else -12
  }

  /** Table lookup by byte lane; a lane with its top bit set gives zero. */
  function Shuffle(idx: seq<nat>): seq<int> {
    seq(|idx|, i requires 0 <= i < |idx| => if idx[i] >= 128 then 0 else Doubled(idx[i] % 16))
  }

  /** The sixteen doubled weights of a group. */
  function DoubledWeights(packed: seq<nat>): (q: seq<int>)
    requires |packed| == 8
    ensures |q| == 16
  {
    var bytes := packed + [0, 0, 0, 0, 0, 0, 0, 0];
    Shuffle(Interleave(LowNibbles(bytes), LowNibbles(ShiftWords(bytes))))
  }

  lemma LookupIsHalf(code: nat)
    requires code < 16
    ensures Doubled(code) as real * 0.5 == E2m1(code)
  {
  }

  /** Shifting whole words moves bits between bytes, and the mask drops exactly those. */
  lemma ShiftedLow(low: nat, high: nat)
    requires low < 256 && high < 256
    ensures (low + 256 * high) / 16 % 256 % 16 == low / 16
  {
    assert (low + 256 * high) / 16 == low / 16 + 16 * high;
  }

  lemma ShiftedHigh(low: nat, high: nat)
    requires low < 256 && high < 256
    ensures (low + 256 * high) / 16 / 256 % 16 == high / 16
  {
    assert (low + 256 * high) / 16 == low / 16 + 16 * high;
  }

  lemma HighNibbleAt(bytes: seq<nat>, k: nat)
    requires |bytes| == 16 && k < 16 && AllBytes(bytes)
    ensures LowNibbles(ShiftWords(bytes))[k] == bytes[k] / 16
  {
    if k % 2 == 0 {
      ShiftedLow(bytes[k], bytes[k + 1]);
    } else {
      ShiftedHigh(bytes[k - 1], bytes[k]);
    }
  }

  lemma ShuffledAt(idx: seq<nat>, i: nat)
    requires i < |idx| && idx[i] < 16
    ensures Shuffle(idx)[i] == Doubled(idx[i])
  {
  }

  lemma DoubledWeightAt(packed: seq<nat>, lane: nat)
    requires |packed| == 8 && lane < 16 && AllBytes(packed)
    ensures DoubledWeights(packed)[lane] == Doubled(Nibble(packed, lane)) && Nibble(packed, lane) < 16
  {
    var bytes := packed + [0, 0, 0, 0, 0, 0, 0, 0];
    var idx := Interleave(LowNibbles(bytes), LowNibbles(ShiftWords(bytes)));
    assert bytes[lane / 2] == packed[lane / 2];
    HighNibbleAt(bytes, lane / 2);
    assert idx[lane] == Nibble(packed, lane);
    ShuffledAt(idx, lane);
  }

  lemma HalfScale(q: real, w: real, coeff: real)
    requires q * 0.5 == w
    ensures q * (coeff * 0.5) == w * coeff
  {
  }

  /** The vector decode gives, lane by lane, the weights of the group. */
  lemma DecodedLane(packed: seq<nat>, coeff: real, w: seq<real>, group: nat, lane: nat)
    requires Holds(packed, coeff, w, group) && lane < 16
    ensures DoubledWeights(packed)[lane] as real * (coeff * 0.5) == w[group * 16 + lane]
  {
    var code := Nibble(packed, lane);
    assert LaneIs(packed, coeff, w, group, lane);
    DoubledWeightAt(packed, lane);
    LookupIsHalf(code);
    HalfScale(Doubled(code) as real, E2m1(code), coeff);
  }

  function Scaled8(q: seq<int>, scale: real): (r: seq<real>)
    requires |q| == 8
    ensures |r| == 8 && forall i | 0 <= i < 8 :: r[i] == q[i] as real * scale
  {
    seq(8, i requires 0 <= i < 8 => q[i] as real * scale)
  }

  method DecodeDoubled(packed: seq<nat>, coeff: real, group: nat, ghost w: seq<real>) returns (q: seq<int>)
    requires Holds(packed, coeff, w, group)
    ensures |q| == 16 && forall lane | 0 <= lane < 16 :: q[lane] as real * (coeff * 0.5) == w[group * 16 + lane]
  {
    q := DoubledWeights(packed);
    forall lane | 0 <= lane < 16 ensures q[lane] as real * (coeff * 0.5) == w[group * 16 + lane] {
      DecodedLane(packed, coeff, w, group, lane);
    }
  }

  /** The decoded weights of a group: lanes 0 to 7 and lanes 8 to 15. */
  method DecodeWeights(packed: seq<nat>, coeff: real, group: nat, ghost w: seq<real>) returns (lo: seq<real>, hi: seq<real>)
    requires Holds(packed, coeff, w, group)
    ensures |lo| == 8 && |hi| == 8
    ensures forall i | 0 <= i < 8 :: lo[i] == w[group * 16 + i] && hi[i] == w[group * 16 + 8 + i]
  {
    var q := DecodeDoubled(packed, coeff, group, w);
    lo, hi := Scaled8(q[..8], coeff * 0.5), Scaled8(q[8..], coeff * 0.5);
    forall i | 0 <= i < 8 ensures lo[i] == w[group * 16 + i] && hi[i] == w[group * 16 + 8 + i] {
      assert q[..8][i] == q[i] && q[8..][i] == q[8 + i];
    }
  }

  // ----- sums over lanes -----

  function Fmadd(w: seq<real>, x: seq<real>, acc: seq<real>): (r: seq<real>)
    requires |w| == 8 && |x| == 8 && |acc| == 8
    ensures |r| == 8 && forall i | 0 <= i < 8 :: r[i] == w[i] * x[i] + acc[i]
  {
    seq(8, i requires 0 <= i < 8 => w[i] * x[i] + acc[i])
  }

  function AddLanes(a: seq<real>, b: seq<real>): (r: seq<real>)
    requires |a| == |b|
    ensures |r| == |a| && forall i | 0 <= i < |a| :: r[i] == a[i] + b[i]
  {
    seq(|a|, i requires 0 <= i < |a| => a[i] + b[i])
  }

  function HorizontalAdd(a: seq<real>, b: seq<real>): seq<real>
    requires |a| == 4 && |b| == 4
  {
    [a[0] + a[1], a[2] + a[3], b[0] + b[1], b[2] + b[3]]
  }

  /** The horizontal sum: halves added, then two pairwise additions. */
  function HorizontalSum(v: seq<real>): real
    requires |v| == 8
  {
    var once := AddLanes(v[..4], v[4..]);
    var twice := HorizontalAdd(once, once);
    HorizontalAdd(twice, twice)[0]
  }

  function Lanes(v: seq<real>): real
    requires |v| == 8
  {
    v[0] + v[1] + v[2] + v[3] + v[4] + v[5] + v[6] + v[7]
  }

  lemma HorizontalSumIsLanes(v: seq<real>)
    requires |v| == 8
    ensures HorizontalSum(v) == Lanes(v)
  {
    var once := AddLanes(v[..4], v[4..]);
    assert once[0] == v[0] + v[4] && once[1] == v[1] + v[5] && once[2] == v[2] + v[6] && once[3] == v[3] + v[7];
  }

  lemma LanesAdd(a: seq<real>, b: seq<real>)
    requires |a| == 8 && |b| == 8
    ensures Lanes(AddLanes(a, b)) == Lanes(a) + Lanes(b)
  {
  }

  /** Eight consecutive products. */
  function Eight(w: seq<real>, x: seq<real>, n: nat): real
    requires n + 8 <= |w| && n + 8 <= |x|
  {
    Term(w, x, n) + Term(w, x, n + 1) + Term(w, x, n + 2) + Term(w, x, n + 3)
    + Term(w, x, n + 4) + Term(w, x, n + 5) + Term(w, x, n + 6) + Term(w, x, n + 7)
  }

  lemma FourTerms(w: seq<real>, x: seq<real>, n: nat)
    requires n + 4 <= |w| && n + 4 <= |x|
    ensures Dot(w, x, n + 4) == Dot(w, x, n) + Term(w, x, n) + Term(w, x, n + 1) + Term(w, x, n + 2) + Term(w, x, n + 3)
  {
    assert Dot(w, x, n + 1) == Dot(w, x, n) + Term(w, x, n);
    assert Dot(w, x, n + 2) == Dot(w, x, n + 1) + Term(w, x, n + 1);
    assert Dot(w, x, n + 3) == Dot(w, x, n + 2) + Term(w, x, n + 2);
  }

  lemma EightTerms(w: seq<real>, x: seq<real>, n: nat)
    requires n + 8 <= |w| && n + 8 <= |x|
    ensures Dot(w, x, n + 8) == Dot(w, x, n) + Eight(w, x, n)
  {
    FourTerms(w, x, n);
    FourTerms(w, x, n + 4);
  }

  /** Adding a group lane by lane adds its eight products to the lanes' total. */
  lemma FmaddAddsEight(part: seq<real>, acc: seq<real>, w: seq<real>, x: seq<real>, n: nat)
    requires |part| == 8 && |acc| == 8 && n + 8 <= |w| && n + 8 <= |x|
    requires forall i | 0 <= i < 8 :: part[i] == w[n + i]
    ensures Lanes(Fmadd(part, x[n..n + 8], acc)) == Lanes(acc) + Eight(w, x, n)
  {
    var r := Fmadd(part, x[n..n + 8], acc);
    forall i | 0 <= i < 8 ensures r[i] == Term(w, x, n + i) + acc[i] {
      assert x[n..n + 8][i] == x[n + i];
    }
    EightLanes(r, acc, w, x, n);
  }

  lemma EightLanes(r: seq<real>, acc: seq<real>, w: seq<real>, x: seq<real>, n: nat)
    requires |r| == 8 && |acc| == 8 && n + 8 <= |w| && n + 8 <= |x|
    requires forall i | 0 <= i < 8 :: r[i] == Term(w, x, n + i) + acc[i]
    ensures Lanes(r) == Lanes(acc) + Eight(w, x, n)
  {
    assert r[0] == Term(w, x, n) + acc[0];
  }

  // ----- the vector rows -----

  /** A group of one row, added to the row's two accumulators. */
  method VectorGroup(packed: seq<nat>, coeff: real, group: nat, input: seq<real>, acc0: seq<real>, acc1: seq<real>,
                     ghost w: seq<real>) returns (first: seq<real>, second: seq<real>)
    requires Holds(packed, coeff, w, group) && group * 16 + 16 <= |input| && |acc0| == 8 && |acc1| == 8
    requires Lanes(acc0) + Lanes(acc1) == Dot(w, input, group * 16)
    ensures |first| == 8 && |second| == 8 && Lanes(first) + Lanes(second) == Dot(w, input, group * 16 + 16)
  {
    var lo, hi := DecodeWeights(packed, coeff, group, w);
    var n := group * 16;
    first := Fmadd(lo, input[n..n + 8], acc0);
    second := Fmadd(hi, input[n + 8..n + 16], acc1);
    FmaddAddsEight(lo, acc0, w, input, n);
    FmaddAddsEight(hi, acc1, w, input, n + 8);
    SixteenTerms(w, input, n);
  }

  lemma SixteenTerms(w: seq<real>, x: seq<real>, n: nat)
    requires n + 16 <= |w| && n + 16 <= |x|
    ensures Dot(w, x, n + 16) == Dot(w, x, n) + Eight(w, x, n) + Eight(w, x, n + 8)
  {
    EightTerms(w, x, n);
    EightTerms(w, x, n + 8);
  }

  const ZEROS: seq<real> := [0.0, 0.0, 0.0, 0.0, 0.0, 0.0, 0.0, 0.0]

  lemma SumOfBoth(acc0: seq<real>, acc1: seq<real>)
    requires |acc0| == 8 && |acc1| == 8
    ensures HorizontalSum(AddLanes(acc0, acc1)) == Lanes(acc0) + Lanes(acc1)
  {
    LanesAdd(acc0, acc1);
    HorizontalSumIsLanes(AddLanes(acc0, acc1));
  }

  method VectorGroups(bytes: seq<nat>, table: seq<real>, codeBase: nat, scaleBase: nat, inverse: real, groups: nat,
                      input: seq<real>, ghost w: seq<real>) returns (sum: real)
    requires Tied(bytes, table, codeBase, scaleBase, inverse, w, groups) && |input| == groups * 16
    ensures sum == Dot(w, input, groups * 16)
  {
    var acc0, acc1 := ZEROS, ZEROS;
    for group := 0 to groups
      invariant |acc0| == 8 && |acc1| == 8 && Lanes(acc0) + Lanes(acc1) == Dot(w, input, group * 16)
    {
      var packed, coeff := LoadGroup(bytes, table, codeBase, scaleBase, inverse, group, groups, w);
      acc0, acc1 := VectorGroup(packed, coeff, group, input, acc0, acc1, w);
    }
    SumOfBoth(acc0, acc1);
    sum := HorizontalSum(AddLanes(acc0, acc1));
  }

  method VectorTied(b: Bank, expert: nat, row: nat, input: seq<real>, groups: nat) returns (sum: real)
    requires expert < |b.divisors| && b.divisors[expert] > 0.0 && |input| == groups * 16 && |input| % 16 == 0
    requires TiedTo(b, expert, row, 1.0 / b.divisors[expert], groups)
    ensures sum == RowProduct(b, expert, row, input)
  {
    var inverse := 1.0 / b.divisors[expert];
    ProductIs(b, expert, row, input, groups);
    sum := VectorGroups(b.bytes, b.scales, CodeBase(b.view, expert, row), ScaleBase(b.view, expert, row), inverse,
                        groups, input, RowWeights(b, expert, row, inverse, groups));
  }

  method DownRow(b: Bank, expert: nat, row: nat, activation: seq<real>) returns (r: Result)
    requires ValidBank(b) && expert < b.view.experts && row < b.view.rows && |activation| == b.view.columns
    ensures r.InvalidDivisor? <==> !(b.divisors[expert] > 0.0)
    ensures r.Value? ==> |activation| % 16 == 0 && r.value == RowProduct(b, expert, row, activation)
  {
    if !(b.divisors[expert] > 0.0) { return InvalidDivisor; }
    var groups := b.view.columns / 16;
    TiedRow(b, expert, row, 1.0 / b.divisors[expert], groups);
    var sum := VectorTied(b, expert, row, activation, groups);
    return Value(sum);
  }

  datatype Pair = Both(gate: real, up: real) | InvalidPair

  method PairGroups(bytes: seq<nat>, table: seq<real>, gateCodes: nat, gateScales: nat, upCodes: nat, upScales: nat,
                    inverse: real, groups: nat, input: seq<real>, ghost gateW: seq<real>, ghost upW: seq<real>)
    returns (gate: real, up: real)
    requires Tied(bytes, table, gateCodes, gateScales, inverse, gateW, groups)
    requires Tied(bytes, table, upCodes, upScales, inverse, upW, groups) && |input| == groups * 16
    ensures gate == Dot(gateW, input, groups * 16) && up == Dot(upW, input, groups * 16)
  {
    var gate0, gate1, up0, up1 := ZEROS, ZEROS, ZEROS, ZEROS;
    for group := 0 to groups
      invariant |gate0| == 8 && |gate1| == 8 && Lanes(gate0) + Lanes(gate1) == Dot(gateW, input, group * 16)
      invariant |up0| == 8 && |up1| == 8 && Lanes(up0) + Lanes(up1) == Dot(upW, input, group * 16)
    {
      var packed, coeff := LoadGroup(bytes, table, gateCodes, gateScales, inverse, group, groups, gateW);
      gate0, gate1 := VectorGroup(packed, coeff, group, input, gate0, gate1, gateW);
      packed, coeff := LoadGroup(bytes, table, upCodes, upScales, inverse, group, groups, upW);
      up0, up1 := VectorGroup(packed, coeff, group, input, up0, up1, upW);
    }
    SumOfBoth(gate0, gate1);
    SumOfBoth(up0, up1);
    gate, up := HorizontalSum(AddLanes(gate0, gate1)), HorizontalSum(AddLanes(up0, up1));
  }

  method PairTied(b: Bank, expert: nat, row: nat, upRow: nat, input: seq<real>, groups: nat) returns (gate: real, up: real)
    requires expert < |b.divisors| && b.divisors[expert] > 0.0 && |input| == groups * 16 && |input| % 16 == 0
    requires TiedTo(b, expert, row, 1.0 / b.divisors[expert], groups)
    requires TiedTo(b, expert, upRow, 1.0 / b.divisors[expert], groups)
    ensures gate == RowProduct(b, expert, row, input) && up == RowProduct(b, expert, upRow, input)
  {
    var inverse := 1.0 / b.divisors[expert];
    ProductIs(b, expert, row, input, groups);
    ProductIs(b, expert, upRow, input, groups);
    gate, up := PairGroups(b.bytes, b.scales, CodeBase(b.view, expert, row), ScaleBase(b.view, expert, row),
                           CodeBase(b.view, expert, upRow), ScaleBase(b.view, expert, upRow), inverse, groups, input,
                           RowWeights(b, expert, row, inverse, groups), RowWeights(b, expert, upRow, inverse, groups));
  }

  /** The gate row and the up row that lies `intermediate` rows below it, in one pass. */
  method GateUpRows(b: Bank, expert: nat, row: nat, intermediate: nat, input: seq<real>) returns (r: Pair)
    requires ValidBank(b) && expert < b.view.experts && row + intermediate < b.view.rows && |input| == b.view.columns
    ensures r.InvalidPair? <==> !(b.divisors[expert] > 0.0)
    ensures r.Both? ==> |input| % 16 == 0 && r.gate == RowProduct(b, expert, row, input)
    ensures r.Both? ==> r.up == RowProduct(b, expert, row + intermediate, input)
  {
    if !(b.divisors[expert] > 0.0) { return InvalidPair; }
    var groups := b.view.columns / 16;
    var upRow := row + intermediate;
    TiedRow(b, expert, row, 1.0 / b.divisors[expert], groups);
    TiedRow(b, expert, upRow, 1.0 / b.divisors[expert], groups);
    var gate, up := PairTied(b, expert, row, upRow, input, groups);
    return Both(gate, up);
  }
}
