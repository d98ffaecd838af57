/** The corpus text check, against the encoding of sections 3 and 4 of RFC 3629. */
module Utf8 {
  import opened Wrappers

  // ----- the encoding -----

  /** The code points the corpus may contain. */
  predicate Scalar(v: nat) { 0 < v <= 0x10FFFF && !(0xD800 <= v <= 0xDFFF) }

  ghost predicate Scalars(vs: seq<nat>) { forall i | 0 <= i < |vs| :: Scalar(vs[i]) }

  function Encode(v: nat): (r: seq<nat>)
    ensures r != []
  {
    if v < 0x80 then [v]
    else if v < 0x800 then [0xC0 + v / 0x40, 0x80 + v % 0x40]
    else if v < 0x10000 then [0xE0 + v / 0x1000, 0x80 + v / 0x40 % 0x40, 0x80 + v % 0x40]
    else [0xF0 + v / 0x40000, 0x80 + v / 0x1000 % 0x40, 0x80 + v / 0x40 % 0x40, 0x80 + v % 0x40]
  }

  function EncodeAll(vs: seq<nat>): seq<nat> {
    if vs == [] then [] else Encode(vs[0]) + EncodeAll(vs[1..])
  }

  // ----- the check -----

  /** The bits a lead byte contributes and the number of continuation bytes it asks for. */
  function Lead(b: nat): Option<(nat, nat)> {
    if b <= 0x7F then if b == 0 then None else Some((b, 0))
    else if 0xC2 <= b <= 0xDF then Some((b % 0x20, 1))
    else if 0xE0 <= b <= 0xEF then Some((b % 0x10, 2))
    else if 0xF0 <= b <= 0xF4 then Some((b % 0x08, 3))
    else None
  }

  predicate Continues(b: nat) { 0x80 <= b < 0xC0 }

  /** A value extended by the low six bits of continuation bytes. */
  function Extend(value: nat, bytes: seq<nat>): Option<nat>
    decreases |bytes|
  {
    if bytes == [] then Some(value)
    else if !Continues(bytes[0]) then None
    else Extend(value * 0x40 + bytes[0] % 0x40, bytes[1..])
  }

  /** Longer than needed, beyond the last code point, or a surrogate. */
  predicate Rejected(value: nat, continuation: nat) {
    || (continuation == 1 && value < 0x80) || (continuation == 2 && value < 0x800)
    || (continuation == 3 && value < 0x10000) || value > 0x10FFFF || 0xD800 <= value <= 0xDFFF
  }

  /** The first code point and its length in bytes. */
  function DecodeFirst(text: seq<nat>): (r: Option<(nat, nat)>)
    requires text != []
    ensures r.Some? ==> 0 < r.value.1 <= |text|
  {
    var lead := Lead(text[0]);
    if lead.None? || lead.value.1 > |text| - 1 then None
    else if lead.value.1 == 0 then Some((lead.value.0, 1))
    else
      var value := Extend(lead.value.0, text[1..1 + lead.value.1]);
      if value.None? || Rejected(value.value, lead.value.1) then None else Some((value.value, 1 + lead.value.1))
  }

  function Decode(text: seq<nat>): Option<seq<nat>> {
    if text == [] then Some([])
    else
      match DecodeFirst(text)
      case None => None
      case Some((v, n)) =>
        match Decode(text[n..])
        case None => None
        case Some(vs) => Some([v] + vs)
  }

  method TakeContinuation(text: seq<nat>, from: nat, start: nat, continuation: nat) returns (value: Option<nat>)
    requires from + continuation <= |text|
    ensures value == Extend(start, text[from..from + continuation])
  {
    var i, v := from, start;
    ghost var end := from + continuation;
    for j := 0 to continuation
      invariant i == from + j && Extend(v, text[i..end]) == Extend(start, text[from..end])
    {
      var byte := text[i];
      assert text[i..end][0] == byte && text[i..end][1..] == text[i + 1..end];
      i := i + 1;
      if !Continues(byte) { return None; }
      v := v * 0x40 + byte % 0x40;
    }
    return Some(v);
  }

  method ValidUtf8(text: seq<nat>) returns (ok: bool)
    ensures ok <==> Decode(text).Some?
  {
    var i := 0;
    while i < |text|
      invariant i <= |text| && (Decode(text[i..]).Some? <==> Decode(text).Some?)
    {
      ghost var here := text[i..];
      var lead := text[i];
      i := i + 1;
      assert here[0] == lead && here[1..] == text[i..];
      var first := Lead(lead);
      if first.None? { return false; }
      var value, continuation := first.value.0, first.value.1;
      if continuation == 0 { continue; }
      if continuation > |text| - i { return false; }
      assert here[1..1 + continuation] == text[i..i + continuation];
      assert here[1 + continuation..] == text[i + continuation..];
      var extended := TakeContinuation(text, i, value, continuation);
      if extended.None? || Rejected(extended.value, continuation) { return false; }
      i := i + continuation;
    }
    assert text[i..] == [];
    return true;
  }

  // ----- the check accepts exactly the encodings -----

  lemma ExtendOne(value: nat, a: nat)
    ensures Extend(value, [a]) == if Continues(a) then Some(value * 0x40 + a % 0x40) else None
  {
    assert [a][1..] == [];
  }

  lemma ExtendTwo(value: nat, a: nat, b: nat)
    ensures Extend(value, [a, b])
         == if Continues(a) && Continues(b) then Some((value * 0x40 + a % 0x40) * 0x40 + b % 0x40) else None
  {
    assert [a, b][1..] == [b];
    ExtendOne(value * 0x40 + a % 0x40, b);
  }

  lemma ExtendThree(value: nat, a: nat, b: nat, c: nat)
    ensures Extend(value, [a, b, c])
         == if Continues(a) && Continues(b) && Continues(c)
            then Some(((value * 0x40 + a % 0x40) * 0x40 + b % 0x40) * 0x40 + c % 0x40) else None
  {
    assert [a, b, c][1..] == [b, c];
    ExtendTwo(value * 0x40 + a % 0x40, b, c);
  }

  lemma Digits64(x: nat, y: nat)
    requires y < 0x40
    ensures (x * 0x40 + y) / 0x40 == x && (x * 0x40 + y) % 0x40 == y
  {
  }

  lemma Digits4096(x: nat, y: nat, z: nat)
    requires y < 0x40 && z < 0x40
    ensures var v := (x * 0x40 + y) * 0x40 + z; v / 0x40 == x * 0x40 + y && v / 0x1000 == x && v % 0x40 == z
  {
  }

  lemma TopDigit(v: nat)
    ensures v / 0x40000 == v / 0x1000 / 0x40
  {
  }

  lemma TwoBytes(l: nat, a: nat)
    requires 0xC2 <= l <= 0xDF && Continues(a)
    ensures var v := l % 0x20 * 0x40 + a % 0x40; !Rejected(v, 1) && Scalar(v) && Encode(v) == [l, a]
  {
    Digits64(l % 0x20, a % 0x40);
  }

  lemma ThreeBytes(l: nat, a: nat, b: nat)
    requires 0xE0 <= l <= 0xEF && Continues(a) && Continues(b)
    ensures var v := (l % 0x10 * 0x40 + a % 0x40) * 0x40 + b % 0x40;
            !Rejected(v, 2) ==> Scalar(v) && Encode(v) == [l, a, b]
  {
    Digits4096(l % 0x10, a % 0x40, b % 0x40);
    Digits64(l % 0x10, a % 0x40);
  }

  lemma FourDigits(p: nat, q: nat, r: nat, s: nat)
    requires q < 0x40 && r < 0x40 && s < 0x40
    ensures var v := ((p * 0x40 + q) * 0x40 + r) * 0x40 + s;
            v / 0x40000 == p && v / 0x1000 % 0x40 == q && v / 0x40 % 0x40 == r && v % 0x40 == s
  {
    var x := p * 0x40 + q;
    Digits4096(x, r, s);
    Digits64(x, r);
    Digits64(p, q);
    TopDigit((x * 0x40 + r) * 0x40 + s);
  }

  lemma LowSix(a: nat)
    requires Continues(a)
    ensures a % 0x40 == a - 0x80
  {
  }

  lemma FourBytes(l: nat, a: nat, b: nat, c: nat)
    requires 0xF0 <= l <= 0xF4 && Continues(a) && Continues(b) && Continues(c)
    ensures var v := ((l % 0x08 * 0x40 + a % 0x40) * 0x40 + b % 0x40) * 0x40 + c % 0x40;
            !Rejected(v, 3) ==> Scalar(v) && Encode(v) == [l, a, b, c]
  {
    assert l % 0x08 == l - 0xF0;
    LowSix(a);
    LowSix(b);
    LowSix(c);
    FourDigits(l - 0xF0, a - 0x80, b - 0x80, c - 0x80);
  }

  /** Whatever is decoded was a permitted code point in its own encoding. */
  lemma FirstIsEncoding(text: seq<nat>)
    requires text != [] && DecodeFirst(text).Some?
    ensures var (v, n) := DecodeFirst(text).value; Scalar(v) && Encode(v) == text[..n]
  {
    var n := Lead(text[0]).value.1;
    if n == 1 {
      FirstOfTwo(text);
    } else if n == 2 {
      FirstOfThree(text);
    } else if n == 3 {
      FirstOfFour(text);
    }
  }

  lemma FirstOfTwo(text: seq<nat>)
    requires |text| >= 2 && 0xC2 <= text[0] <= 0xDF && DecodeFirst(text).Some?
    ensures var (v, n) := DecodeFirst(text).value; Scalar(v) && Encode(v) == text[..n]
  {
    var l, a := text[0], text[1];
    assert text[1..2] == [a] && text[..2] == [l, a];
    ExtendOne(l % 0x20, a);
    TwoBytes(l, a);
  }

  lemma FirstOfThree(text: seq<nat>)
    requires |text| >= 3 && 0xE0 <= text[0] <= 0xEF && DecodeFirst(text).Some?
    ensures var (v, n) := DecodeFirst(text).value; Scalar(v) && Encode(v) == text[..n]
  {
    var l, a, b := text[0], text[1], text[2];
    assert text[1..3] == [a, b] && text[..3] == [l, a, b];
    ExtendTwo(l % 0x10, a, b);
    ThreeBytes(l, a, b);
  }

  lemma FirstOfFour(text: seq<nat>)
    requires |text| >= 4 && 0xF0 <= text[0] <= 0xF4 && DecodeFirst(text).Some?
    ensures var (v, n) := DecodeFirst(text).value; Scalar(v) && Encode(v) == text[..n]
  {
    var l, a, b, c := text[0], text[1], text[2], text[3];
    assert text[1..4] == [a, b, c] && text[..4] == [l, a, b, c];
    ExtendThree(l % 0x08, a, b, c);
    FourBytes(l, a, b, c);
  }

  lemma EncodedTwo(v: nat, text: seq<nat>)
    requires 0x80 <= v < 0x800 && Encode(v) <= text
    ensures DecodeFirst(text) == Some((v, 2))
  {
    var l, a := 0xC0 + v / 0x40, 0x80 + v % 0x40;
    assert text[0] == l && text[1] == a && text[1..2] == [a];
    ExtendOne(l % 0x20, a);
  }

  lemma Split64(v: nat)
    ensures v / 0x40 * 0x40 + v % 0x40 == v
    ensures v / 0x1000 * 0x40 + v / 0x40 % 0x40 == v / 0x40
    ensures v / 0x40000 * 0x40 + v / 0x1000 % 0x40 == v / 0x1000
  {
  }

  lemma LowBits(b: nat)
    requires b < 0x40
    ensures Continues(0x80 + b) && (0x80 + b) % 0x40 == b
  {
  }

  lemma LeadThree(x: nat)
    requires x < 0x10
    ensures Lead(0xE0 + x) == Some((x, 2))
  {
  }

  lemma LeadFour(x: nat)
    requires x <= 4
    ensures Lead(0xF0 + x) == Some((x, 3))
  {
  }

  lemma FirstByLead(text: seq<nat>, x: nat, n: nat, v: nat)
    requires text != [] && 0 < n < |text| && Lead(text[0]) == Some((x, n))
    requires Extend(x, text[1..1 + n]) == Some(v) && !Rejected(v, n)
    ensures DecodeFirst(text) == Some((v, 1 + n))
  {
  }

  lemma EncodedThree(v: nat, text: seq<nat>)
    requires 0x800 <= v < 0x10000 && Scalar(v) && Encode(v) <= text
    ensures DecodeFirst(text) == Some((v, 3))
  {
    var x, y, z := v / 0x1000, v / 0x40 % 0x40, v % 0x40;
    assert text[0] == 0xE0 + x && text[1..3] == [0x80 + y, 0x80 + z];
    Split64(v);
    LeadThree(x);
    LowBits(y);
    LowBits(z);
    ExtendTwo(x, 0x80 + y, 0x80 + z);
    FirstByLead(text, x, 2, v);
  }

  lemma EncodedFour(v: nat, text: seq<nat>)
    requires 0x10000 <= v <= 0x10FFFF && Encode(v) <= text
    ensures DecodeFirst(text) == Some((v, 4))
  {
    var w, x, y, z := v / 0x40000, v / 0x1000 % 0x40, v / 0x40 % 0x40, v % 0x40;
    assert text[0] == 0xF0 + w && text[1..4] == [0x80 + x, 0x80 + y, 0x80 + z];
    Split64(v);
    LeadFour(w);
    LowBits(x);
    LowBits(y);
    LowBits(z);
    ExtendThree(w, 0x80 + x, 0x80 + y, 0x80 + z);
    FirstByLead(text, w, 3, v);
  }

  /** Every permitted code point is decoded from its encoding, whatever follows. */
  lemma EncodingIsFirst(v: nat, rest: seq<nat>)
    requires Scalar(v)
    ensures DecodeFirst(Encode(v) + rest) == Some((v, |Encode(v)|))
  {
    var text := Encode(v) + rest;
    if v >= 0x10000 {
      EncodedFour(v, text);
    } else if v >= 0x800 {
      EncodedThree(v, text);
    } else if v >= 0x80 {
      EncodedTwo(v, text);
    }
  }

  lemma EncodingCons(text: seq<nat>, v: nat, n: nat, vs: seq<nat>)
    requires n <= |text| && Scalar(v) && Encode(v) == text[..n] && Scalars(vs) && EncodeAll(vs) == text[n..]
    ensures Scalars([v] + vs) && EncodeAll([v] + vs) == text
  {
    var all := [v] + vs;
    assert all[0] == v && all[1..] == vs && text[..n] + text[n..] == text;
  }

  lemma {:induction false} DecodeIsSound(text: seq<nat>)
    requires Decode(text).Some?
    ensures Scalars(Decode(text).value) && EncodeAll(Decode(text).value) == text
  {
    if text != [] {
      var first := DecodeFirst(text).value;
      DecodeIsSound(text[first.1..]);
      FirstIsEncoding(text);
      EncodingCons(text, first.0, first.1, Decode(text[first.1..]).value);
    }
  }

  lemma {:induction false} DecodeIsComplete(vs: seq<nat>)
    requires Scalars(vs)
    ensures Decode(EncodeAll(vs)) == Some(vs)
  {
    if vs != [] {
      var e, rest := Encode(vs[0]), EncodeAll(vs[1..]);
      EncodingIsFirst(vs[0], rest);
      DecodeIsComplete(vs[1..]);
      assert (e + rest)[|e|..] == rest && [vs[0]] + vs[1..] == vs;
    }
  }

  /** A byte string passes exactly when it is the encoding of permitted code points. */
  lemma AcceptedIffEncoding(text: seq<nat>)
    ensures Decode(text).Some? <==> exists vs :: Scalars(vs) && EncodeAll(vs) == text
  {
    if Decode(text).Some? { DecodeIsSound(text); }
    if vs :| Scalars(vs) && EncodeAll(vs) == text { DecodeIsComplete(vs); }
  }

  /** No byte string encodes two different code point sequences. */
  lemma DecodingIsUnique(vs: seq<nat>, ws: seq<nat>)
    requires Scalars(vs) && Scalars(ws) && EncodeAll(vs) == EncodeAll(ws)
    ensures vs == ws
  {
    DecodeIsComplete(vs);
    DecodeIsComplete(ws);
  }
}
