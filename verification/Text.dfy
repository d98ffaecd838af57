/** Substring search, trimming and line splitting on strings. */
module Text {
  import opened Wrappers

  /** The first position at which `pat` occurs. */
  function Find(s: string, pat: string): (r: Option<nat>)
    ensures r.Some? ==> r.value + |pat| <= |s|
  {
    if pat <= s then Some(0)
    else if s == [] then None
    else
      match Find(s[1..], pat)
      case None => None
      case Some(i) => Some(i + 1)
  }

  /** What `Find` answers: the first occurrence, or none at all. */
  lemma {:induction false} FindIsFirst(s: string, pat: string)
    ensures Find(s, pat).Some? ==> pat <= s[Find(s, pat).value..]
    ensures forall i | 0 <= i <= |s| && pat <= s[i..] :: Find(s, pat).Some? && Find(s, pat).value <= i
  {
    assert s[0..] == s;
    if !(pat <= s) && s != [] {
      FindIsFirst(s[1..], pat);
      assert forall i | 1 <= i <= |s| :: s[i..] == s[1..][i - 1..];
    }
  }

  /** The text behind the first occurrence of `pat`. */
  function After(s: string, pat: string): Option<string> {
    if pat <= s then Some(s[|pat|..])
    else if s == [] then None
    else After(s[1..], pat)
  }

  lemma {:induction false} AfterFind(s: string, pat: string)
    ensures After(s, pat) == if Find(s, pat).None? then None else Some(s[Find(s, pat).value + |pat|..])
  {
    if !(pat <= s) && s != [] { AfterFind(s[1..], pat); }
  }

  predicate Contains(s: string, pat: string) { After(s, pat).Some? }

  /** Text without the pattern's first character is passed over. */
  lemma {:induction false} AfterSkips(x: string, s: string, pat: string)
    requires pat != [] && pat[0] !in x
    ensures After(x + s, pat) == After(s, pat)
  {
    if x == [] {
      assert x + s == s;
    } else {
      assert (x + s)[1..] == x[1..] + s;
      AfterSkips(x[1..], s, pat);
    }
  }

  lemma AfterHere(pat: string, s: string)
    ensures After(pat + s, pat) == Some(s)
  {
    assert (pat + s)[|pat|..] == s;
  }

  /** The pattern's first occurrence stays the first when more text follows. */
  lemma {:induction false} AfterFirst(pre: string, pat: string, tail: string)
    requires Find(pre + pat, pat) == Some(|pre|)
    ensures After(pre + pat + tail, pat) == Some(tail)
  {
    var s, all := pre + pat, pre + pat + tail;
    if pre == [] {
      assert all == pat + tail;
      AfterHere(pat, tail);
    } else {
      assert pat <= all ==> pat <= s;
      assert s[1..] == pre[1..] + pat && all[1..] == pre[1..] + pat + tail;
      AfterFirst(pre[1..], pat, tail);
    }
  }

  function SkipSpaces(s: string): string {
    if s != [] && s[0] == ' ' then SkipSpaces(s[1..]) else s
  }

  method AfterSpaces(line: string, from: nat) returns (pos: nat)
    requires from <= |line|
    ensures from <= pos <= |line| && line[pos..] == SkipSpaces(line[from..])
  {
    pos := from;
    while pos < |line| && line[pos] == ' '
      invariant from <= pos <= |line| && SkipSpaces(line[pos..]) == SkipSpaces(line[from..])
    {
      assert line[pos..][1..] == line[pos + 1..];
      pos := pos + 1;
    }
  }

  predicate IsSpace(c: char) { c == ' ' || c == '\t' || c == '\r' || c == '\n' }

  function TrimLeft(s: string): string {
    if s != [] && IsSpace(s[0]) then TrimLeft(s[1..]) else s
  }

  function TrimRight(s: string): string {
    if s != [] && IsSpace(s[|s| - 1]) then TrimRight(s[..|s| - 1]) else s
  }

  function Trim(s: string): string { TrimRight(TrimLeft(s)) }

  /** The newline that ends the first line, or the length if there is none. */
  function LineEnd(s: string): (e: nat)
    ensures e <= |s|
  {
    if s == [] || s[0] == '\n' then 0 else 1 + LineEnd(s[1..])
  }

  lemma {:induction false} LineEndOf(line: string, rest: string)
    requires '\n' !in line
    ensures LineEnd(line + "\n" + rest) == |line|
  {
    var s := line + "\n" + rest;
    if line != [] {
      assert s[1..] == line[1..] + "\n" + rest;
      LineEndOf(line[1..], rest);
    }
  }
}
