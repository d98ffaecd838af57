/** How a launch that does not fit reports it, and how the supervisor reads the report: the
    engine's startup error against the parser of the shortfall line. */
module CapacityReport {
  import opened Wrappers
  import D = Decimal
  import T = Text

  // ----- the engine's error -----

  /** The checks of an explicit capacity at startup, after the weights are loaded. */
  datatype Startup = Startup(reservation: nat, available: nat, slackFloor: nat)

  function Budget(s: Startup): nat {
    if s.slackFloor <= s.available then s.available - s.slackFloor else 0
  }

  const REQUIRES := "runtime reservation requires "
  const BUT_ONLY := "but only "

  function Join(parts: seq<string>): string {
    if parts == [] then [] else parts[0] + Join(parts[1..])
  }

  function NoFloor(s: Startup): seq<string> {
    ["explicit KV capacity requires at least ", D.Text(s.slackFloor), " bytes of slack floor, ", BUT_ONLY,
     D.Text(s.available), " bytes are available ", "after weights"]
  }

  /** What follows the number behind the phrase the parser looks for. */
  function FloorViolated(s: Startup): seq<string> {
    [" bytes, which violates the ", "required slack floor of ", D.Text(s.slackFloor), " bytes (available after ",
     "weights: ", D.Text(s.available), " bytes)"]
  }

  function TooLarge(s: Startup): string {
    " bytes, " + (BUT_ONLY + (D.Text(Budget(s)) + " bytes are available for runtime capacity"))
  }

  /** The error of a startup that does not fit, if it does not. */
  function ErrorText(s: Startup): Option<string> {
    if s.slackFloor > 0 && s.available < s.slackFloor then Some(Join(NoFloor(s)))
    else if s.reservation <= Budget(s) then None
    else Some("requested Engine " + REQUIRES
                + (D.Text(s.reservation) + if s.slackFloor > 0 then Join(FloorViolated(s)) else TooLarge(s)))
  }

  // ----- the supervisor's parser -----

  datatype Shortfall = Shortfall(required: nat, available: nat)

  function ReadNumber(s: string): Option<nat> {
    var t := T.SkipSpaces(s);
    var e := D.DigitsEnd(t, 0);
    if e == 0 then None else Some(D.Value(t[..e]))
  }

  /** What the line says behind the phrase; the second search starts at the phrase itself. */
  function AfterPhrase(rest: string): Option<Shortfall> {
    var required, more := ReadNumber(rest), T.After(REQUIRES + rest, BUT_ONLY);
    if required.None? || more.None? then None
    else
      var available := ReadNumber(more.value);
      if available.None? || required.value == 0 then None else Some(Shortfall(required.value, available.value))
  }

  function Parse(line: string): Option<Shortfall> {
    match T.After(line, REQUIRES)
    case None => None
    case Some(rest) => AfterPhrase(rest)
  }

  method ScanNumber(text: string, from: nat) returns (r: Option<nat>)
    requires from <= |text|
    ensures r == ReadNumber(text[from..])
  {
    var i := T.AfterSpaces(text, from);
    var value, end := D.ReadDigits(text, i);
    D.DigitsHere(text, i);
    if end == i { return None; }
    return Some(value);
  }

  method ParseLine(line: string) returns (r: Option<Shortfall>)
    ensures r == Parse(line)
  {
    var pos := T.Find(line, REQUIRES);
    T.AfterFind(line, REQUIRES);
    if pos.None? { return None; }
    T.FindIsFirst(line, REQUIRES);
    r := ParseFrom(line, pos.value);
  }

  method ParseFrom(line: string, pos: nat) returns (r: Option<Shortfall>)
    requires pos + |REQUIRES| <= |line| && REQUIRES <= line[pos..]
    ensures r == AfterPhrase(line[pos + |REQUIRES|..])
  {
    ghost var rest := line[pos + |REQUIRES|..];
    var required := ScanNumber(line, pos + |REQUIRES|);
    if required.None? { return None; }
    var tail := line[pos..];
    assert tail == REQUIRES + rest;
    var pos2 := T.Find(tail, BUT_ONLY);
    T.AfterFind(tail, BUT_ONLY);
    if pos2.None? { return None; }
    var available := ScanNumber(tail, pos2.value + |BUT_ONLY|);
    if available.None? || required.value == 0 { return None; }
    return Some(Shortfall(required.value, available.value));
  }

  // ----- searching past text that cannot begin a match -----

  /** No place of `x` can begin text whose first characters are `a` and `b`. */
  predicate Lacks(x: string, a: char, b: char) {
    forall i | 0 <= i < |x| :: x[i] != a || (i + 1 < |x| && x[i + 1] != b)
  }

  lemma {:induction false} Skips(x: string, s: string, pat: string)
    requires |pat| >= 2 && Lacks(x, pat[0], pat[1])
    ensures T.After(x + s, pat) == T.After(s, pat)
  {
    if x == [] {
      assert x + s == s;
    } else {
      var rest := x[1..];
      assert Lacks(rest, pat[0], pat[1]) by {
        forall i | 0 <= i < |rest| ensures rest[i] != pat[0] || (i + 1 < |rest| && rest[i + 1] != pat[1]) {
          assert rest[i] == x[i + 1];
        }
      }
      assert (x + s)[1..] == rest + s;
      Skips(rest, s, pat);
    }
  }

  ghost predicate AllLack(parts: seq<string>, a: char, b: char) { forall i | 0 <= i < |parts| :: Lacks(parts[i], a, b) }

  lemma {:induction false} SkipsAll(parts: seq<string>, s: string, pat: string)
    requires |pat| >= 2 && AllLack(parts, pat[0], pat[1])
    ensures T.After(Join(parts) + s, pat) == T.After(s, pat)
  {
    if parts == [] {
      assert [] + s == s;
    } else {
      var rest := Join(parts[1..]);
      assert Join(parts) + s == parts[0] + (rest + s);
      Skips(parts[0], rest + s, pat);
      SkipsAll(parts[1..], s, pat);
    }
  }

  lemma DigitsLack(n: nat, b: char)
    ensures Lacks(D.Text(n), 'b', b) && Lacks(D.Text(n), 'r', b)
  {
  }

  // ----- the report is read as what it says -----

  lemma NumberOf(n: nat, rest: string)
    requires rest != [] && !D.IsDigit(rest[0])
    ensures ReadNumber(D.Text(n) + rest) == Some(n)
  {
    var s := D.Text(n) + rest;
    D.LeadingDigits(n, rest);
    D.ValueOfText(n);
    assert T.SkipSpaces(s) == s;
  }

  lemma PhraseHasNoBut(rest: string)
    ensures T.After(REQUIRES + rest, BUT_ONLY) == T.After(rest, BUT_ONLY)
  {
    Skips(REQUIRES, rest, BUT_ONLY);
  }

  lemma BytesPassed(rest: string)
    ensures T.After(" bytes, " + rest, BUT_ONLY) == T.After(rest, BUT_ONLY)
  {
    Skips(" bytes, ", rest, BUT_ONLY);
  }

  lemma FirstNumber(n: nat, rest: string)
    requires rest != [] && !D.IsDigit(rest[0])
    ensures ReadNumber(D.Text(n) + rest) == Some(n)
    ensures T.After(REQUIRES + (D.Text(n) + rest), BUT_ONLY) == T.After(rest, BUT_ONLY)
  {
    NumberOf(n, rest);
    PhraseHasNoBut(D.Text(n) + rest);
    DigitsLack(n, 'u');
    Skips(D.Text(n), rest, BUT_ONLY);
  }

  lemma TooLargeIsRead(s: Startup, post: string)
    requires s.reservation > Budget(s)
    ensures AfterPhrase(D.Text(s.reservation) + (TooLarge(s) + post)) == Some(Shortfall(s.reservation, Budget(s)))
  {
    var last := " bytes are available for runtime capacity" + post;
    var second := BUT_ONLY + (D.Text(Budget(s)) + last);
    assert TooLarge(s) + post == " bytes, " + second;
    FirstNumber(s.reservation, " bytes, " + second);
    BytesPassed(second);
    T.AfterHere(BUT_ONLY, D.Text(Budget(s)) + last);
    NumberOf(Budget(s), last);
  }

  lemma ViolatedWords()
    ensures Lacks(" bytes, which violates the ", 'b', 'u') && Lacks("required slack floor of ", 'b', 'u')
    ensures Lacks(" bytes (available after ", 'b', 'u') && Lacks("weights: ", 'b', 'u') && Lacks(" bytes)", 'b', 'u')
  {
  }

  lemma ViolatedLacks(s: Startup)
    ensures AllLack(FloorViolated(s), 'b', 'u')
  {
    ViolatedWords();
    DigitsLack(s.available, 'u');
    DigitsLack(s.slackFloor, 'u');
    SevenLack(" bytes, which violates the ", "required slack floor of ", D.Text(s.slackFloor), " bytes (available after ",
              "weights: ", D.Text(s.available), " bytes)", 'b', 'u');
  }

  lemma SevenLack(p0: string, p1: string, p2: string, p3: string, p4: string, p5: string, p6: string, a: char, b: char)
    requires Lacks(p0, a, b) && Lacks(p1, a, b) && Lacks(p2, a, b) && Lacks(p3, a, b) && Lacks(p4, a, b)
    requires Lacks(p5, a, b) && Lacks(p6, a, b)
    ensures AllLack([p0, p1, p2, p3, p4, p5, p6], a, b)
  {
  }

  lemma ViolatedStart(s: Startup)
    ensures Join(FloorViolated(s)) != [] && Join(FloorViolated(s))[0] == ' '
  {
    assert FloorViolated(s)[0] == " bytes, which violates the ";
  }

  /** What is read of a violated floor: the bytes needed, and whatever number the text behind the
      error gives for the bytes there were. */
  function Borrowed(required: nat, post: string): Option<Shortfall> {
    match T.After(post, BUT_ONLY)
    case None => None
    case Some(more) =>
      var available := ReadNumber(more);
      if available.None? then None else Some(Shortfall(required, available.value))
  }

  lemma FloorViolatedIsMissed(s: Startup, post: string)
    requires s.reservation > 0
    ensures AfterPhrase(D.Text(s.reservation) + (Join(FloorViolated(s)) + post)) == Borrowed(s.reservation, post)
  {
    ViolatedLacks(s);
    SkipsAll(FloorViolated(s), post, BUT_ONLY);
    ViolatedStart(s);
    FirstNumber(s.reservation, Join(FloorViolated(s)) + post);
  }

  lemma NoFloorWords()
    ensures Lacks("explicit KV capacity requires at least ", 'r', 'u') && Lacks(" bytes of slack floor, ", 'r', 'u')
    ensures Lacks(BUT_ONLY, 'r', 'u') && Lacks(" bytes are available ", 'r', 'u') && Lacks("after weights", 'r', 'u')
  {
  }

  lemma NoFloorLacks(s: Startup)
    ensures AllLack(NoFloor(s), 'r', 'u')
  {
    NoFloorWords();
    DigitsLack(s.available, 'u');
    DigitsLack(s.slackFloor, 'u');
    SevenLack("explicit KV capacity requires at least ", D.Text(s.slackFloor), " bytes of slack floor, ", BUT_ONLY,
              D.Text(s.available), " bytes are available ", "after weights", 'r', 'u');
  }

  // ----- text in front of the error -----

  /** No match can begin before `s` and end in it. */
  ghost predicate Apart(s: string, pat: string) { forall k | 1 <= k < |pat| :: !(pat[k..] <= s) }

  /** Text without the pattern is passed over when no match can reach into what follows. */
  lemma {:induction false} PassesText(pre: string, s: string, pat: string)
    requires pat != [] && T.After(pre, pat) == None && Apart(s, pat)
    ensures T.After(pre + s, pat) == T.After(s, pat)
  {
    if pre == [] {
      assert pre + s == s;
    } else {
      if pat <= pre + s { NoneAcross(pre, s, pat); }
      assert (pre + s)[1..] == pre[1..] + s;
      PassesText(pre[1..], s, pat);
    }
  }

  lemma NoneAcross(pre: string, s: string, pat: string)
    requires pre != [] && !(pat <= pre) && Apart(s, pat)
    ensures !(pat <= pre + s)
  {
    if |pre| >= |pat| {
      assert (pre + s)[..|pat|] == pre[..|pat|];
    } else if pat <= pre + s {
      ReachesInto(pre, s, pat);
    }
  }

  lemma ReachesInto(pre: string, s: string, pat: string)
    requires |pre| < |pat| && pat <= pre + s
    ensures pat[|pre|..] <= s
  {
    var k := |pre|;
    assert pat[k..] == (pre + s)[k..|pat|] == s[..|pat| - k];
  }

  /** Both errors begin in a way that no later part of the phrase does. */
  lemma ErrorsStartApart(s: string)
    requires |s| >= 5 && (s[..5] == "reque" || s[..5] == "expli")
    ensures Apart(s, REQUIRES)
  {
    forall k | 1 <= k < |REQUIRES| ensures !(REQUIRES[k..] <= s) {
      var i := Mismatch(s[0], s[1], s[2], s[3], s[4], k);
      assert REQUIRES[k..][i] != s[i];
    }
  }

  lemma Mismatch(c0: char, c1: char, c2: char, c3: char, c4: char, k: nat) returns (i: nat)
    requires 1 <= k < |REQUIRES| && ([c0, c1, c2, c3, c4] == "reque" || [c0, c1, c2, c3, c4] == "expli")
    ensures i < 5 && k + i < |REQUIRES| && REQUIRES[k + i] != [c0, c1, c2, c3, c4][i]
  {
    var start := [c0, c1, c2, c3, c4];
    assert start[0] == c0 && start[1] == c1 && start[2] == c2 && start[4] == c4;
    i := if REQUIRES[k] != c0 then 0 else if REQUIRES[k + 1] != c1 then 1 else if REQUIRES[k + 2] != c2 then 2 else 4;
  }

  lemma PassesError(pre: string, error: string, post: string, pat: string)
    requires pat != [] && T.After(pre, pat) == None && Apart(error + post, pat)
    ensures T.After(pre + error + post, pat) == T.After(error + post, pat)
  {
    assert pre + error + post == pre + (error + post);
    PassesText(pre, error + post, pat);
  }

  lemma NoFloorStart(s: Startup, post: string)
    ensures Apart(Join(NoFloor(s)) + post, REQUIRES)
  {
    ExplicitStart();
    JoinStarts(NoFloor(s), post);
    ErrorsStartApart(Join(NoFloor(s)) + post);
  }

  lemma ExplicitStart()
    ensures var first := "explicit KV capacity requires at least "; |first| >= 5 && first[..5] == "expli"
  {
    var first := "explicit KV capacity requires at least ";
    assert first[0] == 'e' && first[1] == 'x' && first[2] == 'p' && first[3] == 'l' && first[4] == 'i';
  }

  lemma JoinStarts(parts: seq<string>, post: string)
    requires parts != [] && |parts[0]| >= 5
    ensures var text := Join(parts) + post; |text| >= 5 && text[..5] == parts[0][..5]
  {
  }

  lemma NoFloorIsMissed(s: Startup, pre: string, post: string)
    requires T.After(pre, REQUIRES) == None
    ensures T.After(pre + Join(NoFloor(s)) + post, REQUIRES) == T.After(post, REQUIRES)
  {
    NoFloorStart(s, post);
    NoFloorLacks(s);
    SkipsAll(NoFloor(s), post, REQUIRES);
    PassesError(pre, Join(NoFloor(s)), post, REQUIRES);
  }

  lemma PhraseFound(pre: string, rest: string)
    requires T.After(pre, REQUIRES) == None
    ensures T.After(pre + ("requested Engine " + (REQUIRES + rest)), REQUIRES) == Some(rest)
  {
    var text := "requested Engine " + (REQUIRES + rest);
    assert text[..5] == "reque";
    ErrorsStartApart(text);
    PassesText(pre, text, REQUIRES);
    Skips("requested Engine ", REQUIRES + rest, REQUIRES);
    T.AfterHere(REQUIRES, rest);
  }

  lemma Regrouped(pre: string, number: string, tail: string, post: string)
    ensures pre + ("requested Engine " + REQUIRES + (number + tail)) + post
         == pre + ("requested Engine " + (REQUIRES + (number + (tail + post))))
  {
  }

  lemma PhraseRead(pre: string, number: string, tail: string, post: string)
    requires T.After(pre, REQUIRES) == None
    ensures Parse(pre + ("requested Engine " + REQUIRES + (number + tail)) + post) == AfterPhrase(number + (tail + post))
  {
    Regrouped(pre, number, tail, post);
    PhraseFound(pre, number + (tail + post));
  }

  lemma PlainReport(s: Startup, pre: string, post: string)
    requires ErrorText(s).Some? && s.slackFloor == 0 && T.After(pre, REQUIRES) == None
    ensures Parse(pre + ErrorText(s).value + post) == Some(Shortfall(s.reservation, s.available))
  {
    PhraseRead(pre, D.Text(s.reservation), TooLarge(s), post);
    TooLargeIsRead(s, post);
  }

  lemma NoFloorReport(s: Startup, pre: string, post: string)
    requires s.slackFloor > 0 && s.available < s.slackFloor && T.After(pre, REQUIRES) == None
    ensures ErrorText(s).Some? && Parse(pre + ErrorText(s).value + post) == Parse(post)
  {
    NoFloorIsMissed(s, pre, post);
  }

  lemma ViolatedReport(s: Startup, pre: string, post: string)
    requires ErrorText(s).Some? && 0 < s.slackFloor <= s.available && T.After(pre, REQUIRES) == None
    ensures Parse(pre + ErrorText(s).value + post) == Borrowed(s.reservation, post)
  {
    PhraseRead(pre, D.Text(s.reservation), Join(FloorViolated(s)), post);
    FloorViolatedIsMissed(s, post);
  }

  /** What the supervisor reads out of a launch that does not fit, whatever text follows the error
      and whatever goes before it that does not itself hold the phrase: without a slack floor, the
      bytes needed and the bytes there were; with one, only what the text behind supplies. */
  lemma ReportIsRead(s: Startup, pre: string, post: string)
    requires ErrorText(s).Some? && T.After(pre, REQUIRES) == None
    ensures Parse(pre + ErrorText(s).value + post)
         == if s.slackFloor == 0 then Some(Shortfall(s.reservation, s.available))
            else if s.available < s.slackFloor then Parse(post)
            else Borrowed(s.reservation, post)
  {
    if s.slackFloor == 0 {
      PlainReport(s, pre, post);
    } else if s.available < s.slackFloor {
      NoFloorReport(s, pre, post);
    } else {
      ViolatedReport(s, pre, post);
    }
  }

  /** So when nothing around the error looks like a report, the shortfall is read if and only if no
      slack floor was asked for. */
  lemma ReportIsReadIff(s: Startup, pre: string, post: string)
    requires ErrorText(s).Some? && T.After(pre, REQUIRES) == None
    requires T.After(post, REQUIRES) == None && T.After(post, BUT_ONLY) == None
    ensures Parse(pre + ErrorText(s).value + post)
         == if s.slackFloor == 0 then Some(Shortfall(s.reservation, s.available)) else None
  {
    ReportIsRead(s, pre, post);
  }
}
