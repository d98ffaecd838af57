/** The requests the engine has opened and not closed, followed through its output, and the
    idle unload that must not interrupt them. */
module Inflight {
  import opened Wrappers
  import D = Decimal
  import T = Text

  // ----- what a line says about a request -----

  datatype Event = Opens(id: nat) | Closes(id: nat) | Nothing

  function UpToSpace(s: string): string {
    if s == [] || s[0] == ' ' then [] else [s[0]] + UpToSpace(s[1..])
  }

  predicate Terminal(status: string) {
    status == "done" || status == "failed" || status == "rejected" || status == "cancelled"
  }

  function EventOf(id: nat, status: string): Event {
    if status == "submitted" then Opens(id) else if Terminal(status) then Closes(id) else Nothing
  }

  const REQUEST := "request id="
  const STATUS := " status="

  /** What follows the id decides. */
  function AfterId(id: nat, rest: string): Event {
    match T.After(rest, STATUS)
    case None => Nothing
    case Some(s) => EventOf(id, UpToSpace(s))
  }

  function AfterRequest(rest: string): Event {
    var k := D.DigitsEnd(rest, 0);
    if k == 0 || k > 19 then Nothing else AfterId(D.Value(rest[..k]), rest[k..])
  }

  function Classify(raw: string): Event {
    match T.After(T.Trim(raw), REQUEST)
    case None => Nothing
    case Some(rest) => AfterRequest(rest)
  }

  method ReadStatus(s: string) returns (status: string)
    ensures status == UpToSpace(s)
  {
    var e := 0;
    while e < |s| && s[e] != ' '
      invariant e <= |s| && UpToSpace(s) == s[..e] + UpToSpace(s[e..])
    {
      assert s[e..][1..] == s[e + 1..] && s[..e] + [s[e]] == s[..e + 1];
      e := e + 1;
    }
    status := s[..e];
  }

  method ClassifyLine(raw: string) returns (ev: Event)
    ensures ev == Classify(raw)
  {
    var line := T.Trim(raw);
    var at := T.Find(line, REQUEST);
    T.AfterFind(line, REQUEST);
    if at.None? { return Nothing; }
    var rest := line[at.value + |REQUEST|..];
    ev := ClassifyRest(rest);
  }

  method ClassifyRest(rest: string) returns (ev: Event)
    ensures ev == AfterRequest(rest)
  {
    var id, digits := D.ReadDigits(rest, 0);
    assert rest[0..digits] == rest[..digits];
    if digits == 0 || digits > 19 { return Nothing; }
    var more := rest[digits..];
    var s := T.Find(more, STATUS);
    T.AfterFind(more, STATUS);
    if s.None? { return Nothing; }
    var status := ReadStatus(more[s.value + |STATUS|..]);
    return EventOf(id, status);
  }

  // ----- the engine's own lines are understood -----

  lemma {:induction false} UpToSpaceOf(status: string, rest: string)
    requires ' ' !in status && (rest == [] || rest[0] == ' ')
    ensures UpToSpace(status + rest) == status
  {
    if status == [] {
      assert status + rest == rest;
    } else {
      assert (status + rest)[1..] == status[1..] + rest;
      UpToSpaceOf(status[1..], rest);
      assert [status[0]] + status[1..] == status;
    }
  }

  lemma AfterIdOf(id: nat, status: string, rest: string)
    requires ' ' !in status && (rest == [] || rest[0] == ' ')
    ensures AfterId(id, STATUS + (status + rest)) == EventOf(id, status)
  {
    T.AfterHere(STATUS, status + rest);
    UpToSpaceOf(status, rest);
  }

  lemma AfterRequestOf(id: nat, rest: string)
    requires id < D.Pow10(19) && rest != [] && !D.IsDigit(rest[0])
    ensures AfterRequest(D.Text(id) + rest) == AfterId(id, rest)
  {
    var all := D.Text(id) + rest;
    D.LeadingDigits(id, rest);
    D.ValueOfText(id);
    D.TextLength(id, 19);
    assert all[|D.Text(id)|..] == rest;
  }

  /** A record the engine writes for a request is read as what it says: any prefix that does not
      itself mention a request, the id, a status, and anything after a space. */
  lemma RecordIsUnderstood(pre: string, id: nat, status: string, rest: string)
    requires T.Find(pre + REQUEST, REQUEST) == Some(|pre|)
    requires id < D.Pow10(19) && ' ' !in status && (rest == [] || rest[0] == ' ')
    requires var line := pre + REQUEST + (D.Text(id) + (STATUS + (status + rest)));
             !T.IsSpace(line[0]) && !T.IsSpace(line[|line| - 1])
    ensures Classify(pre + REQUEST + (D.Text(id) + (STATUS + (status + rest)))) ==
            if status == "submitted" then Opens(id)
            else if status in ["done", "failed", "rejected", "cancelled"] then Closes(id) else Nothing
  {
    var more := STATUS + (status + rest);
    var line := pre + REQUEST + (D.Text(id) + more);
    assert T.Trim(line) == line;
    T.AfterFirst(pre, REQUEST, D.Text(id) + more);
    AfterRequestOf(id, more);
    AfterIdOf(id, status, rest);
  }

  lemma {:induction false} AfterSplits(s: string, pat: string) returns (pre: string)
    requires T.After(s, pat).Some?
    ensures s == pre + pat + T.After(s, pat).value
  {
    if pat <= s {
      pre := [];
      assert s == [] + pat + s[|pat|..];
    } else {
      var rest := AfterSplits(s[1..], pat);
      pre := [s[0]] + rest;
      assert s == [s[0]] + s[1..];
    }
  }

  /** And no other line says anything: a line that opens or closes a request has its id in at most
      nineteen digits behind the phrase, and the status behind that. */
  lemma OnlyRecordsCount(raw: string) returns (pre: string, digits: string, mid: string, rest: string)
    requires Classify(raw) != Nothing
    ensures T.Trim(raw) == pre + REQUEST + (digits + (mid + STATUS + rest))
    ensures 0 < |digits| <= 19 && D.AllDigits(digits) && Classify(raw).id == D.Value(digits)
    ensures Classify(raw).Opens? <==> UpToSpace(rest) == "submitted"
    ensures Classify(raw).Closes? <==> UpToSpace(rest) in ["done", "failed", "rejected", "cancelled"]
  {
    var line := T.Trim(raw);
    pre := AfterSplits(line, REQUEST);
    digits, mid, rest := OnlyIdsCount(T.After(line, REQUEST).value);
  }

  lemma OnlyIdsCount(after: string) returns (digits: string, mid: string, rest: string)
    requires AfterRequest(after) != Nothing
    ensures after == digits + (mid + STATUS + rest)
    ensures 0 < |digits| <= 19 && D.AllDigits(digits) && AfterRequest(after).id == D.Value(digits)
    ensures AfterRequest(after).Opens? <==> UpToSpace(rest) == "submitted"
    ensures AfterRequest(after).Closes? <==> UpToSpace(rest) in ["done", "failed", "rejected", "cancelled"]
  {
    var k := D.DigitsEnd(after, 0);
    digits := after[..k];
    var more := after[k..];
    assert after == digits + more;
    mid := AfterSplits(more, STATUS);
    rest := T.After(more, STATUS).value;
    StatusDecides(D.Value(digits), UpToSpace(rest));
  }

  lemma StatusDecides(id: nat, status: string)
    ensures EventOf(id, status).Opens? <==> status == "submitted"
    ensures EventOf(id, status).Closes? <==> status in ["done", "failed", "rejected", "cancelled"]
    ensures EventOf(id, status) != Nothing ==> EventOf(id, status).id == id
  {
  }

  // ----- the byte stream -----

  const LINE_CAP: nat := 64 * 1024
  const OPEN_CAP: nat := 4096

  function Tracked(open: set<nat>, ev: Event): set<nat> {
    match ev
    case Opens(id) => if |open| < OPEN_CAP then open + {id} else open
    case Closes(id) => open - {id}
    case Nothing => open
  }

  datatype Reader = Reader(line: string, open: set<nat>)

  const EMPTY := Reader([], {})

  function FedChar(r: Reader, c: char): Reader {
    if c == '\r' then r
    else if c != '\n' then if |r.line| < LINE_CAP then r.(line := r.line + [c]) else r
    else Reader([], Tracked(r.open, Classify(r.line)))
  }

  function Fed(r: Reader, data: string): Reader {
    if data == [] then r else FedChar(Fed(r, data[..|data| - 1]), data[|data| - 1])
  }

  class Output {
    var line: string
    var open: set<nat>

    ghost function Value(): Reader
      reads this
    {
      Reader(line, open)
    }

    method Note(data: string)
      modifies this
      ensures Value() == Fed(old(Value()), data)
    {
      for i := 0 to |data|
        invariant Value() == Fed(old(Value()), data[..i])
      {
        assert data[..i + 1][..i] == data[..i];
        var c := data[i];
        if c == '\r' { continue; }
        if c != '\n' {
          if |line| < LINE_CAP { line := line + [c]; }
          continue;
        }
        var ev := ClassifyLine(line);
        match ev {
          case Opens(id) => if |open| < OPEN_CAP { open := open + {id}; }
          case Closes(id) => open := open - {id};
          case Nothing =>
        }
        line := [];
      }
      assert data[..|data|] == data;
    }
  }

  lemma {:induction false} FedJoined(r: Reader, a: string, b: string)
    ensures Fed(r, a + b) == Fed(Fed(r, a), b)
  {
    if b == [] {
      assert a + b == a;
    } else {
      var last := |b| - 1;
      assert (a + b)[..|a + b| - 1] == a + b[..last];
      FedJoined(r, a, b[..last]);
    }
  }

  function FedChunks(r: Reader, chunks: seq<string>): Reader {
    if chunks == [] then r else Fed(FedChunks(r, chunks[..|chunks| - 1]), chunks[|chunks| - 1])
  }

  function Joined(chunks: seq<string>): string {
    if chunks == [] then [] else Joined(chunks[..|chunks| - 1]) + chunks[|chunks| - 1]
  }

  /** How the stream is cut into reads makes no difference. */
  lemma {:induction false} ChunksDoNotMatter(r: Reader, chunks: seq<string>)
    ensures FedChunks(r, chunks) == Fed(r, Joined(chunks))
  {
    if chunks != [] {
      var before := chunks[..|chunks| - 1];
      ChunksDoNotMatter(r, before);
      FedJoined(r, Joined(before), chunks[|chunks| - 1]);
    }
  }

  // ----- the lines of the stream -----

  function Cleaned(s: string): string {
    if s == [] then []
    else Cleaned(s[..|s| - 1]) + if s[|s| - 1] == '\r' then [] else [s[|s| - 1]]
  }

  /** The complete lines of a text and the unfinished one behind them. */
  datatype Split = Split(lines: seq<string>, rest: string)

  function SplitLines(s: string): Split {
    if s == [] then Split([], [])
    else
      var p, c := SplitLines(s[..|s| - 1]), s[|s| - 1];
      if c == '\n' then Split(p.lines + [p.rest], []) else p.(rest := p.rest + [c])
  }

  function Unsplit(lines: seq<string>): string {
    if lines == [] then [] else Unsplit(lines[..|lines| - 1]) + lines[|lines| - 1] + "\n"
  }

  lemma UnsplitGrows(lines: seq<string>, line: string)
    ensures Unsplit(lines + [line]) == Unsplit(lines) + line + "\n"
  {
    assert (lines + [line])[..|lines|] == lines;
  }

  /** Splitting loses nothing. */
  lemma {:induction false} SplitIsExact(s: string)
    ensures Unsplit(SplitLines(s).lines) + SplitLines(s).rest == s
  {
    if s != [] {
      var before, c := s[..|s| - 1], s[|s| - 1];
      SplitIsExact(before);
      var p := SplitLines(before);
      var text := Unsplit(p.lines);
      assert before + [c] == s;
      if c == '\n' {
        UnsplitGrows(p.lines, p.rest);
        assert text + p.rest + "\n" == s;
      } else {
        assert text + (p.rest + [c]) == text + p.rest + [c];
      }
    }
  }

  /** No line has a newline inside. */
  lemma {:induction false} SplitIsClean(s: string)
    ensures '\n' !in SplitLines(s).rest
    ensures forall i | 0 <= i < |SplitLines(s).lines| :: '\n' !in SplitLines(s).lines[i]
  {
    if s != [] { SplitIsClean(s[..|s| - 1]); }
  }

  function Capped(line: string): string { if |line| <= LINE_CAP then line else line[..LINE_CAP] }

  function Events(lines: seq<string>): seq<Event> {
    if lines == [] then [] else Events(lines[..|lines| - 1]) + [Classify(Capped(lines[|lines| - 1]))]
  }

  function TrackedAll(evs: seq<Event>): set<nat> {
    if evs == [] then {} else Tracked(TrackedAll(evs[..|evs| - 1]), evs[|evs| - 1])
  }

  lemma EventsGrow(lines: seq<string>, line: string)
    ensures Events(lines + [line]) == Events(lines) + [Classify(Capped(line))]
  {
    assert (lines + [line])[..|lines|] == lines;
  }

  lemma TrackedGrows(evs: seq<Event>, ev: Event)
    ensures TrackedAll(evs + [ev]) == Tracked(TrackedAll(evs), ev)
  {
    assert (evs + [ev])[..|evs|] == evs;
  }

  lemma CappedGrows(s: string, c: char)
    ensures Capped(s + [c]) == if |Capped(s)| < LINE_CAP then Capped(s) + [c] else Capped(s)
  {
    if |s| >= LINE_CAP { assert (s + [c])[..LINE_CAP] == s[..LINE_CAP] == Capped(s); }
  }

  lemma CharStep(p: Split, c: char)
    requires c != '\r'
    ensures var r := Reader(Capped(p.rest), TrackedAll(Events(p.lines)));
            var q := if c == '\n' then Split(p.lines + [p.rest], []) else p.(rest := p.rest + [c]);
            FedChar(r, c) == Reader(Capped(q.rest), TrackedAll(Events(q.lines)))
  {
    EventsGrow(p.lines, p.rest);
    TrackedGrows(Events(p.lines), Classify(Capped(p.rest)));
    CappedGrows(p.rest, c);
  }

  /** After any stream the reader holds the unfinished line and has handled exactly the complete
      lines, each once and in order, cut at LINE_CAP. */
  lemma {:induction false} StreamIsItsLines(stream: string)
    ensures var p := SplitLines(Cleaned(stream));
            Fed(EMPTY, stream) == Reader(Capped(p.rest), TrackedAll(Events(p.lines)))
  {
    if stream != [] {
      var before, c := stream[..|stream| - 1], stream[|stream| - 1];
      StreamIsItsLines(before);
      var clean := Cleaned(before);
      if c == '\r' {
        assert clean + [] == clean;
      } else {
        assert (clean + [c])[..|clean|] == clean;
        CharStep(SplitLines(clean), c);
      }
    }
  }

  // ----- what is tracked is what is unfinished -----

  /** Submitted, and not closed since. */
  ghost predicate Unfinished(evs: seq<Event>, id: nat) {
    exists i | 0 <= i < |evs| ::
      evs[i] == Opens(id) && forall j | i < j < |evs| :: evs[j] != Closes(id)
  }

  /** All open requests, however many. */
  function OpenIds(evs: seq<Event>): set<nat> {
    if evs == [] then {}
    else
      var open := OpenIds(evs[..|evs| - 1]);
      match evs[|evs| - 1]
      case Opens(id) => open + {id}
      case Closes(id) => open - {id}
      case Nothing => open
  }

  lemma UnfinishedStep(evs: seq<Event>, id: nat)
    requires evs != []
    ensures var last := evs[|evs| - 1];
            Unfinished(evs, id) <==> last == Opens(id) || (last != Closes(id) && Unfinished(evs[..|evs| - 1], id))
  {
    var before, n := evs[..|evs| - 1], |evs| - 1;
    if Unfinished(evs, id) && evs[n] != Opens(id) {
      var i :| 0 <= i < |evs| && evs[i] == Opens(id) && forall j | i < j < |evs| :: evs[j] != Closes(id);
      assert evs[n] != Closes(id);
      assert before[i] == Opens(id) && forall j | i < j < |before| :: before[j] != Closes(id);
    }
    if evs[n] != Closes(id) && Unfinished(before, id) {
      var i :| 0 <= i < |before| && before[i] == Opens(id) && forall j | i < j < |before| :: before[j] != Closes(id);
      assert evs[i] == Opens(id) && forall j | i < j < |evs| :: evs[j] != Closes(id);
    }
  }

  lemma {:induction false} OpenIdsAreUnfinished(evs: seq<Event>, id: nat)
    ensures id in OpenIds(evs) <==> Unfinished(evs, id)
  {
    if evs != [] {
      UnfinishedStep(evs, id);
      OpenIdsAreUnfinished(evs[..|evs| - 1], id);
    }
  }

  lemma {:induction false} TrackedIsCapped(evs: seq<Event>)
    ensures |TrackedAll(evs)| <= OPEN_CAP
  {
    if evs != [] {
      var before := TrackedAll(evs[..|evs| - 1]);
      TrackedIsCapped(evs[..|evs| - 1]);
      match evs[|evs| - 1] {
        case Opens(id) => if id in before { assert before + {id} == before; }
        case Closes(id) => Smaller(before, id);
        case Nothing =>
      }
    }
  }

  lemma Smaller(s: set<nat>, id: nat)
    ensures |s - {id}| <= |s|
  {
    if id !in s { assert s - {id} == s; }
  }

  lemma {:induction false} TrackedWithinCap(evs: seq<Event>)
    requires forall n | 0 <= n <= |evs| :: |OpenIds(evs[..n])| <= OPEN_CAP
    ensures TrackedAll(evs) == OpenIds(evs)
  {
    if evs != [] {
      var before, last := evs[..|evs| - 1], evs[|evs| - 1];
      forall n | 0 <= n <= |before| ensures |OpenIds(before[..n])| <= OPEN_CAP {
        assert before[..n] == evs[..n];
      }
      TrackedWithinCap(before);
      assert evs[..|evs|] == evs;
      if last.Opens? && last.id !in OpenIds(before) {
        assert |OpenIds(evs)| == |OpenIds(before)| + 1;
      } else if last.Opens? {
        assert OpenIds(before) + {last.id} == OpenIds(before);
      }
    }
  }

  /** The tracked set is exactly the unfinished requests all along, if and only if there were
      never more than OPEN_CAP of them. */
  lemma TrackingIsExactIff(evs: seq<Event>)
    ensures (forall n | 0 <= n <= |evs| :: TrackedAll(evs[..n]) == OpenIds(evs[..n]))
       <==> (forall n | 0 <= n <= |evs| :: |OpenIds(evs[..n])| <= OPEN_CAP)
  {
    if forall n | 0 <= n <= |evs| :: |OpenIds(evs[..n])| <= OPEN_CAP {
      forall n | 0 <= n <= |evs| ensures TrackedAll(evs[..n]) == OpenIds(evs[..n]) {
        var cut := evs[..n];
        assert forall m | 0 <= m <= |cut| :: cut[..m] == evs[..m];
        TrackedWithinCap(cut);
      }
    } else {
      var n :| 0 <= n <= |evs| && |OpenIds(evs[..n])| > OPEN_CAP;
      TrackedIsCapped(evs[..n]);
    }
  }

  // ----- the idle unload -----

  datatype Idle = Idle(nowMs: int, lastActivityMs: int, idleMinutes: int, running: bool, healthy: bool, inflight: int)

  predicate UnloadDue(in_: Idle) {
    && in_.idleMinutes > 0 && in_.running && in_.healthy && in_.inflight <= 0 && in_.lastActivityMs > 0
    && in_.nowMs - in_.lastActivityMs >= in_.idleMinutes * 60000
  }

  /** However the engine's output is cut into reads, no unload is due while a request whose
      submission is in a complete line has not finished. */
  lemma NoUnloadWhileUnfinished(chunks: seq<string>, id: nat, in_: Idle)
    requires var evs := Events(SplitLines(Cleaned(Joined(chunks))).lines);
             Unfinished(evs, id) && forall n | 0 <= n <= |evs| :: |OpenIds(evs[..n])| <= OPEN_CAP
    requires in_.inflight == |FedChunks(EMPTY, chunks).open|
    ensures !UnloadDue(in_)
  {
    var evs := Events(SplitLines(Cleaned(Joined(chunks))).lines);
    ChunksDoNotMatter(EMPTY, chunks);
    StreamIsItsLines(Joined(chunks));
    TrackedWithinCap(evs);
    OpenIdsAreUnfinished(evs, id);
  }

  /** With the unload enabled, the engine up and an activity seen, and never more than OPEN_CAP
      requests open: the unload is due exactly from `idleMinutes` after that activity on, and
      exactly while no request is unfinished. */
  lemma UnloadDueIff(chunks: seq<string>, in_: Idle)
    requires var evs := Events(SplitLines(Cleaned(Joined(chunks))).lines);
             forall n | 0 <= n <= |evs| :: |OpenIds(evs[..n])| <= OPEN_CAP
    requires in_.inflight == |FedChunks(EMPTY, chunks).open|
    requires in_.idleMinutes > 0 && in_.running && in_.healthy && in_.lastActivityMs > 0
    ensures var evs := Events(SplitLines(Cleaned(Joined(chunks))).lines);
            forall now :: UnloadDue(in_.(nowMs := now)) <==>
              now >= in_.lastActivityMs + 60000 * in_.idleMinutes && forall id: nat :: !Unfinished(evs, id)
  {
    var evs := Events(SplitLines(Cleaned(Joined(chunks))).lines);
    var open := FedChunks(EMPTY, chunks).open;
    ChunksDoNotMatter(EMPTY, chunks);
    StreamIsItsLines(Joined(chunks));
    TrackedWithinCap(evs);
    NoneOpen(evs, open);
  }

  lemma NoneOpen(evs: seq<Event>, open: set<nat>)
    requires open == OpenIds(evs)
    ensures |open| <= 0 <==> forall id: nat :: !Unfinished(evs, id)
  {
    forall id: nat ensures id in open <==> Unfinished(evs, id) { OpenIdsAreUnfinished(evs, id); }
    if |open| > 0 {
      var id :| id in open;
      assert Unfinished(evs, id);
    }
  }

  // ----- past the cap -----

  function OpenRun(n: nat): seq<Event> { if n == 0 then [] else OpenRun(n - 1) + [Opens(n - 1)] }

  function CloseRun(evs: seq<Event>, n: nat): seq<Event> { if n == 0 then evs else CloseRun(evs, n - 1) + [Closes(n - 1)] }

  lemma OpenOne(open: set<nat>, n: nat)
    requires n < OPEN_CAP && |open| == n && forall i: nat :: i in open <==> i < n
    ensures var more := Tracked(open, Opens(n)); |more| == n + 1 && forall i: nat :: i in more <==> i < n + 1
  {
    assert n !in open;
  }

  lemma {:induction false} FillsUp(n: nat)
    requires n <= OPEN_CAP
    ensures |TrackedAll(OpenRun(n))| == n && forall i: nat :: i in TrackedAll(OpenRun(n)) <==> i < n
  {
    if n > 0 {
      FillsUp(n - 1);
      TrackedGrows(OpenRun(n - 1), Opens(n - 1));
      OpenOne(TrackedAll(OpenRun(n - 1)), n - 1);
    }
  }

  lemma {:induction false} Empties(evs: seq<Event>, n: nat, i: nat)
    requires forall k: nat :: k in TrackedAll(evs) <==> k < OPEN_CAP
    ensures i in TrackedAll(CloseRun(evs, n)) <==> n <= i < OPEN_CAP
  {
    if n > 0 {
      Empties(evs, n - 1, i);
      TrackedGrows(CloseRun(evs, n - 1), Closes(n - 1));
    }
  }

  lemma {:induction false} StaysOpen(evs: seq<Event>, n: nat, id: nat)
    requires Unfinished(evs, id) && n <= id
    ensures Unfinished(CloseRun(evs, n), id)
  {
    if n > 0 {
      StaysOpen(evs, n - 1, id);
      var all := CloseRun(evs, n);
      assert all[..|all| - 1] == CloseRun(evs, n - 1);
      UnfinishedStep(all, id);
    }
  }

  /** Past the cap a request can be forgotten: once OPEN_CAP others have come and gone, nothing
      is tracked although it is unfinished. */
  lemma CapForgets(n: nat)
    requires n == OPEN_CAP
    ensures var evs := CloseRun(OpenRun(n) + [Opens(n)], n); TrackedAll(evs) == {} && Unfinished(evs, n)
  {
    var evs := OpenRun(n) + [Opens(n)];
    FillsUp(n);
    TrackedGrows(OpenRun(n), Opens(n));
    assert evs[|evs| - 1] == Opens(n);
    UnfinishedStep(evs, n);
    StaysOpen(evs, n, n);
    forall i: nat ensures i !in TrackedAll(CloseRun(evs, n)) { Empties(evs, n, i); }
  }
}
