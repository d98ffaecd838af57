/** Following the engine's request log: polls that read whole lines from an offset while the
    engine keeps appending. */
module LogTail {
  import opened Wrappers

  // ----- whole lines of a stretch of text -----

  /** The first newline from `i` on and before `n`, or `n`. */
  function EndAt(file: string, i: nat, n: nat): (e: nat)
    requires i <= n <= |file|
    ensures i <= e <= n && (e < n ==> file[e] == '\n')
    decreases n - i
  {
    if i == n || file[i] == '\n' then i else EndAt(file, i + 1, n)
  }

  /** The lines between `i` and `n` that are ended by a newline. */
  function LinesIn(file: string, i: nat, n: nat): seq<string>
    requires i <= n <= |file|
    decreases n - i
  {
    var e := EndAt(file, i, n);
    if e == n then [] else [file[i..e]] + LinesIn(file, e + 1, n)
  }

  /** The position just behind those lines. */
  function Reached(file: string, i: nat, n: nat): (at: nat)
    requires i <= n <= |file|
    ensures i <= at <= n
    decreases n - i
  {
    var e := EndAt(file, i, n);
    if e == n then i else Reached(file, e + 1, n)
  }

  lemma {:induction false} NoNewlineBefore(file: string, i: nat, n: nat, j: nat)
    requires i <= n <= |file| && i <= j < EndAt(file, i, n)
    ensures file[j] != '\n'
    decreases n - i
  {
    if i < j { NoNewlineBefore(file, i + 1, n, j); }
  }

  /** What is left behind the last newline holds none. */
  lemma {:induction false} RestIsPartial(file: string, i: nat, n: nat, j: nat)
    requires i <= n <= |file| && Reached(file, i, n) <= j < n
    ensures file[j] != '\n'
    decreases n - i
  {
    var e := EndAt(file, i, n);
    if e == n {
      NoNewlineBefore(file, i, n, j);
    } else {
      RestIsPartial(file, e + 1, n, j);
    }
  }

  lemma {:induction false} EndStays(file: string, i: nat, n: nat, m: nat)
    requires i <= n <= m <= |file| && EndAt(file, i, n) < n
    ensures EndAt(file, i, m) == EndAt(file, i, n)
    decreases n - i
  {
    if file[i] != '\n' { EndStays(file, i + 1, n, m); }
  }

  lemma NextLine(file: string, i: nat, n: nat)
    requires i <= n <= |file| && EndAt(file, i, n) < n
    ensures LinesIn(file, i, n) == [file[i..EndAt(file, i, n)]] + LinesIn(file, EndAt(file, i, n) + 1, n)
    ensures Reached(file, i, n) == Reached(file, EndAt(file, i, n) + 1, n)
  {
  }

  lemma Regroup(line: string, before: seq<string>, after: seq<string>)
    ensures [line] + (before + after) == [line] + before + after
  {
  }

  /** Looking further adds the lines that begin where the last look stopped. */
  lemma {:induction false} LinesGrow(file: string, i: nat, n: nat, m: nat, at: nat)
    requires i <= n <= m <= |file| && at == Reached(file, i, n)
    ensures LinesIn(file, i, m) == LinesIn(file, i, n) + LinesIn(file, at, m)
    decreases n - i
  {
    var e, more := EndAt(file, i, n), LinesIn(file, at, m);
    if e < n {
      EndStays(file, i, n, m);
      LinesGrow(file, e + 1, n, m, at);
      NextLine(file, i, n);
      NextLine(file, i, m);
      Regroup(file[i..e], LinesIn(file, e + 1, n), more);
    } else {
      assert [] + more == more;
    }
  }

  lemma {:induction false} ReachesOn(file: string, i: nat, n: nat, m: nat)
    requires i <= n <= m <= |file|
    ensures Reached(file, i, m) == Reached(file, Reached(file, i, n), m)
    decreases n - i
  {
    var e := EndAt(file, i, n);
    if e < n {
      EndStays(file, i, n, m);
      ReachesOn(file, e + 1, n, m);
    }
  }

  lemma {:induction false} SameEnd(file: string, more: string, i: nat, n: nat)
    requires i <= n <= |file|
    ensures EndAt(file + more, i, n) == EndAt(file, i, n)
    decreases n - i
  {
    if i < n && file[i] != '\n' { SameEnd(file, more, i + 1, n); }
  }

  /** Appending changes nothing about an earlier stretch. */
  lemma {:induction false} SameLines(file: string, more: string, i: nat, n: nat)
    requires i <= n <= |file|
    ensures LinesIn(file + more, i, n) == LinesIn(file, i, n)
    decreases n - i
  {
    SameEnd(file, more, i, n);
    var e := EndAt(file, i, n);
    if e < n {
      SameLines(file, more, e + 1, n);
      assert (file + more)[i..e] == file[i..e];
    }
  }

  lemma {:induction false} SameReached(file: string, more: string, i: nat, n: nat)
    requires i <= n <= |file|
    ensures Reached(file + more, i, n) == Reached(file, i, n)
    decreases n - i
  {
    SameEnd(file, more, i, n);
    var e := EndAt(file, i, n);
    if e < n { SameReached(file, more, e + 1, n); }
  }

  // ----- one poll -----

  datatype Tail = Tail(offset: nat, recorded: bool)

  /** The first poll of a log that is not empty starts at its end. */
  predicate Skips(t: Tail, size: nat) { t.offset == 0 && size > 0 && !t.recorded }

  function AnyAdds(lines: seq<string>, adds: string -> bool): bool {
    lines != [] && (adds(lines[0]) || AnyAdds(lines[1..], adds))
  }

  /** The offset from which a poll that saw `size` reads. */
  function From(t: Tail, size: nat): nat { if size < t.offset then 0 else t.offset }

  /** Whether the poll opens the file at all. */
  predicate Reads(t: Tail, size: nat) { size != From(t, size) && !Skips(t.(offset := From(t, size)), size) }

  /** What a poll delivers: nothing when the log was cut short of the offset after its size was
      taken, or was not there any more and so reads as empty. */
  function Lines(t: Tail, size: nat, file: string): seq<string> {
    if Reads(t, size) && From(t, size) <= |file| then LinesIn(file, From(t, size), |file|) else []
  }

  function Polled(t: Tail, size: nat, file: string, adds: string -> bool): Tail {
    var at := From(t, size);
    if size == at then t.(offset := at)
    else if Skips(t.(offset := at), size) then t.(offset := size)
    else if at > |file| then t.(offset := at)
    else Tail(Reached(file, at, |file|), t.recorded || AnyAdds(LinesIn(file, at, |file|), adds))
  }

  class Follower {
    var offset: nat
    var recorded: bool
    const adds: string -> bool

    ghost function Value(): Tail
      reads this
    {
      Tail(offset, recorded)
    }

    constructor (adds: string -> bool)
      ensures Value() == Tail(0, false) && this.adds == adds
    {
      offset, recorded, this.adds := 0, false, adds;
    }

    /** One pass over a log whose size was `size` and which holds `file` when it is read. */
    method Poll(size: nat, file: string) returns (lines: seq<string>)
      modifies this
      ensures Value() == Polled(old(Value()), size, file, adds) && lines == Lines(old(Value()), size, file)
    {
      lines := [];
      if size < offset { offset := 0; }
      if size == offset { return; }
      if offset == 0 && size > 0 && !recorded {
        offset := size;
        return;
      }
      if offset > |file| { return; }
      var added;
      lines, offset, added := ReadLines(file, offset, adds);
      if added { recorded := true; }
    }
  }

  /** The loop over the lines from an offset on: it stops before an unfinished line. */
  method ReadLines(file: string, from: nat, adds: string -> bool) returns (lines: seq<string>, offset: nat, added: bool)
    requires from <= |file|
    ensures lines == LinesIn(file, from, |file|) && offset == Reached(file, from, |file|)
    ensures added == AnyAdds(lines, adds)
  {
    lines, offset, added := [], from, false;
    while true
      invariant offset <= |file| && lines + LinesIn(file, offset, |file|) == LinesIn(file, from, |file|)
      invariant Reached(file, offset, |file|) == Reached(file, from, |file|) && added == AnyAdds(lines, adds)
      decreases |file| - offset
    {
      var e := EndAt(file, offset, |file|);
      if e == |file| { break; }
      var line := file[offset..e];
      NextLine(file, offset, |file|);
      MoveOver(lines, line, LinesIn(file, e + 1, |file|));
      AddsLast(lines, line, adds);
      offset := offset + |line| + 1;
      lines := lines + [line];
      if adds(line) { added := true; }
    }
    assert lines + [] == lines;
  }

  lemma MoveOver(lines: seq<string>, line: string, rest: seq<string>)
    ensures lines + ([line] + rest) == lines + [line] + rest
  {
  }

  lemma {:induction false} AddsLast(lines: seq<string>, line: string, adds: string -> bool)
    ensures AnyAdds(lines + [line], adds) == (AnyAdds(lines, adds) || adds(line))
  {
    if lines == [] {
      assert [line][1..] == [];
    } else {
      assert (lines + [line])[1..] == lines[1..] + [line];
      AddsLast(lines[1..], line, adds);
    }
  }

  // ----- runs -----

  /** `read` is how much of the log the last poll had before it, `start` where following began. */
  datatype State = State(file: string, tail: Tail, start: Option<nat>, read: nat, delivered: seq<string>)

  /** The engine appends; a poll takes the size, and more may be appended before it reads. */
  datatype Step = Append(text: string) | Poll(late: string)

  const BEGIN := State([], Tail(0, false), None, 0, [])

  function Next(st: State, step: Step, adds: string -> bool): State {
    match step
    case Append(text) => st.(file := st.file + text)
    case Poll(late) =>
      var size, file := |st.file|, st.file + late;
      State(file, Polled(st.tail, size, file, adds),
            if st.start.None? && Skips(st.tail.(offset := From(st.tail, size)), size) then Some(size) else st.start,
            if Reads(st.tail, size) then |file| else size,
            st.delivered + Lines(st.tail, size, file))
  }

  function RunOn(st: State, steps: seq<Step>, adds: string -> bool): State {
    if steps == [] then st else Next(RunOn(st, steps[..|steps| - 1], adds), steps[|steps| - 1], adds)
  }

  function Run(steps: seq<Step>, adds: string -> bool): State { RunOn(BEGIN, steps, adds) }

  /** The lines delivered are the whole lines from the start to what was last read, each once and
      in order; the offset is just behind them. */
  ghost predicate Exact(st: State) {
    match st.start
    case None => st.tail == Tail(0, false) && st.read == 0 && st.delivered == []
    case Some(s) =>
      && (0 < s || st.tail.recorded) && s <= st.read <= |st.file|
      && st.delivered == LinesIn(st.file, s, st.read)
      && st.tail.offset == Reached(st.file, s, st.read)
  }

  lemma AppendKeepsExact(st: State, text: string, adds: string -> bool)
    requires Exact(st)
    ensures Exact(Next(st, Append(text), adds))
  {
    if st.start.Some? {
      SameLines(st.file, text, st.start.value, st.read);
      SameReached(st.file, text, st.start.value, st.read);
    }
  }

  lemma PollKeepsExact(st: State, late: string, adds: string -> bool)
    requires Exact(st)
    ensures Exact(Next(st, Poll(late), adds))
  {
    var size, file := |st.file|, st.file + late;
    if st.start.Some? {
      var s := st.start.value;
      SameLines(st.file, late, s, st.read);
      SameReached(st.file, late, s, st.read);
      LinesGrow(file, s, st.read, |file|, st.tail.offset);
      ReachesOn(file, s, st.read, |file|);
      assert st.delivered + [] == st.delivered;
    }
  }

  lemma {:induction false} StaysExact(st: State, steps: seq<Step>, adds: string -> bool)
    requires Exact(st)
    ensures Exact(RunOn(st, steps, adds))
  {
    if steps != [] {
      var before := steps[..|steps| - 1];
      StaysExact(st, before, adds);
      match steps[|steps| - 1]
      case Append(text) => AppendKeepsExact(RunOn(st, before, adds), text, adds);
      case Poll(late) => PollKeepsExact(RunOn(st, before, adds), late, adds);
    }
  }

  /** Over every interleaving of appends and polls. */
  lemma DeliveryIsExact(steps: seq<Step>, adds: string -> bool)
    ensures Exact(Run(steps, adds))
  {
    StaysExact(BEGIN, steps, adds);
  }

  // ----- a log that is replaced -----

  /** A log `file` followed from its beginning, or not yet followed if no sample was recorded. */
  function Anew(file: string, recorded: bool): State {
    State(file, Tail(0, recorded), if recorded then Some(0) else None, 0, [])
  }

  /** The log is replaced by a shorter one while the follower stands at `t`: from the next poll on
      it is followed as if anew, whatever is appended and polled after that. So with samples
      recorded before, exactly the whole lines of the new log are delivered, from its first on, and
      otherwise those behind what the new log held when it was first seen not empty. */
  lemma ReplacedIsFollowed(t: Tail, file: string, late: string, steps: seq<Step>, adds: string -> bool)
    requires |file| < t.offset
    ensures var stale := Next(Anew(file, t.recorded).(tail := t), Poll(late), adds);
            && stale == Next(Anew(file, t.recorded), Poll(late), adds) && Exact(RunOn(stale, steps, adds))
  {
    PollKeepsExact(Anew(file, t.recorded), late, adds);
    StaysExact(Next(Anew(file, t.recorded), Poll(late), adds), steps, adds);
  }

  /** A replacement that is not shorter goes unnoticed: what comes before the old offset is never
      delivered, and the first line delivered begins in the middle of one unless a newline happens
      to stand before the offset. */
  lemma UnnoticedReplacement(t: Tail, file: string)
    requires 0 < t.offset < |file|
    ensures Lines(t, |file|, file) == LinesIn(file, t.offset, |file|)
    ensures Lines(t, |file|, file) != [] ==>
              Lines(t, |file|, file)[0] == file[t.offset..EndAt(file, t.offset, |file|)]
  {
  }

  /** After a poll every line complete when its size was taken has been delivered, and what lies
      behind the offset is one unfinished line. */
  lemma PollCatchesUp(steps: seq<Step>, late: string, adds: string -> bool)
    ensures var was, st := Run(steps, adds), Run(steps + [Poll(late)], adds);
            st.start.Some? ==>
              && |was.file| <= st.read <= |st.file|
              && forall j | st.tail.offset <= j < st.read :: st.file[j] != '\n'
  {
    var all := steps + [Poll(late)];
    assert all[..|all| - 1] == steps;
    DeliveryIsExact(all, adds);
    var st := Run(all, adds);
    if st.start.Some? {
      forall j | st.tail.offset <= j < st.read ensures st.file[j] != '\n' {
        RestIsPartial(st.file, st.start.value, st.read, j);
      }
    }
  }

  /** Following begins at the first poll that finds the log not empty, and at its end. */
  lemma FollowingBegins(steps: seq<Step>, late: string, adds: string -> bool)
    ensures var was, st := Run(steps, adds), Run(steps + [Poll(late)], adds);
            was.start.None? ==> st.start == if was.file == [] then None else Some(|was.file|)
    ensures Run(steps, adds).start.Some? ==> Run(steps + [Poll(late)], adds).start == Run(steps, adds).start
  {
    var all := steps + [Poll(late)];
    assert all[..|all| - 1] == steps;
    DeliveryIsExact(steps, adds);
  }
}
