/** The history over whole runs of the supervisor: samples and events pushed and persisted,
    the file rotated, rewrites that fail, and restarts that load what the file still holds. */
module SeriesRun {
  import opened SeriesFormat
  import opened SeriesFile
  import opened SeriesRing
  import D = Decimal

  const RING_CAP: nat := 6000

  class SeriesLog {
    var text: string
    var since: nat

    ghost function Value(): File
      reads this
    {
      File(text, since)
    }

    method Rotate(rewritten: bool)
      modifies this
      ensures Value() == Rotated(old(Value()), rewritten)
    {
      since := 0;
      if |text| <= ROTATE { return; }
      if rewritten { text := Tail(text); }
    }

    method PersistSample(s: Sample, rewritten: bool)
      modifies this
      ensures Value() == Persisted(old(Value()), FormatSample(s), true, rewritten)
    {
      var line := FormatSample(s);
      text := text + line + "\r\n";
      assert text == Appended(old(text), OnDisk(line));
      since := since + |line| + 1;
      if since >= KEEP { Rotate(rewritten); }
    }

    method PersistEvent(e: Event)
      modifies this
      ensures Value() == Persisted(old(Value()), FormatEvent(e), false, false)
    {
      var line := FormatEvent(e);
      text := text + line + "\r\n";
      assert text == Appended(old(text), OnDisk(line));
    }

    method LoadPersisted(ring: Ring, rewritten: bool)
      requires ring.Valid()
      modifies this, ring, ring.buf
      ensures ring.Valid() && Value() == Rotated(old(Value()), rewritten)
      ensures ring.Contents() == LastN(old(ring.Contents()) + Samples(Loaded(Tail(old(text)))), ring.cap)
      ensures ring.events == LastN(old(ring.events) + Events(Loaded(Tail(old(text)))), EVENT_CAP)
    {
      var size, body := |text|, Tail(text);
      assert old(ring.Contents()) + [] == old(ring.Contents()) && old(ring.events) + [] == old(ring.events);
      if body != [] { ring.LoadLines(body); }
      if size > ROTATE && rewritten { text := body; }
      since := 0;
    }
  }

  // ----- runs -----

  datatype Step = Put(record: Record, rewritten: bool) | Restart(rewritten: bool)

  datatype State = State(file: File, ring: seq<Sample>, marks: seq<Event>)

  const EMPTY := State(File([], 0), [], [])

  function Next(st: State, step: Step): State {
    match step
    case Put(r, rewritten) =>
      State(Persisted(st.file, Format(r), r.S?, rewritten),
            if r.S? then LastN(st.ring + [r.sample], RING_CAP) else st.ring,
            if r.E? then LastN(st.marks + [r.event], EVENT_CAP) else st.marks)
    case Restart(rewritten) =>
      var read := Loaded(Tail(st.file.text));
      State(Rotated(st.file, rewritten), LastN(Samples(read), RING_CAP), LastN(Events(read), EVENT_CAP))
  }

  function Run(steps: seq<Step>): State {
    if steps == [] then EMPTY else Next(Run(steps[..|steps| - 1]), steps[|steps| - 1])
  }

  function Added(step: Step): seq<Record> { if step.Put? then [step.record] else [] }

  /** Everything ever recorded, oldest first. */
  function History(steps: seq<Step>): seq<Record> {
    if steps == [] then [] else History(steps[..|steps| - 1]) + Added(steps[|steps| - 1])
  }

  ghost predicate GoodSteps(steps: seq<Step>) {
    forall i | 0 <= i < |steps| :: steps[i].Put? ==> Good(steps[i].record)
  }

  lemma {:induction false} HistoryIsGood(steps: seq<Step>)
    requires GoodSteps(steps)
    ensures AllGood(History(steps))
  {
    if steps != [] { HistoryIsGood(steps[..|steps| - 1]); }
  }

  // ----- the file over a run -----

  lemma LinesGrow(rs: seq<Record>, r: Record)
    ensures Lines(rs + [r]) == Lines(rs) + [OnDisk(Format(r))]
  {
  }

  lemma FileAfterStep(st: State, step: Step, all: seq<Record>, k: nat) returns (m: nat)
    requires AllGood(all) && Holds(st.file.text, Lines(all), k) && (step.Put? ==> Good(step.record))
    ensures Holds(Next(st, step).file.text, Lines(all + Added(step)), m)
  {
    LoadedText(all, 0);
    match step
    case Restart(rewritten) =>
      assert all + [] == all;
      m := HoldsRotated(st.file, rewritten, Lines(all), k);
    case Put(r, rewritten) =>
      OneLine(r);
      LinesGrow(all, r);
      m := HoldsPersisted(st.file, Lines(all), k, Format(r), r.S?, rewritten);
  }

  /** Over every run the file is whole records, and they are the newest ones recorded. */
  lemma {:induction false} FileHoldsNewest(steps: seq<Step>) returns (k: nat)
    requires GoodSteps(steps)
    ensures Holds(Run(steps).file.text, Lines(History(steps)), k)
  {
    if steps == [] {
      k := 0;
    } else {
      var before := steps[..|steps| - 1];
      var j := FileHoldsNewest(before);
      HistoryIsGood(before);
      k := FileAfterStep(Run(before), steps[|steps| - 1], History(before), j);
    }
  }

  /** The newest records that fit in KEEP bytes are always loaded, all of them. */
  lemma FittingRecordsAreLoaded(steps: seq<Step>, j: nat) returns (m: nat)
    requires GoodSteps(steps) && j <= |History(steps)| && |TextFrom(Lines(History(steps)), j)| < KEEP
    ensures m <= j && Loaded(Tail(Run(steps).file.text)) == History(steps)[m..]
  {
    var all := History(steps);
    HistoryIsGood(steps);
    LoadedText(all, 0);
    var k := FileHoldsNewest(steps);
    m := ReadsFitting(Run(steps).file.text, Lines(all), k, j);
    LoadedText(all, m);
  }

  // ----- how long the lines are -----

  const SAMPLE_BYTES: nat := 106

  lemma Pow19()
    ensures D.Pow10(19) == 10_000_000_000_000_000_000
  {
    assert D.Pow10(10) == 10_000_000_000;
  }

  lemma NumberLength(n: int)
    requires InRange(n)
    ensures |D.IntText(n)| <= if n < 0 then 20 else 19
  {
    Pow19();
    D.TextLength(if n < 0 then -n else n, 19);
  }

  lemma SampleLength(s: Sample)
    requires Good(S(s))
    ensures |OnDisk(FormatSample(s))| + 1 <= SAMPLE_BYTES
  {
    NumberLength(s.tMs);
    NumberLength(s.budgetBytes);
    NumberLength(s.nvidiaUsedBytes);
  }

  /** The bytes event lines take, from record `i` on, given the lines of all records. */
  function EventBytes(rs: seq<Record>, ls: seq<string>, i: nat): nat
    requires i <= |rs| == |ls|
    decreases |rs| - i
  {
    if i == |rs| then 0 else (if rs[i].E? then |ls[i]| + 1 else 0) + EventBytes(rs, ls, i + 1)
  }

  /** How many samples, or how many events, there are from record `i` on. */
  function CountFrom(rs: seq<Record>, i: nat, samples: bool): nat
    requires i <= |rs|
    decreases |rs| - i
  {
    if i == |rs| then 0 else (if rs[i].S? == samples then 1 else 0) + CountFrom(rs, i + 1, samples)
  }

  lemma {:induction false} CountIsLength(rs: seq<Record>, i: nat)
    requires i <= |rs|
    ensures CountFrom(rs, i, true) == |Samples(rs[i..])| && CountFrom(rs, i, false) == |Events(rs[i..])|
    decreases |rs| - i
  {
    if i < |rs| {
      assert rs[i..][1..] == rs[i + 1..];
      CountIsLength(rs, i + 1);
    }
  }

  lemma {:induction false} CountShrinks(rs: seq<Record>, i: nat, j: nat, samples: bool)
    requires i <= j <= |rs|
    ensures CountFrom(rs, j, samples) <= CountFrom(rs, i, samples)
    decreases j - i
  {
    if i < j { CountShrinks(rs, i + 1, j, samples); }
  }

  lemma {:induction false} TextLengthFrom(rs: seq<Record>, ls: seq<string>, i: nat)
    requires i <= |rs| == |ls| && forall j | 0 <= j < |rs| :: rs[j].S? ==> |ls[j]| + 1 <= SAMPLE_BYTES
    ensures |TextFrom(ls, i)| <= SAMPLE_BYTES * CountFrom(rs, i, true) + EventBytes(rs, ls, i)
    decreases |rs| - i
  {
    if i < |rs| { TextLengthFrom(rs, ls, i + 1); }
  }

  // ----- what a restart shows -----

  /** How many samples, or events, there are to show. */
  function ShownCount(all: seq<Record>, samples: bool): (n: nat)
    ensures n <= CountFrom(all, 0, samples)
  {
    var n, cap := CountFrom(all, 0, samples), if samples then RING_CAP else EVENT_CAP;
    if n < cap then n else cap
  }

  /** Where the newest `n` of a kind start, from record `i` on. */
  function NewestFrom(rs: seq<Record>, i: nat, n: nat, samples: bool): (j: nat)
    requires i <= |rs| && CountFrom(rs, i, samples) >= n
    ensures j <= |rs| && CountFrom(rs, j, samples) == n && (j < |rs| ==> rs[j].S? == samples)
    decreases |rs| - i
  {
    if i == |rs| || (CountFrom(rs, i, samples) == n && rs[i].S? == samples) then i
    else NewestFrom(rs, i + 1, n, samples)
  }

  /** The oldest record a restart must load to show all of a kind there is to show. */
  function Oldest(all: seq<Record>, samples: bool): (j: nat)
    ensures j <= |all| && CountFrom(all, j, samples) == ShownCount(all, samples)
  {
    NewestFrom(all, 0, ShownCount(all, samples), samples)
  }

  /** Fewer of them are left behind any later record, and no fewer behind an earlier one. */
  lemma LeftBehind(all: seq<Record>, m: nat, samples: bool)
    requires m <= |all|
    ensures m <= Oldest(all, samples) <==> CountFrom(all, m, samples) >= ShownCount(all, samples)
  {
    var j := Oldest(all, samples);
    if m <= j { CountShrinks(all, m, j, samples); } else { CountShrinks(all, j + 1, m, samples); }
  }

  lemma NewestOfSuffix<A>(before: seq<A>, after: seq<A>, cap: nat)
    ensures LastN(after, cap) == LastN(before + after, cap) <==> |after| >= cap || before == []
  {
    if |after| >= cap || before == [] {
      LastOfSuffix(before, after, cap);
    } else {
      assert |LastN(before + after, cap)| > |after|;
    }
  }

  /** Loading from record `m` on shows all there is to show exactly when it starts no later than
      the oldest of it. */
  lemma ShownIff(all: seq<Record>, m: nat)
    requires m <= |all|
    ensures LastN(Samples(all[m..]), RING_CAP) == LastN(Samples(all), RING_CAP) <==> m <= Oldest(all, true)
    ensures LastN(Events(all[m..]), EVENT_CAP) == LastN(Events(all), EVENT_CAP) <==> m <= Oldest(all, false)
  {
    assert all == all[..m] + all[m..] && all[0..] == all;
    SplitSamples(all[..m], all[m..]);
    SplitEvents(all[..m], all[m..]);
    CountIsLength(all, 0);
    CountIsLength(all, m);
    LeftBehind(all, m, true);
    LeftBehind(all, m, false);
    NewestOfSuffix(Samples(all[..m]), Samples(all[m..]), RING_CAP);
    NewestOfSuffix(Events(all[..m]), Events(all[m..]), EVENT_CAP);
  }

  /** The newest lines `rest` are shorter than KEEP, or are KEEP bytes long and the whole file. */
  ghost predicate Reaches(text: string, rest: string) {
    |rest| < KEEP || (|rest| == KEEP && text == rest)
  }

  lemma ReadsIff(text: string, ls: seq<string>, k: nat, j: nat) returns (m: nat)
    requires OneLines(ls) && Holds(text, ls, k) && j <= |ls|
    ensures m <= |ls| && Tail(text) == TextFrom(ls, m)
    ensures m <= j <==> Reaches(text, TextFrom(ls, j))
  {
    m := HoldsTail(text, ls, k);
    CutReaches(ls, k, m, j);
  }

  lemma CutReaches(ls: seq<string>, k: nat, m: nat, j: nat)
    requires k <= m <= |ls| && j <= |ls| && (m == k <==> |TextFrom(ls, k)| <= KEEP)
    requires m > k ==> |TextFrom(ls, m)| < KEEP
    requires m > 0 ==> |TextFrom(ls, m - 1)| >= KEEP
    ensures m <= j <==> Reaches(TextFrom(ls, k), TextFrom(ls, j))
  {
    if m > j {
      Shrinks(ls, j, m - 1);
      if k > j { Shrinks(ls, j, k); }
    } else {
      Shrinks(ls, m, j);
    }
  }

  /** What a restart must find to show all of a kind: the text from the oldest of it on is
      shorter than KEEP, or is KEEP bytes long and all the file holds. */
  ghost predicate Kept(steps: seq<Step>, samples: bool) {
    var all := History(steps);
    Reaches(Run(steps).file.text, TextFrom(Lines(all), Oldest(all, samples)))
  }

  lemma RestartLoads(steps: seq<Step>, samples: bool) returns (m: nat)
    requires GoodSteps(steps)
    ensures m <= |History(steps)| && Loaded(Tail(Run(steps).file.text)) == History(steps)[m..]
    ensures m <= Oldest(History(steps), samples) <==> Kept(steps, samples)
  {
    var all := History(steps);
    HistoryIsGood(steps);
    LoadedText(all, 0);
    var k := FileHoldsNewest(steps);
    m := ReadsIff(Run(steps).file.text, Lines(all), k, Oldest(all, samples));
    LoadedText(all, m);
  }

  /** However often the file was rotated and whatever was recorded, a restart shows exactly the
      newest samples if and only if the file kept the text from the oldest of them on. */
  lemma RestartShowsNewestIff(steps: seq<Step>)
    requires GoodSteps(steps)
    ensures LastN(Samples(Loaded(Tail(Run(steps).file.text))), RING_CAP) == LastN(Samples(History(steps)), RING_CAP)
            <==> Kept(steps, true)
  {
    var m := RestartLoads(steps, true);
    ShownIff(History(steps), m);
  }

  /** And the same for the newest 128 events. */
  lemma RestartShowsEventsIff(steps: seq<Step>)
    requires GoodSteps(steps)
    ensures LastN(Events(Loaded(Tail(Run(steps).file.text))), EVENT_CAP) == LastN(Events(History(steps)), EVENT_CAP)
            <==> Kept(steps, false)
  {
    var m := RestartLoads(steps, false);
    ShownIff(History(steps), m);
  }

  /** The event lines among the newest samples leave the samples room in KEEP bytes. */
  ghost predicate Sparse(all: seq<Record>) {
    SAMPLE_BYTES * RING_CAP + EventBytes(all, Lines(all), Oldest(all, true)) < KEEP
  }

  lemma NewestFit(all: seq<Record>)
    requires AllGood(all) && Sparse(all)
    ensures |TextFrom(Lines(all), Oldest(all, true))| < KEEP
  {
    forall i | 0 <= i < |all| && all[i].S? ensures |Lines(all)[i]| + 1 <= SAMPLE_BYTES { SampleLength(all[i].sample); }
    TextLengthFrom(all, Lines(all), Oldest(all, true));
  }

  /** So a restart shows exactly the newest samples while events are few among them. */
  lemma RestartShowsNewest(steps: seq<Step>)
    requires GoodSteps(steps) && Sparse(History(steps))
    ensures LastN(Samples(Loaded(Tail(Run(steps).file.text))), RING_CAP) == LastN(Samples(History(steps)), RING_CAP)
  {
    HistoryIsGood(steps);
    NewestFit(History(steps));
    RestartShowsNewestIff(steps);
  }

  // ----- runs that lose a sample, and that show a rotation -----

  /** An event whose note is `n` characters long. */
  function Noted(n: nat): Record { E(Event(0, "k", seq(n, i => 'x'))) }

  lemma NotedLength(n: nat)
    ensures Good(Noted(n)) && |Format(Noted(n))| == 32 + n
  {
    assert D.IntText(0) == "0";
  }

  lemma OneStep(steps: seq<Step>, last: Step, more: seq<Step>)
    requires more == steps + [last]
    ensures Run(more) == Next(Run(steps), last) && History(more) == History(steps) + Added(last)
  {
    assert more[..|more| - 1] == steps;
  }

  lemma TwoSteps(a: Step, b: Step)
    ensures Run([a]) == Next(EMPTY, a) && Run([a, b]) == Next(Run([a]), b)
    ensures History([a, b]) == Added(a) + Added(b)
  {
    OneStep([], a, [a]);
    OneStep([a], b, [a, b]);
    assert [] + Added(a) == Added(a);
  }

  /** A sample followed by one event of KEEP bytes is not shown after a restart. */
  lemma LongEventHidesSample(s: Sample)
    requires Good(S(s))
    ensures var steps := [Put(S(s), true), Put(Noted(KEEP), true)];
            GoodSteps(steps) && Samples(History(steps)) == [s] && Samples(Loaded(Tail(Run(steps).file.text))) == []
  {
    NotedLength(KEEP);
    var steps := [Put(S(s), true), Put(Noted(KEEP), true)];
    TwoSteps(steps[0], steps[1]);
    LongHides(steps, s, Noted(KEEP));
  }

  lemma LongHides(steps: seq<Step>, s: Sample, r: Record)
    requires GoodSteps(steps) && History(steps) == [S(s), r] && r.E? && |Format(r)| >= KEEP
    ensures Samples(History(steps)) == [s] && Samples(Loaded(Tail(Run(steps).file.text))) == []
  {
    LongEventReaches(s, r);
    var m := RestartLoads(steps, true);
    LeftBehind(History(steps), m, true);
    CountIsLength(History(steps), m);
  }

  lemma LongEventReaches(s: Sample, r: Record)
    requires r.E? && |Format(r)| >= KEEP
    ensures var all := [S(s), r];
            Samples(all) == [s] && Oldest(all, true) == 0 && ShownCount(all, true) == 1 && |TextFrom(Lines(all), 0)| > KEEP
  {
    var all := [S(s), r];
    assert all[1..] == [r];
    OneRecord(r);
    assert CountFrom(all, 1, true) == CountFrom(all, 2, true);
    assert TextFrom(Lines(all), 1) == Lines(all)[1] + "\n" + TextFrom(Lines(all), 2);
  }

  /** A run whose rotated file is KEEP bytes long and reads back as more than the whole history
      would: an event rotated away by a restart, then one that fills KEEP exactly. */
  lemma RotationShowsInRun()
    ensures var steps := [Put(Noted(ROTATE), true), Restart(true), Put(Noted(KEEP - 34), true)];
            var all, text := History(steps), Run(steps).file.text;
            && GoodSteps(steps) && all == [Noted(ROTATE), Noted(KEEP - 34)]
            && |text| == KEEP && Holds(text, Lines(all), 1)
            && Tail(text) == text != Tail(TextFrom(Lines(all), 0))
  {
    NotedLength(ROTATE);
    NotedLength(KEEP - 34);
    RotationShowsAfter(Noted(ROTATE), Noted(KEEP - 34));
  }

  lemma RotationShowsAfter(a: Record, b: Record)
    requires a.E? && b.E? && Good(a) && Good(b) && |Format(a)| > ROTATE && |Format(b)| + 2 == KEEP
    ensures var steps := [Put(a, true), Restart(true), Put(b, true)];
            var all, text := History(steps), Run(steps).file.text;
            && GoodSteps(steps) && all == [a, b]
            && |text| == KEEP && Holds(text, Lines(all), 1)
            && Tail(text) == text != Tail(TextFrom(Lines(all), 0))
  {
    OneLine(a);
    OneLine(b);
    FileAfterThree(a, b);
    RotationShows(OnDisk(Format(a)), OnDisk(Format(b)));
  }

  lemma ThreeSteps(a: Step, b: Step, c: Step)
    ensures Run([a]) == Next(EMPTY, a) && Run([a, b]) == Next(Run([a]), b) && Run([a, b, c]) == Next(Run([a, b]), c)
    ensures History([a, b, c]) == Added(a) + Added(b) + Added(c)
  {
    TwoSteps(a, b);
    OneStep([a, b], c, [a, b, c]);
  }

  lemma FileAfterThree(a: Record, b: Record)
    requires a.E? && b.E? && '\n' !in Format(a) && |Format(a)| > ROTATE
    ensures var steps := [Put(a, true), Restart(true), Put(b, true)];
            && History(steps) == [a, b] && Run(steps).file.text == Appended([], OnDisk(Format(b)))
    ensures Lines([a, b]) == [OnDisk(Format(a)), OnDisk(Format(b))]
  {
    var line := OnDisk(Format(a));
    TextGrows([], 0, line);
    assert [] + [line] == [line];
    var k := TailOfLines([line], 0);
    ThreeSteps(Put(a, true), Restart(true), Put(b, true));
  }

  /** So if the newest 128 events, or all there are, fit in KEEP bytes together with what was
      recorded after them, a restart shows exactly the newest events recorded. */
  lemma RestartShowsNewestEvents(steps: seq<Step>, j: nat)
    requires GoodSteps(steps) && j <= |History(steps)| && |TextFrom(Lines(History(steps)), j)| < KEEP
    requires |Events(History(steps)[j..])| >= EVENT_CAP || j == 0
    ensures LastN(Events(Loaded(Tail(Run(steps).file.text))), EVENT_CAP) == LastN(Events(History(steps)), EVENT_CAP)
  {
    var all := History(steps);
    CountIsLength(all, j);
    LeftBehind(all, j, false);
    Shrinks(Lines(all), j, Oldest(all, false));
    RestartShowsEventsIff(steps);
  }

  lemma RingAfterPut(all: seq<Record>, ring: seq<Sample>, r: Record)
    requires ring == LastN(Samples(all), RING_CAP)
    ensures (if r.S? then LastN(ring + [r.sample], RING_CAP) else ring) == LastN(Samples(all + [r]), RING_CAP)
  {
    OneRecord(r);
    SplitSamples(all, [r]);
    LastOfLast(Samples(all), Samples([r]), RING_CAP);
    assert Samples(all) + [] == Samples(all) && ring + [] == ring;
  }

  lemma MarksAfterPut(all: seq<Record>, marks: seq<Event>, r: Record)
    requires marks == LastN(Events(all), EVENT_CAP)
    ensures (if r.E? then LastN(marks + [r.event], EVENT_CAP) else marks) == LastN(Events(all + [r]), EVENT_CAP)
  {
    OneRecord(r);
    SplitEvents(all, [r]);
    LastOfLast(Events(all), Events([r]), EVENT_CAP);
    assert Events(all) + [] == Events(all) && marks + [] == marks;
  }

  /** What is in memory is the newest of the whole history. */
  ghost predicate Shown(st: State, all: seq<Record>) {
    st.ring == LastN(Samples(all), RING_CAP) && st.marks == LastN(Events(all), EVENT_CAP)
  }

  lemma ShownAfterRestart(steps: seq<Step>, rewritten: bool)
    requires GoodSteps(steps)
    ensures Shown(Next(Run(steps), Restart(rewritten)), History(steps) + []) <==> Kept(steps, true) && Kept(steps, false)
  {
    RestartShowsNewestIff(steps);
    RestartShowsEventsIff(steps);
    assert History(steps) + [] == History(steps);
  }

  lemma ShownAfterStep(steps: seq<Step>, last: Step)
    requires GoodSteps(steps) && Shown(Run(steps), History(steps))
    ensures Shown(Next(Run(steps), last), History(steps) + Added(last))
            <==> (last.Restart? ==> Kept(steps, true) && Kept(steps, false))
  {
    match last
    case Restart(rewritten) => ShownAfterRestart(steps, rewritten);
    case Put(r, _) =>
      RingAfterPut(History(steps), Run(steps).ring, r);
      MarksAfterPut(History(steps), Run(steps).marks, r);
  }

  /** So it was after every step of a run. */
  ghost predicate AlwaysShown(steps: seq<Step>) {
    Shown(Run(steps), History(steps)) && (steps == [] || AlwaysShown(steps[..|steps| - 1]))
  }

  /** The file kept enough at every restart of a run. */
  ghost predicate AlwaysKept(steps: seq<Step>) {
    steps == [] || (var before := steps[..|steps| - 1];
    && AlwaysKept(before) && (steps[|steps| - 1].Restart? ==> Kept(before, true) && Kept(before, false)))
  }

  /** The ring and the events in memory are the newest of the whole history all through a run,
      restarts included, if and only if the file kept enough at each restart. */
  lemma {:induction false} AlwaysShownIff(steps: seq<Step>)
    requires GoodSteps(steps)
    ensures AlwaysShown(steps) <==> AlwaysKept(steps)
  {
    if steps != [] {
      var before := steps[..|steps| - 1];
      AlwaysShownIff(before);
      if AlwaysShown(before) { ShownAfterStep(before, steps[|steps| - 1]); }
    }
  }

  /** Events were few after every step of a run. */
  ghost predicate AlwaysSparse(steps: seq<Step>) {
    Sparse(History(steps)) && (steps == [] || AlwaysSparse(steps[..|steps| - 1]))
  }

  /** The ring in memory holds the newest samples of the whole history, restarts included, while
      events are few. */
  lemma {:induction false} RingIsNewest(steps: seq<Step>)
    requires GoodSteps(steps) && AlwaysSparse(steps)
    ensures Run(steps).ring == LastN(Samples(History(steps)), RING_CAP)
  {
    if steps != [] {
      var before, last := steps[..|steps| - 1], steps[|steps| - 1];
      RingIsNewest(before);
      match last
      case Restart(_) =>
        RestartShowsNewest(before);
        assert History(before) + [] == History(before);
      case Put(r, _) => RingAfterPut(History(before), Run(before).ring, r);
    }
  }

  // ----- how large the file grows -----

  lemma {:induction false} EventBytesGrow(rs: seq<Record>, ls: seq<string>, i: nat, r: Record, line: string)
    requires i <= |rs| == |ls|
    ensures EventBytes(rs + [r], ls + [line], i) == EventBytes(rs, ls, i) + if r.E? then |line| + 1 else 0
    decreases |rs| - i
  {
    if i < |rs| { EventBytesGrow(rs, ls, i + 1, r, line); }
  }

  lemma SampleAtLeast(s: Sample)
    ensures |FormatSample(s)| + 1 >= LEAST
  {
  }

  /** How many records there were when the size of the file was last looked at. */
  function LookedAt(steps: seq<Step>): (k: nat)
    ensures k <= |History(steps)|
  {
    if steps == [] then 0
    else
      var before, last := steps[..|steps| - 1], steps[|steps| - 1];
      if last.Restart? || Looks(Run(before).file, Format(last.record), last.record.S?) then |History(steps)|
      else LookedAt(before)
  }

  /** The bytes of the event lines written since. */
  function EventsSince(steps: seq<Step>): nat {
    EventBytes(History(steps), Lines(History(steps)), LookedAt(steps))
  }

  lemma EventsSinceGrow(before: seq<Step>, last: Step, steps: seq<Step>)
    requires steps == before + [last] && last.Put?
    ensures EventsSince(steps)
         == EventsAfter(Run(before).file, Format(last.record), last.record.S?, EventsSince(before))
  {
    OneStep(before, last, steps);
    assert steps[..|steps| - 1] == before;
    LinesGrow(History(before), last.record);
    EventBytesGrow(History(before), Lines(History(before)), LookedAt(before), last.record, OnDisk(Format(last.record)));
  }

  lemma BoundedAfterPut(st: State, r: Record, events: nat)
    requires Bounded(st.file, events)
    ensures Bounded(Next(st, Put(r, true)).file, EventsAfter(st.file, Format(r), r.S?, events))
  {
    if r.S? { SampleAtLeast(r.sample); }
    SizeAfter(st.file, Format(r), r.S?, events);
  }

  /** While rewrites succeed, the file never exceeds ROTATE and KEEP together by more than a
      fiftieth of KEEP for carriage returns and the event lines written since its size was last
      looked at, which rotation does not count. */
  lemma {:induction false} SizeStaysBounded(steps: seq<Step>)
    requires forall i | 0 <= i < |steps| :: steps[i].rewritten
    ensures Bounded(Run(steps).file, EventsSince(steps))
  {
    if steps != [] {
      var before, last := steps[..|steps| - 1], steps[|steps| - 1];
      SizeStaysBounded(before);
      assert steps == before + [last] && last.rewritten;
      match last
      case Restart(_) => SizeRotated(Run(before).file);
      case Put(r, _) =>
        BoundedAfterPut(Run(before), r, EventsSince(before));
        EventsSinceGrow(before, last, steps);
    }
  }
}
