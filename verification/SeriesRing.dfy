/** The bounded in-memory history: a ring of samples and a queue of events, filled by pushing
    and by loading the text of the series file. */
module SeriesRing {
  import opened Wrappers
  import opened SeriesFormat
  import opened SeriesFile
  import T = Text

  // ----- the newest n -----

  function LastN<A>(s: seq<A>, n: nat): (r: seq<A>)
    ensures |r| <= n && (|s| <= n ==> r == s)
  {
    if |s| <= n then s else s[|s| - n..]
  }

  /** Dropping early and dropping late keep the same newest elements. */
  lemma LastOfLast<A>(s: seq<A>, t: seq<A>, n: nat)
    ensures LastN(LastN(s, n) + t, n) == LastN(s + t, n)
  {
    if |s| > n {
      var r := s[|s| - n..] + t;
      assert (s + t)[|s| - n..] == r;
      assert r[|t|..] == (s + t)[|s| + |t| - n..];
    }
  }

  lemma AddThenAdd<A>(s: seq<A>, x: seq<A>, y: seq<A>, n: nat)
    ensures LastN(LastN(s + x, n) + y, n) == LastN(s + (x + y), n)
  {
    LastOfLast(s + x, y, n);
    assert s + x + y == s + (x + y);
  }

  /** A suffix with enough elements holds the newest ones. */
  lemma LastOfSuffix<A>(s: seq<A>, t: seq<A>, n: nat)
    requires |t| >= n || s == []
    ensures LastN(s + t, n) == LastN(t, n)
  {
    if s == [] {
      assert s + t == t;
    } else {
      assert (s + t)[|s| + |t| - n..] == t[|t| - n..];
      assert |t| == n ==> t[0..] == t;
    }
  }

  // ----- what a text holds -----

  function Samples(rs: seq<Record>): seq<Sample> {
    if rs == [] then [] else (if rs[0].S? then [rs[0].sample] else []) + Samples(rs[1..])
  }

  function Events(rs: seq<Record>): seq<Event> {
    if rs == [] then [] else (if rs[0].E? then [rs[0].event] else []) + Events(rs[1..])
  }

  lemma {:induction false} SplitSamples(a: seq<Record>, b: seq<Record>)
    ensures Samples(a + b) == Samples(a) + Samples(b)
  {
    if a == [] {
      assert a + b == b;
    } else {
      assert (a + b)[0] == a[0] && (a + b)[1..] == a[1..] + b;
      SplitSamples(a[1..], b);
    }
  }

  lemma {:induction false} SplitEvents(a: seq<Record>, b: seq<Record>)
    ensures Events(a + b) == Events(a) + Events(b)
  {
    if a == [] {
      assert a + b == b;
    } else {
      assert (a + b)[0] == a[0] && (a + b)[1..] == a[1..] + b;
      SplitEvents(a[1..], b);
    }
  }

  lemma OneRecord(r: Record)
    ensures Samples([r]) == if r.S? then [r.sample] else []
    ensures Events([r]) == if r.E? then [r.event] else []
  {
  }

  function Found(o: Option<Record>): seq<Record> { if o.None? then [] else [o.value] }

  function LineRecords(line: string): seq<Record> {
    if line == [] then [] else Found(ParseLine(line))
  }

  function FirstLine(text: string): string { T.Trim(text[..T.LineEnd(text)]) }

  function OtherLines(text: string): string {
    var e := T.LineEnd(text);
    if e < |text| then text[e + 1..] else []
  }

  /** The records of a text, line by line; lines that are neither kind of record are skipped. */
  function Loaded(text: string): seq<Record>
    decreases |text|, 1
  {
    if text == [] then [] else LoadedWith(FirstLine(text), OtherLines(text))
  }

  function LoadedWith(line: string, rest: string): seq<Record>
    decreases |rest| + 1, 0
  {
    LineRecords(line) + Loaded(rest)
  }

  /** The lines written for records, as they are on the disk. */
  function Lines(rs: seq<Record>): seq<string> {
    seq(|rs|, i requires 0 <= i < |rs| => OnDisk(Format(rs[i])))
  }

  ghost predicate AllGood(rs: seq<Record>) { forall i | 0 <= i < |rs| :: Good(rs[i]) }

  /** One line that ends an object. */
  predicate Closing(s: string) { '\n' !in s && s != [] && s[|s| - 1] == '}' }

  lemma NumberCloses(name: string, n: int, rest: string)
    requires '\n' !in name && Closing(rest)
    ensures Closing(Number(name, n, rest))
  {
    NumberIsPlain(n);
  }

  lemma LastNumberCloses(name: string, n: int)
    requires '\n' !in name
    ensures Closing(LastNumber(name, n))
  {
    NumberIsPlain(n);
  }

  lemma SampleIsOneLine(s: Sample)
    ensures Closing(FormatSample(s)) && FormatSample(s)[0] == '{'
  {
    var used := LastNumber("nvidia_used_bytes", s.nvidiaUsedBytes);
    LastNumberCloses("nvidia_used_bytes", s.nvidiaUsedBytes);
    NumberCloses("budget_bytes", s.budgetBytes, used);
    NumberCloses("t_ms", s.tMs, Number("budget_bytes", s.budgetBytes, used));
  }

  lemma EventIsOneLine(e: Event)
    requires '\n' !in e.kind && '\n' !in e.note
    ensures Closing(FormatEvent(e)) && FormatEvent(e)[0] == '{'
  {
    NumberCloses("t_ms", e.tMs, Words("kind", e.kind, LastWords("label", e.note)));
  }

  lemma ReturnIsTrimmed(line: string)
    requires Closing(line) && line[0] == '{'
    ensures T.Trim(OnDisk(line)) == line
  {
    var s := OnDisk(line);
    assert s[0] == line[0] && s[|s| - 1] == '\r' && s[..|line|] == line;
    assert T.TrimRight(s) == T.TrimRight(line);
  }

  lemma OneLine(r: Record)
    requires Good(r)
    ensures '\n' !in Format(r) && Format(r) != [] && T.Trim(OnDisk(Format(r))) == Format(r)
  {
    match r
    case S(s) => SampleIsOneLine(s); ReturnIsTrimmed(FormatSample(s));
    case E(e) => EventIsOneLine(e); ReturnIsTrimmed(FormatEvent(e));
  }

  lemma FirstLineOf(line: string, rest: string)
    requires '\n' !in line
    ensures var text := line + "\n" + rest; FirstLine(text) == T.Trim(line) && OtherLines(text) == rest
  {
    var text := line + "\n" + rest;
    T.LineEndOf(line, rest);
    assert text[..|line|] == line && text[|line| + 1..] == rest;
  }

  lemma WrittenLine(r: Record, rest: string)
    requires Good(r)
    ensures LoadedWith(Format(r), rest) == [r] + Loaded(rest)
  {
    OneLine(r);
    RoundTrip(r);
    assert LineRecords(Format(r)) == [r];
  }

  lemma LoadedLine(r: Record, line: string, rest: string)
    requires Good(r) && line == OnDisk(Format(r))
    ensures '\n' !in line && Loaded(line + "\n" + rest) == [r] + Loaded(rest)
  {
    OneLine(r);
    FirstLineOf(line, rest);
    WrittenLine(r, rest);
  }

  lemma {:induction false} LoadedChain(ls: seq<string>, rs: seq<Record>, i: nat)
    requires |ls| == |rs| && i <= |rs|
    requires forall j | 0 <= j < |ls| :: Loaded(TextFrom(ls, j)) == [rs[j]] + Loaded(TextFrom(ls, j + 1))
    ensures Loaded(TextFrom(ls, i)) == rs[i..]
    decreases |rs| - i
  {
    if i < |rs| {
      LoadedChain(ls, rs, i + 1);
      assert [rs[i]] + rs[i + 1..] == rs[i..];
    }
  }

  /** Loading what was written gives back exactly the records written, in order. */
  lemma LoadedText(rs: seq<Record>, i: nat)
    requires AllGood(rs) && i <= |rs|
    ensures OneLines(Lines(rs)) && Loaded(TextFrom(Lines(rs), i)) == rs[i..]
  {
    var ls := Lines(rs);
    forall j | 0 <= j < |ls|
      ensures '\n' !in ls[j] && Loaded(TextFrom(ls, j)) == [rs[j]] + Loaded(TextFrom(ls, j + 1))
    {
      LoadedLine(rs[j], ls[j], TextFrom(ls, j + 1));
    }
    LoadedChain(ls, rs, i);
  }

  // ----- the ring -----

  const EVENT_CAP: nat := 128

  predicate RingShape(b: seq<Sample>, head: nat, size: nat) {
    size <= |b| && (|b| > 0 ==> head < |b|) && (size < |b| ==> head == size)
  }

  /** The samples of a circular buffer, oldest first. */
  function InOrder(b: seq<Sample>, head: nat, size: nat): seq<Sample>
    requires RingShape(b, head, size)
  {
    if size < |b| then b[..size] else if b == [] then [] else b[head..] + b[..head]
  }

  /** Wrapping around is what the remainder does to positions below twice the capacity. */
  function Wrap(x: nat, n: nat): nat { if x < n then x else x - n }

  lemma WrapMod(x: nat, n: nat)
    requires x < n + n
    ensures x % n == Wrap(x, n)
  {
    if x < n {} else { assert (x - n) % n == x % n; }
  }

  method Position(x: nat, n: nat) returns (r: nat)
    requires x < n + n
    ensures r == Wrap(x, n)
  {
    WrapMod(x, n);
    r := x % n;
  }

  lemma InOrderAt(b: seq<Sample>, head: nat, size: nat, i: nat)
    requires RingShape(b, head, size) && i < size
    ensures |InOrder(b, head, size)| == size
    ensures InOrder(b, head, size)[i] == b[Wrap((if size < |b| then 0 else head) + i, |b|)]
  {
  }

  lemma PushedWhileFilling(b: seq<Sample>, size: nat, s: Sample)
    requires size < |b|
    ensures InOrder(b[size := s], Wrap(size + 1, |b|), size + 1) == InOrder(b, size, size) + [s]
  {
    var c := b[size := s];
    if size + 1 < |b| {
      assert c[..size + 1] == b[..size] + [s];
    } else {
      assert c[0..] + c[..0] == c == b[..size] + [s];
    }
  }

  lemma PushedWhenFull(b: seq<Sample>, head: nat, s: Sample)
    requires head < |b|
    ensures InOrder(b[head := s], Wrap(head + 1, |b|), |b|) == InOrder(b, head, |b|)[1..] + [s]
  {
    var c := b[head := s];
    assert (b[head..] + b[..head])[1..] + [s] == b[head + 1..] + (b[..head] + [s]);
    assert c[head + 1..] == b[head + 1..] && c[..head + 1] == b[..head] + [s];
    if head + 1 == |b| {
      assert c[0..] + c[..0] == c[head + 1..] + c[..head + 1];
    }
  }

  /** Overwriting the head slot drops the oldest sample once the ring is full. */
  lemma Pushed(b: seq<Sample>, head: nat, size: nat, s: Sample)
    requires RingShape(b, head, size) && b != []
    ensures var next, more := Wrap(head + 1, |b|), if size < |b| then size + 1 else size;
            && RingShape(b[head := s], next, more)
            && InOrder(b[head := s], next, more) == LastN(InOrder(b, head, size) + [s], |b|)
  {
    var before := InOrder(b, head, size);
    if size < |b| {
      PushedWhileFilling(b, size, s);
    } else {
      PushedWhenFull(b, head, s);
      assert (before + [s])[1..] == before[1..] + [s];
    }
  }

  class Ring {
    const cap: nat
    const buf: array<Sample>
    var head: nat
    var size: nat
    var events: seq<Event>

    ghost predicate Valid()
      reads this
    {
      buf.Length == cap && size <= cap && (cap > 0 ==> head < cap) && (size < cap ==> head == size) && |events| <= EVENT_CAP
    }

    /** The samples held, oldest first. */
    ghost function Contents(): seq<Sample>
      reads this, buf
      requires Valid()
    {
      InOrder(buf[..], head, size)
    }

    constructor (cap: nat)
      ensures Valid() && this.cap == cap && fresh(buf) && Contents() == [] && events == []
    {
      this.cap := cap;
      buf := new Sample[cap](_ => Sample(0, 0, 0));
      head, size, events := 0, 0, [];
    }

    method Push(s: Sample)
      requires Valid()
      modifies this`head, this`size, buf
      ensures Valid() && Contents() == LastN(old(Contents()) + [s], cap)
    {
      if cap == 0 { return; }
      Pushed(buf[..], head, size, s);
      buf[head] := s;
      assert buf[..] == old(buf[..])[head := s];
      head := Position(head + 1, cap);
      if size < cap { size := size + 1; }
    }

    method PushEvent(e: Event)
      requires Valid()
      modifies this`events
      ensures Valid() && events == LastN(old(events) + [e], EVENT_CAP)
    {
      events := events + [e];
      while |events| > EVENT_CAP
        invariant events == old(events) + [e] || events == LastN(old(events) + [e], EVENT_CAP)
        decreases |events|
      {
        events := events[1..];
      }
    }

    /** The copy handed to readers. */
    method Snapshot() returns (out: seq<Sample>)
      requires Valid()
      ensures out == Contents()
    {
      var start := if size < cap then 0 else head;
      out := [];
      for i := 0 to size
        invariant i <= |Contents()| == size && out == Contents()[..i]
      {
        InOrderAt(buf[..], head, size, i);
        var at := Position(start + i, cap);
        out := out + [buf[at]];
      }
    }

    method Take(r: Option<Record>)
      requires Valid()
      modifies this`head, this`size, this`events, buf
      ensures Valid() && Contents() == LastN(old(Contents()) + Samples(Found(r)), cap)
      ensures events == LastN(old(events) + Events(Found(r)), EVENT_CAP)
    {
      assert old(Contents()) + [] == old(Contents()) && old(events) + [] == old(events);
      if r.None? { return; }
      OneRecord(r.value);
      match r.value
      case S(s) => Push(s);
      case E(e) => PushEvent(e);
    }

    /** Loading pushes the text's records in order onto what is already there. */
    method LoadLines(text: string)
      requires Valid()
      modifies this`head, this`size, this`events, buf
      ensures Valid() && Contents() == LastN(old(Contents()) + Samples(Loaded(text)), cap)
      ensures events == LastN(old(events) + Events(Loaded(text)), EVENT_CAP)
    {
      var rest := text;
      while rest != []
        invariant Valid()
        invariant LastN(Contents() + Samples(Loaded(rest)), cap) == LastN(old(Contents()) + Samples(Loaded(text)), cap)
        invariant LastN(events + Events(Loaded(rest)), EVENT_CAP)
               == LastN(old(events) + Events(Loaded(text)), EVENT_CAP)
        decreases |rest|
      {
        var line, others := FirstLine(rest), OtherLines(rest);
        assert Loaded(rest) == LoadedWith(line, others);
        TakeThenLoad(Contents(), events, LineRecords(line), Loaded(others), cap);
        var r := None;
        if line != [] { r := ReadRecord(line); }
        Take(r);
        rest := others;
      }
      assert Contents() + [] == Contents() && events + [] == events;
    }
  }

  lemma TakeThenLoad(s: seq<Sample>, e: seq<Event>, a: seq<Record>, b: seq<Record>, cap: nat)
    ensures LastN(LastN(s + Samples(a), cap) + Samples(b), cap) == LastN(s + Samples(a + b), cap)
    ensures LastN(LastN(e + Events(a), EVENT_CAP) + Events(b), EVENT_CAP) == LastN(e + Events(a + b), EVENT_CAP)
  {
    SplitSamples(a, b);
    SplitEvents(a, b);
    AddThenAdd(s, Samples(a), Samples(b), cap);
    AddThenAdd(e, Events(a), Events(b), EVENT_CAP);
  }
}
