/** The series file as lines: appended on every sample and event, rotated when it has grown
    too large, and read back from its tail when the supervisor starts. */
module SeriesFile {
  import T = Text

  const KEEP: nat := 2 * 1024 * 1024
  const ROTATE: nat := 32 * 1024 * 1024

  function BehindFirstLine(body: string): string {
    var e := T.LineEnd(body);
    if e < |body| then body[e + 1..] else body
  }

  function Cut(text: string, keep: nat): string
    requires keep <= |text|
  {
    BehindFirstLine(text[|text| - keep..])
  }

  /** The last KEEP bytes, starting behind the first newline when that cuts the file. */
  function Tail(text: string): string {
    if |text| <= KEEP then text else Cut(text, KEEP)
  }

  /** The text of the lines from `i` on. */
  function TextFrom(ls: seq<string>, i: nat): string
    requires i <= |ls|
    decreases |ls| - i
  {
    if i == |ls| then [] else ls[i] + "\n" + TextFrom(ls, i + 1)
  }

  predicate OneLines(ls: seq<string>) { forall i | 0 <= i < |ls| :: '\n' !in ls[i] }

  // ----- cutting a file of whole lines -----

  lemma {:induction false} Shrinks(ls: seq<string>, i: nat, j: nat)
    requires i <= j <= |ls|
    ensures |TextFrom(ls, j)| + (j - i) <= |TextFrom(ls, i)|
    decreases j - i
  {
    if i < j { Shrinks(ls, i + 1, j); }
  }

  lemma CutInLine(line: string, rest: string, keep: nat)
    requires '\n' !in line && |rest| < keep <= |line| + 1 + |rest|
    ensures Cut(line + "\n" + rest, keep) == rest
  {
    var text := line + "\n" + rest;
    var cut := |text| - keep;
    assert text[cut..] == line[cut..] + "\n" + rest;
    T.LineEndOf(line[cut..], rest);
    assert text[cut..][|line| - cut + 1..] == rest;
  }

  lemma CutBelow(line: string, rest: string, keep: nat)
    requires keep <= |rest|
    ensures Cut(line + "\n" + rest, keep) == Cut(rest, keep)
  {
    var text := line + "\n" + rest;
    assert text[|text| - keep..] == rest[|rest| - keep..];
  }

  /** Wherever a file of whole lines is cut, what follows the next newline is again whole lines:
      all those whose text to the end is shorter than what was kept. */
  lemma {:induction false} CutAt(ls: seq<string>, i: nat, keep: nat) returns (k: nat)
    requires OneLines(ls) && i <= |ls| && 0 < keep <= |TextFrom(ls, i)|
    ensures i < k <= |ls| && |TextFrom(ls, k)| < keep <= |TextFrom(ls, k - 1)|
    ensures Cut(TextFrom(ls, i), keep) == TextFrom(ls, k)
    decreases |ls| - i
  {
    var rest := TextFrom(ls, i + 1);
    if keep > |rest| {
      CutInLine(ls[i], rest, keep);
      k := i + 1;
    } else {
      CutBelow(ls[i], rest, keep);
      k := CutAt(ls, i + 1, keep);
    }
  }

  /** Reading the tail of a file of whole lines yields whole lines: all of them if the file is
      small enough, otherwise the longest run of newest lines shorter than KEEP bytes. */
  lemma TailOfLines(ls: seq<string>, i: nat) returns (k: nat)
    requires OneLines(ls) && i <= |ls|
    ensures i <= k <= |ls| && Tail(TextFrom(ls, i)) == TextFrom(ls, k)
    ensures k == i <==> |TextFrom(ls, i)| <= KEEP
    ensures k > i ==> |TextFrom(ls, k)| < KEEP <= |TextFrom(ls, k - 1)|
  {
    k := i;
    if |TextFrom(ls, i)| > KEEP { k := CutAt(ls, i, KEEP); }
  }

  // ----- the file under use -----

  /** `since` counts sample bytes written since the size was last looked at. */
  datatype File = File(text: string, since: nat)

  /** The size test and the rewrite, which may fail and then leaves the old file. */
  function Rotated(f: File, rewritten: bool): File {
    File(if |f.text| > ROTATE && rewritten then Tail(f.text) else f.text, 0)
  }

  /** The file is appended to in text mode, so a carriage return goes before each newline. It is
      counted with the line here, and reading, which is not in text mode, trims it off again. */
  function OnDisk(line: string): string { line + "\r" }

  function Appended(text: string, line: string): string { text + line + "\n" }

  /** The write after which the size is looked at again. */
  predicate Looks(f: File, line: string, counted: bool) { counted && f.since + |line| + 1 >= KEEP }

  /** Only sample lines are counted towards the next look at the size, and without the carriage
      return that reaches the disk. */
  function Persisted(f: File, line: string, counted: bool, rewritten: bool): File {
    var text, since := Appended(f.text, OnDisk(line)), if counted then f.since + |line| + 1 else f.since;
    if Looks(f, line, counted) then Rotated(File(text, since), rewritten) else File(text, since)
  }

  /** The file holds the newest of all lines written: everything from `k` on, where what was
      dropped had at least KEEP bytes behind it. */
  ghost predicate Holds(text: string, ls: seq<string>, k: nat) {
    && k <= |ls| && text == TextFrom(ls, k)
    && (k > 0 ==> |TextFrom(ls, k - 1)| >= KEEP && |TextFrom(ls, 0)| > ROTATE)
  }

  lemma {:induction false} TextGrows(ls: seq<string>, i: nat, line: string)
    requires i <= |ls|
    ensures TextFrom(ls + [line], i) == Appended(TextFrom(ls, i), line)
    decreases |ls| - i
  {
    var more := ls + [line];
    if i == |ls| {
      assert TextFrom(more, i + 1) == [];
      assert line + "\n" + [] == [] + line + "\n";
    } else {
      TextGrows(ls, i + 1, line);
      assert ls[i] + "\n" + (TextFrom(ls, i + 1) + line + "\n") == (ls[i] + "\n" + TextFrom(ls, i + 1)) + line + "\n";
    }
  }

  lemma HoldsAppended(text: string, ls: seq<string>, k: nat, line: string)
    requires Holds(text, ls, k)
    ensures Holds(Appended(text, line), ls + [line], k)
  {
    TextGrows(ls, k, line);
    TextGrows(ls, 0, line);
    if k > 0 { TextGrows(ls, k - 1, line); }
  }

  /** Reading the tail of such a file drops lines only when they have KEEP bytes behind them. */
  lemma HoldsTail(text: string, ls: seq<string>, k: nat) returns (m: nat)
    requires OneLines(ls) && Holds(text, ls, k)
    ensures k <= m <= |ls| && Tail(text) == TextFrom(ls, m)
    ensures m == k <==> |text| <= KEEP
    ensures m > k ==> |TextFrom(ls, m)| < KEEP
    ensures m > 0 ==> |TextFrom(ls, m - 1)| >= KEEP
  {
    m := TailOfLines(ls, k);
  }

  lemma HoldsRotated(f: File, rewritten: bool, ls: seq<string>, k: nat) returns (m: nat)
    requires OneLines(ls) && Holds(f.text, ls, k)
    ensures Holds(Rotated(f, rewritten).text, ls, m)
  {
    m := k;
    if |f.text| > ROTATE && rewritten {
      m := HoldsTail(f.text, ls, k);
      Shrinks(ls, 0, k);
    }
  }

  lemma HoldsPersisted(f: File, ls: seq<string>, k: nat, line: string, counted: bool, rewritten: bool) returns (m: nat)
    requires OneLines(ls) && Holds(f.text, ls, k) && '\n' !in line
    ensures Holds(Persisted(f, line, counted, rewritten).text, ls + [OnDisk(line)], m)
  {
    HoldsAppended(f.text, ls, k, OnDisk(line));
    m := k;
    var since := f.since + |line| + 1;
    if counted && since >= KEEP {
      m := HoldsRotated(File(Appended(f.text, OnDisk(line)), since), rewritten, ls + [OnDisk(line)], k);
    }
  }

  lemma CutOrder(ls: seq<string>, a: nat, b: nat)
    requires a <= |ls| && 0 < b <= |ls|
    ensures |TextFrom(ls, a)| < |TextFrom(ls, b - 1)| ==> b <= a
  {
    if a < b { Shrinks(ls, a, b - 1); }
  }

  /** Where the tail of the whole file starts, against where the tail of the rotated file
      starts: the same line unless the rotated file is exactly KEEP bytes long. */
  lemma SameCut(ls: seq<string>, k: nat, m: nat, w: nat)
    requires 0 < k <= m <= |ls| && 0 < w <= |ls|
    requires |TextFrom(ls, k - 1)| >= KEEP && (m == k <==> |TextFrom(ls, k)| <= KEEP)
    requires |TextFrom(ls, w)| < KEEP <= |TextFrom(ls, w - 1)|
    requires |TextFrom(ls, m - 1)| >= KEEP && (m > k ==> |TextFrom(ls, m)| < KEEP)
    ensures if |TextFrom(ls, k)| == KEEP then m == k && w == k + 1 else w == m
  {
    CutOrder(ls, w, m);
    CutOrder(ls, m, w);
    Shrinks(ls, k, if w > k then w - 1 else k);
  }

  lemma CompareCuts(ls: seq<string>, k: nat, m: nat, w: nat, t: string, u: string)
    requires k <= m <= |ls| && w <= |ls| && t == TextFrom(ls, m) && u == TextFrom(ls, w)
    requires if |TextFrom(ls, k)| == KEEP then m == k && w == k + 1 else w == m
    ensures t == u <==> |TextFrom(ls, k)| != KEEP
    ensures |TextFrom(ls, k)| == KEEP ==> k < |ls| && t == ls[k] + "\n" + u
  {
    assert |TextFrom(ls, k)| == KEEP ==> |t| == |ls[k]| + 1 + |u|;
  }

  /** Rotation does not change what is read back, except when the rotated file is exactly KEEP
      bytes long: then one line more survives than the unrotated file would give. */
  lemma RotationIsInvisible(text: string, ls: seq<string>, k: nat)
    requires OneLines(ls) && Holds(text, ls, k)
    ensures Tail(text) == Tail(TextFrom(ls, 0)) <==> k == 0 || |text| != KEEP
    ensures k > 0 && |text| == KEEP ==> k < |ls| && Tail(text) == ls[k] + "\n" + Tail(TextFrom(ls, 0))
  {
    if k > 0 {
      var m := HoldsTail(text, ls, k);
      var w := WholeTail(ls);
      SameCut(ls, k, m, w);
      CompareCuts(ls, k, m, w, Tail(text), Tail(TextFrom(ls, 0)));
    }
  }

  /** Such a file: a first line that is rotated away whole, then one that fills KEEP exactly. */
  lemma RotationShows(first: string, second: string)
    requires '\n' !in first && '\n' !in second && |first| + 1 > ROTATE && |second| + 1 == KEEP
    ensures Tail(Appended([], first)) == []
    ensures Holds(Appended([], second), [first, second], 1)
    ensures Tail(Appended([], second)) == Appended([], second) != Tail(TextFrom([first, second], 0))
  {
    var ls := [first, second];
    TextGrows([], 0, first);
    assert [] + [first] == [first];
    var k := TailOfLines([first], 0);
    assert TextFrom(ls, 2) == [] && TextFrom(ls, 1) == Appended([], second);
    TextGrows([first], 0, second);
    assert [first] + [second] == ls;
    RotationIsInvisible(TextFrom(ls, 1), ls, 1);
  }

  lemma WholeTail(ls: seq<string>) returns (w: nat)
    requires OneLines(ls) && |TextFrom(ls, 0)| > KEEP
    ensures 0 < w <= |ls| && Tail(TextFrom(ls, 0)) == TextFrom(ls, w)
    ensures |TextFrom(ls, w)| < KEEP <= |TextFrom(ls, w - 1)|
  {
    w := TailOfLines(ls, 0);
  }

  /** Every run of newest lines shorter than KEEP bytes is read back. */
  lemma ReadsFitting(text: string, ls: seq<string>, k: nat, j: nat) returns (m: nat)
    requires OneLines(ls) && Holds(text, ls, k) && j <= |ls| && |TextFrom(ls, j)| < KEEP
    ensures m <= j && Tail(text) == TextFrom(ls, m)
  {
    m := HoldsTail(text, ls, k);
    if m > j { Shrinks(ls, j, m - 1); }
  }

  /** The least a counted line adds to the count. */
  const LEAST: nat := 50

  /** The file outgrows ROTATE by no more than the sample bytes counted since the last look, one
      uncounted carriage return for each LEAST of them, and the event lines written since. */
  predicate Bounded(f: File, events: nat) {
    |f.text| <= ROTATE + f.since + f.since / LEAST + events && f.since < KEEP
  }

  /** The event lines written since the last look, after one more write. */
  function EventsAfter(f: File, line: string, counted: bool, events: nat): nat {
    if Looks(f, line, counted) then 0 else if counted then events else events + |line| + 2
  }

  /** While rewrites succeed, a write keeps the file within those bounds. */
  lemma SizeAfter(f: File, line: string, counted: bool, events: nat)
    requires Bounded(f, events) && (counted ==> |line| + 1 >= LEAST)
    ensures Bounded(Persisted(f, line, counted, true), EventsAfter(f, line, counted, events))
  {
    var text := Appended(f.text, OnDisk(line));
    if |text| > ROTATE { TailIsShort(text); }
  }

  lemma SizeRotated(f: File)
    ensures Bounded(Rotated(f, true), 0)
  {
    TailIsShort(f.text);
  }

  lemma TailIsShort(text: string)
    ensures |Tail(text)| <= KEEP
  {
  }
}
