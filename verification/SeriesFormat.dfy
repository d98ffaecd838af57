/** The line format of the memory series file: what is written for a sample or an event, and
    what the hand-written extractors read back. */
module SeriesFormat {
  import opened Wrappers
  import opened Decimal
  import T = Text

  datatype Sample = Sample(tMs: int, budgetBytes: nat, nvidiaUsedBytes: nat)
  datatype Event = Event(tMs: int, kind: string, note: string)
  datatype Record = S(sample: Sample) | E(event: Event)

  // ----- writing -----

  function Quoted(s: string): string { "\"" + s + "\"" }

  function Field(name: string, rest: string): string { Quoted(name) + ":" + rest }

  /** A numeric field with more to come. */
  function Number(name: string, n: int, rest: string): string { Field(name, IntText(n) + "," + rest) }

  function LastNumber(name: string, n: int): string { Field(name, IntText(n) + "}") }

  function FormatSample(s: Sample): string {
    "{" + Number("t_ms", s.tMs, Number("budget_bytes", s.budgetBytes, LastNumber("nvidia_used_bytes", s.nvidiaUsedBytes)))
  }

  /** A text field with more to come. */
  function Words(name: string, text: string, rest: string): string { Field(name, Quoted(text) + "," + rest) }

  function LastWords(name: string, text: string): string { Field(name, Quoted(text) + "}") }

  function FormatEvent(e: Event): string {
    "{" + Number("t_ms", e.tMs, Words("kind", e.kind, LastWords("label", e.note)))
  }

  function Format(r: Record): string {
    match r
    case S(s) => FormatSample(s)
    case E(e) => FormatEvent(e)
  }

  // ----- reading -----

  /** The integer a string starts with, after spaces. */
  function LeadingInt(s: string): Option<int> {
    var t := T.SkipSpaces(s);
    var neg := t != [] && t[0] == '-';
    var d := if neg then t[1..] else t;
    if d == [] || !IsDigit(d[0]) then None
    else
      var v: int := Value(d[..DigitsEnd(d, 0)]);
      Some(if neg then -v else v)
  }

  function UpToQuote(s: string): string {
    if s == [] || s[0] == '"' then [] else [s[0]] + UpToQuote(s[1..])
  }

  function ExtractInt(line: string, key: string): Option<int> {
    match T.After(line, Quoted(key) + ":")
    case None => None
    case Some(value) => LeadingInt(value)
  }

  function ExtractString(line: string, key: string): Option<string> {
    match T.After(line, Quoted(key) + ":\"")
    case None => None
    case Some(value) => Some(UpToQuote(value))
  }

  function OrElse<A>(o: Option<A>, default: A): A { if o.Some? then o.value else default }

  const U64: nat := 0x1_0000_0000_0000_0000

  function ParseEvent(line: string): Option<Event> {
    if !T.Contains(line, "\"kind\"") then None
    else
      var t, kind := ExtractInt(line, "t_ms"), OrElse(ExtractString(line, "kind"), "");
      if t.None? || kind == "" then None
      else Some(Event(t.value, kind, OrElse(ExtractString(line, "label"), "")))
  }

  function ParseSample(line: string): Option<Sample> {
    if T.Contains(line, "\"kind\"") then None
    else
      var t := ExtractInt(line, "t_ms");
      if t.None? then None
      else Some(Sample(t.value, OrElse(ExtractInt(line, "budget_bytes"), 0) % U64,
                         OrElse(ExtractInt(line, "nvidia_used_bytes"), 0) % U64))
  }

  /** What loading makes of one trimmed, non-empty line. */
  function ParseLine(line: string): Option<Record> {
    var e := ParseEvent(line);
    if e.Some? then Some(E(e.value))
    else
      var s := ParseSample(line);
      if s.Some? then Some(S(s.value)) else None
  }

  /** The extractor's loops over a line. */
  method ReadInt(line: string, key: string) returns (r: Option<int>)
    ensures r == ExtractInt(line, key)
  {
    var pat := Quoted(key) + ":";
    T.AfterFind(line, pat);
    var at := T.Find(line, pat);
    if at.None? { return None; }
    r := ReadIntAt(line, at.value + |pat|);
  }

  method ReadIntAt(line: string, from: nat) returns (r: Option<int>)
    requires from <= |line|
    ensures r == LeadingInt(line[from..])
  {
    var pos := T.AfterSpaces(line, from);
    ghost var t := line[pos..];
    var neg := pos < |line| && line[pos] == '-';
    if neg {
      pos := pos + 1;
      assert t[1..] == line[pos..];
    }
    if pos >= |line| || !IsDigit(line[pos]) { return None; }
    var value: int, end := ReadDigits(line, pos);
    DigitsHere(line, pos);
    return Some(if neg then -value else value);
  }

  method ReadString(line: string, key: string) returns (r: Option<string>)
    ensures r == ExtractString(line, key)
  {
    var pat := Quoted(key) + ":\"";
    T.AfterFind(line, pat);
    var at := T.Find(line, pat);
    if at.None? { return None; }
    var pos := at.value + |pat|;
    ghost var tail := line[pos..];
    var s := "";
    while pos < |line| && line[pos] != '"'
      invariant pos <= |line| && s + UpToQuote(line[pos..]) == UpToQuote(tail)
    {
      assert line[pos..][1..] == line[pos + 1..];
      s := s + [line[pos]];
      pos := pos + 1;
    }
    assert s + [] == s;
    return Some(s);
  }

  method ReadEvent(line: string) returns (r: Option<Event>)
    ensures r == ParseEvent(line)
  {
    if !T.Contains(line, "\"kind\"") { return None; }
    var t := ReadInt(line, "t_ms");
    if t.None? { return None; }
    var kind := ReadString(line, "kind");
    var note := ReadString(line, "label");
    if OrElse(kind, "") == "" { return None; }
    return Some(Event(t.value, kind.value, OrElse(note, "")));
  }

  method ReadSample(line: string) returns (r: Option<Sample>)
    ensures r == ParseSample(line)
  {
    if T.Contains(line, "\"kind\"") { return None; }
    var t := ReadInt(line, "t_ms");
    if t.None? { return None; }
    var budget := ReadInt(line, "budget_bytes");
    var used := ReadInt(line, "nvidia_used_bytes");
    return Some(Sample(t.value, OrElse(budget, 0) % U64, OrElse(used, 0) % U64));
  }

  method ReadRecord(line: string) returns (r: Option<Record>)
    ensures r == ParseLine(line)
  {
    var e := ReadEvent(line);
    if e.Some? { return Some(E(e.value)); }
    var s := ReadSample(line);
    return if s.Some? then Some(S(s.value)) else None;
  }

  // ----- searching structured text for a key -----

  predicate Plain(s: string) { '"' !in s }

  /** A key as a search pattern: quoted, then what must follow it. */
  function Pattern(key: string, suffix: string): string { Quoted(key) + suffix }

  predicate IsKey(key: string) { key != [] && Plain(key) && key[0] != ':' && key[0] != ',' && key[0] != '}' }

  lemma PatternStarts(key: string, suffix: string)
    requires IsKey(key)
    ensures Pattern(key, suffix)[0] == '"' && Pattern(key, suffix)[1] == key[0]
  {
  }

  lemma PassPlain(x: string, s: string, key: string, suffix: string)
    requires Plain(x) && IsKey(key)
    ensures T.After(x + s, Pattern(key, suffix)) == T.After(s, Pattern(key, suffix))
  {
    T.AfterSkips(x, s, Pattern(key, suffix));
  }

  /** A quoted text is the searched key only if it spells it and is followed as required. */
  lemma {:induction false} SameQuoted(name: string, key: string, suffix: string, s: string)
    requires Plain(name) && Plain(key) && key + "\"" + suffix <= name + "\"" + s
    ensures name == key && suffix <= s
  {
    var a, b := key + "\"" + suffix, name + "\"" + s;
    assert a[0] == b[0];
    if key != [] && name != [] {
      assert a[1..] == key[1..] + "\"" + suffix && b[1..] == name[1..] + "\"" + s && a[1..] <= b[1..];
      SameQuoted(name[1..], key[1..], suffix, s);
    } else {
      assert key == [] ==> a[0] == '"';
      assert name == [] ==> b[0] == '"';
      assert key == [] && name == [];
      assert suffix == a[1..] && s == b[1..];
    }
  }

  /** Another quoted text, or the key itself without the right follower, is passed over. */
  lemma PassQuoted(name: string, after: char, s: string, key: string, suffix: string)
    requires Plain(name) && IsKey(key) && (after == ':' || after == ',' || after == '}')
    requires name != key || (suffix != [] && suffix[0] != after)
    ensures T.After(Quoted(name) + [after] + s, Pattern(key, suffix)) == T.After(s, Pattern(key, suffix))
  {
    var pat := Pattern(key, suffix);
    PatternStarts(key, suffix);
    var closing := "\"" + [after] + s;
    var text := Quoted(name) + [after] + s;
    assert text[1..] == name + closing;
    if pat <= text {
      assert pat[1..] == key + "\"" + suffix && text[1..] == name + "\"" + ([after] + s);
      SameQuoted(name, key, suffix, [after] + s);
    }
    PassPlain(name, closing, key, suffix);
    assert closing[1] == after && closing[1..] == [after] + s;
    PassPlain([after], s, key, suffix);
  }

  // ----- what was written is read back -----

  const I63: int := 0x8000_0000_0000_0000

  predicate InRange(n: int) { -I63 < n < I63 }

  predicate Clean(s: string) { Plain(s) && '\n' !in s }

  /** What the supervisor writes: values that fit the reader's 64-bit integers, text without
      quotes or newlines, and a non-empty kind. */
  predicate Good(r: Record) {
    match r
    case S(s) => InRange(s.tMs) && s.budgetBytes < I63 && s.nvidiaUsedBytes < I63
    case E(e) => InRange(e.tMs) && e.kind != "" && Clean(e.kind) && Clean(e.note)
  }

  lemma NumberIsPlain(n: int)
    ensures Plain(IntText(n)) && '\n' !in IntText(n)
  {
  }

  lemma LeadingNat(m: int, rest: string)
    requires m >= 0 && rest != [] && !IsDigit(rest[0])
    ensures LeadingInt(Text(m) + rest) == Some(m)
    ensures LeadingInt("-" + Text(m) + rest) == Some(-m)
  {
    LeadingDigits(m, rest);
    ValueOfText(m);
    var d := Text(m) + rest;
    var minus := "-" + Text(m) + rest;
    assert minus[0] == '-' && minus[1..] == d;
    assert T.SkipSpaces(d) == d && T.SkipSpaces(minus) == minus;
  }

  lemma LeadingIntOf(n: int, rest: string)
    requires rest != [] && !IsDigit(rest[0])
    ensures LeadingInt(IntText(n) + rest) == Some(n)
  {
    LeadingNat(if n < 0 then -n else n, rest);
  }

  lemma {:induction false} UpToQuoteOf(x: string, rest: string)
    requires Plain(x)
    ensures UpToQuote(x + "\"" + rest) == x
  {
    var s := x + "\"" + rest;
    if x == [] {
      assert s[0] == '"';
    } else {
      assert s[1..] == x[1..] + "\"" + rest;
      UpToQuoteOf(x[1..], rest);
      assert [x[0]] + x[1..] == x;
    }
  }

  lemma FieldHere(key: string, value: string)
    ensures T.After(Field(key, value), Pattern(key, ":")) == Some(value)
  {
    assert Field(key, value) == Pattern(key, ":") + value;
    T.AfterHere(Pattern(key, ":"), value);
  }

  /** The number of the first field, and searches for anything else. */
  lemma NumberField(name: string, n: int, s: string, key: string, suffix: string)
    requires IsKey(key) && IsKey(name)
    ensures ExtractInt(Number(name, n, s), name) == Some(n)
    ensures name != key ==> T.After(Number(name, n, s), Pattern(key, suffix)) == T.After(s, Pattern(key, suffix))
  {
    var x := IntText(n) + ",";
    assert Number(name, n, s) == Quoted(name) + [':'] + (x + s);
    FieldHere(name, IntText(n) + "," + s);
    assert IntText(n) + "," + s == IntText(n) + ("," + s);
    LeadingIntOf(n, "," + s);
    if name != key {
      PassQuoted(name, ':', x + s, key, suffix);
      PassPlain(x, s, key, suffix);
    }
  }

  lemma LastNumberField(name: string, n: int, key: string, suffix: string)
    requires IsKey(key) && IsKey(name)
    ensures ExtractInt(LastNumber(name, n), name) == Some(n)
    ensures name != key ==> T.After(LastNumber(name, n), Pattern(key, suffix)) == None
  {
    var x := IntText(n) + "}";
    FieldHere(name, x);
    LeadingIntOf(n, "}");
    if name != key {
      assert LastNumber(name, n) == Quoted(name) + [':'] + x;
      PassQuoted(name, ':', x, key, suffix);
      assert x + "" == x;
      PassPlain(x, "", key, suffix);
    }
  }

  lemma WordsField(name: string, text: string, s: string, key: string, suffix: string)
    requires IsKey(key) && IsKey(name) && Plain(text) && suffix != [] && suffix[0] == ':'
    ensures ExtractString(Words(name, text, s), name) == Some(text)
    ensures name != key ==> T.After(Words(name, text, s), Pattern(key, suffix)) == T.After(s, Pattern(key, suffix))
  {
    var pat := Pattern(name, ":\"");
    assert Words(name, text, s) == pat + (text + "\"" + ("," + s));
    T.AfterHere(pat, text + "\"" + ("," + s));
    UpToQuoteOf(text, "," + s);
    if name != key {
      var value := Quoted(text) + [','] + s;
      assert Words(name, text, s) == Quoted(name) + [':'] + value;
      PassQuoted(name, ':', value, key, suffix);
      PassQuoted(text, ',', s, key, suffix);
    }
  }

  lemma LastWordsField(name: string, text: string)
    requires IsKey(name) && Plain(text)
    ensures ExtractString(LastWords(name, text), name) == Some(text)
  {
    var pat := Pattern(name, ":\"");
    assert LastWords(name, text) == pat + (text + "\"" + "}");
    T.AfterHere(pat, text + "\"" + "}");
    UpToQuoteOf(text, "}");
  }

  lemma KeysAreKeys()
    ensures IsKey("t_ms") && IsKey("budget_bytes") && IsKey("nvidia_used_bytes") && IsKey("kind") && IsKey("label")
    ensures "t_ms" != "budget_bytes" && "t_ms" != "nvidia_used_bytes" && "budget_bytes" != "nvidia_used_bytes"
    ensures "kind" != "t_ms" && "kind" != "budget_bytes" && "kind" != "nvidia_used_bytes"
    ensures "label" != "t_ms" && "label" != "kind"
  {
  }

  /** Three numeric fields under any three distinct keys. */
  lemma ThreeNumbers(k1: string, n1: int, k2: string, n2: int, k3: string, n3: int, other: string)
    requires IsKey(k1) && IsKey(k2) && IsKey(k3) && IsKey(other) && k1 != k2 && k1 != k3 && k2 != k3
    requires other != k1 && other != k2 && other != k3
    ensures var line := "{" + Number(k1, n1, Number(k2, n2, LastNumber(k3, n3)));
            && ExtractInt(line, k1) == Some(n1) && ExtractInt(line, k2) == Some(n2) && ExtractInt(line, k3) == Some(n3)
            && T.After(line, Pattern(other, "")) == None
  {
    var t2 := LastNumber(k3, n3);
    var t1 := Number(k2, n2, t2);
    var t0 := Number(k1, n1, t1);
    PassPlain("{", t0, k1, ":");
    NumberField(k1, n1, t1, k2, ":");
    PassPlain("{", t0, k2, ":");
    NumberField(k2, n2, t2, k3, ":");
    NumberField(k1, n1, t1, k3, ":");
    PassPlain("{", t0, k3, ":");
    LastNumberField(k3, n3, other, "");
    NumberField(k2, n2, t2, other, "");
    NumberField(k1, n1, t1, other, "");
    PassPlain("{", t0, other, "");
  }

  /** A numeric field and two text fields; the texts may spell the keys themselves. */
  lemma NumberThenWords(k1: string, n: int, k2: string, x: string, rest: string)
    requires IsKey(k1) && IsKey(k2) && k1 != k2 && Plain(x)
    ensures var line := "{" + Number(k1, n, Words(k2, x, rest));
            ExtractInt(line, k1) == Some(n) && ExtractString(line, k2) == Some(x)
  {
    var t1 := Words(k2, x, rest);
    var t0 := Number(k1, n, t1);
    PassPlain("{", t0, k1, ":");
    NumberField(k1, n, t1, k2, ":\"");
    WordsField(k2, x, rest, k2, ":\"");
    PassPlain("{", t0, k2, ":\"");
  }

  lemma StartsWithKey(key: string, value: string)
    ensures T.Contains(Field(key, value), Pattern(key, ""))
  {
    assert Field(key, value) == Pattern(key, "") + (":" + value);
    T.AfterHere(Pattern(key, ""), ":" + value);
  }

  lemma HasSecondKey(k1: string, n: int, k2: string, x: string, rest: string)
    requires IsKey(k1) && IsKey(k2) && k1 != k2
    ensures T.Contains("{" + Number(k1, n, Words(k2, x, rest)), Pattern(k2, ""))
  {
    var t1 := Words(k2, x, rest);
    StartsWithKey(k2, Quoted(x) + "," + rest);
    NumberField(k1, n, t1, k2, "");
    PassPlain("{", Number(k1, n, t1), k2, "");
  }

  lemma LastOfThree(k1: string, n: int, k2: string, x: string, k3: string, y: string)
    requires IsKey(k1) && IsKey(k2) && IsKey(k3) && k1 != k3 && k2 != k3 && Plain(x) && Plain(y)
    ensures ExtractString("{" + Number(k1, n, Words(k2, x, LastWords(k3, y))), k3) == Some(y)
  {
    var t2 := LastWords(k3, y);
    var t1 := Words(k2, x, t2);
    LastWordsField(k3, y);
    WordsField(k2, x, t2, k3, ":\"");
    NumberField(k1, n, t1, k3, ":\"");
    PassPlain("{", Number(k1, n, t1), k3, ":\"");
  }

  lemma KindPattern()
    ensures Pattern("kind", "") == "\"kind\""
  {
  }

  lemma SampleValues(s: Sample)
    ensures var line := FormatSample(s);
            && ExtractInt(line, "t_ms") == Some(s.tMs) && ExtractInt(line, "budget_bytes") == Some(s.budgetBytes)
            && ExtractInt(line, "nvidia_used_bytes") == Some(s.nvidiaUsedBytes) && !T.Contains(line, "\"kind\"")
  {
    KeysAreKeys();
    KindPattern();
    ThreeNumbers("t_ms", s.tMs, "budget_bytes", s.budgetBytes, "nvidia_used_bytes", s.nvidiaUsedBytes, "kind");
  }

  lemma EventValues(e: Event)
    requires Clean(e.kind) && Clean(e.note)
    ensures var line := FormatEvent(e);
            && ExtractInt(line, "t_ms") == Some(e.tMs) && ExtractString(line, "kind") == Some(e.kind)
            && ExtractString(line, "label") == Some(e.note) && T.Contains(line, "\"kind\"")
  {
    KeysAreKeys();
    KindPattern();
    NumberThenWords("t_ms", e.tMs, "kind", e.kind, LastWords("label", e.note));
    HasSecondKey("t_ms", e.tMs, "kind", e.kind, LastWords("label", e.note));
    LastOfThree("t_ms", e.tMs, "kind", e.kind, "label", e.note);
  }

  lemma ParsedAsSample(line: string, s: Sample)
    requires ExtractInt(line, "t_ms") == Some(s.tMs) && ExtractInt(line, "budget_bytes") == Some(s.budgetBytes)
    requires ExtractInt(line, "nvidia_used_bytes") == Some(s.nvidiaUsedBytes) && !T.Contains(line, "\"kind\"")
    requires s.budgetBytes < U64 && s.nvidiaUsedBytes < U64
    ensures ParseLine(line) == Some(S(s))
  {
    assert ParseEvent(line) == None;
    assert ParseSample(line) == Some(s);
  }

  lemma SampleRoundTrip(s: Sample)
    requires Good(S(s))
    ensures ParseLine(FormatSample(s)) == Some(S(s))
  {
    SampleValues(s);
    ParsedAsSample(FormatSample(s), s);
  }

  lemma EventRoundTrip(e: Event)
    requires Good(E(e))
    ensures ParseLine(FormatEvent(e)) == Some(E(e))
  {
    EventValues(e);
  }

  /** Every line the supervisor writes is read back as the record it was written for. */
  lemma RoundTrip(r: Record)
    requires Good(r)
    ensures ParseLine(Format(r)) == Some(r)
  {
    match r
    case S(s) => SampleRoundTrip(s);
    case E(e) => EventRoundTrip(e);
  }
}
