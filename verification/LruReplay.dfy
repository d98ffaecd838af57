/** The routed replay's model of a per-layer expert cache: hits move to the front, one miss per
    record is admitted, and the back is dropped. */
module LruReplay {

  const LAYERS: nat := 48
  const ROUTED: nat := 10

  datatype Record = Record(layer: nat, ids: seq<nat>)

  predicate Distinct(s: seq<nat>) { forall i, j | 0 <= i < j < |s| :: s[i] != s[j] }

  /** What the trace reader admits at a position. */
  predicate ValidRecord(r: Record, position: nat) {
    && r.layer == position % LAYERS && |r.ids| == ROUTED && Distinct(r.ids)
    && forall j | 0 <= j < |r.ids| :: r.ids[j] < 512
  }

  predicate ValidTrace(records: seq<Record>) { forall i | 0 <= i < |records| :: ValidRecord(records[i], i) }

  function Without(s: seq<nat>, id: nat): seq<nat> {
    if s == [] then [] else if s[0] == id then Without(s[1..], id) else [s[0]] + Without(s[1..], id)
  }

  function ToFront(s: seq<nat>, id: nat): seq<nat> { [id] + Without(s, id) }

  // ----- one record -----

  /** A layer's list, the log of everything it was touched by, and the counts of the record. */
  datatype Turn = Turn(lru: seq<nat>, log: seq<nat>, misses: seq<nat>, hits: nat)

  function Visit(t: Turn, id: nat): Turn {
    if id in t.lru then Turn(ToFront(t.lru, id), t.log + [id], t.misses, t.hits + 1)
    else t.(misses := t.misses + [id])
  }

  function VisitAll(t: Turn, ids: seq<nat>): Turn {
    if ids == [] then t else Visit(VisitAll(t, ids[..|ids| - 1]), ids[|ids| - 1])
  }

  function Pushed(lru: seq<nat>, id: nat, slots: nat): seq<nat> {
    var l := [id] + lru;
    if |l| > slots then l[..|l| - 1] else l
  }

  function Admit(t: Turn, slots: nat): Turn {
    if slots == 0 || t.misses == [] then t
    else t.(lru := Pushed(t.lru, t.misses[0], slots), log := t.log + [t.misses[0]])
  }

  function Served(lru: seq<nat>, log: seq<nat>, ids: seq<nat>, slots: nat): Turn {
    Admit(VisitAll(Turn(lru, log, [], 0), ids), slots)
  }

  // ----- the most recently touched experts -----

  /** Everything touched, each once, latest touch first. */
  function Recency(log: seq<nat>): seq<nat> {
    if log == [] then [] else ToFront(Recency(log[..|log| - 1]), log[|log| - 1])
  }

  /** The list is the front of that order, as long as there is room. */
  ghost predicate Newest(lru: seq<nat>, log: seq<nat>, slots: nat) {
    lru <= Recency(log) && (|lru| == slots || (|lru| < slots && |lru| == |Recency(log)|))
  }

  lemma {:induction false} WithoutHas(s: seq<nat>, id: nat, x: nat)
    ensures x in Without(s, id) <==> x in s && x != id
  {
    if s != [] {
      WithoutHas(s[1..], id, x);
      assert s == [s[0]] + s[1..];
    }
  }

  lemma {:induction false} WithoutAbsent(s: seq<nat>, id: nat)
    requires id !in s
    ensures Without(s, id) == s
  {
    if s != [] {
      assert s[0] != id && forall i | 0 <= i < |s[1..]| :: s[1..][i] == s[i + 1];
      WithoutAbsent(s[1..], id);
      assert [s[0]] + s[1..] == s;
    }
  }

  lemma {:induction false} WithoutJoined(a: seq<nat>, b: seq<nat>, id: nat)
    ensures Without(a + b, id) == Without(a, id) + Without(b, id)
  {
    if a == [] {
      assert a + b == b;
    } else {
      assert (a + b)[0] == a[0] && (a + b)[1..] == a[1..] + b;
      WithoutJoined(a[1..], b, id);
    }
  }

  lemma {:induction false} WithoutPresent(s: seq<nat>, id: nat)
    requires Distinct(s) && id in s
    ensures |Without(s, id)| == |s| - 1
  {
    if s[0] == id {
      assert id !in s[1..];
      WithoutAbsent(s[1..], id);
    } else {
      assert id in s[1..];
      WithoutPresent(s[1..], id);
    }
  }

  lemma {:induction false} WithoutIsDistinct(s: seq<nat>, id: nat)
    requires Distinct(s)
    ensures Distinct(Without(s, id))
  {
    if s != [] {
      WithoutIsDistinct(s[1..], id);
      if s[0] != id {
        assert s[0] !in s[1..];
        WithoutHas(s[1..], id, s[0]);
      }
    }
  }

  lemma ToFrontIsDistinct(s: seq<nat>, id: nat)
    requires Distinct(s)
    ensures Distinct(ToFront(s, id))
  {
    WithoutIsDistinct(s, id);
    WithoutHas(s, id, id);
  }

  lemma {:induction false} RecencyIsDistinct(log: seq<nat>)
    ensures Distinct(Recency(log))
  {
    if log != [] {
      var before := log[..|log| - 1];
      RecencyIsDistinct(before);
      ToFrontIsDistinct(Recency(before), log[|log| - 1]);
    }
  }

  lemma RecencyGrows(log: seq<nat>, id: nat)
    ensures Recency(log + [id]) == ToFront(Recency(log), id)
  {
    assert (log + [id])[..|log|] == log;
  }

  lemma FrontMoves(lru: seq<nat>, rest: seq<nat>, id: nat)
    requires Distinct(lru + rest) && id in lru
    ensures ToFront(lru + rest, id) == ToFront(lru, id) + rest && |ToFront(lru, id)| == |lru|
  {
    NotInRest(lru, rest, id);
    WithoutJoined(lru, rest, id);
    WithoutAbsent(rest, id);
    assert Distinct(lru) by {
      forall i, j | 0 <= i < j < |lru| ensures lru[i] != lru[j] { assert (lru + rest)[i] == lru[i] && (lru + rest)[j] == lru[j]; }
    }
    WithoutPresent(lru, id);
    assert [id] + (Without(lru, id) + rest) == [id] + Without(lru, id) + rest;
  }

  /** Touching an expert in the list keeps it the front of the order. */
  lemma HitKeepsNewest(lru: seq<nat>, log: seq<nat>, slots: nat, id: nat)
    requires Newest(lru, log, slots) && id in lru
    ensures Newest(ToFront(lru, id), log + [id], slots) && |ToFront(lru, id)| == |lru|
  {
    var all := Recency(log);
    var rest := all[|lru|..];
    RecencyIsDistinct(log);
    RecencyGrows(log, id);
    assert all == lru + rest;
    FrontMoves(lru, rest, id);
  }

  lemma NotInRest(lru: seq<nat>, rest: seq<nat>, id: nat)
    requires Distinct(lru + rest) && id in lru
    ensures id !in rest
  {
    var all := lru + rest;
    var i :| 0 <= i < |lru| && lru[i] == id;
    forall j | 0 <= j < |rest| ensures rest[j] != id {
      assert all[i] == lru[i] && all[|lru| + j] == rest[j];
    }
  }

  /** Admitting an expert that is not in the list, and dropping the back when full, too. */
  lemma AdmitKeepsNewest(lru: seq<nat>, log: seq<nat>, slots: nat, id: nat)
    requires Newest(lru, log, slots) && id !in lru && slots > 0
    ensures Newest(Pushed(lru, id, slots), log + [id], slots)
  {
    var all := Recency(log);
    var rest := all[|lru|..];
    RecencyGrows(log, id);
    assert all == lru + rest;
    WithoutJoined(lru, rest, id);
    WithoutAbsent(lru, id);
    assert ToFront(all, id) == ([id] + lru) + Without(rest, id);
    if |lru| < slots { assert rest == []; }
  }

  // ----- what one record does -----

  ghost predicate SameMembers(a: seq<nat>, b: seq<nat>) { forall x: nat :: x in a <==> x in b }

  lemma VisitStep(t: Turn, id: nat, slots: nat)
    requires Newest(t.lru, t.log, slots)
    ensures var u := Visit(t, id);
            && Newest(u.lru, u.log, slots) && SameMembers(u.lru, t.lru)
            && u.hits + |u.misses| == t.hits + |t.misses| + 1
  {
    if id in t.lru {
      HitKeepsNewest(t.lru, t.log, slots, id);
      forall x: nat ensures x in ToFront(t.lru, id) <==> x in t.lru { WithoutHas(t.lru, id, x); }
    }
  }

  /** The record's misses are its experts that were not in the list when it came, in order. */
  function Absent(lru: seq<nat>, ids: seq<nat>): seq<nat> {
    if ids == [] then []
    else Absent(lru, ids[..|ids| - 1]) + if ids[|ids| - 1] in lru then [] else [ids[|ids| - 1]]
  }

  lemma {:induction false} VisitsKeepNewest(lru: seq<nat>, log: seq<nat>, ids: seq<nat>, slots: nat)
    requires Newest(lru, log, slots)
    ensures var t := VisitAll(Turn(lru, log, [], 0), ids);
            && Newest(t.lru, t.log, slots) && SameMembers(t.lru, lru)
            && t.misses == Absent(lru, ids) && t.hits + |t.misses| == |ids|
  {
    if ids != [] {
      var before := ids[..|ids| - 1];
      VisitsKeepNewest(lru, log, before, slots);
      VisitStep(VisitAll(Turn(lru, log, [], 0), before), ids[|ids| - 1], slots);
      assert Absent(lru, before) + [] == Absent(lru, before);
    }
  }

  lemma {:induction false} AbsentIsOutside(lru: seq<nat>, ids: seq<nat>, i: nat)
    requires i < |Absent(lru, ids)|
    ensures Absent(lru, ids)[i] !in lru
  {
    if i < |Absent(lru, ids[..|ids| - 1])| { AbsentIsOutside(lru, ids[..|ids| - 1], i); }
  }

  /** Serving a record keeps the list the newest experts touched, and counts every expert once. */
  lemma ServedKeepsNewest(lru: seq<nat>, log: seq<nat>, ids: seq<nat>, slots: nat)
    requires Newest(lru, log, slots)
    ensures var t := Served(lru, log, ids, slots);
            Newest(t.lru, t.log, slots) && t.misses == Absent(lru, ids) && t.hits + |t.misses| == |ids|
  {
    var t := VisitAll(Turn(lru, log, [], 0), ids);
    VisitsKeepNewest(lru, log, ids, slots);
    if slots > 0 && t.misses != [] {
      AbsentIsOutside(lru, ids, 0);
      assert t.misses[0] !in t.lru;
      AdmitKeepsNewest(t.lru, t.log, slots, t.misses[0]);
    }
  }

  /** The position of the latest touch. */
  function LastTouch(log: seq<nat>, id: nat): int {
    if log == [] then -1 else if log[|log| - 1] == id then |log| - 1 else LastTouch(log[..|log| - 1], id)
  }

  lemma {:induction false} LastTouchBound(log: seq<nat>, id: nat)
    ensures LastTouch(log, id) < |log|
  {
    if log != [] && log[|log| - 1] != id { LastTouchBound(log[..|log| - 1], id); }
  }

  ghost predicate ByTouch(s: seq<nat>, log: seq<nat>) {
    forall i, j | 0 <= i < j < |s| :: LastTouch(log, s[i]) > LastTouch(log, s[j])
  }

  lemma {:induction false} WithoutByTouch(s: seq<nat>, log: seq<nat>, id: nat)
    requires ByTouch(s, log)
    ensures ByTouch(Without(s, id), log)
  {
    if s != [] {
      var rest := s[1..];
      assert ByTouch(rest, log);
      WithoutByTouch(rest, log, id);
      var w := Without(rest, id);
      forall i | 0 <= i < |w| ensures LastTouch(log, s[0]) > LastTouch(log, w[i]) {
        WithoutHas(rest, id, w[i]);
        var k :| 0 <= k < |rest| && rest[k] == w[i];
        assert s[k + 1] == w[i];
      }
    }
  }

  /** The order is by latest touch, so the expert dropped from the back is the one whose latest
      touch is oldest. */
  lemma {:induction false} RecencyByTouch(log: seq<nat>)
    ensures ByTouch(Recency(log), log)
  {
    if log != [] {
      var before, id := log[..|log| - 1], log[|log| - 1];
      var r := Recency(before);
      RecencyByTouch(before);
      WithoutByTouch(r, before, id);
      var w := Without(r, id);
      forall i, j | 0 <= i < j < |ToFront(r, id)|
        ensures LastTouch(log, ToFront(r, id)[i]) > LastTouch(log, ToFront(r, id)[j])
      {
        WithoutHas(r, id, w[j - 1]);
        LastTouchBound(before, w[j - 1]);
        assert LastTouch(log, w[j - 1]) == LastTouch(before, w[j - 1]);
        if i > 0 { WithoutHas(r, id, w[i - 1]); assert LastTouch(log, w[i - 1]) == LastTouch(before, w[i - 1]); }
      }
    }
  }

  /** What the list promises at every moment: no expert twice, never more than the slots, and
      everything in it touched later than anything that was dropped. */
  lemma NewestMeans(lru: seq<nat>, log: seq<nat>, slots: nat)
    requires Newest(lru, log, slots)
    ensures Distinct(lru) && |lru| <= slots && ByTouch(lru, log)
    ensures forall i, j | 0 <= i < |lru| <= j < |Recency(log)| ::
              LastTouch(log, lru[i]) > LastTouch(log, Recency(log)[j])
  {
    RecencyIsDistinct(log);
    RecencyByTouch(log);
    var r := Recency(log);
    forall i, j | 0 <= i < j < |lru| ensures lru[i] != lru[j] && LastTouch(log, lru[i]) > LastTouch(log, lru[j]) {
      assert lru[i] == r[i] && lru[j] == r[j];
    }
    forall i, j | 0 <= i < |lru| <= j < |r| ensures LastTouch(log, lru[i]) > LastTouch(log, r[j]) {
      assert lru[i] == r[i];
    }
  }

  // ----- the replay -----

  datatype Layer = Layer(lru: seq<nat>, log: seq<nat>)

  /** One layer's list after `n` records; layers from `layers` on are not replayed. */
  function After(records: seq<Record>, n: nat, l: nat, slots: nat, layers: nat): Layer
    requires n <= |records|
  {
    if n == 0 then Layer([], [])
    else
      var before, r := After(records, n - 1, l, slots, layers), records[n - 1];
      if r.layer != l || l >= layers then before
      else
        var t := Served(before.lru, before.log, r.ids, slots);
        Layer(t.lru, t.log)
  }

  /** What record `n` meets and does. */
  function TurnAt(records: seq<Record>, n: nat, slots: nat, layers: nat): Turn
    requires n < |records|
  {
    var before := After(records, n, records[n].layer, slots, layers);
    Served(before.lru, before.log, records[n].ids, slots)
  }

  datatype Counts = Counts(hits: nat, misses: nat)

  function Total(records: seq<Record>, n: nat, slots: nat, layers: nat): Counts
    requires n <= |records|
  {
    if n == 0 then Counts(0, 0)
    else
      var c := Total(records, n - 1, slots, layers);
      if records[n - 1].layer >= layers then c
      else
        var t := TurnAt(records, n - 1, slots, layers);
        Counts(c.hits + t.hits, c.misses + |t.misses|)
  }

  function Replayed(records: seq<Record>, n: nat, layers: nat): nat
    requires n <= |records|
  {
    if n == 0 then 0 else Replayed(records, n - 1, layers) + if records[n - 1].layer < layers then 1 else 0
  }

  /** After every trace each list is the newest experts touched in its layer. */
  lemma {:induction false} EveryListIsNewest(records: seq<Record>, n: nat, l: nat, slots: nat, layers: nat)
    requires n <= |records|
    ensures var a := After(records, n, l, slots, layers); Newest(a.lru, a.log, slots)
  {
    if n > 0 {
      EveryListIsNewest(records, n - 1, l, slots, layers);
      var before, r := After(records, n - 1, l, slots, layers), records[n - 1];
      if r.layer == l { ServedKeepsNewest(before.lru, before.log, r.ids, slots); }
    }
  }

  lemma TurnCounts(records: seq<Record>, n: nat, slots: nat, layers: nat)
    requires n < |records|
    ensures var t := TurnAt(records, n, slots, layers); t.hits + |t.misses| == |records[n].ids|
  {
    var before := After(records, n, records[n].layer, slots, layers);
    EveryListIsNewest(records, n, records[n].layer, slots, layers);
    ServedKeepsNewest(before.lru, before.log, records[n].ids, slots);
  }

  /** Every routed expert of every replayed record is counted once, as a hit or as a miss. */
  lemma {:induction false} CountsAddUp(records: seq<Record>, n: nat, slots: nat, layers: nat)
    requires n <= |records| && ValidTrace(records)
    ensures var c := Total(records, n, slots, layers); c.hits + c.misses == ROUTED * Replayed(records, n, layers)
  {
    if n > 0 {
      CountsAddUp(records, n - 1, slots, layers);
      TurnCounts(records, n - 1, slots, layers);
      assert ValidRecord(records[n - 1], n - 1);
    }
  }

  // ----- the cache from the records alone -----

  /** The experts touched later than this one. */
  ghost function Later(touched: seq<nat>, id: nat): set<nat> {
    set x | x in touched && LastTouch(touched, x) > LastTouch(touched, id)
  }

  /** Among the `slots` experts touched last. */
  ghost predicate Recent(touched: seq<nat>, id: nat, slots: nat) { id in touched && |Later(touched, id)| < slots }

  /** The recent ones of a record's experts, or the others, in order. */
  ghost function Chosen(touched: seq<nat>, ids: seq<nat>, slots: nat, recent: bool): seq<nat> {
    if ids == [] then []
    else
      var k := |ids| - 1;
      Chosen(touched, ids[..k], slots, recent) + if Recent(touched, ids[k], slots) == recent then [ids[k]] else []
  }

  /** What a record touches: its recent experts, then the first of the others. */
  ghost function TouchedBy(touched: seq<nat>, ids: seq<nat>, slots: nat): seq<nat> {
    var others := Chosen(touched, ids, slots, false);
    Chosen(touched, ids, slots, true) + if slots > 0 && others != [] then [others[0]] else []
  }

  /** Everything touched in a layer by the first `n` records. */
  ghost function Touched(records: seq<Record>, n: nat, l: nat, slots: nat, layers: nat): seq<nat>
    requires n <= |records|
  {
    if n == 0 then []
    else
      var before, r := Touched(records, n - 1, l, slots, layers), records[n - 1];
      if r.layer != l || l >= layers then before else before + TouchedBy(before, r.ids, slots)
  }

  /** The hits over the first `n` records: experts among the last touched in their layer. */
  ghost function RecentCount(records: seq<Record>, n: nat, slots: nat, layers: nat): nat
    requires n <= |records|
  {
    if n == 0 then 0
    else
      var l := records[n - 1].layer;
      RecentCount(records, n - 1, slots, layers) +
        if l >= layers then 0
        else |Chosen(Touched(records, n - 1, l, slots, layers), records[n - 1].ids, slots, true)|
  }

  lemma {:induction false} RecencyHas(log: seq<nat>, x: nat)
    ensures x in Recency(log) <==> x in log
  {
    if log != [] {
      var before, id := log[..|log| - 1], log[|log| - 1];
      RecencyHas(before, x);
      WithoutHas(Recency(before), id, x);
      assert log == before + [id];
    }
  }

  ghost function Elements(s: seq<nat>): set<nat> { set x | x in s }

  lemma {:induction false} DistinctSize(s: seq<nat>)
    requires Distinct(s)
    ensures |Elements(s)| == |s|
  {
    if s != [] {
      var before, last := s[..|s| - 1], s[|s| - 1];
      DistinctSize(before);
      assert s == before + [last];
      assert last !in Elements(before);
      assert Elements(s) == Elements(before) + {last};
    }
  }

  /** An expert's place in the order is the number of experts touched later. */
  lemma PlaceIsLater(log: seq<nat>, i: nat)
    requires i < |Recency(log)|
    ensures |Later(log, Recency(log)[i])| == i
  {
    var r := Recency(log);
    RecencyIsDistinct(log);
    RecencyByTouch(log);
    forall x: nat ensures x in Later(log, r[i]) <==> x in r[..i] {
      RecencyHas(log, x);
      if x in r {
        var j :| 0 <= j < |r| && r[j] == x;
        assert j < i <==> x in r[..i];
      }
    }
    assert Later(log, r[i]) == Elements(r[..i]);
    DistinctSize(r[..i]);
  }

  lemma NewestIsRecent(lru: seq<nat>, log: seq<nat>, slots: nat, id: nat)
    requires Newest(lru, log, slots)
    ensures id in lru <==> Recent(log, id, slots)
  {
    var r := Recency(log);
    RecencyHas(log, id);
    if id in r {
      var i :| 0 <= i < |r| && r[i] == id;
      PlaceIsLater(log, i);
      if id in lru {
        var j :| 0 <= j < |lru| && lru[j] == id;
        PlaceIsLater(log, j);
      } else {
        assert i >= |lru|;
      }
    }
  }

  lemma {:induction false} VisitsAreChosen(lru: seq<nat>, log: seq<nat>, ids: seq<nat>, slots: nat)
    requires Newest(lru, log, slots)
    ensures var t := VisitAll(Turn(lru, log, [], 0), ids);
            && t.log == log + Chosen(log, ids, slots, true) && t.misses == Chosen(log, ids, slots, false)
            && t.hits == |Chosen(log, ids, slots, true)|
  {
    if ids != [] {
      var before, id := ids[..|ids| - 1], ids[|ids| - 1];
      VisitsAreChosen(lru, log, before, slots);
      VisitsKeepNewest(lru, log, before, slots);
      NewestIsRecent(lru, log, slots, id);
      OneMoreChosen(log, before, ids, slots, VisitAll(Turn(lru, log, [], 0), before), id);
    }
  }

  lemma OneMoreChosen(log: seq<nat>, before: seq<nat>, ids: seq<nat>, slots: nat, t: Turn, id: nat)
    requires ids == before + [id] && (id in t.lru <==> Recent(log, id, slots))
    requires t.log == log + Chosen(log, before, slots, true) && t.misses == Chosen(log, before, slots, false)
    requires t.hits == |Chosen(log, before, slots, true)|
    ensures var u := Visit(t, id);
            && u.log == log + Chosen(log, ids, slots, true) && u.misses == Chosen(log, ids, slots, false)
            && u.hits == |Chosen(log, ids, slots, true)|
  {
    assert ids[..|ids| - 1] == before;
    var chosen, others := Chosen(log, before, slots, true), Chosen(log, before, slots, false);
    assert log + chosen + [id] == log + (chosen + [id]) && chosen + [] == chosen && others + [] == others;
  }

  /** One record against the records' own terms: hits are the recent experts, misses the others,
      and exactly the hits and then the first miss are touched. */
  lemma ServedIsChosen(lru: seq<nat>, log: seq<nat>, ids: seq<nat>, slots: nat)
    requires Newest(lru, log, slots)
    ensures var t := Served(lru, log, ids, slots);
            && t.log == log + TouchedBy(log, ids, slots) && t.misses == Chosen(log, ids, slots, false)
            && t.hits == |Chosen(log, ids, slots, true)|
  {
    VisitsAreChosen(lru, log, ids, slots);
    var chosen, others := Chosen(log, ids, slots, true), Chosen(log, ids, slots, false);
    assert chosen + [] == chosen;
    if slots > 0 && others != [] { assert log + chosen + [others[0]] == log + (chosen + [others[0]]); }
  }

  /** The front of the list after a record: the first expert that was not in it, or, if all were,
      the last one served. */
  lemma FrontAfter(lru: seq<nat>, log: seq<nat>, ids: seq<nat>, slots: nat)
    requires Newest(lru, log, slots) && slots > 0 && ids != []
    ensures var now, absent := Served(lru, log, ids, slots).lru, Absent(lru, ids);
            now != [] && now[0] == if absent != [] then absent[0] else ids[|ids| - 1]
  {
    VisitsKeepNewest(lru, log, ids, slots);
    if Absent(lru, ids) == [] {
      AllPresent(lru, ids);
      VisitsKeepNewest(lru, log, ids[..|ids| - 1], slots);
    }
  }

  lemma AllPresent(lru: seq<nat>, ids: seq<nat>)
    requires Absent(lru, ids) == [] && ids != []
    ensures ids[|ids| - 1] in lru
  {
  }

  /** After every trace a layer's list holds exactly the `slots` experts touched last in it, latest
      first, where what is touched is defined by the records alone. */
  lemma {:induction false} EveryListIsRecent(records: seq<Record>, n: nat, l: nat, slots: nat, layers: nat)
    requires n <= |records|
    ensures var a, touched := After(records, n, l, slots, layers), Touched(records, n, l, slots, layers);
            && a.log == touched && ByTouch(a.lru, touched)
            && forall id: nat :: id in a.lru <==> Recent(touched, id, slots)
  {
    if n > 0 {
      EveryListIsRecent(records, n - 1, l, slots, layers);
      EveryListIsNewest(records, n - 1, l, slots, layers);
      var before, r := After(records, n - 1, l, slots, layers), records[n - 1];
      if r.layer == l && l < layers { ServedIsChosen(before.lru, before.log, r.ids, slots); }
    }
    var a := After(records, n, l, slots, layers);
    EveryListIsNewest(records, n, l, slots, layers);
    NewestMeans(a.lru, a.log, slots);
    forall id: nat ensures id in a.lru <==> Recent(a.log, id, slots) { NewestIsRecent(a.lru, a.log, slots, id); }
  }

  /** So the hits counted are the experts that were among the last touched in their layer. */
  lemma {:induction false} HitsAreRecent(records: seq<Record>, n: nat, slots: nat, layers: nat)
    requires n <= |records|
    ensures Total(records, n, slots, layers).hits == RecentCount(records, n, slots, layers)
  {
    if n > 0 {
      HitsAreRecent(records, n - 1, slots, layers);
      TurnIsChosen(records, n - 1, slots, layers);
    }
  }

  lemma TurnIsChosen(records: seq<Record>, n: nat, slots: nat, layers: nat)
    requires n < |records|
    ensures var touched := Touched(records, n, records[n].layer, slots, layers);
            TurnAt(records, n, slots, layers).hits == |Chosen(touched, records[n].ids, slots, true)|
  {
    var l := records[n].layer;
    var before := After(records, n, l, slots, layers);
    EveryListIsRecent(records, n, l, slots, layers);
    EveryListIsNewest(records, n, l, slots, layers);
    ServedIsChosen(before.lru, before.log, records[n].ids, slots);
  }

  // ----- the loops -----

  lemma {:induction false} SpliceIsWithout(s: seq<nat>, k: nat)
    requires Distinct(s) && k < |s|
    ensures s[..k] + s[k + 1..] == Without(s, s[k])
  {
    var rest := s[1..];
    if k == 0 {
      WithoutAbsent(rest, s[0]);
      assert s[..0] + rest == rest;
    } else {
      assert rest[k - 1] == s[k] != s[0];
      SpliceIsWithout(rest, k - 1);
      assert s[..k] + s[k + 1..] == [s[0]] + (rest[..k - 1] + rest[k..]);
    }
  }

  method FindExpert(lru: seq<nat>, id: nat) returns (k: nat)
    ensures k <= |lru| && (k < |lru| ==> lru[k] == id) && (k == |lru| ==> id !in lru)
  {
    k := 0;
    while k < |lru| && lru[k] != id
      invariant k <= |lru| && id !in lru[..k]
    {
      k := k + 1;
    }
  }

  method Serve(lru0: seq<nat>, ids: seq<nat>, slots: nat, ghost log: seq<nat>)
    returns (lru: seq<nat>, misses: seq<nat>, hits: nat)
    requires Newest(lru0, log, slots)
    ensures var t := Served(lru0, log, ids, slots); lru == t.lru && misses == t.misses && hits == t.hits
  {
    lru, misses, hits := lru0, [], 0;
    ghost var start := Turn(lru0, log, [], 0);
    for i := 0 to |ids|
      invariant var t := VisitAll(start, ids[..i]); lru == t.lru && misses == t.misses && hits == t.hits
    {
      ghost var t := VisitAll(start, ids[..i]);
      assert ids[..i + 1][..i] == ids[..i];
      VisitsKeepNewest(lru0, log, ids[..i], slots);
      NewestMeans(t.lru, t.log, slots);
      var id := ids[i];
      var found := FindExpert(lru, id);
      if found == |lru| {
        misses := misses + [id];
      } else {
        SpliceIsWithout(lru, found);
        lru := [id] + (lru[..found] + lru[found + 1..]);
        hits := hits + 1;
      }
    }
    assert ids[..|ids|] == ids;
    if slots != 0 && misses != [] {
      lru := [misses[0]] + lru;
      if |lru| > slots { lru := lru[..|lru| - 1]; }
    }
  }

  ghost predicate Lists(cache: seq<seq<nat>>, records: seq<Record>, n: nat, slots: nat, layers: nat)
    requires n <= |records|
  {
    |cache| == LAYERS && forall l | 0 <= l < LAYERS :: cache[l] == After(records, n, l, slots, layers).lru
  }

  lemma ListsStep(cache: seq<seq<nat>>, records: seq<Record>, n: nat, slots: nat, layers: nat)
    requires n < |records| && records[n].layer < LAYERS && Lists(cache, records, n, slots, layers)
    ensures var r, t := records[n], TurnAt(records, n, slots, layers);
            Lists(if r.layer < layers then cache[r.layer := t.lru] else cache, records, n + 1, slots, layers)
  {
  }

  method ServeLayer(cache: array<seq<nat>>, records: seq<Record>, n: nat, slots: nat, layers: nat)
    returns (hits: nat, misses: nat)
    requires n < |records| && records[n].layer < LAYERS && Lists(cache[..], records, n, slots, layers)
    modifies cache
    ensures var t := TurnAt(records, n, slots, layers);
            cache[..] == old(cache[..])[records[n].layer := t.lru] && hits == t.hits && misses == |t.misses|
  {
    var l := records[n].layer;
    ghost var before := After(records, n, l, slots, layers);
    EveryListIsNewest(records, n, l, slots, layers);
    assert cache[..][l] == before.lru;
    var lru, missed, hit := Serve(cache[l], records[n].ids, slots, before.log);
    cache[l] := lru;
    return hit, |missed|;
  }

  /** The replay over a whole trace, one list per layer. */
  method Replay(records: seq<Record>, slots: nat, layers: nat) returns (hits: nat, misses: nat)
    requires ValidTrace(records) && layers <= LAYERS
    ensures Counts(hits, misses) == Total(records, |records|, slots, layers)
    ensures hits == RecentCount(records, |records|, slots, layers)
    ensures hits + misses == ROUTED * Replayed(records, |records|, layers)
  {
    var cache := new seq<nat>[LAYERS](_ => []);
    hits, misses := 0, 0;
    for i := 0 to |records|
      invariant Counts(hits, misses) == Total(records, i, slots, layers)
      invariant Lists(cache[..], records, i, slots, layers)
    {
      var r := records[i];
      assert ValidRecord(r, i);
      ListsStep(cache[..], records, i, slots, layers);
      if r.layer >= layers { continue; }
      var hit, missed := ServeLayer(cache, records, i, slots, layers);
      hits, misses := hits + hit, misses + missed;
    }
    CountsAddUp(records, |records|, slots, layers);
    HitsAreRecent(records, |records|, slots, layers);
  }
}
