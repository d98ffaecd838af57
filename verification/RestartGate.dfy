/** The crash-loop breaker of the supervisor: a sliding window over engine exits, an
    exponential backoff and a health-failure counter. Times are in any one unit. */
module RestartGate {
  import opened Powers

  datatype Policy = Policy(initialBackoff: int, maxBackoff: int, crashLoopMax: int, window: int, healthFailThreshold: int)

  /** The fields of a gate, as a value. */
  datatype State = State(policy: Policy, exits: seq<int>, backoff: int, healthFails: int, halted: bool)

  datatype Call = NoteExit(now: int) | AdvanceBackoff | NoteHealthy | NoteHealthFail | ResetHalt

  function Init(p: Policy): State { State(p, [], p.initialBackoff, 0, false) }

  /** Drops exits from the front of the queue while they are older than the window. */
  function DropOld(exits: seq<int>, now: int, window: int): seq<int> {
    if exits != [] && now - exits[0] > window then DropOld(exits[1..], now, window) else exits
  }

  function AfterExit(g: State, now: int): State {
    if g.halted then g
    else
      var exits := DropOld(g.exits, now, g.policy.window) + [now];
      g.(exits := exits, halted := |exits| >= g.policy.crashLoopMax)
  }

  function AfterAdvance(g: State): State {
    var max := g.policy.maxBackoff;
    if g.backoff < max then g.(backoff := if g.backoff * 2 > max then max else g.backoff * 2) else g
  }

  function Apply(g: State, call: Call): State {
    match call
    case NoteExit(now) => AfterExit(g, now)
    case AdvanceBackoff => AfterAdvance(g)
    case NoteHealthy => g.(backoff := g.policy.initialBackoff, healthFails := 0)
    case NoteHealthFail => g.(healthFails := g.healthFails + 1)
    case ResetHalt => Init(g.policy)
  }

  /** The gate object. Every method is specified by the value function of the same call. */
  class Gate {
    var policy: Policy
    var exits: seq<int>
    var backoff: int
    var healthFails: int
    var halted: bool

    ghost function View(): State
      reads this
    {
      State(policy, exits, backoff, healthFails, halted)
    }

    constructor (p: Policy)
      ensures View() == Init(p)
    {
      policy, exits, backoff, healthFails, halted := p, [], p.initialBackoff, 0, false;
    }

    /** Records an engine exit; false when automatic restarts are halted. */
    method NoteExitAt(now: int) returns (allow: bool)
      modifies this
      ensures View() == Apply(old(View()), NoteExit(now))
      ensures allow == !halted
    {
      if halted { return false; }
      while exits != [] && now - exits[0] > policy.window
        invariant !halted && policy == old(policy) && backoff == old(backoff) && healthFails == old(healthFails)
        invariant DropOld(exits, now, policy.window) == DropOld(old(exits), now, policy.window)
        decreases |exits|
      {
        exits := exits[1..];
      }
      exits := exits + [now];
      if |exits| >= policy.crashLoopMax {
        halted := true;
        return false;
      }
      return true;
    }

    method Advance()
      modifies this
      ensures View() == Apply(old(View()), AdvanceBackoff)
    {
      if backoff < policy.maxBackoff {
        var next := backoff * 2;
        backoff := if next > policy.maxBackoff then policy.maxBackoff else next;
      }
    }

    method Healthy()
      modifies this
      ensures View() == Apply(old(View()), NoteHealthy)
    {
      backoff := policy.initialBackoff;
      healthFails := 0;
    }

    method HealthFail() returns (restart: bool)
      modifies this
      ensures View() == Apply(old(View()), NoteHealthFail)
      ensures restart == (healthFails >= policy.healthFailThreshold)
    {
      healthFails := healthFails + 1;
      return healthFails >= policy.healthFailThreshold;
    }

    method Reset()
      modifies this
      ensures View() == Apply(old(View()), ResetHalt)
    {
      halted := false;
      exits := [];
      backoff := policy.initialBackoff;
      healthFails := 0;
    }
  }

  // ----- runs of calls and their history -----

  function Run(p: Policy, calls: seq<Call>): State {
    if calls == [] then Init(p) else Apply(Run(p, calls[..|calls| - 1]), calls[|calls| - 1])
  }

  /** The exits reported since the last reset, whether or not the gate was halted. */
  function Exits(calls: seq<Call>): seq<int> {
    if calls == [] then []
    else
      var before := Exits(calls[..|calls| - 1]);
      match calls[|calls| - 1]
      case NoteExit(now) => before + [now]
      case ResetHalt => []
      case _ => before
  }

  /** Those of `Exits` that were answered with permission to restart. */
  function Permitted(p: Policy, calls: seq<Call>): seq<int> {
    if calls == [] then []
    else
      var before := Permitted(p, calls[..|calls| - 1]);
      match calls[|calls| - 1]
      case NoteExit(now) => if Run(p, calls).halted then before else before + [now]
      case ResetHalt => []
      case _ => before
  }

  /** Exit times never go back: the clock is steady. */
  predicate Monotone(calls: seq<Call>) {
    forall i, j | 0 <= i < j < |calls| && calls[i].NoteExit? && calls[j].NoteExit? :: calls[i].now <= calls[j].now
  }

  /** A run goes on with one more call, and stays monotone if the clock has moved on. */
  lemma RunAppend(p: Policy, calls: seq<Call>, call: Call)
    ensures Run(p, calls + [call]) == Apply(Run(p, calls), call)
    ensures Monotone(calls) && (call.NoteExit? ==> forall i | 0 <= i < |calls| && calls[i].NoteExit? :: calls[i].now <= call.now)
            ==> Monotone(calls + [call])
  {
    assert (calls + [call])[..|calls|] == calls;
  }

  /** The times among `xs` from `lo` to `hi`, both included. */
  function Between(xs: seq<int>, lo: int, hi: int): seq<int> {
    if xs == [] then []
    else
      var rest := Between(xs[..|xs| - 1], lo, hi);
      var x := xs[|xs| - 1];
      if lo <= x <= hi then rest + [x] else rest
  }

  predicate Sorted(xs: seq<int>) { forall i, j | 0 <= i < j < |xs| :: xs[i] <= xs[j] }

  /** The exits within the window of the latest one, which itself always counts. */
  function Window(p: Policy, exits: seq<int>): seq<int> {
    if exits == [] then []
    else
      var last := exits[|exits| - 1];
      Between(exits[..|exits| - 1], last - p.window, last) + [last]
  }

  /** Some exit completed a crash loop: its window holds crash_loop_max exits. */
  predicate Tripped(p: Policy, exits: seq<int>) {
    exits != [] && (Tripped(p, exits[..|exits| - 1]) || |Window(p, exits)| >= p.crashLoopMax)
  }

  /** The exits up to and including the first one that completed a crash loop. */
  function Seen(p: Policy, exits: seq<int>): seq<int> {
    if exits == [] then []
    else if Tripped(p, exits[..|exits| - 1]) then Seen(p, exits[..|exits| - 1])
    else exits
  }

  /** A healthy probe or a reset, after which failures count from zero again. */
  predicate Clears(call: Call) { call.NoteHealthy? || call.ResetHalt? }

  /** The failed probes among the calls from `k` on. */
  function FailsFrom(calls: seq<Call>, k: nat): nat
    requires k <= |calls|
    decreases |calls| - k
  {
    if k == |calls| then 0 else (if calls[k].NoteHealthFail? then 1 else 0) + FailsFrom(calls, k + 1)
  }

  lemma {:induction false} FailsGrow(calls: seq<Call>, call: Call, k: nat)
    requires k <= |calls|
    ensures FailsFrom(calls + [call], k) == FailsFrom(calls, k) + if call.NoteHealthFail? then 1 else 0
    decreases |calls| - k
  {
    if k < |calls| { FailsGrow(calls, call, k + 1); }
  }

  /** Over every history the failures counted are the failed probes since the last healthy one or
      reset, so the threshold is reached by that many failures in a row. */
  lemma {:induction false} FailsAfterRun(p: Policy, calls: seq<Call>, k: nat)
    requires k <= |calls| && (k > 0 ==> Clears(calls[k - 1])) && forall i | k <= i < |calls| :: !Clears(calls[i])
    ensures Run(p, calls).healthFails == FailsFrom(calls, k)
  {
    if k < |calls| {
      var before, last := calls[..|calls| - 1], calls[|calls| - 1];
      FailsAfterRun(p, before, k);
      FailsGrow(before, last, k);
      assert calls == before + [last];
    }
  }

  lemma {:induction false} TrippedMeansFullWindow(p: Policy, exits: seq<int>)
    ensures Tripped(p, exits) <==> exists n | 0 < n <= |exits| :: |Window(p, exits[..n])| >= p.crashLoopMax
  {
    if exits != [] {
      var last := |exits| - 1;
      TrippedMeansFullWindow(p, exits[..last]);
      forall n | 0 < n <= last ensures exits[..last][..n] == exits[..n] {}
      assert exits[..last + 1] == exits;
      if Tripped(p, exits[..last]) {
        var n :| 0 < n <= last && |Window(p, exits[..last][..n])| >= p.crashLoopMax;
        assert |Window(p, exits[..n])| >= p.crashLoopMax;
      }
    }
  }

  lemma {:induction false} DropOldOfSorted(xs: seq<int>, now: int, window: int)
    requires Sorted(xs) && (xs != [] ==> xs[|xs| - 1] <= now)
    ensures DropOld(xs, now, window) == Between(xs, now - window, now)
  {
    if xs != [] {
      if now - xs[0] > window {
        DropOldOfSorted(xs[1..], now, window);
        BetweenSkipsFirst(xs, now - window, now);
      } else {
        BetweenAll(xs, now - window, now);
      }
    }
  }

  lemma {:induction false} BetweenSkipsFirst(xs: seq<int>, lo: int, hi: int)
    requires xs != [] && xs[0] < lo
    ensures Between(xs, lo, hi) == Between(xs[1..], lo, hi)
  {
    var last := |xs| - 1;
    if last > 0 {
      BetweenSkipsFirst(xs[..last], lo, hi);
      assert xs[..last][1..] == xs[1..][..last - 1];
    } else {
      assert xs[..0] == [] && xs[1..] == [];
    }
  }

  lemma {:induction false} BetweenAll(xs: seq<int>, lo: int, hi: int)
    requires forall i | 0 <= i < |xs| :: lo <= xs[i] <= hi
    ensures Between(xs, lo, hi) == xs
  {
    if xs != [] {
      var last := |xs| - 1;
      BetweenAll(xs[..last], lo, hi);
      assert xs[..last] + [xs[last]] == xs;
    }
  }

  lemma BetweenAppend(xs: seq<int>, x: int, lo: int, hi: int)
    ensures Between(xs + [x], lo, hi) == if lo <= x <= hi then Between(xs, lo, hi) + [x] else Between(xs, lo, hi)
  {
    assert (xs + [x])[..|xs|] == xs;
  }

  predicate UpTo(xs: seq<int>, hi: int) { forall i | 0 <= i < |xs| :: xs[i] <= hi }

  lemma {:induction false} BetweenTwice(xs: seq<int>, lo: int, hi: int, lo': int, hi': int)
    requires lo <= lo' && UpTo(xs, hi)
    ensures Between(Between(xs, lo, hi), lo', hi') == Between(xs, lo', hi')
  {
    if xs != [] {
      var last := |xs| - 1;
      BetweenTwice(xs[..last], lo, hi, lo', hi');
      BetweenAppend(Between(xs[..last], lo, hi), xs[last], lo', hi');
    }
  }

  lemma {:induction false} BetweenSorted(xs: seq<int>, lo: int, hi: int)
    requires Sorted(xs)
    ensures Sorted(Between(xs, lo, hi)) && UpTo(Between(xs, lo, hi), hi)
    ensures forall k | UpTo(xs, k) :: UpTo(Between(xs, lo, hi), k)
  {
    if xs != [] {
      var last := |xs| - 1;
      BetweenSorted(xs[..last], lo, hi);
      assert UpTo(xs[..last], xs[last]);
      forall k | UpTo(xs, k) ensures UpTo(Between(xs, lo, hi), k) {
        assert UpTo(xs[..last], k);
      }
    }
  }

  lemma {:induction false} ExitsSorted(calls: seq<Call>)
    requires Monotone(calls)
    ensures Sorted(Exits(calls))
    ensures forall i | 0 <= i < |Exits(calls)| :: NoteExit(Exits(calls)[i]) in calls
  {
    if calls != [] {
      var last := |calls| - 1;
      ExitsSorted(calls[..last]);
      var before := Exits(calls[..last]);
      forall i | 0 <= i < |before|
        ensures NoteExit(before[i]) in calls
        ensures calls[last].NoteExit? ==> before[i] <= calls[last].now
      {
        assert NoteExit(before[i]) in calls[..last];
        var j :| 0 <= j < last && calls[..last][j] == NoteExit(before[i]);
        assert calls[j] == NoteExit(before[i]);
      }
      assert calls[last].NoteExit? ==> calls[last] in calls && Exits(calls) == before + [calls[last].now];
    }
  }

  /** After any run of calls under a steady clock the queue is exactly the exits since the
      last reset that lie within the window of the latest one, up to the exit that tripped
      the breaker; and the gate is halted exactly when some exit tripped it. */
  lemma {:induction false} QueueAfterRun(p: Policy, calls: seq<Call>)
    requires Monotone(calls)
    ensures Run(p, calls).policy == p
    ensures Run(p, calls).exits == Window(p, Seen(p, Exits(calls)))
    ensures Run(p, calls).halted == Tripped(p, Exits(calls))
  {
    if calls != [] {
      var last := |calls| - 1;
      QueueAfterRun(p, calls[..last]);
      if calls[last].NoteExit? {
        var before, now := Exits(calls[..last]), calls[last].now;
        assert (before + [now])[..|before|] == before;
        if !Tripped(p, before) {
          ExitsSorted(calls);
          SeenAll(p, before);
          WindowSlides(p, before, now);
        }
      }
    }
  }

  lemma SeenAll(p: Policy, exits: seq<int>)
    requires !Tripped(p, exits)
    ensures Seen(p, exits) == exits
  {
  }

  lemma WindowAppend(p: Policy, xs: seq<int>, x: int)
    ensures Window(p, xs + [x]) == Between(xs, x - p.window, x) + [x]
  {
    assert (xs + [x])[..|xs|] == xs;
  }

  /** Dropping from the front of the queue keeps exactly the window. */
  lemma WindowSlides(p: Policy, before: seq<int>, now: int)
    requires Sorted(before + [now])
    ensures DropOld(Window(p, before), now, p.window) + [now] == Window(p, before + [now])
  {
    WindowAppend(p, before, now);
    if before != [] {
      SortedSplit(before, now);
      var front, latest := before[..|before| - 1], before[|before| - 1];
      assert before == front + [latest];
      WindowDrops(p, front, latest, now);
    }
  }

  lemma WindowDrops(p: Policy, front: seq<int>, latest: int, now: int)
    requires Sorted(front + [latest]) && latest <= now
    ensures DropOld(Window(p, front + [latest]), now, p.window) == Between(front + [latest], now - p.window, now)
  {
    var queue := Window(p, front + [latest]);
    WindowAppend(p, front, latest);
    SortedWindow(p, front + [latest]);
    DropOldOfSorted(queue, now, p.window);
    BetweenOfWindow(p, front, latest, now);
  }

  lemma BetweenOfWindow(p: Policy, front: seq<int>, latest: int, now: int)
    requires Sorted(front + [latest]) && latest <= now
    ensures Between(Window(p, front + [latest]), now - p.window, now) == Between(front + [latest], now - p.window, now)
  {
    WindowAppend(p, front, latest);
    SortedSplit(front, latest);
    BetweenTwice(front, latest - p.window, latest, now - p.window, now);
    BetweenAppend(Between(front, latest - p.window, latest), latest, now - p.window, now);
    BetweenAppend(front, latest, now - p.window, now);
  }

  lemma SortedSplit(xs: seq<int>, x: int)
    requires Sorted(xs + [x])
    ensures Sorted(xs) && UpTo(xs, x)
  {
    assert forall i | 0 <= i < |xs| :: xs[i] == (xs + [x])[i];
    assert (xs + [x])[|xs|] == x;
  }

  lemma SortedWindow(p: Policy, xs: seq<int>)
    requires Sorted(xs)
    ensures Sorted(Window(p, xs))
  {
    if xs != [] {
      var last := |xs| - 1;
      BetweenSorted(xs[..last], xs[last] - p.window, xs[last]);
    }
  }

  // ----- the promise of the breaker -----

  lemma {:induction false} PermittedExits(p: Policy, calls: seq<Call>)
    requires Monotone(calls)
    ensures Permitted(p, calls) <= Exits(calls)
    ensures !Tripped(p, Permitted(p, calls))
    ensures !Run(p, calls).halted ==> Permitted(p, calls) == Exits(calls)
  {
    if calls != [] {
      var last := |calls| - 1;
      PermittedExits(p, calls[..last]);
      if calls[last].NoteExit? {
        QueueAfterRun(p, calls);
      }
    }
  }

  /** Between two resets every closed window of the configured length holds fewer than
      crash_loop_max permitted restarts. */
  lemma FewRestartsPerWindow(p: Policy, calls: seq<Call>, from: int)
    requires Monotone(calls) && p.crashLoopMax >= 1
    ensures |Between(Permitted(p, calls), from, from + p.window)| < p.crashLoopMax
  {
    PermittedExits(p, calls);
    ExitsSorted(calls);
    FewInWindow(p, Permitted(p, calls), from);
  }

  lemma {:induction false} FewInWindow(p: Policy, ok: seq<int>, from: int)
    requires p.crashLoopMax >= 1 && Sorted(ok) && !Tripped(p, ok)
    ensures |Between(ok, from, from + p.window)| < p.crashLoopMax
  {
    if ok != [] {
      var last := |ok| - 1;
      if from <= ok[last] <= from + p.window {
        BetweenUpper(ok[..last], from, from + p.window, ok[last]);
        BetweenLower(ok[..last], from, ok[last] - p.window, ok[last]);
      } else {
        FewInWindow(p, ok[..last], from);
      }
    }
  }

  lemma {:induction false} BetweenLower(xs: seq<int>, lo: int, lo': int, hi: int)
    requires lo' <= lo
    ensures |Between(xs, lo, hi)| <= |Between(xs, lo', hi)|
  {
    if xs != [] { BetweenLower(xs[..|xs| - 1], lo, lo', hi); }
  }

  lemma {:induction false} BetweenUpper(xs: seq<int>, lo: int, hi: int, hi': int)
    requires hi' <= hi && forall i | 0 <= i < |xs| :: xs[i] <= hi'
    ensures Between(xs, lo, hi) == Between(xs, lo, hi')
  {
    if xs != [] { BetweenUpper(xs[..|xs| - 1], lo, hi, hi'); }
  }

  // ----- backoff -----

  /** How often the backoff was advanced since the last reset or healthy answer. */
  function Advances(calls: seq<Call>): nat {
    if calls == [] then 0
    else
      match calls[|calls| - 1]
      case AdvanceBackoff => Advances(calls[..|calls| - 1]) + 1
      case NoteHealthy => 0
      case ResetHalt => 0
      case _ => Advances(calls[..|calls| - 1])
  }

  function Min(a: int, b: int): int { if a < b then a else b }

  /** The backoff doubles from its initial value up to the cap. An initial value already
      above the cap is left alone. */
  lemma {:induction false} BackoffAfterRun(p: Policy, calls: seq<Call>)
    requires p.initialBackoff >= 0
    ensures Run(p, calls).policy == p
    ensures Run(p, calls).backoff ==
            if p.initialBackoff <= p.maxBackoff
            then Min(p.initialBackoff * Pow2(Advances(calls)), p.maxBackoff)
            else p.initialBackoff
  {
    if calls != [] {
      var last := |calls| - 1;
      BackoffAfterRun(p, calls[..last]);
      if calls[last].AdvanceBackoff? {
        var k := Advances(calls[..last]);
        assert p.initialBackoff * Pow2(k + 1) == 2 * (p.initialBackoff * Pow2(k));
      }
    }
  }
}
