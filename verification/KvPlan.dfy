/** The KV capacity the engine is launched with: the configured one, shrunk by the shortfalls
    that earlier launches reported. */
module KvPlan {
  import opened Wrappers
  import D = Decimal

  // ----- reading and writing the argument vector -----

  predicate IsNumber(v: string) { v != [] && D.AllDigits(v) }

  /** The first explicit token count; only the first mention of the flag is looked at. */
  function Configured(args: seq<string>): Option<nat> {
    if |args| < 2 then None
    else if args[0] == "--kv-capacity" then if IsNumber(args[1]) then Some(D.Value(args[1])) else None
    else Configured(args[1..])
  }

  function FloorTokens(args: seq<string>): nat {
    if |args| < 2 then 32768
    else if args[0] == "--max-context" && IsNumber(args[1]) then D.Value(args[1])
    else FloorTokens(args[1..])
  }

  function WithCapacity(args: seq<string>, tokens: int): seq<string> {
    if args == [] then ["--kv-capacity", D.IntText(tokens)]
    else if args[0] == "--kv-capacity" then [args[0], D.IntText(tokens)] + (if |args| > 1 then args[2..] else [])
    else [args[0]] + WithCapacity(args[1..], tokens)
  }

  method ReadCapacity(args: seq<string>) returns (r: Option<nat>)
    ensures r == Configured(args)
  {
    var i := 0;
    while i + 1 < |args|
      invariant i <= |args| && Configured(args[i..]) == Configured(args)
    {
      ghost var rest := args[i..];
      assert rest[0] == args[i] && rest[1] == args[i + 1] && rest[1..] == args[i + 1..];
      if args[i] == "--kv-capacity" {
        if !IsNumber(args[i + 1]) { return None; }
        return Some(D.Value(args[i + 1]));
      }
      i := i + 1;
    }
    return None;
  }

  method ReadFloor(args: seq<string>) returns (r: nat)
    ensures r == FloorTokens(args)
  {
    var i := 0;
    while i + 1 < |args|
      invariant i <= |args| && FloorTokens(args[i..]) == FloorTokens(args)
    {
      ghost var rest := args[i..];
      assert rest[0] == args[i] && rest[1] == args[i + 1] && rest[1..] == args[i + 1..];
      if args[i] == "--max-context" && IsNumber(args[i + 1]) { return D.Value(args[i + 1]); }
      i := i + 1;
    }
    return 32768;
  }

  lemma {:induction false} CapacityAt(args: seq<string>, i: nat, tokens: int)
    requires i <= |args| && forall j | 0 <= j < i :: args[j] != "--kv-capacity"
    ensures WithCapacity(args, tokens) == args[..i] + WithCapacity(args[i..], tokens)
  {
    if i > 0 {
      CapacityAt(args[1..], i - 1, tokens);
      assert args[1..][i - 1..] == args[i..] && [args[0]] + args[1..][..i - 1] == args[..i];
    }
  }

  method SetCapacity(args: seq<string>, tokens: int) returns (r: seq<string>)
    ensures r == WithCapacity(args, tokens)
  {
    var value := D.IntText(tokens);
    for i := 0 to |args|
      invariant forall j | 0 <= j < i :: args[j] != "--kv-capacity"
    {
      if args[i] == "--kv-capacity" {
        CapacityAt(args, i, tokens);
        if i + 1 < |args| {
          assert args[i..][2..] == args[i + 2..];
          return args[i + 1 := value];
        }
        return args + [value];
      }
    }
    CapacityAt(args, |args|, tokens);
    return args + ["--kv-capacity"] + [value];
  }

  /** What is written is what is read. */
  lemma {:induction false} CapacityRoundTrip(args: seq<string>, tokens: nat)
    ensures Configured(WithCapacity(args, tokens)) == Some(tokens)
  {
    D.ValueOfText(tokens);
    if args != [] && args[0] != "--kv-capacity" {
      CapacityRoundTrip(args[1..], tokens);
      assert ([args[0]] + WithCapacity(args[1..], tokens))[1..] == WithCapacity(args[1..], tokens);
    }
  }

  lemma DigitsAreNoFlag(tokens: nat)
    ensures D.Text(tokens) != "--max-context"
  {
    assert D.IsDigit(D.Text(tokens)[0]);
  }

  /** Replacing an explicit capacity leaves the context floor and every other token alone. */
  lemma {:induction false} CapacityFrame(args: seq<string>, tokens: nat)
    requires Configured(args).Some?
    ensures FloorTokens(WithCapacity(args, tokens)) == FloorTokens(args)
    ensures |WithCapacity(args, tokens)| == |args|
    ensures forall j | 0 <= j < |args| :: WithCapacity(args, tokens)[j] != args[j] ==> IsNumber(args[j])
  {
    var changed := WithCapacity(args, tokens);
    DigitsAreNoFlag(tokens);
    if args[0] != "--kv-capacity" {
      CapacityFrame(args[1..], tokens);
      assert changed[1..] == WithCapacity(args[1..], tokens);
      assert |args| > 2;
      assert args[1] == args[1..][0] && changed[1] == changed[1..][0];
    } else {
      assert changed[1..] == [D.Text(tokens)] + args[2..];
      assert args[1..][1..] == args[2..] && changed[1..][1..] == args[2..];
    }
  }

  // ----- shrinking the plan -----

  /** The remainder of a division that truncates toward zero. */
  function Remainder(a: int, b: int): int
    requires b > 0
  {
    if a >= 0 then a % b else -((-a) % b)
  }

  const TOKEN_BYTES: int := 8 * 1024
  const MARGIN: int := 256 * 1024 * 1024

  datatype Shortfall = Shortfall(required: int, available: int)

  function Drop(s: Shortfall): int
    requires s.required > s.available
  {
    (s.required - s.available + MARGIN + TOKEN_BYTES - 1) / TOKEN_BYTES
  }

  function Reduced(current: int, s: Shortfall, floor: int): int {
    if s.required <= s.available then current
    else
      var lower := current - Drop(s);
      var next := lower - Remainder(lower, 4096);
      if next < floor then floor else next
  }

  lemma DropIsLarge(s: Shortfall)
    requires s.required > s.available
    ensures Drop(s) > 32768 && Drop(s) * TOKEN_BYTES >= s.required - s.available + MARGIN
  {
  }

  /** A shortfall takes more than 32768 tokens off the plan, or the floor stops it. */
  lemma ReducedIsLower(current: int, s: Shortfall, floor: int)
    requires s.required > s.available && floor >= 0
    ensures Reduced(current, s, floor) == floor || Reduced(current, s, floor) < current - 32768
    ensures Reduced(current, s, floor) >= floor
  {
    DropIsLarge(s);
  }

  lemma CostGrows(tokens: int, drop: int, bytes: int)
    requires tokens >= drop >= 0 && bytes >= TOKEN_BYTES
    ensures tokens * bytes >= drop * TOKEN_BYTES
  {
    assert tokens * bytes >= drop * bytes by { assert (tokens - drop) * bytes >= 0; }
    assert drop * bytes >= drop * TOKEN_BYTES by { assert drop * (bytes - TOKEN_BYTES) >= 0; }
  }

  /** If a token costs at least TOKEN_BYTES, a plan that stayed above the floor needs at least
      MARGIN bytes less than was available. */
  lemma ReducedFits(current: int, s: Shortfall, floor: int, bytes: int)
    requires s.required > s.available && floor >= 0 && bytes >= TOKEN_BYTES
    requires Reduced(current, s, floor) > floor
    ensures s.required - (current - Reduced(current, s, floor)) * bytes <= s.available - MARGIN
  {
    DropIsLarge(s);
    CostGrows(current - Reduced(current, s, floor), Drop(s), bytes);
  }

  /** The plan becomes zero, which the next launch takes for "no plan", exactly when the context
      floor is zero and less than one rounding step is left. */
  lemma ReducedToZero(current: int, s: Shortfall, floor: int)
    requires s.required > s.available && floor >= 0
    ensures Reduced(current, s, floor) <= 0 <==> floor == 0 && current - Drop(s) < 4096
  {
    var lower := current - Drop(s);
    if lower >= 4096 { assert lower - lower % 4096 >= 4096; }
  }

  // ----- launches -----

  /** What survives from launch to launch. */
  datatype Plan = Plan(effective: int, pending: Option<Shortfall>)

  function Current(p: Plan, configured: nat): int { if p.effective > 0 then p.effective else configured }

  /** The bookkeeping of one launch with an explicit capacity. */
  function Planned(p: Plan, configured: nat, floor: nat): Plan {
    if p.pending.None? then p
    else
      var next := Reduced(Current(p, configured), p.pending.value, floor);
      Plan(if next < Current(p, configured) then next else p.effective, None)
  }

  function AfterLaunch(p: Plan, args: seq<string>): Plan {
    if Configured(args).None? then p else Planned(p, Configured(args).value, FloorTokens(args))
  }

  /** The arguments the engine is started with. */
  function Launched(p: Plan, args: seq<string>): seq<string> {
    var q := AfterLaunch(p, args);
    if Configured(args).Some? && 0 < q.effective < Configured(args).value then WithCapacity(args, q.effective) else args
  }

  /** The most a launch from here can ask for. */
  function Ceiling(p: Plan, configured: nat): int {
    if 0 < p.effective < configured then p.effective else configured
  }

  /** A launch asks for the ceiling its bookkeeping leaves, and for an explicit capacity exactly
      when one is configured. */
  lemma LaunchAsksForCeiling(p: Plan, args: seq<string>)
    ensures var c := Configured(args);
            Configured(Launched(p, args)) == if c.None? then None else Some(Ceiling(AfterLaunch(p, args), c.value))
  {
    var c, q := Configured(args), AfterLaunch(p, args);
    if c.Some? && 0 < q.effective < c.value { CapacityRoundTrip(args, q.effective); }
  }

  lemma CeilingFalls(p: Plan, configured: nat, floor: nat)
    requires floor > 0
    ensures Ceiling(Planned(p, configured, floor), configured) <= Ceiling(p, configured)
  {
    if p.pending.Some? && p.pending.value.required > p.pending.value.available {
      ReducedIsLower(Current(p, configured), p.pending.value, floor);
    }
  }

  predicate Short(s: Shortfall) { s.required > s.available }

  /** A plan in force above the configured capacity is not what is launched, and lowering it need
      not lower the launch: it does so far enough, or down to the floor, only here. */
  predicate LowersEnough(effective: int, c: nat, s: Shortfall, floor: nat) {
    effective <= c || c <= floor || Reduced(effective, s, floor) <= floor || Reduced(effective, s, floor) < c - 32768
  }

  /** A reported shortfall lowers the next launch by more than 32768 tokens, or leaves it at or
      below the context floor, if and only if the plan in force is not too far above what is
      configured. */
  lemma ShortfallLowersLaunch(p: Plan, args: seq<string>)
    requires Configured(args).Some? && FloorTokens(args) > 0 && p.pending.Some? && Short(p.pending.value)
    ensures Configured(Launched(p, args)).Some?
    ensures var c, floor, after := Configured(args).value, FloorTokens(args), Configured(Launched(p, args)).value;
            (after < Ceiling(p, c) - 32768 || after <= floor) <==> LowersEnough(p.effective, c, p.pending.value, floor)
  {
    LaunchAsksForCeiling(p, args);
    ReducedIsLower(Current(p, Configured(args).value), p.pending.value, FloorTokens(args));
  }

  /** Giving up `tokens` tokens of that many bytes makes the plan fit with MARGIN to spare. */
  predicate Fits(s: Shortfall, tokens: int, bytes: int) { s.required - tokens * bytes <= s.available - MARGIN }

  ghost predicate AlwaysFits(s: Shortfall, tokens: int) { forall bytes | bytes >= TOKEN_BYTES :: Fits(s, tokens, bytes) }

  lemma FitsByDrop(s: Shortfall, tokens: int)
    requires Short(s)
    ensures AlwaysFits(s, tokens) <==> tokens >= Drop(s)
  {
    DropIsLarge(s);
    if tokens >= Drop(s) {
      forall bytes | bytes >= TOKEN_BYTES ensures Fits(s, tokens, bytes) { CostGrows(tokens, Drop(s), bytes); }
    } else {
      assert !Fits(s, tokens, TOKEN_BYTES);
    }
  }

  /** And no larger plan in steps of 4096 tokens is sure to fit: what is given up is what the
      margin asks for, rounded up. */
  lemma ReducedIsMost(current: int, s: Shortfall, floor: int, tokens: int)
    requires Short(s) && floor >= 0 && tokens % 4096 == 0 && tokens > Reduced(current, s, floor)
    ensures !AlwaysFits(s, current - tokens)
  {
    FitsByDrop(s, current - tokens);
    var lower := current - Drop(s);
    if tokens <= lower { NextStep(tokens, lower); }
  }

  lemma NextStep(t: int, n: int)
    requires t > 0 && t % 4096 == 0 && t <= n
    ensures t <= n - n % 4096
  {
  }

  lemma ReducedByDrop(current: int, s: Shortfall, floor: int)
    requires Short(s) && floor >= 0
    ensures Reduced(current, s, floor) > floor ==> Reduced(current, s, floor) <= current - Drop(s)
  {
  }

  lemma GivenUp(p: Plan, c: nat, floor: nat)
    requires floor > 0 && p.pending.Some? && Short(p.pending.value) && Ceiling(Planned(p, c, floor), c) > floor
    ensures var after, drop := Ceiling(Planned(p, c, floor), c), Drop(p.pending.value);
            && Current(p, c) - after >= drop
            && (Ceiling(p, c) - after >= drop
                <==> p.effective <= c || Reduced(p.effective, p.pending.value, floor) <= c - drop)
  {
    ReducedIsLower(Current(p, c), p.pending.value, floor);
    ReducedByDrop(Current(p, c), p.pending.value, floor);
    DropIsLarge(p.pending.value);
  }

  /** Whatever a token costs from TOKEN_BYTES on, a lowered launch above the floor fits what was
      available if the shortfall was reported for the plan in force; if it was reported for what is
      launched with the configured capacity, exactly when the plan in force is not above that
      capacity or falls a whole drop below it. */
  lemma LoweredLaunchFits(p: Plan, args: seq<string>)
    requires Configured(args).Some? && FloorTokens(args) > 0 && p.pending.Some? && Short(p.pending.value)
    requires Configured(Launched(p, args)).Some? && Configured(Launched(p, args)).value > FloorTokens(args)
    ensures var c, after, s := Configured(args).value, Configured(Launched(p, args)).value, p.pending.value;
            && AlwaysFits(s, Current(p, c) - after)
            && (AlwaysFits(s, Ceiling(p, c) - after)
                <==> p.effective <= c || Reduced(p.effective, s, FloorTokens(args)) <= c - Drop(s))
  {
    var c, s, floor := Configured(args).value, p.pending.value, FloorTokens(args);
    LaunchAsksForCeiling(p, args);
    var after := Configured(Launched(p, args)).value;
    GivenUp(p, c, floor);
    FitsByDrop(s, Current(p, c) - after);
    FitsByDrop(s, Ceiling(p, c) - after);
  }

  // ----- runs -----

  /** Where the worker is. A spawn joins the reader of the engine's output before it reads the
      arguments, and a new reader is started only behind the launch, if that created a process. */
  datatype Phase = Quiet | Reading | Spawning(args: seq<string>)

  datatype State = State(cfg: seq<string>, plan: Plan, phase: Phase)

  /** The locked steps: retiring the plan, storing a configuration, a parsed shortfall line, and
      the two halves of a spawn. */
  datatype Label = Retire | Store(args: seq<string>) | Report(s: Shortfall) | Read | Launch(created: bool)

  predicate Reportable(s: Shortfall) { s.required > 0 && s.available >= 0 }

  function Next(st: State, l: Label): State {
    match l
    case Retire => st.(plan := Plan(0, None))
    case Store(args) => st.(cfg := args)
    case Report(s) => if st.phase.Reading? && Reportable(s) then st.(plan := st.plan.(pending := Some(s))) else st
    case Read => if st.phase.Spawning? then st else st.(phase := Spawning(st.cfg))
    case Launch(created) =>
      if st.phase.Spawning?
      then State(st.cfg, AfterLaunch(st.plan, st.phase.args), if created then Reading else Quiet)
      else st
  }

  function Reached(st: State, ls: seq<Label>): State
    decreases |ls|
  {
    if ls == [] then st else Reached(Next(st, ls[0]), ls[1..])
  }

  /** One launch: the capacity explicitly asked for, and whether a shortfall was reported since the
      launch before. */
  datatype Attempt = Attempt(asked: Option<nat>, short: bool)

  function AttemptOf(st: State): Attempt
    requires st.phase.Spawning?
  {
    Attempt(Configured(Launched(st.plan, st.phase.args)), st.plan.pending.Some? && Short(st.plan.pending.value))
  }

  function Launches(st: State, ls: seq<Label>): seq<Attempt>
    decreases |ls|
  {
    if ls == [] then []
    else (if ls[0].Launch? && st.phase.Spawning? then [AttemptOf(st)] else []) + Launches(Next(st, ls[0]), ls[1..])
  }

  lemma {:induction false} LaunchesJoin(st: State, a: seq<Label>, b: seq<Label>)
    ensures Launches(st, a + b) == Launches(st, a) + Launches(Reached(st, a), b)
    decreases |a|
  {
    if a == [] {
      assert a + b == b;
    } else {
      assert (a + b)[0] == a[0] && (a + b)[1..] == a[1..] + b;
      LaunchesJoin(Next(st, a[0]), a[1..], b);
    }
  }

  /** Steps between calls of start and update_config. */
  ghost predicate Undisturbed(ls: seq<Label>) {
    forall i | 0 <= i < |ls| :: !ls[i].Retire? && !ls[i].Store?
  }

  /** Nothing read before the current configuration was stored is still waiting to launch. */
  predicate Fresh(st: State) { st.phase.Spawning? ==> st.phase.args == st.cfg }

  lemma {:induction false} LaunchesStayBelow(st: State, ls: seq<Label>)
    requires Undisturbed(ls) && Fresh(st) && Configured(st.cfg).Some? && FloorTokens(st.cfg) > 0
    ensures forall i | 0 <= i < |Launches(st, ls)| ::
              var a := Launches(st, ls)[i].asked; a.Some? && a.value <= Ceiling(st.plan, Configured(st.cfg).value)
    decreases |ls|
  {
    if ls != [] {
      var next, c := Next(st, ls[0]), Configured(st.cfg).value;
      LaunchesStayBelow(next, ls[1..]);
      CeilingFalls(st.plan, c, FloorTokens(st.cfg));
      LaunchAsksForCeiling(st.plan, st.cfg);
      assert Ceiling(next.plan, c) <= Ceiling(st.plan, c);
    }
  }

  ghost predicate Falling(a: seq<Attempt>) {
    forall i, j | 0 <= i < j < |a| :: a[i].asked.Some? && a[j].asked.Some? ==> a[j].asked.value <= a[i].asked.value
  }

  /** Between calls of start and update_config, no launch asks for more than an earlier one,
      however reports and launches interleave. */
  lemma {:induction false} PlanNeverRises(st: State, ls: seq<Label>)
    requires Undisturbed(ls) && Fresh(st) && FloorTokens(st.cfg) > 0
    ensures Falling(Launches(st, ls))
    decreases |ls|
  {
    if ls != [] {
      var next := Next(st, ls[0]);
      PlanNeverRises(next, ls[1..]);
      if ls[0].Launch? && st.phase.Spawning? {
        LaunchAsksForCeiling(st.plan, st.cfg);
        if Configured(st.cfg).Some? { LaunchesStayBelow(next, ls[1..]); }
      }
    }
  }

  // ----- how far each launch is lowered -----

  /** Every launch with a shortfall before it asks for more than 32768 tokens less than the launch
      before, or for no more than the floor; `from` is what the launch before asked for. */
  predicate Lowered(from: int, a: seq<Attempt>, floor: nat)
    decreases |a|
  {
    a == [] ||
    (a[0].asked.Some? && Lowered(a[0].asked.value, a[1..], floor) &&
     (a[0].short ==> a[0].asked.value < from - 32768 || a[0].asked.value <= floor))
  }

  lemma PlanStaysBelow(p: Plan, c: nat, floor: nat)
    requires p.effective <= c
    ensures Planned(p, c, floor).effective <= c
  {
  }

  /** Over every run between calls of start and update_config whose plan starts no higher than the
      configured capacity. */
  lemma {:induction false} EachShortfallLowers(st: State, ls: seq<Label>)
    requires Undisturbed(ls) && Fresh(st) && Configured(st.cfg).Some? && FloorTokens(st.cfg) > 0
    requires st.plan.effective <= Configured(st.cfg).value
    ensures Lowered(Ceiling(st.plan, Configured(st.cfg).value), Launches(st, ls), FloorTokens(st.cfg))
    decreases |ls|
  {
    if ls != [] {
      var next, c, floor, rest := Next(st, ls[0]), Configured(st.cfg).value, FloorTokens(st.cfg), ls[1..];
      PlanStaysBelow(st.plan, c, floor);
      EachShortfallLowers(next, rest);
      if ls[0].Launch? && st.phase.Spawning? {
        LaunchAsksForCeiling(st.plan, st.cfg);
        if AttemptOf(st).short { ShortfallLowersLaunch(st.plan, st.cfg); }
        assert ([AttemptOf(st)] + Launches(next, rest))[1..] == Launches(next, rest);
      } else {
        assert [] + Launches(next, rest) == Launches(next, rest);
      }
    }
  }

  function Capacity(n: nat): seq<string> { ["--kv-capacity", D.Text(n)] }

  lemma CapacityIs(n: nat)
    ensures Configured(Capacity(n)) == Some(n) && FloorTokens(Capacity(n)) == 32768
  {
    D.ValueOfText(n);
    assert Capacity(n)[1..] == [D.Text(n)];
  }

  lemma ReachedStep(st: State, l: Label, rest: seq<Label>)
    ensures Reached(st, [l] + rest) == Reached(Next(st, l), rest)
  {
    assert ([l] + rest)[1..] == rest;
  }

  lemma LaunchesStep(st: State, l: Label, rest: seq<Label>)
    ensures Launches(st, [l] + rest)
         == (if l.Launch? && st.phase.Spawning? then [AttemptOf(st)] else []) + Launches(Next(st, l), rest)
  {
    assert ([l] + rest)[1..] == rest;
  }

  /** Reading and launching, with nothing in between and a process created. */
  const SPAWN: seq<Label> := [Read, Launch(true)]

  lemma SpawnIs(st: State)
    requires !st.phase.Spawning?
    ensures Reached(st, SPAWN) == State(st.cfg, AfterLaunch(st.plan, st.cfg), Reading)
    ensures Launches(st, SPAWN) == [AttemptOf(Next(st, Read))]
  {
    var mid := Next(st, Read);
    assert SPAWN == [Read] + ([Launch(true)] + []);
    ReachedStep(st, Read, [Launch(true)] + []);
    ReachedStep(mid, Launch(true), []);
    LaunchesStep(st, Read, [Launch(true)] + []);
    LaunchesStep(mid, Launch(true), []);
  }

  /** The same behind a report. */
  function Round(s: Shortfall): seq<Label> { [Report(s)] + SPAWN }

  lemma RoundIs(st: State, s: Shortfall)
    requires Reportable(s) && st.phase.Reading?
    ensures var p := st.plan.(pending := Some(s));
            && Reached(st, Round(s)) == State(st.cfg, AfterLaunch(p, st.cfg), Reading)
            && Launches(st, Round(s)) == [Attempt(Configured(Launched(p, st.cfg)), Short(s))]
  {
    ReachedStep(st, Report(s), SPAWN);
    LaunchesStep(st, Report(s), SPAWN);
    SpawnIs(Next(st, Report(s)));
  }

  const TINY := Shortfall(2, 1)

  /** A launch between the two halves of update_config can leave the plan above the capacity that
      is then stored; a shortfall reported for the next launch is then reported in vain. */
  lemma PlanAboveCapacity()
    ensures var st := Next(Reached(Next(State(Capacity(262144), Plan(0, None), Reading), Retire), Round(TINY)),
                           Store(Capacity(65536)));
            && Fresh(st) && st.plan.effective > 65536
            && Ceiling(st.plan, 65536) == 65536 && Launches(st, Round(TINY)) == [Attempt(Some(65536), true)]
  {
    CapacityIs(262144);
    CapacityIs(65536);
    AboveCapacity(Capacity(262144), Capacity(65536));
  }

  lemma TinyPlans()
    ensures Planned(Plan(0, Some(TINY)), 262144, 32768) == Plan(225280, None)
    ensures Planned(Plan(225280, Some(TINY)), 65536, 32768) == Plan(188416, None)
  {
    assert Drop(TINY) == 32769;
  }

  lemma AboveCapacity(big: seq<string>, small: seq<string>)
    requires Configured(big) == Some(262144) && FloorTokens(big) == 32768
    requires Configured(small) == Some(65536) && FloorTokens(small) == 32768
    ensures var st := Next(Reached(Next(State(big, Plan(0, None), Reading), Retire), Round(TINY)), Store(small));
            st == State(small, Plan(225280, None), Reading) && Launches(st, Round(TINY)) == [Attempt(Some(65536), true)]
  {
    TinyPlans();
    RoundIs(State(big, Plan(0, None), Reading), TINY);
    RoundIs(State(small, Plan(225280, None), Reading), TINY);
    LaunchAsksForCeiling(Plan(225280, Some(TINY)), small);
  }

  // ----- exactly when a launch can ask for more than an earlier one -----

  ghost predicate Rises(st: State) { exists ls :: Undisturbed(ls) && !Falling(Launches(st, ls)) }

  /** The arguments already read are explicit about less than the configuration stored since, and
      the plan their launch leaves does not hold the launches down to them. */
  predicate StaleAndLower(st: State) {
    && st.phase.Spawning? && Configured(st.phase.args).Some? && Configured(st.cfg).Some?
    && Configured(st.phase.args).value < Configured(st.cfg).value
    && !(0 < AfterLaunch(st.plan, st.phase.args).effective <= Configured(st.phase.args).value)
  }

  lemma {:induction false} FallsUnlessStale(st: State, ls: seq<Label>)
    requires Undisturbed(ls) && !StaleAndLower(st) && FloorTokens(st.cfg) > 0
    ensures Falling(Launches(st, ls))
    decreases |ls|
  {
    if !st.phase.Spawning? {
      PlanNeverRises(st, ls);
    } else if ls != [] {
      var next, rest, read := Next(st, ls[0]), ls[1..], st.phase.args;
      FallsUnlessStale(next, rest);
      if ls[0].Launch? {
        LaunchAsksForCeiling(st.plan, read);
        if Configured(read).Some? && Configured(st.cfg).Some? {
          LaunchesStayBelow(next, rest);
        } else if Configured(st.cfg).None? {
          NoneAsked(next, rest);
        }
      }
    }
  }

  lemma {:induction false} NoneAsked(st: State, ls: seq<Label>)
    requires Undisturbed(ls) && Fresh(st) && Configured(st.cfg).None?
    ensures forall i | 0 <= i < |Launches(st, ls)| :: Launches(st, ls)[i].asked.None?
    decreases |ls|
  {
    if ls != [] {
      LaunchAsksForCeiling(st.plan, st.cfg);
      NoneAsked(Next(st, ls[0]), ls[1..]);
    }
  }

  /** The launch that is under way, then another one with no report between them. */
  lemma LaunchTwice(st: State)
    requires st.phase.Spawning? && Configured(st.phase.args).Some? && Configured(st.cfg).Some?
    requires var q := AfterLaunch(st.plan, st.phase.args);
             Ceiling(q, Configured(st.phase.args).value) < Ceiling(q, Configured(st.cfg).value)
    ensures Rises(st)
  {
    var q, next := AfterLaunch(st.plan, st.phase.args), Next(st, Launch(true));
    LaunchAsksForCeiling(st.plan, st.phase.args);
    LaunchAsksForCeiling(q, st.cfg);
    LaunchesStep(st, Launch(true), SPAWN);
    SpawnIs(next);
    var ls := [Launch(true)] + SPAWN;
    var a := Launches(st, ls);
    assert a[0] == AttemptOf(st) && a[1] == AttemptOf(Next(next, Read));
    assert !Falling(a) && Undisturbed(ls);
  }

  /** With a positive context, whatever is pending: between calls of start and update_config a
      launch can ask for more than an earlier one if and only if arguments read too early are
      explicit about less than what is configured now, and the plan does not hold the launches
      down. */
  lemma RisesIff(st: State)
    requires FloorTokens(st.cfg) > 0
    ensures Rises(st) <==> StaleAndLower(st)
  {
    if StaleAndLower(st) {
      LaunchTwice(st);
    } else if Rises(st) {
      var ls :| Undisturbed(ls) && !Falling(Launches(st, ls));
      FallsUnlessStale(st, ls);
    }
  }

  /** Arguments read while update_config runs, between its two halves. */
  lemma StaleReadRises()
    ensures Rises(Next(Next(Next(State(Capacity(65536), Plan(0, None), Reading), Retire), Read), Store(Capacity(131072))))
  {
    CapacityIs(65536);
    CapacityIs(131072);
    StaleRun(Capacity(65536), Capacity(131072));
  }

  lemma StaleRun(small: seq<string>, big: seq<string>)
    requires Configured(small) == Some(65536) && Configured(big) == Some(131072) && FloorTokens(big) > 0
    ensures Rises(Next(Next(Next(State(small, Plan(0, None), Reading), Retire), Read), Store(big)))
  {
    RisesIff(State(big, Plan(0, None), Spawning(small)));
  }

  /** A shortfall that is still pending when the arguments are read can prevent it. */
  lemma PendingHoldsDown()
    ensures var s := Shortfall(2000000000, 1);
            var st := Next(Next(Next(Next(State(Capacity(65536), Plan(0, None), Reading), Retire), Report(s)), Read),
                           Store(Capacity(131072)));
            st == State(Capacity(131072), Plan(0, Some(s)), Spawning(Capacity(65536))) && !Rises(st)
  {
    var s := Shortfall(2000000000, 1);
    CapacityIs(65536);
    CapacityIs(131072);
    assert Planned(Plan(0, Some(s)), 65536, 32768).effective == 32768;
    RisesIff(State(Capacity(131072), Plan(0, Some(s)), Spawning(Capacity(65536))));
  }

  // ----- a context of zero -----

  /** With a context of zero a launch raises the plan exactly when it drives it to zero. */
  lemma ZeroFloorRises(p: Plan, configured: nat)
    requires configured > 0 && p.pending.Some? && Short(p.pending.value)
    ensures Ceiling(Planned(p, configured, 0), configured) > Ceiling(p, configured)
       <==> 0 < p.effective < configured && p.effective - Drop(p.pending.value) < 4096
  {
    var s := p.pending.value;
    ReducedIsLower(Current(p, configured), s, 0);
    ReducedToZero(Current(p, configured), s, 0);
    DropIsLarge(s);
  }

  /** The plan is below the capacity, or one shortfall can bring it there, between zero and that. */
  predicate CanStartOver(effective: int, c: nat) {
    || 0 < effective < c
    || (effective <= 0 && c >= 36865)
    || (effective >= c && effective >= 36865 && c > 4096)
  }

  lemma StaysAtCapacity(p: Plan, c: nat)
    requires !CanStartOver(p.effective, c)
    ensures var q := Planned(p, c, 0); !CanStartOver(q.effective, c) && Ceiling(q, c) == c
  {
    if p.pending.Some? && Short(p.pending.value) { DropIsLarge(p.pending.value); }
  }

  lemma {:induction false} AsksCapacity(st: State, ls: seq<Label>)
    requires Undisturbed(ls) && Fresh(st) && Configured(st.cfg).Some? && FloorTokens(st.cfg) == 0
    requires !CanStartOver(st.plan.effective, Configured(st.cfg).value)
    ensures forall i | 0 <= i < |Launches(st, ls)| :: Launches(st, ls)[i].asked == Configured(st.cfg)
    decreases |ls|
  {
    if ls != [] {
      StaysAtCapacity(st.plan, Configured(st.cfg).value);
      LaunchAsksForCeiling(st.plan, st.cfg);
      AsksCapacity(Next(st, ls[0]), ls[1..]);
    }
  }

  lemma DropOf(k: nat)
    ensures Drop(Shortfall(1 + 8192 * k, 0)) == 32769 + k
  {
  }

  const HARMLESS := Shortfall(1, 1)

  lemma HarmlessPlan(p: Plan, c: nat, floor: nat)
    ensures Planned(p.(pending := Some(HARMLESS)), c, floor) == p.(pending := None)
  {
  }

  /** A launch at a plan below the capacity, then one after a shortfall that leaves nothing. */
  lemma StartsOver(st: State)
    requires st.phase.Reading? && Configured(st.cfg).Some? && FloorTokens(st.cfg) == 0
    requires 0 < st.plan.effective < Configured(st.cfg).value
    ensures Rises(st)
  {
    var c, e := Configured(st.cfg).value, st.plan.effective;
    var huge := Shortfall(1 + 8192 * e, 0);
    var p, q, none := st.plan.(pending := Some(HARMLESS)), Plan(e, Some(huge)), Plan(0, None);
    RoundIs(st, HARMLESS);
    HarmlessPlan(st.plan, c, 0);
    LaunchAsksForCeiling(p, st.cfg);
    RoundIs(State(st.cfg, Plan(e, None), Reading), huge);
    DropOf(e);
    assert Planned(q, c, 0) == none;
    LaunchAsksForCeiling(q, st.cfg);
    LaunchesJoin(st, Round(HARMLESS), Round(huge));
    var ls := Round(HARMLESS) + Round(huge);
    var a := Launches(st, ls);
    assert a[0].asked == Some(e) && a[1].asked == Some(c);
    assert !Falling(a) && Undisturbed(ls);
  }

  lemma RisesLater(st: State, first: seq<Label>)
    requires Undisturbed(first) && Rises(Reached(st, first))
    ensures Rises(st)
  {
    var later := Reached(st, first);
    var ls :| Undisturbed(ls) && !Falling(Launches(later, ls));
    LaunchesJoin(st, first, ls);
    RiseStays(Launches(st, first), Launches(later, ls));
    BothUndisturbed(first, ls);
  }

  lemma RiseStays(a: seq<Attempt>, b: seq<Attempt>)
    requires !Falling(b)
    ensures !Falling(a + b)
  {
    var i, j :| 0 <= i < j < |b| && b[i].asked.Some? && b[j].asked.Some? && b[j].asked.value > b[i].asked.value;
    assert (a + b)[|a| + i] == b[i] && (a + b)[|a| + j] == b[j];
  }

  lemma BothUndisturbed(a: seq<Label>, b: seq<Label>)
    requires Undisturbed(a) && Undisturbed(b)
    ensures Undisturbed(a + b)
  {
  }

  lemma FirstShortfall(effective: int, c: nat) returns (s: Shortfall)
    requires CanStartOver(effective, c) && !(0 < effective < c)
    ensures Reportable(s) && 0 < Planned(Plan(effective, Some(s)), c, 0).effective < c
  {
    if effective <= 0 {
      s := Shortfall(1, 0);
      DropOf(0);
    } else {
      s := Shortfall(1 + 8192 * (effective - 36865), 0);
      DropOf(effective - 36865);
    }
  }

  /** With a context of zero, while the engine's output is read: a launch can ask for more than an
      earlier one exactly when the plan can be brought below the capacity without vanishing. */
  lemma ZeroFloorRisesIff(st: State)
    requires st.phase.Reading? && Configured(st.cfg).Some? && FloorTokens(st.cfg) == 0
    ensures Rises(st) <==> CanStartOver(st.plan.effective, Configured(st.cfg).value)
  {
    var c, e := Configured(st.cfg).value, st.plan.effective;
    if 0 < e < c {
      StartsOver(st);
    } else if CanStartOver(e, c) {
      var s := FirstShortfall(e, c);
      RoundIs(st, s);
      StartsOver(Reached(st, Round(s)));
      RisesLater(st, Round(s));
    } else if Rises(st) {
      var ls :| Undisturbed(ls) && !Falling(Launches(st, ls));
      AsksCapacity(st, ls);
    }
  }

  /** The arguments of the next launch, when no report can come before it. */
  function NextArgs(st: State): seq<string> { if st.phase.Spawning? then st.phase.args else st.cfg }

  /** The plan that launch leaves can be brought below the capacity without vanishing, or the launch
      itself asks for less than that. */
  predicate RisesFrom(q: Plan, asked: Option<nat>, c: nat) {
    CanStartOver(q.effective, c) || (asked.Some? && Ceiling(q, asked.value) < c)
  }

  /** With a context of zero and no reader, the next launch, of arguments already read, fresh or
      stale, or of those to be read, comes before any report. */
  lemma ZeroFloorSpawnRisesIff(st: State)
    requires !st.phase.Reading? && Configured(st.cfg).Some? && FloorTokens(st.cfg) == 0
    ensures Rises(st)
       <==> RisesFrom(AfterLaunch(st.plan, NextArgs(st)), Configured(NextArgs(st)), Configured(st.cfg).value)
  {
    if st.phase.Spawning? {
      SpawningRisesIff(st);
    } else {
      SpawningRisesIff(Next(st, Read));
      QuietReads(st);
    }
  }

  /** With no reader, nothing but reading the arguments happens before the next launch. */
  lemma QuietReads(st: State)
    requires st.phase.Quiet?
    ensures Rises(st) <==> Rises(Next(st, Read))
  {
    if Rises(st) {
      var ls :| Undisturbed(ls) && !Falling(Launches(st, ls));
      QuietLaunches(st, ls);
    } else if Rises(Next(st, Read)) {
      ReachedStep(st, Read, []);
      RisesLater(st, [Read] + []);
    }
  }

  lemma {:induction false} QuietLaunches(st: State, ls: seq<Label>)
    requires st.phase.Quiet? && Undisturbed(ls) && !Falling(Launches(st, ls))
    ensures Rises(Next(st, Read))
    decreases |ls|
  {
    if ls[0].Read? {
      assert Launches(st, ls) == Launches(Next(st, Read), ls[1..]);
    } else {
      QuietLaunches(st, ls[1..]);
    }
  }

  lemma SpawningRisesIff(st: State)
    requires st.phase.Spawning? && Configured(st.cfg).Some? && FloorTokens(st.cfg) == 0
    ensures Rises(st)
       <==> RisesFrom(AfterLaunch(st.plan, st.phase.args), Configured(st.phase.args), Configured(st.cfg).value)
  {
    var q, asked, c := AfterLaunch(st.plan, st.phase.args), Configured(st.phase.args), Configured(st.cfg).value;
    if CanStartOver(q.effective, c) {
      ReachedStep(st, Launch(true), []);
      ZeroFloorRisesIff(Next(st, Launch(true)));
      RisesLater(st, [Launch(true)] + []);
    } else if RisesFrom(q, asked, c) {
      LaunchTwice(st);
    } else if Rises(st) {
      var ls :| Undisturbed(ls) && !Falling(Launches(st, ls));
      FallsFromSpawn(st, ls);
    }
  }

  lemma {:induction false} FallsFromSpawn(st: State, ls: seq<Label>)
    requires st.phase.Spawning? && Configured(st.cfg).Some? && FloorTokens(st.cfg) == 0 && Undisturbed(ls)
    requires !RisesFrom(AfterLaunch(st.plan, st.phase.args), Configured(st.phase.args), Configured(st.cfg).value)
    ensures Falling(Launches(st, ls))
    decreases |ls|
  {
    if ls != [] {
      if ls[0].Launch? {
        LaunchAsksForCeiling(st.plan, st.phase.args);
        AsksCapacity(Next(st, ls[0]), ls[1..]);
      } else {
        FallsFromSpawn(Next(st, ls[0]), ls[1..]);
      }
    }
  }
}
