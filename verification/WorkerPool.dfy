/** The worker pool of the expert-pair benchmark: one main thread and `threads` workers
    synchronise on two barriers and share out the pairs of each batch with an atomic ticket.

    Every thread is deterministic, so an interleaving is the sequence of thread numbers
    the scheduler picks; a step of a blocked thread does not exist. One step is one
    access to shared memory (an atomic, a barrier, a checksum slot). */
module WorkerPool {
  import opened Wrappers

  /** `value(i)` is what computing the pair at position `i` of the expert sequence yields. */
  datatype Config = Config(threads: nat, warmup: nat, batches: nat, pairs: nat, value: nat -> real) {
    function Total(): nat { warmup + batches }
  }

  /** A cyclic barrier: the number of completed phases and of arrivals in the current one. */
  datatype Barrier = Barrier(phase: nat, arrived: nat)

  datatype WorkerPc =
    | ArriveStart
    | AwaitStart(ticket: nat)
    | CheckStop
    | LoadBase
    | Claim(base: nat, sum: real)
    | Compute(base: nat, sum: real, local: nat)
    | StoreSum(sum: real)
    | ArriveDone
    | AwaitDone(ticket: nat)
    | Exited

  datatype MainPc =
    | StoreBase
    | StoreNext
    | MainArriveStart
    | MainAwaitStart(ticket: nat)
    | MainArriveDone
    | MainAwaitDone(ticket: nat)
    | ReadSlots(i: nat, sum: real)
    | StoreStop
    | MainArriveFinal
    | MainAwaitFinal(ticket: nat)
    | Join(i: nat)
    | Finished

  /** `log` is the history of sequence positions handed out by the ticket. */
  datatype State = State(
    next: nat, base: nat, stop: bool, start: Barrier, done: Barrier,
    workers: seq<WorkerPc>, slots: seq<real>,
    main: MainPc, batch: nat, timed: real, log: seq<nat>)

  function LoopHead(c: Config, batch: nat): MainPc {
    if batch < c.Total() then StoreBase else StoreStop
  }

  function Init(c: Config): State {
    State(0, 0, false, Barrier(0, 0), Barrier(0, 0),
          seq(c.threads, _ => ArriveStart), seq(c.threads, _ => 0.0),
          LoopHead(c, 0), 0, 0.0, [])
  }

  function Arrive(c: Config, b: Barrier): Barrier {
    if b.arrived == c.threads then Barrier(b.phase + 1, 0) else Barrier(b.phase, b.arrived + 1)
  }

  function StepWorker(c: Config, s: State, t: nat): Option<State>
    requires t < |s.workers| == |s.slots|
  {
    var goto := (pc: WorkerPc) => s.(workers := s.workers[t := pc]);
    match s.workers[t]
    case ArriveStart => Some(goto(AwaitStart(s.start.phase)).(start := Arrive(c, s.start)))
    case AwaitStart(k) => if s.start.phase > k then Some(goto(CheckStop)) else None
    case CheckStop => Some(goto(if s.stop then Exited else LoadBase))
    case LoadBase => Some(goto(Claim(s.base, 0.0)))
    case Claim(base, sum) =>
      if s.next >= c.pairs then Some(goto(StoreSum(sum)).(next := s.next + 1))
      else Some(goto(Compute(base, sum, s.next)).(next := s.next + 1, log := s.log + [base + s.next]))
    case Compute(base, sum, local) => Some(goto(Claim(base, sum + c.value(base + local))))
    case StoreSum(sum) => Some(goto(ArriveDone).(slots := s.slots[t := sum]))
    case ArriveDone => Some(goto(AwaitDone(s.done.phase)).(done := Arrive(c, s.done)))
    case AwaitDone(k) => if s.done.phase > k then Some(goto(ArriveStart)) else None
    case Exited => None
  }

  function StepMain(c: Config, s: State): Option<State>
    requires |s.workers| == |s.slots| == c.threads
  {
    match s.main
    case StoreBase => Some(s.(base := s.batch * c.pairs, main := StoreNext))
    case StoreNext => Some(s.(next := 0, main := MainArriveStart))
    case MainArriveStart => Some(s.(main := MainAwaitStart(s.start.phase), start := Arrive(c, s.start)))
    case MainAwaitStart(k) => if s.start.phase > k then Some(s.(main := MainArriveDone)) else None
    case MainArriveDone => Some(s.(main := MainAwaitDone(s.done.phase), done := Arrive(c, s.done)))
    case MainAwaitDone(k) => if s.done.phase > k then Some(s.(main := ReadSlots(0, 0.0))) else None
    case ReadSlots(i, sum) =>
      if i < c.threads then Some(s.(main := ReadSlots(i + 1, sum + s.slots[i])))
      else Some(s.(timed := if s.batch >= c.warmup then s.timed + sum else s.timed,
                   batch := s.batch + 1, main := LoopHead(c, s.batch + 1)))
    case StoreStop => Some(s.(stop := true, main := MainArriveFinal))
    case MainArriveFinal => Some(s.(main := MainAwaitFinal(s.start.phase), start := Arrive(c, s.start)))
    case MainAwaitFinal(k) => if s.start.phase > k then Some(s.(main := Join(0))) else None
    case Join(i) =>
      if i == c.threads then Some(s.(main := Finished))
      else if i < c.threads && s.workers[i].Exited? then Some(s.(main := Join(i + 1)))
      else None
    case Finished => None
  }

  /** Threads 0 .. threads-1 are the workers, thread `threads` is the main thread. */
  function Step(c: Config, s: State, who: nat): Option<State>
    requires |s.workers| == |s.slots| == c.threads
  {
    if who < c.threads then StepWorker(c, s, who)
    else if who == c.threads then StepMain(c, s)
    else None
  }

  /** The state an interleaving leads to, if every step of it can be taken. */
  ghost function Run(c: Config, schedule: seq<nat>): (r: Option<State>)
    ensures r.Some? ==> |r.value.workers| == |r.value.slots| == c.threads
  {
    if schedule == [] then Some(Init(c))
    else
      var last := |schedule| - 1;
      match Run(c, schedule[..last])
      case None => None
      case Some(s) => StepShape(c, s, schedule[last]); Step(c, s, schedule[last])
  }

  lemma StepShape(c: Config, s: State, who: nat)
    requires |s.workers| == |s.slots| == c.threads
    ensures Step(c, s, who).Some? ==>
              var s' := Step(c, s, who).value; |s'.workers| == |s'.slots| == c.threads
  {
  }

  // ----- counting threads and adding up checksums -----

  function Count(ws: seq<WorkerPc>, pc: WorkerPc): nat {
    if ws == [] then 0 else (if ws[0] == pc then 1 else 0) + Count(ws[1..], pc)
  }

  lemma {:induction false} CountUpdate(ws: seq<WorkerPc>, t: nat, x: WorkerPc, pc: WorkerPc)
    requires t < |ws|
    ensures Count(ws[t := x], pc) ==
            Count(ws, pc) - (if ws[t] == pc then 1 else 0) + (if x == pc then 1 else 0)
  {
    if t == 0 {
      assert ws[0 := x][1..] == ws[1..];
    } else {
      assert ws[t := x][1..] == ws[1..][t - 1 := x];
      CountUpdate(ws[1..], t - 1, x, pc);
    }
  }

  lemma {:induction false} CountBounds(ws: seq<WorkerPc>, pc: WorkerPc)
    ensures Count(ws, pc) <= |ws|
    ensures Count(ws, pc) == |ws| ==> forall t | 0 <= t < |ws| :: ws[t] == pc
    ensures Count(ws, pc) == 0 ==> forall t | 0 <= t < |ws| :: ws[t] != pc
  {
    if ws != [] {
      CountBounds(ws[1..], pc);
      assert forall t | 1 <= t < |ws| :: ws[t] == ws[1..][t - 1];
    }
  }

  lemma {:induction false} CountNone(ws: seq<WorkerPc>, pc: WorkerPc)
    requires forall t | 0 <= t < |ws| :: ws[t] != pc
    ensures Count(ws, pc) == 0
  {
    if ws != [] { CountNone(ws[1..], pc); }
  }

  /** The worker has drawn a ticket past the end of the current batch. */
  predicate Past(pc: WorkerPc) { pc.StoreSum? || pc.ArriveDone? || pc.AwaitDone? }

  function CountPast(ws: seq<WorkerPc>): nat {
    if ws == [] then 0 else (if Past(ws[0]) then 1 else 0) + CountPast(ws[1..])
  }

  lemma {:induction false} CountPastUpdate(ws: seq<WorkerPc>, t: nat, x: WorkerPc)
    requires t < |ws|
    ensures CountPast(ws[t := x]) ==
            CountPast(ws) - (if Past(ws[t]) then 1 else 0) + (if Past(x) then 1 else 0)
  {
    if t == 0 {
      assert ws[0 := x][1..] == ws[1..];
    } else {
      assert ws[t := x][1..] == ws[1..][t - 1 := x];
      CountPastUpdate(ws[1..], t - 1, x);
    }
  }

  lemma {:induction false} CountPastExtremes(ws: seq<WorkerPc>)
    ensures (forall t | 0 <= t < |ws| :: Past(ws[t])) ==> CountPast(ws) == |ws|
    ensures (forall t | 0 <= t < |ws| :: !Past(ws[t])) ==> CountPast(ws) == 0
    ensures CountPast(ws) <= |ws|
  {
    if ws != [] {
      CountPastExtremes(ws[1..]);
      assert forall t | 1 <= t < |ws| :: ws[t] == ws[1..][t - 1];
    }
  }

  /** What a worker has added up, or promised to add up, in the current batch. */
  function Contribution(c: Config, pc: WorkerPc, slot: real): real {
    match pc
    case Claim(_, sum) => sum
    case Compute(base, sum, local) => sum + c.value(base + local)
    case StoreSum(sum) => sum
    case ArriveDone => slot
    case AwaitDone(_) => slot
    case _ => 0.0
  }

  function Contributions(c: Config, ws: seq<WorkerPc>, slots: seq<real>): real
    requires |ws| == |slots|
  {
    if ws == [] then 0.0
    else Contribution(c, ws[0], slots[0]) + Contributions(c, ws[1..], slots[1..])
  }

  lemma {:induction false} ContributionsUpdate(c: Config, ws: seq<WorkerPc>, slots: seq<real>, t: nat, x: WorkerPc, v: real)
    requires t < |ws| == |slots|
    ensures Contributions(c, ws[t := x], slots[t := v]) ==
            Contributions(c, ws, slots) - Contribution(c, ws[t], slots[t]) + Contribution(c, x, v)
  {
    if t == 0 {
      assert ws[0 := x][1..] == ws[1..] && slots[0 := v][1..] == slots[1..];
    } else {
      assert ws[t := x][1..] == ws[1..][t - 1 := x] && slots[t := v][1..] == slots[1..][t - 1 := v];
      ContributionsUpdate(c, ws[1..], slots[1..], t - 1, x, v);
    }
  }

  function SumSlots(slots: seq<real>): real {
    if slots == [] then 0.0 else SumSlots(slots[..|slots| - 1]) + slots[|slots| - 1]
  }

  lemma {:induction false} ContributionsOfNone(c: Config, ws: seq<WorkerPc>, slots: seq<real>)
    requires |ws| == |slots|
    requires forall t | 0 <= t < |ws| :: ws[t].AwaitStart?
    ensures Contributions(c, ws, slots) == 0.0
  {
    if ws != [] { ContributionsOfNone(c, ws[1..], slots[1..]); }
  }

  lemma {:induction false} ContributionsOfAll(c: Config, ws: seq<WorkerPc>, slots: seq<real>)
    requires |ws| == |slots|
    requires forall t | 0 <= t < |ws| :: ws[t].AwaitDone?
    ensures Contributions(c, ws, slots) == SumSlots(slots)
  {
    if ws != [] {
      ContributionsOfAll(c, ws[1..], slots[1..]);
      SumSlotsFront(slots);
    }
  }

  lemma {:induction false} SumSlotsFront(slots: seq<real>)
    requires slots != []
    ensures SumSlots(slots) == slots[0] + SumSlots(slots[1..])
  {
    var last := |slots| - 1;
    if last == 0 {
      assert slots[..0] == [] && slots[1..] == [];
    } else {
      SumSlotsFront(slots[..last]);
      assert slots[..last][1..] == slots[1..][..last - 1];
    }
  }

  /** The checksum of positions `lo` up to `hi`, computed one after the other. */
  function SerialSum(c: Config, lo: nat, hi: nat): real
    requires lo <= hi
    decreases hi
  {
    if lo == hi then 0.0 else SerialSum(c, lo, hi - 1) + c.value(hi - 1)
  }

  lemma {:induction false} SerialSumSplit(c: Config, lo: nat, mid: nat, hi: nat)
    requires lo <= mid <= hi
    ensures SerialSum(c, lo, hi) == SerialSum(c, lo, mid) + SerialSum(c, mid, hi)
    decreases hi
  {
    if mid < hi { SerialSumSplit(c, lo, mid, hi - 1); }
  }

  // ----- the invariant -----

  /** The product `n * k`, as a sum. */
  function Times(n: nat, k: nat): nat {
    if n == 0 then 0 else Times(n - 1, k) + k
  }

  lemma {:induction false} TimesIsProduct(n: nat, k: nat)
    ensures Times(n, k) == n * k
  {
    if n > 0 {
      TimesIsProduct(n - 1, k);
      assert n * k == (n - 1) * k + k;
    }
  }

  lemma {:induction false} Monotone(a: nat, b: nat, k: nat)
    requires a <= b
    ensures Times(a, k) <= Times(b, k)
    decreases b
  {
    if a < b { Monotone(a, b - 1, k); }
  }

  /** Between a done barrier and the next start barrier; else a batch is being worked on. */
  predicate Idle(s: State) { s.start.phase == s.done.phase }

  predicate WorkerOk(c: Config, s: State, pc: WorkerPc) {
    var d := s.done.phase;
    if Idle(s) then
      || pc.ArriveStart?
      || pc == AwaitStart(d)
      || (pc.AwaitDone? && pc.ticket + 1 == d)
    else
      || pc == AwaitStart(d)
      || pc.CheckStop?
      || (s.stop && pc.Exited?)
      || (!s.stop &&
          match pc
          case LoadBase => true
          case Claim(base, _) => base == Times(d, c.pairs)
          case Compute(base, _, local) => base == Times(d, c.pairs) && local < c.pairs
          case StoreSum(_) => true
          case ArriveDone => true
          case AwaitDone(k) => k == d
          case _ => false)
  }

  predicate WorkersOk(c: Config, s: State) {
    forall t | 0 <= t < |s.workers| :: WorkerOk(c, s, s.workers[t])
  }

  predicate MainOk(c: Config, s: State)
    requires |s.workers| == |s.slots| == c.threads
  {
    var d := s.done.phase;
    match s.main
    case StoreBase => Idle(s) && s.batch == d < c.Total()
    case StoreNext => Idle(s) && s.batch == d < c.Total() && s.base == Times(d, c.pairs)
    case MainArriveStart => Idle(s) && s.batch == d < c.Total() && s.base == Times(d, c.pairs) && s.next == 0
    case MainAwaitStart(k) => k == s.batch == d < c.Total() && s.base == Times(d, c.pairs) && (Idle(s) ==> s.next == 0)
    case MainArriveDone => !Idle(s) && s.batch == d < c.Total() && s.base == Times(d, c.pairs)
    case MainAwaitDone(k) =>
      k == s.batch < c.Total() &&
      if Idle(s) then d == k + 1 && s.next == c.pairs + c.threads else d == k && s.base == Times(d, c.pairs)
    case ReadSlots(i, sum) =>
      Idle(s) && d == s.batch + 1 <= c.Total() && s.next == c.pairs + c.threads &&
      i <= c.threads && sum == SumSlots(s.slots[..i])
    case StoreStop => Idle(s) && s.batch == d == c.Total()
    case MainArriveFinal => Idle(s) && s.batch == d == c.Total()
    case MainAwaitFinal(k) => k == s.batch == d == c.Total()
    case Join(i) =>
      !Idle(s) && s.batch == d == c.Total() && i <= c.threads &&
      forall t | 0 <= t < i :: s.workers[t].Exited?
    case Finished => !Idle(s) && s.batch == d == c.Total() && forall t | 0 <= t < c.threads :: s.workers[t].Exited?
  }

  predicate StopOk(s: State) {
    s.stop <==> s.main.MainArriveFinal? || s.main.MainAwaitFinal? || s.main.Join? || s.main.Finished?
  }

  function MainAtStart(s: State): nat {
    if s.main == MainAwaitStart(s.start.phase) || s.main == MainAwaitFinal(s.start.phase) then 1 else 0
  }

  function MainAtDone(s: State): nat {
    if s.main == MainAwaitDone(s.done.phase) then 1 else 0
  }

  predicate BarriersOk(c: Config, s: State) {
    && s.done.phase <= s.start.phase <= s.done.phase + 1
    && s.start.arrived == Count(s.workers, AwaitStart(s.start.phase)) + MainAtStart(s) <= c.threads
    && s.done.arrived == Count(s.workers, AwaitDone(s.done.phase)) + MainAtDone(s) <= c.threads
  }

  function Claimed(c: Config, s: State): nat { if s.next < c.pairs then s.next else c.pairs }

  predicate Working(s: State) { !Idle(s) && !s.stop }

  /** Positions are handed out in order, each once. */
  predicate LogOk(c: Config, s: State) {
    && (forall k | 0 <= k < |s.log| :: s.log[k] == k)
    && |s.log| == Times(s.done.phase, c.pairs) + (if Working(s) then Claimed(c, s) else 0)
  }

  predicate TicketOk(c: Config, s: State) {
    Working(s) ==> CountPast(s.workers) == s.next - Claimed(c, s)
  }

  predicate SumsOk(c: Config, s: State)
    requires |s.workers| == |s.slots| == c.threads
  {
    var d := s.done.phase;
    && (Working(s) ==>
          Contributions(c, s.workers, s.slots) == SerialSum(c, Times(d, c.pairs), Times(d, c.pairs) + Claimed(c, s)))
    && (Idle(s) && d > 0 ==>
          Times(d - 1, c.pairs) <= Times(d, c.pairs) &&
          SumSlots(s.slots) == SerialSum(c, Times(d - 1, c.pairs), Times(d, c.pairs)))
  }

  predicate TimedOk(c: Config, s: State) {
    s.timed == if s.batch <= c.warmup then 0.0
               else Monotone(c.warmup, s.batch, c.pairs); SerialSum(c, Times(c.warmup, c.pairs), Times(s.batch, c.pairs))
  }

  predicate Inv(c: Config, s: State) {
    && |s.workers| == |s.slots| == c.threads
    && WorkersOk(c, s)
    && MainOk(c, s)
    && StopOk(s)
    && BarriersOk(c, s)
    && LogOk(c, s)
    && TicketOk(c, s)
    && SumsOk(c, s)
    && TimedOk(c, s)
  }

  lemma InitInv(c: Config)
    ensures Inv(c, Init(c))
  {
    CountNone(Init(c).workers, AwaitStart(0));
    CountNone(Init(c).workers, AwaitDone(0));
  }

  // ----- one lemma per kind of worker step -----

  lemma ContributionsMove(c: Config, s: State, t: nat, x: WorkerPc)
    requires t < |s.workers| == |s.slots|
    ensures Contributions(c, s.workers[t := x], s.slots) ==
            Contributions(c, s.workers, s.slots)
            - Contribution(c, s.workers[t], s.slots[t]) + Contribution(c, x, s.slots[t])
  {
    assert s.slots[t := s.slots[t]] == s.slots;
    ContributionsUpdate(c, s.workers, s.slots, t, x, s.slots[t]);
  }

  /** A step that changes only the worker's own position, outside the barriers, and what it has
      promised to add up not at all. */
  lemma PrivateMove(c: Config, s: State, t: nat, x: WorkerPc)
    requires Inv(c, s) && t < c.threads && WorkerOk(c, s, x) && !s.workers[t].Exited?
    requires s.workers[t] != AwaitStart(s.start.phase) && s.workers[t] != AwaitDone(s.done.phase)
    requires x != AwaitStart(s.start.phase) && x != AwaitDone(s.done.phase)
    requires Past(s.workers[t]) == Past(x)
    requires Contribution(c, s.workers[t], s.slots[t]) == Contribution(c, x, s.slots[t])
    ensures Inv(c, s.(workers := s.workers[t := x]))
  {
    CountUpdate(s.workers, t, x, AwaitStart(s.start.phase));
    CountUpdate(s.workers, t, x, AwaitDone(s.done.phase));
    CountPastUpdate(s.workers, t, x);
    ContributionsMove(c, s, t, x);
  }

  lemma WorkerArrivesAtStart(c: Config, s: State, t: nat)
    requires Inv(c, s) && t < c.threads && s.workers[t].ArriveStart?
    ensures Inv(c, StepWorker(c, s, t).value)
  {
    var s' := StepWorker(c, s, t).value;
    var pc := AwaitStart(s.start.phase);
    CountUpdate(s.workers, t, pc, pc);
    CountUpdate(s.workers, t, pc, AwaitDone(s.done.phase));
    if s.start.arrived == c.threads {
      CountBounds(s'.workers, pc);
      StartBarrierOpens(c, s, s');
    }
  }

  /** The last arrival at the start barrier opens a batch (or the shutdown round). */
  lemma StartBarrierOpens(c: Config, s: State, s': State)
    requires Inv(c, s) && Idle(s)
    requires s' == s.(workers := s'.workers, main := s'.main, start := Barrier(s.start.phase + 1, 0))
    requires |s'.workers| == c.threads
    requires forall t | 0 <= t < c.threads :: s'.workers[t] == AwaitStart(s.start.phase)
    requires s'.main == MainAwaitStart(s.start.phase) || s'.main == MainAwaitFinal(s.start.phase)
    requires s'.main.MainAwaitFinal? <==> s.stop
    requires s'.main.MainAwaitStart? ==> s.batch == s.done.phase < c.Total() && s.base == Times(s.done.phase, c.pairs) && s.next == 0
    requires s'.main.MainAwaitFinal? ==> s.batch == s.done.phase == c.Total()
    ensures Inv(c, s')
  {
    CountNone(s'.workers, AwaitStart(s'.start.phase));
    CountNone(s'.workers, AwaitDone(s'.done.phase));
    CountPastExtremes(s'.workers);
    ContributionsOfNone(c, s'.workers, s'.slots);
    CountNone(s.workers, AwaitDone(s.done.phase));
  }

  lemma WorkerPassesStart(c: Config, s: State, t: nat)
    requires Inv(c, s) && t < c.threads && s.workers[t].AwaitStart? && StepWorker(c, s, t).Some?
    ensures Inv(c, StepWorker(c, s, t).value)
  {
    PrivateMove(c, s, t, CheckStop);
  }

  lemma WorkerChecksStop(c: Config, s: State, t: nat)
    requires Inv(c, s) && t < c.threads && s.workers[t].CheckStop?
    ensures Inv(c, StepWorker(c, s, t).value)
  {
    PrivateMove(c, s, t, if s.stop then Exited else LoadBase);
  }

  lemma WorkerLoadsBase(c: Config, s: State, t: nat)
    requires Inv(c, s) && t < c.threads && s.workers[t].LoadBase?
    ensures Inv(c, StepWorker(c, s, t).value)
  {
    WorkingBase(c, s);
    PrivateMove(c, s, t, Claim(s.base, 0.0));
  }

  lemma WorkingBase(c: Config, s: State)
    requires Inv(c, s) && Working(s)
    ensures s.base == Times(s.done.phase, c.pairs)
  {
  }

  lemma WorkerClaims(c: Config, s: State, t: nat)
    requires Inv(c, s) && t < c.threads && s.workers[t].Claim? && s.next < c.pairs
    ensures Inv(c, StepWorker(c, s, t).value)
  {
    var x := Compute(s.workers[t].base, s.workers[t].sum, s.next);
    CountUpdate(s.workers, t, x, AwaitStart(s.start.phase));
    CountUpdate(s.workers, t, x, AwaitDone(s.done.phase));
    CountPastUpdate(s.workers, t, x);
    ContributionsMove(c, s, t, x);
  }

  lemma WorkerFindsNoMore(c: Config, s: State, t: nat)
    requires Inv(c, s) && t < c.threads && s.workers[t].Claim? && s.next >= c.pairs
    ensures Inv(c, StepWorker(c, s, t).value)
  {
    var x := StoreSum(s.workers[t].sum);
    CountUpdate(s.workers, t, x, AwaitStart(s.start.phase));
    CountUpdate(s.workers, t, x, AwaitDone(s.done.phase));
    CountPastUpdate(s.workers, t, x);
    ContributionsMove(c, s, t, x);
  }

  lemma WorkerComputes(c: Config, s: State, t: nat)
    requires Inv(c, s) && t < c.threads && s.workers[t].Compute?
    ensures Inv(c, StepWorker(c, s, t).value)
  {
    var pc := s.workers[t];
    PrivateMove(c, s, t, Claim(pc.base, pc.sum + c.value(pc.base + pc.local)));
  }

  lemma WorkerStores(c: Config, s: State, t: nat)
    requires Inv(c, s) && t < c.threads && s.workers[t].StoreSum?
    ensures Inv(c, StepWorker(c, s, t).value)
  {
    var s' := StepWorker(c, s, t).value;
    var x := s'.workers[t];
    CountUpdate(s.workers, t, x, AwaitStart(s.start.phase));
    CountUpdate(s.workers, t, x, AwaitDone(s.done.phase));
    CountPastUpdate(s.workers, t, x);
    ContributionsUpdate(c, s.workers, s.slots, t, x, s'.slots[t]);
  }

  lemma WorkerArrivesAtDone(c: Config, s: State, t: nat)
    requires Inv(c, s) && t < c.threads && s.workers[t].ArriveDone?
    ensures Inv(c, StepWorker(c, s, t).value)
  {
    var s' := StepWorker(c, s, t).value;
    var x := AwaitDone(s.done.phase);
    CountUpdate(s.workers, t, x, x);
    CountUpdate(s.workers, t, x, AwaitStart(s.start.phase));
    CountPastUpdate(s.workers, t, x);
    ContributionsMove(c, s, t, x);
    if s.done.arrived == c.threads {
      CountBounds(s'.workers, x);
      DoneBarrierOpens(c, s, s');
    }
  }

  /** The last arrival at the done barrier closes the batch: every pair has been claimed,
      and the slots add up to the batch's serial checksum. */
  lemma DoneBarrierOpens(c: Config, s: State, s': State)
    requires Inv(c, s) && Working(s) && c.threads > 0
    requires s' == s.(workers := s'.workers, main := s'.main, done := Barrier(s.done.phase + 1, 0))
    requires |s'.workers| == c.threads
    requires forall t | 0 <= t < c.threads :: s'.workers[t] == AwaitDone(s.done.phase)
    requires s'.main == MainAwaitDone(s.done.phase) && s.batch == s.done.phase < c.Total()
    requires CountPast(s'.workers) == CountPast(s.workers)
    requires Contributions(c, s'.workers, s.slots) == Contributions(c, s.workers, s.slots)
    ensures Inv(c, s')
  {
    CountNone(s'.workers, AwaitStart(s'.start.phase));
    CountNone(s'.workers, AwaitDone(s'.done.phase));
    CountNone(s.workers, AwaitStart(s.start.phase));
    CountPastExtremes(s'.workers);
    ContributionsOfAll(c, s'.workers, s'.slots);
    var d := s.done.phase;
    assert s.next == c.pairs + c.threads;
  }

  lemma WorkerPassesDone(c: Config, s: State, t: nat)
    requires Inv(c, s) && t < c.threads && s.workers[t].AwaitDone? && StepWorker(c, s, t).Some?
    ensures Inv(c, StepWorker(c, s, t).value)
  {
    CountUpdate(s.workers, t, ArriveStart, AwaitStart(s.start.phase));
    CountUpdate(s.workers, t, ArriveStart, AwaitDone(s.done.phase));
  }

  lemma WorkerStepKeepsInv(c: Config, s: State, t: nat)
    requires Inv(c, s) && t < c.threads && StepWorker(c, s, t).Some?
    ensures Inv(c, StepWorker(c, s, t).value)
  {
    match s.workers[t]
    case ArriveStart => WorkerArrivesAtStart(c, s, t);
    case AwaitStart(_) => WorkerPassesStart(c, s, t);
    case CheckStop => WorkerChecksStop(c, s, t);
    case LoadBase => WorkerLoadsBase(c, s, t);
    case Claim(_, _) => if s.next < c.pairs { WorkerClaims(c, s, t); } else { WorkerFindsNoMore(c, s, t); }
    case Compute(_, _, _) => WorkerComputes(c, s, t);
    case StoreSum(_) => WorkerStores(c, s, t);
    case ArriveDone => WorkerArrivesAtDone(c, s, t);
    case AwaitDone(_) => WorkerPassesDone(c, s, t);
  }

  // ----- one lemma per kind of main step -----

  lemma MainArrivesAtStart(c: Config, s: State)
    requires Inv(c, s) && (s.main.MainArriveStart? || s.main.MainArriveFinal?)
    ensures Inv(c, StepMain(c, s).value)
  {
    var s' := StepMain(c, s).value;
    if s.start.arrived == c.threads {
      CountBounds(s.workers, AwaitStart(s.start.phase));
      StartBarrierOpens(c, s, s');
    }
  }

  lemma MainArrivesAtDone(c: Config, s: State)
    requires Inv(c, s) && s.main.MainArriveDone? && c.threads > 0
    ensures Inv(c, StepMain(c, s).value)
  {
    var s' := StepMain(c, s).value;
    if s.done.arrived == c.threads {
      CountBounds(s.workers, AwaitDone(s.done.phase));
      DoneBarrierOpens(c, s, s');
    }
  }

  lemma MainReads(c: Config, s: State)
    requires Inv(c, s) && s.main.ReadSlots? && s.main.i < c.threads
    ensures Inv(c, StepMain(c, s).value)
  {
    var i := s.main.i;
    assert s.slots[..i + 1][..i] == s.slots[..i];
  }

  lemma MainClosesBatch(c: Config, s: State)
    requires Inv(c, s) && s.main.ReadSlots? && s.main.i == c.threads
    ensures Inv(c, StepMain(c, s).value)
  {
    assert s.slots[..c.threads] == s.slots;
    var d := s.done.phase;
    if s.batch >= c.warmup {
      Monotone(c.warmup, d - 1, c.pairs);
      SerialSumSplit(c, Times(c.warmup, c.pairs), Times(d - 1, c.pairs), Times(d, c.pairs));
    }
  }

  lemma MainStores(c: Config, s: State)
    requires Inv(c, s) && (s.main.StoreBase? || s.main.StoreNext? || s.main.StoreStop?)
    ensures Inv(c, StepMain(c, s).value)
  {
    TimesIsProduct(s.batch, c.pairs);
  }

  lemma MainPasses(c: Config, s: State)
    requires Inv(c, s) && (s.main.MainAwaitStart? || s.main.MainAwaitDone?) && StepMain(c, s).Some?
    ensures Inv(c, StepMain(c, s).value)
  {
    assert s.slots[..0] == [];
  }

  lemma MainJoins(c: Config, s: State)
    requires Inv(c, s) && (s.main.MainAwaitFinal? || s.main.Join?) && StepMain(c, s).Some?
    ensures Inv(c, StepMain(c, s).value)
  {
  }

  lemma MainStepKeepsInv(c: Config, s: State)
    requires Inv(c, s) && StepMain(c, s).Some? && c.threads > 0
    ensures Inv(c, StepMain(c, s).value)
  {
    match s.main
    case MainArriveStart => MainArrivesAtStart(c, s);
    case MainArriveFinal => MainArrivesAtStart(c, s);
    case MainArriveDone => MainArrivesAtDone(c, s);
    case ReadSlots(i, _) => if i < c.threads { MainReads(c, s); } else { MainClosesBatch(c, s); }
    case MainAwaitStart(_) => MainPasses(c, s);
    case MainAwaitDone(_) => MainPasses(c, s);
    case MainAwaitFinal(_) => MainJoins(c, s);
    case Join(_) => MainJoins(c, s);
    case _ => MainStores(c, s);
  }

  lemma {:induction false} RunKeepsInv(c: Config, schedule: seq<nat>)
    requires c.threads > 0 && Run(c, schedule).Some?
    ensures Inv(c, Run(c, schedule).value)
  {
    if schedule == [] {
      InitInv(c);
    } else {
      var last := |schedule| - 1;
      RunKeepsInv(c, schedule[..last]);
      var s := Run(c, schedule[..last]).value;
      if schedule[last] < c.threads {
        WorkerStepKeepsInv(c, s, schedule[last]);
      } else {
        MainStepKeepsInv(c, s);
      }
    }
  }

  // ----- what every interleaving keeps -----

  /** The worker may read the batch base, draw a ticket, or write its slot. */
  predicate Busy(pc: WorkerPc) {
    pc.LoadBase? || pc.Claim? || pc.Compute? || pc.StoreSum?
  }

  /** The main thread rewrites the base and the ticket, or reads the slots, only while no
      worker is in its claiming loop; when it reads them the ticket stands at exactly
      pairs + threads; and the positions handed out so far are 0, 1, 2, ... without a
      repeat, all of them inside the expert sequence. */
  lemma ExclusiveAccess(c: Config, schedule: seq<nat>)
    requires c.threads > 0 && Run(c, schedule).Some?
    ensures var s := Run(c, schedule).value;
            && (s.main.StoreBase? || s.main.StoreNext? || s.main.ReadSlots? ==>
                  forall t | 0 <= t < c.threads :: !Busy(s.workers[t]))
            && (s.main.ReadSlots? ==> s.next == c.pairs + c.threads && |s.log| == (s.batch + 1) * c.pairs)
            && (forall k | 0 <= k < |s.log| :: s.log[k] == k < c.Total() * c.pairs)
  {
    RunKeepsInv(c, schedule);
    ExclusiveInState(c, Run(c, schedule).value);
  }

  lemma ExclusiveInState(c: Config, s: State)
    requires Inv(c, s)
    ensures s.main.StoreBase? || s.main.StoreNext? || s.main.ReadSlots? ==>
              forall t | 0 <= t < c.threads :: !Busy(s.workers[t])
    ensures s.main.ReadSlots? ==> s.next == c.pairs + c.threads && |s.log| == (s.batch + 1) * c.pairs
    ensures forall k | 0 <= k < |s.log| :: s.log[k] == k < c.Total() * c.pairs
  {
    LogBound(c, s);
    TimesIsProduct(s.batch + 1, c.pairs);
    TimesIsProduct(c.Total(), c.pairs);
  }

  lemma LogBound(c: Config, s: State)
    requires Inv(c, s)
    ensures |s.log| <= Times(c.Total(), c.pairs)
    ensures s.start.phase + s.done.phase <= 2 * c.Total() + 1
  {
    var d := s.done.phase;
    if Working(s) {
      Monotone(d + 1, c.Total(), c.pairs);
    } else {
      Monotone(d, c.Total(), c.pairs);
    }
  }

  // ----- no deadlock -----

  ghost predicate CanStep(c: Config, s: State)
    requires |s.workers| == |s.slots| == c.threads
  {
    exists who: nat :: who <= c.threads && Step(c, s, who).Some?
  }

  lemma {:induction false} SomeoneElsewhere(ws: seq<WorkerPc>, pc: WorkerPc) returns (t: nat)
    requires Count(ws, pc) < |ws|
    ensures t < |ws| && ws[t] != pc
  {
    if ws[0] != pc {
      t := 0;
    } else {
      t := SomeoneElsewhere(ws[1..], pc);
      t := t + 1;
    }
  }

  lemma NoDeadlock(c: Config, s: State)
    requires Inv(c, s) && !s.main.Finished?
    ensures CanStep(c, s)
  {
    if StepMain(c, s).Some? {
      assert Step(c, s, c.threads).Some?;
    } else if s.main.MainAwaitDone? {
      var t := SomeoneElsewhere(s.workers, AwaitDone(s.done.phase));
      assert WorkerOk(c, s, s.workers[t]);
      assert Step(c, s, t).Some?;
    } else if s.main.Join? {
      assert WorkerOk(c, s, s.workers[s.main.i]);
      assert Step(c, s, s.main.i).Some?;
    } else {
      var t := SomeoneElsewhere(s.workers, AwaitStart(s.start.phase));
      assert WorkerOk(c, s, s.workers[t]);
      assert Step(c, s, t).Some?;
    }
  }

  // ----- termination: a rank every step lowers -----

  function WorkerRank(pc: WorkerPc, donePhase: nat): nat {
    match pc
    case AwaitDone(k) => if k < donePhase then 11 else 2
    case ArriveStart => 10
    case AwaitStart(_) => 9
    case CheckStop => 8
    case LoadBase => 7
    case Compute(_, _, _) => 6
    case Claim(_, _) => 5
    case StoreSum(_) => 4
    case ArriveDone => 3
    case Exited => 0
  }

  function WorkersRank(ws: seq<WorkerPc>, donePhase: nat): nat {
    if ws == [] then 0 else WorkerRank(ws[0], donePhase) + WorkersRank(ws[1..], donePhase)
  }

  lemma {:induction false} WorkersRankUpdate(ws: seq<WorkerPc>, t: nat, x: WorkerPc, d: nat)
    requires t < |ws|
    ensures WorkersRank(ws[t := x], d) == WorkersRank(ws, d) - WorkerRank(ws[t], d) + WorkerRank(x, d)
  {
    if t == 0 {
      assert ws[0 := x][1..] == ws[1..];
    } else {
      assert ws[t := x][1..] == ws[1..][t - 1 := x];
      WorkersRankUpdate(ws[1..], t - 1, x, d);
    }
  }

  lemma {:induction false} WorkersRankRelease(ws: seq<WorkerPc>, d: nat)
    ensures WorkersRank(ws, d + 1) <= WorkersRank(ws, d) + 9 * |ws|
  {
    if ws != [] { WorkersRankRelease(ws[1..], d); }
  }

  function MainRank(c: Config, s: State): nat {
    var n := c.threads;
    match s.main
    case MainAwaitDone(k) => if k < s.done.phase then 2 * n + 12 else n + 5
    case ReadSlots(i, _) => n + 11 + (if i < n then n - i else 0)
    case StoreBase => n + 10
    case StoreNext => n + 9
    case MainArriveStart => n + 8
    case MainAwaitStart(_) => n + 7
    case MainArriveDone => n + 6
    case StoreStop => n + 4
    case MainArriveFinal => n + 3
    case MainAwaitFinal(_) => n + 2
    case Join(i) => 1 + (if i < n then n - i else 0)
    case Finished => 0
  }

  /** What is left to do: barrier phases, pairs to claim, and the way through each round. */
  function Rank(c: Config, s: State): int {
    PhaseRank(c, s.start.phase + s.done.phase)
    + 2 * (Times(c.Total(), c.pairs) - |s.log|)
    + WorkersRank(s.workers, s.done.phase) + MainRank(c, s)
  }

  function PhaseRank(c: Config, completed: nat): int {
    (10 * c.threads + 8) * (2 * c.Total() + 1 - completed)
  }

  lemma PhaseRankDrops(c: Config, completed: nat)
    ensures PhaseRank(c, completed + 1) == PhaseRank(c, completed) - 10 * c.threads - 8
    ensures completed <= 2 * c.Total() + 1 ==> 0 <= PhaseRank(c, completed)
  {
    var left := 2 * c.Total() + 1 - completed;
    assert (10 * c.threads + 8) * (left - 1) == (10 * c.threads + 8) * left - (10 * c.threads + 8);
  }

  /** A step that opens no barrier moves one worker along its round. */
  lemma WorkerMoves(c: Config, s: State, t: nat)
    requires t < c.threads == |s.workers| == |s.slots| && StepWorker(c, s, t).Some?
    requires var s' := StepWorker(c, s, t).value;
             s'.start.phase == s.start.phase && s'.done.phase == s.done.phase
    ensures var s' := StepWorker(c, s, t).value; var d := s.done.phase;
            WorkerRank(s'.workers[t], d) - 2 * |s'.log| < WorkerRank(s.workers[t], d) - 2 * |s.log|
            && s'.workers == s.workers[t := s'.workers[t]] && s'.main == s.main
  {
  }

  /** A step that opens a barrier may send everyone back to the front of a round. */
  lemma BarrierOpens(c: Config, s: State, s': State, t: nat)
    requires t < c.threads == |s.workers| == |s'.workers|
    requires s'.log == s.log && s'.main == s.main && s'.workers == s.workers[t := s'.workers[t]]
    requires WorkerRank(s'.workers[t], s.done.phase) < WorkerRank(s.workers[t], s.done.phase)
    requires s'.start.phase + s'.done.phase == s.start.phase + s.done.phase + 1
    requires s.done.phase <= s'.done.phase <= s.done.phase + 1
    ensures Rank(c, s') < Rank(c, s)
  {
    WorkersRankUpdate(s.workers, t, s'.workers[t], s.done.phase);
    WorkersRankRelease(s'.workers, s.done.phase);
    PhaseRankDrops(c, s.start.phase + s.done.phase);
  }

  lemma WorkerStepLowersRank(c: Config, s: State, t: nat)
    requires t < c.threads == |s.workers| == |s.slots| && StepWorker(c, s, t).Some?
    ensures Rank(c, StepWorker(c, s, t).value) < Rank(c, s)
  {
    var s' := StepWorker(c, s, t).value;
    if s'.start.phase == s.start.phase && s'.done.phase == s.done.phase {
      WorkerMoves(c, s, t);
      WorkersRankUpdate(s.workers, t, s'.workers[t], s.done.phase);
    } else {
      BarrierOpens(c, s, s', t);
    }
  }

  lemma MainMoves(c: Config, s: State)
    requires c.threads == |s.workers| == |s.slots| && StepMain(c, s).Some?
    requires !s.main.MainArriveStart? && !s.main.MainArriveDone? && !s.main.MainArriveFinal?
    ensures var s' := StepMain(c, s).value;
            && MainRank(c, s') < MainRank(c, s)
            && s'.start == s.start && s'.done == s.done && s'.workers == s.workers && s'.log == s.log
  {
  }

  lemma MainArrives(c: Config, s: State)
    requires c.threads == |s.workers| == |s.slots|
    requires s.main.MainArriveStart? || s.main.MainArriveDone? || s.main.MainArriveFinal?
    ensures Rank(c, StepMain(c, s).value) < Rank(c, s)
  {
    WorkersRankRelease(s.workers, s.done.phase);
    PhaseRankDrops(c, s.start.phase + s.done.phase);
  }

  lemma MainStepLowersRank(c: Config, s: State)
    requires c.threads == |s.workers| == |s.slots| && StepMain(c, s).Some?
    ensures Rank(c, StepMain(c, s).value) < Rank(c, s)
  {
    if s.main.MainArriveStart? || s.main.MainArriveDone? || s.main.MainArriveFinal? {
      MainArrives(c, s);
    } else {
      MainMoves(c, s);
    }
  }

  lemma RankNonNegative(c: Config, s: State)
    requires |s.log| <= Times(c.Total(), c.pairs)
    requires s.start.phase + s.done.phase <= 2 * c.Total() + 1
    ensures Rank(c, s) >= 0
  {
    PhaseRankDrops(c, s.start.phase + s.done.phase);
  }

  lemma {:induction false} StepsTaken(c: Config, schedule: seq<nat>)
    requires Run(c, schedule).Some?
    ensures |schedule| + Rank(c, Run(c, schedule).value) <= Rank(c, Init(c))
  {
    if schedule != [] {
      var last := |schedule| - 1;
      StepsTaken(c, schedule[..last]);
      var s := Run(c, schedule[..last]).value;
      if schedule[last] < c.threads {
        WorkerStepLowersRank(c, s, schedule[last]);
      } else {
        MainStepLowersRank(c, s);
      }
    }
  }

  /** No interleaving runs forever, and one that cannot be extended has shut down cleanly:
      every worker has left, each position of the sequence was handed out exactly once,
      and the reported checksum is the serial one over the timed batches. */
  lemma EveryRunFinishes(c: Config, schedule: seq<nat>)
    requires c.threads > 0 && Run(c, schedule).Some?
    ensures |schedule| <= Rank(c, Init(c))
    ensures var s := Run(c, schedule).value;
            !CanStep(c, s) ==>
              && s.main.Finished?
              && (forall t | 0 <= t < c.threads :: s.workers[t].Exited?)
              && s.log == seq(c.Total() * c.pairs, k => k)
              && c.warmup * c.pairs <= c.Total() * c.pairs
              && s.timed == SerialSum(c, c.warmup * c.pairs, c.Total() * c.pairs)
  {
    var s := Run(c, schedule).value;
    RunKeepsInv(c, schedule);
    StepsTaken(c, schedule);
    LogBound(c, s);
    RankNonNegative(c, s);
    if !CanStep(c, s) {
      if !s.main.Finished? { NoDeadlock(c, s); }
      FinishedState(c, s);
    }
  }

  lemma FinishedState(c: Config, s: State)
    requires Inv(c, s) && s.main.Finished?
    ensures s.log == seq(c.Total() * c.pairs, k => k)
    ensures c.warmup * c.pairs <= c.Total() * c.pairs
    ensures s.timed == SerialSum(c, c.warmup * c.pairs, c.Total() * c.pairs)
  {
    Monotone(c.warmup, c.Total(), c.pairs);
    TimesIsProduct(c.warmup, c.pairs);
    TimesIsProduct(c.Total(), c.pairs);
  }
}
