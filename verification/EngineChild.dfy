/** The supervisor's process control: one worker thread runs the start/wait/back-off loop
    while any number of other threads call start, stop, restart, observe_health and
    request_quit. One step is one critical section under the lock, one atomic access, or
    one move of the environment. The engine is managed (not monitor-only). */
module EngineChild {
  import opened Wrappers
  import Gate = RestartGate

  type Pid = p: nat | p > 0 witness 1

  datatype EngineState = Stopped | Starting | Running | Stopping | BackingOff | Halted

  /** The atomic flags. */
  datatype Flags = Flags(quit: bool, auto: bool, stopChild: bool)

  /** The engine process as the supervisor records it, the engine processes the system
      runs (`live`), whether an output reader thread exists, and how many were created. */
  datatype Process = Process(handle: Option<Pid>, pid: nat, st: EngineState, ready: bool,
                             live: set<Pid>, reader: bool, spawned: nat)

  /** The gate, the history of calls to it, and the latest exit time. */
  datatype Breaker = Breaker(gate: Gate.State, calls: seq<Gate.Call>, clock: int)

  datatype Shared = Shared(flags: Flags, proc: Process, breaker: Breaker)

  // ----- the calling threads -----

  /** One atomic action of a calling thread. */
  datatype Action =
    | StoreAuto(on: bool)
    | StoreStopChild
    | MarkStopping
    | ResetForStart
    | ResetForRestart
    | Health(status: int)
    | StoreQuit
    | Terminate(p: Pid)

  datatype Call = Start | Stop | Restart | ObserveHealth(status: int) | RequestQuit

  /** What a call does, in program order. A locked section may add to the rest, see `Act`. */
  function Program(call: Call): seq<Action> {
    match call
    case Start => [StoreAuto(true), ResetForStart]
    case Stop => [StoreAuto(false), StoreStopChild, MarkStopping]
    case Restart => [StoreAuto(true), StoreStopChild, ResetForRestart]
    case ObserveHealth(status) => [Health(status)]
    case RequestQuit => [StoreQuit]
  }

  function OnGate(b: Breaker, call: Gate.Call): Breaker {
    Breaker(Gate.Apply(b.gate, call), b.calls + [call], if call.NoteExit? then call.now else b.clock)
  }

  function MarkedStopping(p: Process): Process {
    p.(st := if p.handle.Some? then Stopping else Stopped, ready := false)
  }

  function TerminateLater(p: Process): seq<Action> {
    if p.handle.Some? then [Terminate(p.handle.value)] else []
  }

  function AfterFailedHealth(b: Breaker, auto: bool): seq<Action> {
    if b.gate.healthFails >= b.gate.policy.healthFailThreshold && auto then Program(Restart) else []
  }

  function ObservedHealth(sh: Shared, status: int): (Shared, seq<Action>) {
    if status == 200 then
      (sh.(breaker := OnGate(sh.breaker, Gate.NoteHealthy), proc := sh.proc.(ready := true)), [])
    else if status == 503 || sh.proc.ready then
      var b := OnGate(sh.breaker, Gate.NoteHealthFail);
      (sh.(breaker := b), AfterFailedHealth(b, sh.flags.auto))
    else (sh, [])
  }

  /** An action's effect, and what the thread does next on account of it. */
  function Act(sh: Shared, a: Action): (Shared, seq<Action>) {
    match a
    case StoreAuto(on) => (sh.(flags := sh.flags.(auto := on)), [])
    case StoreStopChild => (sh.(flags := sh.flags.(stopChild := true)), [])
    case MarkStopping => (sh.(proc := MarkedStopping(sh.proc)), TerminateLater(sh.proc))
    case ResetForStart => (sh.(breaker := OnGate(sh.breaker, Gate.ResetHalt)), [])
    case ResetForRestart => (sh.(breaker := OnGate(sh.breaker, Gate.ResetHalt)), TerminateLater(sh.proc))
    case Health(status) => ObservedHealth(sh, status)
    case StoreQuit => (sh.(flags := sh.flags.(quit := true)), [])
    case Terminate(p) => (sh.(proc := sh.proc.(live := sh.proc.live - {p})), [])
  }

  // ----- the worker thread -----

  datatype Pc =
    | Head
    | ReadHandle
    | WaitLock
    | Waiting(waitFor: Pid)
    | Reap(dead: Pid)
    | JoinAfterExit
    | ExchangeStop
    | LoadQuit(intentional: bool)
    | LoadAuto(intentional: bool)
    | NoteExit
    | Halt
    | Advance
    | BackOff
    | Sleep
    | ReadHalted
    | LoadAutoToStart(halted: bool)
    | LoadQuitToStart
    | MarkStarting
    | ClearStopChild
    | JoinBeforeSpawn
    | Create
    | Publish(created: Pid)
    | SpawnFailed
    | FinalStop(left: seq<Action>)
    | Ended

  /** Waiting for a running engine, and deciding what its exit means. */
  function ExitMove(sh: Shared, pc: Pc, now: int): Option<(Shared, Pc)> {
    match pc
    case WaitLock => Some((sh, if sh.proc.handle.Some? then Waiting(sh.proc.handle.value) else ExchangeStop))
    case Waiting(p) => if p in sh.proc.live then None else Some((sh, Reap(p)))
    case Reap(_) =>
      Some((sh.(proc := sh.proc.(pid := 0, handle := None, st := Stopped, ready := false)), JoinAfterExit))
    case JoinAfterExit => if sh.proc.reader then None else Some((sh, ExchangeStop))
    case ExchangeStop => Some((sh.(flags := sh.flags.(stopChild := false)), LoadQuit(sh.flags.stopChild)))
    case LoadQuit(intentional) => Some((sh, if sh.flags.quit then Head else LoadAuto(intentional)))
    case LoadAuto(intentional) => Some((sh, if !sh.flags.auto || intentional then Head else NoteExit))
    case NoteExit =>
      if now < sh.breaker.clock then None
      else
        var b := OnGate(sh.breaker, Gate.NoteExit(now));
        Some((sh.(breaker := b), if b.gate.halted then Halt else Advance))
    case Halt => Some((sh.(proc := sh.proc.(st := Halted), flags := sh.flags.(auto := false)), Head))
    case Advance => Some((sh.(breaker := OnGate(sh.breaker, Gate.AdvanceBackoff)), BackOff))
    case BackOff => Some((sh.(proc := sh.proc.(st := BackingOff)), Sleep))
    case _ => None
  }

  /** Deciding to start the engine, and spawning it. */
  function SpawnMove(sh: Shared, pc: Pc, created: Option<Pid>): Option<(Shared, Pc)> {
    match pc
    case ReadHalted => Some((sh, LoadAutoToStart(sh.breaker.gate.halted)))
    case LoadAutoToStart(halted) => Some((sh, if sh.flags.auto && !halted then LoadQuitToStart else Sleep))
    case LoadQuitToStart => Some((sh, if sh.flags.quit then Sleep else MarkStarting))
    case MarkStarting => Some((sh.(proc := sh.proc.(st := Starting)), ClearStopChild))
    case ClearStopChild => Some((sh.(flags := sh.flags.(stopChild := false)), JoinBeforeSpawn))
    case JoinBeforeSpawn => if sh.proc.reader then None else Some((sh, Create))
    case Create =>
      if created.None? then Some((sh, SpawnFailed))
      else if created.value in sh.proc.live then None
      else Some((sh.(proc := sh.proc.(live := sh.proc.live + {created.value}, spawned := sh.proc.spawned + 1)),
                 Publish(created.value)))
    case Publish(p) =>
      Some((sh.(proc := sh.proc.(handle := Some(p), pid := p, st := Running, ready := false, reader := true)), Head))
    case SpawnFailed => Some((sh.(proc := sh.proc.(st := Stopped), flags := sh.flags.(auto := false)), Head))
    case _ => None
  }

  function WorkerMove(sh: Shared, pc: Pc, now: int, created: Option<Pid>): Option<(Shared, Pc)> {
    match pc
    case Head => Some((sh, if sh.flags.quit then FinalStop(Program(Stop)) else ReadHandle))
    case ReadHandle => Some((sh, if sh.proc.handle.Some? then WaitLock else ReadHalted))
    case Sleep => Some((sh, Head))
    case FinalStop(left) =>
      if left == [] then Some((sh, Ended))
      else
        var (sh', more) := Act(sh, left[0]);
        Some((sh', FinalStop(more + left[1..])))
    case Ended => None
    case _ => if OnExitPath(pc) then ExitMove(sh, pc, now) else SpawnMove(sh, pc, created)
  }

  predicate OnExitPath(pc: Pc) {
    || pc.WaitLock? || pc.Waiting? || pc.Reap? || pc.JoinAfterExit? || pc.ExchangeStop? || pc.LoadQuit?
    || pc.LoadAuto? || pc.NoteExit? || pc.Halt? || pc.Advance? || pc.BackOff?
  }

  // ----- interleavings -----

  datatype State = State(sh: Shared, worker: Pc, clients: seq<seq<Action>>)

  datatype Label =
    | Invoke(call: Call)                            // a thread enters a call
    | Client(k: nat)                                // thread k takes its next action
    | Worker(now: int, created: Option<Pid>)        // the worker moves; clock and CreateProcess answer
    | ProcessExits(p: Pid)
    | ReaderEnds
    | ReaderSeesReady

  function Init(policy: Gate.Policy): State {
    State(Shared(Flags(false, true, false), Process(None, 0, Stopped, false, {}, false, 0),
                 Breaker(Gate.Init(policy), [], 0)),
          Head, [])
  }

  function StepClient(s: State, k: nat): Option<State> {
    if k < |s.clients| && s.clients[k] != [] then
      var (sh, more) := Act(s.sh, s.clients[k][0]);
      Some(s.(sh := sh, clients := s.clients[k := more + s.clients[k][1..]]))
    else None
  }

  function StepWorker(s: State, now: int, created: Option<Pid>): Option<State> {
    match WorkerMove(s.sh, s.worker, now, created)
    case None => None
    case Some((sh, pc)) => Some(s.(sh := sh, worker := pc))
  }

  function Environment(p: Process, l: Label): Option<Process> {
    match l
    case ProcessExits(pid) => if pid in p.live then Some(p.(live := p.live - {pid})) else None
    case ReaderEnds => if p.reader then Some(p.(reader := false)) else None
    case ReaderSeesReady => if p.reader then Some(p.(ready := true)) else None
    case _ => None
  }

  function Step(s: State, l: Label): Option<State> {
    match l
    case Invoke(call) => Some(s.(clients := s.clients + [Program(call)]))
    case Client(k) => StepClient(s, k)
    case Worker(now, created) => StepWorker(s, now, created)
    case _ =>
      match Environment(s.sh.proc, l)
      case None => None
      case Some(p) => Some(s.(sh := s.sh.(proc := p)))
  }

  function RunFrom(s: State, labels: seq<Label>): Option<State>
    decreases |labels|
  {
    if labels == [] then Some(s)
    else
      match Step(s, labels[0])
      case None => None
      case Some(s') => RunFrom(s', labels[1..])
  }

  // ----- what every step keeps -----

  /** The worker has found the engine startable and has not yet created the process. */
  predicate InSpawn(pc: Pc) {
    pc.LoadQuitToStart? || pc.MarkStarting? || pc.ClearStopChild? || pc.JoinBeforeSpawn? || pc.Create?
  }

  /** Points of the loop at which no process handle is held. */
  predicate NoHandle(pc: Pc) {
    || pc.JoinAfterExit? || pc.ExchangeStop? || pc.LoadQuit? || pc.LoadAuto? || pc.NoteExit? || pc.Halt?
    || pc.Advance? || pc.BackOff? || pc.ReadHalted? || pc.LoadAutoToStart? || InSpawn(pc)
    || pc.Publish? || pc.SpawnFailed?
  }

  predicate HandleOk(p: Process) {
    && (if p.handle.None? then p.pid == 0 else p.pid == p.handle.value)
    && (p.handle.Some? <==> p.st.Running? || p.st.Stopping?)
  }

  predicate PcOk(p: Process, pc: Pc) {
    && (NoHandle(pc) ==> p.handle.None?)
    && (pc.WaitLock? ==> p.handle.Some?)
    && (pc.Waiting? ==> p.handle == Some(pc.waitFor))
    && (pc.Reap? ==> p.handle == Some(pc.dead) && pc.dead !in p.live)
    && (pc.Create? || pc.Publish? ==> !p.reader)
  }

  /** Every live process is the one held, or the one about to be recorded. */
  predicate LiveOk(p: Process, pc: Pc) {
    forall q | q in p.live :: p.handle == Some(q) || (p.handle.None? && pc == Publish(q))
  }

  predicate ProcessOk(p: Process, pc: Pc) { HandleOk(p) && PcOk(p, pc) && LiveOk(p, pc) }

  /** The gate is what its history makes it, under a clock that never goes back. */
  predicate HistoryOk(policy: Gate.Policy, b: Breaker) {
    && b.gate == Gate.Run(policy, b.calls)
    && Gate.Monotone(b.calls)
    && (forall i | 0 <= i < |b.calls| && b.calls[i].NoteExit? :: b.calls[i].now <= b.clock)
  }

  /** Only the worker halts the gate, so a gate it saw open stays open until it spawns. */
  predicate GateOpen(halted: bool, pc: Pc) {
    InSpawn(pc) || pc == LoadAutoToStart(false) ==> !halted
  }

  predicate Inv(policy: Gate.Policy, s: State) {
    && ProcessOk(s.sh.proc, s.worker)
    && HistoryOk(policy, s.sh.breaker)
    && GateOpen(s.sh.breaker.gate.halted, s.worker)
  }

  lemma OnGateKeepsHistory(policy: Gate.Policy, b: Breaker, call: Gate.Call)
    requires HistoryOk(policy, b) && (call.NoteExit? ==> call.now >= b.clock)
    ensures HistoryOk(policy, OnGate(b, call))
  {
    Gate.RunAppend(policy, b.calls, call);
  }

  lemma OnlyExitsHalt(g: Gate.State, call: Gate.Call)
    requires !call.NoteExit?
    ensures Gate.Apply(g, call).halted ==> g.halted
  {
  }

  lemma ActKeepsProcess(sh: Shared, a: Action, pc: Pc)
    requires ProcessOk(sh.proc, pc)
    ensures ProcessOk(Act(sh, a).0.proc, pc)
    ensures Act(sh, a).0.proc.spawned == sh.proc.spawned
  {
  }

  lemma ActKeepsGate(policy: Gate.Policy, sh: Shared, a: Action)
    requires HistoryOk(policy, sh.breaker)
    ensures var b := Act(sh, a).0.breaker; HistoryOk(policy, b) && (b.gate.halted ==> sh.breaker.gate.halted)
  {
    var b := Act(sh, a).0.breaker;
    if b != sh.breaker {
      var call := if a.Health? then (if a.status == 200 then Gate.NoteHealthy else Gate.NoteHealthFail) else Gate.ResetHalt;
      assert b == OnGate(sh.breaker, call);
      OnGateKeepsHistory(policy, sh.breaker, call);
      OnlyExitsHalt(sh.breaker.gate, call);
    }
  }

  lemma ExitMoveKeepsProcess(sh: Shared, pc: Pc, now: int)
    requires ProcessOk(sh.proc, pc) && OnExitPath(pc) && ExitMove(sh, pc, now).Some?
    ensures var (sh', pc') := ExitMove(sh, pc, now).value; ProcessOk(sh'.proc, pc')
  {
  }

  lemma ExitMoveKeepsGate(policy: Gate.Policy, sh: Shared, pc: Pc, now: int)
    requires HistoryOk(policy, sh.breaker) && OnExitPath(pc) && ExitMove(sh, pc, now).Some?
    ensures var (sh', pc') := ExitMove(sh, pc, now).value;
            HistoryOk(policy, sh'.breaker) && GateOpen(sh'.breaker.gate.halted, pc')
  {
    if pc.NoteExit? {
      OnGateKeepsHistory(policy, sh.breaker, Gate.NoteExit(now));
    } else if pc.Advance? {
      OnGateKeepsHistory(policy, sh.breaker, Gate.AdvanceBackoff);
    }
  }

  lemma SpawnMoveKeepsProcess(sh: Shared, pc: Pc, created: Option<Pid>)
    requires ProcessOk(sh.proc, pc) && SpawnMove(sh, pc, created).Some?
    ensures var (sh', pc') := SpawnMove(sh, pc, created).value; ProcessOk(sh'.proc, pc')
  {
  }

  lemma SpawnMoveKeepsGate(sh: Shared, pc: Pc, created: Option<Pid>)
    requires GateOpen(sh.breaker.gate.halted, pc) && SpawnMove(sh, pc, created).Some?
    ensures var (sh', pc') := SpawnMove(sh, pc, created).value;
            sh'.breaker == sh.breaker && GateOpen(sh'.breaker.gate.halted, pc')
  {
  }

  lemma MoveKeepsInv(policy: Gate.Policy, s: State, now: int, created: Option<Pid>)
    requires Inv(policy, s) && StepWorker(s, now, created).Some?
    requires !s.worker.Head? && !s.worker.ReadHandle? && !s.worker.Sleep? && !s.worker.FinalStop?
    ensures Inv(policy, StepWorker(s, now, created).value)
  {
    if OnExitPath(s.worker) {
      ExitMoveKeepsProcess(s.sh, s.worker, now);
      ExitMoveKeepsGate(policy, s.sh, s.worker, now);
    } else {
      SpawnMoveKeepsProcess(s.sh, s.worker, created);
      SpawnMoveKeepsGate(s.sh, s.worker, created);
    }
  }

  lemma FinalStopKeepsInv(policy: Gate.Policy, s: State, now: int, created: Option<Pid>)
    requires Inv(policy, s) && s.worker.FinalStop? && StepWorker(s, now, created).Some?
    ensures Inv(policy, StepWorker(s, now, created).value)
  {
    var left := s.worker.left;
    if left != [] {
      ActKeepsProcess(s.sh, left[0], s.worker);
      ActKeepsGate(policy, s.sh, left[0]);
    }
  }

  lemma WorkerKeepsInv(policy: Gate.Policy, s: State, now: int, created: Option<Pid>)
    requires Inv(policy, s) && StepWorker(s, now, created).Some?
    ensures Inv(policy, StepWorker(s, now, created).value)
  {
    match s.worker
    case Head =>
    case ReadHandle =>
    case Sleep =>
    case FinalStop(_) => FinalStopKeepsInv(policy, s, now, created);
    case _ => MoveKeepsInv(policy, s, now, created);
  }

  lemma ClientKeepsInv(policy: Gate.Policy, s: State, k: nat)
    requires Inv(policy, s) && StepClient(s, k).Some?
    ensures Inv(policy, StepClient(s, k).value)
  {
    ActKeepsProcess(s.sh, s.clients[k][0], s.worker);
    ActKeepsGate(policy, s.sh, s.clients[k][0]);
  }

  lemma StepKeepsInv(policy: Gate.Policy, s: State, l: Label)
    requires Inv(policy, s) && Step(s, l).Some?
    ensures Inv(policy, Step(s, l).value)
  {
    match l
    case Client(k) => ClientKeepsInv(policy, s, k);
    case Worker(now, created) => WorkerKeepsInv(policy, s, now, created);
    case _ =>
  }

  lemma {:induction false} RunKeepsInv(policy: Gate.Policy, s: State, labels: seq<Label>)
    requires Inv(policy, s) && RunFrom(s, labels).Some?
    ensures Inv(policy, RunFrom(s, labels).value)
    decreases |labels|
  {
    if labels != [] {
      StepKeepsInv(policy, s, labels[0]);
      RunKeepsInv(policy, Step(s, labels[0]).value, labels[1..]);
    }
  }

  /** In every interleaving: the pid is nonzero exactly when the handle is set, the state is
      Running or Stopping exactly then, and at most one engine process is alive. */
  lemma EveryStateConsistent(policy: Gate.Policy, labels: seq<Label>)
    requires RunFrom(Init(policy), labels).Some?
    ensures var p := RunFrom(Init(policy), labels).value.sh.proc;
            && (p.pid != 0 <==> p.handle.Some?)
            && (p.st.Running? || p.st.Stopping? <==> p.handle.Some?)
            && (forall q, r | q in p.live && r in p.live :: q == r)
            && (forall q | q in p.live && p.handle.Some? :: q == p.handle.value)
  {
    RunKeepsInv(policy, Init(policy), labels);
  }

  /** In every interleaving a process is created only when none is alive or held, the
      breaker is not halted, and no output reader of an earlier process is left. */
  lemma SpawnOnlyWhenFree(policy: Gate.Policy, labels: seq<Label>)
    requires RunFrom(Init(policy), labels).Some?
    requires RunFrom(Init(policy), labels).value.worker.Create?
    ensures var sh := RunFrom(Init(policy), labels).value.sh;
            sh.proc.live == {} && sh.proc.handle.None? && sh.proc.pid == 0 && !sh.breaker.gate.halted && !sh.proc.reader
  {
    RunKeepsInv(policy, Init(policy), labels);
  }

  /** The breaker's promise carries over to every interleaving: between two resets, any
      closed window holds fewer than crash_loop_max exits answered with a restart. */
  lemma FewAutomaticRestarts(policy: Gate.Policy, labels: seq<Label>, from: int)
    requires RunFrom(Init(policy), labels).Some? && policy.crashLoopMax >= 1
    ensures var calls := RunFrom(Init(policy), labels).value.sh.breaker.calls;
            |Gate.Between(Gate.Permitted(policy, calls), from, from + policy.window)| < policy.crashLoopMax
  {
    RunKeepsInv(policy, Init(policy), labels);
    Gate.FewRestartsPerWindow(policy, RunFrom(Init(policy), labels).value.sh.breaker.calls, from);
  }

  // ----- what a stop can and cannot prevent -----

  /** Automatic restarts are off and no thread is about to switch them on again. */
  predicate Quiet(s: State) {
    && !s.sh.flags.auto
    && (forall k | 0 <= k < |s.clients| :: StoreAuto(true) !in s.clients[k])
    && (s.worker.FinalStop? ==> StoreAuto(true) !in s.worker.left)
  }

  predicate NoStarts(labels: seq<Label>) {
    Invoke(Start) !in labels && Invoke(Restart) !in labels
  }

  /** The worker has read automatic restarts as on, and no quit will turn it back. */
  predicate Committed(s: State) {
    InSpawn(s.worker) && (s.worker.LoadQuitToStart? ==> !s.sh.flags.quit)
  }

  lemma QuietAct(sh: Shared, a: Action)
    requires !sh.flags.auto && a != StoreAuto(true)
    ensures var (sh', more) := Act(sh, a);
            && !sh'.flags.auto && StoreAuto(true) !in more
            && sh'.proc.spawned == sh.proc.spawned && sh'.proc.live <= sh.proc.live && (sh.flags.quit ==> sh'.flags.quit)
  {
  }

  lemma QuietMove(sh: Shared, pc: Pc, now: int, created: Option<Pid>)
    requires !sh.flags.auto && !pc.FinalStop? && (!InSpawn(pc) || (pc.LoadQuitToStart? && sh.flags.quit))
    requires WorkerMove(sh, pc, now, created).Some?
    ensures var (sh', pc') := WorkerMove(sh, pc, now, created).value;
            && !sh'.flags.auto && !InSpawn(pc') && sh'.proc.spawned == sh.proc.spawned && sh'.proc.live <= sh.proc.live
            && (pc'.FinalStop? ==> pc'.left == Program(Stop))
  {
  }

  lemma QuietStep(s: State, l: Label)
    requires Quiet(s) && !Committed(s) && l != Invoke(Start) && l != Invoke(Restart) && Step(s, l).Some?
    ensures var s' := Step(s, l).value;
            && Quiet(s') && !Committed(s')
            && s'.sh.proc.spawned == s.sh.proc.spawned && s'.sh.proc.live <= s.sh.proc.live
  {
    match l
    case Client(k) =>
      assert s.clients[k][0] in s.clients[k];
      QuietAct(s.sh, s.clients[k][0]);
    case Worker(now, created) =>
      if !s.worker.FinalStop? {
        QuietMove(s.sh, s.worker, now, created);
      } else if s.worker.left != [] {
        assert s.worker.left[0] in s.worker.left;
        QuietAct(s.sh, s.worker.left[0]);
      }
    case _ =>
  }

  lemma {:induction false} QuietRun(s: State, labels: seq<Label>)
    requires Quiet(s) && !Committed(s) && NoStarts(labels) && RunFrom(s, labels).Some?
    ensures var p := RunFrom(s, labels).value.sh.proc; p.spawned == s.sh.proc.spawned && p.live <= s.sh.proc.live
    decreases |labels|
  {
    if labels != [] {
      assert labels[0] in labels && forall l | l in labels[1..] :: l in labels;
      QuietStep(s, labels[0]);
      QuietRun(Step(s, labels[0]).value, labels[1..]);
    }
  }

  /** Only the worker and its surroundings move. */
  ghost predicate NoCalls(labels: seq<Label>) { forall l | l in labels :: !l.Invoke? && !l.Client? }

  function StepsToSpawn(s: State): nat {
    match s.worker
    case LoadQuitToStart => 5
    case MarkStarting => 4
    case ClearStopChild => 3
    case JoinBeforeSpawn => if s.sh.proc.reader then 2 else 1
    case _ => 0
  }

  lemma {:induction false} CommittedSpawns(policy: Gate.Policy, s: State) returns (labels: seq<Label>)
    requires Inv(policy, s) && Committed(s)
    ensures NoCalls(labels) && RunFrom(s, labels).Some?
    ensures var s' := RunFrom(s, labels).value;
            && s'.sh.proc.spawned == s.sh.proc.spawned + 1 && s'.sh.proc.live != {}
            && s'.sh.breaker == s.sh.breaker && s'.clients == s.clients
    decreases StepsToSpawn(s)
  {
    var l := if s.worker.JoinBeforeSpawn? && s.sh.proc.reader then ReaderEnds else Worker(0, Some(1));
    var s' := Step(s, l).value;
    var rest := [];
    if !s.worker.Create? {
      StepKeepsInv(policy, s, l);
      rest := CommittedSpawns(policy, s');
    }
    labels := [l] + rest;
    assert labels[1..] == rest;
  }

  ghost predicate CanSpawnUnasked(s: State) {
    exists labels :: NoStarts(labels) && RunFrom(s, labels).Some? &&
                     RunFrom(s, labels).value.sh.proc.spawned > s.sh.proc.spawned
  }

  /** Once automatic restarts are off, and without another start or restart, a process can
      still be created exactly when the worker was already past its own check of the flag. */
  lemma SpawnAfterStopIff(policy: Gate.Policy, s: State)
    requires Inv(policy, s) && Quiet(s)
    ensures CanSpawnUnasked(s) <==> Committed(s)
  {
    if Committed(s) {
      var labels := CommittedSpawns(policy, s);
    } else if CanSpawnUnasked(s) {
      var labels :| NoStarts(labels) && RunFrom(s, labels).Some? &&
                    RunFrom(s, labels).value.sh.proc.spawned > s.sh.proc.spawned;
      QuietRun(s, labels);
    }
  }

  lemma {:induction false} RunConcat(s: State, a: seq<Label>, b: seq<Label>)
    requires RunFrom(s, a).Some?
    ensures RunFrom(s, a + b) == RunFrom(RunFrom(s, a).value, b)
    decreases |a|
  {
    if a == [] {
      assert a + b == b;
    } else {
      assert (a + b)[1..] == a[1..] + b;
      RunConcat(Step(s, a[0]).value, a[1..], b);
    }
  }

  const W: Label := Worker(0, Some(7))

  /** A stop that comes too late: a whole stop call runs, after which the worker still
      starts an engine that nothing has asked for. */
  lemma LateStop(policy: Gate.Policy) returns (before: seq<Label>, stop: seq<Label>, after: seq<Label>)
    ensures stop == [Invoke(Stop), Client(0), Client(0), Client(0)] && NoStarts(before + stop + after)
    ensures RunFrom(Init(policy), before + stop + after).Some?
    ensures var s := RunFrom(Init(policy), before + stop + after).value;
            s.clients == [[]] && !s.sh.flags.auto && s.sh.proc.st.Running? && s.sh.proc.live == {7}
  {
    before, stop, after := [W, W, W, W, W], [Invoke(Stop), Client(0), Client(0), Client(0)], [W, W, W, W, W];
    var sh := Init(policy).sh;
    var s1 := State(sh, MarkStarting, []);
    assert RunFrom(Init(policy), before) == Some(s1) by { FiveMoves(policy); }
    var sh2 := sh.(flags := Flags(false, false, true));
    var s2 := State(sh2, MarkStarting, [[]]);
    assert RunFrom(s1, stop) == Some(s2) by { WholeStop(s1); }
    RunConcat(Init(policy), before, stop);
    RunConcat(Init(policy), before + stop, after);
    SpawnMoves(s2);
  }

  lemma FiveMoves(policy: Gate.Policy)
    ensures RunFrom(Init(policy), [W, W, W, W, W]) == Some(State(Init(policy).sh, MarkStarting, []))
  {
    var s := Init(policy);
    assert Step(s, W).value == s.(worker := ReadHandle);
    assert Step(s.(worker := ReadHandle), W).value == s.(worker := ReadHalted);
    assert Step(s.(worker := ReadHalted), W).value == s.(worker := LoadAutoToStart(false));
    assert Step(s.(worker := LoadAutoToStart(false)), W).value == s.(worker := LoadQuitToStart);
    assert Step(s.(worker := LoadQuitToStart), W).value == s.(worker := MarkStarting);
    assert [W, W, W, W, W][1..] == [W, W, W, W] && [W, W, W, W][1..] == [W, W, W] && [W, W, W][1..] == [W, W] && [W, W][1..] == [W];
    assert RunFrom(s.(worker := LoadQuitToStart), [W]) == Some(s.(worker := MarkStarting));
    assert RunFrom(s.(worker := LoadAutoToStart(false)), [W, W]) == Some(s.(worker := MarkStarting));
    assert RunFrom(s.(worker := ReadHalted), [W, W, W]) == Some(s.(worker := MarkStarting));
    assert RunFrom(s.(worker := ReadHandle), [W, W, W, W]) == Some(s.(worker := MarkStarting));
  }

  lemma WholeStop(s: State)
    requires s.clients == [] && s.sh.proc.handle.None? && s.sh.proc.st.Stopped? && !s.sh.proc.ready
    ensures RunFrom(s, [Invoke(Stop), Client(0), Client(0), Client(0)]) ==
            Some(s.(sh := s.sh.(flags := s.sh.flags.(auto := false, stopChild := true)), clients := [[]]))
  {
    var c := Client(0);
    var s1 := s.(clients := [[StoreAuto(false), StoreStopChild, MarkStopping]]);
    var s2 := s.(sh := s.sh.(flags := s.sh.flags.(auto := false)), clients := [[StoreStopChild, MarkStopping]]);
    var s3 := s.(sh := s.sh.(flags := s.sh.flags.(auto := false, stopChild := true)), clients := [[MarkStopping]]);
    var s4 := s3.(clients := [[]]);
    assert s.clients + [Program(Stop)] == s1.clients;
    assert [] + s1.clients[0][1..] == s2.clients[0] && s1.clients[0 := s2.clients[0]] == s2.clients;
    assert [] + s2.clients[0][1..] == s3.clients[0] && s2.clients[0 := s3.clients[0]] == s3.clients;
    assert [] + s3.clients[0][1..] == [] && s3.clients[0 := []] == s4.clients;
    assert Step(s, Invoke(Stop)) == Some(s1);
    assert Step(s1, c) == Some(s2);
    assert Step(s2, c) == Some(s3);
    assert Step(s3, c) == Some(s4);
    assert [Invoke(Stop), c, c, c][1..] == [c, c, c] && [c, c, c][1..] == [c, c] && [c, c][1..] == [c];
    assert RunFrom(s3, [c]) == Some(s4);
    assert RunFrom(s2, [c, c]) == Some(s4);
    assert RunFrom(s1, [c, c, c]) == Some(s4);
  }

  lemma RunStep(s: State, l: Label, rest: seq<Label>)
    requires Step(s, l).Some?
    ensures RunFrom(s, [l] + rest) == RunFrom(Step(s, l).value, rest)
  {
    assert ([l] + rest)[1..] == rest;
  }

  lemma SpawnMoves(s: State)
    requires s.worker.MarkStarting? && s.sh.proc.live == {} && !s.sh.proc.reader
    ensures RunFrom(s, [W, W, W, W, W]).Some?
    ensures var s' := RunFrom(s, [W, W, W, W, W]).value;
            s'.clients == s.clients && s'.sh.flags.auto == s.sh.flags.auto && s'.sh.proc.st.Running? && s'.sh.proc.live == {7}
  {
    var s3 := ThreeSpawnMoves(s);
    var s4 := Step(s3, W).value;
    RunStep(s3, W, [W]);
    RunStep(s4, W, []);
    assert [W] + [] == [W] && [W] + [W] == [W, W];
  }

  lemma ThreeSpawnMoves(s: State) returns (s3: State)
    requires s.worker.MarkStarting? && s.sh.proc.live == {} && !s.sh.proc.reader
    ensures RunFrom(s, [W, W, W, W, W]) == RunFrom(s3, [W, W])
    ensures s3.worker.Create? && s3.sh.proc.live == {} && s3.clients == s.clients && s3.sh.flags.auto == s.sh.flags.auto
  {
    var s1 := Step(s, W).value;
    var s2 := Step(s1, W).value;
    s3 := Step(s2, W).value;
    RunStep(s, W, [W, W, W, W]);
    RunStep(s1, W, [W, W, W]);
    RunStep(s2, W, [W, W]);
    assert [W] + [W, W] == [W, W, W] && [W] + [W, W, W] == [W, W, W, W] && [W] + [W, W, W, W] == [W, W, W, W, W];
  }
}
