/** What the calls that end an engine achieve, in every interleaving: a finished stop or restart
    has ended the process it found, a finished supervisor leaves none behind, and a restart brings
    the engine back. */
module EngineStop {
  import opened Wrappers
  import opened EngineChild
  import Gate = RestartGate

  // ----- one thread among the others -----

  /** How many steps thread `k` takes. */
  function Steps(labels: seq<Label>, k: nat): nat
    decreases |labels|
  {
    if labels == [] then 0 else (if labels[0] == Client(k) then 1 else 0) + Steps(labels[1..], k)
  }

  /** No new process gets the number `p`. */
  ghost predicate NotCreated(labels: seq<Label>, p: Pid) {
    forall l | l in labels && l.Worker? :: l.created != Some(p)
  }

  lemma OtherStep(s: State, l: Label, k: nat)
    requires k < |s.clients| && l != Client(k) && Step(s, l).Some?
    ensures var s' := Step(s, l).value; k < |s'.clients| && s'.clients[k] == s.clients[k]
  {
  }

  lemma GoneStep(s: State, l: Label, p: Pid)
    requires Step(s, l).Some? && p !in s.sh.proc.live && (l.Worker? ==> l.created != Some(p))
    ensures p !in Step(s, l).value.sh.proc.live
  {
  }

  lemma {:induction false} GoneStays(s: State, labels: seq<Label>, p: Pid)
    requires RunFrom(s, labels).Some? && p !in s.sh.proc.live && NotCreated(labels, p)
    ensures p !in RunFrom(s, labels).value.sh.proc.live
    decreases |labels|
  {
    if labels != [] {
      assert labels[0] in labels && forall l | l in labels[1..] :: l in labels;
      GoneStep(s, labels[0], p);
      GoneStays(Step(s, labels[0]).value, labels[1..], p);
    }
  }

  /** A thread with nothing left to do stays so and takes no step. */
  lemma {:induction false} DoneStays(s: State, labels: seq<Label>, k: nat)
    requires RunFrom(s, labels).Some? && k < |s.clients| && s.clients[k] == []
    ensures var s' := RunFrom(s, labels).value; k < |s'.clients| && s'.clients[k] == [] && Steps(labels, k) == 0
    decreases |labels|
  {
    if labels != [] {
      OtherStep(s, labels[0], k);
      DoneStays(Step(s, labels[0]).value, labels[1..], k);
    }
  }

  /** A thread that only has to end `p` is done exactly when it has taken one more step, and `p`
      has then ended. */
  lemma {:induction false} EndsIt(s: State, labels: seq<Label>, k: nat, p: Pid)
    requires RunFrom(s, labels).Some? && k < |s.clients| && s.clients[k] == [Terminate(p)] && NotCreated(labels, p)
    ensures var s' := RunFrom(s, labels).value;
            && k < |s'.clients| && Steps(labels, k) <= 1 && (s'.clients[k] == [] <==> Steps(labels, k) == 1)
            && (s'.clients[k] == [] ==> p !in s'.sh.proc.live)
    decreases |labels|
  {
    if labels != [] {
      assert labels[0] in labels && forall l | l in labels[1..] :: l in labels;
      var s' := Step(s, labels[0]).value;
      if labels[0] == Client(k) {
        assert s'.clients[k] == [] + s.clients[k][1..];
        DoneStays(s', labels[1..], k);
        GoneStays(s', labels[1..], p);
      } else {
        OtherStep(s, labels[0], k);
        EndsIt(s', labels[1..], k, p);
      }
    }
  }

  // ----- stop and restart -----

  /** Plain stores: nothing is added to what the thread has to do. */
  predicate Plain(a: Action) { a.StoreAuto? || a.StoreStopChild? }

  /** After `Steps` plain actions of the thread the rest of its program is left. */
  lemma {:induction false} PlainSteps(s: State, labels: seq<Label>, k: nat, n: nat)
    requires RunFrom(s, labels).Some? && k < |s.clients| && Steps(labels, k) <= n <= |s.clients[k]|
    requires forall i | 0 <= i < n :: Plain(s.clients[k][i])
    ensures var s' := RunFrom(s, labels).value;
            k < |s'.clients| && s'.clients[k] == s.clients[k][Steps(labels, k)..]
    decreases |labels|
  {
    if labels != [] {
      var s' := Step(s, labels[0]).value;
      if labels[0] == Client(k) {
        assert s'.clients[k] == [] + s.clients[k][1..];
        PlainSteps(s', labels[1..], k, n - 1);
        assert s.clients[k][1..][Steps(labels[1..], k)..] == s.clients[k][Steps(labels, k)..];
      } else {
        OtherStep(s, labels[0], k);
        PlainSteps(s', labels[1..], k, n);
      }
    }
  }

  predicate Ends(call: Call) { call.Stop? || call.Restart? }

  /** A thread that has entered such a call and taken its first two steps is about to take the
      locked one. */
  lemma BeforeLocked(s: State, call: Call, a: seq<Label>)
    requires Ends(call) && RunFrom(s, [Invoke(call)] + a).Some? && Steps(a, |s.clients|) == 2
    ensures var s' := RunFrom(s, [Invoke(call)] + a).value; var k := |s.clients|;
            k < |s'.clients| && s'.clients[k] == [if call.Stop? then MarkStopping else ResetForRestart]
  {
    var entered := Step(s, Invoke(call)).value;
    RunStep(s, Invoke(call), a);
    PlainSteps(entered, a, |s.clients|, 2);
  }

  lemma AfterLocked(s: State, call: Call, b: seq<Label>, k: nat)
    requires Ends(call) && k < |s.clients| && RunFrom(s, [Client(k)] + b).Some?
    requires s.clients[k] == [if call.Stop? then MarkStopping else ResetForRestart]
    requires s.sh.proc.handle.Some? ==> NotCreated(b, s.sh.proc.handle.value)
    ensures var s' := RunFrom(s, [Client(k)] + b).value;
            && k < |s'.clients|
            && (s.sh.proc.handle.None? ==> s'.clients[k] == [] && Steps(b, k) == 0)
            && (s.sh.proc.handle.Some? ==>
                  && (s'.clients[k] == [] <==> Steps(b, k) == 1)
                  && (s'.clients[k] == [] ==> s.sh.proc.handle.value !in s'.sh.proc.live))
  {
    RunStep(s, Client(k), b);
    var s1 := Step(s, Client(k)).value;
    if s.sh.proc.handle.Some? {
      var p := s.sh.proc.handle.value;
      assert s1.clients[k] == [Terminate(p)] + s.clients[k][1..];
      EndsIt(s1, b, k, p);
    } else {
      DoneStays(s1, b, k);
    }
  }

  /** Over every interleaving: when a stop or restart call is done, the process its locked section
      found is not alive, unless its number was given to a new one since; and the call takes four
      steps if it found one and three if not. */
  lemma CallEndsProcess(s: State, call: Call, a: seq<Label>, b: seq<Label>)
    requires Ends(call) && Steps(a, |s.clients|) == 2
    requires RunFrom(s, [Invoke(call)] + a).Some?
    requires RunFrom(RunFrom(s, [Invoke(call)] + a).value, [Client(|s.clients|)] + b).Some?
    requires var found := RunFrom(s, [Invoke(call)] + a).value.sh.proc.handle;
             found.Some? ==> NotCreated(b, found.value)
    ensures var found := RunFrom(s, [Invoke(call)] + a).value.sh.proc.handle;
            var s' := RunFrom(RunFrom(s, [Invoke(call)] + a).value, [Client(|s.clients|)] + b).value;
            var k := |s.clients|;
            && k < |s'.clients|
            && (s'.clients[k] == [] <==> Steps(b, k) == if found.Some? then 1 else 0)
            && (s'.clients[k] == [] && found.Some? ==> found.value !in s'.sh.proc.live)
  {
    BeforeLocked(s, call, a);
    AfterLocked(RunFrom(s, [Invoke(call)] + a).value, call, b, |s.clients|);
  }

  // ----- the health check -----

  /** The probe that reaches the threshold while automatic restarts are on. */
  predicate Alarms(sh: Shared, status: int) {
    && status != 200 && (status == 503 || sh.proc.ready) && sh.flags.auto
    && sh.breaker.gate.healthFails + 1 >= sh.breaker.gate.policy.healthFailThreshold
  }

  lemma ProbeStep(s: State, status: int, k: nat)
    requires k < |s.clients| && s.clients[k] == [Health(status)]
    ensures var left := Step(s, Client(k)).value.clients[k];
            left == if Alarms(s.sh, status) then Program(Restart) else []
  {
    assert Program(Restart) + [] == Program(Restart);
  }

  /** A probe is done with its one step unless it is the one that alarms; that one goes on like a
      restart, and when it is done the process it found is not alive. */
  lemma AlarmEndsProcess(s: State, status: int, a: seq<Label>, b: seq<Label>, k: nat)
    requires k < |s.clients| && s.clients[k] == [Health(status)]
    requires RunFrom(s, [Client(k)] + a).Some?
    ensures !Alarms(s.sh, status) ==>
              var s' := RunFrom(s, [Client(k)] + a).value; k < |s'.clients| && s'.clients[k] == [] && Steps(a, k) == 0
    ensures var s1 := RunFrom(s, [Client(k)] + a).value;
            && Alarms(s.sh, status) && Steps(a, k) == 2 && RunFrom(s1, [Client(k)] + b).Some?
            && s1.sh.proc.handle.Some? && NotCreated(b, s1.sh.proc.handle.value) ==>
              var s' := RunFrom(s1, [Client(k)] + b).value;
              && k < |s'.clients| && (s'.clients[k] == [] <==> Steps(b, k) == 1)
              && (s'.clients[k] == [] ==> s1.sh.proc.handle.value !in s'.sh.proc.live)
  {
    var s0 := Step(s, Client(k)).value;
    RunStep(s, Client(k), a);
    ProbeStep(s, status, k);
    if !Alarms(s.sh, status) {
      DoneStays(s0, a, k);
    } else if Steps(a, k) == 2 {
      PlainSteps(s0, a, k, 2);
      var s1 := RunFrom(s, [Client(k)] + a).value;
      if RunFrom(s1, [Client(k)] + b).Some? && s1.sh.proc.handle.Some? && NotCreated(b, s1.sh.proc.handle.value) {
        AfterLocked(s1, Restart, b, k);
      }
    }
  }

  /** A thread that has entered observe_health waits with its one step. */
  lemma ProbeWaits(s: State, status: int, a: seq<Label>)
    requires RunFrom(s, [Invoke(ObserveHealth(status))] + a).Some? && Steps(a, |s.clients|) == 0
    ensures var s' := RunFrom(s, [Invoke(ObserveHealth(status))] + a).value;
            |s.clients| < |s'.clients| && s'.clients[|s.clients|] == [Health(status)]
  {
    RunStep(s, Invoke(ObserveHealth(status)), a);
    PlainSteps(Step(s, Invoke(ObserveHealth(status))).value, a, |s.clients|, 0);
  }

  // ----- the end of the supervisor -----

  /** The worker's own stop has ended what it held by the time it is done. */
  predicate FinalOk(p: Process, pc: Pc) {
    && (pc.Ended? ==> p.live == {})
    && (pc.FinalStop? ==>
          || pc.left == [StoreAuto(false), StoreStopChild, MarkStopping]
          || pc.left == [StoreStopChild, MarkStopping]
          || pc.left == [MarkStopping]
          || (p.handle.Some? && pc.left == [Terminate(p.handle.value)])
          || (pc.left == [] && p.live == {}))
  }

  lemma ActShrinks(sh: Shared, a: Action)
    ensures var p := Act(sh, a).0.proc; p.live <= sh.proc.live && p.handle == sh.proc.handle
  {
  }

  lemma FinalMove(policy: Gate.Policy, s: State, now: int, created: Option<Pid>)
    requires Inv(policy, s) && FinalOk(s.sh.proc, s.worker) && s.worker.FinalStop? && s.worker.left != []
    requires StepWorker(s, now, created).Some?
    ensures var s' := StepWorker(s, now, created).value; FinalOk(s'.sh.proc, s'.worker)
  {
    var left := s.worker.left;
    assert [] + left[1..] == left[1..];
    if left == [MarkStopping] && s.sh.proc.handle.Some? {
      assert [Terminate(s.sh.proc.handle.value)] + left[1..] == [Terminate(s.sh.proc.handle.value)];
    }
  }

  lemma StepKeepsFinal(policy: Gate.Policy, s: State, l: Label)
    requires Inv(policy, s) && FinalOk(s.sh.proc, s.worker) && Step(s, l).Some?
    ensures var s' := Step(s, l).value; FinalOk(s'.sh.proc, s'.worker)
  {
    match l
    case Client(k) => ActShrinks(s.sh, s.clients[k][0]);
    case Worker(now, created) =>
      if s.worker.FinalStop? && s.worker.left != [] { FinalMove(policy, s, now, created); }
    case _ =>
  }

  lemma {:induction false} RunKeepsFinal(policy: Gate.Policy, s: State, labels: seq<Label>)
    requires Inv(policy, s) && FinalOk(s.sh.proc, s.worker) && RunFrom(s, labels).Some?
    ensures var s' := RunFrom(s, labels).value; FinalOk(s'.sh.proc, s'.worker)
    decreases |labels|
  {
    if labels != [] {
      StepKeepsInv(policy, s, labels[0]);
      StepKeepsFinal(policy, s, labels[0]);
      RunKeepsFinal(policy, Step(s, labels[0]).value, labels[1..]);
    }
  }

  /** In every interleaving: when the worker has ended, no engine process is alive. */
  lemma EndedLeavesNone(policy: Gate.Policy, labels: seq<Label>)
    requires RunFrom(Init(policy), labels).Some? && RunFrom(Init(policy), labels).value.worker.Ended?
    ensures RunFrom(Init(policy), labels).value.sh.proc.live == {}
  {
    RunKeepsFinal(policy, Init(policy), labels);
  }

  // ----- exactly when a stop leaves an engine running -----

  /** Some run without another start ends with the call done and an engine alive. */
  ghost predicate CanLiveOn(s: State, k: nat) {
    exists b :: NoStarts(b) && RunFrom(s, [Client(k)] + b).Some? && LivesOn(RunFrom(s, [Client(k)] + b).value, k)
  }

  predicate LivesOn(s: State, k: nat) { k < |s.clients| && s.clients[k] == [] && s.sh.proc.live != {} }

  /** A process exists that the worker has not recorded yet. */
  predicate Unrecorded(s: State) { s.worker.Publish? && s.worker.created in s.sh.proc.live }

  lemma LockedStep(s: State, k: nat)
    requires k < |s.clients| && s.clients[k] == [MarkStopping] && Quiet(s)
    ensures Step(s, Client(k)).Some?
    ensures var s' := Step(s, Client(k)).value;
            && Quiet(s') && s'.worker == s.worker && s'.sh.flags == s.sh.flags && s'.sh.proc.live == s.sh.proc.live
            && s'.clients[k] == if s.sh.proc.handle.Some? then [Terminate(s.sh.proc.handle.value)] else []
  {
    assert s.clients[k][1..] == [];
  }

  lemma CanLive(policy: Gate.Policy, s: State, k: nat)
    requires Inv(policy, s) && Quiet(s) && k < |s.clients| && s.clients[k] == [MarkStopping]
    requires Committed(s) || Unrecorded(s)
    ensures CanLiveOn(s, k)
  {
    LockedStep(s, k);
    StepKeepsInv(policy, s, Client(k));
    var s' := Step(s, Client(k)).value;
    var b := [];
    if Committed(s) { b := CommittedSpawns(policy, s'); }
    RunStep(s, Client(k), b);
    assert NoStarts(b) && LivesOn(RunFrom(s, [Client(k)] + b).value, k);
  }

  lemma CannotLive(policy: Gate.Policy, s: State, k: nat, b: seq<Label>)
    requires Inv(policy, s) && Quiet(s) && k < |s.clients| && s.clients[k] == [MarkStopping]
    requires !Committed(s) && !Unrecorded(s) && NoStarts(b) && RunFrom(s, [Client(k)] + b).Some?
    ensures !LivesOn(RunFrom(s, [Client(k)] + b).value, k)
  {
    LockedStep(s, k);
    RunStep(s, Client(k), b);
    var s1 := Step(s, Client(k)).value;
    QuietRun(s1, b);
    if s.sh.proc.handle.Some? {
      var p := s.sh.proc.handle.value;
      assert s.sh.proc.live <= {p};
      if p in RunFrom(s1, b).value.sh.proc.live { EndsQuietly(s1, b, k, p); }
    }
  }

  /** Without new processes the thread's last step ends `p` for good. */
  lemma {:induction false} EndsQuietly(s: State, labels: seq<Label>, k: nat, p: Pid)
    requires Quiet(s) && !Committed(s) && NoStarts(labels) && RunFrom(s, labels).Some?
    requires k < |s.clients| && s.clients[k] == [Terminate(p)]
    ensures var s' := RunFrom(s, labels).value;
            k < |s'.clients| && (s'.clients[k] == [] ==> p !in s'.sh.proc.live)
    decreases |labels|
  {
    if labels != [] {
      assert labels[0] in labels && forall l | l in labels[1..] :: l in labels;
      var s' := Step(s, labels[0]).value;
      QuietStep(s, labels[0]);
      if labels[0] == Client(k) {
        assert s'.clients[k] == [] + s.clients[k][1..];
        DoneStays(s', labels[1..], k);
        QuietRun(s', labels[1..]);
      } else {
        OtherStep(s, labels[0], k);
        EndsQuietly(s', labels[1..], k, p);
      }
    }
  }

  /** A stop call about to take its locked section, with automatic restarts off and no start to
      come: an engine can be alive when the call is done exactly when the worker was already
      committed to creating one, or had created one and not recorded it yet. */
  lemma LiveAfterStopIff(policy: Gate.Policy, s: State, k: nat)
    requires Inv(policy, s) && Quiet(s) && k < |s.clients| && s.clients[k] == [MarkStopping]
    ensures CanLiveOn(s, k) <==> Committed(s) || Unrecorded(s)
  {
    if Committed(s) || Unrecorded(s) {
      CanLive(policy, s, k);
    } else if CanLiveOn(s, k) {
      var b :| NoStarts(b) && RunFrom(s, [Client(k)] + b).Some? && LivesOn(RunFrom(s, [Client(k)] + b).value, k);
      CannotLive(policy, s, k, b);
    }
  }

  // ----- an exit nobody asked for is counted -----

  /** The engine runs, or has exited and the worker is on its way to report that. */
  predicate Crashing(s: State) {
    && s.sh.flags.auto && !s.sh.flags.quit
    && match s.worker
       case Waiting(_) => !s.sh.flags.stopChild
       case Reap(_) => !s.sh.flags.stopChild
       case JoinAfterExit => !s.sh.flags.stopChild
       case ExchangeStop => !s.sh.flags.stopChild
       case LoadQuit(intentional) => !intentional
       case LoadAuto(intentional) => !intentional
       case NoteExit => true
       case _ => false
  }

  predicate Counted(s: State, n: nat) { |s.sh.breaker.calls| > n && s.sh.breaker.calls[n].NoteExit? }

  lemma CallsGrow(s: State, l: Label)
    requires Step(s, l).Some?
    ensures s.sh.breaker.calls <= Step(s, l).value.sh.breaker.calls
  {
  }

  lemma CrashStep(s: State, l: Label)
    requires Crashing(s) && Step(s, l).Some? && !l.Invoke? && !l.Client?
    ensures var s' := Step(s, l).value;
            && s'.sh.proc.spawned == s.sh.proc.spawned
            && (Counted(s', |s.sh.breaker.calls|) || (Crashing(s') && s'.sh.breaker == s.sh.breaker))
  {
  }

  lemma {:induction false} CountedStays(s: State, labels: seq<Label>, n: nat)
    requires Counted(s, n) && RunFrom(s, labels).Some?
    ensures Counted(RunFrom(s, labels).value, n)
    decreases |labels|
  {
    if labels != [] {
      CallsGrow(s, labels[0]);
      CountedStays(Step(s, labels[0]).value, labels[1..], n);
    }
  }

  /** Over every run without calls: while automatic restarts are on and nothing has asked the engine
      to stop, no other engine is created before its exit has been reported to the breaker. */
  lemma {:induction false} CrashIsCounted(s: State, labels: seq<Label>)
    requires Crashing(s) && NoCalls(labels) && RunFrom(s, labels).Some?
    ensures var s' := RunFrom(s, labels).value;
            s'.sh.proc.spawned == s.sh.proc.spawned || Counted(s', |s.sh.breaker.calls|)
    decreases |labels|
  {
    if labels != [] {
      assert labels[0] in labels && forall l | l in labels[1..] :: l in labels;
      CrashStep(s, labels[0]);
      var s' := Step(s, labels[0]).value;
      if Counted(s', |s.sh.breaker.calls|) {
        CountedStays(s', labels[1..], |s.sh.breaker.calls|);
      } else {
        CrashIsCounted(s', labels[1..]);
      }
    }
  }

  /** An exit that fills the breaker's window is reported, shown as halted, and switches automatic
      restarts off; any other leads to the back-off with them still on. */
  lemma ReportedExit(s: State, now: int)
    requires s.worker.NoteExit? && now >= s.sh.breaker.clock && !s.sh.breaker.gate.halted && s.sh.flags.auto
    ensures var run := [Worker(now, None), Worker(now, None)];
            && RunFrom(s, run).Some?
            && var s', exits := RunFrom(s, run).value, Gate.DropOld(s.sh.breaker.gate.exits, now, s.sh.breaker.gate.policy.window);
               if |exits| + 1 >= s.sh.breaker.gate.policy.crashLoopMax
               then s'.sh.proc.st.Halted? && !s'.sh.flags.auto && s'.worker.Head? && s'.sh.breaker.gate.halted
               else s'.worker.BackOff? && s'.sh.flags.auto && !s'.sh.breaker.gate.halted
  {
    var w := Worker(now, None);
    var s1 := Step(s, w).value;
    RunStep(s1, w, []);
    RunStep(s, w, [w] + []);
    assert [w] + ([w] + []) == [w, w];
  }

  // ----- a restart brings the engine back -----

  /** On the way from a requested exit to the next start. */
  predicate Returning(s: State) {
    && s.sh.flags.auto && !s.sh.flags.quit && !s.sh.breaker.gate.halted
    && match s.worker
       case Waiting(_) => s.sh.flags.stopChild
       case Reap(_) => s.sh.flags.stopChild
       case JoinAfterExit => s.sh.flags.stopChild
       case ExchangeStop => s.sh.flags.stopChild
       case LoadQuit(intentional) => intentional
       case LoadAuto(intentional) => intentional
       case Head => s.sh.proc.handle.None?
       case ReadHandle => s.sh.proc.handle.None?
       case ReadHalted => true
       case LoadAutoToStart(halted) => !halted
       case _ => false
  }

  function Distance(s: State): nat {
    match s.worker
    case Waiting(p) => if p in s.sh.proc.live then 12 else 11
    case Reap(_) => 10
    case JoinAfterExit => if s.sh.proc.reader then 9 else 8
    case ExchangeStop => 7
    case LoadQuit(_) => 6
    case LoadAuto(_) => 5
    case Head => 4
    case ReadHandle => 3
    case ReadHalted => 2
    case LoadAutoToStart(_) => 1
    case _ => 0
  }

  function ReturnLabel(s: State): Label {
    if s.worker.Waiting? && s.worker.waitFor in s.sh.proc.live then ProcessExits(s.worker.waitFor)
    else if s.worker.JoinAfterExit? && s.sh.proc.reader then ReaderEnds
    else Worker(0, None)
  }

  lemma ReturnStep(policy: Gate.Policy, s: State)
    requires Inv(policy, s) && Returning(s)
    ensures Step(s, ReturnLabel(s)).Some?
    ensures var s' := Step(s, ReturnLabel(s)).value;
            && (Committed(s') || (Returning(s') && Distance(s') < Distance(s)))
            && s'.sh.breaker == s.sh.breaker && s'.sh.proc.spawned == s.sh.proc.spawned && s'.clients == s.clients
  {
  }

  lemma {:induction false} ReturningSpawns(policy: Gate.Policy, s: State) returns (labels: seq<Label>)
    requires Inv(policy, s) && Returning(s)
    ensures NoCalls(labels) && RunFrom(s, labels).Some?
    ensures var s' := RunFrom(s, labels).value;
            && s'.sh.proc.spawned == s.sh.proc.spawned + 1 && s'.sh.proc.live != {}
            && s'.sh.breaker == s.sh.breaker && s'.clients == s.clients
    decreases Distance(s)
  {
    var l := ReturnLabel(s);
    ReturnStep(policy, s);
    StepKeepsInv(policy, s, l);
    var s' := Step(s, l).value;
    var rest;
    if Committed(s') { rest := CommittedSpawns(policy, s'); } else { rest := ReturningSpawns(policy, s'); }
    labels := [l] + rest;
    RunStep(s, l, rest);
  }

  /** The newest thread takes its next action. */
  lemma LastThread(s: State, before: seq<seq<Action>>, acts: seq<Action>, after: seq<Action>)
    requires s.clients == before + [acts] && acts != [] && after == Act(s.sh, acts[0]).1 + acts[1..]
    ensures Step(s, Client(|before|)) == Some(s.(sh := Act(s.sh, acts[0]).0, clients := before + [after]))
  {
    assert s.clients[|before| := after] == before + [after];
  }

  lemma RunFive(s: State, l: Label, c: Label, s1: State, s2: State, s3: State, s4: State, s5: State)
    requires Step(s, l) == Some(s1) && Step(s1, c) == Some(s2) && Step(s2, c) == Some(s3)
    requires Step(s3, c) == Some(s4) && Step(s4, c) == Some(s5)
    ensures RunFrom(s, [l, c, c, c, c]) == Some(s5)
  {
    RunStep(s4, c, []);
    RunStep(s3, c, [c] + []);
    RunStep(s2, c, [c] + ([c] + []));
    RunStep(s1, c, [c] + ([c] + ([c] + [])));
    RunStep(s, l, [c] + ([c] + ([c] + ([c] + []))));
    assert [l] + ([c] + ([c] + ([c] + ([c] + [])))) == [l, c, c, c, c];
  }

  /** What a whole restart call does to a recorded engine when nothing comes between. */
  lemma RestartSteps(s: State, k: nat, p: Pid)
    requires k == |s.clients| && s.sh.proc.handle == Some(p)
    ensures RunFrom(s, [Invoke(Restart), Client(k), Client(k), Client(k), Client(k)]) ==
            Some(State(Shared(s.sh.flags.(auto := true, stopChild := true), s.sh.proc.(live := s.sh.proc.live - {p}),
                              OnGate(s.sh.breaker, Gate.ResetHalt)),
                       s.worker, s.clients + [[]]))
  {
    var on, both := s.sh.flags.(auto := true), s.sh.flags.(auto := true, stopChild := true);
    var s1 := s.(clients := s.clients + [[StoreAuto(true), StoreStopChild, ResetForRestart]]);
    var s2 := s.(sh := s.sh.(flags := on), clients := s.clients + [[StoreStopChild, ResetForRestart]]);
    var s3 := s.(sh := s.sh.(flags := both), clients := s.clients + [[ResetForRestart]]);
    var reset := s3.sh.(breaker := OnGate(s.sh.breaker, Gate.ResetHalt));
    var s4 := s.(sh := reset, clients := s.clients + [[Terminate(p)]]);
    var s5 := s.(sh := reset.(proc := s.sh.proc.(live := s.sh.proc.live - {p})), clients := s.clients + [[]]);
    LastThread(s1, s.clients, [StoreAuto(true), StoreStopChild, ResetForRestart], [StoreStopChild, ResetForRestart]);
    LastThread(s2, s.clients, [StoreStopChild, ResetForRestart], [ResetForRestart]);
    LastThread(s3, s.clients, [ResetForRestart], [Terminate(p)]);
    LastThread(s4, s.clients, [Terminate(p)], []);
    RunFive(s, Invoke(Restart), Client(k), s1, s2, s3, s4, s5);
  }

  /** A restart of a running engine ends it and can start another, and the exit is not held against
      it: the breaker is told of the request and of nothing else. */
  lemma RestartBringsBack(policy: Gate.Policy, s: State) returns (labels: seq<Label>)
    requires Inv(policy, s) && s.worker.Waiting? && !s.sh.flags.quit
    ensures var k := |s.clients|;
            var run := [Invoke(Restart), Client(k), Client(k), Client(k), Client(k)];
            && NoCalls(labels) && RunFrom(s, run + labels).Some?
            && var s' := RunFrom(s, run + labels).value;
               && s'.sh.proc.spawned == s.sh.proc.spawned + 1 && s'.sh.proc.live != {}
               && s'.sh.breaker.calls == s.sh.breaker.calls + [Gate.ResetHalt]
  {
    var k := |s.clients|;
    var run := [Invoke(Restart), Client(k), Client(k), Client(k), Client(k)];
    RestartSteps(s, k, s.worker.waitFor);
    RunKeepsInv(policy, s, run);
    labels := ReturningSpawns(policy, RunFrom(s, run).value);
    RunConcat(s, run, labels);
  }
}
