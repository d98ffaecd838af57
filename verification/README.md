# Verified model of the NInfer supervisor, perplexity tool and CPU expert benchmarks

This project models the parts of the repository where a mistake is easy to make and hard to see,
and proves what they promise. Each module stands for one component:

| module | component |
|---|---|
| `WorkerPool` | the benchmark's worker threads, two barriers and atomic ticket, as interleaved steps |
| `RestartGate` | the crash-loop breaker and restart backoff |
| `EngineChild`, `EngineStop` | the supervisor's engine process: worker loop, start, stop, restart, health, as interleaved steps, and what a finished stop, restart or shutdown has achieved |
| `LinearSolve`, `SolveAccepts` | in-place Gauss-Jordan elimination, and which systems it accepts |
| `NonnegativeFit`, `FitOptimum`, `FitAccepts`, `NearlyDependent`, `WellSeparated` | the subset search of the cost-model fit, the fit against all non-negative coefficients, and points on which it does and does not find them |
| `Sha256`, `Sha256Words`, `Sha256Constants` | the corpus digest against FIPS 180-4, its operations bit by bit and its constants as roots of primes |
| `SeriesFormat`, `SeriesRing`, `SeriesFile`, `SeriesRun` | the memory series: line format, in-memory ring, file with rotation, whole runs |
| `EngineArgs` | the engine's argument vector: parse, dashboard edit, render, preset catalog |
| `KvPlan` | the KV capacity plan and how shortfalls shrink it |
| `CapacityReport` | the engine's report of a capacity that does not fit, and the supervisor's parser of it |
| `Utf8` | the corpus text check against RFC 3629 |
| `LogTail` | following the request log |
| `Inflight` | the set of unfinished requests read from the engine's output, and the idle unload |
| `BankLayout`, `RowProducts`, `ExpertPair` | the NVFP4 bank layout, its vectorised row products, and whole expert pairs with the check that compares vector and scalar code |
| `Windows` | the perplexity evaluation windows |
| `LruReplay` | the routed replay's expert cache |
| `Wrappers`, `Powers`, `Decimal`, `Text`, `Radix` | shared helpers: optional values, powers of two, decimal text, searching and trimming, positional numbers |

Code that works step by step is modelled as methods with loops, or as a class whose methods are
proved against functions on values; code made of expressions is modelled as functions; threads are
modelled as state machines whose runs are arbitrary schedules of steps, one per lock scope, atomic
access or barrier call.

What the proofs show about the code, beyond the expected:

- A `stop()` that runs while the worker is already past its own check of the restart flag does not
  prevent the engine from starting (`EngineChild.LateStop`); `EngineChild.SpawnAfterStopIff` says
  exactly when that can happen. Nor does one that runs after the process was created and before it
  is recorded end it; `EngineStop.LiveAfterStopIff` says exactly when an engine can outlive a stop.
- The comment on the in-flight cap says stopping at the cap only errs towards "busy". Past 4096
  open requests a request can be forgotten, and the engine then looks idle while it runs
  (`Inflight.CapForgets`, `Inflight.TrackingIsExactIff`).
- The KV plan can rise between two launches without a start or a configuration change. With a
  positive context this happens exactly when a launch uses arguments read before the configuration
  was replaced, those ask for less, and the plan that launch leaves does not hold the next ones down
  (`KvPlan.RisesIff`, `KvPlan.StaleReadRises`, `KvPlan.PendingHoldsDown`). With a zero context it
  can happen without such arguments (`KvPlan.ZeroFloorRisesIff`, `KvPlan.ZeroFloorSpawnRisesIff`).
- A launch between the two halves of `update_config` can leave the plan above the capacity stored
  next, and a shortfall then lowers nothing (`KvPlan.PlanAboveCapacity`);
  `KvPlan.ShortfallLowersLaunch` says exactly when one does.
- The supervisor recognises the engine's report of an explicit capacity that does not fit only when
  no slack floor was asked for (`CapacityReport.ReportIsReadIff`).
- A restart shows the newest samples exactly when the text from the oldest of them on is shorter
  than 2 MiB, or is 2 MiB long and the whole file (`SeriesRun.RestartShowsNewestIff`); one long
  event note hides a sample (`SeriesRun.LongEventHidesSample`).
- Rotation and reload disagree by one record when the rotated series file is exactly 2 MiB long
  (`SeriesFile.RotationIsInvisible`, `SeriesRun.RotationShowsInRun`).
- The series file is written in text mode, so each line takes one byte more on disk than the
  rotation counts (`SeriesRun.SizeStaysBounded`).
- Rendering and re-parsing the arguments loses a token exactly when the first positional argument is
  empty and another positional token is left over (`EngineArgs.Reparsed`,
  `EngineArgs.EmptyFirstArgument`).
- A catalog path that starts with two dashes stays the preset's artifact only under the condition of
  `EngineArgs.PresetStaysInSync`; one that is a known flag with a value leaves no arguments at all
  (`EngineArgs.ValueFlagArtifact`).
- The fit is the best of all non-negative coefficients unless the solver's pivot tolerance rejects a
  subset of independent columns (`FitOptimum.FitIsGlobalOptimum`, `NearlyDependent.FitMissesOptimum`).
- The rank-deficient error of the fit is reachable only with zero columns (`NonnegativeFit.Fit`).

## Model

| member | source | states |
|---|---|---|
| `WorkerPool.RunKeepsInv` | bench/cpu_nvfp4_expert_pair/main.cpp:609-662 | every state of every interleaving of the workers, the main thread, both barriers and the ticket satisfies the protocol invariant |
| `WorkerPool.WorkerStepKeepsInv` | bench/cpu_nvfp4_expert_pair/main.cpp:619-633 | every step of a worker keeps the invariant |
| `WorkerPool.MainStepKeepsInv` | bench/cpu_nvfp4_expert_pair/main.cpp:642-662 | every step of the main thread keeps the invariant |
| `WorkerPool.StartBarrierOpens` | bench/cpu_nvfp4_expert_pair/main.cpp:612-621 | the last arrival at the start barrier releases every worker into a fresh batch and keeps the invariant |
| `WorkerPool.DoneBarrierOpens` | bench/cpu_nvfp4_expert_pair/main.cpp:632-648 | the last arrival at the done barrier ends the batch with every pair computed and keeps the invariant |
| `WorkerPool.ExclusiveAccess` | bench/cpu_nvfp4_expert_pair/main.cpp:623-651 | the main thread resets the ticket and reads the checksums only while no worker is claiming or computing; the ticket is then exactly pairs + threads; each pair index has been claimed exactly once, in order |
| `WorkerPool.NoDeadlock` | bench/cpu_nvfp4_expert_pair/main.cpp:620-662 | in every reachable state that is not finished some thread can step, shutdown included |
| `WorkerPool.StepsTaken` | bench/cpu_nvfp4_expert_pair/main.cpp:620-662 | every step lowers a rank, so no schedule is longer than the initial rank |
| `WorkerPool.EveryRunFinishes` | bench/cpu_nvfp4_expert_pair/main.cpp:602-662 | every maximal run ends with all threads exited, every pair of every batch computed once, and the timed checksum equal to the serial sum over the timed pairs |
| `RestartGate.Gate.constructor` | apps/ninfer-supervisor/logic.hpp:472-472 | a new gate is not halted and waits the initial backoff |
| `RestartGate.Gate.NoteExitAt` | apps/ninfer-supervisor/logic.hpp:475-485 | the loop that drops old exits implements the specified step; the answer is whether the gate is open |
| `RestartGate.Gate.Advance` | apps/ninfer-supervisor/logic.hpp:489-494 | doubles the backoff up to the maximum |
| `RestartGate.Gate.Healthy` | apps/ninfer-supervisor/logic.hpp:496-499 | resets backoff and health failures only |
| `RestartGate.Gate.HealthFail` | apps/ninfer-supervisor/logic.hpp:501-504 | counts a failure and answers whether the threshold is reached |
| `RestartGate.Gate.Reset` | apps/ninfer-supervisor/logic.hpp:508-513 | forgets exits, halt, backoff and failures |
| `RestartGate.QueueAfterRun` | apps/ninfer-supervisor/logic.hpp:475-513 | after any run of calls with a steady clock the queue is exactly the exits since the last reset within the window of the latest one, and the gate is halted exactly when such a window once filled up |
| `RestartGate.TrippedMeansFullWindow` | apps/ninfer-supervisor/logic.hpp:476-483 | the breaker has tripped if and only if some window of exits since the last reset reached crash_loop_max |
| `RestartGate.PermittedExits` | apps/ninfer-supervisor/logic.hpp:475-485 | the permitted exits are a prefix of the reported ones and none of their windows is full |
| `RestartGate.FewRestartsPerWindow` | apps/ninfer-supervisor/logic.hpp:475-485 | every closed window of time holds fewer than crash_loop_max permitted restarts between resets |
| `RestartGate.BackoffAfterRun` | apps/ninfer-supervisor/logic.hpp:487-513 | the backoff is min(initial * 2^k, max) for the k advances since the last health report or reset |
| `RestartGate.FailsAfterRun` | apps/ninfer-supervisor/logic.hpp:496-513 | over every history the failures counted are the failed probes since the last healthy one or reset |
| `EngineChild.StepKeepsInv` | apps/ninfer-supervisor/engine_child.cpp:218-344 | every locked step of every caller, of the worker and of the environment keeps the process, worker and gate invariants |
| `EngineChild.RunKeepsInv` | apps/ninfer-supervisor/engine_child.cpp:508-597 | so does every interleaving of them |
| `EngineChild.EveryStateConsistent` | apps/ninfer-supervisor/engine_child.cpp:481-527 | in every interleaving the pid is nonzero exactly when the handle is set, the state is Running or Stopping exactly then, and at most one engine is alive |
| `EngineChild.SpawnOnlyWhenFree` | apps/ninfer-supervisor/engine_child.cpp:537-592 | a process is created only when none is alive or held, the breaker is not halted and no reader of an earlier process is left |
| `EngineChild.FewAutomaticRestarts` | apps/ninfer-supervisor/engine_child.cpp:545-563 | the breaker's bound on restarts per window holds in every interleaving |
| `EngineChild.SpawnAfterStopIff` | apps/ninfer-supervisor/engine_child.cpp:235-252 | with automatic restarts off and no further start, a process can still appear if and only if the worker had already passed its check |
| `EngineChild.LateStop` | apps/ninfer-supervisor/engine_child.cpp:575-592 | a concrete run in which a whole stop call is followed by an engine nobody asked for |
| `EngineStop.CallEndsProcess` | apps/ninfer-supervisor/engine_child.cpp:235-252 | in every interleaving, when a stop or restart call is done, the process its locked section found is not alive unless its number was given to a new one since; the call takes four steps if it found one and three if not |
| `EngineStop.AlarmEndsProcess` | apps/ninfer-supervisor/engine_child.cpp:254-344 | a health probe that reaches the threshold with automatic restarts on goes on like a restart and has ended the process it found when it is done; every other probe is done with its one step |
| `EngineStop.EndedLeavesNone` | apps/ninfer-supervisor/engine_child.cpp:537-597 | in every interleaving, when the worker has ended no engine process is alive |
| `EngineStop.LiveAfterStopIff` | apps/ninfer-supervisor/engine_child.cpp:235-252 | with automatic restarts off and no further start, an engine can be alive when a stop call is done if and only if the worker was already committed to creating one or had created one and not recorded it |
| `EngineStop.CrashIsCounted` | apps/ninfer-supervisor/engine_child.cpp:544-563 | without calls, while automatic restarts are on and no stop was requested, no other engine is created before the exit was reported to the breaker |
| `EngineStop.ReportedExit` | apps/ninfer-supervisor/engine_child.cpp:548-574 | an exit that fills the window is shown as halted and switches automatic restarts off; any other leads to the back-off with them on |
| `EngineStop.RestartBringsBack` | apps/ninfer-supervisor/engine_child.cpp:328-344 | a restart of a running engine can be followed by a new one, and the breaker is told of the request and of no exit |
| `LinearSolve.FindLargest` | bench/context_cost/context_cost_measure.cpp:29-34 | finds the largest magnitude of the leading square |
| `LinearSolve.FindPivot` | bench/context_cost/context_cost_measure.cpp:39-42 | finds the first row from the column on with the largest magnitude in it |
| `LinearSolve.SwapKeeps` | bench/context_cost/context_cost_measure.cpp:44-47 | swapping rows with their right sides keeps the set of solutions |
| `LinearSolve.DivideKeeps` | bench/context_cost/context_cost_measure.cpp:48-52 | dividing a row and its right side keeps the set of solutions |
| `LinearSolve.ClearKeeps` | bench/context_cost/context_cost_measure.cpp:53-61 | clearing a column keeps the set of solutions |
| `LinearSolve.ClearColumn` | bench/context_cost/context_cost_measure.cpp:53-61 | the in-place loop, which only touches entries from the pivot column on, clears whole rows |
| `LinearSolve.EliminateAll` | bench/context_cost/context_cost_measure.cpp:38-62 | the in-place elimination is the elimination on values |
| `LinearSolve.EliminateSolves` | bench/context_cost/context_cost_measure.cpp:38-63 | if elimination succeeds, its result is the one and only solution of the system it started from |
| `LinearSolve.SolveIsUnique` | bench/context_cost/context_cost_measure.cpp:25-65 | whenever a solution is returned, it and nothing else solves the original system |
| `LinearSolve.SolveLinear` | bench/context_cost/context_cost_measure.cpp:25-65 | the in-place method returns true exactly when the specified elimination succeeds, its solution satisfies the unmodified system, and on failure the output is untouched |
| `SolveAccepts.LargestBounds` | bench/context_cost/context_cost_measure.cpp:29-34 | no entry of the matrix is larger than the largest magnitude found |
| `SolveAccepts.LargestAttained` | bench/context_cost/context_cost_measure.cpp:29-34 | and that is the magnitude of an entry |
| `SolveAccepts.PivotIsLargest` | bench/context_cost/context_cost_measure.cpp:39-42 | the pivot row is the first with the greatest magnitude from the diagonal down |
| `SolveAccepts.RefusalWitness` | bench/context_cost/context_cost_measure.cpp:38-62 | a refusal under any floor gives a vector, one in some place and zero behind it, that every row of the original matrix maps within the floor |
| `SolveAccepts.SolveRefused` | bench/context_cost/context_cost_measure.cpp:25-65 | so a refused system has such a vector below the tolerance times the largest entry |
| `SolveAccepts.AcceptedIff` | bench/context_cost/context_cost_measure.cpp:38-63 | with a floor of zero the elimination succeeds if and only if no vector but zero is mapped to zero, and under any floor what it accepts is not singular |
| `NonnegativeFit.SelectTraining` | bench/context_cost/context_cost_measure.cpp:77-80 | keeps the training points in order |
| `NonnegativeFit.CheckTraining` | bench/context_cost/context_cost_measure.cpp:81-101 | reports exactly the first failed input check and otherwise the column maxima |
| `NonnegativeFit.CheckedIff` | bench/context_cost/context_cost_measure.cpp:81-101 | the checks pass exactly with as many points as columns, positive times, no negative feature and in every column some positive one |
| `NonnegativeFit.SolveActive` | bench/context_cost/context_cost_measure.cpp:115-134 | accumulates and solves the normal equations of the scaled active columns |
| `NonnegativeFit.TryMask` | bench/context_cost/context_cost_measure.cpp:107-144 | gives the subset's candidate or rejects it, as specified |
| `NonnegativeFit.MeasureError` | bench/context_cost/context_cost_measure.cpp:146-151 | sums the squared relative errors |
| `NonnegativeFit.FindBest` | bench/context_cost/context_cost_measure.cpp:103-156 | returns the first of the candidates with the least error over all subsets: none is smaller and no earlier one as small |
| `NonnegativeFit.Fit` | bench/context_cost/context_cost_measure.cpp:75-161 | reports the input errors exactly, is rank deficient only with zero columns, and otherwise returns a nonnegative best candidate |
| `NonnegativeFit.SomeCandidate` | bench/context_cost/context_cost_measure.cpp:106-158 | after the checks pass the first single-column subset always yields a candidate |
| `NonnegativeFit.GradientIsResidual` | bench/context_cost/context_cost_measure.cpp:118-131 | the residual of the normal equations is the gradient of the squared error |
| `NonnegativeFit.LocalOptimum` | bench/context_cost/context_cost_measure.cpp:115-134 | the solved normal equations give the least error over all coefficients of the active columns |
| `NonnegativeFit.CandidateIsOptimal` | bench/context_cost/context_cost_measure.cpp:135-151 | an accepted candidate has the least error of all coefficient vectors supported on its columns |
| `NonnegativeFit.BestBeats` | bench/context_cost/context_cost_measure.cpp:152-155 | the returned coefficients have at most the error of every subset's candidate |
| `NonnegativeFit.FitIsOptimal` | bench/context_cost/context_cost_measure.cpp:146-160 | the returned coefficients have at most the error of every vector supported on any accepted subset |
| `FitOptimum.ErrorConvex` | bench/context_cost/context_cost_measure.cpp:146-151 | the error between two coefficient vectors lies below the chord |
| `FitOptimum.FewerColumns` | bench/context_cost/context_cost_measure.cpp:106-144 | from non-negative coefficients whose columns' own optimum has a negative entry there is a step to non-negative ones on fewer columns with no larger error |
| `FitOptimum.KernelLeads` | bench/context_cost/context_cost_measure.cpp:106-144 | from coefficients on linearly dependent columns a way leads out of the non-negative vectors without changing the error, so that a column can be dropped |
| `FitOptimum.FitIsGlobalOptimum` | bench/context_cost/context_cost_measure.cpp:75-161 | if the solver rejects no subset's system but those of linearly dependent columns, the returned coefficients have the least error of all non-negative coefficient vectors |
| `FitOptimum.DependentIsRejected` | bench/context_cost/context_cost_measure.cpp:25-65 | the system of a subset of linearly dependent columns is always rejected |
| `FitAccepts.NormalIsEnergy` | bench/context_cost/context_cost_measure.cpp:118-131 | the normal equations are the quadratic form of the rows: applied to a vector from both sides they give the sum of the squared row products |
| `FitAccepts.RefusedCancels` | bench/context_cost/context_cost_measure.cpp:25-134 | a refused subset of the columns is a combination of them whose predictions stay below the tolerance times what its strongest column contributes |
| `FitAccepts.SeparatedIsResolved` | bench/context_cost/context_cost_measure.cpp:106-134 | on points where no combination of the columns nearly cancels, the solver accepts every subset |
| `FitAccepts.SeparatedFitIsOptimum` | bench/context_cost/context_cost_measure.cpp:75-161 | and the returned coefficients have the least error of all non-negative ones |
| `WellSeparated.FitFindsBoth` | bench/context_cost/context_cost_measure.cpp:75-161 | two points that need both columns, on which the fit returns exactly the coefficients without error |
| `NearlyDependent.FitMissesOptimum` | bench/context_cost/context_cost_measure.cpp:25-161 | two points and two independent columns that fit without error, where the pivot tolerance rejects the subset of both and the returned coefficients have an error |
| `Sha256.PadFillsBlocks` | apps/perplexity/digest.cpp:84-92 | padding fills whole blocks with the fewest zero bytes (section 5.1.1 of FIPS 180-4) |
| `Sha256.LengthFieldValue` | apps/perplexity/digest.cpp:89-92 | the length field holds the bit count if and only if it is below 2^64 |
| `Sha256.ExpandBlock` | apps/perplexity/digest.cpp:26-39 | the loops compute the message schedule (section 6.2.2 of FIPS 180-4) |
| `Sha256.RunRounds` | apps/perplexity/digest.cpp:40-63 | the rotating registers compute the 64 rounds |
| `Sha256.Transform` | apps/perplexity/digest.cpp:25-72 | the in-place update is the compression of one block |
| `Sha256.FillTail` | apps/perplexity/digest.cpp:84-92 | the 128-byte tail buffer holds the rest of the padded message, one or two blocks |
| `Sha256.HashInput` | apps/perplexity/digest.cpp:77-83 | the block loop hashes the whole blocks of the input |
| `Sha256.HashTail` | apps/perplexity/digest.cpp:93-95 | the tail loop hashes the remaining blocks |
| `Sha256.WriteOut` | apps/perplexity/digest.cpp:96-102 | writes the state big-endian |
| `Sha256.Sha256` | apps/perplexity/digest.cpp:76-104 | the digest is the FIPS 180-4 digest for every input shorter than 2^61 bytes |
| `Sha256Words.BitIs` | apps/perplexity/digest.cpp:34-38 | a bit of a word is a quotient by a power of two, modulo two |
| `Sha256Words.SameBits` | apps/perplexity/digest.cpp:34-38 | words with the same bits are equal |
| `Sha256Words.RotrBit` | apps/perplexity/digest.cpp:34-38 | rotation by n moves bit (i + n) mod 32 to place i |
| `Sha256Words.ShrBit` | apps/perplexity/digest.cpp:34-38 | shifting by n moves bit i + n to place i |
| `Sha256Words.ChBit` | apps/perplexity/digest.cpp:48-60 | each bit of the first word chooses between the other two |
| `Sha256Words.MajBit` | apps/perplexity/digest.cpp:48-60 | each bit is what at least two of the three words have |
| `Sha256Words.SigmaBits` | apps/perplexity/digest.cpp:34-60 | each bit of the four mixing functions is the parity of three bits of the argument, with the standard's distances |
| `Sha256Constants.RoundConstant` | apps/perplexity/digest.cpp:12-23 | round constant i is the first 32 bits of the fractional part of the cube root of the prime with i primes below it |
| `Sha256Constants.StartingWord` | apps/perplexity/digest.cpp:76-80 | starting word i is the first 32 bits of the fractional part of its square root |
| `SeriesFormat.ReadInt` | apps/ninfer-supervisor/logic.hpp:382-401 | the extractor's loops read the integer behind the first occurrence of the key |
| `SeriesFormat.ReadString` | apps/ninfer-supervisor/logic.hpp:403-415 | the extractor's loop reads the text up to the next quote |
| `Text.FindIsFirst` | apps/ninfer-supervisor/logic.hpp:383-386 | the search for a key answers its first occurrence, or that there is none |
| `Decimal.PartialValues` | apps/ninfer-supervisor/logic.hpp:394-398 | the digit loop never exceeds its final value on the way, so a value that fits the integer never overflows |
| `SeriesFormat.ReadEvent` | apps/ninfer-supervisor/logic.hpp:417-425 | reads an event line or rejects it, as specified |
| `SeriesFormat.ReadSample` | apps/ninfer-supervisor/logic.hpp:427-437 | reads a sample line or rejects it, missing values as zero |
| `SeriesFormat.RoundTrip` | apps/ninfer-supervisor/logic.hpp:417-448 | every line written for a sample or event is read back as that record, also when its texts spell the keys |
| `SeriesRing.Ring.Push` | apps/ninfer-supervisor/logic.hpp:331-336 | the circular buffer holds the newest `cap` of everything pushed, in order |
| `SeriesRing.Ring.PushEvent` | apps/ninfer-supervisor/logic.hpp:338-341 | the queue holds the newest 128 events |
| `SeriesRing.Ring.Snapshot` | apps/ninfer-supervisor/logic.hpp:343-349 | copies the samples out, oldest first |
| `SeriesRing.Ring.LoadLines` | apps/ninfer-supervisor/logic.hpp:357-372 | loading pushes the text's records in order on top of what is there |
| `SeriesRing.LoadedText` | apps/ninfer-supervisor/logic.hpp:357-448 | loading the lines written for any records, carriage returns included, from any line on, gives exactly those records in order |
| `SeriesFile.CutAt` | apps/ninfer-supervisor/collector.cpp:294-300 | wherever a file of whole lines is cut, what follows the next newline is whole lines |
| `SeriesFile.TailOfLines` | apps/ninfer-supervisor/collector.cpp:288-302 | the tail read is the whole file up to KEEP bytes, otherwise the longest run of newest lines shorter than KEEP |
| `SeriesFile.HoldsPersisted` | apps/ninfer-supervisor/collector.cpp:332-357 | appending, rotating and failing to rotate keep the file the newest whole lines, dropping only lines with KEEP bytes behind them |
| `SeriesFile.RotationIsInvisible` | apps/ninfer-supervisor/collector.cpp:332-342 | a rotated file reads back like the whole history if and only if it is not exactly KEEP bytes long; then it has one line more |
| `SeriesFile.ReadsFitting` | apps/ninfer-supervisor/collector.cpp:288-302 | every run of newest lines shorter than KEEP bytes is read back |
| `SeriesFile.SizeAfter` | apps/ninfer-supervisor/collector.cpp:344-351 | a write keeps the file beyond the rotation threshold by at most the bytes counted since the last look at the size, one uncounted carriage return for each fifty of them, and the event lines written since that look |
| `SeriesRun.SeriesLog.Rotate` | apps/ninfer-supervisor/collector.cpp:332-342 | implements the specified rotation, with a rewrite that may fail |
| `SeriesRun.SeriesLog.PersistSample` | apps/ninfer-supervisor/collector.cpp:344-351 | appends the line with carriage return and newline, counts it without the carriage return and rotates when due |
| `SeriesRun.SeriesLog.PersistEvent` | apps/ninfer-supervisor/collector.cpp:353-357 | appends the line with carriage return and newline and neither counts nor rotates |
| `SeriesRun.SeriesLog.LoadPersisted` | apps/ninfer-supervisor/collector.cpp:318-328 | loads the tail into the ring and shrinks an oversized file |
| `SeriesRun.FileHoldsNewest` | apps/ninfer-supervisor/collector.cpp:304-357 | over every run of samples, events, rotations, failed rewrites and restarts the file is whole records, the newest ones |
| `SeriesRun.FittingRecordsAreLoaded` | apps/ninfer-supervisor/collector.cpp:318-328 | the newest records that fit in KEEP bytes are all loaded at a restart |
| `SeriesRun.RestartShowsNewestIff` | apps/ninfer-supervisor/collector.cpp:280-328 | after any run a restart shows exactly the newest 6000 samples ever recorded if and only if the text from the oldest of them on is shorter than KEEP bytes, or is KEEP bytes long and the whole file |
| `SeriesRun.RestartShowsEventsIff` | apps/ninfer-supervisor/collector.cpp:280-328 | the same for the newest 128 events |
| `SeriesRun.RestartShowsNewest` | apps/ninfer-supervisor/collector.cpp:280-328 | in particular when the event lines among the newest samples leave room for 6000 sample lines of 106 bytes |
| `SeriesRun.RestartShowsNewestEvents` | apps/ninfer-supervisor/collector.cpp:280-328 | in particular when the newest 128 events, or all there are, fit in KEEP bytes with what came after them |
| `SeriesRun.LongEventHidesSample` | apps/ninfer-supervisor/collector.cpp:288-302 | a sample followed by one event line of KEEP bytes is lost at the next restart |
| `SeriesRun.RotationShowsInRun` | apps/ninfer-supervisor/collector.cpp:288-342 | a run whose rotated file is exactly KEEP bytes long and reads back as more than the whole history would |
| `SeriesRun.AlwaysShownIff` | apps/ninfer-supervisor/collector.cpp:318-357 | all through a run, restarts included, the samples and events in memory are the newest of the whole history if and only if the file kept enough of it at each restart |
| `SeriesRun.RingIsNewest` | apps/ninfer-supervisor/collector.cpp:318-357 | over every run with few events, restarts included, the ring in memory is the newest 6000 samples of the whole history |
| `SeriesRun.SizeStaysBounded` | apps/ninfer-supervisor/collector.cpp:280-351 | while rewrites succeed the file exceeds 34 MiB by no more than a fiftieth of 2 MiB for uncounted carriage returns and the event lines written since its size was last looked at |
| `EngineArgs.ParseArgs` | apps/ninfer-supervisor/logic.hpp:721-760 | the loop computes the specified parse |
| `EngineArgs.RenderArgs` | apps/ninfer-supervisor/logic.hpp:772-789 | the loops write artifact, table rows in order, then everything else |
| `EngineArgs.Reparsed` | apps/ninfer-supervisor/logic.hpp:721-789 | parsing a rendering gives back artifact, parameters and unknown tokens if and only if the artifact is not empty or no loose positional token could take its place; otherwise one token is lost |
| `EngineArgs.EmptyFirstArgument` | apps/ninfer-supervisor/logic.hpp:721-789 | the arguments with an empty first token that lose the next one |
| `EngineArgs.ParseIsClean` | apps/ninfer-supervisor/logic.hpp:721-760 | no known flag ever ends up among the unrecognised tokens and no flag becomes the artifact |
| `EngineArgs.CanonHas` | apps/ninfer-supervisor/logic.hpp:762-786 | rendering keeps, for every table row, the first value given unless it is empty or a switch that is off |
| `EngineArgs.RenderIsIdempotent` | apps/ninfer-supervisor/logic.hpp:721-789 | rendering a parse a second time changes nothing if and only if the artifact keeps its place or what takes it stands in front already, not empty and with no rows before it |
| `EngineArgs.EmptyArgumentsVanish` | apps/ninfer-supervisor/logic.hpp:721-789 | two empty arguments render as one, and that one as none |
| `EngineArgs.Merge` | apps/ninfer-supervisor/server.cpp:183-190 | the loop of erasures and additions computes the specified merge |
| `EngineArgs.EditedKey` | apps/ninfer-supervisor/server.cpp:183-190 | an edited key has exactly its new value, or none if the edit removes it |
| `EngineArgs.UneditedKey` | apps/ninfer-supervisor/server.cpp:183-190 | a key that is not edited keeps its value |
| `EngineArgs.PatchThenParse` | apps/ninfer-supervisor/server.cpp:147-197 | re-reading the arguments after an accepted edit gives the same artifact and unknown tokens, every edited parameter as asked and every other one as before, if and only if nothing can take the artifact's place |
| `EngineArgs.RefusedIff` | apps/ninfer-supervisor/server.cpp:151-175 | a request is refused exactly for an unknown key, a value that is no scalar, a switch given a number or a text other than true and false, or by the verdict of the range checks |
| `EngineArgs.EntriesAreHonoured` | apps/ninfer-supervisor/server.cpp:147-197 | in the arguments read back, true switches on, false off, null and the empty text unset, any other text is the value, a number is a text that spells it, and a row no entry names keeps its value |
| `EngineArgs.PresetStaysInSync` | apps/ninfer-supervisor/server.cpp:281-286 | for every non-empty path, the selected preset that matched the launch arguments still matches them after an edit if and only if its path does not start with two dashes or is rendered first all the same |
| `EngineArgs.FlagLikeArtifact` | apps/ninfer-supervisor/server.cpp:281-286 | a catalog path that looks like a flag can lose its place, so the preset no longer matches |
| `EngineArgs.ValueFlagArtifact` | apps/ninfer-supervisor/server.cpp:281-286 | a catalog path that is a known flag with a value, and no arguments, leaves nothing to launch with |
| `EngineArgs.SpecsAreWellFormed` | apps/ninfer-supervisor/logic.hpp:606-682 | the table's flags and keys are distinct and every flag starts with two dashes |
| `KvPlan.ReadCapacity` | apps/ninfer-supervisor/logic.hpp:1059-1067 | the loop reads the first explicit capacity |
| `KvPlan.ReadFloor` | apps/ninfer-supervisor/logic.hpp:1071-1078 | the loop reads the first numeric context, or the default |
| `KvPlan.SetCapacity` | apps/ninfer-supervisor/logic.hpp:1098-1111 | the loop replaces or appends the capacity |
| `KvPlan.CapacityRoundTrip` | apps/ninfer-supervisor/logic.hpp:1059-1111 | the capacity written is the capacity read, for any arguments |
| `KvPlan.CapacityFrame` | apps/ninfer-supervisor/logic.hpp:1071-1111 | replacing an explicit capacity leaves the floor, the length and every token that is not a number alone |
| `KvPlan.ReducedIsLower` | apps/ninfer-supervisor/logic.hpp:1085-1096 | a shortfall takes more than 32768 tokens off the plan or lands on the floor, never below it |
| `KvPlan.ReducedFits` | apps/ninfer-supervisor/logic.hpp:1085-1096 | if a token costs at least 8 KiB, a plan that stays above the floor fits with 256 MiB to spare |
| `KvPlan.ReducedIsMost` | apps/ninfer-supervisor/logic.hpp:1085-1096 | no larger plan in steps of 4096 tokens is sure to fit |
| `KvPlan.ReducedToZero` | apps/ninfer-supervisor/logic.hpp:1085-1096 | the plan becomes zero if and only if the floor is zero and less than a rounding step is left |
| `KvPlan.LaunchAsksForCeiling` | apps/ninfer-supervisor/engine_child.cpp:381-424 | the arguments launched ask for the plan the bookkeeping leaves, and explicitly exactly when a capacity is configured |
| `KvPlan.ShortfallLowersLaunch` | apps/ninfer-supervisor/engine_child.cpp:386-410 | a reported shortfall lowers the next launch by more than 32768 tokens or leaves it at or below the floor if and only if the plan in force is not too far above the configured capacity |
| `KvPlan.LoweredLaunchFits` | apps/ninfer-supervisor/engine_child.cpp:386-410 | a lowered launch above the floor fits the memory reported for the plan in force with 256 MiB to spare, whatever a token costs from 8 KiB on; for the launch as configured, exactly when the plan was not above that or falls a whole drop below it |
| `KvPlan.EachShortfallLowers` | apps/ninfer-supervisor/engine_child.cpp:346-424 | in every run between calls of start and update_config from a plan within the capacity, each launch with a shortfall before it asks for more than 32768 tokens less than the one before or for no more than the floor |
| `KvPlan.PlanAboveCapacity` | apps/ninfer-supervisor/engine_child.cpp:117-126 | a run through the two halves of update_config that leaves the plan above the stored capacity, so that the next shortfall lowers nothing |
| `KvPlan.PlanNeverRises` | apps/ninfer-supervisor/engine_child.cpp:346-424 | between calls of start and update_config no launch asks for more than an earlier one, whatever the interleaving, given a positive context and nothing read too early |
| `KvPlan.RisesIff` | apps/ninfer-supervisor/engine_child.cpp:346-424 | with a positive context, some run from a state has a launch that asks for more than an earlier one if and only if arguments read too early ask explicitly for less than is configured now and the plan their launch leaves does not hold the launches down to them |
| `KvPlan.StaleReadRises` | apps/ninfer-supervisor/engine_child.cpp:117-126 | a concrete interleaving in which arguments read too early make the plan rise |
| `KvPlan.PendingHoldsDown` | apps/ninfer-supervisor/engine_child.cpp:117-126 | the same interleaving behind a large shortfall, from which no launch asks for more than an earlier one |
| `KvPlan.ZeroFloorRises` | apps/ninfer-supervisor/logic.hpp:1085-1096 | with a zero context a shortfall raises the plan if and only if a reduced plan is within one rounding step of zero |
| `KvPlan.ZeroFloorRisesIff` | apps/ninfer-supervisor/engine_child.cpp:346-424 | with a zero context and the engine's output being read, some run has a launch that asks for more than an earlier one if and only if the plan is, or can be brought by one shortfall, between zero and the capacity |
| `KvPlan.ZeroFloorSpawnRisesIff` | apps/ninfer-supervisor/engine_child.cpp:346-424 | with a zero context and no reader, whether arguments are read, fresh or stale, or not yet: the same of the plan the next launch leaves, or that launch asks explicitly for less than the capacity |
| `CapacityReport.ParseLine` | apps/ninfer-supervisor/logic.hpp:1030-1055 | the searches and digit loops parse a line as specified |
| `CapacityReport.TooLargeIsRead` | src/runtime/engine/kv_capacity.cpp:160-163 | the numbers of the plain error are the numbers read |
| `CapacityReport.FloorViolatedIsMissed` | src/runtime/engine/kv_capacity.cpp:152-158 | of the error that names a slack floor only the bytes needed are read, and nothing unless the text behind it supplies the other number |
| `CapacityReport.ReportIsRead` | src/runtime/engine/kv_capacity.cpp:103-164 | what the supervisor reads of an explicit capacity that does not fit, for any text behind the error and any in front that does not hold the phrase: without a slack floor the bytes needed and the bytes there were, otherwise only what the text behind supplies |
| `CapacityReport.ReportIsReadIff` | src/runtime/engine/kv_capacity.cpp:103-164 | so with neither phrase around the error the shortfall is read if and only if no slack floor was asked for |
| `Utf8.ValidUtf8` | apps/perplexity/corpus.cpp:34-70 | the nested loops accept exactly the byte strings that decode |
| `Utf8.FirstIsEncoding` | apps/perplexity/corpus.cpp:38-67 | whatever is decoded is a permitted code point in its own shortest encoding |
| `Utf8.EncodingIsFirst` | apps/perplexity/corpus.cpp:38-67 | every permitted code point is decoded from its encoding, whatever follows |
| `Utf8.AcceptedIffEncoding` | apps/perplexity/corpus.cpp:34-70 | a byte string is accepted if and only if it is a concatenation of encodings of non-NUL, non-surrogate code points up to 0x10FFFF (sections 3 and 4 of RFC 3629) |
| `Utf8.DecodingIsUnique` | apps/perplexity/corpus.cpp:34-70 | no byte string encodes two code point sequences |
| `LogTail.Follower.Poll` | apps/ninfer-supervisor/collector.cpp:438-463 | implements the specified poll: restart on a shorter file, skip to the end first, otherwise deliver whole lines, and nothing from a log cut short of the offset after its size was taken |
| `LogTail.ReadLines` | apps/ninfer-supervisor/collector.cpp:457-463 | the loop delivers exactly the complete lines from the offset on and stops before an unfinished one |
| `LogTail.DeliveryIsExact` | apps/ninfer-supervisor/collector.cpp:438-463 | over every interleaving of appends and polls the lines delivered are exactly the complete lines after the starting offset, each once and in order |
| `LogTail.PollCatchesUp` | apps/ninfer-supervisor/collector.cpp:457-463 | after a poll every line complete when the size was taken is delivered and only an unfinished line lies behind the offset |
| `LogTail.FollowingBegins` | apps/ninfer-supervisor/collector.cpp:447-453 | following begins at the end of the first non-empty log seen, and never again |
| `LogTail.ReplacedIsFollowed` | apps/ninfer-supervisor/collector.cpp:443-463 | a log replaced by one shorter than the offset is followed as if anew in every later interleaving: all its whole lines once and in order if samples were recorded before, otherwise those behind what it first held |
| `LogTail.UnnoticedReplacement` | apps/ninfer-supervisor/collector.cpp:446-463 | a replacement that is not shorter is read from the old offset on |
| `Inflight.ClassifyLine` | apps/ninfer-supervisor/logic.hpp:1286-1316 | the loops classify a line as specified |
| `Inflight.RecordIsUnderstood` | apps/ninfer-supervisor/logic.hpp:1286-1316 | every record of the engine's form, with any id of up to 19 digits: submitted opens the request, done, failed, rejected and cancelled close it, any other status says nothing |
| `Inflight.OnlyRecordsCount` | apps/ninfer-supervisor/logic.hpp:1286-1316 | no other line opens or closes a request: the id in at most 19 digits stands behind the phrase and the status behind that |
| `Inflight.Output.Note` | apps/ninfer-supervisor/engine_child.cpp:141-189 | the character loop implements the specified reader |
| `Inflight.ChunksDoNotMatter` | apps/ninfer-supervisor/engine_child.cpp:141-189 | how the output is cut into reads makes no difference |
| `Inflight.StreamIsItsLines` | apps/ninfer-supervisor/engine_child.cpp:141-189 | after any stream exactly its complete lines have been handled, each once and in order, cut at 64 KiB |
| `Inflight.SplitIsExact` | apps/ninfer-supervisor/engine_child.cpp:143-188 | the lines and the unfinished rest are together the whole stream |
| `Inflight.SplitIsClean` | apps/ninfer-supervisor/engine_child.cpp:146-151 | no handled line has a newline inside |
| `Inflight.OpenIdsAreUnfinished` | apps/ninfer-supervisor/engine_child.cpp:177-187 | a request is open exactly when it was submitted and not closed since |
| `Inflight.TrackingIsExactIff` | apps/ninfer-supervisor/engine_child.cpp:177-187 | the tracked set is the unfinished requests all along if and only if there are never more than 4096 |
| `Inflight.NoUnloadWhileUnfinished` | apps/ninfer-supervisor/logic.hpp:1333-1341 | no idle unload is due while a submitted request has not finished, however the output is cut into reads |
| `Inflight.UnloadDueIff` | apps/ninfer-supervisor/logic.hpp:1333-1341 | with the unload enabled, the engine up and an activity seen, the unload is due exactly from the idle time after it on and exactly while no request is unfinished |
| `Inflight.CapForgets` | apps/ninfer-supervisor/engine_child.cpp:181-185 | past the cap nothing may be tracked although a request is unfinished |
| `BankLayout.OffsetsAreDistinct` | bench/cpu_nvfp4_expert_pair/main.cpp:137-192 | every code, swizzled scale and divisor address lies inside the payload and can be recovered from its byte |
| `BankLayout.OffsetsCover` | bench/cpu_nvfp4_expert_pair/main.cpp:137-192 | every byte of the payload belongs to an address, so the layout is a bijection |
| `BankLayout.SwizzleRoundTrip` | bench/cpu_nvfp4_expert_pair/main.cpp:180-192 | the scale swizzle stays inside the expert's scales and can be undone |
| `BankLayout.ReplayAgrees` | bench/cpu_nvfp4_routed_replay/main.cpp:37-49 | the replay bank puts codes, scales and divisors where the bank view does |
| `BankLayout.ReplaySizeAgrees` | bench/cpu_nvfp4_routed_replay/main.cpp:84-90 | the replay expects exactly the size of the bank view |
| `BankLayout.ViewOfExtracted` | bench/cpu_nvfp4_expert_pair/extract_layer.py:30-38 | a view is made exactly of the payload size the extractor expects, and the alignment between the planes adds nothing |
| `RowProducts.ScalarRow` | bench/cpu_nvfp4_expert_pair/main.cpp:355-376 | the scalar loops give the stored row times the input, or refuse the divisor |
| `RowProducts.DoubledWeightAt` | bench/cpu_nvfp4_expert_pair/main.cpp:243-253 | word shift, mask, interleave and table lookup give each lane the doubled weight of its own nibble |
| `RowProducts.DecodeWeights` | bench/cpu_nvfp4_expert_pair/main.cpp:243-259 | the vector decode gives exactly the sixteen stored weights of the group |
| `RowProducts.HorizontalSumIsLanes` | bench/cpu_nvfp4_expert_pair/main.cpp:261-268 | the horizontal sum adds all eight lanes |
| `RowProducts.DownRow` | bench/cpu_nvfp4_expert_pair/main.cpp:310-332 | the vector row equals the stored row times the input, hence the scalar reference, with the same refusals |
| `RowProducts.GateUpRows` | bench/cpu_nvfp4_expert_pair/main.cpp:270-308 | both vector rows of the fused pass equal the stored rows times the input |
| `RowProducts.AcceptedBankIsValid` | bench/cpu_nvfp4_expert_pair/main.cpp:139-158 | every bank with an accepted view and size meets what the row products ask of one |
| `RowProducts.RowProductMeans` | bench/cpu_nvfp4_expert_pair/main.cpp:355-376 | what both implementations compute, times the divisor, is the sum over the columns of four-bit weight times scale times input, the bytes taken from the row's addresses |
| `RowProducts.E2m1Format` | bench/cpu_nvfp4_expert_pair/main.cpp:194-198 | the weight table is the four-bit format of one sign, two exponent and one fraction bit |
| `ExpertPair.ComputePairScalar` | bench/cpu_nvfp4_expert_pair/main.cpp:378-390 | leaves in the buffers what a pair computes, and what a refused divisor of either bank leaves |
| `ExpertPair.ComputePairVector` | bench/cpu_nvfp4_expert_pair/main.cpp:339-353 | leaves exactly the same, and returns the sum of the output |
| `ExpertPair.CompareVectors` | bench/cpu_nvfp4_expert_pair/main.cpp:397-425 | the loop computes cosine, relative error and largest error as specified, or refuses the lengths |
| `ExpertPair.SameVectors` | bench/cpu_nvfp4_expert_pair/main.cpp:397-425 | equal vectors compare as cosine 1 and errors 0, all-zero ones included |
| `ExpertPair.ComparisonMeans` | bench/cpu_nvfp4_expert_pair/main.cpp:397-425 | the relative error is at most b exactly when the squared errors are at most b squared of the squared reference; the largest error bounds every one and is one of them |
| `ExpertPair.VerifyPair` | bench/cpu_nvfp4_expert_pair/main.cpp:427-439 | vector and scalar code leave equal outputs, so the numerical gate always passes and only a refused divisor stops the check |
| `Windows.PlanWindows` | apps/perplexity/evaluation.cpp:10-42 | refuses exactly the documented arguments, never trips its own consistency test, chains full windows with at least context - stride tokens of context, and makes 1 + ceil(max(0, tokens - context) / stride) of them |
| `Windows.TargetsPartition` | apps/perplexity/evaluation.cpp:19-39 | the targets are positions 1 to tokens - 1, each once and in order |
| `Windows.ScoredTokens` | apps/perplexity/main.cpp:258-271 | the number of scores announced in advance is the number made |
| `LruReplay.Serve` | bench/cpu_nvfp4_routed_replay/main.cpp:161-174 | the loop of finds and splices with one admission serves a record as specified |
| `LruReplay.Replay` | bench/cpu_nvfp4_routed_replay/main.cpp:155-176 | the replay counts ten per replayed record, and as hits exactly the experts among the `slots` touched last in their layer |
| `LruReplay.ServedKeepsNewest` | bench/cpu_nvfp4_routed_replay/main.cpp:161-174 | serving a record keeps the list the most recently touched experts, and its misses are the experts that were absent when it came |
| `LruReplay.ServedIsChosen` | bench/cpu_nvfp4_routed_replay/main.cpp:161-174 | a record's hits are its experts among the `slots` touched last, its misses the others, and exactly the hits in order and then the first miss are touched |
| `LruReplay.FrontAfter` | bench/cpu_nvfp4_routed_replay/main.cpp:161-174 | after a record the front of the list is the first expert that was not in it, or the last one served if all were |
| `LruReplay.EveryListIsNewest` | bench/cpu_nvfp4_routed_replay/main.cpp:155-176 | after every trace each layer's list is the front of the order of latest touches, as long as there is room |
| `LruReplay.EveryListIsRecent` | bench/cpu_nvfp4_routed_replay/main.cpp:155-176 | after every trace each layer's list holds exactly the `slots` experts touched last in it, latest first, where what is touched is defined by the records alone |
| `LruReplay.NewestMeans` | bench/cpu_nvfp4_routed_replay/main.cpp:161-174 | such a list has no duplicates, at most `slots` entries, is ordered by latest touch, and everything dropped was touched earlier than everything kept |
| `LruReplay.CountsAddUp` | bench/cpu_nvfp4_routed_replay/main.cpp:158-176 | hits plus misses is ten per replayed record |

## Left out

- Floating point: every float and double is an exact real, so rounding, overflow and the finiteness tests have no counterpart (`LinearSolve`, the modules of the fit, `RowProducts`, `ExpertPair`, the checksums of `WorkerPool`).
- Memory order: the atomics and barriers of `WorkerPool` and `EngineChild` are sequentially consistent.
- LinearSolve.SolveLinear: a matrix is an array of rows held as values, so an update of one entry replaces its row.
- FitOptimum.FitIsGlobalOptimum: one way only; a rejected subset of independent columns can also be one that the optimum does not need.
- RestartGate: the unused clear_health_fails, and integer overflow of the doubled backoff.
- EngineChild: modelled on values, one step per lock scope or atomic access, instead of as a class; the unmanaged mode, the restart log line and the operating system calls are not part of it, and output lines and the KV plan have modules of their own.
- SeriesFormat.RoundTrip: stated for values below 2^63 in magnitude, because the reader's signed 64-bit accumulation is undefined beyond that, and for texts without quotes or newlines, which the writer does not escape.
- SeriesRun: an append torn by a crash and a series file that cannot be opened. The supervisor is built for Windows only, so its text-mode file ends lines with carriage return and newline.
- EngineArgs.PresetStaysInSync: stated for catalog paths that are not empty, which the configuration loader enforces.
- EngineArgs.PatchThenParse: the range and combination checks of the parameters are a verdict given from outside, and the host and port sections of the request are not part of it.
- KvPlan: integer overflow of decimal values, and the flags added to the arguments for logging, keys and the desktop reserve.
- CapacityReport: the errors of automatic capacities and the arithmetic that sizes a reservation, which is given. The server's option parser asks for no slack floor with an explicit capacity, so the missed report needs another caller of the engine.
- Utf8: bytes are natural numbers, and the masks and shifts of the source are written as ranges, remainders and sums.
- LogTail: what the records say, beyond whether a line adds a throughput sample.
- Inflight: readiness, activity and error signals of the same lines, and the clearing of the set when a process starts or exits; the stream is that of one process.
- RowProducts: scale codes that stand for NaN, the decoding of the scale bytes and of the divisors (both given as reals), and the finiteness test of a divisor.
- ExpertPair: the activation and its rounding are one given function, and the square root is any exact one.
- Windows.PlanWindows: wrap-around of 64-bit sums for streams near 2^64 tokens.
- LruReplay: reading the trace file, the miss working set and the timed execution of the misses.
- Everything that runs on the GPU, the HTTP server, the dashboard, the tray, tokenisation and the artifact format.
