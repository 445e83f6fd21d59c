# A verified model of rskit's orchestration core

This project models, in Dafny 4.11, the parts of rskit that coordinate other code: the DAG task
orchestrator, the component registry, the application lifecycle, the dependency injection container,
the typed chain and the load balancers. It proves what they guarantee over every input, every failure
and every interleaving.

`dafny verify dfyconfig.toml` checks everything.

## How the model is laid out

| file | what it holds |
|---|---|
| `Common.dfy` | options, results, error codes |
| `Graph.dfy` | adjacency lists, reachability, acyclicity, counting with multiplicity, topological orders |
| `DagBuilder.dfy` | the graph builder with its online cycle check, the path search, Kahn's sort |
| `DagScheduler.dfy` | one DAG run as a state machine, and what every reachable state keeps |
| `DagRuns.dfy` | whole runs: termination, progress, completeness, reading the outcome |
| `DagConfluence.dfy` | schedule independence: every interleaving equals sequential evaluation |
| `DagOutcome.dfy` | what an ended run comes to, spelt out over graph, policy, overrides and node behaviour |
| `DagEngine.dfy` | the mutable engine with its in-degree counters, proved to take exactly those steps |
| `World.dfy` | calls to the outside, their answers, index lists |
| `Registry.dfy` | sequential start with rollback, reverse-order stop |
| `ConcurrentStart.dfy` | concurrent start under every interleaving, and histories of registry calls |
| `App.dfy` | hooks, startup, rollback, shutdown, error merging |
| `Container.dfy` | resolution with a cycle guard, singletons, disposal |
| `Chain.dfy` | nested-closure chains and their cleanups |
| `Balancer.dfy` | round robin, weighted, least connections |

**DAG runs.** A state is the scheduler's ledger (pending, completed, failed and skipped nodes, outputs,
results, first error, abort flag) plus the join set. A task in the join set waits for a permit, runs, or
has finished with any result. The events are: a waiting task takes a permit, a running task finishes, a
task that was told to abort is dropped, a finished task is joined. Safety holds for arbitrary node
results, so it covers nodes that watch the cancellation token. Schedule independence is stated for nodes
whose result is a function of their id and inputs. A task that had already finished when the run was
aborted is still joined, recorded, and still spawns its dependents, as in the code.

**The engine** is a class with the source's fields. Each of its operations is proved to perform one step
of the state machine, and its `Valid()` says that the remaining in-degree of every waiting node is the
multiplicity-weighted number of predecessors that have not propagated. That is why the underflow and
missing-node errors cannot occur.

**The outside world** of the lifecycle code is a function from the journal of all calls made so far to
the answer of the next one, so an answer may depend on everything that happened before. A concurrent
start is driven by an arbitrary schedule, which after every event says what happens next: which task
moves, how a start call ends, whether it panics, whether the caller cancels.

**Startup** is a sequence of stages: two hook phases, one stage per component, the readiness check and two
more hook phases. The journal before each stage is determined by the stages before it, so the first stage
that fails determines the error, everything that was called, and everything that was undone.

## Where the code and its documentation differ

The README of rskit-dag says that under fail-fast, siblings that are already running may finish. The
code aborts them (core/rskit-dag/src/dag.rs:403-405). The model follows the code: an aborted task may
be dropped at any time before it finishes.

## Properties that hold only under a condition

- A sequential rollback is keyed by component name. It undoes exactly what the failing start brought up
  if and only if no component that was running before shares a name with a started one
  (`Registry.RollbackExactIffNoClash`; `Registry.AlwaysExactIffNoClash` says the same before the call;
  `Registry.ClashExample` is a registry where it fails).
- So is the rollback of a concurrent start. It touches a component that was no candidate if and only if
  that component was running under the name of a candidate (`ConcurrentStart.EndsBadly`, with such a run
  in `ConcurrentStart.NamesakeExample`).
- A concurrent start does not clean up after every start call it made. After an error, a candidate gets a
  stop call if and only if its start call was neither failed, timed out, panicked nor cancelled under way
  (`ConcurrentStart.NeverCleanedUp`, with such a run in `ConcurrentStart.LeftAloneExample`). A sequential
  start does stop a component whose start timed out.
- A close drains every slot recorded so far. A closeable singleton is closed if and only if it had been
  resolved by the first close after its registration (`Container.ClosedForGood`, with a leak in
  `Container.LeakExample`).
- A round of `n` round-robin picks gives each of `n` instances exactly one turn if and only if the counter
  does not wrap during the round or `n` divides 2^64 (`Balancer.FairRoundIff`, failing in
  `Balancer.UnfairExample`).
- The load of an instance is its acquires minus its releases throughout a history if and only if no prefix
  releases more than it acquired and the difference stays below 2^64 (`Balancer.LoadsExactIff`, failing in
  `Balancer.OverReleaseExample`).

## Model

| member | source | states |
|---|---|---|
| DagBuilder.Dag.constructor | core/rskit-dag/src/dag.rs:96-105 | an empty graph, fail-fast, no overrides, valid |
| DagBuilder.Dag.WithMaxParallelism | core/rskit-dag/src/dag.rs:109-112 | the limit is the given one, but never below one |
| DagBuilder.Dag.AddNode | core/rskit-dag/src/dag.rs:156-162 | adds the node, keeps existing edges of a re-added node, keeps the graph mirrored and acyclic |
| DagBuilder.Dag.AddEdge | core/rskit-dag/src/dag.rs:165-196 | accepted exactly when both ends are known and the enlarged graph is acyclic; a refused edge changes nothing |
| DagBuilder.Dag.PathExists | core/rskit-dag/src/dag.rs:560-575 | terminates on every graph and is true exactly when the target is reachable |
| DagBuilder.RefusedIffCyclic | core/rskit-dag/src/dag.rs:179-184 | the target reaches the source exactly when the new edge would close a cycle |
| DagBuilder.ApplyKeeps | core/rskit-dag/src/dag.rs:156-196 | one builder call keeps endpoints inside, lists mirrored with equal multiplicities, and the graph acyclic |
| DagBuilder.EveryBuildIsAcyclic | core/rskit-dag/src/dag.rs:156-196 | so does every sequence of builder calls from the empty graph |
| DagBuilder.Dag.TopologicalSort | core/rskit-dag/src/dag.rs:199-238 | over any mirrored graph, duplicate edges included: Ok exactly on acyclic graphs, with each node once and every predecessor before its successor |
| DagBuilder.Dag.Relax | core/rskit-dag/src/dag.rs:216-228 | one round keeps each in-degree equal to the number of unsorted predecessor entries, and queues exactly the nodes that reach zero |
| DagBuilder.RoundStep | core/rskit-dag/src/dag.rs:219-226 | a decrement never underflows, with duplicate edges counted |
| DagBuilder.KahnFinish | core/rskit-dag/src/dag.rs:230-237 | when the queue runs dry, everything is sorted exactly if there is no cycle |
| Graph.SettleCount | core/rskit-dag/src/dag.rs:468-480 | walking the successor list of a settled node takes exactly its multiplicity off each successor |
| DagScheduler.InitInv | core/rskit-dag/src/dag.rs:296-336 | the state with the roots spawned satisfies the scheduler invariant |
| DagScheduler.ScheduleKeeps | core/rskit-dag/src/dag.rs:457-492 | spawning exactly the ready nodes restores the whole invariant |
| DagScheduler.InputsStable | core/rskit-dag/src/dag.rs:494-516 | recording more nodes does not change what a node with settled predecessors is given |
| DagScheduler.QuietStepKeeps | core/rskit-dag/src/dag.rs:533-556 | taking a permit, finishing and being dropped leave the ledger alone and respect the permits |
| DagScheduler.AbortKeeps | core/rskit-dag/src/dag.rs:394-406 | a failure under Fail keeps the invariant, with the abort flag set exactly when a Fail node failed |
| DagScheduler.SkipKeeps | core/rskit-dag/src/dag.rs:410-417 | a failure under Skip keeps the skip set exactly the descendants of nodes failed under Skip, none of them spawned |
| DagScheduler.NothingSpawnedBelow | core/rskit-dag/src/dag.rs:593-597 | no descendant of a node that has not propagated has been spawned, so the pending guard never fires |
| DagScheduler.StepKeeps | core/rskit-dag/src/dag.rs:338-422 | every enabled event keeps the invariant |
| DagScheduler.EveryStateSafe | core/rskit-dag/src/dag.rs:288-422 | in every state of every run, aborted ones included: nodes are spawned only after all predecessors propagated, and as soon as they have unless skipped; results, outputs, skips and the abort flag are exact |
| DagRuns.OncePerStage | core/rskit-dag/src/dag.rs:338-352 | no node takes a permit, finishes, or leaves the join set twice in a run |
| DagRuns.RunsAreFinite | core/rskit-dag/src/dag.rs:338-354 | every run has at most three events per node |
| DagRuns.Progress | core/rskit-dag/src/dag.rs:518-558 | at most the limit execute at once, and some event is possible while a task lives |
| DagRuns.SkipClosed | core/rskit-dag/src/dag.rs:587-602 | the skip set is closed under edges |
| DagRuns.EveryNodeAccountedFor | core/rskit-dag/src/dag.rs:338-354 | a run that ends without an abort has recorded or skipped every node, never both, and skipped exactly the nodes below a Skip failure |
| DagRuns.ExecuteAgreesWithReport | core/rskit-dag/src/dag.rs:254-285 | execute fails exactly on an abort, with the error of a failed Fail node; otherwise its map is the outputs of the report built from the same state |
| DagRuns.FirstErrorIsFirst | core/rskit-dag/src/dag.rs:394-401 | the surfaced error is the first recorded error of a Fail node |
| DagConfluence.EvaluateConsistent | core/rskit-dag/src/dag.rs:494-516 | evaluating along any topological order gives every node the verdict its predecessors dictate |
| DagConfluence.VerdictsUnique | core/rskit-dag/src/dag.rs:457-516 | on an acyclic graph those verdicts are unique, so the order does not matter |
| DagConfluence.RunsFollowEvaluation | core/rskit-dag/src/dag.rs:358-422 | in every state of every run of deterministic nodes, each recorded node has its sequential verdict |
| DagConfluence.AbortIsDetermined | core/rskit-dag/src/dag.rs:393-406 | a run aborts only if the evaluation meets a Fail failure, whose error it surfaces, and every ended run does in that case |
| DagConfluence.FullReport | core/rskit-dag/src/dag.rs:425-455 | a complete unaborted ledger yields exactly the report of the evaluation |
| DagConfluence.ScheduleIndependence | core/rskit-dag/src/dag.rs:288-422 | every ended run of deterministic nodes, in whatever order they complete, aborts exactly when sequential evaluation along any topological order meets a Fail failure; everything it recorded is a result of that evaluation, nothing it skipped runs there, and otherwise report and outputs are those of the evaluation |
| DagConfluence.Confluence | core/rskit-dag/src/dag.rs:288-455 | any two completion orders agree on whether they abort, on every node both recorded, and if not aborted on statuses and outputs |
| DagOutcome.EveryRunComesTo | core/rskit-dag/src/dag.rs:288-422 | every ended run, spelt out: a node's own override decides its failure, else the policy; aborted exactly if some failure is handled by failing; skipped exactly what is below a failure handled by skipping; recorded nodes returned what they return on the outputs of their predecessors; without an abort every node that its predecessors let run is recorded |
| DagOutcome.AbortReachesAll | core/rskit-dag/src/dag.rs:393-405 | a failure handled by failing lets every task live at that moment be dropped, unless it has finished |
| DagOutcome.FinishedIsRecorded | core/rskit-dag/src/dag.rs:338-352 | a task that finished before the end is recorded with its result, even after an abort |
| DagOutcome.NeverTooMany | core/rskit-dag/src/dag.rs:533-540 | never more nodes execute at once than the limit |
| DagOutcome.ReportIs | core/rskit-dag/src/dag.rs:425-455 | recorded nodes are reported with their results, skipped ones as Skipped, all others of an aborted run as Canceled |
| DagOutcome.ShowsResult | core/rskit-dag/src/dag.rs:35-42 | an error is shown as TimedOut exactly for Timeout, Canceled exactly for Cancelled, and otherwise as failed |
| DagOutcome.ExecuteIs | core/rskit-dag/src/dag.rs:254-266 | the error that aborted the run, or the outputs of the nodes that succeeded |
| DagEngine.ExecutionRun.constructor | core/rskit-dag/src/dag.rs:296-336 | a new run is the initial state with its in-degrees right |
| DagEngine.ExecutionRun.SpawnRoots | core/rskit-dag/src/dag.rs:327-336 | spawns exactly the nodes without predecessors, on the initial inputs |
| DagEngine.ExecutionRun.SpawnNode | core/rskit-dag/src/dag.rs:518-558 | adds a waiting task; the missing-node error is exactly for unknown ids |
| DagEngine.OwesNext | core/rskit-dag/src/dag.rs:457-492 | counting one dependent off keeps the in-degree of a waiting node equal to what has not been taken, and at zero all its predecessors have propagated |
| DagEngine.MidwayStep | core/rskit-dag/src/dag.rs:461-489 | a waiting dependent has a positive in-degree, and at zero all its predecessors have propagated |
| DagEngine.ExecutionRun.CountOff | core/rskit-dag/src/dag.rs:461-489 | counts one dependent down and spawns it when ready, without an internal error |
| DagEngine.ExecutionRun.ScheduleDependents | core/rskit-dag/src/dag.rs:457-492 | after the loop the counters again count exactly what has not propagated; no error exit is taken |
| DagEngine.SkipSearch | core/rskit-dag/src/dag.rs:587-602 | the search grows a closed set by everything reachable from its roots and nothing else, despite stopping early |
| DagEngine.MarkSkippedDependents | core/rskit-dag/src/dag.rs:587-602 | adds exactly the descendants of the failed node |
| DagEngine.ExecutionRun.StoreResult | core/rskit-dag/src/dag.rs:359-391 | moves the node from pending to completed and records its result, output or failure |
| DagEngine.ExecutionRun.AbortRun | core/rskit-dag/src/dag.rs:394-405 | keeps the first error, sets the flag, tells every live task to abort |
| DagEngine.ExecutionRun.Propagate | core/rskit-dag/src/dag.rs:374-376 | spawns exactly the nodes that became ready and restores the counters |
| DagEngine.ExecutionRun.ApplyOutcome | core/rskit-dag/src/dag.rs:358-422 | applies the node's failure behaviour as the state machine says, counters included |
| DagEngine.ExecutionRun.RecordExecution | core/rskit-dag/src/dag.rs:358-422 | one join step of the state machine; never an internal error |
| DagEngine.ExecutionRun.Quiet | core/rskit-dag/src/dag.rs:533-556 | taking a permit, finishing and dropping are steps of the state machine |
| DagEngine.ExecutionRun.Advance | core/rskit-dag/src/dag.rs:338-352 | any move the runtime may make is an enabled step and keeps the run valid |
| DagEngine.RunEngine | core/rskit-dag/src/dag.rs:288-355 | refuses exactly graphs with an override for an unknown node; otherwise terminates under every interleaving, within the permits, matching the sequential evaluation along every topological order and coming to the outcome spelt out over the graph's own policy and overrides |
| DagEngine.RunWithInputs | core/rskit-dag/src/dag.rs:279-286 | the report of that outcome; node failures are never an error |
| DagEngine.ExecuteWithInputs | core/rskit-dag/src/dag.rs:254-267 | the outputs of that outcome, or the error that aborted it |
| Registry.Registry.Register | core/rskit-component/src/registry.rs:61-68 | appends a created component, names unchecked |
| Registry.Registry.SetState | core/rskit-component/src/registry.rs:357-361 | changes one state; out of range does nothing |
| Registry.Registry.StopOne | core/rskit-component/src/registry.rs:274-306 | one stop call; Stopped on success, Failed otherwise |
| Registry.Registry.StopEach | core/rskit-component/src/registry.rs:273-308 | stops exactly the given components, once each, last registered first, with one result per component that agrees with its state |
| Registry.Registry.StopAllDetailed | core/rskit-component/src/registry.rs:265-309 | stops exactly the components in state Running, once each in reverse registration order, and changes no other; nothing runs afterwards |
| Registry.Registry.StopAll | core/rskit-component/src/registry.rs:242-262 | fails with Internal exactly when some stop failed |
| Registry.Registry.RollbackStarted | core/rskit-component/src/registry.rs:363-403 | stops exactly the running components under the given names, in reverse order, with one result per component that agrees with its state |
| Registry.Registry.GiveUp | core/rskit-component/src/registry.rs:97-155 | a failed start marks the component Failed, cleans up after a timeout, and rolls back |
| Registry.Registry.StartAll | core/rskit-component/src/registry.rs:71-159 | the exact states and calls left behind by success, by refusal (no rollback) and by failure at a component |
| Registry.StartAllIs | core/rskit-component/src/registry.rs:71-159 | spelt out by state and index: what is Created, Stopped or Failed is started in turn, Starting or Stopping refuses with Conflict and no rollback, a failure keeps the code of its answer, and exactly what runs under a started name is stopped again |
| Registry.RollbackExactIffNoClash | core/rskit-component/src/registry.rs:363-370 | rollback undoes exactly what was started if and only if no running component shares a name with a started one |
| Registry.AlwaysExactIffNoClash | core/rskit-component/src/registry.rs:363-370 | before the call: rollback is exact wherever the start may fail if and only if no running component shares a name with a startable one that precedes another startable one |
| Registry.ClashExample | core/rskit-component/src/registry.rs:364-369 | with a shared name a previously running component is stopped too |
| Registry.StartSettles | core/rskit-component/src/registry.rs:74-86 | from rest, a start is never refused and leaves everything at rest |
| Registry.AllOrRollback | core/rskit-component/src/registry.rs:71-159 | with unique names: everything runs, or one component is Failed, those started were stopped once in reverse order, and all others are untouched |
| ConcurrentStart.FlyingBounded | core/rskit-component/src/registry.rs:173-198 | never more than the permitted number are in flight |
| ConcurrentStart.TaskStateStep | core/rskit-component/src/registry.rs:406-452 | in every phase of its task a component is in the state that phase allows |
| ConcurrentStart.StepKeeps | core/rskit-component/src/registry.rs:187-223 | every event keeps that, keeps names, and touches only candidates |
| ConcurrentStart.EveryStateKeeps | core/rskit-component/src/registry.rs:162-223 | so does every sequence of events |
| ConcurrentStart.ErrorStep | core/rskit-component/src/registry.rs:205-222 | there is an error exactly when a joined task failed; the first join of a failed task sets it and nothing changes it afterwards |
| ConcurrentStart.FirstErrorIsFirst | core/rskit-component/src/registry.rs:207-219 | over every run the error kept is that of the first joined task that failed |
| ConcurrentStart.EndsWell | core/rskit-component/src/registry.rs:203-238 | without an error all candidates run, except those the caller's cancellation sent back |
| ConcurrentStart.EndsBadly | core/rskit-component/src/registry.rs:225-236 | with an error no candidate is Running or Starting; each is Failed, Stopped or as before; another component changes if and only if it was running under the name of a candidate |
| ConcurrentStart.EveryRunEnds | core/rskit-component/src/registry.rs:162-239 | every interleaving that ends, with its rollback, leaves exactly those outcomes, with an error exactly when a task failed, that of the first joined |
| ConcurrentStart.CandidateFate | core/rskit-component/src/registry.rs:406-452 | what becomes of each startable component, by the event that ended its start call: untouched if never called or cancelled, running or stopped again if it came up, Failed with an error otherwise |
| ConcurrentStart.ErrorHasCause | core/rskit-component/src/registry.rs:205-222 | the error is what the component whose failed task was joined first answered, or Timeout or Internal if it timed out or panicked |
| ConcurrentStart.TokenIs | core/rskit-component/src/registry.rs:412-422 | the token has fired exactly if the caller cancelled or a failed task was joined, and the start calls are the dispatches before that, in order |
| ConcurrentStart.NoStartOnceFired | core/rskit-component/src/registry.rs:412-419 | once the token has fired no start call is made |
| ConcurrentStart.CancelledAtOnce | core/rskit-component/src/registry.rs:412-419 | a start that the caller cancels before anything else calls nothing and changes nothing |
| ConcurrentStart.JoinsAfterSpawns | core/rskit-component/src/registry.rs:187-204 | every candidate is spawned before any task is joined |
| ConcurrentStart.PermitsAre | core/rskit-component/src/registry.rs:173-179 | a configured concurrency bounds the start calls under way; without one no candidate waits for a permit |
| ConcurrentStart.CallsAfter | core/rskit-component/src/registry.rs:406-452 | in every reachable state each candidate has been called at most once, and the calls made and broken off agree with its state |
| ConcurrentStart.NeverCleanedUp | core/rskit-component/src/registry.rs:412-450 | after an error a candidate whose start was called gets a stop call if and only if that start neither failed, timed out, panicked nor was cancelled under way |
| ConcurrentStart.LeftAloneExample | core/rskit-component/src/registry.rs:443-449 | a component whose start timed out gets no stop call |
| ConcurrentStart.NamesakeExample | core/rskit-component/src/registry.rs:225-226 | a component that was running is stopped because a candidate of the same name failed |
| ConcurrentStart.StepBurnsFuel | core/rskit-component/src/registry.rs:204-223 | every event uses up one of finitely many |
| ConcurrentStart.Progress | core/rskit-component/src/registry.rs:179-204 | while a task is not joined, some task can move |
| ConcurrentStart.RunTasks | core/rskit-component/src/registry.rs:187-223 | terminates under every schedule of completions, failures, timeouts, panics and cancellation, in the state those events lead to |
| ConcurrentStart.RollBack | core/rskit-component/src/registry.rs:225-236 | after an error takes down exactly what runs under the name of a candidate, in reverse order; otherwise nothing |
| ConcurrentStart.StartAllConcurrent | core/rskit-component/src/registry.rs:162-239 | is one complete run that follows the given schedule: its calls, error and registry are those of the state the events lead to, rollback included |
| ConcurrentStart.HistorySettles | core/rskit-component/src/registry.rs:71-87 | over any history of calls nothing ever rests in transition, no sequential start is refused, and every stop leaves nothing running |
| ConcurrentStart.RunHistory | core/rskit-component/src/registry.rs:71-309 | carries out any history with one reply per call, each the outcome that call promises |
| App.App.constructor | core/rskit-bootstrap/src/app.rs:176-198 | the application gets its own registry with every component freshly created, in order |
| App.App.RunHooks | core/rskit-bootstrap/src/lifecycle.rs:74-93 | calls hooks in order up to the first that does not pass and returns its error; a cancelled token or a failed publish keeps the hook from being called |
| App.HooksResultIs | core/rskit-bootstrap/src/lifecycle.rs:66-93 | a phase succeeds exactly when publishing works and every hook succeeds, beats the deadline, and in the four startup phases finds the token quiet; then all were called |
| App.HooksEndAt | core/rskit-bootstrap/src/lifecycle.rs:80-91 | at the first hook that does not pass: Cancelled without calling it in a startup phase with a cancelled token, otherwise its own error or Timeout |
| App.App.RollbackStartup | core/rskit-bootstrap/src/app.rs:422-444 | calls the before-stop hooks up to the first that fails and then, if asked to, stops everything that runs, in reverse order |
| App.App.RunStage | core/rskit-bootstrap/src/app.rs:322-325 | one hook stage of startup: on success the next stage begins, on failure this one is the first that failed |
| App.App.StartEach | core/rskit-bootstrap/src/app.rs:327-331 | on a fresh registry the component stages pass in order, or the first that fails is Failed, those before it are Stopped or Failed, and those after it are untouched |
| App.App.StartComponents | core/rskit-bootstrap/src/app.rs:327-355 | the stages from the components on, with the error, the journal and the component states of the first that fails |
| App.App.CheckReady | core/rskit-bootstrap/src/app.rs:333-352 | readiness and the last hooks, with the error of the first that fails |
| App.App.FinishStartup | core/rskit-bootstrap/src/app.rs:333-355 | a failed readiness check or hook is followed by the before-stop hooks and a stop of every component, each then Stopped or Failed |
| App.App.Start | core/rskit-bootstrap/src/app.rs:320-367 | ends at the first stage that fails: the error is that of this stage at the point it was reached, the journal is exactly its calls followed by the rollback, a component that failed to start is Failed, those that came up are Stopped or Failed, the others untouched; if none fails everything runs, every hook of the four phases passed, and the calls are the phases and components in order |
| App.SuccessMeans | core/rskit-bootstrap/src/app.rs:320-367 | a startup that succeeds calls configure hooks, before-start hooks, components, after-start hooks and ready hooks in this order, each hook with a quiet token |
| App.CancelledStartup | core/rskit-bootstrap/src/lifecycle.rs:81-86 | a token found cancelled before a startup hook ends the startup there with Cancelled, with exactly the hooks before it called |
| App.ReachedBegins | core/rskit-bootstrap/src/app.rs:320-352 | whatever stage a startup reaches, it has called a beginning of that order |
| App.FailedStartBrackets | core/rskit-bootstrap/src/app.rs:320-367 | whatever stage fails, each component that came up got one stop, in exact reverse start order, whatever the names, with one extra stop exactly after a timeout; after-stop hooks and container are untouched |
| App.App.Stop | core/rskit-bootstrap/src/app.rs:485-548 | every shutdown step runs whatever failed before it, the container last; each step has its own error, Internal when a component failed to stop, and the one returned is the first |
| App.FirstOfFour | core/rskit-bootstrap/src/lifecycle.rs:95-101 | merging keeps the first error |
| App.RunBrackets | core/rskit-bootstrap/src/app.rs:377-398 | over a whole run, whether startup fails at any stage or shutdown completes, each component that came up is stopped exactly once, in exact reverse start order |
| App.DownOnce | core/rskit-component/src/registry.rs:265-273 | the reverse order meets each component that came up exactly once |
| App.App.RunTask | core/rskit-bootstrap/src/app.rs:377-398 | the journal and the component states of a whole run, bracketed so, nothing left running; the error is that of the first failing startup stage, else of the work, else of the first failing shutdown step |
| Container.Container.constructor | core/rskit-di/src/container.rs:182-187 | an empty container, nothing being resolved |
| Container.Container.RegisterValue | core/rskit-di/src/container.rs:201-239 | replaces the registration; a closeable value adds a slot of its own |
| Container.Container.RegisterFactory | core/rskit-di/src/container.rs:259-268 | replaces the registration |
| Container.Container.RegisterSingleton | core/rskit-di/src/container.rs:288-346 | a new uncached registration; a replaced one keeps its close slot |
| Container.Container.Resolve | core/rskit-di/src/container.rs:361-379 | terminates, restores the stack on every exit, succeeds exactly when all it would touch is registered, acyclic, not in progress and not failing, and fails with exactly the error of a resolution that caches nothing |
| Container.Container.RunFactory | core/rskit-di/src/container.rs:361-379 | succeeds exactly when all dependencies resolve and the factory does not fail itself, and otherwise fails with the first dependency that fails, or else with its own error |
| Container.FailureIff | core/rskit-di/src/container.rs:361-379 | resolution without a cache fails exactly when something it would touch is unknown, on a cycle, in progress or failing |
| Container.FailingDep | core/rskit-di/src/container.rs:361-379 | a factory that does not fail on its own fails with the first of its dependencies, in order, that fails |
| Container.FailureNeutral | core/rskit-di/src/container.rs:66-76 | caching singletons that were resolvable changes nobody's error |
| Container.FailureBlamed | core/rskit-di/src/container.rs:361-379 | the error is accounted for by something that resolving the key would touch |
| Container.Container.ResolveSingleton | core/rskit-di/src/container.rs:66-76 | a cached value is returned as it is; a failed factory leaves the singleton uncached |
| Container.ResolvableIffNoCycle | core/rskit-di/src/container.rs:113-137 | with everything registered and no failing factory, resolution succeeds exactly when no cycle is within reach |
| Container.BlameUp | core/rskit-di/src/container.rs:361-379 | the error of a dependency is the error of the key that needs it, a cycle through the key included |
| Container.CacheNeutral | core/rskit-di/src/container.rs:66-76 | caching singletons that were resolvable changes nobody's resolvability |
| Container.Container.Close | core/rskit-di/src/container.rs:401-424 | closes the slots added since the last close in reverse order, past failures, and drains unresolved singletons |
| Container.ClosingsFall | core/rskit-di/src/container.rs:402-419 | one close goes through strictly decreasing slots |
| Container.ClosingsAre | core/rskit-di/src/container.rs:402-419 | one close goes through exactly the slots that hold an instance, with that instance |
| Container.ClosedOnceStill | core/rskit-di/src/container.rs:395-402 | no slot is ever closed twice |
| Container.FirstFailureIs | core/rskit-di/src/container.rs:430-447 | the error is that of the first close that failed, absent exactly when none did |
| Container.RegistryIs | core/rskit-di/src/container.rs:361-425 | over any history what is registered is determined by the registrations alone: resolving and closing change none |
| Container.HandsOut | core/rskit-di/src/container.rs:66-86 | over any history two successful resolutions of one singleton registration hand out one instance, two of a lazy one different instances, and a value is handed out as it is |
| Container.SlotsClosedOnce | core/rskit-di/src/container.rs:401-424 | over any history no close slot is closed twice |
| Container.ClosedForGood | core/rskit-di/src/container.rs:402-410 | over any history the first close after a slot was recorded settles it: it is closed, then or ever, if and only if it holds an instance at that close |
| Container.ValueIsClosed | core/rskit-di/src/container.rs:405-412 | over any history a closeable value is closed, as itself, by the first close after its registration |
| Container.SingletonIsClosed | core/rskit-di/src/container.rs:405-412 | a closeable singleton is closed exactly if it holds an instance at the first close after its registration, with that instance |
| Container.HandedOutIsClosed | core/rskit-di/src/container.rs:78-86 | one that a resolution handed out before that close is closed as what was handed out |
| Container.SlotsCounted | core/rskit-di/src/container.rs:226-239 | exactly the registrations of something closeable record a slot |
| Container.ClosedWasRecorded | core/rskit-di/src/container.rs:401-424 | nothing is closed that was not registered as closeable |
| Container.LeakExample | core/rskit-di/src/container.rs:402-410 | a closeable singleton first resolved after a close is not disposed of by a later one |
| Container.RunHistory | core/rskit-di/src/container.rs:179-425 | carries out any history with one reply per call, each the outcome that call promises; the stack is empty after each |
| Chain.RunCleanups | core/rskit-chain/src/executor.rs:32-45 | pops and runs every cleanup past failures, keeping the first error |
| Chain.CleanupErrorIs | core/rskit-chain/src/executor.rs:35-42 | the error kept is that of the first cleanup that fails, from the top, absent exactly when none fails |
| Chain.NestedIsFlat | core/rskit-chain/src/builder.rs:52-135 | the nested closures equal a flat interpreter on every input, failure and cancellation schedule |
| Chain.AfterCleanupsIs | core/rskit-chain/src/executor.rs:34-43 | popping until the stack is empty runs every cleanup on it exactly once, from the top, whichever of them fail |
| Chain.StackFromTop | core/rskit-chain/src/builder.rs:117-126 | the stack at step k holds exactly the cleanups of the steps before k, the latest on top |
| Chain.ChainOutcome | core/rskit-chain/src/builder.rs:59-127 | at a failure or cancellation at step k exactly the cleanups of earlier steps run, once each in reverse; on success none; the error stays the step's or Cancelled |
| Chain.ExecuteIs | core/rskit-chain/src/executor.rs:68-76 | the last value, Cancelled if the token fired before the step at which the chain stops, or that step's own error |
| Chain.ExecuteSucceedsIff | core/rskit-chain/src/executor.rs:68-76 | execution succeeds exactly when every step does and the token stays quiet before each |
| Balancer.RoundRobin.Pick | core/rskit-discovery/src/balancer.rs:33-41 | nothing for no instances, otherwise the counter modulo their number; the counter wraps |
| Balancer.RoundRobin.Round | core/rskit-discovery/src/balancer.rs:38-39 | the picks of a whole round and the counter after it |
| Balancer.FairRoundIff | core/rskit-discovery/src/balancer.rs:33-41 | a round gives every instance exactly one turn if and only if the counter does not wrap in it or the number divides the word size |
| Balancer.UnfairExample | core/rskit-discovery/src/balancer.rs:38-39 | with three instances and the counter about to wrap, the first two picks go to the same instance |
| Balancer.PickWeighted | core/rskit-discovery/src/balancer.rs:61-82 | the slot decides, and the fallback is never reached |
| Balancer.WeightedShare | core/rskit-discovery/src/balancer.rs:67-79 | exactly max(weight, 1) of all slots land on an instance |
| Balancer.LeastConnections.Pick | core/rskit-discovery/src/balancer.rs:119-131 | the first of the least loaded |
| Balancer.LeastConnections.Acquire | core/rskit-discovery/src/balancer.rs:98-103 | one more in flight, from zero for a new id |
| Balancer.LeastConnections.Release | core/rskit-discovery/src/balancer.rs:106-110 | one less, wrapping; unknown ids are ignored |
| Balancer.LeastConnections.Serve | core/rskit-discovery/src/balancer.rs:98-110 | after any history of acquires and releases each load is their difference since the first acquire, modulo the word size |
| Balancer.LoadsExactIff | core/rskit-discovery/src/balancer.rs:98-110 | the load is acquires minus releases throughout a history if and only if no prefix releases more than it acquired and the difference fits the word |
| Balancer.OverReleaseExample | core/rskit-discovery/src/balancer.rs:106-110 | one release too many leaves the load at the top of the word |
| Balancer.LeastConnections.Route | core/rskit-discovery/src/balancer.rs:97-131 | one more pick and acquire keeps the loads within one of each other and adds exactly one |
| Balancer.LeastConnections.Drive | core/rskit-discovery/src/balancer.rs:97-131 | picking and acquiring from idle keeps loads within one of each other and loses no request |

## Left out

- Node, hook and sequential component panics: a panicking DAG task ends the run with an error; only the join-error path of concurrent start is modelled.
- Wall-clock durations, tracing and the event bus: timeouts and publish failures are arbitrary answers.
- Error messages, contexts, hints and details: only the error code and which failure came first are kept.
- Cancellation token propagation to a run's nodes: safety covers any result a node may return; a failing concurrent start also fires the caller's own token, whose effect elsewhere is not modelled.
- DagBuilder.Dag.AddEdge: the source consumes the builder and drops it on error; the model leaves the object unchanged instead.
- DagEngine.RunEngine: the schedule-independence clause is for nodes that compute a function of their id and inputs.
- App.App.Start: stated for a registry whose components are all freshly created, which is what building an application yields.
- App.App.RunTask: stated for the same freshly built application; the caller's work is one arbitrary answer.
- Container.Container.Resolve: a factory is an ordered list of dependencies plus an optional failure of its own; factories that swallow a dependency's error, register things or resolve from other threads are not modelled.
- Container.Container.RegisterSingleton: the singleton's lock and cross-thread deadlock are not modelled.
- Chain.NestedIsFlat: steps are untyped values, and progress callbacks are dropped.
- Balancer.PickWeighted: the random slot is a parameter, and the 64-bit sum of more than 2^32 weights is not modelled.
- Random balancing: picks a uniformly random instance; there is nothing to state beyond its index being in range.
- `health_all`: asks every component for its health; readiness is one arbitrary answer per journal instead.
- `LazyComponent`: defers the construction of a component until it is started.
- Discovery components and servers: register and deregister a service instance when the component starts and stops.
- `as_tool.rs` of the DAG crate: maps a request to a run's initial inputs and its outputs to a response.
- `typed.rs` of the container crate: resolves by type parameter; the model's keys are plain identifiers.
- Everything outside these crates (codecs, HTTP, encryption, datasets, tooling): I/O or wrappers over libraries.
