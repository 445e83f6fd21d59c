/** One execution of a DAG as a state machine. A state is the scheduler's ledger together with its
    join set; an event is something the runtime may do next: hand a permit to a waiting task, let an
    executing task finish, drop an aborted task, or join a finished one. Every property of a run is
    proved for every sequence of enabled events. */
module DagScheduler {
  import opened Common
  import opened Graph
  import opened DagBuilder

  /** A JSON value, by its text. */
  datatype Value = Json(text: string)

  type Inputs = map<Id, Value>

  datatype NodeStatus = Completed | Errored | Skipped | Canceled | TimedOut

  datatype NodeResult = NodeResult(status: NodeStatus, output: Option<Value>, error: Option<ErrorCode>)

  datatype Phase = Waiting | Running | Finished(result: Result<Value>)

  /** A spawned task; `abort` is set once the join set has been told to abort it. */
  datatype Task = Task(inputs: Inputs, phase: Phase, abort: bool)

  type JoinSet = map<Id, Task>

  datatype Config = Config(g: Graph, policy: FailurePolicy, overrides: map<Id, OnError>, limit: nat, initial: Inputs)

  /** The scheduler's own bookkeeping. */
  datatype Ledger = Ledger(
    pending: set<Id>,
    completed: set<Id>,
    failed: set<Id>,
    skipped: set<Id>,
    outputs: Inputs,
    results: map<Id, NodeResult>,
    firstError: Option<ErrorCode>,
    aborted: bool)

  datatype Run = Run(tasks: JoinSet, ledger: Ledger)

  datatype Event = Acquire(id: Id) | Finish(id: Id, result: Result<Value>) | Drop(id: Id) | Join(id: Id)

  ghost predicate ValidConfig(c: Config) {
    WellFormed(c.g) && Acyclic(c.g.edges) && c.limit >= 1
  }

  function EffectiveOnError(c: Config, id: Id): OnError {
    if id in c.overrides then c.overrides[id] else DefaultOnError(c.policy)
  }

  function StatusFromError(code: ErrorCode): NodeStatus {
    match code
    case Timeout => TimedOut
    case Cancelled => Canceled
    case _ => Errored
  }

  function ResultOf(r: Result<Value>): NodeResult {
    match r
    case Ok(v) => NodeResult(Completed, Some(v), None)
    case Err(code) => NodeResult(StatusFromError(code), None, Some(code))
  }

  // ---------------------------------------------------------------- steps

  function Spawned(l: Ledger): set<Id> {
    l.pending + l.completed
  }

  function Executing(tasks: JoinSet): set<Id> {
    set v | v in tasks && tasks[v].phase.Running?
  }

  /** The nodes whose completion lets their successors go ahead. */
  function Propagated(c: Config, l: Ledger): set<Id> {
    set v | v in l.completed && (v !in l.failed || EffectiveOnError(c, v) == Continue)
  }

  ghost predicate PredecessorsIn(g: Graph, v: Id, p: set<Id>) {
    forall u :: u in Succ(g.rev, v) ==> u in p
  }

  /** What a node is given: the initial inputs at a root, otherwise the outputs of the predecessors
      that succeeded. */
  function CollectInputs(c: Config, outputs: Inputs, failed: set<Id>, v: Id): Inputs {
    var reverse := Succ(c.g.rev, v);
    if reverse == [] then c.initial
    else map u | u in reverse && u !in failed && u in outputs :: outputs[u]
  }

  function InputsFor(c: Config, l: Ledger, v: Id): Inputs {
    CollectInputs(c, l.outputs, l.failed, v)
  }

  /** The nodes that may be spawned now. */
  ghost function Ready(c: Config, l: Ledger): set<Id> {
    set v | v in c.g.nodes && v !in Spawned(l) && v !in l.skipped && PredecessorsIn(c.g, v, Propagated(c, l))
  }

  function NewTasks(c: Config, l: Ledger, vs: set<Id>): JoinSet {
    map v | v in vs :: Task(InputsFor(c, l, v), Waiting, false)
  }

  /** `s` with the nodes `vs` spawned. */
  function Grown(c: Config, s: Run, vs: set<Id>): Run {
    Run(s.tasks + NewTasks(c, s.ledger, vs), s.ledger.(pending := s.ledger.pending + vs))
  }

  ghost function Schedule(c: Config, s: Run): Run {
    Grown(c, s, Ready(c, s.ledger))
  }

  const IDLE := Run(map[], Ledger({}, {}, {}, {}, map[], map[], None, false))

  ghost function Init(c: Config): Run {
    Schedule(c, IDLE)
  }

  /** Move a joined node from pending to completed and store its result. */
  function Settle(l: Ledger, id: Id, r: Result<Value>): Ledger {
    var m := l.(pending := l.pending - {id},
                completed := l.completed + {id},
                results := l.results[id := ResultOf(r)]);
    match r
    case Ok(v) => m.(outputs := m.outputs[id := v])
    case Err(_) => m.(failed := m.failed + {id})
  }

  function AbortAll(tasks: JoinSet): JoinSet {
    map v | v in tasks :: tasks[v].(abort := true)
  }

  function FirstError(l: Ledger, code: ErrorCode): Ledger {
    l.(firstError := if l.firstError.None? then Some(code) else l.firstError, aborted := true)
  }

  /** Skip everything below `id`. */
  ghost function SkipBelow(c: Config, l: Ledger, id: Id): Ledger {
    l.(skipped := l.skipped + Descendants(c.g, id))
  }

  predicate Propagates(c: Config, id: Id, r: Result<Value>) {
    r.Ok? || EffectiveOnError(c, id) == Continue
  }

  ghost function Record(c: Config, s: Run, id: Id, r: Result<Value>): Run {
    var tasks, l := s.tasks - {id}, Settle(s.ledger, id, r);
    if Propagates(c, id, r) then Schedule(c, Run(tasks, l))
    else if EffectiveOnError(c, id) == Fail then Run(AbortAll(tasks), FirstError(l, r.error))
    else Run(tasks, SkipBelow(c, l, id))
  }

  ghost predicate Enabled(c: Config, s: Run, e: Event) {
    && e.id in s.tasks
    && var task := s.tasks[e.id];
       match e
       case Acquire(_) => task.phase.Waiting? && |Executing(s.tasks)| < c.limit
       case Finish(_, _) => task.phase.Running?
       case Drop(_) => task.abort && !task.phase.Finished?
       case Join(_) => task.phase.Finished?
  }

  ghost function Step(c: Config, s: Run, e: Event): Run
    requires Enabled(c, s, e)
  {
    match e
    case Acquire(id) => s.(tasks := s.tasks[id := s.tasks[id].(phase := Running)])
    case Finish(id, r) => s.(tasks := s.tasks[id := s.tasks[id].(phase := Finished(r))])
    case Drop(id) => s.(tasks := s.tasks - {id})
    case Join(id) => Record(c, s, id, s.tasks[id].phase.result)
  }

  /** The state after the events `es`; events that are not enabled have no effect. */
  ghost function After(c: Config, es: seq<Event>): Run {
    if es == [] then Init(c)
    else
      var s, e := After(c, es[..|es| - 1]), es[|es| - 1];
      if Enabled(c, s, e) then Step(c, s, e) else s
  }

  /** `es` can happen from the start of a run, in this order. */
  ghost predicate Feasible(c: Config, es: seq<Event>) {
    es != [] ==> Feasible(c, es[..|es| - 1]) && Enabled(c, After(c, es[..|es| - 1]), es[|es| - 1])
  }

  // ---------------------------------------------------------------- what every reachable state keeps

  ghost predicate Partitioned(c: Config, l: Ledger) {
    && l.pending + l.completed + l.skipped <= c.g.nodes
    && l.pending !! l.completed
    && l.skipped !! Spawned(l)
    && l.failed <= l.completed
  }

  ghost predicate Recorded(l: Ledger) {
    && l.results.Keys == l.completed
    && l.outputs.Keys == l.completed - l.failed
    && (forall v :: v in l.outputs && v in l.results ==> l.results[v] == ResultOf(Ok(l.outputs[v])))
    && (forall v :: v in l.failed && v in l.results ==>
          l.results[v].error.Some? && l.results[v] == ResultOf(Err(l.results[v].error.value)))
  }

  /** A node is spawned only after every predecessor has propagated... */
  ghost predicate SpawnedReady(c: Config, l: Ledger) {
    forall v :: v in Spawned(l) ==> PredecessorsIn(c.g, v, Propagated(c, l))
  }

  /** ...and, unless it is skipped, as soon as they all have. */
  ghost predicate ReadySpawned(c: Config, l: Ledger) {
    forall v :: v in c.g.nodes && PredecessorsIn(c.g, v, Propagated(c, l)) ==> v in Spawned(l) || v in l.skipped
  }

  ghost predicate FailedUnder(c: Config, l: Ledger, u: Id, how: OnError) {
    u in l.failed && EffectiveOnError(c, u) == how
  }

  ghost predicate BelowSkipFailure(c: Config, l: Ledger, v: Id) {
    exists u :: FailedUnder(c, l, u, Skip) && Descends(c.g.edges, u, v)
  }

  /** The skipped nodes are exactly the descendants of the nodes that failed under Skip. */
  ghost predicate SkipExact(c: Config, l: Ledger) {
    forall v :: v in l.skipped <==> BelowSkipFailure(c, l, v)
  }

  ghost predicate AbortExact(c: Config, l: Ledger) {
    && (l.aborted <==> l.firstError.Some?)
    && (l.aborted <==> exists u :: FailedUnder(c, l, u, Fail))
    && (l.aborted ==> exists u :: FailedUnder(c, l, u, Fail) && u in l.results && l.results[u].error == l.firstError)
  }

  ghost predicate LedgerInv(c: Config, l: Ledger) {
    && Partitioned(c, l)
    && Recorded(l)
    && SpawnedReady(c, l)
    && SkipExact(c, l)
    && AbortExact(c, l)
  }

  /** Live tasks are pending nodes; without an abort they are all of them. Each was given what its
      predecessors' recorded outcomes dictate, and the permits are respected. */
  ghost predicate TaskInv(c: Config, s: Run) {
    && s.tasks.Keys <= s.ledger.pending
    && (!s.ledger.aborted ==> s.tasks.Keys == s.ledger.pending)
    && (forall v :: v in s.tasks ==> s.tasks[v].inputs == InputsFor(c, s.ledger, v))
    && (forall v :: v in s.tasks && s.tasks[v].abort ==> s.ledger.aborted)
    && |Executing(s.tasks)| <= c.limit
  }

  ghost predicate Inv(c: Config, s: Run) {
    LedgerInv(c, s.ledger) && ReadySpawned(c, s.ledger) && TaskInv(c, s)
  }

  /** Nothing below a node that has not propagated has been spawned. */
  lemma NothingSpawnedBelow(c: Config, l: Ledger, u: Id, v: Id)
    requires WellFormed(c.g) && SpawnedReady(c, l) && u !in Propagated(c, l)
    requires Descends(c.g.edges, u, v)
    ensures v !in Spawned(l)
  {
    var idle := c.g.nodes - Spawned(l);
    var w :| w in Succ(c.g.edges, u) && Reaches(c.g.edges, w, v);
    forall x, y | (x == u || x in idle) && y in Succ(c.g.edges, x) ensures y in idle {
      MirrorMember(c.g, x, y);
      assert !PredecessorsIn(c.g, y, Propagated(c, l));
    }
    ClosedReach(c.g.edges, idle, w, v);
  }

  lemma SettlePropagated(c: Config, l: Ledger, id: Id, r: Result<Value>)
    requires id !in l.completed && l.failed <= l.completed
    ensures Propagated(c, Settle(l, id, r)) == Propagated(c, l) + if Propagates(c, id, r) then {id} else {}
  {
  }

  /** Recording one more node does not change what a node with settled predecessors is given. */
  lemma InputsStable(c: Config, l: Ledger, id: Id, r: Result<Value>, v: Id)
    requires id !in l.completed && l.failed <= l.completed && PredecessorsIn(c.g, v, l.completed)
    ensures InputsFor(c, Settle(l, id, r), v) == InputsFor(c, l, v)
  {
  }

  lemma ExecutingShrinks(a: JoinSet, b: JoinSet)
    requires forall v :: v in b && b[v].phase.Running? ==> v in a && a[v].phase.Running?
    ensures |Executing(b)| <= |Executing(a)|
  {
    SubsetCard(Executing(b), Executing(a));
  }

  /** Starting, finishing or dropping a task only touches the join set. */
  lemma QuietStepKeeps(c: Config, s: Run, e: Event)
    requires TaskInv(c, s) && Enabled(c, s, e) && !e.Join?
    ensures Step(c, s, e).ledger == s.ledger && TaskInv(c, Step(c, s, e))
  {
    var t := Step(c, s, e);
    if e.Acquire? {
      assert Executing(t.tasks) == Executing(s.tasks) + {e.id};
    } else {
      ExecutingShrinks(s.tasks, t.tasks);
    }
  }

  lemma SettleKeepsRecords(c: Config, l: Ledger, id: Id, r: Result<Value>)
    requires LedgerInv(c, l) && id in l.pending
    ensures Partitioned(c, Settle(l, id, r)) && Recorded(Settle(l, id, r)) && SpawnedReady(c, Settle(l, id, r))
  {
    SettleKeepsSpawned(c, l, id, r);
  }

  lemma SettleKeepsSpawned(c: Config, l: Ledger, id: Id, r: Result<Value>)
    requires SpawnedReady(c, l) && l.failed <= l.completed && id in l.pending && id !in l.completed
    ensures SpawnedReady(c, Settle(l, id, r)) && Spawned(Settle(l, id, r)) == Spawned(l)
  {
    SettlePropagated(c, l, id, r);
    assert Spawned(Settle(l, id, r)) == Spawned(l);
  }

  lemma SettleKeepsFailures(c: Config, l: Ledger, id: Id, r: Result<Value>)
    requires SkipExact(c, l) && AbortExact(c, l) && id !in l.failed && Propagates(c, id, r)
    ensures SkipExact(c, Settle(l, id, r)) && AbortExact(c, Settle(l, id, r))
  {
    var m := Settle(l, id, r);
    forall u, how | how != Continue ensures FailedUnder(c, m, u, how) <==> FailedUnder(c, l, u, how) {
    }
    forall v ensures BelowSkipFailure(c, m, v) <==> BelowSkipFailure(c, l, v) {
    }
  }

  lemma SettleKeepsTasks(c: Config, s: Run, id: Id, r: Result<Value>)
    requires LedgerInv(c, s.ledger) && TaskInv(c, s) && id in s.tasks
    ensures TaskInv(c, Run(s.tasks - {id}, Settle(s.ledger, id, r)))
  {
    var l, tasks := s.ledger, s.tasks - {id};
    forall v | v in tasks ensures tasks[v].inputs == InputsFor(c, Settle(l, id, r), v) {
      assert v in Spawned(l);
      InputsStable(c, l, id, r, v);
    }
    ExecutingShrinks(s.tasks, tasks);
  }

  /** Scheduling spawns every node that has become ready, and nothing else. */
  lemma ScheduleKeeps(c: Config, s: Run)
    requires WellFormed(c.g) && LedgerInv(c, s.ledger) && TaskInv(c, s)
    ensures Inv(c, Schedule(c, s))
  {
    var vs, t := Ready(c, s.ledger), Schedule(c, s);
    assert Propagated(c, t.ledger) == Propagated(c, s.ledger);
    assert Spawned(t.ledger) == Spawned(s.ledger) + vs;
    ScheduleKeepsTasks(c, s);
    assert forall u, how :: FailedUnder(c, t.ledger, u, how) <==> FailedUnder(c, s.ledger, u, how);
    forall v ensures BelowSkipFailure(c, t.ledger, v) <==> BelowSkipFailure(c, s.ledger, v) {
    }
  }

  lemma ScheduleKeepsTasks(c: Config, s: Run)
    requires WellFormed(c.g) && TaskInv(c, s)
    ensures TaskInv(c, Schedule(c, s))
  {
    var t, extra := Schedule(c, s), NewTasks(c, s.ledger, Ready(c, s.ledger));
    assert forall v :: v in extra ==> extra[v].phase.Waiting?;
    ExecutingShrinks(s.tasks, t.tasks);
  }

  lemma InitInv(c: Config)
    requires WellFormed(c.g)
    ensures Inv(c, Init(c))
  {
    assert Executing(IDLE.tasks) == {};
    assert Propagated(c, IDLE.ledger) == {};
    ScheduleKeeps(c, IDLE);
  }

  /** A failure under Fail starts the abort: every live task is told to stop. */
  lemma AbortKeeps(c: Config, s: Run, id: Id, code: ErrorCode)
    requires Inv(c, s) && id in s.tasks && EffectiveOnError(c, id) == Fail
    ensures Inv(c, Run(AbortAll(s.tasks - {id}), FirstError(Settle(s.ledger, id, Err(code)), code)))
  {
    AbortKeepsLedger(c, s.ledger, id, code);
    SettleKeepsTasks(c, s, id, Err(code));
    AbortKeepsTasks(c, Run(s.tasks - {id}, Settle(s.ledger, id, Err(code))), code);
  }

  lemma AbortKeepsTasks(c: Config, s: Run, code: ErrorCode)
    requires TaskInv(c, s)
    ensures TaskInv(c, Run(AbortAll(s.tasks), FirstError(s.ledger, code)))
  {
    ExecutingShrinks(s.tasks, AbortAll(s.tasks));
  }

  lemma AbortKeepsLedger(c: Config, l: Ledger, id: Id, code: ErrorCode)
    requires LedgerInv(c, l) && ReadySpawned(c, l) && id in l.pending && EffectiveOnError(c, id) == Fail
    ensures var n := FirstError(Settle(l, id, Err(code)), code);
            LedgerInv(c, n) && ReadySpawned(c, n)
  {
    var n := FirstError(Settle(l, id, Err(code)), code);
    SettleKeepsRecords(c, l, id, Err(code));
    SettlePropagated(c, l, id, Err(code));
    assert Propagated(c, n) == Propagated(c, l) && Spawned(n) == Spawned(l);
    AbortKeepsFailures(c, l, id, code);
  }

  lemma AbortKeepsFailures(c: Config, l: Ledger, id: Id, code: ErrorCode)
    requires SkipExact(c, l) && AbortExact(c, l) && Recorded(l) && l.failed <= l.completed
    requires id !in l.completed && EffectiveOnError(c, id) == Fail
    ensures var n := FirstError(Settle(l, id, Err(code)), code);
            SkipExact(c, n) && AbortExact(c, n)
  {
    var n := FirstError(Settle(l, id, Err(code)), code);
    assert forall u :: FailedUnder(c, n, u, Skip) <==> FailedUnder(c, l, u, Skip);
    forall v ensures BelowSkipFailure(c, n, v) <==> BelowSkipFailure(c, l, v) {
    }
    assert FailedUnder(c, n, id, Fail);
    if l.aborted {
      var u :| FailedUnder(c, l, u, Fail) && u in l.results && l.results[u].error == l.firstError;
      assert FailedUnder(c, n, u, Fail) && n.results[u].error == n.firstError;
    }
  }

  /** A failure under Skip adds exactly the descendants of the failed node, none of them spawned. */
  lemma SkipKeeps(c: Config, s: Run, id: Id, code: ErrorCode)
    requires WellFormed(c.g) && Inv(c, s) && id in s.tasks && EffectiveOnError(c, id) == Skip
    ensures Inv(c, Run(s.tasks - {id}, SkipBelow(c, Settle(s.ledger, id, Err(code)), id)))
  {
    SkipKeepsLedger(c, s.ledger, id, code);
    SettleKeepsTasks(c, s, id, Err(code));
  }

  lemma SkipKeepsLedger(c: Config, l: Ledger, id: Id, code: ErrorCode)
    requires WellFormed(c.g) && LedgerInv(c, l) && ReadySpawned(c, l)
    requires id in l.pending && EffectiveOnError(c, id) == Skip
    ensures var n := SkipBelow(c, Settle(l, id, Err(code)), id);
            LedgerInv(c, n) && ReadySpawned(c, n)
  {
    var n := SkipBelow(c, Settle(l, id, Err(code)), id);
    SettleKeepsRecords(c, l, id, Err(code));
    SettlePropagated(c, l, id, Err(code));
    assert Propagated(c, n) == Propagated(c, l) && Spawned(n) == Spawned(l);
    forall v | v in Descendants(c.g, id) ensures v !in Spawned(n) {
      NothingSpawnedBelow(c, l, id, v);
    }
    SkipKeepsFailures(c, l, id, code);
  }

  lemma SkipKeepsFailures(c: Config, l: Ledger, id: Id, code: ErrorCode)
    requires WellFormed(c.g) && SkipExact(c, l) && AbortExact(c, l) && Recorded(l) && l.failed <= l.completed
    requires id !in l.completed && EffectiveOnError(c, id) == Skip
    ensures var n := SkipBelow(c, Settle(l, id, Err(code)), id);
            SkipExact(c, n) && AbortExact(c, n)
  {
    var n := SkipBelow(c, Settle(l, id, Err(code)), id);
    assert forall u :: FailedUnder(c, n, u, Fail) <==> FailedUnder(c, l, u, Fail);
    assert forall u :: FailedUnder(c, n, u, Skip) <==> FailedUnder(c, l, u, Skip) || u == id;
    forall v ensures v in n.skipped <==> BelowSkipFailure(c, n, v) {
      if Descends(c.g.edges, id, v) {
        DescendantsInside(c.g, id, v);
        assert FailedUnder(c, n, id, Skip);
      }
    }
  }

  lemma StepKeeps(c: Config, s: Run, e: Event)
    requires WellFormed(c.g) && Inv(c, s) && Enabled(c, s, e)
    ensures Inv(c, Step(c, s, e))
  {
    if !e.Join? {
      QuietStepKeeps(c, s, e);
    } else {
      var r := s.tasks[e.id].phase.result;
      if Propagates(c, e.id, r) {
        SettleKeepsRecords(c, s.ledger, e.id, r);
        SettleKeepsFailures(c, s.ledger, e.id, r);
        SettleKeepsTasks(c, s, e.id, r);
        ScheduleKeeps(c, Run(s.tasks - {e.id}, Settle(s.ledger, e.id, r)));
      } else if EffectiveOnError(c, e.id) == Fail {
        AbortKeeps(c, s, e.id, r.error);
      } else {
        SkipKeeps(c, s, e.id, r.error);
      }
    }
  }

  /** Scheduler safety, in every state of every run, aborted runs included. */
  lemma {:induction false} EveryStateSafe(c: Config, es: seq<Event>)
    requires WellFormed(c.g)
    ensures Inv(c, After(c, es))
  {
    if es == [] {
      InitInv(c);
    } else {
      EveryStateSafe(c, es[..|es| - 1]);
      var s, e := After(c, es[..|es| - 1]), es[|es| - 1];
      if Enabled(c, s, e) {
        StepKeeps(c, s, e);
      }
    }
  }
}
