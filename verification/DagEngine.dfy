/** The engine that drives a run: the ready-count scheduler with its mutable in-degrees, the search
    that marks skipped dependents, and the join loop. Each operation is proved to perform exactly one
    step of the state machine, so its internal error exits are unreachable. */
module DagEngine {
  import opened Common
  import opened Graph
  import opened DagBuilder
  import opened DagScheduler
  import opened DagRuns
  import opened DagConfluence
  import opened DagOutcome

  /** The remaining in-degree of a node that is neither spawned nor skipped is the number of its
      predecessor entries, with multiplicity, that have not propagated. */
  ghost predicate Counted(c: Config, l: Ledger, remaining: map<Id, nat>) {
    && remaining.Keys == c.g.nodes == c.g.rev.Keys
    && forall v :: v in c.g.nodes && v !in Spawned(l) && v !in l.skipped ==>
         remaining[v] == CountOutside(c.g.rev[v], Propagated(c, l))
  }

  /** After the first `i` dependents of `id` have been counted off, with `p` propagated before it, the
      in-degree `n` of the waiting node `v` is positive and short of its count by what was taken. */
  ghost predicate Owes(g: Graph, id: Id, i: nat, p: set<Id>, v: Id, n: nat)
    requires WellFormed(g) && id in g.nodes && i <= |g.edges[id]| && v in g.nodes
  {
    n > 0 && n + Mult(g.edges[id][..i], v) == CountOutside(g.rev[v], p)
  }

  lemma OwesNext(g: Graph, id: Id, i: nat, p: set<Id>, v: Id, n: nat)
    requires WellFormed(g) && id in g.nodes && i < |g.edges[id]| && v in g.nodes && id !in p
    requires Owes(g, id, i, p, v, n)
    ensures g.edges[id][i] != v ==> Owes(g, id, i + 1, p, v, n)
    ensures g.edges[id][i] == v && n > 1 ==> Owes(g, id, i + 1, p, v, n - 1)
    ensures g.edges[id][i] == v && n == 1 ==> PredecessorsIn(g, v, p + {id})
  {
    SettleCount(g, id, v, p, i);
    CountOutsideZero(g.rev[v], p + {id});
  }

  /** Halfway through scheduling the dependents of `id`: of the nodes that were `waiting`, `news` have
      been spawned, and the first `i` dependents have been counted off the rest. */
  ghost predicate Midway(g: Graph, id: Id, i: nat, p: set<Id>, waiting: set<Id>, remaining: map<Id, nat>, news: set<Id>)
    requires WellFormed(g) && id in g.nodes && i <= |g.edges[id]|
  {
    && remaining.Keys == g.nodes
    && news <= waiting <= g.nodes
    && (forall v :: v in news ==> PredecessorsIn(g, v, p + {id}))
    && (forall v :: v in waiting && v !in news ==> Owes(g, id, i, p, v, remaining[v]))
  }

  /** A dependent that is still waiting has a positive in-degree, and when it drops to zero all its
      predecessors have propagated. */
  lemma MidwayStep(g: Graph, id: Id, i: nat, p: set<Id>, waiting: set<Id>, remaining: map<Id, nat>, news: set<Id>)
    requires WellFormed(g) && id in g.nodes && i < |g.edges[id]| && id !in p
    requires Midway(g, id, i, p, waiting, remaining, news)
    ensures var dep := g.edges[id][i];
            && dep in remaining
            && if dep !in waiting || dep in news then Midway(g, id, i + 1, p, waiting, remaining, news)
               else
                 && remaining[dep] > 0
                 && Midway(g, id, i + 1, p, waiting, remaining[dep := remaining[dep] - 1],
                           if remaining[dep] == 1 then news + {dep} else news)
  {
    var dep := g.edges[id][i];
    assert dep in g.nodes;
    forall v | v in waiting && v !in news
      ensures remaining[v] > 0
      ensures v != dep ==> Owes(g, id, i + 1, p, v, remaining[v])
      ensures v == dep && remaining[v] > 1 ==> Owes(g, id, i + 1, p, v, remaining[v] - 1)
      ensures v == dep && remaining[v] == 1 ==> PredecessorsIn(g, v, p + {id})
    {
      OwesNext(g, id, i, p, v, remaining[v]);
    }
  }

  lemma MidwayEnd(g: Graph, id: Id, p: set<Id>, waiting: set<Id>, remaining: map<Id, nat>, news: set<Id>)
    requires WellFormed(g) && id in g.nodes && id !in p
    requires Midway(g, id, |g.edges[id]|, p, waiting, remaining, news)
    ensures forall v :: v in waiting ==> (v in news <==> PredecessorsIn(g, v, p + {id}))
    ensures forall v :: v in waiting && v !in news ==> remaining[v] == CountOutside(g.rev[v], p + {id})
  {
    assert g.edges[id][..|g.edges[id]|] == g.edges[id];
    forall v | v in waiting && v !in news
      ensures remaining[v] == CountOutside(g.rev[v], p + {id}) && !PredecessorsIn(g, v, p + {id})
    {
      SettleCount(g, id, v, p, 0);
      CountOutsideZero(g.rev[v], p + {id});
    }
  }

  ghost function WaitingNodes(c: Config, l: Ledger): set<Id> {
    c.g.nodes - Spawned(l) - l.skipped
  }

  /** In a settled state every waiting node has a positive in-degree. */
  lemma WaitingPositive(c: Config, l: Ledger, remaining: map<Id, nat>, v: Id)
    requires WellFormed(c.g) && ReadySpawned(c, l) && Counted(c, l, remaining) && v in WaitingNodes(c, l)
    ensures remaining[v] > 0
  {
    assert !PredecessorsIn(c.g, v, Propagated(c, l));
    CountOutsideZero(c.g.rev[v], Propagated(c, l));
  }

  lemma MidwayStart(c: Config, l: Ledger, id: Id, remaining: map<Id, nat>)
    requires WellFormed(c.g) && ReadySpawned(c, l) && Counted(c, l, remaining) && id in c.g.nodes
    ensures Midway(c.g, id, 0, Propagated(c, l), WaitingNodes(c, l), remaining, {})
  {
    forall v | v in WaitingNodes(c, l)
      ensures remaining[v] > 0 && Mult(c.g.edges[id][..0], v) == 0
    {
      WaitingPositive(c, l, remaining, v);
      MultPositive(c.g.edges[id][..0], v);
    }
  }

  /** The search behind skipping: grow `skipped`, which is closed under edges, by everything reachable
      from `roots`. It stops early at nodes already skipped; its guard for pending nodes never fires
      when the region `d` holds none. */
  method SkipSearch(e: Adjacency, roots: seq<Id>, ghost d: set<Id>, skipped: set<Id>, pending: set<Id>)
    returns (r: set<Id>)
    requires ClosedUnder(e, d) && ClosedUnder(e, skipped) && d !! pending
    requires forall x :: x in roots ==> x in d
    ensures skipped <= r <= skipped + d
    ensures ClosedUnder(e, r) && forall x :: x in roots ==> x in r
  {
    r := skipped;
    var stack := roots;
    while stack != []
      invariant skipped <= r <= skipped + d
      invariant forall x :: x in stack ==> x in d
      invariant forall x :: x in roots ==> x in r || x in stack
      invariant forall x, y :: x in r && y in Succ(e, x) ==> y in r || y in stack
      decreases d - r, |stack|
    {
      var id := stack[|stack| - 1];
      ghost var before := stack;
      stack := stack[..|stack| - 1];
      assert before == stack + [id];
      if id in pending || id in r { continue; }
      r := r + {id};
      if id in e {
        stack := stack + e[id];
      }
    }
  }

  /** Marking the dependents of a failed node adds exactly its descendants. */
  method MarkSkippedDependents(g: Graph, failedId: Id, skipped: set<Id>, pending: set<Id>) returns (r: set<Id>)
    requires WellFormed(g) && failedId in g.nodes && ClosedUnder(g.edges, skipped)
    requires Descendants(g, failedId) !! pending
    ensures r == skipped + Descendants(g, failedId)
  {
    DescendantsClosed(g, failedId);
    r := SkipSearch(g.edges, g.edges[failedId], Descendants(g, failedId), skipped, pending);
    DescendantsLeast(g, failedId, r);
  }

  lemma DescendantsClosed(g: Graph, u: Id)
    requires WellFormed(g)
    ensures ClosedUnder(g.edges, Descendants(g, u))
    ensures forall x :: x in Succ(g.edges, u) ==> x in Descendants(g, u)
  {
    forall x, y | x in Descendants(g, u) && y in Succ(g.edges, x) ensures y in Descendants(g, u) {
      ReachEdge(g.edges, x, y);
      DescendTrans(g.edges, u, x, y);
    }
    forall x | x in Succ(g.edges, u) ensures x in Descendants(g, u) {
      ReachEdge(g.edges, u, x);
    }
  }

  lemma DescendantsLeast(g: Graph, u: Id, r: set<Id>)
    requires ClosedUnder(g.edges, r) && forall x :: x in Succ(g.edges, u) ==> x in r
    ensures Descendants(g, u) <= r
  {
    forall v | v in Descendants(g, u) ensures v in r {
      var w :| w in Succ(g.edges, u) && Reaches(g.edges, w, v);
      ClosedReach(g.edges, r, w, v);
    }
  }

  /** When the loop over the dependents is done, exactly the ready nodes have been spawned and the
      in-degrees count again. */
  lemma ScheduleDone(c: Config, l: Ledger, id: Id, r: Result<Value>, remaining: map<Id, nat>, news: set<Id>)
    requires WellFormed(c.g) && Partitioned(c, l) && id in l.pending && Propagates(c, id, r)
    requires Midway(c.g, id, |c.g.edges[id]|, Propagated(c, l), WaitingNodes(c, l), remaining, news)
    ensures var m := Settle(l, id, r);
            news == Ready(c, m) && Counted(c, m.(pending := m.pending + news), remaining)
  {
    var m := Settle(l, id, r);
    var p, waiting := Propagated(c, l), WaitingNodes(c, l);
    assert id !in p;
    MidwayEnd(c.g, id, p, waiting, remaining, news);
    SettlePropagated(c, l, id, r);
    assert Spawned(m) == Spawned(l);
    var n := m.(pending := m.pending + news);
    assert Propagated(c, n) == p + {id};
    assert Spawned(n) == Spawned(m) + news;
  }

  /** A step that propagates nothing leaves the in-degrees of the nodes that still wait untouched. */
  lemma CountedStays(c: Config, l: Ledger, n: Ledger, remaining: map<Id, nat>)
    requires Counted(c, l, remaining) && Propagated(c, n) == Propagated(c, l)
    requires Spawned(n) == Spawned(l) && l.skipped <= n.skipped
    ensures Counted(c, n, remaining)
  {
  }

  lemma GrowNone(c: Config, s: Run)
    ensures Grown(c, s, {}) == s
  {
    assert NewTasks(c, s.ledger, {}) == map[];
    assert s.tasks + map[] == s.tasks;
  }

  lemma GrowOne(c: Config, s: Run, news: set<Id>, v: Id)
    ensures Grown(c, s, news + {v}).tasks ==
            Grown(c, s, news).tasks[v := Task(InputsFor(c, s.ledger, v), Waiting, false)]
    ensures Grown(c, s, news + {v}).ledger.pending == Grown(c, s, news).ledger.pending + {v}
  {
    var task, made := Task(InputsFor(c, s.ledger, v), Waiting, false), NewTasks(c, s.ledger, news);
    assert NewTasks(c, s.ledger, news + {v}) == made[v := task];
    MergeOne(s.tasks, made, v, task);
  }

  lemma MergeOne(tasks: JoinSet, more: JoinSet, v: Id, task: Task)
    ensures tasks + more[v := task] == (tasks + more)[v := task]
  {
  }

  class ExecutionRun {
    const c: Config
    var tasks: JoinSet
    var remaining: map<Id, nat>
    var pending: set<Id>
    var completed: set<Id>
    var failed: set<Id>
    var skipped: set<Id>
    var outputs: Inputs
    var results: map<Id, NodeResult>
    var firstError: Option<ErrorCode>
    var aborted: bool

    function Book(): Ledger
      reads this
    {
      Ledger(pending, completed, failed, skipped, outputs, results, firstError, aborted)
    }

    function Value(): Run
      reads this
    {
      Run(tasks, Book())
    }

    ghost predicate Valid()
      reads this
    {
      ValidConfig(c) && Inv(c, Value()) && Counted(c, Book(), remaining)
    }

    /** A fresh run: in-degrees from the reverse lists, and every root spawned. */
    constructor (c: Config)
      requires ValidConfig(c)
      ensures Valid() && this.c == c && Value() == Init(c)
    {
      this.c := c;
      tasks, pending, completed, failed, skipped := map[], {}, {}, {}, {};
      outputs, results, firstError, aborted := map[], map[], None, false;
      remaining := map v | v in c.g.nodes :: |Succ(c.g.rev, v)|;
      new;
      SpawnRoots();
      InitInv(c);
      InitCounted(c, remaining);
    }

    method SpawnRoots()
      requires WellFormed(c.g) && Value() == IDLE && remaining.Keys == c.g.nodes
      requires forall v :: v in c.g.nodes ==> remaining[v] == |Succ(c.g.rev, v)|
      modifies this`pending, this`tasks
      ensures Value() == Init(c)
    {
      var roots := Enumerate(set v | v in c.g.nodes && remaining[v] == 0);
      RootsReady(c);
      assert Elems(roots) == Ready(c, IDLE.ledger);
      assert Elems(roots[..0]) == {};
      GrowNone(c, IDLE);
      for i := 0 to |roots|
        invariant Value() == Grown(c, IDLE, Elems(roots[..i]))
      {
        GrowOne(c, IDLE, Elems(roots[..i]), roots[i]);
        assert roots[i] in Elems(roots);
        var spawned := SpawnNode(roots[i], c.initial);
        assert Elems(roots[..i + 1]) == Elems(roots[..i]) + {roots[i]};
      }
      assert roots[..|roots|] == roots;
    }

    /** Spawn a node; the missing-node error is only for unknown ids. */
    method SpawnNode(id: Id, inputs: Inputs) returns (r: Outcome)
      modifies this`pending, this`tasks
      ensures r.Done? <==> id in c.g.nodes
      ensures r.Done? ==> pending == old(pending) + {id} && tasks == old(tasks)[id := Task(inputs, Waiting, false)]
      ensures r.Failed? ==> r.error == Internal && pending == old(pending) && tasks == old(tasks)
    {
      if id !in c.g.nodes { return Failed(Internal); }
      pending := pending + {id};
      tasks := tasks[id := Task(inputs, Waiting, false)];
      return Done;
    }

    /** Halfway through the dependents of `id`, the run has grown by `news` from `before`. */
    ghost predicate Scheduling(id: Id, i: nat, p: set<Id>, waiting: set<Id>, before: Run, news: set<Id>)
      reads this
      requires WellFormed(c.g) && id in c.g.nodes && i <= |c.g.edges[id]|
    {
      Midway(c.g, id, i, p, waiting, remaining, news) && Value() == Grown(c, before, news)
    }

    /** Count dependent `i` of `id` down, and spawn it when that makes it ready. */
    method CountOff(id: Id, i: nat, ghost p: set<Id>, ghost waiting: set<Id>, ghost before: Run, ghost news: set<Id>)
      returns (r: Outcome, ghost more: set<Id>)
      requires WellFormed(c.g) && id in c.g.nodes && id !in p && i < |c.g.edges[id]|
      requires waiting == WaitingNodes(c, before.ledger) && Scheduling(id, i, p, waiting, before, news)
      modifies this`remaining, this`pending, this`tasks
      ensures r.Done? && Scheduling(id, i + 1, p, waiting, before, more)
    {
      MidwayStep(c.g, id, i, p, waiting, remaining, news);
      var dep := c.g.edges[id][i];
      assert dep in completed || dep in pending || dep in skipped <==> dep !in waiting || dep in news;
      if dep in completed || dep in pending || dep in skipped { return Done, news; }
      if remaining[dep] == 0 { return Failed(Internal), news; }
      remaining := remaining[dep := remaining[dep] - 1];
      if remaining[dep] != 0 { return Done, news; }
      r := SpawnNode(dep, CollectInputs(c, outputs, failed, dep));
      GrowOne(c, before, news, dep);
      more := news + {dep};
    }

    /** Count a propagated node off its dependents and spawn those that become ready. Neither the
        underflow nor the missing-node error can occur. */
    method ScheduleDependents(id: Id, ghost p: set<Id>, ghost waiting: set<Id>)
      returns (r: Outcome, ghost news: set<Id>)
      requires WellFormed(c.g) && id in c.g.nodes && id !in p
      requires waiting == WaitingNodes(c, Book()) && Midway(c.g, id, 0, p, waiting, remaining, {})
      modifies this`remaining, this`pending, this`tasks
      ensures r.Done? && Scheduling(id, |c.g.edges[id]|, p, waiting, old(Value()), news)
    {
      r, news := Done, {};
      ghost var before := Value();
      GrowNone(c, before);
      for i := 0 to |c.g.edges[id]|
        invariant r.Done? && Scheduling(id, i, p, waiting, before, news)
      {
        r, news := CountOff(id, i, p, waiting, before, news);
        if r.Failed? { return; }
      }
    }

    /** Store the outcome of a joined node. */
    method StoreResult(id: Id, res: Result<Value>)
      modifies this`tasks, this`pending, this`results, this`completed, this`outputs, this`failed
      ensures Value() == Run(old(tasks) - {id}, Settle(old(Book()), id, res))
    {
      tasks := tasks - {id};
      pending := pending - {id};
      results := results[id := ResultOf(res)];
      completed := completed + {id};
      if res.Ok? {
        outputs := outputs[id := res.value];
      } else {
        failed := failed + {id};
      }
    }

    /** Let the successors of the node `id`, just settled from the ledger `l`, go ahead. */
    method Propagate(ghost l: Ledger, id: Id, ghost res: Result<Value>) returns (r: Outcome)
      requires WellFormed(c.g) && Partitioned(c, l) && ReadySpawned(c, l) && Counted(c, l, remaining)
      requires id in l.pending && Propagates(c, id, res) && Book() == Settle(l, id, res)
      modifies this`remaining, this`pending, this`tasks
      ensures r.Done? && Counted(c, Book(), remaining)
      ensures Value() == Schedule(c, old(Value()))
    {
      ghost var news;
      MidwayStart(c, l, id, remaining);
      assert WaitingNodes(c, l) == WaitingNodes(c, Settle(l, id, res));
      r, news := ScheduleDependents(id, Propagated(c, l), WaitingNodes(c, l));
      ScheduleDone(c, l, id, res, remaining, news);
    }

    /** Abort the run: keep the first error and tell every live task to stop. */
    method AbortRun(code: ErrorCode)
      modifies this`firstError, this`aborted, this`tasks
      ensures Value() == Run(AbortAll(old(tasks)), FirstError(old(Book()), code))
    {
      if firstError.None? { firstError := Some(code); }
      aborted := true;
      tasks := AbortAll(tasks);
    }

    /** Store an outcome and act on it as the node's failure behaviour says. */
    method ApplyOutcome(id: Id, res: Result<Value>) returns (r: Outcome)
      requires WellFormed(c.g) && Partitioned(c, Book()) && ReadySpawned(c, Book()) && Counted(c, Book(), remaining)
      requires id in pending && ClosedUnder(c.g.edges, skipped) && Descendants(c.g, id) !! pending - {id}
      modifies this
      ensures r.Done? && Counted(c, Book(), remaining)
      ensures Value() == Record(c, old(Value()), id, res)
    {
      ghost var l := Book();
      StoreResult(id, res);
      if Propagates(c, id, res) {
        r := Propagate(l, id, res);
      } else if EffectiveOnError(c, id) == Fail {
        AbortRun(res.error);
        FailCounted(c, l, id, res.error, remaining);
        r := Done;
      } else {
        skipped := MarkSkippedDependents(c.g, id, skipped, pending);
        SkipCounted(c, l, id, res.error, remaining);
        r := Done;
      }
    }

    /** Record a joined node: one step of the state machine, which never reports an internal error. */
    method RecordExecution(id: Id) returns (r: Outcome)
      requires Valid() && Enabled(c, Value(), Join(id))
      modifies this
      ensures Valid() && r.Done?
      ensures Value() == Step(c, old(Value()), Join(id))
    {
      StepKeeps(c, Value(), Join(id));
      SkipSafe(c, Value(), id);
      r := ApplyOutcome(id, tasks[id].phase.result);
    }

    /** What the runtime does to a task between spawning and joining it. */
    method Quiet(e: Event)
      requires Valid() && Enabled(c, Value(), e) && !e.Join?
      modifies this`tasks
      ensures Valid() && Value() == Step(c, old(Value()), e)
    {
      StepKeeps(c, Value(), e);
      match e
      case Acquire(id) => tasks := tasks[id := tasks[id].(phase := Running)];
      case Finish(id, r) => tasks := tasks[id := tasks[id].(phase := Finished(r))];
      case Drop(id) => tasks := tasks - {id};
    }

    /** Any move the runtime may make next, with the node behaviour `b`. */
    method ChooseMove(b: Behaviour) returns (e: Event)
      requires TaskInv(c, Value()) && c.limit >= 1 && tasks != map[]
      ensures Enabled(c, Value(), e) && Obeys(b, Value(), e)
    {
      Progress(c, Value(), _ => Err(Internal));
      ghost var possible :| Enabled(c, Value(), possible);
      assert possible.id in tasks;
      var id :| id in tasks && (tasks[id].phase.Waiting? ==> tasks[id].abort || |Executing(tasks)| < c.limit);
      var task := tasks[id];
      var permit := |Executing(tasks)| < c.limit;
      var drop: bool := *;
      match task.phase
      case Finished(_) => e := Join(id);
      case Waiting =>
        e := if task.abort && (drop || !permit) then Drop(id) else Acquire(id);
      case Running =>
        e := if task.abort && drop then Drop(id) else Finish(id, b(id, task.inputs));
    }

    /** Let the runtime make any one possible move. */
    method Advance(b: Behaviour) returns (e: Event)
      requires Valid() && tasks != map[]
      modifies this
      ensures Enabled(c, old(Value()), e) && Obeys(b, old(Value()), e)
      ensures Valid() && Value() == Step(c, old(Value()), e)
    {
      e := ChooseMove(b);
      if e.Join? {
        var r := RecordExecution(e.id);
      } else {
        Quiet(e);
      }
    }
  }

  lemma RootsReady(c: Config)
    requires WellFormed(c.g)
    ensures Ready(c, IDLE.ledger) == set v | v in c.g.nodes && |Succ(c.g.rev, v)| == 0
    ensures forall v :: v in Ready(c, IDLE.ledger) ==> InputsFor(c, IDLE.ledger, v) == c.initial
  {
    assert Propagated(c, IDLE.ledger) == {};
    forall v | v in c.g.nodes ensures PredecessorsIn(c.g, v, {}) <==> |Succ(c.g.rev, v)| == 0 {
      if |Succ(c.g.rev, v)| > 0 {
        assert Succ(c.g.rev, v)[0] in Succ(c.g.rev, v);
      }
    }
  }

  lemma InitCounted(c: Config, remaining: map<Id, nat>)
    requires WellFormed(c.g) && remaining.Keys == c.g.nodes
    requires forall v :: v in c.g.nodes ==> remaining[v] == |c.g.rev[v]|
    ensures Counted(c, Init(c).ledger, remaining)
  {
    assert Propagated(c, Init(c).ledger) == {};
    forall v | v in c.g.nodes ensures remaining[v] == CountOutside(c.g.rev[v], {}) {
      CountOutsideEmpty(c.g.rev[v]);
    }
  }

  function ConfigOf(dag: Dag, initial: Inputs): Config
    reads dag
  {
    Config(dag.Value(), dag.failurePolicy, dag.nodeOnError, dag.maxParallelism, initial)
  }

  /** The engine, under every interleaving of its tasks. It refuses exactly the graphs with an
      override for an unknown node. Otherwise it terminates with no live task, aborted exactly when
      evaluating the nodes in topological order meets a failure under Fail. Whatever it recorded is a
      result of that evaluation, and if it was not aborted its report and outputs are all of it. */
  method RunEngine(dag: Dag, initial: Inputs, b: Behaviour) returns (r: Result<ExecutionRun>, ghost es: seq<Event>)
    requires dag.Valid()
    ensures r.Err? <==> exists id :: id in dag.nodeOnError && id !in dag.nodes
    ensures r.Err? ==> r.error == InvalidInput
    ensures r.Ok? ==> fresh(r.value) && r.value.Valid() && r.value.tasks == map[]
    ensures r.Ok? ==> r.value.c == ConfigOf(dag, initial) && r.value.Value() == After(r.value.c, es)
    ensures r.Ok? ==> forall order :: TopologicalOrder(dag.Value(), order) ==>
              Matches(r.value.c, r.value.Book(), Evaluate(r.value.c, b, order))
    ensures r.Ok? ==> ComesTo(dag.Value(), dag.failurePolicy, dag.nodeOnError, initial, b, r.value.Book())
    ensures r.Ok? ==> forall n :: 0 <= n <= |es| ==> AtMost(After(r.value.c, es[..n]).tasks, dag.maxParallelism)
  {
    es := [];
    var sorted := dag.TopologicalSort();
    if sorted.Err? { return Err(InvalidInput), es; }
    if id :| id in dag.nodeOnError && id !in dag.nodes { return Err(InvalidInput), es; }
    var c := ConfigOf(dag, initial);
    var run := new ExecutionRun(c);
    while run.tasks != map[]
      invariant fresh(run) && run.c == c && run.Valid()
      invariant run.Value() == After(c, es) && FollowsBehaviour(c, b, es)
      decreases Fuel(c, run.Value())
    {
      ghost var s := run.Value();
      ghost var e := run.Advance(b);
      StepBurnsFuel(c, s, e);
      ExtendRun(c, b, es, e);
      es := es + [e];
    }
    EngineDone(c, b, es);
    return Ok(run), es;
  }

  /** What an ended run of the engine has come to. */
  lemma EngineDone(c: Config, b: Behaviour, es: seq<Event>)
    requires ValidConfig(c) && FollowsBehaviour(c, b, es) && Ended(After(c, es))
    ensures forall order :: TopologicalOrder(c.g, order) ==> Matches(c, After(c, es).ledger, Evaluate(c, b, order))
    ensures ComesTo(c.g, c.policy, c.overrides, c.initial, b, After(c, es).ledger)
    ensures forall n :: 0 <= n <= |es| ==> AtMost(After(c, es[..n]).tasks, c.limit)
  {
    forall order | TopologicalOrder(c.g, order) ensures Matches(c, After(c, es).ledger, Evaluate(c, b, order)) {
      ScheduleIndependence(c, b, es, order);
    }
    EveryRunComesTo(c, b, es);
    forall n | 0 <= n <= |es| ensures AtMost(After(c, es[..n]).tasks, c.limit) {
      NeverTooMany(c, es[..n]);
    }
  }

  /** Run the graph and report on every node. Node failures are in the report; the only error is that of
      an override for an unknown node. */
  method RunWithInputs(dag: Dag, initial: Inputs, b: Behaviour)
    returns (r: Result<map<Id, NodeResult>>, ghost l: Ledger)
    requires dag.Valid()
    ensures if exists id :: id in dag.nodeOnError && id !in dag.nodes then r == Err(InvalidInput)
            else
              && ComesTo(dag.Value(), dag.failurePolicy, dag.nodeOnError, initial, b, l)
              && r.Ok? && Reports(dag.Value(), l, r.value)
  {
    var run;
    ghost var es;
    run, es := RunEngine(dag, initial, b);
    if run.Err? { return Err(run.error), IDLE.ledger; }
    l := run.value.Book();
    ReportIs(run.value.c, b, l);
    return Ok(BuildResult(run.value.c, run.value.Book())), l;
  }

  /** Run the graph for its outputs: those of every node that succeeded, or the error of the failure that
      aborted the run. */
  method ExecuteWithInputs(dag: Dag, initial: Inputs, b: Behaviour) returns (r: Result<Inputs>, ghost l: Ledger)
    requires dag.Valid()
    ensures if exists id :: id in dag.nodeOnError && id !in dag.nodes then r == Err(InvalidInput)
            else
              && ComesTo(dag.Value(), dag.failurePolicy, dag.nodeOnError, initial, b, l)
              && if l.aborted then l.firstError.Some? && r == Err(l.firstError.value) else r == Ok(l.outputs)
  {
    var run;
    ghost var es;
    run, es := RunEngine(dag, initial, b);
    if run.Err? { return Err(run.error), IDLE.ledger; }
    l := run.value.Book();
    ExecuteIs(run.value.c, b, l);
    return ExecuteResult(run.value.Book()), l;
  }

  lemma ExtendRun(c: Config, b: Behaviour, es: seq<Event>, e: Event)
    requires FollowsBehaviour(c, b, es) && Enabled(c, After(c, es), e) && Obeys(b, After(c, es), e)
    ensures FollowsBehaviour(c, b, es + [e]) && After(c, es + [e]) == Step(c, After(c, es), e)
  {
    var fs := es + [e];
    assert fs[..|es|] == es;
    forall i | 0 <= i < |fs| ensures Obeys(b, After(c, fs[..i]), fs[i]) {
      if i < |es| {
        assert fs[..i] == es[..i];
      }
    }
  }

  lemma FailCounted(c: Config, l: Ledger, id: Id, code: ErrorCode, remaining: map<Id, nat>)
    requires Counted(c, l, remaining) && id in l.pending && id !in l.completed && l.failed <= l.completed
    requires EffectiveOnError(c, id) == Fail
    ensures Counted(c, FirstError(Settle(l, id, Err(code)), code), remaining)
  {
    var m := Settle(l, id, Err(code));
    SettlePropagated(c, l, id, Err(code));
    assert Propagated(c, FirstError(m, code)) == Propagated(c, m);
    assert Spawned(FirstError(m, code)) == Spawned(l);
    CountedStays(c, l, FirstError(m, code), remaining);
  }

  lemma SkipCounted(c: Config, l: Ledger, id: Id, code: ErrorCode, remaining: map<Id, nat>)
    requires Counted(c, l, remaining) && id in l.pending && id !in l.completed && l.failed <= l.completed
    requires EffectiveOnError(c, id) == Skip
    ensures Counted(c, SkipBelow(c, Settle(l, id, Err(code)), id), remaining)
  {
    var m := Settle(l, id, Err(code));
    SettlePropagated(c, l, id, Err(code));
    assert Propagated(c, SkipBelow(c, m, id)) == Propagated(c, m);
    assert Spawned(SkipBelow(c, m, id)) == Spawned(l);
    CountedStays(c, l, SkipBelow(c, m, id), remaining);
  }

  /** The preconditions of the skip search hold whenever a node fails under Skip. */
  lemma SkipSafe(c: Config, s: Run, id: Id)
    requires WellFormed(c.g) && Inv(c, s) && id in s.tasks
    ensures id in c.g.nodes && ClosedUnder(c.g.edges, s.ledger.skipped)
    ensures Descendants(c.g, id) !! s.ledger.pending - {id}
  {
    SkipClosed(c, s.ledger);
    forall v | v in Descendants(c.g, id) ensures v !in s.ledger.pending {
      NothingSpawnedBelow(c, s.ledger, id, v);
    }
  }
}
