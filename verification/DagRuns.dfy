/** What holds over whole DAG runs: every run is finite, no node is executed or joined twice, some
    step is possible while a task lives, a run that was not aborted leaves no node stranded, and the
    two ways of reading its outcome agree. */
module DagRuns {
  import opened Common
  import opened Graph
  import opened DagBuilder
  import opened DagScheduler

  // ---------------------------------------------------------------- termination

  /** The three things that can happen to a node, each at most once. */
  datatype Stage = Start | End | Leave

  function StageOf(e: Event): Stage {
    match e
    case Acquire(_) => Start
    case Finish(_, _) => End
    case Drop(_) => Leave
    case Join(_) => Leave
  }

  function Before(g: Stage, t: Task): bool {
    match g
    case Start => t.phase.Waiting?
    case End => !t.phase.Finished?
    case Leave => true
  }

  /** The nodes that have not been through stage `g` yet. */
  function Remaining(c: Config, s: Run, g: Stage): set<Id> {
    (c.g.nodes - Spawned(s.ledger)) + (set v | v in s.tasks && Before(g, s.tasks[v]))
  }

  /** A step takes its node out of its stage and puts no node back into any stage. */
  lemma StepShrinks(c: Config, s: Run, e: Event, g: Stage)
    requires Partitioned(c, s.ledger) && TaskInv(c, s) && Enabled(c, s, e)
    ensures Remaining(c, Step(c, s, e), g) <= Remaining(c, s, g)
    ensures e.id in Remaining(c, s, StageOf(e)) && e.id !in Remaining(c, Step(c, s, e), StageOf(e))
  {
    if e.Join? {
      JoinSpawns(c, s, e.id);
    }
  }

  lemma JoinSpawns(c: Config, s: Run, id: Id)
    requires Partitioned(c, s.ledger) && TaskInv(c, s) && Enabled(c, s, Join(id))
    ensures var t := Step(c, s, Join(id));
            && Spawned(s.ledger) <= Spawned(t.ledger)
            && id !in t.tasks
            && forall v :: v in t.tasks ==>
                 if v in s.tasks then t.tasks[v].phase == s.tasks[v].phase
                 else v in c.g.nodes - Spawned(s.ledger)
  {
    var r := s.tasks[id].phase.result;
    var l := Settle(s.ledger, id, r);
    assert Spawned(l) == Spawned(s.ledger);
    if Propagates(c, id, r) {
      assert Ready(c, l) !! s.tasks.Keys;
    }
  }

  /** The nodes still before stage `g` after the first `i` events. */
  ghost function RemainingAt(c: Config, es: seq<Event>, i: nat, g: Stage): set<Id>
    requires i <= |es|
  {
    Remaining(c, After(c, es[..i]), g)
  }

  lemma EventShrinks(c: Config, es: seq<Event>, i: nat, g: Stage)
    requires WellFormed(c.g) && i < |es|
    ensures RemainingAt(c, es, i + 1, g) <= RemainingAt(c, es, i, g)
    ensures Feasible(c, es) && g == StageOf(es[i]) ==>
              es[i].id in RemainingAt(c, es, i, g) && es[i].id !in RemainingAt(c, es, i + 1, g)
  {
    var fewer, more := es[..i], es[..i + 1];
    assert more[..|more| - 1] == fewer && more[|more| - 1] == es[i];
    EveryStateSafe(c, fewer);
    if Feasible(c, es) {
      FeasiblePrefix(c, es, i);
    }
    if Enabled(c, After(c, fewer), es[i]) {
      StepShrinks(c, After(c, fewer), es[i], g);
    }
  }

  lemma {:induction false} RemainingShrinks(c: Config, es: seq<Event>, i: nat, j: nat, g: Stage)
    requires WellFormed(c.g) && i <= j <= |es|
    ensures RemainingAt(c, es, j, g) <= RemainingAt(c, es, i, g)
    decreases j - i
  {
    if i < j {
      EventShrinks(c, es, i, g);
      RemainingShrinks(c, es, i + 1, j, g);
    }
  }

  lemma {:induction false} FeasiblePrefix(c: Config, es: seq<Event>, i: nat)
    requires Feasible(c, es) && i < |es|
    ensures Enabled(c, After(c, es[..i]), es[i]) && Feasible(c, es[..i])
    decreases |es|
  {
    if i < |es| - 1 {
      FeasiblePrefix(c, es[..|es| - 1], i);
      assert es[..|es| - 1][..i] == es[..i];
    }
  }

  /** No node is started, finished or taken out of the join set twice. */
  lemma OncePerStage(c: Config, es: seq<Event>, i: nat, j: nat)
    requires WellFormed(c.g) && Feasible(c, es) && i < j < |es|
    requires StageOf(es[i]) == StageOf(es[j])
    ensures es[i].id != es[j].id
  {
    var g := StageOf(es[i]);
    EventShrinks(c, es, i, g);
    EventShrinks(c, es, j, g);
    RemainingShrinks(c, es, i + 1, j, g);
  }

  ghost function Fuel(c: Config, s: Run): nat {
    |Remaining(c, s, Start)| + |Remaining(c, s, End)| + |Remaining(c, s, Leave)|
  }

  lemma StageFalls(c: Config, s: Run, e: Event, g: Stage)
    requires Partitioned(c, s.ledger) && TaskInv(c, s) && Enabled(c, s, e)
    ensures |Remaining(c, Step(c, s, e), g)| <= |Remaining(c, s, g)|
    ensures g == StageOf(e) ==> |Remaining(c, Step(c, s, e), g)| < |Remaining(c, s, g)|
  {
    StepShrinks(c, s, e, g);
    SubsetCard(Remaining(c, Step(c, s, e), g), Remaining(c, s, g));
  }

  lemma StepBurnsFuel(c: Config, s: Run, e: Event)
    requires Partitioned(c, s.ledger) && TaskInv(c, s) && Enabled(c, s, e)
    ensures Fuel(c, Step(c, s, e)) < Fuel(c, s)
  {
    StageFalls(c, s, e, Start);
    StageFalls(c, s, e, End);
    StageFalls(c, s, e, Leave);
  }

  lemma FuelAtFirst(c: Config)
    requires WellFormed(c.g)
    ensures Fuel(c, Init(c)) <= 3 * |c.g.nodes|
  {
    InitInv(c);
    SubsetCard(Remaining(c, Init(c), Start), c.g.nodes);
    SubsetCard(Remaining(c, Init(c), End), c.g.nodes);
    SubsetCard(Remaining(c, Init(c), Leave), c.g.nodes);
  }

  lemma FuelAt(c: Config, es: seq<Event>)
    requires WellFormed(c.g) && Feasible(c, es)
    ensures if es == [] then Fuel(c, After(c, es)) <= 3 * |c.g.nodes|
            else Fuel(c, After(c, es)) < Fuel(c, After(c, es[..|es| - 1]))
  {
    if es == [] {
      FuelAtFirst(c);
    } else {
      EveryStateSafe(c, es[..|es| - 1]);
      StepBurnsFuel(c, After(c, es[..|es| - 1]), es[|es| - 1]);
    }
  }

  /** Every run ends: it has at most three events per node. */
  lemma {:induction false} RunsAreFinite(c: Config, es: seq<Event>)
    requires WellFormed(c.g) && Feasible(c, es)
    ensures |es| + Fuel(c, After(c, es)) <= 3 * |c.g.nodes|
  {
    FuelAt(c, es);
    if es != [] {
      RunsAreFinite(c, es[..|es| - 1]);
    }
  }

  /** Bounded parallelism with progress: the permits are respected, and since there is at least one,
      some event is possible while a task lives, whatever results the nodes return. */
  lemma Progress(c: Config, s: Run, result: Id -> Result<Value>)
    requires TaskInv(c, s) && c.limit >= 1 && s.tasks != map[]
    ensures |Executing(s.tasks)| <= c.limit
    ensures exists e :: Enabled(c, s, e) && (e.Finish? ==> e.result == result(e.id))
  {
    if v :| v in s.tasks && s.tasks[v].phase.Finished? {
      assert Enabled(c, s, Join(v));
    } else if v :| v in s.tasks && s.tasks[v].phase.Running? {
      assert Enabled(c, s, Finish(v, result(v)));
    } else {
      assert Executing(s.tasks) == {};
      var v :| v in s.tasks;
      assert Enabled(c, s, Acquire(v));
    }
  }

  // ---------------------------------------------------------------- completeness

  predicate Ended(s: Run) {
    s.tasks == map[]
  }

  lemma SkipClosed(c: Config, l: Ledger)
    requires SkipExact(c, l)
    ensures ClosedUnder(c.g.edges, l.skipped)
  {
    forall u, v | u in l.skipped && v in Succ(c.g.edges, u) ensures v in l.skipped {
      var w :| FailedUnder(c, l, w, Skip) && Descends(c.g.edges, w, u);
      ReachEdge(c.g.edges, u, v);
      DescendTrans(c.g.edges, w, u, v);
      assert BelowSkipFailure(c, l, v);
    }
  }

  /** A predecessor that keeps an unskipped node waiting has itself neither run nor been skipped,
      unless the run was aborted. */
  lemma WaitsForWaiting(c: Config, l: Ledger, u: Id, v: Id)
    requires SkipExact(c, l) && AbortExact(c, l) && !l.aborted
    requires v in Succ(c.g.edges, u) && u !in Propagated(c, l) && v !in l.skipped
    ensures u !in l.completed && u !in l.skipped
  {
    SkipClosed(c, l);
    ReachEdge(c.g.edges, u, v);
    assert !FailedUnder(c, l, u, Fail);
    assert FailedUnder(c, l, u, Skip) ==> BelowSkipFailure(c, l, v);
  }

  /** Without an abort, a node that waits and is not skipped would need a predecessor in the same
      position. */
  lemma StrandedNeedsStranded(c: Config, l: Ledger, v: Id)
    requires WellFormed(c.g) && SkipExact(c, l) && AbortExact(c, l) && !l.aborted
    requires v in c.g.nodes && v !in l.skipped && !PredecessorsIn(c.g, v, Propagated(c, l))
    ensures HasPredecessorIn(c.g, c.g.nodes - l.completed - l.skipped, v)
  {
    var u :| u in Succ(c.g.rev, v) && u !in Propagated(c, l);
    MirrorMember(c.g, u, v);
    WaitsForWaiting(c, l, u, v);
  }

  /** Completeness: a run that ends without an abort has recorded or skipped every node, never both,
      and has skipped exactly the nodes below one that failed under Skip. */
  lemma EveryNodeAccountedFor(c: Config, s: Run)
    requires ValidConfig(c) && Inv(c, s) && Ended(s) && !s.ledger.aborted
    ensures s.ledger.completed + s.ledger.skipped == c.g.nodes
    ensures s.ledger.completed !! s.ledger.skipped
    ensures SkipExact(c, s.ledger)
  {
    var l := s.ledger;
    assert l.pending == {};
    NoneStranded(c, l);
    assert l.completed + l.skipped <= c.g.nodes;
  }

  lemma NoneStranded(c: Config, l: Ledger)
    requires ValidConfig(c) && LedgerInv(c, l) && ReadySpawned(c, l) && l.pending == {} && !l.aborted
    ensures c.g.nodes - l.completed - l.skipped == {}
  {
    var stranded := c.g.nodes - l.completed - l.skipped;
    forall v | v in stranded ensures HasPredecessorIn(c.g, stranded, v) {
      assert !PredecessorsIn(c.g, v, Propagated(c, l));
      StrandedNeedsStranded(c, l, v);
    }
    Rootless(c.g, stranded);
  }

  // ---------------------------------------------------------------- reading the outcome

  /** The full report: nodes without a result were canceled by an abort or skipped. */
  function BuildResult(c: Config, l: Ledger): map<Id, NodeResult> {
    map v | v in c.g.nodes ::
      if v in l.results then l.results[v]
      else NodeResult(if l.aborted && v !in l.skipped then Canceled else Skipped, None, None)
  }

  /** The outputs of the nodes a report calls completed. */
  function Outputs(report: map<Id, NodeResult>): Inputs {
    map v | v in report && report[v].status == Completed && report[v].output.Some? :: report[v].output.value
  }

  /** What `execute` returns. */
  function ExecuteResult(l: Ledger): Result<Inputs> {
    if l.aborted && l.firstError.Some? then Err(l.firstError.value) else Ok(l.outputs)
  }

  /** `execute` fails exactly when the run was aborted, with the error of a node that failed under
      Fail; when it succeeds, it returns the outputs of the report that `run` would have built. */
  lemma ExecuteAgreesWithReport(c: Config, l: Ledger)
    requires LedgerInv(c, l)
    ensures ExecuteResult(l).Err? <==> l.aborted
    ensures ExecuteResult(l).Err? ==>
              exists u :: FailedUnder(c, l, u, Fail) && u in l.results &&
                          l.results[u].error == Some(ExecuteResult(l).error)
    ensures ExecuteResult(l).Ok? ==> ExecuteResult(l).value == Outputs(BuildResult(c, l))
  {
    assert Outputs(BuildResult(c, l)) == l.outputs;
  }

  /** Event `i` of `es` records the failure of a Fail node with code `code` while the run is still
      intact. */
  ghost predicate FirstFailAt(c: Config, es: seq<Event>, i: nat, code: ErrorCode) {
    && i < |es|
    && es[i].Join?
    && Enabled(c, After(c, es[..i]), es[i])
    && After(c, es[..i]).tasks[es[i].id].phase.result == Err(code)
    && EffectiveOnError(c, es[i].id) == Fail
    && !After(c, es[..i]).ledger.aborted
  }

  /** A step that aborts an intact run is the recording of a failed Fail node, whose error it keeps;
      an aborted run keeps its error. */
  lemma AbortStep(c: Config, s: Run, e: Event)
    requires AbortExact(c, s.ledger) && Enabled(c, s, e)
    ensures s.ledger.aborted ==> Step(c, s, e).ledger.firstError == s.ledger.firstError
    ensures !s.ledger.aborted && Step(c, s, e).ledger.aborted ==>
              && e.Join?
              && EffectiveOnError(c, e.id) == Fail
              && s.tasks[e.id].phase.result.Err?
              && Step(c, s, e).ledger.firstError == Some(s.tasks[e.id].phase.result.error)
  {
  }

  /** The last event of `es` either leaves the abort status alone or is the first failure. */
  lemma AbortEvent(c: Config, es: seq<Event>)
    requires WellFormed(c.g) && es != [] && After(c, es).ledger.aborted
    ensures var s := After(c, es[..|es| - 1]);
            if s.ledger.aborted then After(c, es).ledger.firstError == s.ledger.firstError
            else exists code :: After(c, es).ledger.firstError == Some(code) && FirstFailAt(c, es, |es| - 1, code)
  {
    var s, e := After(c, es[..|es| - 1]), es[|es| - 1];
    EveryStateSafe(c, es[..|es| - 1]);
    if Enabled(c, s, e) {
      AbortStep(c, s, e);
      if !s.ledger.aborted {
        assert FirstFailAt(c, es, |es| - 1, s.tasks[e.id].phase.result.error);
      }
    }
  }

  lemma InitIntact(c: Config)
    ensures !Init(c).ledger.aborted
  {
  }

  /** The surfaced error is the first recorded error of a Fail node, and stays so. */
  lemma {:induction false} FirstErrorIsFirst(c: Config, es: seq<Event>) returns (i: nat, code: ErrorCode)
    requires WellFormed(c.g) && After(c, es).ledger.aborted
    ensures After(c, es).ledger.firstError == Some(code)
    ensures FirstFailAt(c, es, i, code)
  {
    if es == [] {
      InitIntact(c);
    } else {
      AbortEvent(c, es);
      var front := es[..|es| - 1];
      if After(c, front).ledger.aborted {
        i, code := FirstErrorIsFirst(c, front);
        assert front[..i] == es[..i];
      } else {
        i := |es| - 1;
        code :| After(c, es).ledger.firstError == Some(code) && FirstFailAt(c, es, |es| - 1, code);
      }
    }
  }
}
