/** What an ended DAG run comes to, spelt out over the graph, the failure policy, the per-node
    overrides and the node behaviour themselves. */
module DagOutcome {
  import opened Common
  import opened Graph
  import opened DagBuilder
  import opened DagScheduler
  import opened DagRuns
  import opened DagConfluence

  /** The failure of `u` is handled so: by its own override if it has one, otherwise by the policy. */
  ghost predicate HandledAs(policy: FailurePolicy, overrides: map<Id, OnError>, u: Id, how: OnError) {
    if u in overrides then overrides[u] == how
    else
      || (policy == FailFast && how == Fail)
      || (policy == SkipDependents && how == Skip)
      || (policy == ContinueAll && how == Continue)
  }

  lemma HandledIs(c: Config, u: Id, how: OnError)
    ensures HandledAs(c.policy, c.overrides, u, how) <==> EffectiveOnError(c, u) == how
  {
  }

  /** How the report shows a node that returned `r`. */
  ghost predicate Shows(shown: NodeResult, r: Result<Value>) {
    match r
    case Ok(v) => shown == NodeResult(Completed, Some(v), None)
    case Err(code) =>
      && shown.output == None && shown.error == Some(code)
      && (shown.status == TimedOut <==> code == Timeout)
      && (shown.status == Canceled <==> code == Cancelled)
      && (code != Timeout && code != Cancelled ==> shown.status == Errored)
  }

  lemma ShowsResult(r: Result<Value>)
    ensures Shows(ResultOf(r), r)
  {
  }

  /** A predecessor that lets its successors run: it succeeded, or failed and is to be ignored. */
  ghost predicate LetsOn(policy: FailurePolicy, overrides: map<Id, OnError>, l: Ledger, u: Id) {
    u in l.completed && (u !in l.failed || HandledAs(policy, overrides, u, Continue))
  }

  /** What node `v` was given. */
  function Given(g: Graph, initial: Inputs, l: Ledger, v: Id): Inputs
    requires v in g.rev
  {
    if g.rev[v] == [] then initial else map u | u in g.rev[v] && u in l.outputs :: l.outputs[u]
  }

  /** What node `v` returned, if it is recorded, and how that is shown. */
  ghost predicate RecordedAs(g: Graph, initial: Inputs, b: Behaviour, l: Ledger, v: Id)
    requires v in g.rev
  {
    && v in l.results
    && var r := b(v, Given(g, initial, l, v));
       && Shows(l.results[v], r)
       && (v in l.failed <==> r.Err?)
       && (v in l.outputs <==> r.Ok?)
       && (r.Ok? && v in l.outputs ==> l.outputs[v] == r.value)
  }

  /** The ledger of an ended run. Recorded are nodes all of whose predecessors let them run, each with
      what it returned on what it was given; skipped are exactly the nodes below a failure that is
      handled by skipping; the run is aborted exactly if some failure is handled by failing, with the
      error of such a failure; and if it is not, every node that its predecessors let run is recorded. */
  ghost predicate ComesTo(g: Graph, policy: FailurePolicy, overrides: map<Id, OnError>, initial: Inputs,
                          b: Behaviour, l: Ledger)
    requires g.rev.Keys == g.nodes
  {
    && l.completed <= g.nodes && l.failed <= l.completed && l.outputs.Keys <= l.completed
    && l.results.Keys == l.completed
    && (forall v :: v in l.completed ==>
          RecordedAs(g, initial, b, l, v) && forall u :: u in g.rev[v] ==> LetsOn(policy, overrides, l, u))
    && (forall v :: v in l.skipped <==> SkippedBy(g, policy, overrides, l, v))
    && l.skipped !! l.completed
    && (l.aborted <==> exists u :: u in l.failed && HandledAs(policy, overrides, u, Fail))
    && (l.aborted ==> exists u :: u in l.failed && HandledAs(policy, overrides, u, Fail) && u in l.results &&
                                  l.firstError.Some? && l.results[u].error == l.firstError)
    && (!l.aborted ==> l.firstError.None? && l.pending == {})
    && (!l.aborted ==> forall v :: v in g.nodes && (forall u :: u in g.rev[v] ==> LetsOn(policy, overrides, l, u)) ==>
          v in l.completed)
    && (!l.aborted ==> l.completed + l.skipped == g.nodes)
  }

  ghost predicate SkippedBy(g: Graph, policy: FailurePolicy, overrides: map<Id, OnError>, l: Ledger, v: Id) {
    exists u :: u in l.failed && HandledAs(policy, overrides, u, Skip) && Descends(g.edges, u, v)
  }

  lemma LetsOnIs(c: Config, l: Ledger, u: Id)
    ensures LetsOn(c.policy, c.overrides, l, u) <==> u in Propagated(c, l)
  {
    HandledIs(c, u, Continue);
  }

  lemma SkippedByIs(c: Config, l: Ledger, v: Id)
    requires SkipExact(c, l)
    ensures v in l.skipped <==> SkippedBy(c.g, c.policy, c.overrides, l, v)
  {
    forall u ensures FailedUnder(c, l, u, Skip) <==> u in l.failed && HandledAs(c.policy, c.overrides, u, Skip) {
      HandledIs(c, u, Skip);
    }
    if u :| u in l.failed && HandledAs(c.policy, c.overrides, u, Skip) && Descends(c.g.edges, u, v) {
      assert FailedUnder(c, l, u, Skip);
    }
  }

  lemma AbortedIs(c: Config, l: Ledger)
    requires AbortExact(c, l)
    ensures l.aborted <==> exists u :: u in l.failed && HandledAs(c.policy, c.overrides, u, Fail)
    ensures l.aborted <==> l.firstError.Some?
    ensures l.aborted ==> exists u :: u in l.failed && HandledAs(c.policy, c.overrides, u, Fail) &&
                                      u in l.results && l.results[u].error == l.firstError
  {
    forall u ensures FailedUnder(c, l, u, Fail) <==> u in l.failed && HandledAs(c.policy, c.overrides, u, Fail) {
      HandledIs(c, u, Fail);
    }
  }

  /** Every recorded node returned what its behaviour gives on the outputs of its predecessors. */
  lemma RecordedIs(c: Config, b: Behaviour, l: Ledger, m: Verdicts, v: Id)
    requires WellFormed(c.g) && Consistent(c, b, m) && LedgerAgrees(l, m) && LedgerInv(c, l) && v in l.completed
    ensures RecordedAs(c.g, c.initial, b, l, v)
    ensures forall u :: u in c.g.rev[v] ==> LetsOn(c.policy, c.overrides, l, u)
  {
    assert v in Spawned(l);
    SpawnedRuns(c, b, l, m, v);
    assert InputsFor(c, l, v) == Given(c.g, c.initial, l, v);
    AgreementDecides(c, l, m, v);
    ShowsResult(m[v].result);
    forall u | u in c.g.rev[v] ensures LetsOn(c.policy, c.overrides, l, u) {
      LetsOnIs(c, l, u);
    }
  }

  /** Without an abort, a node that its predecessors let run is recorded. */
  lemma LetRunIsRecorded(c: Config, b: Behaviour, l: Ledger, m: Verdicts, v: Id)
    requires WellFormed(c.g) && Consistent(c, b, m) && LedgerAgrees(l, m) && LedgerInv(c, l)
    requires l.completed + l.skipped == c.g.nodes && v in c.g.nodes
    requires forall u :: u in c.g.rev[v] ==> LetsOn(c.policy, c.overrides, l, u)
    ensures v in l.completed
  {
    forall u | u in c.g.rev[v] ensures u in Propagated(c, l) {
      LetsOnIs(c, l, u);
    }
    SpawnedRuns(c, b, l, m, v);
    if v in l.skipped {
      SkippedNotRun(c, b, l, m, v);
    }
  }

  /** Every ended run of deterministic nodes, whatever the interleaving, comes to this. */
  lemma EveryRunComesTo(c: Config, b: Behaviour, es: seq<Event>)
    requires ValidConfig(c) && FollowsBehaviour(c, b, es) && Ended(After(c, es))
    ensures ComesTo(c.g, c.policy, c.overrides, c.initial, b, After(c, es).ledger)
  {
    var l := After(c, es).ledger;
    var order := OrderExists(c.g);
    var m := Evaluate(c, b, order);
    EvaluateConsistent(c, b, order);
    RunsFollowEvaluation(c, b, es, m);
    EveryStateSafe(c, es);
    AbortedIs(c, l);
    forall v ensures v in l.skipped <==> SkippedBy(c.g, c.policy, c.overrides, l, v) {
      SkippedByIs(c, l, v);
    }
    forall v | v in l.completed
      ensures RecordedAs(c.g, c.initial, b, l, v) && forall u :: u in c.g.rev[v] ==> LetsOn(c.policy, c.overrides, l, u)
    {
      RecordedIs(c, b, l, m, v);
    }
    if !l.aborted {
      EveryNodeAccountedFor(c, After(c, es));
      forall v | v in c.g.nodes && (forall u :: u in c.g.rev[v] ==> LetsOn(c.policy, c.overrides, l, u))
        ensures v in l.completed
      {
        LetRunIsRecorded(c, b, l, m, v);
      }
    }
  }

  // ---------------------------------------------------------------- what is returned to the caller

  /** The report of `run`: every node of the graph once, the recorded ones with what they returned, the
      skipped ones as Skipped, and in an aborted run all others as Canceled. */
  ghost predicate Reports(g: Graph, l: Ledger, report: map<Id, NodeResult>) {
    && report.Keys == g.nodes
    && forall v :: v in report ==>
         if v in l.completed then v in l.results && report[v] == l.results[v]
         else if v in l.skipped then report[v] == NodeResult(Skipped, None, None)
         else l.aborted && report[v] == NodeResult(Canceled, None, None)
  }

  lemma ReportIs(c: Config, b: Behaviour, l: Ledger)
    requires c.g.rev.Keys == c.g.nodes && ComesTo(c.g, c.policy, c.overrides, c.initial, b, l)
    ensures Reports(c.g, l, BuildResult(c, l))
  {
  }

  /** What `execute` returns: the error that aborted the run, or the outputs of all nodes that succeeded. */
  lemma ExecuteIs(c: Config, b: Behaviour, l: Ledger)
    requires c.g.rev.Keys == c.g.nodes && ComesTo(c.g, c.policy, c.overrides, c.initial, b, l)
    ensures if l.aborted then l.firstError.Some? && ExecuteResult(l) == Err(l.firstError.value)
            else ExecuteResult(l) == Ok(l.outputs)
  {
  }

  // ---------------------------------------------------------------- aborts and finished tasks

  /** A failure handled by failing tells every task that is live at that moment to stop: each of them
      may be dropped from then on, unless it has finished already. */
  lemma AbortReachesAll(c: Config, s: Run, id: Id)
    requires Enabled(c, s, Join(id)) && s.tasks[id].phase.result.Err? && HandledAs(c.policy, c.overrides, id, Fail)
    ensures var t := Step(c, s, Join(id));
            && t.ledger.aborted && t.tasks.Keys == s.tasks.Keys - {id}
            && forall v :: v in t.tasks ==>
                 t.tasks[v].phase == s.tasks[v].phase && (Enabled(c, t, Drop(v)) <==> !t.tasks[v].phase.Finished?)
  {
    HandledIs(c, id, Fail);
  }

  /** `v` has finished with `r`: it waits to be joined, or it is recorded. */
  ghost predicate Kept(s: Run, v: Id, r: Result<Value>) {
    || (v in s.tasks && s.tasks[v].phase == Finished(r))
    || (v in s.ledger.completed && v !in s.tasks && v in s.ledger.results && Shows(s.ledger.results[v], r))
  }

  lemma KeptStep(c: Config, s: Run, e: Event, v: Id, r: Result<Value>)
    requires Partitioned(c, s.ledger) && TaskInv(c, s) && Enabled(c, s, e) && Kept(s, v, r)
    ensures Kept(Step(c, s, e), v, r)
  {
    ShowsResult(r);
    if e.Join? {
      JoinSpawns(c, s, e.id);
      JoinStores(c, s, e.id);
      if v in s.tasks && v != e.id {
        JoinLeaves(c, s, e.id, v);
      }
    }
  }

  lemma JoinStores(c: Config, s: Run, id: Id)
    requires Enabled(c, s, Join(id))
    ensures var t := Step(c, s, Join(id));
            && t.ledger.completed == s.ledger.completed + {id}
            && t.ledger.results == s.ledger.results[id := ResultOf(s.tasks[id].phase.result)]
  {
  }

  lemma JoinLeaves(c: Config, s: Run, id: Id, v: Id)
    requires Partitioned(c, s.ledger) && TaskInv(c, s) && Enabled(c, s, Join(id)) && v in s.tasks && v != id
    ensures v in Step(c, s, Join(id)).tasks && Step(c, s, Join(id)).tasks[v].phase == s.tasks[v].phase
  {
  }

  lemma {:induction false} FinishedStaysKept(c: Config, es: seq<Event>, i: nat)
    requires WellFormed(c.g) && i < |es| && es[i].Finish? && Enabled(c, After(c, es[..i]), es[i])
    ensures Kept(After(c, es), es[i].id, es[i].result)
  {
    var front, e := es[..|es| - 1], es[|es| - 1];
    if i == |es| - 1 {
      assert es[..i] == front;
    } else {
      assert front[..i] == es[..i];
      FinishedStaysKept(c, front, i);
      EveryStateSafe(c, front);
      if Enabled(c, After(c, front), e) {
        KeptStep(c, After(c, front), e, es[i].id, es[i].result);
      }
    }
  }

  /** A node that has finished is recorded, with what it returned, in every run that ends, even if the
      run was aborted before the node was joined. */
  lemma FinishedIsRecorded(c: Config, es: seq<Event>, i: nat)
    requires WellFormed(c.g) && i < |es| && es[i].Finish? && Enabled(c, After(c, es[..i]), es[i])
    requires Ended(After(c, es))
    ensures var l := After(c, es).ledger;
            es[i].id in l.completed && es[i].id in l.results && Shows(l.results[es[i].id], es[i].result)
  {
    FinishedStaysKept(c, es, i);
  }

  /** At most `limit` of the tasks hold a permit. */
  ghost predicate AtMost(tasks: JoinSet, limit: nat) {
    |set v | v in tasks && tasks[v].phase == Running| <= limit
  }

  /** Never more nodes execute at once than the limit. */
  lemma NeverTooMany(c: Config, es: seq<Event>)
    requires WellFormed(c.g)
    ensures AtMost(After(c, es).tasks, c.limit)
  {
    EveryStateSafe(c, es);
    var tasks := After(c, es).tasks;
    assert (set v | v in tasks && tasks[v].phase == Running) == Executing(tasks);
  }
}
