/** Schedule independence. With nodes that compute a function of their id and inputs, every
    completion order of a DAG records what evaluating the nodes one by one in topological order
    gives: either every run aborts or none does, and runs that do not abort end with the same report. */
module DagConfluence {
  import opened Common
  import opened Graph
  import opened DagBuilder
  import opened DagScheduler
  import opened DagRuns

  type Behaviour = (Id, Inputs) -> Result<Value>

  // ---------------------------------------------------------------- sequential evaluation

  datatype Verdict = Ran(result: Result<Value>) | NotRun

  type Verdicts = map<Id, Verdict>

  /** `u` lets its successors run. */
  predicate Lets(c: Config, m: Verdicts, u: Id) {
    u in m && m[u].Ran? && Propagates(c, u, m[u].result)
  }

  function GivenBy(c: Config, m: Verdicts, v: Id): Inputs {
    var reverse := Succ(c.g.rev, v);
    if reverse == [] then c.initial
    else map u | u in reverse && u in m && m[u].Ran? && m[u].result.Ok? :: m[u].result.value
  }

  /** A node runs when all its predecessors let it, on the outputs of those that succeeded. */
  function Judge(c: Config, b: Behaviour, m: Verdicts, v: Id): Verdict {
    if forall u :: u in Succ(c.g.rev, v) ==> Lets(c, m, u) then Ran(b(v, GivenBy(c, m, v))) else NotRun
  }

  /** Evaluate the nodes of `order` one by one. */
  function Evaluate(c: Config, b: Behaviour, order: seq<Id>): Verdicts {
    if order == [] then map[]
    else
      var m, v := Evaluate(c, b, order[..|order| - 1]), order[|order| - 1];
      m[v := Judge(c, b, m, v)]
  }

  /** `m` gives every node the verdict that its predecessors' verdicts dictate. */
  ghost predicate Consistent(c: Config, b: Behaviour, m: Verdicts) {
    m.Keys == c.g.nodes && forall v {:trigger Judge(c, b, m, v)} :: v in m ==> m[v] == Judge(c, b, m, v)
  }

  lemma JudgeLocal(c: Config, b: Behaviour, m: Verdicts, n: Verdicts, v: Id)
    requires forall u :: u in Succ(c.g.rev, v) ==> u in m && u in n && m[u] == n[u]
    ensures Judge(c, b, m, v) == Judge(c, b, n, v)
  {
    assert GivenBy(c, m, v) == GivenBy(c, n, v);
  }

  lemma {:induction false} EvaluateKeys(c: Config, b: Behaviour, order: seq<Id>)
    ensures Evaluate(c, b, order).Keys == Elems(order)
  {
    if order != [] {
      var front, v := order[..|order| - 1], order[|order| - 1];
      EvaluateKeys(c, b, front);
      assert order == front + [v];
      assert Elems(order) == Elems(front) + {v};
    }
  }

  lemma {:induction false} EvaluateAt(c: Config, b: Behaviour, order: seq<Id>, k: nat)
    requires Distinct(order) && k < |order|
    ensures order[k] in Evaluate(c, b, order)
    ensures Evaluate(c, b, order)[order[k]] == Judge(c, b, Evaluate(c, b, order[..k]), order[k])
    decreases |order|
  {
    if k < |order| - 1 {
      var front := order[..|order| - 1];
      EvaluateAt(c, b, front, k);
      assert front[..k] == order[..k];
    }
  }

  lemma EvaluatePrefix(c: Config, b: Behaviour, order: seq<Id>, k: nat, u: Id)
    requires Distinct(order) && k <= |order| && u in order[..k]
    ensures u in Evaluate(c, b, order) && u in Evaluate(c, b, order[..k])
    ensures Evaluate(c, b, order)[u] == Evaluate(c, b, order[..k])[u]
  {
    var j :| 0 <= j < k && order[j] == u;
    EvaluateAt(c, b, order, j);
    EvaluateAt(c, b, order[..k], j);
    assert order[..k][..j] == order[..j];
  }

  /** Evaluating along any topological order gives consistent verdicts. */
  lemma EvaluateConsistent(c: Config, b: Behaviour, order: seq<Id>)
    requires WellFormed(c.g) && TopologicalOrder(c.g, order)
    ensures Consistent(c, b, Evaluate(c, b, order))
  {
    var m := Evaluate(c, b, order);
    EvaluateKeys(c, b, order);
    forall v | v in c.g.nodes ensures v in m && m[v] == Judge(c, b, m, v) {
      assert v in order;
      var k :| 0 <= k < |order| && order[k] == v;
      EvaluateAt(c, b, order, k);
      forall u | u in Succ(c.g.rev, v)
        ensures u in m && u in Evaluate(c, b, order[..k]) && m[u] == Evaluate(c, b, order[..k])[u]
      {
        EvaluatePrefix(c, b, order, k, u);
      }
      JudgeLocal(c, b, Evaluate(c, b, order[..k]), m, v);
    }
  }

  /** On an acyclic graph consistent verdicts are unique, so the choice of order does not matter. */
  lemma VerdictsUnique(c: Config, b: Behaviour, m: Verdicts, n: Verdicts)
    requires ValidConfig(c) && Consistent(c, b, m) && Consistent(c, b, n)
    ensures m == n
  {
    var differ := set v | v in c.g.nodes && m[v] != n[v];
    forall v | v in differ ensures HasPredecessorIn(c.g, differ, v) {
      DifferBelow(c, b, m, n, v);
    }
    Rootless(c.g, differ);
    assert forall v :: v in c.g.nodes ==> v !in differ;
  }

  lemma DifferBelow(c: Config, b: Behaviour, m: Verdicts, n: Verdicts, v: Id)
    requires WellFormed(c.g) && Consistent(c, b, m) && Consistent(c, b, n) && v in m && m[v] != n[v]
    ensures exists u :: u in c.g.nodes && m[u] != n[u] && u in c.g.rev[v]
  {
    assert m[v] == Judge(c, b, m, v) && n[v] == Judge(c, b, n, v);
    if forall u :: u in Succ(c.g.rev, v) ==> m[u] == n[u] {
      JudgeLocal(c, b, m, n, v);
    }
  }

  // ---------------------------------------------------------------- runs follow the evaluation

  /** Every finishing node of the run returned what its behaviour gives on its inputs. */
  ghost predicate FollowsBehaviour(c: Config, b: Behaviour, es: seq<Event>) {
    forall i :: 0 <= i < |es| ==> Obeys(b, After(c, es[..i]), es[i])
  }

  ghost predicate Obeys(b: Behaviour, s: Run, e: Event) {
    e.Finish? && e.id in s.tasks ==> e.result == b(e.id, s.tasks[e.id].inputs)
  }

  /** What is recorded is what the evaluation says. */
  ghost predicate LedgerAgrees(l: Ledger, m: Verdicts) {
    forall v :: v in l.completed ==>
      v in l.results && v in m && m[v].Ran? && l.results[v] == ResultOf(m[v].result)
  }

  /** What has finished but is not yet joined is, too. */
  ghost predicate TasksAgree(tasks: JoinSet, m: Verdicts) {
    forall v :: v in tasks && tasks[v].phase.Finished? ==> v in m && m[v] == Ran(tasks[v].phase.result)
  }

  lemma AgreementDecides(c: Config, l: Ledger, m: Verdicts, v: Id)
    requires LedgerAgrees(l, m) && Recorded(l) && l.failed <= l.completed && v in l.completed
    ensures v in l.failed <==> m[v].result.Err?
    ensures v in l.outputs <==> m[v].result.Ok?
    ensures v in l.outputs ==> l.outputs[v] == m[v].result.value
    ensures v in Propagated(c, l) <==> Lets(c, m, v)
  {
  }

  /** A node whose predecessors have all propagated runs in the evaluation, on the same inputs. */
  lemma SpawnedRuns(c: Config, b: Behaviour, l: Ledger, m: Verdicts, v: Id)
    requires Consistent(c, b, m) && LedgerAgrees(l, m) && Recorded(l) && l.failed <= l.completed
    requires v in c.g.nodes && PredecessorsIn(c.g, v, Propagated(c, l))
    ensures m[v] == Ran(b(v, InputsFor(c, l, v)))
  {
    assert m[v] == Judge(c, b, m, v);
    forall u | u in Succ(c.g.rev, v) ensures u in l.completed && Lets(c, m, u) {
      AgreementDecides(c, l, m, u);
    }
    assert InputsFor(c, l, v) == GivenBy(c, m, v) by {
      forall u | u in Succ(c.g.rev, v)
        ensures u !in l.failed && u in l.outputs <==> m[u].result.Ok?
        ensures u in l.outputs ==> l.outputs[u] == m[u].result.value
      {
        AgreementDecides(c, l, m, u);
      }
    }
  }

  lemma FinishAgrees(c: Config, b: Behaviour, s: Run, m: Verdicts, e: Event)
    requires Inv(c, s) && Consistent(c, b, m) && LedgerAgrees(s.ledger, m) && TasksAgree(s.tasks, m)
    requires Enabled(c, s, e) && e.Finish? && Obeys(b, s, e)
    ensures TasksAgree(Step(c, s, e).tasks, m)
  {
    SpawnedRuns(c, b, s.ledger, m, e.id);
  }

  lemma JoinAgrees(c: Config, s: Run, m: Verdicts, id: Id)
    requires LedgerAgrees(s.ledger, m) && TasksAgree(s.tasks, m) && Enabled(c, s, Join(id))
    ensures LedgerAgrees(Step(c, s, Join(id)).ledger, m)
    ensures TasksAgree(Step(c, s, Join(id)).tasks, m)
  {
    var r := s.tasks[id].phase.result;
    assert m[id] == Ran(r);
    var l, t := Settle(s.ledger, id, r), Step(c, s, Join(id));
    assert t.ledger.completed == l.completed && t.ledger.results == l.results;
    forall v | v in t.tasks && t.tasks[v].phase.Finished? ensures v in s.tasks && s.tasks[v].phase == t.tasks[v].phase {
    }
  }

  /** In every state of every such run, each recorded node has its sequential verdict. */
  lemma {:induction false} RunsFollowEvaluation(c: Config, b: Behaviour, es: seq<Event>, m: Verdicts)
    requires WellFormed(c.g) && Consistent(c, b, m) && FollowsBehaviour(c, b, es)
    ensures LedgerAgrees(After(c, es).ledger, m) && TasksAgree(After(c, es).tasks, m)
  {
    if es != [] {
      var front, e := es[..|es| - 1], es[|es| - 1];
      assert FollowsBehaviour(c, b, front) by {
        assert forall i :: 0 <= i < |front| ==> front[..i] == es[..i] && front[i] == es[i];
      }
      RunsFollowEvaluation(c, b, front, m);
      EveryStateSafe(c, front);
      var s := After(c, front);
      assert Obeys(b, After(c, es[..|es| - 1]), es[|es| - 1]);
      if Enabled(c, s, e) {
        if e.Finish? {
          FinishAgrees(c, b, s, m, e);
        } else if e.Join? {
          JoinAgrees(c, s, m, e.id);
        }
      }
    }
  }

  // ---------------------------------------------------------------- the main results

  ghost predicate AbortsAt(c: Config, m: Verdicts, v: Id) {
    v in m && m[v].Ran? && m[v].result.Err? && EffectiveOnError(c, v) == Fail
  }

  /** The evaluation meets a failure under Fail. */
  ghost predicate Aborts(c: Config, m: Verdicts) {
    exists v :: AbortsAt(c, m, v)
  }

  /** Nothing below a node that holds its successors back runs in the evaluation. */
  lemma HeldBack(c: Config, b: Behaviour, m: Verdicts, u: Id, v: Id)
    requires WellFormed(c.g) && Consistent(c, b, m) && u in m && !Lets(c, m, u)
    requires Descends(c.g.edges, u, v)
    ensures v in m && m[v].NotRun?
  {
    var held := set x | x in c.g.nodes && m[x].NotRun?;
    var w :| w in Succ(c.g.edges, u) && Reaches(c.g.edges, w, v);
    forall x, y | (x == u || x in held) && y in Succ(c.g.edges, x) ensures y in held {
      MirrorMember(c.g, x, y);
      assert !Lets(c, m, x) && m[y] == Judge(c, b, m, y);
    }
    ClosedReach(c.g.edges, held, w, v);
  }

  lemma SkippedNotRun(c: Config, b: Behaviour, l: Ledger, m: Verdicts, v: Id)
    requires WellFormed(c.g) && Consistent(c, b, m) && LedgerAgrees(l, m)
    requires Recorded(l) && l.failed <= l.completed && SkipExact(c, l) && v in l.skipped
    ensures v in m && m[v].NotRun?
  {
    var u :| FailedUnder(c, l, u, Skip) && Descends(c.g.edges, u, v);
    AgreementDecides(c, l, m, u);
    HeldBack(c, b, m, u, v);
  }

  /** A run aborts only if the evaluation meets a failure under Fail, whose error it surfaces, and an
      ended run always does in that case. */
  lemma AbortIsDetermined(c: Config, b: Behaviour, s: Run, m: Verdicts)
    requires ValidConfig(c) && Consistent(c, b, m) && LedgerAgrees(s.ledger, m) && Inv(c, s)
    ensures s.ledger.aborted ==> exists v :: AbortsAt(c, m, v) && s.ledger.firstError == Some(m[v].result.error)
    ensures Ended(s) && Aborts(c, m) ==> s.ledger.aborted
  {
    var l := s.ledger;
    if l.aborted {
      var u :| FailedUnder(c, l, u, Fail) && u in l.results && l.results[u].error == l.firstError;
      AgreementDecides(c, l, m, u);
      assert AbortsAt(c, m, u) && l.firstError == Some(m[u].result.error);
    } else if Ended(s) && Aborts(c, m) {
      var v :| AbortsAt(c, m, v);
      assert !FailedUnder(c, l, v, Fail);
      EveryNodeAccountedFor(c, s);
      if v in l.skipped {
        SkippedNotRun(c, b, l, m, v);
      } else {
        AgreementDecides(c, l, m, v);
      }
    }
  }

  /** The report that the sequential evaluation calls for. */
  function ReportOf(m: Verdicts): map<Id, NodeResult> {
    map v | v in m :: if m[v].Ran? then ResultOf(m[v].result) else NodeResult(Skipped, None, None)
  }

  /** What an ended ledger shows is what the verdicts call for. Aborted or not, every recorded node has
      the result of its verdict and no skipped node has one; there is an abort, with the error of some
      Fail failure, exactly if the verdicts hold one; without it the report and the outputs are whole. */
  ghost predicate Matches(c: Config, l: Ledger, m: Verdicts) {
    && LedgerAgrees(l, m)
    && (forall v :: v in l.skipped ==> v in m && m[v].NotRun?)
    && (l.aborted <==> Aborts(c, m))
    && (l.aborted ==> exists v :: AbortsAt(c, m, v) && l.firstError == Some(m[v].result.error))
    && (!l.aborted ==> BuildResult(c, l) == ReportOf(m) && l.outputs == Outputs(ReportOf(m)))
  }

  ghost predicate ResultMatches(l: Ledger, m: Verdicts, v: Id) {
    v in m && if v in l.results then m[v].Ran? && l.results[v] == ResultOf(m[v].result) else m[v].NotRun?
  }

  lemma ReportFrom(c: Config, l: Ledger, m: Verdicts)
    requires m.Keys == c.g.nodes && !l.aborted && forall v :: v in c.g.nodes ==> ResultMatches(l, m, v)
    ensures BuildResult(c, l) == ReportOf(m)
  {
    assert forall v :: v in c.g.nodes ==> BuildResult(c, l)[v] == ReportOf(m)[v];
  }

  lemma FullReport(c: Config, b: Behaviour, l: Ledger, m: Verdicts)
    requires WellFormed(c.g) && Consistent(c, b, m) && LedgerAgrees(l, m)
    requires Partitioned(c, l) && Recorded(l) && SkipExact(c, l) && !l.aborted
    requires l.completed + l.skipped == c.g.nodes
    ensures BuildResult(c, l) == ReportOf(m)
  {
    forall v | v in c.g.nodes ensures ResultMatches(l, m, v) {
      if v in l.skipped {
        SkippedNotRun(c, b, l, m, v);
      }
    }
    ReportFrom(c, l, m);
  }

  /** Schedule independence: every ended run of deterministic nodes aborts exactly when evaluating
      the nodes one by one along a topological order meets a failure under Fail, and otherwise ends
      with the report and the outputs of that evaluation. Even an aborted run has recorded nothing but
      results of that evaluation. */
  lemma ScheduleIndependence(c: Config, b: Behaviour, es: seq<Event>, order: seq<Id>)
    requires ValidConfig(c) && TopologicalOrder(c.g, order)
    requires FollowsBehaviour(c, b, es) && Ended(After(c, es))
    ensures Matches(c, After(c, es).ledger, Evaluate(c, b, order))
  {
    var s, m := After(c, es), Evaluate(c, b, order);
    EvaluateConsistent(c, b, order);
    RunsFollowEvaluation(c, b, es, m);
    EveryStateSafe(c, es);
    forall v | v in s.ledger.skipped ensures v in m && m[v].NotRun? {
      SkippedNotRun(c, b, s.ledger, m, v);
    }
    AbortIsDetermined(c, b, s, m);
    if !s.ledger.aborted {
      EveryNodeAccountedFor(c, s);
      FullReport(c, b, s.ledger, m);
      ExecuteAgreesWithReport(c, s.ledger);
    }
  }

  /** Confluence: two ended runs agree on whether they abort, on every node that both recorded, and, if
      they do not abort, on everything. A node that one of them recorded, the other never skipped. */
  lemma Confluence(c: Config, b: Behaviour, es: seq<Event>, fs: seq<Event>)
    requires ValidConfig(c)
    requires FollowsBehaviour(c, b, es) && Ended(After(c, es))
    requires FollowsBehaviour(c, b, fs) && Ended(After(c, fs))
    ensures After(c, es).ledger.aborted == After(c, fs).ledger.aborted
    ensures forall v :: v in After(c, es).ledger.completed && v in After(c, fs).ledger.completed ==>
              && v in After(c, es).ledger.results && v in After(c, fs).ledger.results
              && After(c, es).ledger.results[v] == After(c, fs).ledger.results[v]
    ensures After(c, es).ledger.completed !! After(c, fs).ledger.skipped
    ensures !After(c, es).ledger.aborted ==>
              && BuildResult(c, After(c, es).ledger) == BuildResult(c, After(c, fs).ledger)
              && ExecuteResult(After(c, es).ledger) == ExecuteResult(After(c, fs).ledger)
  {
    var order := OrderExists(c.g);
    ScheduleIndependence(c, b, es, order);
    ScheduleIndependence(c, b, fs, order);
  }
}
