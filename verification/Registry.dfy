/** The component registry: six-state components started in registration order with rollback, and
    stopped in reverse order. */
module Registry {
  import opened Common
  import opened World

  datatype State = Created | Starting | Running | Stopping | Stopped | Failed

  datatype Entry = Entry(name: string, state: State)

  predicate CanStart(s: State) {
    s == Created || s == Stopped || s == State.Failed
  }

  predicate ShouldStop(s: State) {
    s == Running
  }

  /** Neither starting nor stopping. */
  predicate AtRest(s: State) {
    CanStart(s) || s == Running
  }

  predicate Settled(es: seq<Entry>) {
    forall i :: 0 <= i < |es| ==> AtRest(es[i].state)
  }

  predicate UniqueNames(es: seq<Entry>) {
    forall i, j :: 0 <= i < j < |es| ==> es[i].name != es[j].name
  }

  function Startable(es: seq<Entry>): set<nat> {
    set i | 0 <= i < |es| && CanStart(es[i].state)
  }

  function RunningIn(es: seq<Entry>): set<nat> {
    set i | 0 <= i < |es| && ShouldStop(es[i].state)
  }

  function RunningNamed(es: seq<Entry>, names: set<string>): set<nat> {
    set i | 0 <= i < |es| && ShouldStop(es[i].state) && es[i].name in names
  }

  /** The components a sequential start has brought up when it reaches `f`. */
  function StartedBefore(es: seq<Entry>, f: nat): set<nat> {
    set i | 0 <= i < |es| && i < f && CanStart(es[i].state)
  }

  function NamesOf(es: seq<Entry>, s: set<nat>): set<string> {
    set i | i in s && i < |es| :: es[i].name
  }

  /** What a start that fails at `f` takes down again: everything running by then whose name is that
      of a component it started. */
  function RollbackSet(es: seq<Entry>, f: nat): set<nat> {
    set j | 0 <= j < |es| && j != f && (j < f || es[j].state == Running) &&
            es[j].name in NamesOf(es, StartedBefore(es, f))
  }

  /** A component that was running before shares its name with one that this call started. */
  ghost predicate NameClash(es: seq<Entry>, f: nat) {
    exists j, k :: 0 <= j < |es| && k in StartedBefore(es, f) && es[j].state == Running && es[j].name == es[k].name
  }

  /** A sequential start can get as far as `f` and fail there. */
  ghost predicate CanFailAt(es: seq<Entry>, f: nat) {
    f < |es| && CanStart(es[f].state) && forall i :: 0 <= i < f ==> AtRest(es[i].state)
  }

  /** Rollback is keyed by name, so it undoes exactly what this call started if and only if no
      previously running component shares a name with a started one. */
  lemma RollbackExactIffNoClash(es: seq<Entry>, f: nat)
    requires CanFailAt(es, f)
    ensures RollbackSet(es, f) == StartedBefore(es, f) <==> !NameClash(es, f)
  {
    var started, names := StartedBefore(es, f), NamesOf(es, StartedBefore(es, f));
    forall j | j in started ensures j in RollbackSet(es, f) {
      assert es[j].name in names;
    }
    if NameClash(es, f) {
      var j, k :| 0 <= j < |es| && k in started && es[j].state == Running && es[j].name == es[k].name;
      assert es[k].name in names;
      assert j in RollbackSet(es, f) && j !in started;
    } else {
      forall j | j in RollbackSet(es, f) ensures j in started {
        var k :| k in started && k < |es| && es[k].name == es[j].name;
      }
    }
  }

  /** A running component shares its name with a startable one that another startable one follows. */
  ghost predicate ClashWaiting(es: seq<Entry>) {
    exists j: nat, k: nat, f: nat ::
      && CanFailAt(es, f) && k < f && CanStart(es[k].state)
      && j < |es| && es[j].state == Running && es[j].name == es[k].name
  }

  /** The same, before the call: rollback is exact wherever the start may fail if and only if no
      running component shares a name with a startable one that precedes another startable one. */
  lemma AlwaysExactIffNoClash(es: seq<Entry>)
    ensures (forall f: nat :: CanFailAt(es, f) ==> RollbackSet(es, f) == StartedBefore(es, f)) <==> !ClashWaiting(es)
  {
    forall f: nat | CanFailAt(es, f)
      ensures RollbackSet(es, f) == StartedBefore(es, f) <==> !NameClash(es, f)
    {
      RollbackExactIffNoClash(es, f);
    }
    if j: nat, k: nat, f: nat :| CanFailAt(es, f) && k < f && CanStart(es[k].state) &&
                                 j < |es| && es[j].state == Running && es[j].name == es[k].name {
      assert k in StartedBefore(es, f);
      assert NameClash(es, f);
    }
    if f: nat :| CanFailAt(es, f) && NameClash(es, f) {
      var j, k :| 0 <= j < |es| && k in StartedBefore(es, f) && es[j].state == Running && es[j].name == es[k].name;
      assert ClashWaiting(es);
    }
  }

  lemma UniqueNamesNoClash(es: seq<Entry>, f: nat)
    requires UniqueNames(es)
    ensures !NameClash(es, f)
  {
  }

  /** The failing family is real: with a shared name, a running component is stopped as well. */
  lemma ClashExample()
    ensures var es := [Entry("db", Running), Entry("db", Created), Entry("api", Created)];
            RollbackSet(es, 2) == {0, 1} && StartedBefore(es, 2) == {1}
  {
    var es := [Entry("db", Running), Entry("db", Created), Entry("api", Created)];
    assert 1 in StartedBefore(es, 2);
    assert es[1].name in NamesOf(es, StartedBefore(es, 2));
  }

  datatype StopResult = StopResult(index: nat, error: Option<ErrorCode>)

  /** How a sequential start ends: everything up, refused by a component in transition, or failed at
      a component with an error code. */
  datatype StartResult = Started | Refused(at: nat) | StartFailed(at: nat, code: ErrorCode)

  function CodeOf(r: StartResult): Option<ErrorCode> {
    match r
    case Started => None
    case Refused(_) => Some(Conflict)
    case StartFailed(_, code) => Some(code)
  }

  /** `after` is `before` with exactly the components of `s` brought to Stopped or Failed. */
  ghost predicate TakenDown(before: seq<Entry>, after: seq<Entry>, s: set<nat>) {
    && |after| == |before|
    && forall i :: 0 <= i < |after| ==>
         if i in s then after[i].name == before[i].name && (after[i].state == Stopped || after[i].state == State.Failed)
         else after[i] == before[i]
  }

  /** `es` with the components below `n` running. */
  function AllUpTo(es: seq<Entry>, n: nat): (r: seq<Entry>)
    ensures |r| == |es|
    ensures forall i :: 0 <= i < |es| ==> r[i] == if i < n then es[i].(state := Running) else es[i]
  {
    seq(|es|, i requires 0 <= i < |es| => if i < n then es[i].(state := Running) else es[i])
  }

  class Registry {
    var entries: seq<Entry>
    var journal: seq<Call>
    const concurrency: nat

    constructor (concurrency: nat)
      ensures entries == [] && journal == [] && this.concurrency == concurrency
    {
      entries, journal := [], [];
      this.concurrency := concurrency;
    }

    method Register(name: string)
      modifies this`entries
      ensures entries == old(entries) + [Entry(name, Created)]
    {
      entries := entries + [Entry(name, Created)];
    }

    method SetState(i: nat, s: State)
      modifies this`entries
      ensures entries == if i < |old(entries)| then old(entries)[i := old(entries)[i].(state := s)] else old(entries)
    {
      if i < |entries| {
        entries := entries[i := entries[i].(state := s)];
      }
    }

    method StopOne(ask: Oracle, i: nat) returns (error: Option<ErrorCode>)
      requires i < |entries|
      modifies this`entries, this`journal
      ensures error == ErrorOf(ask(old(journal), Stop(i)))
      ensures journal == old(journal) + [Stop(i)]
      ensures entries == old(entries)[i := old(entries)[i].(state := StateAfter(error))]
    {
      SetState(i, Stopping);
      error := ErrorOf(ask(journal, Stop(i)));
      journal := journal + [Stop(i)];
      SetState(i, StateAfter(error));
    }

    /** Stop one more of the components under way. */
    method StopNext(ask: Oracle, ghost es: seq<Entry>, ghost calls: seq<Call>, ghost done: seq<nat>,
                    i: nat, results: seq<StopResult>)
      returns (more: seq<StopResult>)
      requires StopProgress(ask, es, calls, done, entries, journal, results) && i < |es| && i !in done
      modifies this`entries, this`journal
      ensures StopProgress(ask, es, calls, done + [i], entries, journal, more)
    {
      StopProgressStep(ask, es, calls, done, entries, journal, results, i);
      var error := StopOne(ask, i);
      more := results + [StopResult(i, error)];
    }

    /** Stop the components of `s`, the last registered first: each gets one stop call and ends up
        Stopped or, if the call failed, Failed. */
    method StopEach(ask: Oracle, s: set<nat>) returns (results: seq<StopResult>)
      requires forall i :: i in s ==> i < |entries|
      modifies this`entries, this`journal
      ensures TakenDown(old(entries), entries, s)
      ensures journal == old(journal) + Stops(Descending(s, |entries|))
      ensures results == StopResults(ask, old(journal), Descending(s, |entries|))
      ensures Reported(entries, results)
    {
      ghost var es, calls := entries, journal;
      var idxs := Descending(s, |entries|);
      results := [];
      StopProgressNone(ask, es, calls);
      assert idxs[..0] == [];
      for k := 0 to |idxs|
        invariant StopProgress(ask, es, calls, idxs[..k], entries, journal, results)
      {
        NextStop(s, |es|, k);
        results := StopNext(ask, es, calls, idxs[..k], idxs[k], results);
      }
      assert idxs[..|idxs|] == idxs;
      StopProgressDone(ask, es, calls, s, entries, journal, results);
    }

    /** Stop everything that runs, in reverse registration order. */
    method StopAllDetailed(ask: Oracle) returns (results: seq<StopResult>)
      modifies this`entries, this`journal
      ensures TakenDown(old(entries), entries, RunningIn(old(entries)))
      ensures journal == old(journal) + Stops(Descending(RunningIn(old(entries)), |entries|))
      ensures results == StopResults(ask, old(journal), Descending(RunningIn(old(entries)), |entries|))
      ensures Reported(entries, results)
      ensures RunningIn(entries) == {} && (Settled(old(entries)) ==> Settled(entries))
      ensures StoppedPlainly(old(entries), entries, journal[|old(journal)|..])
    {
      ghost var es, calls := entries, journal;
      results := StopEach(ask, RunningIn(entries));
      StoppedIs(es, entries, RunningIn(es));
      assert journal[|calls|..] == Stops(Descending(RunningIn(es), |es|));
    }

    /** Fails with Internal exactly when some stop failed. */
    method StopAll(ask: Oracle) returns (error: Option<ErrorCode>)
      modifies this`entries, this`journal
      ensures TakenDown(old(entries), entries, RunningIn(old(entries)))
      ensures journal == old(journal) + Stops(Descending(RunningIn(old(entries)), |entries|))
      ensures RunningIn(entries) == {} && (Settled(old(entries)) ==> Settled(entries))
      ensures error == StopError(ask, old(journal), Descending(RunningIn(old(entries)), |entries|))
      ensures error.Some? <==> exists i :: i in RunningIn(old(entries)) && entries[i].state == State.Failed
      ensures StoppedPlainly(old(entries), entries, journal[|old(journal)|..])
    {
      ghost var s := RunningIn(entries);
      var results := StopAllDetailed(ask);
      if k :| 0 <= k < |results| && results[k].error.Some? {
        error := Some(Internal);
        DescendingFresh(s, |entries|, k);
        assert results[k].index in s && entries[results[k].index].state == State.Failed;
      } else {
        error := None;
        forall i | i in s ensures entries[i].state == Stopped {
          DescendingMembers(s, |entries|, i);
          var k :| 0 <= k < |results| && Descending(s, |entries|)[k] == i;
          assert results[k].index == i;
        }
      }
    }

    /** Take down what runs under one of `names`. */
    method RollbackStarted(ask: Oracle, names: set<string>) returns (results: seq<StopResult>)
      modifies this`entries, this`journal
      ensures TakenDown(old(entries), entries, RunningNamed(old(entries), names))
      ensures journal == old(journal) + Stops(Descending(RunningNamed(old(entries), names), |entries|))
      ensures results == StopResults(ask, old(journal), Descending(RunningNamed(old(entries), names), |entries|))
      ensures Reported(entries, results)
    {
      results := StopEach(ask, RunningNamed(entries, names));
    }

    /** The start of component `i` did not succeed: mark it, clean up after a timeout, roll back. */
    method GiveUp(ask: Oracle, es: seq<Entry>, ghost calls: seq<Call>, i: nat, answer: Answer, names: set<string>)
      returns (r: StartResult)
      requires i < |es| && CanStart(es[i].state) && entries == AllUpTo(es, i)[i := es[i].(state := Starting)]
      requires names == NamesOf(es, StartedBefore(es, i)) && !answer.Okay?
      requires var up := calls + Starts(Ascending(Startable(es), i));
               && UpBefore(ask, es, calls, i, AllUpTo(es, i), up)
               && answer == ask(up, Start(i)) && journal == up + [Start(i)]
      modifies this`entries, this`journal
      ensures r.StartFailed? && StartOutcome(ask, es, calls, r, entries, journal)
    {
      SetState(i, State.Failed);
      if answer.TimesOut? {
        journal := journal + [Stop(i)];
      }
      assert entries == AllUpTo(es, i)[i := es[i].(state := State.Failed)];
      RollbackSetIs(es, i, entries, names);
      var results := RollbackStarted(ask, names);
      return StartFailed(i, ErrorOf(answer).value);
    }

    /** Start component `i`, which the calls before have reached; a result means that this is the end. */
    method StartNext(ask: Oracle, es: seq<Entry>, ghost calls: seq<Call>, i: nat, names: set<string>)
      returns (r: Option<StartResult>, more: set<string>)
      requires i < |es| && UpBefore(ask, es, calls, i, entries, journal)
      requires names == NamesOf(es, StartedBefore(es, i))
      modifies this`entries, this`journal
      ensures r.None? ==>
                UpBefore(ask, es, calls, i + 1, entries, journal) && more == NamesOf(es, StartedBefore(es, i + 1))
      ensures r.Some? ==> !r.value.Started? && StartOutcome(ask, es, calls, r.value, entries, journal)
    {
      UpOneMore(ask, es, calls, i, journal);
      if es[i].state == Running { return None, names; }
      if !CanStart(es[i].state) { return Some(Refused(i)), names; }
      SetState(i, Starting);
      var answer := ask(journal, Start(i));
      journal := journal + [Start(i)];
      if answer.Okay? {
        SetState(i, Running);
        return None, names + {es[i].name};
      }
      var failed := GiveUp(ask, es, calls, i, answer, names);
      return Some(failed), names;
    }

    /** Start every startable component in registration order, rolling back on the first failure. */
    method StartAll(ask: Oracle) returns (r: StartResult)
      modifies this`entries, this`journal
      ensures StartOutcome(ask, old(entries), old(journal), r, entries, journal)
    {
      var es := entries;
      ghost var calls := journal;
      var names: set<string> := {};
      UpNone(ask, es, calls);
      for i := 0 to |es|
        invariant UpBefore(ask, es, calls, i, entries, journal)
        invariant names == NamesOf(es, StartedBefore(es, i))
      {
        var end;
        end, names := StartNext(ask, es, calls, i, names);
        if end.Some? { return end.value; }
      }
      return Started;
    }
  }

  /** Every start of `idxs`, made in this order after `calls`, succeeds. */
  ghost predicate AllOkay(ask: Oracle, calls: seq<Call>, idxs: seq<nat>) {
    forall k :: 0 <= k < |idxs| ==> ask(calls + Starts(idxs[..k]), Start(idxs[k])).Okay?
  }

  /** A sequential start has reached component `i` without trouble. */
  ghost predicate UpBefore(ask: Oracle, es: seq<Entry>, calls: seq<Call>, i: nat,
                           entries: seq<Entry>, journal: seq<Call>)
  {
    && i <= |es|
    && (forall j :: 0 <= j < i ==> AtRest(es[j].state))
    && entries == AllUpTo(es, i)
    && journal == calls + Starts(Ascending(Startable(es), i))
    && AllOkay(ask, calls, Ascending(Startable(es), i))
  }

  /** The component at which a start failed, and what it looked like just then. */
  ghost predicate FailsAt(ask: Oracle, es: seq<Entry>, up: seq<Call>, f: nat, code: ErrorCode) {
    && f < |es|
    && CanStart(es[f].state)
    && ErrorOf(ask(up, Start(f))) == Some(code)
  }

  /** What a sequential start from `es` and `calls` leaves behind. */
  ghost predicate StartOutcome(ask: Oracle, es: seq<Entry>, calls: seq<Call>, r: StartResult,
                               entries: seq<Entry>, journal: seq<Call>)
  {
    match r
    case Started => UpBefore(ask, es, calls, |es|, entries, journal)
    case Refused(f) => f < |es| && !AtRest(es[f].state) && UpBefore(ask, es, calls, f, entries, journal)
    case StartFailed(f, code) =>
      var up := calls + Starts(Ascending(Startable(es), f));
      && FailsAt(ask, es, up, f, code)
      && UpBefore(ask, es, calls, f, AllUpTo(es, f), up)
      && journal == up + [Start(f)] + (if ask(up, Start(f)).TimesOut? then [Stop(f)] else [])
                    + Stops(Descending(RollbackSet(es, f), |es|))
      && TakenDown(AllUpTo(es, f)[f := es[f].(state := State.Failed)], entries, RollbackSet(es, f))
  }

  lemma UpNone(ask: Oracle, es: seq<Entry>, calls: seq<Call>)
    ensures UpBefore(ask, es, calls, 0, es, calls) && StartedBefore(es, 0) == {}
  {
    assert AllUpTo(es, 0) == es;
  }

  lemma UpOneMore(ask: Oracle, es: seq<Entry>, calls: seq<Call>, i: nat, journal: seq<Call>)
    requires i < |es| && UpBefore(ask, es, calls, i, AllUpTo(es, i), journal)
    ensures es[i].state == Running ==>
              && UpBefore(ask, es, calls, i + 1, AllUpTo(es, i), journal)
              && StartedBefore(es, i + 1) == StartedBefore(es, i)
    ensures CanStart(es[i].state) && ask(journal, Start(i)).Okay? ==>
              && UpBefore(ask, es, calls, i + 1, AllUpTo(es, i)[i := es[i].(state := Running)], journal + [Start(i)])
              && NamesOf(es, StartedBefore(es, i + 1)) == NamesOf(es, StartedBefore(es, i)) + {es[i].name}
  {
    var idxs := Ascending(Startable(es), i);
    if es[i].state == Running {
      assert AllUpTo(es, i + 1) == AllUpTo(es, i);
      assert Ascending(Startable(es), i + 1) == idxs;
      assert StartedBefore(es, i + 1) == StartedBefore(es, i);
    } else if CanStart(es[i].state) && ask(journal, Start(i)).Okay? {
      assert AllUpTo(es, i + 1) == AllUpTo(es, i)[i := es[i].(state := Running)];
      assert Ascending(Startable(es), i + 1) == idxs + [i];
      StartsSnoc(idxs, i);
      AllOkaySnoc(ask, calls, idxs, i);
      assert StartedBefore(es, i + 1) == StartedBefore(es, i) + {i};
      assert NamesOf(es, StartedBefore(es, i + 1)) == NamesOf(es, StartedBefore(es, i)) + {es[i].name};
    }
  }

  lemma AllOkaySnoc(ask: Oracle, calls: seq<Call>, idxs: seq<nat>, i: nat)
    requires AllOkay(ask, calls, idxs) && ask(calls + Starts(idxs), Start(i)).Okay?
    ensures AllOkay(ask, calls, idxs + [i])
  {
    var longer := idxs + [i];
    assert longer[..|idxs|] == idxs;
    assert forall k :: 0 <= k < |idxs| ==> longer[..k] == idxs[..k];
  }

  lemma RollbackSetIs(es: seq<Entry>, f: nat, entries: seq<Entry>, names: set<string>)
    requires f < |es| && entries == AllUpTo(es, f)[f := es[f].(state := State.Failed)]
    requires names == NamesOf(es, StartedBefore(es, f))
    ensures RunningNamed(entries, names) == RollbackSet(es, f)
  {
  }

  /** After stopping `done`, starting from `es` and `calls`. */
  ghost predicate StopProgress(ask: Oracle, es: seq<Entry>, calls: seq<Call>, done: seq<nat>,
                               entries: seq<Entry>, journal: seq<Call>, results: seq<StopResult>)
  {
    && TakenDown(es, entries, Elems(done))
    && journal == calls + Stops(done)
    && results == StopResults(ask, calls, done)
    && Reported(entries, results)
  }

  lemma StopProgressNone(ask: Oracle, es: seq<Entry>, calls: seq<Call>)
    ensures StopProgress(ask, es, calls, [], es, calls, [])
  {
  }

  lemma StopProgressDone(ask: Oracle, es: seq<Entry>, calls: seq<Call>, s: set<nat>,
                         entries: seq<Entry>, journal: seq<Call>, results: seq<StopResult>)
    requires StopProgress(ask, es, calls, Descending(s, |es|), entries, journal, results)
    requires forall i :: i in s ==> i < |es|
    ensures TakenDown(es, entries, s)
  {
    DescendingElems(s, |es|);
  }

  lemma NextStop(s: set<nat>, n: nat, k: nat)
    requires k < |Descending(s, n)| && forall i :: i in s ==> i < n
    ensures var idxs := Descending(s, n);
            idxs[k] < n && idxs[k] !in idxs[..k] && idxs[..k + 1] == idxs[..k] + [idxs[k]]
  {
    DescendingFresh(s, n, k);
  }

  lemma StopProgressStep(ask: Oracle, es: seq<Entry>, calls: seq<Call>, done: seq<nat>,
                         entries: seq<Entry>, journal: seq<Call>, results: seq<StopResult>, i: nat)
    requires StopProgress(ask, es, calls, done, entries, journal, results) && i < |es| && i !in done
    ensures var error := ErrorOf(ask(journal, Stop(i)));
            StopProgress(ask, es, calls, done + [i], entries[i := entries[i].(state := StateAfter(error))],
                         journal + [Stop(i)], results + [StopResult(i, error)])
  {
    StopsSnoc(done, i);
    StopResultsSnoc(ask, calls, done, i);
    TakeOneMore(es, entries, done, i, ErrorOf(ask(journal, Stop(i))));
    assert forall k :: 0 <= k < |results| ==> results[k].index == done[k] && done[k] in done;
  }

  function StateAfter(error: Option<ErrorCode>): State {
    if error.None? then Stopped else State.Failed
  }

  /** What stopping `idxs` in this order reports. */
  function StopResults(ask: Oracle, journal: seq<Call>, idxs: seq<nat>): seq<StopResult> {
    seq(|idxs|, k requires 0 <= k < |idxs| =>
      StopResult(idxs[k], ErrorOf(ask(journal + Stops(idxs[..k]), Stop(idxs[k])))))
  }

  /** What stopping `idxs` in this order comes to: Internal if any of the stops failed. */
  ghost function StopError(ask: Oracle, journal: seq<Call>, idxs: seq<nat>): Option<ErrorCode> {
    var results := StopResults(ask, journal, idxs);
    if exists k :: 0 <= k < |results| && results[k].error.Some? then Some(Internal) else None
  }

  lemma StopResultsSnoc(ask: Oracle, journal: seq<Call>, idxs: seq<nat>, i: nat)
    ensures StopResults(ask, journal, idxs + [i]) ==
            StopResults(ask, journal, idxs) + [StopResult(i, ErrorOf(ask(journal + Stops(idxs), Stop(i))))]
  {
    var longer := idxs + [i];
    assert longer[..|idxs|] == idxs;
    assert forall k :: 0 <= k < |idxs| ==> longer[..k] == idxs[..k];
  }

  /** What a stop does, spelt out: exactly the components in state Running get a stop call, one each and
      the last registered first, and are Stopped or Failed afterwards; no other component changes. */
  ghost predicate StoppedPlainly(es: seq<Entry>, entries: seq<Entry>, calls: seq<Call>) {
    && |entries| == |es|
    && (forall i :: 0 <= i < |es| ==>
          if es[i].state == Running
          then entries[i] == Entry(es[i].name, Stopped) || entries[i] == Entry(es[i].name, State.Failed)
          else entries[i] == es[i])
    && (forall i: nat :: Stop(i) in calls <==> i < |es| && es[i].state == Running)
    && (forall c :: c in calls ==> c.Stop?)
    && (forall j, k :: 0 <= j < k < |calls| && calls[j].Stop? && calls[k].Stop? ==> calls[j].i > calls[k].i)
  }

  lemma StoppedIs(es: seq<Entry>, entries: seq<Entry>, s: set<nat>)
    requires s == RunningIn(es) && TakenDown(es, entries, s)
    ensures StoppedPlainly(es, entries, Stops(Descending(s, |es|)))
  {
    var idxs := Descending(s, |es|);
    forall i: nat ensures Stop(i) in Stops(idxs) <==> i < |es| && es[i].state == Running {
      StopCalls(idxs, i);
      DescendingMembers(s, |es|, i);
    }
    forall j, k | 0 <= j < k < |idxs| ensures Stops(idxs)[j].i > Stops(idxs)[k].i {
      DescendingFalls(s, |es|, j, k);
    }
  }

  lemma StopCalls(idxs: seq<nat>, i: nat)
    ensures Stop(i) in Stops(idxs) <==> i in idxs
    ensures Start(i) !in Stops(idxs)
  {
    if i in idxs {
      var k :| 0 <= k < |idxs| && idxs[k] == i;
      assert Stops(idxs)[k] == Stop(i);
    }
  }

  lemma StartCalls(idxs: seq<nat>, i: nat)
    ensures Start(i) in Starts(idxs) <==> i in idxs
    ensures Stop(i) !in Starts(idxs)
  {
    if i in idxs {
      var k :| 0 <= k < |idxs| && idxs[k] == i;
      assert Starts(idxs)[k] == Start(i);
    }
  }

  // ---------------------------------------------------------------- a sequential start, spelt out

  /** The states a component can be started from, named one by one, and the ones it is caught in
      transition in. */
  predicate Idle(s: State) {
    s == Created || s == Stopped || s == State.Failed
  }

  predicate InTransition(s: State) {
    s == Starting || s == Stopping
  }

  /** The states a sequential start leaves, by index alone. */
  ghost predicate StatesAfter(es: seq<Entry>, r: StartResult, entries: seq<Entry>) {
    && |entries| == |es|
    && match r
       case Started =>
         forall i :: 0 <= i < |es| ==> !InTransition(es[i].state) && entries[i] == Entry(es[i].name, Running)
       case Refused(f) =>
         && f < |es| && InTransition(es[f].state)
         && (forall i :: 0 <= i < f ==> !InTransition(es[i].state) && entries[i] == Entry(es[i].name, Running))
         && (forall i :: f <= i < |es| ==> entries[i] == es[i])
       case StartFailed(f, _) =>
         && f < |es| && Idle(es[f].state) && entries[f] == Entry(es[f].name, State.Failed)
         && (forall i :: 0 <= i < f ==> !InTransition(es[i].state))
         && (forall i :: 0 <= i < |es| && i != f ==>
               if TakenDownAgain(es, f, i)
               then entries[i] == Entry(es[i].name, Stopped) || entries[i] == Entry(es[i].name, State.Failed)
               else entries[i] == es[i])
  }

  /** Component `i` runs when the start fails at `f`, under the name of one that this start brought up. */
  ghost predicate TakenDownAgain(es: seq<Entry>, f: nat, i: nat)
    requires i < |es|
  {
    && i != f && (i < f || es[i].state == Running)
    && exists k: nat :: k < f && k < |es| && Idle(es[k].state) && es[k].name == es[i].name
  }

  /** How far the start got. */
  function Tried(es: seq<Entry>, r: StartResult): nat {
    match r
    case Started => |es|
    case Refused(f) => f
    case StartFailed(f, _) => f + 1
  }

  /** The calls it makes, by index alone: a start for every idle component as far as it got, and stops
      for what is taken down again and for a start that timed out. */
  ghost predicate CallsMade(ask: Oracle, es: seq<Entry>, before: seq<Call>, r: StartResult, calls: seq<Call>) {
    && (forall i: nat :: Start(i) in calls <==> i < Tried(es, r) && i < |es| && Idle(es[i].state))
    && (forall i: nat :: Stop(i) in calls <==>
          r.StartFailed? && i < |es| &&
          (TakenDownAgain(es, r.at, i) || (i == r.at && Answered(ask, before, calls, i, TimesOut))))
    && (r.StartFailed? ==>
          Answered(ask, before, calls, r.at, Fails(r.code)) ||
          (Answered(ask, before, calls, r.at, TimesOut) && r.code == Timeout))
  }

  /** The start of `i` among `calls`, which were made after `before`, was answered so. */
  ghost predicate Answered(ask: Oracle, before: seq<Call>, calls: seq<Call>, i: nat, answer: Answer) {
    exists n: nat :: n < |calls| && calls[n] == Start(i) && ask(before + calls[..n], Start(i)) == answer
  }

  lemma {:induction false} AscendingMembers(s: set<nat>, n: nat, i: nat)
    ensures i in Ascending(s, n) <==> i in s && i < n
  {
    if n > 0 {
      AscendingMembers(s, n - 1, i);
    }
  }

  lemma RollbackSetSpelt(es: seq<Entry>, f: nat, i: nat)
    requires CanFailAt(es, f) && i < |es|
    ensures i in RollbackSet(es, f) <==> TakenDownAgain(es, f, i)
  {
    if TakenDownAgain(es, f, i) {
      var k: nat :| k < f && k < |es| && Idle(es[k].state) && es[k].name == es[i].name;
      assert k in StartedBefore(es, f);
    }
    if i in RollbackSet(es, f) {
      var k :| k in StartedBefore(es, f) && k < |es| && es[k].name == es[i].name;
    }
  }

  lemma StatesAre(ask: Oracle, es: seq<Entry>, calls: seq<Call>, r: StartResult,
                  entries: seq<Entry>, journal: seq<Call>)
    requires StartOutcome(ask, es, calls, r, entries, journal)
    ensures StatesAfter(es, r, entries)
  {
    if r.StartFailed? {
      forall i | 0 <= i < |es| ensures i in RollbackSet(es, r.at) <==> TakenDownAgain(es, r.at, i) {
        RollbackSetSpelt(es, r.at, i);
      }
    }
  }

  /** The calls of a start that fails at `f`. */
  function FailureCalls(ask: Oracle, es: seq<Entry>, before: seq<Call>, f: nat): seq<Call> {
    var up := Starts(Ascending(Startable(es), f));
    up + [Start(f)] + (if ask(before + up, Start(f)).TimesOut? then [Stop(f)] else [])
       + Stops(Descending(RollbackSet(es, f), |es|))
  }

  lemma FailedCallAt(ask: Oracle, es: seq<Entry>, before: seq<Call>, f: nat, i: nat)
    requires CanFailAt(es, f)
    ensures var calls, up := FailureCalls(ask, es, before, f), Starts(Ascending(Startable(es), f));
            && (Start(i) in calls <==> i < f + 1 && i < |es| && Idle(es[i].state))
            && (Stop(i) in calls <==>
                  i < |es| && (TakenDownAgain(es, f, i) || (i == f && ask(before + up, Start(f)) == TimesOut)))
  {
    StartCalls(Ascending(Startable(es), f), i);
    StopCalls(Descending(RollbackSet(es, f), |es|), i);
    AscendingMembers(Startable(es), f, i);
    DescendingMembers(RollbackSet(es, f), |es|, i);
    if i < |es| {
      RollbackSetSpelt(es, f, i);
    }
  }

  lemma OnlyStart(up: seq<nat>, f: nat, rest: seq<Call>, n: nat)
    requires f !in up && Start(f) !in rest
    requires n < |Starts(up) + [Start(f)] + rest| && (Starts(up) + [Start(f)] + rest)[n] == Start(f)
    ensures n == |up|
  {
  }

  /** The only start of `f` is the one that failed. */
  lemma AnswerIs(ask: Oracle, before: seq<Call>, up: seq<nat>, f: nat, rest: seq<Call>, answer: Answer)
    requires f !in up && Start(f) !in rest
    ensures Answered(ask, before, Starts(up) + [Start(f)] + rest, f, answer) <==>
            ask(before + Starts(up), Start(f)) == answer
  {
    var calls := Starts(up) + [Start(f)] + rest;
    assert calls[..|up|] == Starts(up) && calls[|up|] == Start(f);
    forall n: nat | n < |calls| && calls[n] == Start(f) ensures n == |up| {
      OnlyStart(up, f, rest, n);
    }
  }

  lemma FailedAnswer(ask: Oracle, es: seq<Entry>, before: seq<Call>, f: nat, answer: Answer)
    ensures Answered(ask, before, FailureCalls(ask, es, before, f), f, answer) <==>
            ask(before + Starts(Ascending(Startable(es), f)), Start(f)) == answer
  {
    var up, down := Ascending(Startable(es), f), Descending(RollbackSet(es, f), |es|);
    var cleanup := if ask(before + Starts(up), Start(f)).TimesOut? then [Stop(f)] else [];
    AscendingMembers(Startable(es), f, f);
    StopCalls(down, f);
    AnswerIs(ask, before, up, f, cleanup + Stops(down), answer);
    assert FailureCalls(ask, es, before, f) == Starts(up) + [Start(f)] + (cleanup + Stops(down));
  }

  lemma FailedCalls(ask: Oracle, es: seq<Entry>, before: seq<Call>, f: nat, code: ErrorCode)
    requires CanFailAt(es, f)
    requires ErrorOf(ask(before + Starts(Ascending(Startable(es), f)), Start(f))) == Some(code)
    ensures CallsMade(ask, es, before, StartFailed(f, code), FailureCalls(ask, es, before, f))
  {
    var calls := FailureCalls(ask, es, before, f);
    FailedAnswer(ask, es, before, f, TimesOut);
    FailedAnswer(ask, es, before, f, Fails(code));
    forall i: nat
      ensures Start(i) in calls <==> i < f + 1 && i < |es| && Idle(es[i].state)
      ensures Stop(i) in calls <==>
              i < |es| && (TakenDownAgain(es, f, i) || (i == f && Answered(ask, before, calls, f, TimesOut)))
    {
      FailedCallAt(ask, es, before, f, i);
    }
  }

  lemma UpCalls(ask: Oracle, es: seq<Entry>, before: seq<Call>, r: StartResult)
    requires !r.StartFailed? && (r.Refused? ==> r.at < |es|)
    ensures CallsMade(ask, es, before, r, Starts(Ascending(Startable(es), Tried(es, r))))
  {
    var up := Ascending(Startable(es), Tried(es, r));
    forall i: nat
      ensures Start(i) in Starts(up) <==> i < Tried(es, r) && i < |es| && Idle(es[i].state)
      ensures Stop(i) !in Starts(up)
    {
      StartCalls(up, i);
      AscendingMembers(Startable(es), Tried(es, r), i);
    }
  }

  /** A sequential start, spelt out over the states and the calls: everything idle is started in turn;
      a component in transition refuses the start with no rollback; a failing one is Failed, with the
      code of its answer, and everything running under the name of one that this start brought up is
      taken down again, with one extra stop exactly after a timeout. */
  lemma StartAllIs(ask: Oracle, es: seq<Entry>, before: seq<Call>, r: StartResult,
                   entries: seq<Entry>, journal: seq<Call>)
    requires StartOutcome(ask, es, before, r, entries, journal)
    ensures |before| <= |journal| && journal[..|before|] == before
    ensures StatesAfter(es, r, entries)
    ensures CallsMade(ask, es, before, r, journal[|before|..])
    ensures CodeOf(r) == if r.Started? then None else if r.Refused? then Some(Conflict) else Some(r.code)
  {
    StatesAre(ask, es, before, r, entries, journal);
    if r.StartFailed? {
      FailedStartIs(ask, es, before, r.at, r.code, entries, journal);
    } else {
      UpCalls(ask, es, before, r);
    }
  }

  lemma FailedStartIs(ask: Oracle, es: seq<Entry>, before: seq<Call>, f: nat, code: ErrorCode,
                      entries: seq<Entry>, journal: seq<Call>)
    requires StartOutcome(ask, es, before, StartFailed(f, code), entries, journal)
    ensures |before| <= |journal| && journal[..|before|] == before
    ensures CallsMade(ask, es, before, StartFailed(f, code), journal[|before|..])
  {
    FailedCalls(ask, es, before, f, code);
    var up := Starts(Ascending(Startable(es), f));
    CutOff(before, up, [Start(f)], if ask(before + up, Start(f)).TimesOut? then [Stop(f)] else [],
           Stops(Descending(RollbackSet(es, f), |es|)), journal);
  }

  lemma CutOff(a: seq<Call>, b: seq<Call>, c: seq<Call>, d: seq<Call>, e: seq<Call>, j: seq<Call>)
    requires j == a + b + c + d + e
    ensures |a| <= |j| && j[..|a|] == a && j[|a|..] == b + c + d + e
  {
  }

  /** Each reported component is in the state its report says. */
  ghost predicate Reported(es: seq<Entry>, results: seq<StopResult>) {
    forall k :: 0 <= k < |results| ==>
      results[k].index < |es| && es[results[k].index].state == StateAfter(results[k].error)
  }

  lemma TakeOneMore(es: seq<Entry>, entries: seq<Entry>, done: seq<nat>, i: nat, error: Option<ErrorCode>)
    requires TakenDown(es, entries, Elems(done)) && i < |es|
    ensures TakenDown(es, entries[i := entries[i].(state := StateAfter(error))], Elems(done + [i]))
  {
    assert Elems(done + [i]) == Elems(done) + {i};
  }

  /** From a registry at rest, a sequential start is never refused and leaves it at rest. */
  lemma StartSettles(ask: Oracle, es: seq<Entry>, calls: seq<Call>, r: StartResult,
                     entries: seq<Entry>, journal: seq<Call>)
    requires StartOutcome(ask, es, calls, r, entries, journal) && Settled(es)
    ensures !r.Refused? && Settled(entries) && |entries| == |es|
  {
  }

  /** Sequential start is all-or-rollback. With unique names and nothing in transition, success means
      everything runs. Failure at `f` means `f` is Failed, the components this call started were
      stopped once each in reverse start order and are Stopped or Failed, and every other component
      is untouched. */
  lemma AllOrRollback(ask: Oracle, es: seq<Entry>, calls: seq<Call>, r: StartResult,
                      entries: seq<Entry>, journal: seq<Call>)
    requires StartOutcome(ask, es, calls, r, entries, journal) && Settled(es) && UniqueNames(es)
    ensures r.Started? ==> |entries| == |es| && forall i :: 0 <= i < |es| ==> entries[i] == es[i].(state := Running)
    ensures r.StartFailed? ==>
              && r.at < |es| == |entries|
              && entries[r.at] == es[r.at].(state := State.Failed)
              && (forall i :: 0 <= i < r.at && CanStart(es[i].state) ==>
                    entries[i].state == Stopped || entries[i].state == State.Failed)
              && (forall i :: 0 <= i < |es| && (i > r.at || es[i].state == Running) ==> entries[i] == es[i])
    ensures r.StartFailed? ==>
              var started := Ascending(Startable(es), r.at);
              var up := calls + Starts(started);
              var cleanup := if ask(up, Start(r.at)).TimesOut? then [Stop(r.at)] else [];
              journal == up + [Start(r.at)] + cleanup + Stops(Reverse(started))
  {
    if r.StartFailed? {
      var f := r.at;
      UniqueNamesNoClash(es, f);
      RollbackExactIffNoClash(es, f);
      DescendingLocal(StartedBefore(es, f), Startable(es), f, |es|);
      DescendingReverses(Startable(es), f);
    }
  }
}
