/** The application lifecycle on top of the registry: hooks, startup with rollback, and shutdown with
    error merging. All calls go through the registry's journal. Each operation is proved to leave
    exactly one journal, error and registry behind; what a run does to its components is then read off
    that journal. */
module App {
  import opened Common
  import opened World
  import R = Registry

  /** Everything a run depends on besides the components. */
  datatype Env = Env(
    ask: Oracle,
    publish: (seq<Call>, Phase) -> Option<ErrorCode>,
    cancelled: seq<Call> -> bool,
    healthy: seq<Call> -> bool,
    deadline: seq<Call> -> bool,
    task: seq<Call> -> Option<ErrorCode>)

  /** How many hooks each phase has. */
  type Hooks = Phase -> nat

  predicate FailWhenCancelled(p: Phase) {
    p == Configure || p == BeforeStart || p == AfterStart || p == Ready
  }

  function HookCalls(p: Phase, n: nat): seq<Call> {
    seq(n, k requires 0 <= k < n => Hook(p, k))
  }

  /** An error that was already there stays; the new one only adds context to it. */
  function RecordStopError(existing: Option<ErrorCode>, error: Option<ErrorCode>): Option<ErrorCode> {
    if existing.Some? then existing else error
  }

  function FirstError(steps: seq<Option<ErrorCode>>): Option<ErrorCode> {
    if steps == [] then None else if steps[0].Some? then steps[0] else FirstError(steps[1..])
  }

  // ---------------------------------------------------------------- one phase of hooks

  /** The token keeps hook `k` of a startup phase from being called. */
  predicate Barred(env: Env, calls: seq<Call>, p: Phase, k: nat) {
    FailWhenCancelled(p) && env.cancelled(calls + HookCalls(p, k))
  }

  /** What becomes of hook `k` when the ones before it passed: not called because of a cancelled token,
      its own error, or a missed deadline. */
  function HookError(env: Env, calls: seq<Call>, p: Phase, bounded: bool, k: nat): Option<ErrorCode> {
    var here := calls + HookCalls(p, k);
    var error := ErrorOf(env.ask(here, Hook(p, k)));
    if Barred(env, calls, p, k) then Some(Cancelled)
    else if error.None? && bounded && env.deadline(here + [Hook(p, k)]) then Some(Timeout)
    else error
  }

  /** The first of the hooks `k` to `n` - 1 that does not pass, or `n`. */
  function FirstBad(env: Env, calls: seq<Call>, p: Phase, bounded: bool, n: nat, k: nat): (i: nat)
    requires k <= n
    ensures k <= i <= n && forall j: nat :: k <= j < i ==> HookError(env, calls, p, bounded, j).None?
    ensures i < n ==> HookError(env, calls, p, bounded, i).Some?
    decreases n - k
  {
    if k == n || HookError(env, calls, p, bounded, k).Some? then k
    else FirstBad(env, calls, p, bounded, n, k + 1)
  }

  lemma FirstBadIs(env: Env, calls: seq<Call>, p: Phase, bounded: bool, n: nat, k: nat)
    requires k < n && HookError(env, calls, p, bounded, k).Some?
    requires forall j: nat :: j < k ==> HookError(env, calls, p, bounded, j).None?
    ensures FirstBad(env, calls, p, bounded, n, 0) == k
  {
  }

  /** How a phase with `n` hooks ends. */
  function HooksResult(env: Env, calls: seq<Call>, p: Phase, bounded: bool, n: nat): Option<ErrorCode> {
    var published, i := env.publish(calls, p), FirstBad(env, calls, p, bounded, n, 0);
    if published.Some? then published else if i < n then HookError(env, calls, p, bounded, i) else None
  }

  /** How many of its hooks are called. */
  function HooksRan(env: Env, calls: seq<Call>, p: Phase, bounded: bool, n: nat): nat {
    var i := FirstBad(env, calls, p, bounded, n, 0);
    if env.publish(calls, p).Some? then 0 else if i < n && !Barred(env, calls, p, i) then i + 1 else i
  }

  /** Hook `k` of a phase that began after `calls` passes, spelt out: in a startup phase the token is
      found quiet before it, it succeeds, and it beats the deadline if there is one. */
  ghost predicate HookPasses(env: Env, calls: seq<Call>, p: Phase, bounded: bool, k: nat) {
    var here := calls + HookCalls(p, k);
    && (p == Configure || p == BeforeStart || p == AfterStart || p == Ready ==> !env.cancelled(here))
    && env.ask(here, Hook(p, k)) == Okay
    && (bounded ==> !env.deadline(here + [Hook(p, k)]))
  }

  lemma HookPassesIs(env: Env, calls: seq<Call>, p: Phase, bounded: bool, k: nat)
    ensures HookPasses(env, calls, p, bounded, k) <==> HookError(env, calls, p, bounded, k).None?
  {
  }

  /** A phase succeeds exactly when publishing works and every hook passes, and then every hook was
      called. A shutdown phase is not stopped by a cancelled token. */
  lemma HooksResultIs(env: Env, calls: seq<Call>, p: Phase, bounded: bool, n: nat)
    ensures HooksResult(env, calls, p, bounded, n).None? <==>
            env.publish(calls, p).None? && forall k: nat :: k < n ==> HookPasses(env, calls, p, bounded, k)
    ensures HooksResult(env, calls, p, bounded, n).None? ==> HooksRan(env, calls, p, bounded, n) == n
  {
    forall k: nat ensures HookPasses(env, calls, p, bounded, k) <==> HookError(env, calls, p, bounded, k).None? {
      HookPassesIs(env, calls, p, bounded, k);
    }
  }

  /** What a phase returns and how many hooks it calls when hook `k` is the first that does not pass:
      Cancelled without calling it if a startup phase finds the token cancelled there; otherwise its own
      error, or Timeout if it, or the deadline, timed out. */
  lemma HooksEndAt(env: Env, calls: seq<Call>, p: Phase, bounded: bool, n: nat, k: nat)
    requires env.publish(calls, p).None? && k < n && !HookPasses(env, calls, p, bounded, k)
    requires forall j: nat :: j < k ==> HookPasses(env, calls, p, bounded, j)
    ensures var here, result := calls + HookCalls(p, k), HooksResult(env, calls, p, bounded, n);
            var ran := HooksRan(env, calls, p, bounded, n);
            if (p == Configure || p == BeforeStart || p == AfterStart || p == Ready) && env.cancelled(here)
            then result == Some(Cancelled) && ran == k
            else ran == k + 1 && match env.ask(here, Hook(p, k))
                                 case Fails(code) => result == Some(code)
                                 case _ => result == Some(Timeout)
  {
    HookPassesIs(env, calls, p, bounded, k);
    forall j: nat | j < k ensures HookError(env, calls, p, bounded, j).None? {
      HookPassesIs(env, calls, p, bounded, j);
    }
    FirstBadIs(env, calls, p, bounded, n, k);
  }

  /** A phase whose publishing fails calls no hook and returns that error. */
  lemma HooksUnpublished(env: Env, calls: seq<Call>, p: Phase, bounded: bool, n: nat)
    requires env.publish(calls, p).Some?
    ensures HooksResult(env, calls, p, bounded, n) == env.publish(calls, p) && HooksRan(env, calls, p, bounded, n) == 0
  {
  }

  // ---------------------------------------------------------------- startup, stage by stage

  /** Startup is a sequence of stages, the first that fails ends it. */
  datatype Stage = HookStage(phase: Phase) | StartStage(i: nat) | ReadyCheck

  /** Stage `m` of starting `n` components; there are `n` + 5. */
  function StageAt(n: nat, m: nat): Stage {
    if m == 0 then HookStage(Configure)
    else if m == 1 then HookStage(BeforeStart)
    else if m < n + 2 then StartStage(m - 2)
    else if m == n + 2 then ReadyCheck
    else if m == n + 3 then HookStage(AfterStart)
    else HookStage(Ready)
  }

  /** The calls of a stage that passes. */
  function StageCalls(hooks: Hooks, at: Stage): seq<Call> {
    match at
    case HookStage(p) => HookCalls(p, hooks(p))
    case StartStage(i) => [Start(i)]
    case ReadyCheck => []
  }

  /** The journal when stage `m` begins, all before it having passed. */
  function Reached(hooks: Hooks, j0: seq<Call>, n: nat, m: nat): seq<Call> {
    if m == 0 then j0 else Reached(hooks, j0, n, m - 1) + StageCalls(hooks, StageAt(n, m - 1))
  }

  /** How a stage ends that begins after `calls`. */
  function StageError(env: Env, hooks: Hooks, calls: seq<Call>, at: Stage): Option<ErrorCode> {
    match at
    case HookStage(p) => HooksResult(env, calls, p, false, hooks(p))
    case StartStage(i) => ErrorOf(env.ask(calls, Start(i)))
    case ReadyCheck => if env.healthy(calls) then None else Some(ServiceUnavailable)
  }

  ghost predicate StagePasses(env: Env, hooks: Hooks, j0: seq<Call>, n: nat, m: nat) {
    StageError(env, hooks, Reached(hooks, j0, n, m), StageAt(n, m)).None?
  }

  /** The first `m` stages pass. */
  ghost predicate Passed(env: Env, hooks: Hooks, j0: seq<Call>, n: nat, m: nat) {
    m <= n + 5 && forall i: nat :: i < m ==> StagePasses(env, hooks, j0, n, i)
  }

  /** Stage `m` is the first that fails; if it is `n` + 5, none does. */
  ghost predicate EndsAt(env: Env, hooks: Hooks, j0: seq<Call>, n: nat, m: nat) {
    Passed(env, hooks, j0, n, m) && (m < n + 5 ==> !StagePasses(env, hooks, j0, n, m))
  }

  /** The before-stop hooks that a failed startup still calls. */
  function FarewellCalls(env: Env, hooks: Hooks, calls: seq<Call>): seq<Call> {
    HookCalls(BeforeStop, HooksRan(env, calls, BeforeStop, false, hooks(BeforeStop)))
  }

  /** The extra stop of a component whose start timed out. */
  function TimeoutStop(env: Env, calls: seq<Call>, i: nat): seq<Call> {
    if env.ask(calls, Start(i)).TimesOut? then [Stop(i)] else []
  }

  /** Components 0 to `k` - 1, in registration order. */
  function First(k: nat): seq<nat> {
    seq(k, i requires 0 <= i < k => i)
  }

  function StopFirst(k: nat): seq<Call> {
    Stops(Reverse(First(k)))
  }

  /** The calls of a stage that fails, before anything is undone by the application. */
  function TriedCalls(env: Env, hooks: Hooks, calls: seq<Call>, at: Stage): seq<Call> {
    match at
    case HookStage(p) => HookCalls(p, HooksRan(env, calls, p, false, hooks(p)))
    case StartStage(i) => [Start(i)] + TimeoutStop(env, calls, i) + RegistryStops(at)
    case ReadyCheck => []
  }

  /** The stops that the registry makes when stage `at` fails. */
  function RegistryStops(at: Stage): seq<Call> {
    if at.StartStage? then StopFirst(at.i) else []
  }

  /** The stops that the application makes: none before all components are up. */
  function AppStops(n: nat, at: Stage): seq<Call> {
    if at.StartStage? || at == HookStage(Configure) || at == HookStage(BeforeStart) then [] else StopFirst(n)
  }

  /** How the application undoes a startup with `n` components whose stage `at` failed. */
  function UndoCalls(env: Env, hooks: Hooks, calls: seq<Call>, n: nat, at: Stage): seq<Call> {
    if at == HookStage(Configure) || at == HookStage(BeforeStart) then []
    else FarewellCalls(env, hooks, calls) + AppStops(n, at)
  }

  /** The journal after a startup that ended at stage `m`. */
  function StartJournal(env: Env, hooks: Hooks, j0: seq<Call>, n: nat, m: nat): seq<Call> {
    var here, at := Reached(hooks, j0, n, m), StageAt(n, m);
    if m >= n + 5 then here
    else
      var tried := here + TriedCalls(env, hooks, here, at);
      tried + UndoCalls(env, hooks, tried, n, at)
  }

  function StartError(env: Env, hooks: Hooks, j0: seq<Call>, n: nat, m: nat): Option<ErrorCode> {
    if m >= n + 5 then None else StageError(env, hooks, Reached(hooks, j0, n, m), StageAt(n, m))
  }

  /** A startup of `n` components from the journal `j0` ended at stage `m`. */
  ghost predicate IsStartup(env: Env, hooks: Hooks, j0: seq<Call>, n: nat, m: nat,
                            error: Option<ErrorCode>, journal: seq<Call>)
  {
    && EndsAt(env, hooks, j0, n, m)
    && (error.None? <==> m == n + 5)
    && error == StartError(env, hooks, j0, n, m)
    && journal == StartJournal(env, hooks, j0, n, m)
  }

  // ---------------------------------------------------------------- shutdown, step by step

  /** The journal when the components are stopped, when the after-stop hooks begin, and when the
      container is closed. */
  function AtComponents(env: Env, hooks: Hooks, calls: seq<Call>): seq<Call> {
    calls + HookCalls(BeforeStop, HooksRan(env, calls, BeforeStop, true, hooks(BeforeStop)))
  }

  function AtAfterStop(env: Env, hooks: Hooks, calls: seq<Call>, idxs: seq<nat>): seq<Call> {
    AtComponents(env, hooks, calls) + Stops(idxs)
  }

  function AtClose(env: Env, hooks: Hooks, calls: seq<Call>, idxs: seq<nat>): seq<Call> {
    var here := AtAfterStop(env, hooks, calls, idxs);
    here + HookCalls(AfterStop, HooksRan(env, here, AfterStop, false, hooks(AfterStop)))
  }

  function StopJournal(env: Env, hooks: Hooks, calls: seq<Call>, idxs: seq<nat>): seq<Call> {
    AtClose(env, hooks, calls, idxs) + [CloseContainer]
  }

  /** How each step of a shutdown ends that stops `idxs`. */
  ghost function StopErrors(env: Env, hooks: Hooks, calls: seq<Call>, idxs: seq<nat>): seq<Option<ErrorCode>> {
    [ HooksResult(env, calls, BeforeStop, true, hooks(BeforeStop)),
      R.StopError(env.ask, AtComponents(env, hooks, calls), idxs),
      HooksResult(env, AtAfterStop(env, hooks, calls, idxs), AfterStop, false, hooks(AfterStop)),
      ErrorOf(env.ask(AtClose(env, hooks, calls, idxs), CloseContainer)) ]
  }

  // ---------------------------------------------------------------- a fresh registry

  predicate AllCreated(es: seq<R.Entry>) {
    forall i :: 0 <= i < |es| ==> es[i].state == R.Created
  }

  predicate AllRunning(es: seq<R.Entry>) {
    forall i :: 0 <= i < |es| ==> es[i].state == R.Running
  }

  /** How many components are up when stage `m` begins. */
  function UpAt(n: nat, m: nat): nat {
    if m < 2 then 0 else if m < n + 2 then m - 2 else n
  }

  /** What a run of `es` leaves behind that ended at stage `m` of startup or, if none failed, after
      shutdown: what came up is Stopped or Failed, a component that failed to start is Failed, and every
      other one is as it was. */
  ghost predicate LeftBehind(es: seq<R.Entry>, entries: seq<R.Entry>, m: nat) {
    |entries| == |es| && forall i :: 0 <= i < |es| ==>
      && entries[i].name == es[i].name
      && if i < UpAt(|es|, m) then entries[i].state == R.Stopped || entries[i].state == R.State.Failed
         else if StageAt(|es|, m) == StartStage(i) then entries[i].state == R.State.Failed
         else entries[i].state == es[i].state
  }

  lemma NoneLeftRunning(es: seq<R.Entry>, entries: seq<R.Entry>, m: nat)
    requires AllCreated(es) && LeftBehind(es, entries, m)
    ensures R.RunningIn(entries) == {}
  {
  }

  /** Taking down everything that runs, when everything does. */
  lemma AllTakenDown(es: seq<R.Entry>, entries: seq<R.Entry>, m: nat)
    requires R.TakenDown(R.AllUpTo(es, |es|), entries, R.RunningIn(R.AllUpTo(es, |es|))) && m >= |es| + 2
    ensures LeftBehind(es, entries, m)
  {
  }

  lemma {:induction false} AscendingFirst(s: set<nat>, k: nat)
    requires forall i :: 0 <= i < k ==> i in s
    ensures Ascending(s, k) == First(k)
  {
    if k > 0 {
      AscendingFirst(s, k - 1);
    }
  }

  /** On a fresh registry the components a start brings up are the first ones, and a failed start
      takes down exactly those, in reverse, whatever their names. */
  lemma FreshStart(es: seq<R.Entry>, f: nat)
    requires AllCreated(es) && f <= |es|
    ensures Ascending(R.Startable(es), f) == First(f)
    ensures f < |es| ==> Descending(R.RollbackSet(es, f), |es|) == Reverse(First(f))
  {
    AscendingFirst(R.Startable(es), f);
    if f < |es| {
      assert !R.NameClash(es, f);
      R.RollbackExactIffNoClash(es, f);
      DescendingLocal(R.StartedBefore(es, f), R.Startable(es), f, |es|);
      DescendingReverses(R.Startable(es), f);
    }
  }

  /** When everything runs, stopping goes through all components in reverse order. */
  lemma FullStop(es: seq<R.Entry>)
    requires AllRunning(es)
    ensures Descending(R.RunningIn(es), |es|) == Reverse(First(|es|))
  {
    AscendingFirst(R.RunningIn(es), |es|);
    DescendingReverses(R.RunningIn(es), |es|);
  }

  lemma RolledBack(es: seq<R.Entry>, f: nat, entries: seq<R.Entry>)
    requires AllCreated(es) && f < |es|
    requires R.TakenDown(R.AllUpTo(es, f)[f := es[f].(state := R.State.Failed)], entries, R.RollbackSet(es, f))
    ensures LeftBehind(es, entries, f + 2)
  {
    assert !R.NameClash(es, f);
    R.RollbackExactIffNoClash(es, f);
  }

  lemma StartsNext(k: nat)
    ensures Starts(First(k + 1)) == Starts(First(k)) + [Start(k)]
  {
    assert First(k + 1) == First(k) + [k];
    StartsSnoc(First(k), k);
  }

  lemma ReachedNext(hooks: Hooks, j0: seq<Call>, n: nat, k: nat)
    requires k < n
    ensures Reached(hooks, j0, n, k + 3) == Reached(hooks, j0, n, k + 2) + [Start(k)]
  {
    assert StageAt(n, k + 2) == StartStage(k);
  }

  /** The component stages, one start call each. */
  lemma {:induction false} ReachedComponents(hooks: Hooks, j0: seq<Call>, n: nat, k: nat)
    requires k <= n
    ensures Reached(hooks, j0, n, k + 2) == Reached(hooks, j0, n, 2) + Starts(First(k))
  {
    if k > 0 {
      ReachedComponents(hooks, j0, n, k - 1);
      ReachedNext(hooks, j0, n, k - 1);
      StartsNext(k - 1);
      Assoc(Reached(hooks, j0, n, 2), Starts(First(k - 1)), [Start(k - 1)]);
    }
  }

  lemma ComponentPasses(env: Env, hooks: Hooks, j0: seq<Call>, n: nat, f: nat, k: nat)
    requires k < f <= n && R.AllOkay(env.ask, Reached(hooks, j0, n, 2), First(f))
    ensures StagePasses(env, hooks, j0, n, k + 2)
  {
    ReachedComponents(hooks, j0, n, k);
    assert First(f)[..k] == First(k) && First(f)[k] == k;
    assert StageAt(n, k + 2) == StartStage(k);
  }

  /** Where the registry found every start okay, the component stages pass. */
  lemma ComponentsPass(env: Env, hooks: Hooks, j0: seq<Call>, n: nat, f: nat)
    requires f <= n && Passed(env, hooks, j0, n, 2)
    requires R.AllOkay(env.ask, Reached(hooks, j0, n, 2), First(f))
    ensures Passed(env, hooks, j0, n, f + 2)
  {
    forall i: nat | i < f + 2 ensures StagePasses(env, hooks, j0, n, i) {
      if i >= 2 {
        ComponentPasses(env, hooks, j0, n, f, i - 2);
      }
    }
  }

  /** What a sequential start on a fresh registry amounts to, in terms of stages. */
  ghost predicate StageOutcome(env: Env, hooks: Hooks, j0: seq<Call>, es: seq<R.Entry>, r: R.StartResult,
                               entries: seq<R.Entry>, journal: seq<Call>)
  {
    match r
    case Started =>
      && Passed(env, hooks, j0, |es|, |es| + 2) && journal == Reached(hooks, j0, |es|, |es| + 2)
      && entries == R.AllUpTo(es, |es|)
    case Refused(_) => false
    case StartFailed(f, code) =>
      && f < |es| && EndsAt(env, hooks, j0, |es|, f + 2) && Some(code) == StartError(env, hooks, j0, |es|, f + 2)
      && journal == FailedHere(env, hooks, j0, |es|, f + 2) && LeftBehind(es, entries, f + 2)
  }

  lemma AllStagesPass(env: Env, hooks: Hooks, j0: seq<Call>, es: seq<R.Entry>,
                      entries: seq<R.Entry>, journal: seq<Call>)
    requires AllCreated(es) && Passed(env, hooks, j0, |es|, 2)
    requires R.StartOutcome(env.ask, es, Reached(hooks, j0, |es|, 2), R.Started, entries, journal)
    ensures StageOutcome(env, hooks, j0, es, R.Started, entries, journal)
  {
    FreshStart(es, |es|);
    ComponentsPass(env, hooks, j0, |es|, |es|);
    ReachedComponents(hooks, j0, |es|, |es|);
  }

  /** A sequential start on a fresh registry failed at `f`. */
  ghost predicate FailedFresh(ask: Oracle, es: seq<R.Entry>, calls: seq<Call>, f: nat, code: ErrorCode,
                              entries: seq<R.Entry>, journal: seq<Call>)
  {
    var up := calls + Starts(First(f));
    && f < |es| && R.AllOkay(ask, calls, First(f)) && ErrorOf(ask(up, Start(f))) == Some(code)
    && journal == up + [Start(f)] + (if ask(up, Start(f)).TimesOut? then [Stop(f)] else []) + StopFirst(f)
    && LeftBehind(es, entries, f + 2)
  }

  lemma FreshFailure(ask: Oracle, es: seq<R.Entry>, calls: seq<Call>, f: nat, code: ErrorCode,
                     entries: seq<R.Entry>, journal: seq<Call>)
    requires AllCreated(es) && R.StartOutcome(ask, es, calls, R.StartFailed(f, code), entries, journal)
    ensures FailedFresh(ask, es, calls, f, code, entries, journal)
  {
    FreshStart(es, f);
    RolledBack(es, f, entries);
  }

  lemma StageFails(env: Env, hooks: Hooks, j0: seq<Call>, es: seq<R.Entry>, f: nat, code: ErrorCode,
                   entries: seq<R.Entry>, journal: seq<Call>)
    requires Passed(env, hooks, j0, |es|, 2)
    requires FailedFresh(env.ask, es, Reached(hooks, j0, |es|, 2), f, code, entries, journal)
    ensures StageOutcome(env, hooks, j0, es, R.StartFailed(f, code), entries, journal)
  {
    ComponentsPass(env, hooks, j0, |es|, f);
    ReachedComponents(hooks, j0, |es|, f);
    StageFailsHere(env, hooks, j0, |es|, f);
  }

  /** The stage of component `f`, spelt out. */
  lemma StageFailsHere(env: Env, hooks: Hooks, j0: seq<Call>, n: nat, f: nat)
    requires f < n
    ensures var here := Reached(hooks, j0, n, f + 2);
            && StartError(env, hooks, j0, n, f + 2) == ErrorOf(env.ask(here, Start(f)))
            && (StagePasses(env, hooks, j0, n, f + 2) <==> ErrorOf(env.ask(here, Start(f))).None?)
            && FailedHere(env, hooks, j0, n, f + 2) ==
               here + [Start(f)] + (if env.ask(here, Start(f)).TimesOut? then [Stop(f)] else []) +
               StopFirst(f)
  {
    var here := Reached(hooks, j0, n, f + 2);
    assert StageAt(n, f + 2) == StartStage(f);
    Assoc(here, [Start(f)], TimeoutStop(env, here, f) + StopFirst(f));
    Assoc(here + [Start(f)], TimeoutStop(env, here, f), StopFirst(f));
    Assoc([Start(f)], TimeoutStop(env, here, f), StopFirst(f));
  }

  lemma ComponentStages(env: Env, hooks: Hooks, j0: seq<Call>, es: seq<R.Entry>, r: R.StartResult,
                        entries: seq<R.Entry>, journal: seq<Call>)
    requires AllCreated(es) && Passed(env, hooks, j0, |es|, 2)
    requires R.StartOutcome(env.ask, es, Reached(hooks, j0, |es|, 2), r, entries, journal)
    ensures StageOutcome(env, hooks, j0, es, r, entries, journal)
  {
    R.StartSettles(env.ask, es, Reached(hooks, j0, |es|, 2), r, entries, journal);
    match r
    case Started => AllStagesPass(env, hooks, j0, es, entries, journal);
    case StartFailed(f, code) =>
      FreshFailure(env.ask, es, Reached(hooks, j0, |es|, 2), f, code, entries, journal);
      StageFails(env, hooks, j0, es, f, code, entries, journal);
  }

  /** The journal when stage `m` has just failed. */
  function FailedHere(env: Env, hooks: Hooks, j0: seq<Call>, n: nat, m: nat): seq<Call> {
    var here := Reached(hooks, j0, n, m);
    here + TriedCalls(env, hooks, here, StageAt(n, m))
  }

  // ---------------------------------------------------------------- a startup that succeeds, spelt out

  /** Everything a startup calls when all goes well: the configure hooks, the before-start hooks, the
      components in registration order, the after-start hooks, the ready hooks. */
  function FullStartup(hooks: Hooks, n: nat): seq<Call> {
    HookCalls(Configure, hooks(Configure)) + HookCalls(BeforeStart, hooks(BeforeStart)) + Starts(First(n))
      + HookCalls(AfterStart, hooks(AfterStart)) + HookCalls(Ready, hooks(Ready))
  }

  lemma ReachedEnd(hooks: Hooks, j0: seq<Call>, n: nat)
    ensures Reached(hooks, j0, n, n + 5) == j0 + FullStartup(hooks, n)
    ensures Reached(hooks, j0, n, 1) == j0 + HookCalls(Configure, hooks(Configure))
    ensures Reached(hooks, j0, n, n + 3) == Reached(hooks, j0, n, n + 2) == Reached(hooks, j0, n, 2) + Starts(First(n))
    ensures Reached(hooks, j0, n, 2) == Reached(hooks, j0, n, 1) + HookCalls(BeforeStart, hooks(BeforeStart))
    ensures Reached(hooks, j0, n, n + 4) == Reached(hooks, j0, n, n + 3) + HookCalls(AfterStart, hooks(AfterStart))
  {
    ReachedComponents(hooks, j0, n, n);
    FromComponents(hooks, j0, n);
    FiveParts(j0, HookCalls(Configure, hooks(Configure)), HookCalls(BeforeStart, hooks(BeforeStart)), Starts(First(n)),
              HookCalls(AfterStart, hooks(AfterStart)), HookCalls(Ready, hooks(Ready)));
  }

  lemma FromComponents(hooks: Hooks, j0: seq<Call>, n: nat)
    ensures Reached(hooks, j0, n, 1) == j0 + HookCalls(Configure, hooks(Configure))
    ensures Reached(hooks, j0, n, 2) == Reached(hooks, j0, n, 1) + HookCalls(BeforeStart, hooks(BeforeStart))
    ensures Reached(hooks, j0, n, n + 3) == Reached(hooks, j0, n, n + 2)
    ensures Reached(hooks, j0, n, n + 4) == Reached(hooks, j0, n, n + 3) + HookCalls(AfterStart, hooks(AfterStart))
    ensures Reached(hooks, j0, n, n + 5) == Reached(hooks, j0, n, n + 4) + HookCalls(Ready, hooks(Ready))
  {
    assert Reached(hooks, j0, n, 0) == j0;
    assert StageAt(n, 0) == HookStage(Configure) && StageAt(n, 1) == HookStage(BeforeStart);
    assert StageAt(n, n + 2) == ReadyCheck && StageAt(n, n + 3) == HookStage(AfterStart);
    assert StageAt(n, n + 4) == HookStage(Ready);
  }

  lemma FiveParts(a: seq<Call>, b: seq<Call>, c: seq<Call>, d: seq<Call>, e: seq<Call>, f: seq<Call>)
    ensures a + b + c + d + e + f == a + (b + c + d + e + f)
  {
  }

  /** When each startup phase begins. */
  function PhaseBegins(hooks: Hooks, j0: seq<Call>, n: nat, p: Phase): seq<Call> {
    var built := j0 + HookCalls(Configure, hooks(Configure));
    var up := built + HookCalls(BeforeStart, hooks(BeforeStart)) + Starts(First(n));
    match p
    case Configure => j0
    case BeforeStart => built
    case AfterStart => up
    case _ => up + HookCalls(AfterStart, hooks(AfterStart))
  }

  /** A startup of `n` components that succeeded: it made exactly those calls; in each of the four startup
      phases publishing worked and every hook passed, which includes that the token was quiet before it;
      and the components were healthy once they had all been started. */
  ghost predicate WentWell(env: Env, hooks: Hooks, j0: seq<Call>, n: nat, journal: seq<Call>) {
    && journal == j0 + FullStartup(hooks, n)
    && (forall p :: p == Configure || p == BeforeStart || p == AfterStart || p == Ready ==>
          && env.publish(PhaseBegins(hooks, j0, n, p), p).None?
          && forall k: nat :: k < hooks(p) ==> HookPasses(env, PhaseBegins(hooks, j0, n, p), p, false, k))
    && env.healthy(PhaseBegins(hooks, j0, n, AfterStart))
  }

  lemma SuccessMeans(env: Env, hooks: Hooks, j0: seq<Call>, n: nat)
    requires EndsAt(env, hooks, j0, n, n + 5)
    ensures WentWell(env, hooks, j0, n, StartJournal(env, hooks, j0, n, n + 5))
  {
    ReachedEnd(hooks, j0, n);
    assert StagePasses(env, hooks, j0, n, 0) && StagePasses(env, hooks, j0, n, 1);
    assert StagePasses(env, hooks, j0, n, n + 2) && StagePasses(env, hooks, j0, n, n + 3);
    assert StagePasses(env, hooks, j0, n, n + 4);
    HooksResultIs(env, j0, Configure, false, hooks(Configure));
    HooksResultIs(env, Reached(hooks, j0, n, 1), BeforeStart, false, hooks(BeforeStart));
    HooksResultIs(env, Reached(hooks, j0, n, n + 3), AfterStart, false, hooks(AfterStart));
    HooksResultIs(env, Reached(hooks, j0, n, n + 4), Ready, false, hooks(Ready));
  }

  /** A startup phase that finds the token cancelled before hook `k`, the ones before having passed, ends
      the startup there with Cancelled, and exactly the `k` hooks before it were called. */
  lemma CancelledStartup(env: Env, hooks: Hooks, j0: seq<Call>, n: nat, m: nat, p: Phase, k: nat)
    requires Passed(env, hooks, j0, n, m) && m < n + 5 && StageAt(n, m) == HookStage(p) && k < hooks(p)
    requires var here := Reached(hooks, j0, n, m);
             && env.publish(here, p).None? && env.cancelled(here + HookCalls(p, k))
             && forall j: nat :: j < k ==> HookPasses(env, here, p, false, j)
    ensures EndsAt(env, hooks, j0, n, m) && StartError(env, hooks, j0, n, m) == Some(Cancelled)
    ensures FailedHere(env, hooks, j0, n, m) == Reached(hooks, j0, n, m) + HookCalls(p, k)
  {
    assert p == Configure || p == BeforeStart || p == AfterStart || p == Ready;
    HooksEndAt(env, Reached(hooks, j0, n, m), p, false, hooks(p), k);
  }

  /** Every startup, however it ends, calls a beginning of what a startup calls when all goes well, up to
      the stage that fails. */
  lemma {:induction false} ReachedBegins(hooks: Hooks, j0: seq<Call>, n: nat, m: nat)
    requires m <= n + 5
    ensures |Reached(hooks, j0, n, m)| <= |j0 + FullStartup(hooks, n)|
    ensures (j0 + FullStartup(hooks, n))[..|Reached(hooks, j0, n, m)|] == Reached(hooks, j0, n, m)
    decreases n + 5 - m
  {
    if m == n + 5 {
      ReachedEnd(hooks, j0, n);
    } else {
      ReachedBegins(hooks, j0, n, m + 1);
      Beginning(Reached(hooks, j0, n, m), StageCalls(hooks, StageAt(n, m)), j0 + FullStartup(hooks, n));
    }
  }

  lemma Beginning(a: seq<Call>, b: seq<Call>, j: seq<Call>)
    requires |a + b| <= |j| && j[..|a + b|] == a + b
    ensures j[..|a|] == a
  {
    assert j[..|a|] == j[..|a + b|][..|a|];
  }

  // ---------------------------------------------------------------- the application

  class App {
    const registry: R.Registry
    const hooks: Hooks

    /** Building an application registers its components in a registry of its own. */
    constructor (names: seq<string>, hooks: Hooks)
      ensures fresh(registry) && this.hooks == hooks && registry.journal == []
      ensures AllCreated(registry.entries) && |registry.entries| == |names|
      ensures forall i :: 0 <= i < |names| ==> registry.entries[i].name == names[i]
    {
      registry := new R.Registry(0);
      this.hooks := hooks;
      new;
      for i := 0 to |names|
        invariant |registry.entries| == i && registry.journal == [] && AllCreated(registry.entries)
        invariant forall j :: 0 <= j < i ==> registry.entries[j].name == names[j]
      {
        registry.Register(names[i]);
      }
    }

    /** Run the hooks of a phase until one fails, the token is found cancelled in a startup phase, or
        a deadline passes. */
    method RunHooks(env: Env, p: Phase, bounded: bool) returns (error: Option<ErrorCode>)
      modifies registry`journal
      ensures error == HooksResult(env, old(registry.journal), p, bounded, hooks(p))
      ensures registry.journal ==
              old(registry.journal) + HookCalls(p, HooksRan(env, old(registry.journal), p, bounded, hooks(p)))
    {
      ghost var calls := registry.journal;
      error := env.publish(registry.journal, p);
      assert calls + HookCalls(p, 0) == calls;
      if error.Some? { return; }
      for k := 0 to hooks(p)
        invariant error.None? && registry.journal == calls + HookCalls(p, k)
        invariant forall j: nat :: j < k ==> HookError(env, calls, p, bounded, j).None?
      {
        if FailWhenCancelled(p) && env.cancelled(registry.journal) {
          FirstBadIs(env, calls, p, bounded, hooks(p), k);
          return Some(Cancelled);
        }
        error := ErrorOf(env.ask(registry.journal, Hook(p, k)));
        assert HookCalls(p, k + 1) == HookCalls(p, k) + [Hook(p, k)];
        registry.journal := registry.journal + [Hook(p, k)];
        if error.None? && bounded && env.deadline(registry.journal) {
          error := Some(Timeout);
        }
        if error.Some? {
          FirstBadIs(env, calls, p, bounded, hooks(p), k);
          return;
        }
      }
    }

    /** Run the hooks of startup stage `m`. */
    method RunStage(env: Env, p: Phase, ghost j0: seq<Call>, ghost n: nat, ghost m: nat)
      returns (error: Option<ErrorCode>)
      requires m < n + 5 && StageAt(n, m) == HookStage(p)
      requires Passed(env, hooks, j0, n, m) && registry.journal == Reached(hooks, j0, n, m)
      modifies registry`journal
      ensures error == StageError(env, hooks, Reached(hooks, j0, n, m), StageAt(n, m))
      ensures error.None? ==> Passed(env, hooks, j0, n, m + 1) && registry.journal == Reached(hooks, j0, n, m + 1)
      ensures error.Some? ==> EndsAt(env, hooks, j0, n, m) && registry.journal == FailedHere(env, hooks, j0, n, m)
    {
      HooksResultIs(env, registry.journal, p, false, hooks(p));
      error := RunHooks(env, p, false);
    }

    /** A startup that failed calls the before-stop hooks and, once the components are up, stops them. */
    method RollbackStartup(env: Env, stopComponents: bool)
      modifies registry`entries, registry`journal
      ensures registry.journal == old(registry.journal) + FarewellCalls(env, hooks, old(registry.journal)) +
                if stopComponents then Stops(Descending(R.RunningIn(old(registry.entries)), |registry.entries|)) else []
      ensures if stopComponents
              then R.TakenDown(old(registry.entries), registry.entries, R.RunningIn(old(registry.entries)))
              else registry.entries == old(registry.entries)
    {
      var hookError := RunHooks(env, BeforeStop, false);
      if stopComponents {
        var stopError := registry.StopAll(env.ask);
      }
    }

    /** Start up. On a fresh registry, the stages run in order until one fails. If none does, every
        component was started once, in order, and runs; otherwise what came up is stopped again, a
        component that failed to start is Failed, and the others are as they were. Error and journal
        are exactly those of the first stage that fails. */
    method Start(env: Env) returns (error: Option<ErrorCode>, ghost m: nat)
      requires AllCreated(registry.entries)
      modifies registry`entries, registry`journal
      ensures IsStartup(env, hooks, old(registry.journal), |old(registry.entries)|, m, error, registry.journal)
      ensures error.None? ==> registry.entries == R.AllUpTo(old(registry.entries), |old(registry.entries)|)
      ensures error.Some? ==>
                LeftBehind(old(registry.entries), registry.entries, m) && R.RunningIn(registry.entries) == {}
      ensures error.None? ==> WentWell(env, hooks, old(registry.journal), |old(registry.entries)|, registry.journal)
    {
      ghost var j0, n := registry.journal, |registry.entries|;
      m := 0;
      error := RunStage(env, Configure, j0, n, 0);
      if error.Some? {
        assert registry.journal + [] == registry.journal;
        return;
      }
      m := 1;
      error := RunStage(env, BeforeStart, j0, n, 1);
      if error.Some? {
        assert registry.journal + [] == registry.journal;
        return;
      }
      error, m := StartComponents(env, j0);
      if error.Some? {
        NoneLeftRunning(old(registry.entries), registry.entries, m);
      } else {
        SuccessMeans(env, hooks, j0, n);
      }
    }

    /** The component stages. */
    method StartEach(env: Env, ghost j0: seq<Call>) returns (error: Option<ErrorCode>, ghost m: nat)
      requires AllCreated(registry.entries) && Passed(env, hooks, j0, |registry.entries|, 2)
      requires registry.journal == Reached(hooks, j0, |registry.entries|, 2)
      modifies registry`entries, registry`journal
      ensures 2 <= m && (error.Some? <==> m < |old(registry.entries)| + 2)
      ensures error.None? ==>
                && m == |old(registry.entries)| + 2 && Passed(env, hooks, j0, |old(registry.entries)|, m)
                && registry.journal == Reached(hooks, j0, |old(registry.entries)|, m)
                && registry.entries == R.AllUpTo(old(registry.entries), |old(registry.entries)|)
      ensures error.Some? ==>
                && EndsAt(env, hooks, j0, |old(registry.entries)|, m)
                && error == StartError(env, hooks, j0, |old(registry.entries)|, m)
                && registry.journal == FailedHere(env, hooks, j0, |old(registry.entries)|, m)
                && LeftBehind(old(registry.entries), registry.entries, m)
    {
      ghost var es := registry.entries;
      var r := registry.StartAll(env.ask);
      ComponentStages(env, hooks, j0, es, r, registry.entries, registry.journal);
      error := R.CodeOf(r);
      m := if r.Started? then |es| + 2 else r.at + 2;
    }

    /** The part of startup that begins with the components. */
    method StartComponents(env: Env, ghost j0: seq<Call>) returns (error: Option<ErrorCode>, ghost m: nat)
      requires AllCreated(registry.entries) && Passed(env, hooks, j0, |registry.entries|, 2)
      requires registry.journal == Reached(hooks, j0, |registry.entries|, 2)
      modifies registry`entries, registry`journal
      ensures IsStartup(env, hooks, j0, |old(registry.entries)|, m, error, registry.journal)
      ensures error.None? ==> registry.entries == R.AllUpTo(old(registry.entries), |old(registry.entries)|)
      ensures error.Some? ==> LeftBehind(old(registry.entries), registry.entries, m)
    {
      error, m := StartEach(env, j0);
      if error.Some? {
        ghost var failed := registry.journal;
        RollbackStartup(env, false);
        Assoc(failed, FarewellCalls(env, hooks, failed), []);
      } else {
        error, m := FinishStartup(env, j0, old(registry.entries));
      }
    }

    /** Readiness and the remaining startup hooks, with everything up. */
    method FinishStartup(env: Env, ghost j0: seq<Call>, ghost es: seq<R.Entry>)
      returns (error: Option<ErrorCode>, ghost m: nat)
      requires registry.entries == R.AllUpTo(es, |es|)
      requires Passed(env, hooks, j0, |registry.entries|, |registry.entries| + 2)
      requires registry.journal == Reached(hooks, j0, |registry.entries|, |registry.entries| + 2)
      modifies registry`entries, registry`journal
      ensures IsStartup(env, hooks, j0, |old(registry.entries)|, m, error, registry.journal)
      ensures error.None? ==> registry.entries == old(registry.entries)
      ensures error.Some? ==> LeftBehind(es, registry.entries, m)
    {
      error, m := CheckReady(env, j0);
      if error.Some? {
        FullStop(registry.entries);
        ghost var failed := registry.journal;
        RollbackStartup(env, true);
        AllTakenDown(es, registry.entries, m);
        Assoc(failed, FarewellCalls(env, hooks, failed), StopFirst(|es|));
      }
    }

    /** The last three stages, before anything is undone. */
    method CheckReady(env: Env, ghost j0: seq<Call>) returns (error: Option<ErrorCode>, ghost m: nat)
      requires Passed(env, hooks, j0, |registry.entries|, |registry.entries| + 2)
      requires registry.journal == Reached(hooks, j0, |registry.entries|, |registry.entries| + 2)
      modifies registry`journal
      ensures var n := |registry.entries|;
              && n + 2 <= m && EndsAt(env, hooks, j0, n, m)
              && error == StartError(env, hooks, j0, n, m)
              && (m == n + 5 <==> error.None?)
              && registry.journal == if error.None? then Reached(hooks, j0, n, m) else FailedHere(env, hooks, j0, n, m)
    {
      ghost var n := |registry.entries|;
      m := n + 2;
      if !env.healthy(registry.journal) {
        assert registry.journal + [] == registry.journal;
        return Some(ServiceUnavailable), m;
      }
      assert registry.journal + [] == registry.journal;
      m := n + 3;
      error := RunStage(env, AfterStart, j0, n, n + 3);
      if error.Some? { return; }
      m := n + 4;
      error := RunStage(env, Ready, j0, n, n + 4);
      if error.Some? { return; }
      m := n + 5;
    }

    /** Shut down. Every step runs whatever failed before it: hooks, components in reverse order,
        hooks, and last of all the container. The error returned is that of the first step that
        failed. */
    method Stop(env: Env) returns (error: Option<ErrorCode>)
      modifies registry`entries, registry`journal
      ensures R.TakenDown(old(registry.entries), registry.entries, R.RunningIn(old(registry.entries)))
      ensures R.RunningIn(registry.entries) == {}
      ensures var idxs := Descending(R.RunningIn(old(registry.entries)), |registry.entries|);
              && registry.journal == StopJournal(env, hooks, old(registry.journal), idxs)
              && error == FirstError(StopErrors(env, hooks, old(registry.journal), idxs))
    {
      error := RunHooks(env, BeforeStop, true);
      ghost var before := error;
      var stopped := registry.StopAll(env.ask);
      error := RecordStopError(error, stopped);
      var after := RunHooks(env, AfterStop, false);
      error := RecordStopError(error, after);
      var closed := ErrorOf(env.ask(registry.journal, CloseContainer));
      registry.journal := registry.journal + [CloseContainer];
      error := RecordStopError(error, closed);
      FirstOfFour(before, stopped, after, closed);
    }

    /** A whole run around one piece of work: start, and if that went well do the work and stop. On a
        fresh registry, whatever fails and whenever, each component that came up is stopped exactly
        once, in exact reverse start order, and nothing is left running. The error is that of startup,
        else of the work, else of the first shutdown step that failed. */
    method RunTask(env: Env) returns (error: Option<ErrorCode>, ghost m: nat)
      requires AllCreated(registry.entries)
      modifies registry`entries, registry`journal
      ensures var n, j0 := |old(registry.entries)|, old(registry.journal);
              && EndsAt(env, hooks, j0, n, m)
              && error == RunError(env, hooks, j0, n, m)
              && registry.journal == RunJournal(env, hooks, j0, n, m)
              && Bracketed(env, hooks, j0, n, m, registry.journal)
      ensures LeftBehind(old(registry.entries), registry.entries, m) && R.RunningIn(registry.entries) == {}
    {
      ghost var es, n := registry.entries, |registry.entries|;
      error, m := Start(env);
      RunBrackets(env, hooks, old(registry.journal), n, m);
      if error.Some? { return; }
      ghost var up := registry.journal;
      var taskError := env.task(registry.journal);
      FullStop(registry.entries);
      var stopError := Stop(env);
      error := RecordStopError(taskError, stopError);
      FirstThen(taskError, StopErrors(env, hooks, up, Reverse(First(n))));
      AllTakenDown(es, registry.entries, m);
    }
  }

  lemma Assoc(a: seq<Call>, b: seq<Call>, c: seq<Call>)
    ensures a + b + c == a + (b + c)
  {
  }

  lemma FirstThen(a: Option<ErrorCode>, steps: seq<Option<ErrorCode>>)
    ensures FirstError([a] + steps) == RecordStopError(a, FirstError(steps))
  {
    assert ([a] + steps)[1..] == steps;
  }

  lemma FirstOfFour(a: Option<ErrorCode>, b: Option<ErrorCode>, c: Option<ErrorCode>, d: Option<ErrorCode>)
    ensures FirstError([a, b, c, d]) == RecordStopError(RecordStopError(RecordStopError(a, b), c), d)
  {
    FirstThen(d, []);
    FirstThen(c, [d]);
    FirstThen(b, [c, d]);
    FirstThen(a, [b, c, d]);
    assert [d] + [] == [d] && [c] + [d] == [c, d] && [b] + [c, d] == [b, c, d] && [a] + [b, c, d] == [a, b, c, d];
  }

  // ---------------------------------------------------------------- whole runs

  function RunJournal(env: Env, hooks: Hooks, j0: seq<Call>, n: nat, m: nat): seq<Call> {
    var up := StartJournal(env, hooks, j0, n, m);
    if m < n + 5 then up else StopJournal(env, hooks, up, Reverse(First(n)))
  }

  ghost function RunError(env: Env, hooks: Hooks, j0: seq<Call>, n: nat, m: nat): Option<ErrorCode> {
    var up := StartJournal(env, hooks, j0, n, m);
    if m < n + 5 then StartError(env, hooks, j0, n, m)
    else FirstError([env.task(up)] + StopErrors(env, hooks, up, Reverse(First(n))))
  }

  // ---------------------------------------------------------------- reading the journal

  predicate OnComponent(c: Call) {
    c.Start? || c.Stop?
  }

  /** The calls made to components, in order. */
  function Components(calls: seq<Call>): seq<Call> {
    if calls == [] then []
    else Components(calls[..|calls| - 1]) + if OnComponent(calls[|calls| - 1]) then [calls[|calls| - 1]] else []
  }

  lemma {:induction false} ComponentsConcat(a: seq<Call>, b: seq<Call>)
    ensures Components(a + b) == Components(a) + Components(b)
  {
    if b == [] {
      assert a + b == a;
    } else {
      var front := b[..|b| - 1];
      ComponentsConcat(a, front);
      assert (a + b)[..|a + b| - 1] == a + front;
    }
  }

  lemma {:induction false} ComponentsNone(a: seq<Call>)
    requires forall c :: c in a ==> !OnComponent(c)
    ensures Components(a) == []
  {
    if a != [] {
      ComponentsNone(a[..|a| - 1]);
    }
  }

  lemma {:induction false} ComponentsAll(a: seq<Call>)
    requires forall c :: c in a ==> OnComponent(c)
    ensures Components(a) == a
  {
    if a != [] {
      ComponentsAll(a[..|a| - 1]);
      assert a == a[..|a| - 1] + [a[|a| - 1]];
    }
  }

  predicate ShutdownCall(c: Call) {
    c == CloseContainer || (c.Hook? && c.phase == AfterStop)
  }

  /** From the journal `j` to `k`, exactly `comp` was done to the components, and neither the after-stop
      hooks nor the container were touched. */
  ghost predicate Did(j: seq<Call>, k: seq<Call>, comp: seq<Call>) {
    && |j| <= |k| && k[..|j|] == j
    && Components(k[|j|..]) == comp
    && forall c :: c in k[|j|..] ==> !ShutdownCall(c)
  }

  lemma DidThen(i: seq<Call>, j: seq<Call>, comp: seq<Call>, k: seq<Call>, more: seq<Call>)
    requires Did(i, j, comp) && Did(j, k, more)
    ensures Did(i, k, comp + more)
  {
    ThenDone(i, j, k, comp, more);
    assert k[|i|..] == j[|i|..] + k[|j|..];
  }

  lemma DidCalls(j: seq<Call>, calls: seq<Call>)
    requires forall c :: c in calls ==> OnComponent(c)
    ensures Did(j, j + calls, calls)
  {
    assert (j + calls)[|j|..] == calls;
    ComponentsAll(calls);
  }

  lemma DidNothing(j: seq<Call>)
    ensures Did(j, j, [])
  {
  }

  lemma DidHooks(j: seq<Call>, p: Phase, n: nat)
    requires p != AfterStop
    ensures Did(j, j + HookCalls(p, n), [])
  {
    assert (j + HookCalls(p, n))[|j|..] == HookCalls(p, n);
    ComponentsNone(HookCalls(p, n));
  }

  /** What a failing stage itself does to a component: one start, with one extra stop exactly if it
      timed out. */
  function FailedStart(env: Env, calls: seq<Call>, at: Stage): seq<Call> {
    if at.StartStage? then [Start(at.i)] + TimeoutStop(env, calls, at.i) else []
  }

  /** What is done to the components when `k` of them come up: each is started in order and stopped
      once in exact reverse order, with `middle` in between. */
  function Bracket(k: nat, middle: seq<Call>): seq<Call> {
    Starts(First(k)) + middle + StopFirst(k)
  }

  /** What a stage that passes does to the components. */
  function Started(at: Stage): seq<Call> {
    if at.StartStage? then [Start(at.i)] else []
  }

  lemma DidOn(hooks: Hooks, j0: seq<Call>, here: seq<Call>, at: Stage, comp: seq<Call>)
    requires at != HookStage(AfterStop) && Did(j0, here, comp)
    ensures Did(j0, here + StageCalls(hooks, at), comp + Started(at))
  {
    match at {
      case HookStage(p) => DidHooks(here, p, hooks(p));
      case StartStage(i) => DidCalls(here, [Start(i)]);
      case ReadyCheck => DidCalls(here, []);
    }
    DidThen(j0, here, comp, here + StageCalls(hooks, at), Started(at));
  }

  lemma OneMoreUp(n: nat, m: nat)
    requires m < n + 5
    ensures Starts(First(UpAt(n, m))) + Started(StageAt(n, m)) == Starts(First(UpAt(n, m + 1)))
  {
    if StageAt(n, m).StartStage? {
      StartsNext(m - 2);
    }
  }

  lemma {:induction false} DidReach(hooks: Hooks, j0: seq<Call>, n: nat, m: nat)
    requires m <= n + 5
    ensures Did(j0, Reached(hooks, j0, n, m), Starts(First(UpAt(n, m))))
  {
    if m == 0 {
      DidNothing(j0);
      assert Starts(First(0)) == [];
    } else {
      DidReach(hooks, j0, n, m - 1);
      OneMoreUp(n, m - 1);
      DidOn(hooks, j0, Reached(hooks, j0, n, m - 1), StageAt(n, m - 1), Starts(First(UpAt(n, m - 1))));
    }
  }

  /** What a stage that fails does to the components, the registry's own rollback included. */
  lemma DidTry(env: Env, hooks: Hooks, here: seq<Call>, at: Stage)
    requires at != HookStage(AfterStop)
    ensures Did(here, here + TriedCalls(env, hooks, here, at),
                FailedStart(env, here, at) + RegistryStops(at))
  {
    match at
    case HookStage(p) =>
      DidHooks(here, p, HooksRan(env, here, p, false, hooks(p)));
    case StartStage(i) =>
      DidCalls(here, TriedCalls(env, hooks, here, at));
    case ReadyCheck =>
      DidCalls(here, []);
  }

  /** What the application does to undo it. */
  lemma DidUndo(env: Env, hooks: Hooks, tried: seq<Call>, n: nat, at: Stage)
    ensures Did(tried, tried + UndoCalls(env, hooks, tried, n, at), AppStops(n, at))
  {
    if at == HookStage(Configure) || at == HookStage(BeforeStart) {
      DidNothing(tried);
      assert tried + [] == tried;
    } else {
      DidHooks(tried, BeforeStop, HooksRan(env, tried, BeforeStop, false, hooks(BeforeStop)));
      DidBoth(tried, FarewellCalls(env, hooks, tried), [], AppStops(n, at));
    }
  }

  lemma DidBoth(j: seq<Call>, a: seq<Call>, comp: seq<Call>, b: seq<Call>)
    requires Did(j, j + a, comp) && forall c :: c in b ==> OnComponent(c)
    ensures Did(j, j + (a + b), comp + b)
  {
    DidCalls(j + a, b);
    DidThen(j, j + a, comp, j + a + b, b);
    Assoc(j, a, b);
  }

  /** Whatever stage fails, each component that came up got exactly one stop, in exact reverse start
      order; a component whose start failed got a stop exactly if the start timed out; and neither the
      after-stop hooks nor the container were touched. */
  lemma FailedStartBrackets(env: Env, hooks: Hooks, j0: seq<Call>, n: nat, m: nat)
    requires m < n + 5
    ensures Did(j0, StartJournal(env, hooks, j0, n, m),
                Bracket(UpAt(n, m), FailedStart(env, Reached(hooks, j0, n, m), StageAt(n, m))))
  {
    var here, at, k := Reached(hooks, j0, n, m), StageAt(n, m), UpAt(n, m);
    var tried := FailedHere(env, hooks, j0, n, m);
    DidReach(hooks, j0, n, m);
    DidTry(env, hooks, here, at);
    DidUndo(env, hooks, tried, n, at);
    StoppedOnce(n, m);
    DidAll(j0, here, tried, StartJournal(env, hooks, j0, n, m),
           Starts(First(k)), FailedStart(env, here, at), RegistryStops(at), AppStops(n, at));
  }

  lemma DidAll(i: seq<Call>, j: seq<Call>, k: seq<Call>, l: seq<Call>,
               a: seq<Call>, b: seq<Call>, c: seq<Call>, d: seq<Call>)
    requires Did(i, j, a) && Did(j, k, b + c) && Did(k, l, d)
    ensures Did(i, l, a + b + (c + d))
  {
    DidThen(i, j, a, k, b + c);
    DidThen(i, k, a + (b + c), l, d);
    assert a + (b + c) + d == a + b + (c + d);
  }

  /** What came up is stopped either by the registry or by the application. */
  lemma StoppedOnce(n: nat, m: nat)
    requires m < n + 5
    ensures RegistryStops(StageAt(n, m)) + AppStops(n, StageAt(n, m)) == StopFirst(UpAt(n, m))
  {
    assert StopFirst(0) == [];
  }

  /** Since `j0`, exactly the components that came up before stage `m` were started and stopped. */
  ghost predicate Bracketed(env: Env, hooks: Hooks, j0: seq<Call>, n: nat, m: nat, journal: seq<Call>) {
    var failed := if m < n + 5 then FailedStart(env, Reached(hooks, j0, n, m), StageAt(n, m)) else [];
    && |j0| <= |journal| && journal[..|j0|] == j0
    && Components(journal[|j0|..]) == Bracket(UpAt(n, m), failed)
  }

  lemma ComponentsMiddle(a: seq<Call>, b: seq<Call>, c: seq<Call>)
    requires forall x :: x in a + c ==> !OnComponent(x)
    requires forall x :: x in b ==> OnComponent(x)
    ensures Components(a + b + c) == b
  {
    ComponentsNone(a);
    ComponentsAll(b);
    ComponentsNone(c);
    ComponentsConcat(a, b);
    ComponentsConcat(a + b, c);
  }

  lemma ShutdownComponents(env: Env, hooks: Hooks, up: seq<Call>, idxs: seq<nat>)
    ensures var k := StopJournal(env, hooks, up, idxs);
            |up| <= |k| && k[..|up|] == up && Components(k[|up|..]) == Stops(idxs)
  {
    var before := HookCalls(BeforeStop, HooksRan(env, up, BeforeStop, true, hooks(BeforeStop)));
    var here := AtAfterStop(env, hooks, up, idxs);
    var after := HookCalls(AfterStop, HooksRan(env, here, AfterStop, false, hooks(AfterStop)));
    ComponentsMiddle(before, Stops(idxs), after + [CloseContainer]);
    Spliced(up, before, Stops(idxs), after, [CloseContainer]);
  }

  lemma Spliced(a: seq<Call>, b: seq<Call>, c: seq<Call>, d: seq<Call>, e: seq<Call>)
    ensures var k := a + b + c + d + e;
            |a| <= |k| && k[..|a|] == a && k[|a|..] == b + c + (d + e)
  {
  }

  /** Over a whole run, whether startup fails at any stage or shutdown completes, the components that
      came up are stopped exactly once each, in exact reverse start order. */
  lemma RunBrackets(env: Env, hooks: Hooks, j0: seq<Call>, n: nat, m: nat)
    requires m <= n + 5
    ensures Bracketed(env, hooks, j0, n, m, RunJournal(env, hooks, j0, n, m))
  {
    if m < n + 5 {
      FailedStartBrackets(env, hooks, j0, n, m);
    } else {
      var up := Reached(hooks, j0, n, m);
      DidReach(hooks, j0, n, m);
      ShutdownComponents(env, hooks, up, Reverse(First(n)));
      ThenDone(j0, up, RunJournal(env, hooks, j0, n, m), Starts(First(n)), StopFirst(n));
      assert Starts(First(n)) + [] == Starts(First(n));
    }
  }

  lemma ThenDone(i: seq<Call>, j: seq<Call>, k: seq<Call>, a: seq<Call>, b: seq<Call>)
    requires |i| <= |j| <= |k| && j[..|i|] == i && k[..|j|] == j
    requires Components(j[|i|..]) == a && Components(k[|j|..]) == b
    ensures k[..|i|] == i && Components(k[|i|..]) == a + b
  {
    assert k[|i|..] == j[|i|..] + k[|j|..];
    ComponentsConcat(j[|i|..], k[|j|..]);
  }

  /** Going down in reverse order, each component that came up is met exactly once. */
  lemma DownOnce(k: nat, i: nat)
    requires i < k
    ensures |Reverse(First(k))| == k && Reverse(First(k))[k - 1 - i] == i
  {
    ReverseAt(First(k), i);
  }

  lemma {:induction false} ReverseAt(s: seq<nat>, i: nat)
    requires i < |s|
    ensures |Reverse(s)| == |s| && Reverse(s)[|s| - 1 - i] == s[i]
  {
    if |s| > 1 {
      ReverseAt(s[1..], if i == 0 then 0 else i - 1);
    }
  }
}
