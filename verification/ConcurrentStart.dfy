/** Starting all components at once: one task per candidate, bounded by permits, cancelled together
    after the first error, with a rollback at the end. The tasks are interleaved arbitrarily, and
    every property is proved for every interleaving. */
module ConcurrentStart {
  import opened Common
  import opened World
  import opened Registry

  datatype TaskResult = TaskOk | TaskErr(code: ErrorCode) | Panicked

  datatype TaskPhase = Unspawned | Waiting | InFlight | Returned(result: TaskResult) | Joined(result: TaskResult)

  /** A concurrent start under way. `cancelled` is the shared token; `byCaller` says that the caller
      fired it. `log` lists the start calls made. */
  datatype Startup = Startup(
    entries: seq<Entry>,
    tasks: map<nat, TaskPhase>,
    cancelled: bool,
    byCaller: bool,
    firstError: Option<ErrorCode>,
    log: seq<Call>)

  datatype Event =
    | Spawn(i: nat)
    | Dispatch(i: nat)
    | Complete(i: nat, answer: Answer)
    | SeeCancel(i: nat)
    | Panic(i: nat)
    | Join(i: nat)
    | CallerCancel

  /** The permits: the configured number, or one per candidate when that is zero. */
  function Permits(concurrency: nat, candidates: nat): nat {
    if concurrency == 0 then (if candidates > 1 then candidates else 1) else concurrency
  }

  function Begin(es: seq<Entry>): Startup {
    Startup(es, map i | i in Startable(es) :: Unspawned, false, false, None, [])
  }

  function Flying(s: Startup): set<nat> {
    set i | i in s.tasks && s.tasks[i].InFlight?
  }

  function Put(s: Startup, i: nat, state: State, phase: TaskPhase): Startup
    requires i < |s.entries|
  {
    s.(entries := s.entries[i := s.entries[i].(state := state)], tasks := s.tasks[i := phase])
  }

  /** The first error fires the token. */
  function Note(s: Startup, code: ErrorCode): Startup {
    if s.firstError.None? then s.(cancelled := true, firstError := Some(code)) else s
  }

  predicate Enabled(limit: nat, s: Startup, e: Event) {
    match e
    case Spawn(i) => i in s.tasks && s.tasks[i].Unspawned?
    case Dispatch(i) => i in s.tasks && s.tasks[i].Waiting? && |Flying(s)| < limit
    case Complete(i, _) => i in s.tasks && s.tasks[i].InFlight?
    case SeeCancel(i) => i in s.tasks && s.tasks[i].InFlight? && s.cancelled
    case Panic(i) => i in s.tasks && s.tasks[i].InFlight?
    case Join(i) => i in s.tasks && s.tasks[i].Returned? && forall j :: j in s.tasks ==> !s.tasks[j].Unspawned?
    case CallerCancel => !s.byCaller
  }

  /** There is an entry for every entry before the call, and for every task. */
  predicate Sized(es: seq<Entry>, s: Startup) {
    |s.entries| == |es| && forall i :: i in s.tasks ==> i < |es|
  }

  /** One step; `es` are the entries before the call. */
  function Step(es: seq<Entry>, limit: nat, s: Startup, e: Event): Startup
    requires Sized(es, s) && Enabled(limit, s, e)
  {
    match e
    case Spawn(i) => Put(s, i, Starting, Waiting)
    case Dispatch(i) =>
      if s.cancelled then Put(s, i, es[i].state, Returned(TaskOk))
      else s.(tasks := s.tasks[i := InFlight], log := s.log + [Start(i)])
    case Complete(i, answer) =>
      (match answer
       case Okay => Put(s, i, Running, Returned(TaskOk))
       case Fails(code) => Put(s, i, State.Failed, Returned(TaskErr(code)))
       case TimesOut => Put(s, i, State.Failed, Returned(TaskErr(Timeout))))
    case SeeCancel(i) => Put(s, i, es[i].state, Returned(TaskOk))
    case Panic(i) => s.(tasks := s.tasks[i := Returned(Panicked)])
    case Join(i) =>
      (match s.tasks[i].result
       case TaskOk => s.(tasks := s.tasks[i := Joined(TaskOk)])
       case TaskErr(code) => Note(s.(tasks := s.tasks[i := Joined(TaskErr(code))]), code)
       case Panicked => Note(Put(s, i, State.Failed, Joined(Panicked)), Internal))
    case CallerCancel => s.(cancelled := true, byCaller := true)
  }

  // ---------------------------------------------------------------- what every state keeps

  /** The state of candidate `i` in each phase of its task. */
  ghost predicate TaskState(es: seq<Entry>, s: Startup, i: nat)
    requires i < |es| == |s.entries| && i in s.tasks
  {
    var now, before := s.entries[i].state, es[i].state;
    match s.tasks[i]
    case Unspawned => now == before
    case Waiting => now == Starting
    case InFlight => now == Starting
    case Returned(TaskOk) => now == Running || (now == before && s.cancelled)
    case Returned(TaskErr(_)) => now == State.Failed
    case Returned(Panicked) => now == Starting
    case Joined(TaskOk) => now == Running || (now == before && s.cancelled)
    case Joined(_) => now == State.Failed
  }

  ghost predicate Inv(es: seq<Entry>, limit: nat, s: Startup) {
    && |s.entries| == |es|
    && s.tasks.Keys == Startable(es)
    && (forall i :: i in s.tasks ==> TaskState(es, s, i))
    && OthersKept(es, s)
    && ErrorExact(s)
    && (s.cancelled ==> s.byCaller || s.firstError.Some?)
    && |Flying(s)| <= limit
  }

  function CodeOfTask(r: TaskResult): Option<ErrorCode> {
    match r
    case TaskOk => None
    case TaskErr(code) => Some(code)
    case Panicked => Some(Internal)
  }

  /** Task `i` has been joined with the error `code`. */
  predicate FailedWith(s: Startup, i: nat, code: ErrorCode) {
    i in s.tasks && s.tasks[i].Joined? && CodeOfTask(s.tasks[i].result) == Some(code)
  }

  /** There is an error exactly when a joined task failed, and it is the error of one that did. */
  ghost predicate ErrorExact(s: Startup) {
    && (s.firstError.Some? ==> exists i: nat :: FailedWith(s, i, s.firstError.value))
    && (s.firstError.None? ==> forall i: nat, code :: !FailedWith(s, i, code))
  }

  /** An error that is there stays; the first task joined with one sets it. */
  lemma ErrorStep(es: seq<Entry>, limit: nat, s: Startup, e: Event)
    requires Sized(es, s) && Enabled(limit, s, e)
    requires ErrorExact(s)
    ensures ErrorExact(Step(es, limit, s, e))
    ensures Step(es, limit, s, e).firstError ==
            if s.firstError.None? && e.Join? then CodeOfTask(s.tasks[e.i].result) else s.firstError
  {
    var t := Step(es, limit, s, e);
    forall i: nat, code ensures FailedWith(s, i, code) ==> FailedWith(t, i, code) {
      FailedStays(es, limit, s, e, i, code);
    }
    if e.Join? && CodeOfTask(s.tasks[e.i].result).Some? {
      assert FailedWith(t, e.i, CodeOfTask(s.tasks[e.i].result).value);
    } else {
      forall i: nat, code ensures FailedWith(t, i, code) ==> FailedWith(s, i, code) {
        FailedStays(es, limit, s, e, i, code);
      }
    }
  }

  lemma FailedStays(es: seq<Entry>, limit: nat, s: Startup, e: Event, i: nat, code: ErrorCode)
    requires Sized(es, s) && Enabled(limit, s, e)
    ensures FailedWith(s, i, code) ==> FailedWith(Step(es, limit, s, e), i, code)
    ensures FailedWith(Step(es, limit, s, e), i, code) ==>
              FailedWith(s, i, code) || (e == Join(i) && CodeOfTask(s.tasks[i].result) == Some(code))
  {
    if e.CallerCancel? || e.i != i {
      StepElsewhere(es, limit, s, e, i);
    }
  }

  /** Names never change, and only candidates change at all. */
  ghost predicate OthersKept(es: seq<Entry>, s: Startup) {
    |s.entries| == |es| &&
    forall i :: 0 <= i < |es| ==> s.entries[i].name == es[i].name && (i !in s.tasks ==> s.entries[i] == es[i])
  }

  /** A step of one task leaves the others alone. */
  lemma StepElsewhere(es: seq<Entry>, limit: nat, s: Startup, e: Event, i: nat)
    requires Sized(es, s) && Enabled(limit, s, e)
    requires e.CallerCancel? || e.i != i
    ensures var t := Step(es, limit, s, e);
            && |t.entries| == |es| && (i < |es| ==> t.entries[i] == s.entries[i])
            && (i in t.tasks <==> i in s.tasks) && (i in s.tasks ==> t.tasks[i] == s.tasks[i])
            && (s.cancelled ==> t.cancelled) && (Start(i) in t.log <==> Start(i) in s.log)
  {
  }

  lemma TaskStateStep(es: seq<Entry>, limit: nat, s: Startup, e: Event, i: nat)
    requires Sized(es, s) && Enabled(limit, s, e)
    requires i in s.tasks && TaskState(es, s, i)
    ensures |Step(es, limit, s, e).entries| == |es|
    ensures TaskState(es, Step(es, limit, s, e), i)
  {
    if e.CallerCancel? || e.i != i {
      StepElsewhere(es, limit, s, e, i);
    }
  }

  /** A permit is taken only when one is free. */
  lemma FlyingBounded(es: seq<Entry>, limit: nat, s: Startup, e: Event)
    requires Sized(es, s) && Enabled(limit, s, e)
    requires |Flying(s)| <= limit
    ensures |Flying(Step(es, limit, s, e))| <= limit
  {
    var t := Step(es, limit, s, e);
    if e.Dispatch? && !s.cancelled {
      assert Flying(t) == Flying(s) + {e.i};
    } else {
      forall i | i in Flying(t) ensures i in Flying(s) {
        assert e.CallerCancel? || i == e.i || t.tasks[i] == s.tasks[i];
      }
      SubsetCard(Flying(t), Flying(s));
    }
  }

  lemma KeysStep(es: seq<Entry>, limit: nat, s: Startup, e: Event)
    requires Sized(es, s) && Enabled(limit, s, e)
    ensures Step(es, limit, s, e).tasks.Keys == s.tasks.Keys && |Step(es, limit, s, e).entries| == |es|
  {
  }

  lemma FrameStep(es: seq<Entry>, limit: nat, s: Startup, e: Event)
    requires Sized(es, s) && OthersKept(es, s) && Enabled(limit, s, e)
    ensures OthersKept(es, Step(es, limit, s, e))
  {
    KeysStep(es, limit, s, e);
    forall i | 0 <= i < |es| && (e.CallerCancel? || e.i != i)
      ensures Step(es, limit, s, e).entries[i] == s.entries[i]
    {
      StepElsewhere(es, limit, s, e, i);
    }
  }

  lemma StepKeeps(es: seq<Entry>, limit: nat, s: Startup, e: Event)
    requires Inv(es, limit, s) && Enabled(limit, s, e)
    ensures Inv(es, limit, Step(es, limit, s, e))
  {
    var t := Step(es, limit, s, e);
    KeysStep(es, limit, s, e);
    FrameStep(es, limit, s, e);
    FlyingBounded(es, limit, s, e);
    ErrorStep(es, limit, s, e);
    forall i | i in t.tasks ensures TaskState(es, t, i) {
      TaskStateStep(es, limit, s, e, i);
    }
  }

  /** The state after the events `evs`; events that are not enabled have no effect. */
  ghost function After(es: seq<Entry>, limit: nat, evs: seq<Event>): (s: Startup)
    ensures Sized(es, s)
  {
    if evs == [] then Begin(es)
    else
      var s, e := After(es, limit, evs[..|evs| - 1]), evs[|evs| - 1];
      if Enabled(limit, s, e) then
        KeysStep(es, limit, s, e);
        Step(es, limit, s, e)
      else s
  }

  /** Every state of every run, whatever the interleaving, keeps the invariant. */
  lemma {:induction false} EveryStateKeeps(es: seq<Entry>, limit: nat, evs: seq<Event>)
    ensures Inv(es, limit, After(es, limit, evs))
  {
    if evs == [] {
      assert Flying(Begin(es)) == {};
    } else {
      var front, e := evs[..|evs| - 1], evs[|evs| - 1];
      EveryStateKeeps(es, limit, front);
      if Enabled(limit, After(es, limit, front), e) {
        StepKeeps(es, limit, After(es, limit, front), e);
      }
    }
  }

  lemma AfterOn(es: seq<Entry>, limit: nat, evs: seq<Event>, e: Event)
    requires Enabled(limit, After(es, limit, evs), e)
    ensures After(es, limit, evs + [e]) == Step(es, limit, After(es, limit, evs), e)
  {
    assert (evs + [e])[..|evs|] == evs;
  }

  /** Event `n` joins a task that failed with `code`, and no task joined before it failed. */
  ghost predicate FirstFailureAt(es: seq<Entry>, limit: nat, evs: seq<Event>, n: nat, code: ErrorCode) {
    && n < |evs| && evs[n].Join?
    && var s := After(es, limit, evs[..n]);
       && Enabled(limit, s, evs[n]) && CodeOfTask(s.tasks[evs[n].i].result) == Some(code)
       && forall i: nat, other :: !FailedWith(s, i, other)
  }

  lemma ErrorEvent(es: seq<Entry>, limit: nat, evs: seq<Event>)
    requires evs != [] && After(es, limit, evs).firstError.Some?
    ensures var s, error := After(es, limit, evs[..|evs| - 1]), After(es, limit, evs).firstError;
            if s.firstError.Some? then error == s.firstError
            else FirstFailureAt(es, limit, evs, |evs| - 1, error.value)
  {
    var s, e := After(es, limit, evs[..|evs| - 1]), evs[|evs| - 1];
    EveryStateKeeps(es, limit, evs[..|evs| - 1]);
    if Enabled(limit, s, e) {
      ErrorStep(es, limit, s, e);
    }
  }

  /** The error kept is that of the first joined task that failed. */
  lemma {:induction false} FirstErrorIsFirst(es: seq<Entry>, limit: nat, evs: seq<Event>)
    returns (n: nat, code: ErrorCode)
    requires After(es, limit, evs).firstError.Some?
    ensures After(es, limit, evs).firstError == Some(code) && FirstFailureAt(es, limit, evs, n, code)
  {
    var front := evs[..|evs| - 1];
    ErrorEvent(es, limit, evs);
    if After(es, limit, front).firstError.Some? {
      n, code := FirstErrorIsFirst(es, limit, front);
      assert front[..n] == evs[..n];
    } else {
      n, code := |evs| - 1, After(es, limit, evs).firstError.value;
    }
  }

  // ---------------------------------------------------------------- how it ends

  ghost predicate AllJoined(s: Startup) {
    forall i :: i in s.tasks ==> s.tasks[i].Joined?
  }

  /** Without an error, every candidate runs, except those that the caller's own cancellation sent
      back to where they were. */
  lemma EndsWell(es: seq<Entry>, limit: nat, s: Startup)
    requires Inv(es, limit, s) && AllJoined(s) && s.firstError.None?
    ensures forall i :: 0 <= i < |es| ==>
              if i in Startable(es) then s.entries[i].state == Running || (s.byCaller && s.entries[i] == es[i])
              else s.entries[i] == es[i]
    ensures Settled(es) ==> Settled(s.entries)
  {
    forall i | i in s.tasks ensures s.entries[i].state == Running || (s.byCaller && s.entries[i] == es[i]) {
      assert TaskState(es, s, i) && s.tasks[i].Joined?;
      var code := CodeOfTask(s.tasks[i].result);
      assert code.None? || FailedWith(s, i, code.value);
    }
  }

  /** A running component has the name of one that a concurrent start will start. */
  ghost predicate SharesName(es: seq<Entry>, i: nat)
    requires i < |es|
  {
    es[i].state == Running && exists k: nat :: k < |es| && Idle(es[k].state) && es[k].name == es[i].name
  }

  lemma SharesNameIs(es: seq<Entry>, i: nat)
    requires i < |es|
    ensures SharesName(es, i) <==> es[i].state == Running && es[i].name in NamesOf(es, Startable(es))
  {
    if SharesName(es, i) {
      var k: nat :| k < |es| && Idle(es[k].state) && es[k].name == es[i].name;
      assert k in Startable(es);
    } else if es[i].name in NamesOf(es, Startable(es)) {
      var k :| k in Startable(es) && k < |es| && es[k].name == es[i].name;
    }
  }

  /** With an error, the rollback leaves no candidate Running or Starting: each is Failed, Stopped or
      back where it was. The rollback is keyed by name, so another component is touched if and only if
      it was running under the name of a candidate; with unique names none is. */
  lemma EndsBadly(es: seq<Entry>, limit: nat, s: Startup, entries: seq<Entry>)
    requires Inv(es, limit, s) && AllJoined(s) && s.firstError.Some?
    requires TakenDown(s.entries, entries, RunningNamed(s.entries, NamesOf(es, Startable(es))))
    ensures |entries| == |es|
    ensures forall i :: i in Startable(es) ==>
              && entries[i].state != Running && entries[i].state != Starting
              && (entries[i].state == State.Failed || entries[i].state == Stopped || entries[i] == es[i])
    ensures forall i :: 0 <= i < |es| && i !in Startable(es) ==> (entries[i] != es[i] <==> SharesName(es, i))
    ensures UniqueNames(es) ==> forall i :: 0 <= i < |es| && i !in Startable(es) ==> entries[i] == es[i]
    ensures Settled(es) ==> Settled(entries)
  {
    var names := NamesOf(es, Startable(es));
    forall i | 0 <= i < |es| ensures SharesName(es, i) <==> es[i].state == Running && es[i].name in names {
      SharesNameIs(es, i);
    }
    forall i | i in Startable(es)
      ensures || entries[i].state == State.Failed || entries[i].state == Stopped
              || (entries[i] == es[i] && CanStart(es[i].state))
    {
      assert TaskState(es, s, i) && s.tasks[i].Joined?;
      assert s.entries[i].name in names;
    }
    if UniqueNames(es) {
      forall i | 0 <= i < |es| && i !in Startable(es) ensures entries[i] == es[i] {
        assert es[i].name !in names;
      }
    }
  }

  // ---------------------------------------------------------------- it ends, and never gets stuck

  function Level(p: TaskPhase): nat {
    match p
    case Unspawned => 4
    case Waiting => 3
    case InFlight => 2
    case Returned(_) => 1
    case Joined(_) => 0
  }

  function AtLeast(s: Startup, level: nat): set<nat> {
    set i | i in s.tasks && Level(s.tasks[i]) >= level
  }

  function Fuel(s: Startup): nat {
    |AtLeast(s, 1)| + |AtLeast(s, 2)| + |AtLeast(s, 3)| + |AtLeast(s, 4)| + if s.byCaller then 0 else 1
  }

  lemma LevelAt(es: seq<Entry>, limit: nat, s: Startup, e: Event, i: nat)
    requires Sized(es, s) && Enabled(limit, s, e) && i in s.tasks
    ensures i in Step(es, limit, s, e).tasks && Level(Step(es, limit, s, e).tasks[i]) <= Level(s.tasks[i])
    ensures !e.CallerCancel? && e.i == i ==> Level(Step(es, limit, s, e).tasks[i]) < Level(s.tasks[i])
  {
    if e.CallerCancel? || e.i != i {
      StepElsewhere(es, limit, s, e, i);
    }
  }

  lemma LevelsShrink(s: Startup, t: Startup, level: nat)
    requires t.tasks.Keys == s.tasks.Keys && forall i :: i in s.tasks ==> Level(t.tasks[i]) <= Level(s.tasks[i])
    ensures AtLeast(t, level) <= AtLeast(s, level)
  {
  }

  lemma LevelFalls(es: seq<Entry>, limit: nat, s: Startup, e: Event, level: nat)
    requires Sized(es, s) && Enabled(limit, s, e)
    ensures AtLeast(Step(es, limit, s, e), level) <= AtLeast(s, level)
    ensures !e.CallerCancel? && level == Level(s.tasks[e.i]) ==>
              e.i in AtLeast(s, level) && e.i !in AtLeast(Step(es, limit, s, e), level)
  {
    var t := Step(es, limit, s, e);
    KeysStep(es, limit, s, e);
    forall i | i in s.tasks ensures Level(t.tasks[i]) <= Level(s.tasks[i]) {
      LevelAt(es, limit, s, e, i);
    }
    LevelsShrink(s, t, level);
    if !e.CallerCancel? {
      LevelAt(es, limit, s, e, e.i);
    }
  }

  lemma StepBurnsFuel(es: seq<Entry>, limit: nat, s: Startup, e: Event)
    requires Sized(es, s) && Enabled(limit, s, e)
    ensures Fuel(Step(es, limit, s, e)) < Fuel(s)
  {
    var t := Step(es, limit, s, e);
    forall level: nat ensures |AtLeast(t, level)| <= |AtLeast(s, level)| {
      LevelFalls(es, limit, s, e, level);
      SubsetCard(AtLeast(t, level), AtLeast(s, level));
    }
    if !e.CallerCancel? {
      var level := Level(s.tasks[e.i]);
      LevelFalls(es, limit, s, e, level);
      SubsetCard(AtLeast(t, level), AtLeast(s, level));
      assert 1 <= level <= 4;
    }
  }

  /** While a task is not joined, some task can move, whatever the components answer. */
  lemma Progress(es: seq<Entry>, limit: nat, s: Startup)
    requires Inv(es, limit, s) && limit >= 1 && !AllJoined(s)
    ensures exists i :: i in s.tasks && !s.tasks[i].Joined? && CanMove(limit, s, i)
  {
    if i :| i in s.tasks && s.tasks[i].Unspawned? {
      assert CanMove(limit, s, i);
    } else if i :| i in s.tasks && s.tasks[i].InFlight? {
      assert CanMove(limit, s, i);
    } else if i :| i in s.tasks && s.tasks[i].Returned? {
      assert CanMove(limit, s, i);
    } else {
      assert Flying(s) == {};
      var i :| i in s.tasks && !s.tasks[i].Joined?;
      assert CanMove(limit, s, i);
    }
  }

  /** The natural next event of candidate `i` is enabled, with any answer. */
  predicate CanMove(limit: nat, s: Startup, i: nat)
    requires i in s.tasks
  {
    match s.tasks[i]
    case Unspawned => Enabled(limit, s, Spawn(i))
    case Waiting => Enabled(limit, s, Dispatch(i))
    case InFlight => Enabled(limit, s, Complete(i, Okay)) && Enabled(limit, s, Panic(i))
    case Returned(_) => Enabled(limit, s, Join(i))
    case Joined(_) => false
  }

  // ---------------------------------------------------------------- which start calls are never undone

  /** The start call of a candidate failed, timed out, panicked, or was cancelled while under way. */
  predicate BreaksStart(e: Event) {
    e.SeeCancel? || e.Panic? || (e.Complete? && !e.answer.Okay?)
  }

  /** The candidates to whose start call that happened. */
  ghost function Broken(es: seq<Entry>, limit: nat, evs: seq<Event>): set<nat> {
    if evs == [] then {}
    else
      var front, e := evs[..|evs| - 1], evs[|evs| - 1];
      Broken(es, limit, front) + if BreaksStart(e) && Enabled(limit, After(es, limit, front), e) then {e.i} else {}
  }

  /** What the start calls made and the ones broken say about candidate `i`. */
  ghost predicate CallState(s: Startup, broken: set<nat>, i: nat)
    requires i < |s.entries| && i in s.tasks
  {
    match s.tasks[i]
    case Unspawned => Start(i) !in s.log && i !in broken
    case Waiting => Start(i) !in s.log && i !in broken
    case InFlight => Start(i) in s.log && i !in broken
    case _ =>
      && (i in broken ==> Start(i) in s.log && s.entries[i].state != Running)
      && (i !in broken ==> (Start(i) in s.log <==> s.entries[i].state == Running))
  }

  /** Only candidates are called, each at most once. */
  ghost predicate CallsOnce(s: Startup) {
    && (forall c :: c in s.log ==> c.Start? && c.i in s.tasks)
    && Distinct(s.log)
  }

  ghost predicate CallInv(es: seq<Entry>, s: Startup, broken: set<nat>) {
    && |s.entries| == |es| && s.tasks.Keys == Startable(es)
    && (forall i :: i in s.tasks ==> CallState(s, broken, i))
    && CallsOnce(s)
  }

  function Breaks(e: Event): set<nat> {
    if BreaksStart(e) then {e.i} else {}
  }

  lemma CallStateStep(es: seq<Entry>, limit: nat, s: Startup, e: Event, broken: set<nat>, i: nat)
    requires |s.entries| == |es| && s.tasks.Keys == Startable(es) && Enabled(limit, s, e)
    requires i in s.tasks && TaskState(es, s, i) && CallState(s, broken, i)
    ensures i in Step(es, limit, s, e).tasks && CallState(Step(es, limit, s, e), broken + Breaks(e), i)
  {
    if e.CallerCancel? || e.i != i {
      StepElsewhere(es, limit, s, e, i);
    }
  }

  lemma CallsOnceStep(es: seq<Entry>, limit: nat, s: Startup, e: Event, broken: set<nat>)
    requires Sized(es, s) && Enabled(limit, s, e)
    requires CallsOnce(s) && forall i :: i in s.tasks ==> CallState(s, broken, i)
    ensures CallsOnce(Step(es, limit, s, e))
  {
    KeysStep(es, limit, s, e);
    if e.Dispatch? {
      assert CallState(s, broken, e.i);
    }
  }

  lemma CallInvStep(es: seq<Entry>, limit: nat, s: Startup, e: Event, broken: set<nat>)
    requires CallInv(es, s, broken) && Enabled(limit, s, e) && forall i :: i in s.tasks ==> TaskState(es, s, i)
    ensures CallInv(es, Step(es, limit, s, e), broken + Breaks(e))
  {
    var t := Step(es, limit, s, e);
    KeysStep(es, limit, s, e);
    CallsOnceStep(es, limit, s, e, broken);
    forall i | i in t.tasks ensures CallState(t, broken + Breaks(e), i) {
      CallStateStep(es, limit, s, e, broken, i);
    }
  }

  lemma {:induction false} CallsAfter(es: seq<Entry>, limit: nat, evs: seq<Event>)
    ensures CallInv(es, After(es, limit, evs), Broken(es, limit, evs))
  {
    if evs != [] {
      var front, e := evs[..|evs| - 1], evs[|evs| - 1];
      CallsAfter(es, limit, front);
      EveryStateKeeps(es, limit, front);
      if Enabled(limit, After(es, limit, front), e) {
        CallInvStep(es, limit, After(es, limit, front), e, Broken(es, limit, front));
      } else {
        assert Broken(es, limit, evs) == Broken(es, limit, front);
      }
    }
  }

  /** What candidate `i` went through, read off the calls made: `broken` are the candidates whose start
      call was broken off. */
  ghost predicate CleanedUp(calls: seq<Call>, error: Option<ErrorCode>, entries: seq<Entry>, broken: set<nat>, i: nat)
    requires i < |entries|
  {
    && (i in broken ==> Start(i) in calls)
    && (Start(i) in calls ==> (Stop(i) in calls <==> error.Some? && i !in broken))
    && (Start(i) in calls ==> (entries[i].state == Running <==> error.None? && i !in broken))
    && multiset(calls)[Start(i)] <= 1
  }

  lemma CleanedUpHere(es: seq<Entry>, s: Startup, entries: seq<Entry>, broken: set<nat>, i: nat)
    requires OthersKept(es, s) && i in Startable(es) && i in s.tasks && s.tasks[i].Joined?
    requires CallsOnce(s) && CallState(s, broken, i) && Ended(es, s, entries)
    ensures CleanedUp(s.log + Stops(Undone(es, s)), s.firstError, entries, broken, i)
  {
    CallMembers(s.log, Undone(es, s), i);
    RolledBackIff(es, s, i);
  }

  /** Every start call is made at most once. After an error, a candidate whose start call was made gets
      a stop call if and only if that call was not broken off: unlike a sequential start, a concurrent
      one never cleans up after a start that timed out, panicked or was cancelled under way. Without an
      error there is no stop call at all, and the unbroken ones run. */
  lemma NeverCleanedUp(r: Completed, i: nat)
    requires IsRun(r) && i in Startable(r.es)
    ensures i < |r.entries|
    ensures CleanedUp(r.journal[|r.calls|..], r.error, r.entries, Broken(r.es, r.limit, r.evs), i)
  {
    var s := After(r.es, r.limit, r.evs);
    EveryStateKeeps(r.es, r.limit, r.evs);
    CallsAfter(r.es, r.limit, r.evs);
    CleanedUpHere(r.es, s, r.entries, Broken(r.es, r.limit, r.evs), i);
    assert r.journal[|r.calls|..] == s.log + Stops(Undone(r.es, s));
  }

  lemma CallMembers(log: seq<Call>, idxs: seq<nat>, i: nat)
    requires forall c :: c in log ==> c.Start?
    requires Distinct(log)
    ensures Start(i) in log + Stops(idxs) <==> Start(i) in log
    ensures Stop(i) in log + Stops(idxs) <==> i in idxs
    ensures multiset(log + Stops(idxs))[Start(i)] <= 1
  {
    OnceInLog(log, i);
    if i in idxs {
      var k :| 0 <= k < |idxs| && idxs[k] == i;
      assert Stops(idxs)[k] == Stop(i);
    }
    assert Start(i) !in Stops(idxs);
  }

  lemma {:induction false} OnceInLog(log: seq<Call>, i: nat)
    requires Distinct(log)
    ensures multiset(log)[Start(i)] <= 1
  {
    if log != [] {
      var front, last := log[..|log| - 1], log[|log| - 1];
      OnceInLog(front, i);
      assert log == front + [last];
      assert last !in front;
    }
  }

  /** A candidate is rolled back exactly when it runs, and then no longer does. */
  lemma RolledBackIff(es: seq<Entry>, s: Startup, i: nat)
    requires OthersKept(es, s) && i in Startable(es)
    ensures i in Descending(ToRollBack(es, s), |es|) <==> s.entries[i].state == Running
    ensures i in ToRollBack(es, s) <==> s.entries[i].state == Running
  {
    DescendingMembers(ToRollBack(es, s), |es|, i);
    assert es[i].name in NamesOf(es, Startable(es));
  }

  // ---------------------------------------------------------------- the fate of every candidate, by events

  /** The event that ended the start call of candidate `i`, if it was made and has ended. */
  ghost function Ending(es: seq<Entry>, limit: nat, evs: seq<Event>, i: nat): Option<Event> {
    if evs == [] then None
    else
      var front, e := evs[..|evs| - 1], evs[|evs| - 1];
      if EndsCall(e, i) && Enabled(limit, After(es, limit, front), e) then Some(e) else Ending(es, limit, front, i)
  }

  predicate EndsCall(e: Event, i: nat) {
    (e.Complete? || e.SeeCancel? || e.Panic?) && e.i == i
  }

  /** What the ending of its call makes of candidate `i`: its result, its state, and whether it was
      called at all. */
  ghost predicate Fated(es: seq<Entry>, s: Startup, ending: Option<Event>, i: nat)
    requires Sized(es, s) && i in s.tasks
  {
    var now := s.entries[i].state;
    match s.tasks[i]
    case Unspawned => ending.None? && Start(i) !in s.log && now == es[i].state
    case Waiting => ending.None? && Start(i) !in s.log && now == Starting
    case InFlight => ending.None? && Start(i) in s.log && now == Starting
    case Returned(r) => ResultOf(es, s, ending, i, r, Starting)
    case Joined(r) => ResultOf(es, s, ending, i, r, State.Failed)
  }

  ghost predicate ResultOf(es: seq<Entry>, s: Startup, ending: Option<Event>, i: nat, r: TaskResult, panicked: State)
    requires Sized(es, s) && i < |es|
  {
    var now := s.entries[i].state;
    match ending
    case None => r == TaskOk && Start(i) !in s.log && now == es[i].state
    case Some(Complete(_, Okay)) => r == TaskOk && Start(i) in s.log && now == Running
    case Some(Complete(_, Fails(code))) => r == TaskErr(code) && Start(i) in s.log && now == State.Failed
    case Some(Complete(_, TimesOut)) => r == TaskErr(Timeout) && Start(i) in s.log && now == State.Failed
    case Some(SeeCancel(_)) => r == TaskOk && Start(i) in s.log && now == es[i].state
    case Some(Panic(_)) => r == Panicked && Start(i) in s.log && now == panicked
    case _ => false
  }

  lemma FatedStep(es: seq<Entry>, limit: nat, s: Startup, e: Event, ending: Option<Event>, i: nat)
    requires Sized(es, s) && Enabled(limit, s, e) && i in s.tasks && Fated(es, s, ending, i)
    ensures Sized(es, Step(es, limit, s, e)) && i in Step(es, limit, s, e).tasks
    ensures Fated(es, Step(es, limit, s, e), if EndsCall(e, i) then Some(e) else ending, i)
  {
    KeysStep(es, limit, s, e);
    if e.CallerCancel? || e.i != i {
      StepElsewhere(es, limit, s, e, i);
    }
  }

  /** In every reachable state the events decide what has become of each candidate. */
  lemma {:induction false} FateIs(es: seq<Entry>, limit: nat, evs: seq<Event>, i: nat)
    requires i in Startable(es)
    ensures i in After(es, limit, evs).tasks && Fated(es, After(es, limit, evs), Ending(es, limit, evs, i), i)
  {
    if evs != [] {
      var front, e := evs[..|evs| - 1], evs[|evs| - 1];
      FateIs(es, limit, front, i);
      if Enabled(limit, After(es, limit, front), e) {
        FatedStep(es, limit, After(es, limit, front), e, Ending(es, limit, front, i), i);
      }
    }
  }

  /** A finished concurrent start, spelt out for the component `i` that was Created, Stopped or Failed
      before. Never called, or cancelled while under way, it is as it was. A call that succeeded leaves
      it running, or stopped again after an error. A call that failed, timed out or panicked leaves it
      Failed, with an error and without a stop. */
  lemma CandidateFate(r: Completed, i: nat)
    requires IsRun(r) && i < |r.es|
    requires r.es[i].state == Created || r.es[i].state == Stopped || r.es[i].state == State.Failed
    ensures |r.entries| == |r.es| && |r.calls| <= |r.journal|
    ensures var calls, before, now := r.journal[|r.calls|..], r.es[i], r.entries[i];
            match Ending(r.es, r.limit, r.evs, i)
            case None => now == before && Start(i) !in calls && Stop(i) !in calls
            case Some(Complete(_, Okay)) =>
              && Start(i) in calls && (Stop(i) in calls <==> r.error.Some?)
              && if r.error.None? then now == Entry(before.name, Running)
                 else now == Entry(before.name, Stopped) || now == Entry(before.name, State.Failed)
            case Some(SeeCancel(_)) => now == before && Start(i) in calls && Stop(i) !in calls
            case Some(_) =>
              now == Entry(before.name, State.Failed) && r.error.Some? && Start(i) in calls && Stop(i) !in calls
  {
    var s := After(r.es, r.limit, r.evs);
    EveryStateKeeps(r.es, r.limit, r.evs);
    FateIs(r.es, r.limit, r.evs, i);
    FateHere(r.es, s, r.entries, Ending(r.es, r.limit, r.evs, i), i);
    CallsAfter(r.es, r.limit, r.evs);
    CallMembers(s.log, Undone(r.es, s), i);
    assert r.journal[|r.calls|..] == s.log + Stops(Undone(r.es, s));
  }

  lemma FateHere(es: seq<Entry>, s: Startup, entries: seq<Entry>, ending: Option<Event>, i: nat)
    requires OthersKept(es, s) && ErrorExact(s) && Sized(es, s) && i in Startable(es)
    requires i in s.tasks && s.tasks[i].Joined? && Fated(es, s, ending, i) && Ended(es, s, entries)
    ensures |entries| == |es|
    ensures i in Undone(es, s) <==> s.firstError.Some? && s.entries[i].state == Running
    ensures !s.tasks[i].result.TaskOk? ==> s.firstError.Some?
    ensures entries[i].name == es[i].name
    ensures if i in Undone(es, s) then entries[i].state == Stopped || entries[i].state == State.Failed
            else entries[i].state == s.entries[i].state
  {
    RolledBackIff(es, s, i);
    var code := CodeOfTask(s.tasks[i].result);
    assert code.None? || FailedWith(s, i, code.value);
  }

  /** The call that ended so ended with the error `code`. */
  predicate EndedWith(ending: Option<Event>, code: ErrorCode) {
    match ending
    case Some(Complete(_, Fails(c))) => c == code
    case Some(Complete(_, TimesOut)) => code == Timeout
    case Some(Panic(_)) => code == Internal
    case _ => false
  }

  /** The error of a concurrent start is what the component itself answered whose failed task was joined
      first, or Timeout or Internal if it timed out or panicked. */
  lemma ErrorHasCause(r: Completed) returns (n: nat)
    requires IsRun(r) && r.error.Some?
    ensures n < |r.evs| && r.evs[n].Join?
    ensures EndedWith(Ending(r.es, r.limit, r.evs[..n], r.evs[n].i), r.error.value)
    ensures FirstFailureAt(r.es, r.limit, r.evs, n, r.error.value)
  {
    var code;
    n, code := FirstErrorIsFirst(r.es, r.limit, r.evs);
    EveryStateKeeps(r.es, r.limit, r.evs[..n]);
    FateIs(r.es, r.limit, r.evs[..n], r.evs[n].i);
  }

  // ---------------------------------------------------------------- the token and the start calls, by events

  /** The caller has cancelled, or a task that failed has been joined. */
  ghost predicate Fired(es: seq<Entry>, limit: nat, evs: seq<Event>) {
    evs != [] &&
    var front, e := evs[..|evs| - 1], evs[|evs| - 1];
    var s := After(es, limit, front);
    Fired(es, limit, front) ||
    (Enabled(limit, s, e) && (e.CallerCancel? || (e.Join? && !s.tasks[e.i].result.TaskOk?)))
  }

  /** The start calls: one for every task dispatched before that, in the order of dispatch. */
  ghost function Dispatched(es: seq<Entry>, limit: nat, evs: seq<Event>): seq<Call> {
    if evs == [] then []
    else
      var front, e := evs[..|evs| - 1], evs[|evs| - 1];
      Dispatched(es, limit, front) +
      if e.Dispatch? && Enabled(limit, After(es, limit, front), e) && !Fired(es, limit, front) then [Start(e.i)] else []
  }

  lemma TokenStep(es: seq<Entry>, limit: nat, s: Startup, e: Event)
    requires Sized(es, s) && Enabled(limit, s, e) && (s.firstError.Some? ==> s.cancelled)
    ensures var t := Step(es, limit, s, e);
            && (t.cancelled <==> s.cancelled || e.CallerCancel? || (e.Join? && !s.tasks[e.i].result.TaskOk?))
            && (t.firstError.Some? ==> t.cancelled)
            && t.log == s.log + if e.Dispatch? && !s.cancelled then [Start(e.i)] else []
  {
  }

  lemma {:induction false} TokenIs(es: seq<Entry>, limit: nat, evs: seq<Event>)
    ensures var s := After(es, limit, evs);
            && (s.cancelled <==> Fired(es, limit, evs)) && (s.firstError.Some? ==> s.cancelled)
            && s.log == Dispatched(es, limit, evs)
  {
    if evs != [] {
      var front, e := evs[..|evs| - 1], evs[|evs| - 1];
      TokenIs(es, limit, front);
      if Enabled(limit, After(es, limit, front), e) {
        TokenStep(es, limit, After(es, limit, front), e);
      }
    }
  }

  /** Once the token has fired, by the caller or by the first join of a failed task, no further start
      call is made. */
  lemma {:induction false} NoStartOnceFired(es: seq<Entry>, limit: nat, evs: seq<Event>, n: nat)
    requires n <= |evs| && Fired(es, limit, evs[..n])
    ensures Fired(es, limit, evs) && After(es, limit, evs).log == After(es, limit, evs[..n]).log
  {
    if n < |evs| {
      var front := evs[..|evs| - 1];
      assert front[..n] == evs[..n];
      NoStartOnceFired(es, limit, front, n);
      TokenIs(es, limit, front);
      TokenIs(es, limit, evs);
    } else {
      assert evs[..n] == evs;
    }
  }

  /** A start that the caller cancels before anything else does nothing at all. */
  lemma CancelledAtOnce(r: Completed)
    requires IsRun(r) && r.evs != [] && r.evs[0] == CallerCancel
    ensures r.error.None? && r.entries == r.es && r.journal == r.calls
  {
    var s := After(r.es, r.limit, r.evs);
    assert r.evs[..1] == [CallerCancel] && r.evs[..1][..0] == [];
    NoStartOnceFired(r.es, r.limit, r.evs, 1);
    assert s.log == [];
    EveryStateKeeps(r.es, r.limit, r.evs);
    forall i | i in Startable(r.es) ensures s.entries[i] == r.es[i] && s.tasks[i] == Joined(TaskOk) {
      FateIs(r.es, r.limit, r.evs, i);
    }
    assert s.firstError.None?;
    assert s.entries == r.es;
  }

  lemma {:induction false} SpawnedOnlySo(es: seq<Entry>, limit: nat, evs: seq<Event>, i: nat)
    requires i in After(es, limit, evs).tasks && !After(es, limit, evs).tasks[i].Unspawned?
    ensures Spawn(i) in evs
  {
    if evs != [] {
      var front, e := evs[..|evs| - 1], evs[|evs| - 1];
      var s := After(es, limit, front);
      assert evs == front + [e];
      if Enabled(limit, s, e) && (e.CallerCancel? || e.i != i) {
        StepElsewhere(es, limit, s, e, i);
      }
      if i in s.tasks && !s.tasks[i].Unspawned? {
        SpawnedOnlySo(es, limit, front, i);
      }
    }
  }

  /** Every candidate is spawned before the first task is joined. */
  lemma JoinsAfterSpawns(es: seq<Entry>, limit: nat, evs: seq<Event>, n: nat, i: nat)
    requires n < |evs| && evs[n].Join? && Enabled(limit, After(es, limit, evs[..n]), evs[n]) && i in Startable(es)
    ensures Spawn(i) in evs[..n]
  {
    EveryStateKeeps(es, limit, evs[..n]);
    SpawnedOnlySo(es, limit, evs[..n], i);
  }

  // ---------------------------------------------------------------- permits

  /** With a configured concurrency never more start calls than that are under way; with none, no
      candidate ever waits for a permit. */
  lemma PermitsAre(es: seq<Entry>, concurrency: nat, evs: seq<Event>)
    ensures var limit := Permits(concurrency, |Startable(es)|);
            var s := After(es, limit, evs);
            && (concurrency > 0 ==> |set i | i in s.tasks && s.tasks[i] == InFlight| <= concurrency)
            && (concurrency == 0 ==>
                  forall i :: i in s.tasks && s.tasks[i] == Waiting ==> Enabled(limit, s, Dispatch(i)))
  {
    var limit := Permits(concurrency, |Startable(es)|);
    var s := After(es, limit, evs);
    EveryStateKeeps(es, limit, evs);
    assert (set i | i in s.tasks && s.tasks[i] == InFlight) == Flying(s);
    if concurrency == 0 {
      forall i | i in s.tasks && s.tasks[i] == Waiting ensures Enabled(limit, s, Dispatch(i)) {
        SubsetCard(Flying(s) + {i}, Startable(es));
      }
    }
  }

  // ---------------------------------------------------------------- the failing families are real

  /** Candidate `i` is spawned, dispatched, answered and joined... */
  function LoneEvent(i: nat, answer: Answer, k: nat): Event {
    if k == 0 then Spawn(i) else if k == 1 then Dispatch(i) else if k == 2 then Complete(i, answer) else Join(i)
  }

  /** ...and the first `k` of these events are all that happens. */
  function Lone(i: nat, answer: Answer, k: nat): seq<Event> {
    if k == 0 then [] else Lone(i, answer, k - 1) + [LoneEvent(i, answer, k - 1)]
  }

  /** The state after the first `k` of these events. */
  function LoneState(es: seq<Entry>, i: nat, code: ErrorCode, k: nat): Startup
    requires i < |es|
  {
    var failed := es[i := es[i].(state := State.Failed)];
    var starting := es[i := es[i].(state := Starting)];
    if k == 0 then Startup(es, map[i := Unspawned], false, false, None, [])
    else if k == 1 then Startup(starting, map[i := Waiting], false, false, None, [])
    else if k == 2 then Startup(starting, map[i := InFlight], false, false, None, [Start(i)])
    else if k == 3 then Startup(failed, map[i := Returned(TaskErr(code))], false, false, None, [Start(i)])
    else Startup(failed, map[i := Joined(TaskErr(code))], true, false, Some(code), [Start(i)])
  }

  lemma LoneStep(es: seq<Entry>, i: nat, code: ErrorCode, answer: Answer, k: nat)
    requires i < |es| && ErrorOf(answer) == Some(code) && k < 4
    ensures var s, e := LoneState(es, i, code, k), LoneEvent(i, answer, k);
            Enabled(1, s, e) && Step(es, 1, s, e) == LoneState(es, i, code, k + 1)
  {
    var s := LoneState(es, i, code, k);
    if k == 1 {
      assert Flying(s) == {};
    }
  }

  lemma {:induction false} LoneRun(es: seq<Entry>, i: nat, code: ErrorCode, answer: Answer, k: nat)
    requires Startable(es) == {i} && ErrorOf(answer) == Some(code) && k <= 4
    ensures After(es, 1, Lone(i, answer, k)) == LoneState(es, i, code, k)
  {
    if k == 0 {
      assert Begin(es).tasks == map[i := Unspawned];
    } else {
      LoneRun(es, i, code, answer, k - 1);
      LoneStep(es, i, code, answer, k - 1);
      AfterOn(es, 1, Lone(i, answer, k - 1), LoneEvent(i, answer, k - 1));
    }
  }

  /** A start that times out is never followed by a stop. */
  lemma LeftAloneExample()
    ensures var es := [Entry("a", Created)];
            var s := After(es, 1, Lone(0, TimesOut, 4));
            && AllJoined(s) && s.firstError == Some(Timeout)
            && s.log == [Start(0)] && Undone(es, s) == []
  {
    var es := [Entry("a", Created)];
    assert Startable(es) == {0};
    LoneRun(es, 0, Timeout, TimesOut, 4);
    var s := LoneState(es, 0, Timeout, 4);
    assert ToRollBack(es, s) == {};
    assert Descending({}, 1) == [] + Descending({}, 0);
  }

  /** A component that was running is taken down because a candidate of its name failed. */
  lemma NamesakeExample()
    ensures var es := [Entry("db", Running), Entry("db", Created)];
            var s := After(es, 1, Lone(1, Fails(Internal), 4));
            && AllJoined(s) && s.firstError == Some(Internal)
            && s.log == [Start(1)] && Undone(es, s) == [0] && 0 !in Startable(es)
  {
    var es := [Entry("db", Running), Entry("db", Created)];
    assert Startable(es) == {1};
    LoneRun(es, 1, Internal, Fails(Internal), 4);
    var s := LoneState(es, 1, Internal, 4);
    assert es[1].name in NamesOf(es, Startable(es));
    assert ToRollBack(es, s) == {0};
    assert Descending({0}, 1) == [0] + Descending({0}, 0) && Descending({0}, 2) == [] + Descending({0}, 1);
  }

  // ---------------------------------------------------------------- the operation

  /** What the runtime, the components and the caller do next, given what happened so far. */
  type Schedule = seq<Event> -> Event

  /** Event `n` is the one the schedule asks for; if that one is impossible, it is any other, but
      never a cancellation that the caller did not ask for. */
  ghost predicate Scheduled(es: seq<Entry>, limit: nat, next: Schedule, evs: seq<Event>, n: nat)
    requires n < |evs|
  {
    var s, wanted := After(es, limit, evs[..n]), next(evs[..n]);
    && Enabled(limit, s, evs[n])
    && (evs[n] == wanted || (!Enabled(limit, s, wanted) && !evs[n].CallerCancel?))
  }

  ghost predicate Follows(es: seq<Entry>, limit: nat, next: Schedule, evs: seq<Event>) {
    forall n :: 0 <= n < |evs| ==> Scheduled(es, limit, next, evs, n)
  }

  lemma FollowsOn(es: seq<Entry>, limit: nat, next: Schedule, evs: seq<Event>, e: Event)
    requires Follows(es, limit, next, evs) && Enabled(limit, After(es, limit, evs), e)
    requires e == next(evs) || (!Enabled(limit, After(es, limit, evs), next(evs)) && !e.CallerCancel?)
    ensures Follows(es, limit, next, evs + [e])
    ensures After(es, limit, evs + [e]) == Step(es, limit, After(es, limit, evs), e)
  {
    var longer := evs + [e];
    AfterOn(es, limit, evs, e);
    assert longer[..|evs|] == evs;
    forall n | 0 <= n < |longer| ensures Scheduled(es, limit, next, longer, n) {
      if n < |evs| {
        assert longer[..n] == evs[..n];
        assert Scheduled(es, limit, next, evs, n);
      }
    }
  }

  /** What an error takes down: everything running under the name of a candidate. */
  function ToRollBack(es: seq<Entry>, s: Startup): set<nat> {
    RunningNamed(s.entries, NamesOf(es, Startable(es)))
  }

  /** The candidates and namesakes that the rollback stops, in order. */
  function Undone(es: seq<Entry>, s: Startup): seq<nat> {
    if s.firstError.None? then [] else Descending(ToRollBack(es, s), |es|)
  }

  ghost predicate Ended(es: seq<Entry>, s: Startup, entries: seq<Entry>) {
    if s.firstError.None? then entries == s.entries else TakenDown(s.entries, entries, ToRollBack(es, s))
  }

  /** A finished concurrent start: from `es` and `calls`, through the events `evs`, to the rest. */
  datatype Completed = Completed(
    es: seq<Entry>,
    calls: seq<Call>,
    limit: nat,
    evs: seq<Event>,
    error: Option<ErrorCode>,
    byCaller: bool,
    entries: seq<Entry>,
    journal: seq<Call>)

  /** The events join every task; the result and the rollback are those of the state they lead to. */
  ghost predicate IsRun(r: Completed) {
    var s := After(r.es, r.limit, r.evs);
    && AllJoined(s)
    && r.error == s.firstError && r.byCaller == s.byCaller
    && Ended(r.es, s, r.entries)
    && r.journal == r.calls + (s.log + Stops(Undone(r.es, s)))
  }

  /** What a concurrent start from `es` leaves behind. */
  ghost predicate ConcurrentOutcome(es: seq<Entry>, entries: seq<Entry>, error: Option<ErrorCode>, byCaller: bool) {
    && |entries| == |es|
    && (error.None? ==> forall i :: 0 <= i < |es| ==>
          if i in Startable(es) then entries[i].state == Running || (byCaller && entries[i] == es[i])
          else entries[i] == es[i])
    && (error.Some? ==> forall i :: i in Startable(es) ==>
          && entries[i].state != Running && entries[i].state != Starting
          && (entries[i].state == State.Failed || entries[i].state == Stopped || entries[i] == es[i]))
    && (error.Some? ==> forall i :: 0 <= i < |es| && i !in Startable(es) ==>
          (entries[i] != es[i] <==> SharesName(es, i)))
    && (Settled(es) ==> Settled(entries))
  }

  /** Every interleaving that runs to its end, followed by a rollback if there was an error, leaves
      this behind; there is an error exactly when a task failed, and it is that of the first joined. */
  lemma EveryRunEnds(r: Completed)
    requires IsRun(r)
    ensures ConcurrentOutcome(r.es, r.entries, r.error, r.byCaller)
    ensures ErrorExact(After(r.es, r.limit, r.evs))
    ensures r.error.Some? ==> exists n: nat :: FirstFailureAt(r.es, r.limit, r.evs, n, r.error.value)
  {
    var s := After(r.es, r.limit, r.evs);
    EveryStateKeeps(r.es, r.limit, r.evs);
    if s.firstError.None? {
      EndsWell(r.es, r.limit, s);
    } else {
      var n, code := FirstErrorIsFirst(r.es, r.limit, r.evs);
      EndsBadly(r.es, r.limit, s, r.entries);
    }
  }

  /** The wanted event if it is possible, otherwise any move of a task that can move. */
  method ChooseEvent(es: seq<Entry>, limit: nat, s: Startup, wanted: Event) returns (e: Event)
    requires Inv(es, limit, s) && limit >= 1 && !AllJoined(s)
    ensures Enabled(limit, s, e)
    ensures e == wanted || (!Enabled(limit, s, wanted) && !e.CallerCancel?)
  {
    if Enabled(limit, s, wanted) { return wanted; }
    Progress(es, limit, s);
    var i :| i in s.tasks && CanMove(limit, s, i);
    assert CanMove(limit, s, i);
    var answer := *;
    match s.tasks[i]
    case Unspawned => e := Spawn(i);
    case Waiting => e := Dispatch(i);
    case InFlight => e := Complete(i, answer);
    case Returned(_) => e := Join(i);
  }

  /** Run the tasks of all candidates to their end, under the interleaving, answers, panics and
      cancellation that the schedule dictates. */
  method RunTasks(reg: Registry, limit: nat, next: Schedule) returns (s: Startup, evs: seq<Event>)
    requires limit >= 1
    modifies reg`entries
    ensures s == After(old(reg.entries), limit, evs) && AllJoined(s) && reg.entries == s.entries
    ensures Follows(old(reg.entries), limit, next, evs)
  {
    var es := reg.entries;
    s, evs := Begin(es), [];
    while exists i :: i in s.tasks && !s.tasks[i].Joined?
      invariant s == After(es, limit, evs) && Follows(es, limit, next, evs) && reg.entries == s.entries
      decreases Fuel(s)
    {
      EveryStateKeeps(es, limit, evs);
      var e := ChooseEvent(es, limit, s, next(evs));
      FollowsOn(es, limit, next, evs, e);
      StepBurnsFuel(es, limit, s, e);
      s, evs := Step(es, limit, s, e), evs + [e];
      reg.entries := s.entries;
    }
  }

  /** Once every task is joined, take down what runs if there was an error. */
  method RollBack(reg: Registry, ask: Oracle, es: seq<Entry>, s: Startup)
    requires reg.entries == s.entries && |s.entries| == |es|
    modifies reg`entries, reg`journal
    ensures Ended(es, s, reg.entries)
    ensures reg.journal == old(reg.journal) + (s.log + Stops(Undone(es, s)))
  {
    reg.journal := reg.journal + s.log;
    if s.firstError.Some? {
      var results := reg.RollbackStarted(ask, NamesOf(es, Startable(es)));
    }
  }

  /** Start all candidates concurrently, and roll back if one of them failed. */
  method StartAllConcurrent(reg: Registry, ask: Oracle, next: Schedule) returns (r: Completed)
    modifies reg`entries, reg`journal
    ensures r.es == old(reg.entries) && r.calls == old(reg.journal)
    ensures r.entries == reg.entries && r.journal == reg.journal
    ensures r.limit == Permits(reg.concurrency, |Startable(r.es)|)
    ensures IsRun(r) && Follows(r.es, r.limit, next, r.evs)
    ensures ConcurrentOutcome(r.es, reg.entries, r.error, r.byCaller)
  {
    var es, calls := reg.entries, reg.journal;
    var limit := Permits(reg.concurrency, |Startable(es)|);
    var s, evs := RunTasks(reg, limit, next);
    RollBack(reg, ask, es, s);
    r := Completed(es, calls, limit, evs, s.firstError, s.byCaller, reg.entries, reg.journal);
    EveryRunEnds(r);
  }

  // ---------------------------------------------------------------- histories

  datatype Op = RegisterOp(name: string) | StartOp | ConcurrentStartOp(next: Schedule) | StopOp

  datatype Reply =
    | Registered
    | StartReply(result: StartResult)
    | ConcurrentReply(run: Completed)
    | StopReply(error: Option<ErrorCode>)

  datatype Snapshot = Snapshot(entries: seq<Entry>, journal: seq<Call>)

  /** One call, from `was` to `now`, answered by `reply`. */
  ghost predicate Effect(ask: Oracle, concurrency: nat, op: Op, reply: Reply, was: Snapshot, now: Snapshot) {
    match op
    case RegisterOp(name) => reply == Registered && now == Snapshot(was.entries + [Entry(name, Created)], was.journal)
    case StartOp =>
      reply.StartReply? && StartOutcome(ask, was.entries, was.journal, reply.result, now.entries, now.journal)
    case ConcurrentStartOp(next) => reply.ConcurrentReply? && ConcurrentEffect(concurrency, next, reply.run, was, now)
    case StopOp => reply.StopReply? && StopEffect(ask, reply.error, was, now)
  }

  ghost predicate ConcurrentEffect(concurrency: nat, next: Schedule, r: Completed, was: Snapshot, now: Snapshot) {
    && Snapshot(r.es, r.calls) == was && Snapshot(r.entries, r.journal) == now
    && r.limit == Permits(concurrency, |Startable(r.es)|)
    && IsRun(r) && Follows(r.es, r.limit, next, r.evs)
  }

  ghost predicate StopEffect(ask: Oracle, error: Option<ErrorCode>, was: Snapshot, now: Snapshot) {
    var idxs := Descending(RunningIn(was.entries), |was.entries|);
    && TakenDown(was.entries, now.entries, RunningIn(was.entries))
    && now.journal == was.journal + Stops(idxs)
    && error == StopError(ask, was.journal, idxs)
  }

  /** A history of calls on a new registry, with the reply to each and the registry in between. */
  ghost predicate History(ask: Oracle, concurrency: nat, ops: seq<Op>, replies: seq<Reply>, snaps: seq<Snapshot>) {
    && |replies| == |ops| && |snaps| == |ops| + 1 && snaps[0] == Snapshot([], [])
    && forall n :: 0 <= n < |ops| ==> Effect(ask, concurrency, ops[n], replies[n], snaps[n], snaps[n + 1])
  }

  /** A call that leaves nothing in transition, is not refused, and if it is a stop leaves nothing running. */
  ghost predicate Safe(op: Op, reply: Reply, now: Snapshot) {
    && (forall i :: 0 <= i < |now.entries| ==> now.entries[i].state != Starting && now.entries[i].state != Stopping)
    && (op.StartOp? ==> reply.StartReply? && !reply.result.Refused?)
    && (op.StopOp? ==> forall i :: 0 <= i < |now.entries| ==> now.entries[i].state != Running)
  }

  /** From rest, every call leaves the registry at rest and no sequential start is refused. */
  lemma EffectSettles(ask: Oracle, concurrency: nat, op: Op, reply: Reply, was: Snapshot, now: Snapshot)
    requires Settled(was.entries) && Effect(ask, concurrency, op, reply, was, now)
    ensures Settled(now.entries) && Safe(op, reply, now)
  {
    match op
    case RegisterOp(_) =>
    case StartOp => StartSafe(ask, op, reply, was, now);
    case ConcurrentStartOp(_) => ConcurrentSafe(op, reply, was, now);
    case StopOp => StopSafe(ask, op, reply, was, now);
  }

  lemma ConcurrentSafe(op: Op, reply: Reply, was: Snapshot, now: Snapshot)
    requires Settled(was.entries) && op.ConcurrentStartOp? && reply.ConcurrentReply? && IsRun(reply.run)
    requires reply.run.es == was.entries && reply.run.entries == now.entries
    ensures Settled(now.entries) && Safe(op, reply, now)
  {
    EveryRunEnds(reply.run);
  }

  lemma StartSafe(ask: Oracle, op: Op, reply: Reply, was: Snapshot, now: Snapshot)
    requires Settled(was.entries) && op.StartOp? && reply.StartReply?
    requires StartOutcome(ask, was.entries, was.journal, reply.result, now.entries, now.journal)
    ensures Settled(now.entries) && Safe(op, reply, now)
  {
    StartSettles(ask, was.entries, was.journal, reply.result, now.entries, now.journal);
  }

  lemma StopSafe(ask: Oracle, op: Op, reply: Reply, was: Snapshot, now: Snapshot)
    requires Settled(was.entries) && op.StopOp? && reply.StopReply? && StopEffect(ask, reply.error, was, now)
    ensures Settled(now.entries) && Safe(op, reply, now)
  {
  }

  /** Over any history of calls run to completion, no component rests in Starting or Stopping after any
      of them, so no sequential start is refused, and every stop leaves nothing running. */
  lemma {:induction false} HistorySettles(ask: Oracle, concurrency: nat, ops: seq<Op>, replies: seq<Reply>,
                                          snaps: seq<Snapshot>, n: nat)
    requires History(ask, concurrency, ops, replies, snaps) && n <= |ops|
    ensures Settled(snaps[n].entries)
    ensures n < |ops| ==> Safe(ops[n], replies[n], snaps[n + 1])
  {
    if n > 0 {
      HistorySettles(ask, concurrency, ops, replies, snaps, n - 1);
      EffectSettles(ask, concurrency, ops[n - 1], replies[n - 1], snaps[n - 1], snaps[n]);
    }
    if n < |ops| {
      EffectSettles(ask, concurrency, ops[n], replies[n], snaps[n], snaps[n + 1]);
    }
  }

  /** Carry out one call. */
  method Perform(reg: Registry, ask: Oracle, op: Op) returns (reply: Reply)
    modifies reg`entries, reg`journal
    ensures Effect(ask, reg.concurrency, op, reply, Snapshot(old(reg.entries), old(reg.journal)),
                   Snapshot(reg.entries, reg.journal))
  {
    match op
    case RegisterOp(name) =>
      reg.Register(name);
      reply := Registered;
    case StartOp =>
      var r := reg.StartAll(ask);
      reply := StartReply(r);
    case ConcurrentStartOp(next) =>
      var r := StartAllConcurrent(reg, ask, next);
      reply := ConcurrentReply(r);
    case StopOp =>
      var error := reg.StopAll(ask);
      reply := StopReply(error);
  }

  /** Carry out a history of calls, with one reply per call. */
  method RunHistory(reg: Registry, ask: Oracle, ops: seq<Op>) returns (replies: seq<Reply>, ghost snaps: seq<Snapshot>)
    requires reg.entries == [] && reg.journal == []
    modifies reg`entries, reg`journal
    ensures History(ask, reg.concurrency, ops, replies, snaps)
    ensures snaps[|ops|] == Snapshot(reg.entries, reg.journal)
    ensures forall n :: 0 <= n < |ops| ==> Safe(ops[n], replies[n], snaps[n + 1])
  {
    replies, snaps := [], [Snapshot(reg.entries, reg.journal)];
    for k := 0 to |ops|
      invariant History(ask, reg.concurrency, ops[..k], replies, snaps)
      invariant snaps[k] == Snapshot(reg.entries, reg.journal)
    {
      var reply := Perform(reg, ask, ops[k]);
      HistoryOn(ask, reg.concurrency, ops[..k], replies, snaps, ops[k], reply, Snapshot(reg.entries, reg.journal));
      assert ops[..k + 1] == ops[..k] + [ops[k]];
      replies, snaps := replies + [reply], snaps + [Snapshot(reg.entries, reg.journal)];
    }
    assert ops[..|ops|] == ops;
    forall n | 0 <= n < |ops| ensures Safe(ops[n], replies[n], snaps[n + 1]) {
      HistorySettles(ask, reg.concurrency, ops, replies, snaps, n);
    }
  }

  lemma HistoryOn(ask: Oracle, concurrency: nat, ops: seq<Op>, replies: seq<Reply>, snaps: seq<Snapshot>,
                  op: Op, reply: Reply, now: Snapshot)
    requires History(ask, concurrency, ops, replies, snaps)
    requires Effect(ask, concurrency, op, reply, snaps[|ops|], now)
    ensures History(ask, concurrency, ops + [op], replies + [reply], snaps + [now])
  {
    var ops', replies', snaps' := ops + [op], replies + [reply], snaps + [now];
    forall n | 0 <= n < |ops'| ensures Effect(ask, concurrency, ops'[n], replies'[n], snaps'[n], snaps'[n + 1]) {
      if n < |ops| {
        assert Effect(ask, concurrency, ops[n], replies[n], snaps[n], snaps[n + 1]);
      }
    }
  }
}
