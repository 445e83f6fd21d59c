/** Typed sequential chains. A chain is built as closures nested one inside the other, each running
    the ones before it; the model proves that this equals a flat loop over the steps, and says
    exactly which cleanups run, in which order, when a step fails or the chain is cancelled. */
module Chain {
  import opened Common
  import opened World

  datatype Value = Value(text: string)

  /** What happens during an execution, in order. */
  datatype Event = Exec(step: nat) | Cleanup(step: nat)

  type Log = seq<Event>

  /** A step computes from its input; what it does may depend on everything that happened before.
      A cleanup may fail. */
  datatype Step = Step(run: (Value, Log) -> Result<Value>, cleanup: Option<Log -> Option<ErrorCode>>)

  datatype CleanupAction = CleanupAction(step: nat, act: Log -> Option<ErrorCode>)

  datatype ChainState = ChainState(output: Value, cleanups: seq<CleanupAction>)

  datatype RunResult = Advanced(state: ChainState) | Broke(error: ErrorCode)

  /** How a (partial) execution ended and what happened until then. */
  datatype Trace = Trace(result: RunResult, log: Log)

  type Runner = (Value, Log) -> Trace

  type Token = Log -> bool

  // ---------------------------------------------------------------- cleanups

  /** The log after popping and running every cleanup, the last registered first. */
  function AfterCleanups(cs: seq<CleanupAction>, log: Log): Log {
    if cs == [] then log else AfterCleanups(cs[..|cs| - 1], log + [Cleanup(cs[|cs| - 1].step)])
  }

  /** The first error among the cleanups, which is the one that is kept. */
  function CleanupError(cs: seq<CleanupAction>, log: Log): Option<ErrorCode> {
    if cs == [] then None
    else
      var c := cs[|cs| - 1];
      var error, later := c.act(log), CleanupError(cs[..|cs| - 1], log + [Cleanup(c.step)]);
      if error.Some? then error else later
  }

  method RunCleanups(cs: seq<CleanupAction>, log: Log) returns (error: Option<ErrorCode>, log': Log)
    ensures log' == AfterCleanups(cs, log)
    ensures error == CleanupError(cs, log)
  {
    error, log' := None, log;
    var rest := cs;
    while rest != []
      invariant AfterCleanups(cs, log) == AfterCleanups(rest, log')
      invariant CleanupError(cs, log) == if error.Some? then error else CleanupError(rest, log')
    {
      var c := rest[|rest| - 1];
      rest := rest[..|rest| - 1];
      var failure := c.act(log');
      log' := log' + [Cleanup(c.step)];
      if error.None? {
        error := failure;
      }
    }
  }

  // ---------------------------------------------------------------- nested closures

  /** The cleanups registered by step `k`, if it has one. */
  function Registers(step: Step, k: nat): seq<CleanupAction> {
    if step.cleanup.Some? then [CleanupAction(k, step.cleanup.value)] else []
  }

  /** One step, taken from a state that the earlier steps reached. */
  function Advance(token: Token, k: nat, step: Step, s: ChainState, log: Log): Trace {
    if token(log) then Trace(Broke(Cancelled), AfterCleanups(s.cleanups, log))
    else match step.run(s.output, log)
      case Err(e) => Trace(Broke(e), AfterCleanups(s.cleanups, log + [Exec(k)]))
      case Ok(v) => Trace(Advanced(ChainState(v, s.cleanups + Registers(step, k))), log + [Exec(k)])
  }

  function NewRunner(): Runner {
    (input, log) => Trace(Advanced(ChainState(input, [])), log)
  }

  /** Wrap a runner in one more step; an error of the earlier steps passes straight through. */
  function AddStep(previous: Runner, token: Token, k: nat, step: Step): Runner {
    (input, log) =>
      var t := previous(input, log);
      if t.result.Broke? then t else Advance(token, k, step, t.result.state, t.log)
  }

  function Build(token: Token, steps: seq<Step>): Runner {
    if steps == [] then NewRunner()
    else AddStep(Build(token, steps[..|steps| - 1]), token, |steps| - 1, steps[|steps| - 1])
  }

  // ---------------------------------------------------------------- flat interpreter

  /** Run steps `k`, `k` + 1, ... from a state, stopping at the first that breaks. */
  function Flat(token: Token, steps: seq<Step>, k: nat, s: ChainState, log: Log): Trace
    requires k <= |steps|
    decreases |steps| - k
  {
    if k == |steps| then Trace(Advanced(s), log)
    else
      var t := Advance(token, k, steps[k], s, log);
      if t.result.Broke? then t else Flat(token, steps, k + 1, t.result.state, t.log)
  }

  lemma {:induction false} FlatSnoc(token: Token, steps: seq<Step>, k: nat, s: ChainState, log: Log)
    requires k < |steps|
    ensures var front := steps[..|steps| - 1];
            var t := Flat(token, front, k, s, log);
            Flat(token, steps, k, s, log) ==
            if t.result.Broke? then t else Advance(token, |front|, steps[|front|], t.result.state, t.log)
    decreases |steps| - k
  {
    var t := Advance(token, k, steps[k], s, log);
    if k < |steps| - 1 && t.result.Advanced? {
      FlatSnoc(token, steps, k + 1, t.result.state, t.log);
    }
  }

  /** Refinement: the nested closures do exactly what the flat interpreter does. */
  lemma {:induction false} NestedIsFlat(token: Token, steps: seq<Step>, input: Value, log: Log)
    ensures Build(token, steps)(input, log) == Flat(token, steps, 0, ChainState(input, []), log)
  {
    if steps != [] {
      NestedIsFlat(token, steps[..|steps| - 1], input, log);
      FlatSnoc(token, steps, 0, ChainState(input, []), log);
    }
  }

  // ---------------------------------------------------------------- which cleanups run

  function Execs(n: nat): Log {
    seq(n, i requires 0 <= i < n => Exec(i))
  }

  function CleanupsOf(idxs: seq<nat>): Log {
    seq(|idxs|, i requires 0 <= i < |idxs| => Cleanup(idxs[i]))
  }

  /** The steps before `k` that registered a cleanup. */
  function WithCleanup(steps: seq<Step>, k: nat): set<nat> {
    set j | 0 <= j < |steps| && j < k && steps[j].cleanup.Some?
  }

  /** The value that reaches step `k`, or the error that stopped an earlier one. */
  function ValueAt(steps: seq<Step>, input: Value, log: Log, k: nat): Result<Value>
    requires k <= |steps|
  {
    if k == 0 then Ok(input)
    else match ValueAt(steps, input, log, k - 1)
      case Ok(v) => steps[k - 1].run(v, log + Execs(k - 1))
      case Err(e) => Err(e)
  }

  /** Steps 0 to `k` - 1 ran and succeeded, uncancelled. */
  ghost predicate Passed(token: Token, steps: seq<Step>, input: Value, log: Log, k: nat)
    requires k <= |steps|
  {
    ValueAt(steps, input, log, k).Ok? && forall j :: 0 <= j < k ==> !token(log + Execs(j))
  }

  /** The execution stopped at step `k`: not at all, by cancellation before it, or by its failure. */
  ghost predicate StoppedAt(token: Token, steps: seq<Step>, input: Value, log: Log, k: nat, t: Trace)
    requires k <= |steps| && Passed(token, steps, input, log, k)
  {
    if k == |steps| then
      && t.result.Advanced? && Ok(t.result.state.output) == ValueAt(steps, input, log, k)
      && t.log == log + Execs(k)
    else
      var cleanups := CleanupsOf(Descending(WithCleanup(steps, k), k));
      if token(log + Execs(k)) then
        t.result == Broke(Cancelled) && t.log == log + Execs(k) + cleanups
      else
        var r := ValueAt(steps, input, log, k + 1);
        r.Err? && t.result == Broke(r.error) && t.log == log + Execs(k + 1) + cleanups
  }

  /** The cleanup stack when step `k` is reached. */
  function StackAt(steps: seq<Step>, k: nat): seq<CleanupAction>
    requires k <= |steps|
  {
    if k == 0 then [] else StackAt(steps, k - 1) + Registers(steps[k - 1], k - 1)
  }

  /** The steps on a cleanup stack, from the top. */
  function StepsFromTop(cs: seq<CleanupAction>): seq<nat> {
    seq(|cs|, i requires 0 <= i < |cs| => cs[|cs| - 1 - i].step)
  }

  lemma CleanupsCons(k: nat, d: seq<nat>, log: Log)
    ensures log + CleanupsOf([k] + d) == log + [Cleanup(k)] + CleanupsOf(d)
  {
    assert CleanupsOf([k] + d) == [Cleanup(k)] + CleanupsOf(d);
  }

  lemma {:induction false} AfterCleanupsIs(cs: seq<CleanupAction>, log: Log)
    ensures AfterCleanups(cs, log) == log + CleanupsOf(StepsFromTop(cs))
  {
    if cs != [] {
      var rest, k := cs[..|cs| - 1], cs[|cs| - 1].step;
      AfterCleanupsIs(rest, log + [Cleanup(k)]);
      CleanupsCons(k, StepsFromTop(rest), log);
      assert StepsFromTop(cs) == [k] + StepsFromTop(rest);
    }
  }

  /** How cleanup number `j` from the top ends, the ones above it having run. */
  function PoppedError(cs: seq<CleanupAction>, log: Log, j: nat): Option<ErrorCode>
    requires j < |cs|
  {
    cs[|cs| - 1 - j].act(log + CleanupsOf(StepsFromTop(cs)[..j]))
  }

  lemma PoppedBelow(cs: seq<CleanupAction>, log: Log, j: nat)
    requires 0 < j < |cs|
    ensures PoppedError(cs, log, j) ==
            PoppedError(cs[..|cs| - 1], log + [Cleanup(cs[|cs| - 1].step)], j - 1)
  {
    var rest, k := cs[..|cs| - 1], cs[|cs| - 1].step;
    assert StepsFromTop(cs)[..j] == [k] + StepsFromTop(rest)[..j - 1];
    CleanupsCons(k, StepsFromTop(rest)[..j - 1], log);
  }

  /** The error kept is that of the first cleanup that fails, from the top, and there is none exactly
      when no cleanup fails. */
  lemma {:induction false} CleanupErrorIs(cs: seq<CleanupAction>, log: Log) returns (k: nat)
    ensures k <= |cs| && forall j :: 0 <= j < k ==> PoppedError(cs, log, j).None?
    ensures CleanupError(cs, log).None? <==> k == |cs|
    ensures k < |cs| ==> PoppedError(cs, log, k) == CleanupError(cs, log)
  {
    k := 0;
    if cs != [] {
      assert log + CleanupsOf(StepsFromTop(cs)[..0]) == log;
      var rest, c := cs[..|cs| - 1], cs[|cs| - 1];
      if c.act(log).None? {
        var below := CleanupErrorIs(rest, log + [Cleanup(c.step)]);
        k := below + 1;
        forall j | 0 < j < |cs|
          ensures PoppedError(cs, log, j) == PoppedError(rest, log + [Cleanup(c.step)], j - 1)
        {
          PoppedBelow(cs, log, j);
        }
      }
    }
  }

  lemma DescendingStep(steps: seq<Step>, k: nat)
    requires k < |steps|
    ensures var before := Descending(WithCleanup(steps, k), k);
            Descending(WithCleanup(steps, k + 1), k + 1) == if steps[k].cleanup.Some? then [k] + before else before
  {
    DescendingSame(WithCleanup(steps, k + 1), WithCleanup(steps, k), k);
  }

  lemma PushedFromTop(below: seq<CleanupAction>, step: Step, k: nat)
    ensures StepsFromTop(below + Registers(step, k)) ==
            if step.cleanup.Some? then [k] + StepsFromTop(below) else StepsFromTop(below)
  {
    if step.cleanup.None? {
      assert below + Registers(step, k) == below;
    }
  }

  lemma PushedInOrder(steps: seq<Step>, below: seq<CleanupAction>, k: nat)
    requires k < |steps| && StepsFromTop(below) == Descending(WithCleanup(steps, k), k)
    ensures StepsFromTop(below + Registers(steps[k], k)) == Descending(WithCleanup(steps, k + 1), k + 1)
  {
    DescendingStep(steps, k);
    PushedFromTop(below, steps[k], k);
  }

  lemma {:induction false} StackFromTop(steps: seq<Step>, k: nat)
    requires k <= |steps|
    ensures StepsFromTop(StackAt(steps, k)) == Descending(WithCleanup(steps, k), k)
  {
    if k > 0 {
      StackFromTop(steps, k - 1);
      PushedInOrder(steps, StackAt(steps, k - 1), k - 1);
    }
  }

  lemma {:induction false} FlatStops(token: Token, steps: seq<Step>, input: Value, log: Log, k: nat) returns (stop: nat)
    requires k <= |steps| && Passed(token, steps, input, log, k)
    ensures k <= stop <= |steps| && Passed(token, steps, input, log, stop)
    ensures StoppedAt(token, steps, input, log, stop,
                      Flat(token, steps, k, ChainState(ValueAt(steps, input, log, k).value, StackAt(steps, k)),
                           log + Execs(k)))
    decreases |steps| - k
  {
    stop := k;
    if k < |steps| {
      var here := log + Execs(k);
      assert log + Execs(k + 1) == here + [Exec(k)];
      StackFromTop(steps, k);
      AfterCleanupsIs(StackAt(steps, k), here);
      AfterCleanupsIs(StackAt(steps, k), here + [Exec(k)]);
      if !token(here) && ValueAt(steps, input, log, k + 1).Ok? {
        stop := FlatStops(token, steps, input, log, k + 1);
      }
    }
  }

  /** For every list of steps, failure point and cancellation schedule: on success every step ran once
      in order and no cleanup ran; when step `k` fails or the chain is cancelled before it, exactly
      the cleanups registered by the steps before `k` ran, once each and in reverse order, and the
      error is the step's own or Cancelled, whatever the cleanups did. */
  lemma ChainOutcome(token: Token, steps: seq<Step>, input: Value, log: Log) returns (k: nat)
    ensures k <= |steps| && Passed(token, steps, input, log, k)
    ensures StoppedAt(token, steps, input, log, k, Build(token, steps)(input, log))
  {
    assert log + Execs(0) == log;
    NestedIsFlat(token, steps, input, log);
    k := FlatStops(token, steps, input, log, 0);
  }

  /** What `execute` returns. */
  function Execute(token: Token, steps: seq<Step>, input: Value, log: Log): Result<Value> {
    match Build(token, steps)(input, log).result
    case Advanced(s) => Ok(s.output)
    case Broke(e) => Err(e)
  }

  /** What `execute` returns, spelt out with the step `k` at which the chain stops: the last value if it
      is none, Cancelled if the token had fired before it, and otherwise the error of that very step. */
  lemma ExecuteIs(token: Token, steps: seq<Step>, input: Value, log: Log) returns (k: nat)
    ensures k <= |steps| && Passed(token, steps, input, log, k)
    ensures Execute(token, steps, input, log) ==
            if k == |steps| then ValueAt(steps, input, log, k)
            else if token(log + Execs(k)) then Err(Cancelled)
            else ValueAt(steps, input, log, k + 1)
    ensures k < |steps| ==> token(log + Execs(k)) || ValueAt(steps, input, log, k + 1).Err?
  {
    k := ChainOutcome(token, steps, input, log);
  }

  /** A chain succeeds exactly when every step does and the token stays quiet before each. */
  lemma ExecuteSucceedsIff(token: Token, steps: seq<Step>, input: Value, log: Log)
    ensures Execute(token, steps, input, log).Ok? <==> Passed(token, steps, input, log, |steps|)
    ensures Execute(token, steps, input, log).Ok? ==>
              Execute(token, steps, input, log) == ValueAt(steps, input, log, |steps|)
  {
    var k := ChainOutcome(token, steps, input, log);
    if Passed(token, steps, input, log, |steps|) && k < |steps| {
      ValueAtMonotone(steps, input, log, k + 1, |steps|);
    }
  }

  lemma {:induction false} ValueAtMonotone(steps: seq<Step>, input: Value, log: Log, j: nat, k: nat)
    requires j <= k <= |steps| && ValueAt(steps, input, log, k).Ok?
    ensures ValueAt(steps, input, log, j).Ok?
    decreases k - j
  {
    if j < k {
      ValueAtMonotone(steps, input, log, j, k - 1);
    }
  }
}
