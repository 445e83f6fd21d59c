/** The dependency injection container: recursive resolution with a cycle guard and cached
    singletons, and last-in-first-out disposal. */
module Container {
  import opened Common
  import opened Graph

  /** A registration key: a type together with an optional name, as one identifier. */
  type Key = Id

  /** A factory resolves its dependencies in order, giving up at the first failure, and may then fail
      on its own. */
  datatype Factory = Factory(deps: seq<Key>, fails: Option<ErrorCode>)

  /** A singleton registration outlives its key: it may be replaced there and still await closing. */
  datatype Single = Single(factory: Factory, closeable: bool, value: Option<nat>)

  datatype Registration = Eager(instance: nat) | Lazy(factory: Factory) | Singleton(reg: nat)

  type Registrations = map<Key, Registration>

  /** Every singleton belongs to one key at most. */
  ghost predicate Owned(regs: Registrations, singles: seq<Single>) {
    && (forall k :: k in regs && regs[k].Singleton? ==> regs[k].reg < |singles|)
    && (forall j, k :: j in regs && k in regs && regs[j].Singleton? && regs[j] == regs[k] ==> j == k)
  }

  /** The factory that resolving `k` would run, if any. */
  function Runs(regs: Registrations, singles: seq<Single>, k: Key): Option<Factory> {
    if k !in regs then None
    else match regs[k]
      case Eager(_) => None
      case Lazy(f) => Some(f)
      case Singleton(i) => if i < |singles| && singles[i].value.None? then Some(singles[i].factory) else None
  }

  /** What resolving each key would resolve next: nothing for values that are already there. */
  function Demand(regs: Registrations, singles: seq<Single>): Adjacency {
    map k | k in regs :: var f := Runs(regs, singles, k); if f.Some? then f.value.deps else []
  }

  /** Resolving `x` in itself is fine: it is registered, not being resolved already, not part of a
      cycle, and its factory does not fail on its own. */
  ghost predicate Fine(regs: Registrations, singles: seq<Single>, stack: set<Key>, x: Key) {
    && x in regs
    && x !in stack
    && !Descends(Demand(regs, singles), x, x)
    && (Runs(regs, singles, x).Some? ==> Runs(regs, singles, x).value.fails.None?)
  }

  /** Everything that resolving `k` would touch is fine. */
  ghost predicate Resolvable(regs: Registrations, singles: seq<Single>, stack: set<Key>, k: Key) {
    forall x :: Reaches(Demand(regs, singles), k, x) ==> Fine(regs, singles, stack, x)
  }

  // ---------------------------------------------------------------- resolvability, one level at a time

  lemma ResolvableDown(regs: Registrations, singles: seq<Single>, stack: set<Key>, k: Key, d: Key)
    requires Resolvable(regs, singles, stack, k) && d in Succ(Demand(regs, singles), k)
    ensures Resolvable(regs, singles, stack + {k}, d)
  {
    var e := Demand(regs, singles);
    ReachRefl(e, k);
    ReachEdge(e, k, d);
    forall x | Reaches(e, d, x) ensures Fine(regs, singles, stack + {k}, x) {
      ReachTrans(e, k, d, x);
      assert Fine(regs, singles, stack, k);
      assert Descends(e, k, x);
    }
  }

  lemma ResolvableUp(regs: Registrations, singles: seq<Single>, stack: set<Key>, k: Key)
    requires k in regs && k !in stack
    requires Runs(regs, singles, k).Some? ==> Runs(regs, singles, k).value.fails.None?
    requires forall d :: d in Succ(Demand(regs, singles), k) ==> Resolvable(regs, singles, stack + {k}, d)
    ensures Resolvable(regs, singles, stack, k)
  {
    var e := Demand(regs, singles);
    forall x | Reaches(e, k, x) ensures Fine(regs, singles, stack, x) {
      ReachSplit(e, k, x);
      if Descends(e, k, x) {
        var d :| d in Succ(e, k) && Reaches(e, d, x);
        assert Fine(regs, singles, stack + {k}, x);
      }
    }
  }

  lemma ResolvableWeaken(regs: Registrations, singles: seq<Single>, more: set<Key>, stack: set<Key>, k: Key)
    requires Resolvable(regs, singles, more, k) && stack <= more
    ensures Resolvable(regs, singles, stack, k)
  {
    forall x | Reaches(Demand(regs, singles), k, x) ensures Fine(regs, singles, stack, x) {
      assert Fine(regs, singles, more, x);
    }
  }

  // ---------------------------------------------------------------- resolvability while the cache grows

  /** `now` is `before` with more singletons cached. */
  ghost predicate CachesMore(before: seq<Single>, now: seq<Single>) {
    && |before| == |now|
    && forall i :: 0 <= i < |now| ==>
         now[i] == before[i] || (before[i].value.None? && now[i] == before[i].(value := now[i].value))
  }

  /** `k` is a singleton that got its value between `before` and `now`. */
  predicate NewlyCached(regs: Registrations, before: seq<Single>, now: seq<Single>, k: Key) {
    && k in regs && regs[k].Singleton? && regs[k].reg < |before| && regs[k].reg < |now|
    && before[regs[k].reg].value.None? && now[regs[k].reg].value.Some?
  }

  ghost predicate NewOnesResolvable(regs: Registrations, before: seq<Single>, now: seq<Single>, stack: set<Key>) {
    forall k :: NewlyCached(regs, before, now, k) ==> Resolvable(regs, before, stack, k)
  }

  lemma CachedDemand(regs: Registrations, before: seq<Single>, now: seq<Single>, k: Key)
    requires Owned(regs, before) && CachesMore(before, now)
    ensures NewlyCached(regs, before, now, k) ==> Runs(regs, now, k).None? && Succ(Demand(regs, now), k) == []
    ensures !NewlyCached(regs, before, now, k) ==>
              Runs(regs, now, k) == Runs(regs, before, k) && Succ(Demand(regs, now), k) == Succ(Demand(regs, before), k)
  {
  }

  /** A path of the old demand either survives or passes through a newly cached singleton. */
  lemma {:induction false} PathOrCached(regs: Registrations, before: seq<Single>, now: seq<Single>,
                                        a: Key, b: Key, p: seq<Key>)
    requires Owned(regs, before) && CachesMore(before, now) && PathBetween(Demand(regs, before), a, b, p)
    ensures Reaches(Demand(regs, now), a, b) ||
            exists c :: NewlyCached(regs, before, now, c) && Reaches(Demand(regs, before), c, b)
    decreases |p|
  {
    var e, e' := Demand(regs, before), Demand(regs, now);
    CachedDemand(regs, before, now, a);
    if NewlyCached(regs, before, now, a) {
      assert Reaches(e, a, b);
    } else if |p| == 1 {
      ReachRefl(e', a);
    } else {
      assert PathBetween(e, p[1], b, p[1..]);
      PathOrCached(regs, before, now, p[1], b, p[1..]);
      if Reaches(e', p[1], b) {
        ReachEdge(e', a, p[1]);
        ReachTrans(e', a, p[1], b);
      }
    }
  }

  lemma DemandShrinks(regs: Registrations, before: seq<Single>, now: seq<Single>, a: Key, b: Key)
    requires Owned(regs, before) && CachesMore(before, now)
    ensures Reaches(Demand(regs, now), a, b) ==> Reaches(Demand(regs, before), a, b)
    ensures Descends(Demand(regs, now), a, b) ==> Descends(Demand(regs, before), a, b)
  {
    forall x, y | y in Succ(Demand(regs, now), x) ensures y in Succ(Demand(regs, before), x) {
      CachedDemand(regs, before, now, x);
    }
    ReachMonotone(Demand(regs, now), Demand(regs, before), a, b);
  }

  /** A key that is fine after the cache grew was fine before. */
  lemma FineBack(regs: Registrations, before: seq<Single>, now: seq<Single>, stack: set<Key>, x: Key)
    requires Owned(regs, before) && CachesMore(before, now) && NewOnesResolvable(regs, before, now, stack)
    requires Fine(regs, now, stack, x)
    ensures Fine(regs, before, stack, x)
  {
    var e, e' := Demand(regs, before), Demand(regs, now);
    CachedDemand(regs, before, now, x);
    if NewlyCached(regs, before, now, x) {
      ReachRefl(e, x);
    } else if Descends(e, x, x) {
      var y :| y in Succ(e, x) && Reaches(e, y, x);
      var p :| PathBetween(e, y, x, p);
      PathOrCached(regs, before, now, y, x, p);
    }
  }

  /** Caching singletons that were resolvable changes nobody's resolvability. */
  lemma CacheNeutral(regs: Registrations, before: seq<Single>, now: seq<Single>, stack: set<Key>, k: Key)
    requires Owned(regs, before) && CachesMore(before, now) && NewOnesResolvable(regs, before, now, stack)
    ensures Resolvable(regs, before, stack, k) <==> Resolvable(regs, now, stack, k)
  {
    if Resolvable(regs, before, stack, k) {
      forall x | Reaches(Demand(regs, now), k, x) ensures Fine(regs, now, stack, x) {
        DemandShrinks(regs, before, now, k, x);
        DemandShrinks(regs, before, now, x, x);
        CachedDemand(regs, before, now, x);
        assert Fine(regs, before, stack, x);
      }
    } else if Resolvable(regs, now, stack, k) {
      forall x | Reaches(Demand(regs, before), k, x) ensures Fine(regs, before, stack, x) {
        var p :| PathBetween(Demand(regs, before), k, x, p);
        PathOrCached(regs, before, now, k, x, p);
        if Reaches(Demand(regs, now), k, x) {
          FineBack(regs, before, now, stack, x);
        }
      }
    }
  }

  /** With every dependency registered, factories that do not fail on their own, and nothing being
      resolved, resolution succeeds exactly when no cycle is within reach. */
  lemma ResolvableIffNoCycle(regs: Registrations, singles: seq<Single>, k: Key)
    requires k in regs && Inside(Demand(regs, singles), regs.Keys)
    requires forall x :: x in regs && Runs(regs, singles, x).Some? ==> Runs(regs, singles, x).value.fails.None?
    ensures Resolvable(regs, singles, {}, k) <==>
            !exists x :: Reaches(Demand(regs, singles), k, x) && Descends(Demand(regs, singles), x, x)
  {
    var e := Demand(regs, singles);
    forall x | Reaches(e, k, x) ensures x in regs {
      ClosedReach(e, regs.Keys, k, x);
    }
    if Resolvable(regs, singles, {}, k) {
      forall x | Reaches(e, k, x) ensures !Descends(e, x, x) {
        assert Fine(regs, singles, {}, x);
      }
    }
  }

  // ---------------------------------------------------------------- who is to blame

  /** `x` accounts for the error `e`: it is unknown, it is being resolved or lies on a cycle, or its
      own factory fails so. */
  ghost predicate Culprit(regs: Registrations, singles: seq<Single>, stack: set<Key>, x: Key, e: ErrorCode) {
    || (x !in regs && e == NotFound)
    || ((x in stack || Descends(Demand(regs, singles), x, x)) && e == Conflict)
    || (Runs(regs, singles, x).Some? && Runs(regs, singles, x).value.fails == Some(e))
  }

  /** Something that resolving `k` would touch accounts for the error. */
  ghost predicate Blamed(regs: Registrations, singles: seq<Single>, stack: set<Key>, k: Key, e: ErrorCode) {
    exists x :: Reaches(Demand(regs, singles), k, x) && Culprit(regs, singles, stack, x, e)
  }

  lemma BlameSelf(regs: Registrations, singles: seq<Single>, stack: set<Key>, k: Key, e: ErrorCode)
    requires Culprit(regs, singles, stack, k, e)
    ensures Blamed(regs, singles, stack, k, e)
  {
    ReachRefl(Demand(regs, singles), k);
  }

  /** Blame passes from a dependency to the key that needs it. */
  lemma BlameUp(regs: Registrations, singles: seq<Single>, stack: set<Key>, k: Key, d: Key, e: ErrorCode)
    requires d in Succ(Demand(regs, singles), k) && Blamed(regs, singles, stack + {k}, d, e)
    ensures Blamed(regs, singles, stack, k, e)
  {
    var g := Demand(regs, singles);
    var x :| Reaches(g, d, x) && Culprit(regs, singles, stack + {k}, x, e);
    ReachEdge(g, k, d);
    ReachTrans(g, k, d, x);
    assert Culprit(regs, singles, stack, x, e);
  }

  // ---------------------------------------------------------------- resolution without a cache

  /** How resolving `k` fails, if at all, when nothing is cached on the way: depth first through the
      dependencies in order, each time from scratch. */
  function Failure(regs: Registrations, singles: seq<Single>, stack: set<Key>, k: Key): Option<ErrorCode>
    decreases regs.Keys - stack, 0, 0
  {
    if k in stack then Some(Conflict)
    else if k !in regs then Some(NotFound)
    else
      var f := Runs(regs, singles, k);
      if f.None? then None else FactoryFailure(regs, singles, stack + {k}, f.value, 0)
  }

  /** How a factory fails from its dependency `i` on: with the first dependency that fails, or else on
      its own. */
  function FactoryFailure(regs: Registrations, singles: seq<Single>, stack: set<Key>, f: Factory, i: nat)
    : Option<ErrorCode>
    requires i <= |f.deps|
    decreases regs.Keys - stack, 1, |f.deps| - i
  {
    if i == |f.deps| then f.fails
    else
      var error := Failure(regs, singles, stack, f.deps[i]);
      if error.Some? then error else FactoryFailure(regs, singles, stack, f, i + 1)
  }

  /** It does not fail exactly when everything it would touch is fine. */
  lemma {:induction false} FailureIff(regs: Registrations, singles: seq<Single>, stack: set<Key>, k: Key)
    ensures Failure(regs, singles, stack, k).None? <==> Resolvable(regs, singles, stack, k)
    decreases regs.Keys - stack, 0, 0
  {
    ReachRefl(Demand(regs, singles), k);
    if k in stack || k !in regs {
      assert !Fine(regs, singles, stack, k);
    } else {
      var f := Runs(regs, singles, k);
      if f.None? {
        ResolvableUp(regs, singles, stack, k);
      } else {
        FactoryFailureIff(regs, singles, stack + {k}, f.value, 0);
        ResolvableIffDeps(regs, singles, stack, k, f.value);
      }
    }
  }

  lemma {:induction false} FactoryFailureIff(regs: Registrations, singles: seq<Single>, stack: set<Key>,
                                             f: Factory, i: nat)
    requires i <= |f.deps|
    ensures FactoryFailure(regs, singles, stack, f, i).None? <==>
            f.fails.None? && forall j :: i <= j < |f.deps| ==> Resolvable(regs, singles, stack, f.deps[j])
    decreases regs.Keys - stack, 1, |f.deps| - i
  {
    if i < |f.deps| {
      FailureIff(regs, singles, stack, f.deps[i]);
      FactoryFailureIff(regs, singles, stack, f, i + 1);
    }
  }

  lemma ResolvableIffDeps(regs: Registrations, singles: seq<Single>, stack: set<Key>, k: Key, f: Factory)
    requires k in regs && k !in stack && Runs(regs, singles, k) == Some(f)
    ensures Resolvable(regs, singles, stack, k) <==>
            f.fails.None? && forall d :: d in f.deps ==> Resolvable(regs, singles, stack + {k}, d)
  {
    assert Succ(Demand(regs, singles), k) == f.deps;
    if Resolvable(regs, singles, stack, k) {
      ReachRefl(Demand(regs, singles), k);
      assert Fine(regs, singles, stack, k);
      forall d | d in f.deps ensures Resolvable(regs, singles, stack + {k}, d) {
        ResolvableDown(regs, singles, stack, k, d);
      }
    } else if f.fails.None? && forall d :: d in f.deps ==> Resolvable(regs, singles, stack + {k}, d) {
      ResolvableUp(regs, singles, stack, k);
    }
  }

  /** The error is accounted for by something that resolving `k` would touch. */
  lemma {:induction false} FailureBlamed(regs: Registrations, singles: seq<Single>, stack: set<Key>, k: Key)
    ensures var error := Failure(regs, singles, stack, k);
            error.Some? ==> Blamed(regs, singles, stack, k, error.value)
    decreases regs.Keys - stack, 0, 0
  {
    var error := Failure(regs, singles, stack, k);
    if error.Some? {
      if k in stack || k !in regs {
        BlameSelf(regs, singles, stack, k, error.value);
      } else {
        var f := Runs(regs, singles, k).value;
        if f.fails == error {
          BlameSelf(regs, singles, stack, k, error.value);
        } else {
          var i := FailingDep(regs, singles, stack + {k}, f, 0);
          FailureBlamed(regs, singles, stack + {k}, f.deps[i]);
          BlameUp(regs, singles, stack, k, f.deps[i], error.value);
        }
      }
    }
  }

  /** A factory that fails otherwise than on its own fails with its first dependency that fails. */
  lemma {:induction false} FailingDep(regs: Registrations, singles: seq<Single>, stack: set<Key>, f: Factory, i: nat)
    returns (j: nat)
    requires i <= |f.deps| && FactoryFailure(regs, singles, stack, f, i) != f.fails
    ensures i <= j < |f.deps|
    ensures FactoryFailure(regs, singles, stack, f, i) == Failure(regs, singles, stack, f.deps[j])
    ensures Failure(regs, singles, stack, f.deps[j]).Some?
    ensures forall h :: i <= h < j ==> Failure(regs, singles, stack, f.deps[h]).None?
    decreases |f.deps| - i
  {
    j := i;
    if Failure(regs, singles, stack, f.deps[i]).None? {
      j := FailingDep(regs, singles, stack, f, i + 1);
    }
  }

  /** Every newly cached singleton within reach of `k` was resolvable. */
  ghost predicate ReachedFine(regs: Registrations, before: seq<Single>, now: seq<Single>, stack: set<Key>, k: Key) {
    forall c :: NewlyCached(regs, before, now, c) && Reaches(Demand(regs, before), k, c) ==>
      Resolvable(regs, before, stack, c)
  }

  lemma ReachedFineDown(regs: Registrations, before: seq<Single>, now: seq<Single>, stack: set<Key>, k: Key, d: Key)
    requires ReachedFine(regs, before, now, stack, k) && d in Succ(Demand(regs, before), k)
    ensures ReachedFine(regs, before, now, stack + {k}, d)
  {
    var e := Demand(regs, before);
    forall c | NewlyCached(regs, before, now, c) && Reaches(e, d, c) ensures Resolvable(regs, before, stack + {k}, c) {
      ReachEdge(e, k, d);
      ReachTrans(e, k, d, c);
      forall x | Reaches(e, c, x) ensures Fine(regs, before, stack + {k}, x) {
        assert Fine(regs, before, stack, x);
        ReachTrans(e, d, c, x);
        assert x == k ==> Descends(e, k, k);
      }
    }
  }

  /** Caching singletons that were resolvable changes nobody's error. */
  lemma {:induction false} FailureNeutral(regs: Registrations, before: seq<Single>, now: seq<Single>,
                                          stack: set<Key>, k: Key)
    requires Owned(regs, before) && CachesMore(before, now) && ReachedFine(regs, before, now, stack, k)
    ensures Failure(regs, now, stack, k) == Failure(regs, before, stack, k)
    decreases regs.Keys - stack, 0, 0
  {
    if k !in stack && k in regs {
      CachedDemand(regs, before, now, k);
      if NewlyCached(regs, before, now, k) {
        ReachRefl(Demand(regs, before), k);
        FailureIff(regs, before, stack, k);
      } else if Runs(regs, before, k).Some? {
        var f := Runs(regs, before, k).value;
        forall d | d in f.deps ensures ReachedFine(regs, before, now, stack + {k}, d) {
          ReachedFineDown(regs, before, now, stack, k, d);
        }
        FactoryNeutral(regs, before, now, stack + {k}, f, 0);
      }
    }
  }

  lemma {:induction false} FactoryNeutral(regs: Registrations, before: seq<Single>, now: seq<Single>, stack: set<Key>,
                                          f: Factory, i: nat)
    requires Owned(regs, before) && CachesMore(before, now) && i <= |f.deps|
    requires forall d :: d in f.deps ==> ReachedFine(regs, before, now, stack, d)
    ensures FactoryFailure(regs, now, stack, f, i) == FactoryFailure(regs, before, stack, f, i)
    decreases regs.Keys - stack, 1, |f.deps| - i
  {
    if i < |f.deps| {
      FailureNeutral(regs, before, now, stack, f.deps[i]);
      FactoryNeutral(regs, before, now, stack, f, i + 1);
    }
  }

  function CodeOf<T>(r: Result<T>): Option<ErrorCode> {
    if r.Ok? then None else Some(r.error)
  }

  // ---------------------------------------------------------------- disposal

  datatype Slot = EagerSlot(instance: nat) | SingletonSlot(reg: nat)

  /** One close call: the number of the slot, in registration order since the container was created,
      and the instance closed. */
  datatype Closing = Closing(slot: nat, instance: nat)

  type Closer = (seq<Closing>, Closing) -> Option<ErrorCode>

  /** What a slot would close now: an unresolved singleton contributes nothing. */
  function SlotInstance(singles: seq<Single>, slot: Slot): Option<nat> {
    match slot
    case EagerSlot(v) => Some(v)
    case SingletonSlot(i) => if i < |singles| && singles[i].closeable then singles[i].value else None
  }

  /** The close calls for the first `n` slots, the last registered first; `base` slots came before. */
  function Closings(base: nat, slots: seq<Slot>, singles: seq<Single>, n: nat): seq<Closing>
    requires n <= |slots|
  {
    if n == 0 then []
    else
      var v := SlotInstance(singles, slots[n - 1]);
      (if v.Some? then [Closing(base + n - 1, v.value)] else []) + Closings(base, slots, singles, n - 1)
  }

  function FirstFailure(closer: Closer, before: seq<Closing>, cs: seq<Closing>): Option<ErrorCode>
    decreases |cs|
  {
    if cs == [] then None
    else
      var r := closer(before, cs[0]);
      if r.Some? then r else FirstFailure(closer, before + [cs[0]], cs[1..])
  }

  /** It is the code of close call number `k`, the first that fails, and absent exactly when none does. */
  lemma {:induction false} FirstFailureIs(closer: Closer, before: seq<Closing>, cs: seq<Closing>) returns (k: nat)
    ensures k <= |cs| && forall i :: 0 <= i < k ==> closer(before + cs[..i], cs[i]).None?
    ensures FirstFailure(closer, before, cs).None? <==> k == |cs|
    ensures k < |cs| ==> closer(before + cs[..k], cs[k]) == FirstFailure(closer, before, cs)
    decreases |cs|
  {
    k := 0;
    if cs != [] {
      assert before + cs[..0] == before;
      if closer(before, cs[0]).None? {
        var rest := cs[1..];
        var j := FirstFailureIs(closer, before + [cs[0]], rest);
        k := j + 1;
        forall i | 0 < i < |cs| ensures before + [cs[0]] + rest[..i - 1] == before + cs[..i] {
          assert cs[..i] == [cs[0]] + rest[..i - 1];
        }
        forall i | 0 < i < k ensures closer(before + cs[..i], cs[i]).None? {
          assert closer(before + [cs[0]] + rest[..i - 1], rest[i - 1]).None?;
        }
      }
    }
  }

  /** Of the close calls `all`, those in `closed` since `before` are made and `rest` are to come. */
  ghost predicate CloseProgress(closer: Closer, before: seq<Closing>, all: seq<Closing>,
                                closed: seq<Closing>, rest: seq<Closing>, error: Option<ErrorCode>)
  {
    && before + all == closed + rest
    && FirstFailure(closer, before, all) == if error.Some? then error else FirstFailure(closer, closed, rest)
  }

  lemma CloseStep(closer: Closer, before: seq<Closing>, all: seq<Closing>,
                  closed: seq<Closing>, c: Closing, rest: seq<Closing>, error: Option<ErrorCode>)
    requires CloseProgress(closer, before, all, closed, [c] + rest, error)
    ensures CloseProgress(closer, before, all, closed + [c], rest, if error.Some? then error else closer(closed, c))
  {
    assert ([c] + rest)[1..] == rest;
    assert closed + ([c] + rest) == closed + [c] + rest;
  }

  /** One round closes exactly the slots that hold an instance, each with that instance. */
  lemma {:induction false} ClosingsAre(base: nat, slots: seq<Slot>, singles: seq<Single>, n: nat, i: nat, v: nat)
    requires n <= |slots|
    ensures Closing(base + i, v) in Closings(base, slots, singles, n) <==>
            i < n && SlotInstance(singles, slots[i]) == Some(v)
  {
    if n > 0 {
      ClosingsAre(base, slots, singles, n - 1, i, v);
    }
  }

  /** Every slot is closed at most once, and only slots below `bound` have been. */
  ghost predicate ClosedOnce(closed: seq<Closing>, bound: nat) {
    && (forall i :: 0 <= i < |closed| ==> closed[i].slot < bound)
    && (forall i, j :: 0 <= i < j < |closed| ==> closed[i].slot != closed[j].slot)
  }

  /** One round closes its slots in strictly decreasing order. */
  lemma {:induction false} ClosingsFall(base: nat, slots: seq<Slot>, singles: seq<Single>, n: nat, i: nat, j: nat)
    requires n <= |slots| && i <= j < |Closings(base, slots, singles, n)|
    ensures var cs := Closings(base, slots, singles, n);
            base <= cs[j].slot <= cs[i].slot < base + n && (i < j ==> cs[j].slot < cs[i].slot)
  {
    if SlotInstance(singles, slots[n - 1]).None? {
      ClosingsFall(base, slots, singles, n - 1, i, j);
    } else if j > 0 {
      ClosingsFall(base, slots, singles, n - 1, if i > 0 then i - 1 else 0, j - 1);
    }
  }

  lemma ClosedOnceStill(closed: seq<Closing>, base: nat, slots: seq<Slot>, singles: seq<Single>)
    requires ClosedOnce(closed, base)
    ensures ClosedOnce(closed + Closings(base, slots, singles, |slots|), base + |slots|)
  {
    var cs := Closings(base, slots, singles, |slots|);
    forall i, j | 0 <= i <= j < |cs|
      ensures base <= cs[j].slot <= cs[i].slot < base + |slots| && (i < j ==> cs[j].slot < cs[i].slot)
    {
      ClosingsFall(base, slots, singles, |slots|, i, j);
    }
  }

  // ---------------------------------------------------------------- the container

  /** What one resolution, entered with `stack`, leaves behind. */
  ghost predicate Resolved(regs: Registrations, before: seq<Single>, now: seq<Single>, stack: set<Key>,
                           k: Key, r: Result<nat>)
  {
    && CachesMore(before, now)
    && NewOnesResolvable(regs, before, now, stack)
    && (r.Ok? <==> Resolvable(regs, before, stack, k))
  }

  /** What the resolved key itself yields: an eager value or a cached singleton as it is, and a
      singleton that fails stays uncached. */
  ghost predicate Yields(regs: Registrations, before: seq<Single>, now: seq<Single>, k: Key, r: Result<nat>) {
    k in regs ==>
      match regs[k]
      case Eager(v) => r.Ok? ==> r.value == v
      case Lazy(_) => true
      case Singleton(i) => i < |before| && i < |now| ==>
        && (r.Ok? ==> now[i].value == Some(r.value) && (before[i].value.Some? ==> before[i].value == now[i].value))
        && (r.Err? ==> now[i].value == before[i].value)
  }

  lemma ResolvedAfter(regs: Registrations, a: seq<Single>, b: seq<Single>, c: seq<Single>, stack: set<Key>)
    requires Owned(regs, a) && CachesMore(a, b) && NewOnesResolvable(regs, a, b, stack)
    requires CachesMore(b, c) && NewOnesResolvable(regs, b, c, stack)
    ensures CachesMore(a, c) && NewOnesResolvable(regs, a, c, stack)
  {
    forall k | NewlyCached(regs, a, c, k) ensures Resolvable(regs, a, stack, k) {
      CacheNeutral(regs, a, b, stack, k);
      assert NewlyCached(regs, a, b, k) || NewlyCached(regs, b, c, k);
    }
  }

  /** Nothing below a key that is being resolved caches that key. */
  lemma NotCachedBelow(regs: Registrations, before: seq<Single>, now: seq<Single>, stack: set<Key>, k: Key)
    requires NewOnesResolvable(regs, before, now, stack) && k in stack
    ensures !NewlyCached(regs, before, now, k)
  {
    ReachRefl(Demand(regs, before), k);
  }

  class Container {
    var registrations: Registrations
    var singles: seq<Single>
    var stack: set<Key>
    var nextInstance: nat
    var closeables: seq<Slot>
    var drained: nat
    var closed: seq<Closing>

    ghost predicate Valid()
      reads this
    {
      Owned(registrations, singles) && ClosedOnce(closed, drained)
    }

    function Snap(): Snapshot
      reads this
    {
      Snapshot(registrations, singles, nextInstance, closeables, drained, closed)
    }

    constructor ()
      ensures Valid() && stack == {} && Snap() == NEW
    {
      registrations, singles, stack, nextInstance := map[], [], {}, 0;
      closeables, drained, closed := [], 0, [];
    }

    /** Register a pre-built value; a closeable one also records a close slot. */
    method RegisterValue(k: Key, v: nat, closeable: bool)
      requires Valid()
      modifies this`registrations, this`closeables
      ensures Valid() && registrations == old(registrations)[k := Eager(v)]
      ensures closeables == if closeable then old(closeables) + [EagerSlot(v)] else old(closeables)
    {
      registrations := registrations[k := Eager(v)];
      if closeable {
        closeables := closeables + [EagerSlot(v)];
      }
    }

    method RegisterFactory(k: Key, f: Factory)
      requires Valid()
      modifies this`registrations
      ensures Valid() && registrations == old(registrations)[k := Lazy(f)]
    {
      registrations := registrations[k := Lazy(f)];
    }

    /** Register a singleton under a registration of its own; a replaced one keeps its close slot. */
    method RegisterSingleton(k: Key, f: Factory, closeable: bool)
      requires Valid()
      modifies this`registrations, this`singles, this`closeables
      ensures Valid() && singles == old(singles) + [Single(f, closeable, None)]
      ensures registrations == old(registrations)[k := Singleton(|old(singles)|)]
      ensures closeables == if closeable then old(closeables) + [SingletonSlot(|old(singles)|)] else old(closeables)
    {
      registrations := registrations[k := Singleton(|singles|)];
      if closeable {
        closeables := closeables + [SingletonSlot(|singles|)];
      }
      singles := singles + [Single(f, closeable, None)];
    }

    /** Close the slots recorded since the last close, in reverse registration order, carrying on past
        failures. The error is that of the first failure. Unresolved singletons are drained unclosed. */
    method Close(closer: Closer) returns (error: Option<ErrorCode>)
      requires Valid()
      modifies this`closeables, this`drained, this`closed
      ensures Valid() && closeables == [] && drained == old(drained) + |old(closeables)|
      ensures closed == old(closed) + Closings(old(drained), old(closeables), singles, |old(closeables)|)
      ensures error == FirstFailure(closer, old(closed),
                                    Closings(old(drained), old(closeables), singles, |old(closeables)|))
    {
      var slots, base := closeables, drained;
      ghost var before := closed;
      closeables, drained := [], drained + |slots|;
      ClosedOnceStill(closed, base, slots, singles);
      error := None;
      ghost var all := Closings(base, slots, singles, |slots|);
      var n: nat := |slots|;
      while n > 0
        invariant n <= |slots| && closeables == [] && drained == base + |slots|
        invariant CloseProgress(closer, before, all, closed, Closings(base, slots, singles, n), error)
      {
        n := n - 1;
        var v := SlotInstance(singles, slots[n]);
        if v.Some? {
          var c := Closing(base + n, v.value);
          CloseStep(closer, before, all, closed, c, Closings(base, slots, singles, n), error);
          var failure := closer(closed, c);
          closed := closed + [c];
          if error.None? {
            error := failure;
          }
        } else {
          assert Closings(base, slots, singles, n + 1) == Closings(base, slots, singles, n);
        }
      }
      assert closed + [] == closed;
    }

    /** Resolve a key. It terminates because each level takes a registered key off the ones not yet on
        the stack; it restores the stack on every exit; and it succeeds exactly when everything it
        would touch is registered, free of cycles, not already being resolved, and does not fail on
        its own. */
    method Resolve(k: Key) returns (r: Result<nat>)
      requires Valid()
      modifies this`singles, this`stack, this`nextInstance
      ensures Valid() && stack == old(stack) && nextInstance >= old(nextInstance)
      ensures Resolved(registrations, old(singles), singles, stack, k, r)
      ensures Yields(registrations, old(singles), singles, k, r)
      ensures k in registrations && registrations[k].Lazy? && r.Ok? ==> old(nextInstance) <= r.value < nextInstance
      ensures CodeOf(r) == Failure(registrations, old(singles), stack, k)
      ensures r.Err? ==> Blamed(registrations, old(singles), stack, k, r.error)
      ensures k in stack ==> r == Err(Conflict)
      ensures k !in stack && k !in registrations ==> r == Err(NotFound)
      decreases registrations.Keys - stack, 0
    {
      FailureIff(registrations, singles, stack, k);
      FailureBlamed(registrations, singles, stack, k);
      if k in stack { return Err(Conflict); }
      stack := stack + {k};
      if k !in registrations {
        r := Err(NotFound);
      } else {
        match registrations[k]
        case Eager(v) =>
          r := Ok(v);
        case Lazy(f) =>
          r := RunFactory(f);
          Climb(registrations, old(singles), singles, old(stack), k);
        case Singleton(i) =>
          r := ResolveSingleton(k, i);
      }
      stack := stack - {k};
    }

    /** Run a factory with its key on the stack. */
    method RunFactory(f: Factory) returns (r: Result<nat>)
      requires Valid()
      modifies this`singles, this`stack, this`nextInstance
      ensures Valid() && stack == old(stack) && nextInstance >= old(nextInstance)
      ensures CachesMore(old(singles), singles) && NewOnesResolvable(registrations, old(singles), singles, stack)
      ensures CodeOf(r) == FactoryFailure(registrations, old(singles), stack, f, 0)
      ensures r.Ok? <==> f.fails.None? && forall d :: d in f.deps ==> Resolvable(registrations, old(singles), stack, d)
      ensures r.Ok? ==> r.value < nextInstance && r.value >= old(nextInstance)
      decreases registrations.Keys - stack, 1
    {
      ghost var before := singles;
      FactoryFailureIff(registrations, singles, stack, f, 0);
      var i := 0;
      while i < |f.deps|
        invariant i <= |f.deps| && Valid() && stack == old(stack) && nextInstance >= old(nextInstance)
        invariant CachesMore(before, singles) && NewOnesResolvable(registrations, before, singles, stack)
        invariant FactoryFailure(registrations, before, stack, f, i) ==
                  FactoryFailure(registrations, before, stack, f, 0)
      {
        ghost var here := singles;
        FailureNeutral(registrations, before, here, stack, f.deps[i]);
        var dep := Resolve(f.deps[i]);
        ResolvedAfter(registrations, before, here, singles, stack);
        if dep.Err? { return Err(dep.error); }
        i := i + 1;
      }
      if f.fails.Some? { return Err(f.fails.value); }
      nextInstance := nextInstance + 1;
      return Ok(nextInstance - 1);
    }

    /** Return a cached singleton, or build and cache it. */
    method ResolveSingleton(k: Key, i: nat) returns (r: Result<nat>)
      requires Valid() && k in registrations && registrations[k] == Singleton(i) && k in stack
      modifies this`singles, this`stack, this`nextInstance
      ensures Valid() && stack == old(stack) && nextInstance >= old(nextInstance)
      ensures Resolved(registrations, old(singles), singles, stack - {k}, k, r)
      ensures Yields(registrations, old(singles), singles, k, r)
      ensures CodeOf(r) == Failure(registrations, old(singles), stack - {k}, k)
      decreases registrations.Keys - stack, 2
    {
      FailureIff(registrations, singles, stack - {k}, k);
      if singles[i].value.Some? { return Ok(singles[i].value.value); }
      ghost var before := singles;
      var f := singles[i].factory;
      r := RunFactory(f);
      NotCachedBelow(registrations, before, singles, stack, k);
      assert stack - {k} + {k} == stack;
      Climb(registrations, before, singles, stack - {k}, k);
      if r.Ok? {
        ghost var here := singles;
        singles := singles[i := singles[i].(value := Some(r.value))];
        OneMoreCached(registrations, before, here, singles, stack - {k}, k);
      }
    }
  }

  /** What was resolvable below `k` is resolvable beside it. */
  lemma Climb(regs: Registrations, before: seq<Single>, now: seq<Single>, stack: set<Key>, k: Key)
    requires NewOnesResolvable(regs, before, now, stack + {k})
    ensures NewOnesResolvable(regs, before, now, stack)
  {
    forall c | NewlyCached(regs, before, now, c) ensures Resolvable(regs, before, stack, c) {
      ResolvableWeaken(regs, before, stack + {k}, stack, c);
    }
  }

  lemma OneMoreCached(regs: Registrations, before: seq<Single>, here: seq<Single>, now: seq<Single>,
                      stack: set<Key>, k: Key)
    requires Owned(regs, before) && CachesMore(before, here) && NewOnesResolvable(regs, before, here, stack)
    requires k in regs && regs[k].Singleton? && Resolvable(regs, before, stack, k)
    requires |now| == |here| && here[regs[k].reg].value.None? && now[regs[k].reg].value.Some?
    requires now == here[regs[k].reg := here[regs[k].reg].(value := now[regs[k].reg].value)]
    ensures CachesMore(before, now) && NewOnesResolvable(regs, before, now, stack)
  {
    forall c | NewlyCached(regs, before, now, c) ensures Resolvable(regs, before, stack, c) {
      assert c == k || NewlyCached(regs, before, here, c);
    }
  }

  // ---------------------------------------------------------------- histories

  datatype Op =
    | PutValue(key: Key, value: nat, closeable: bool)
    | PutFactory(key: Key, factory: Factory)
    | PutSingleton(key: Key, factory: Factory, closeable: bool)
    | ResolveOp(key: Key)
    | CloseOp

  datatype Reply = Registered | Handed(result: Result<nat>) | CloseReply(error: Option<ErrorCode>)

  /** A container between two calls. */
  datatype Snapshot = Snapshot(
    registrations: Registrations,
    singles: seq<Single>,
    nextInstance: nat,
    slots: seq<Slot>,
    drained: nat,
    closed: seq<Closing>)

  const NEW := Snapshot(map[], [], 0, [], 0, [])

  function WithSlot(slots: seq<Slot>, closeable: bool, slot: Slot): seq<Slot> {
    if closeable then slots + [slot] else slots
  }

  /** One call, from `was` to `now`, answered by `reply`. */
  ghost predicate Effect(closer: Closer, op: Op, reply: Reply, was: Snapshot, now: Snapshot) {
    match op
    case PutValue(k, v, closeable) =>
      && reply == Registered
      && now == was.(registrations := was.registrations[k := Eager(v)],
                     slots := WithSlot(was.slots, closeable, EagerSlot(v)))
    case PutFactory(k, f) =>
      reply == Registered && now == was.(registrations := was.registrations[k := Lazy(f)])
    case PutSingleton(k, f, closeable) =>
      && reply == Registered
      && now == was.(registrations := was.registrations[k := Singleton(|was.singles|)],
                     singles := was.singles + [Single(f, closeable, None)],
                     slots := WithSlot(was.slots, closeable, SingletonSlot(|was.singles|)))
    case ResolveOp(k) => reply.Handed? && ResolveEffect(k, reply.result, was, now)
    case CloseOp =>
      var cs := Closings(was.drained, was.slots, was.singles, |was.slots|);
      && reply == CloseReply(FirstFailure(closer, was.closed, cs))
      && now == was.(slots := [], drained := was.drained + |was.slots|, closed := was.closed + cs)
  }

  ghost predicate ResolveEffect(k: Key, r: Result<nat>, was: Snapshot, now: Snapshot) {
    var regs := was.registrations;
    && now == was.(singles := now.singles, nextInstance := now.nextInstance)
    && was.nextInstance <= now.nextInstance
    && Resolved(regs, was.singles, now.singles, {}, k, r)
    && Yields(regs, was.singles, now.singles, k, r)
    && (k in regs && regs[k].Lazy? && r.Ok? ==> was.nextInstance <= r.value < now.nextInstance)
    && CodeOf(r) == Failure(regs, was.singles, {}, k)
    && (r.Err? ==> Blamed(regs, was.singles, {}, k, r.error))
  }

  /** A history of calls on a new container, with the reply to each and the container in between. */
  ghost predicate History(closer: Closer, ops: seq<Op>, replies: seq<Reply>, snaps: seq<Snapshot>) {
    && |replies| == |ops| && |snaps| == |ops| + 1 && snaps[0] == NEW
    && forall n :: 0 <= n < |ops| ==> Effect(closer, ops[n], replies[n], snaps[n], snaps[n + 1])
  }

  /** The singleton registrations made. */
  function SinglesMade(ops: seq<Op>): nat {
    if ops == [] then 0 else SinglesMade(ops[..|ops| - 1]) + if ops[|ops| - 1].PutSingleton? then 1 else 0
  }

  /** What is registered, by the calls alone. */
  function Registry(ops: seq<Op>): Registrations {
    if ops == [] then map[]
    else
      var front := ops[..|ops| - 1];
      match ops[|ops| - 1]
      case PutValue(k, v, _) => Registry(front)[k := Eager(v)]
      case PutFactory(k, f) => Registry(front)[k := Lazy(f)]
      case PutSingleton(k, _, _) => Registry(front)[k := Singleton(SinglesMade(front))]
      case _ => Registry(front)
  }

  /** What call `n` finds registered under the key it resolves. */
  function Target(ops: seq<Op>, n: nat): Option<Registration>
    requires n < |ops|
  {
    var regs := Registry(ops[..n]);
    if ops[n].ResolveOp? && ops[n].key in regs then Some(regs[ops[n].key]) else None
  }

  /** Resolving and closing change no registration, whatever is resolved and however it fails. */
  lemma {:induction false} RegistryIs(closer: Closer, ops: seq<Op>, replies: seq<Reply>, snaps: seq<Snapshot>, n: nat)
    requires History(closer, ops, replies, snaps) && n <= |ops|
    ensures snaps[n].registrations == Registry(ops[..n]) && |snaps[n].singles| == SinglesMade(ops[..n])
  {
    if n > 0 {
      RegistryIs(closer, ops, replies, snaps, n - 1);
      assert ops[..n][..n - 1] == ops[..n - 1];
      assert Effect(closer, ops[n - 1], replies[n - 1], snaps[n - 1], snaps[n]);
    }
  }

  /** Once a singleton registration has its instance, it keeps it. */
  ghost predicate CacheKept(was: seq<Single>, now: seq<Single>) {
    |was| <= |now| && forall r :: 0 <= r < |was| && was[r].value.Some? ==> now[r].value == was[r].value
  }

  lemma EffectKeeps(closer: Closer, op: Op, reply: Reply, was: Snapshot, now: Snapshot)
    requires Effect(closer, op, reply, was, now)
    ensures CacheKept(was.singles, now.singles) && was.nextInstance <= now.nextInstance
    ensures ClosedOnce(was.closed, was.drained) ==> ClosedOnce(now.closed, now.drained)
  {
    if op.CloseOp? && ClosedOnce(was.closed, was.drained) {
      ClosedOnceStill(was.closed, was.drained, was.slots, was.singles);
    }
  }

  lemma {:induction false} CacheGrows(closer: Closer, ops: seq<Op>, replies: seq<Reply>, snaps: seq<Snapshot>,
                                      m: nat, n: nat)
    requires History(closer, ops, replies, snaps) && m <= n <= |ops|
    ensures CacheKept(snaps[m].singles, snaps[n].singles) && snaps[m].nextInstance <= snaps[n].nextInstance
    decreases n - m
  {
    if m < n {
      CacheGrows(closer, ops, replies, snaps, m, n - 1);
      EffectKeeps(closer, ops[n - 1], replies[n - 1], snaps[n - 1], snaps[n]);
    }
  }

  /** Over any history no close slot is closed twice. */
  lemma {:induction false} SlotsClosedOnce(closer: Closer, ops: seq<Op>, replies: seq<Reply>, snaps: seq<Snapshot>,
                                           n: nat)
    requires History(closer, ops, replies, snaps) && n <= |ops|
    ensures ClosedOnce(snaps[n].closed, snaps[n].drained)
  {
    if n > 0 {
      SlotsClosedOnce(closer, ops, replies, snaps, n - 1);
      EffectKeeps(closer, ops[n - 1], replies[n - 1], snaps[n - 1], snaps[n]);
    }
  }

  /** What has been closed stays so, and nothing that was drained is closed later. */
  ghost predicate ClosesOnlyNew(was: Snapshot, now: Snapshot) {
    && was.drained <= now.drained && |was.closed| <= |now.closed| && now.closed[..|was.closed|] == was.closed
    && forall i :: |was.closed| <= i < |now.closed| ==> now.closed[i].slot >= was.drained
  }

  lemma EffectClosesNew(closer: Closer, op: Op, reply: Reply, was: Snapshot, now: Snapshot)
    requires Effect(closer, op, reply, was, now)
    ensures ClosesOnlyNew(was, now)
  {
    if op.CloseOp? {
      var cs := Closings(was.drained, was.slots, was.singles, |was.slots|);
      forall i | 0 <= i < |cs| ensures cs[i].slot >= was.drained {
        ClosingsFall(was.drained, was.slots, was.singles, |was.slots|, i, i);
      }
    }
  }

  lemma {:induction false} ClosesNewAfter(closer: Closer, ops: seq<Op>, replies: seq<Reply>, snaps: seq<Snapshot>,
                                          m: nat, n: nat)
    requires History(closer, ops, replies, snaps) && m <= n <= |ops|
    ensures ClosesOnlyNew(snaps[m], snaps[n])
    decreases n - m
  {
    if m < n {
      ClosesNewAfter(closer, ops, replies, snaps, m, n - 1);
      EffectClosesNew(closer, ops[n - 1], replies[n - 1], snaps[n - 1], snaps[n]);
      assert snaps[n].closed[..|snaps[m].closed|] == snaps[n - 1].closed[..|snaps[m].closed|];
    }
  }

  /** Exactly when a slot is ever closed: over any history, the close at call `n` settles it for good.
      The slots it drains are closed, then or at any later time `t`, if and only if they hold an
      instance then, and with that instance. A closeable singleton that is first resolved after the
      close is never closed. */
  lemma ClosedForGood(closer: Closer, ops: seq<Op>, replies: seq<Reply>, snaps: seq<Snapshot>,
                      n: nat, t: nat, i: nat, v: nat)
    requires History(closer, ops, replies, snaps) && n < t <= |ops| && ops[n].CloseOp? && i < |snaps[n].slots|
    ensures Closing(snaps[n].drained + i, v) in snaps[t].closed <==>
            SlotInstance(snaps[n].singles, snaps[n].slots[i]) == Some(v)
  {
    var was, now, end, c := snaps[n], snaps[n + 1], snaps[t], Closing(snaps[n].drained + i, v);
    assert Effect(closer, ops[n], replies[n], was, now);
    SlotsClosedOnce(closer, ops, replies, snaps, n);
    ClosesNewAfter(closer, ops, replies, snaps, n + 1, t);
    ClosingsAre(was.drained, was.slots, was.singles, |was.slots|, i, v);
    InClosed(was.closed, Closings(was.drained, was.slots, was.singles, |was.slots|), end.closed[|now.closed|..], c);
    assert end.closed == end.closed[..|now.closed|] + end.closed[|now.closed|..];
  }

  lemma InClosed(a: seq<Closing>, b: seq<Closing>, d: seq<Closing>, c: Closing)
    requires c !in a && c !in d
    ensures c in a + b + d <==> c in b
  {
  }

  // ---------------------------------------------------------------- disposal, call by call

  /** The call records a close slot: it registers something closeable. */
  predicate RecordsSlot(op: Op) {
    (op.PutValue? && op.closeable) || (op.PutSingleton? && op.closeable)
  }

  /** The number of slots that the calls record, which is also the number of the next one. */
  function SlotsMade(ops: seq<Op>): nat {
    if ops == [] then 0 else SlotsMade(ops[..|ops| - 1]) + if RecordsSlot(ops[|ops| - 1]) then 1 else 0
  }

  /** Every slot is either drained or still waiting; a call that registers nothing closeable adds none. */
  lemma {:induction false} SlotsCounted(closer: Closer, ops: seq<Op>, replies: seq<Reply>, snaps: seq<Snapshot>, n: nat)
    requires History(closer, ops, replies, snaps) && n <= |ops|
    ensures snaps[n].drained + |snaps[n].slots| == SlotsMade(ops[..n])
  {
    if n > 0 {
      SlotsCounted(closer, ops, replies, snaps, n - 1);
      assert ops[..n][..n - 1] == ops[..n - 1];
      assert Effect(closer, ops[n - 1], replies[n - 1], snaps[n - 1], snaps[n]);
    }
  }

  /** What the slot of call `i` refers to: the value itself, or its singleton registration. */
  function SlotOf(ops: seq<Op>, i: nat): Slot
    requires i < |ops| && RecordsSlot(ops[i])
  {
    if ops[i].PutValue? then EagerSlot(ops[i].value) else SingletonSlot(SinglesMade(ops[..i]))
  }

  /** Until the next close, the slot that call `i` recorded waits. */
  lemma {:induction false} SlotWaits(closer: Closer, ops: seq<Op>, replies: seq<Reply>, snaps: seq<Snapshot>,
                                     i: nat, n: nat)
    requires History(closer, ops, replies, snaps) && i < n <= |ops| && RecordsSlot(ops[i])
    requires forall j :: i < j < n ==> !ops[j].CloseOp?
    ensures var k := SlotsMade(ops[..i]);
            && snaps[n].drained <= k < snaps[n].drained + |snaps[n].slots|
            && snaps[n].slots[k - snaps[n].drained] == SlotOf(ops, i)
  {
    assert Effect(closer, ops[n - 1], replies[n - 1], snaps[n - 1], snaps[n]);
    if n == i + 1 {
      SlotsCounted(closer, ops, replies, snaps, i);
      RegistryIs(closer, ops, replies, snaps, i);
    } else {
      SlotWaits(closer, ops, replies, snaps, i, n - 1);
    }
  }

  /** Call `n` is the first close after call `i`. */
  ghost predicate NextClose(ops: seq<Op>, i: nat, n: nat) {
    i < n < |ops| && ops[n].CloseOp? && forall j :: i < j < n ==> !ops[j].CloseOp?
  }

  /** Over any history a closeable value is closed by the first close after its registration, and
      closed as itself. */
  lemma ValueIsClosed(closer: Closer, ops: seq<Op>, replies: seq<Reply>, snaps: seq<Snapshot>, i: nat, n: nat, t: nat)
    requires History(closer, ops, replies, snaps) && NextClose(ops, i, n) && n < t <= |ops|
    requires ops[i].PutValue? && ops[i].closeable
    ensures forall v: nat :: Closing(SlotsMade(ops[..i]), v) in snaps[t].closed <==> v == ops[i].value
  {
    SlotWaits(closer, ops, replies, snaps, i, n);
    forall v: nat ensures Closing(SlotsMade(ops[..i]), v) in snaps[t].closed <==> v == ops[i].value {
      ClosedForGood(closer, ops, replies, snaps, n, t, SlotsMade(ops[..i]) - snaps[n].drained, v);
    }
  }

  /** The singleton registered by call `i` keeps its factory and its closeability. */
  lemma {:induction false} SingleKept(closer: Closer, ops: seq<Op>, replies: seq<Reply>, snaps: seq<Snapshot>,
                                      i: nat, n: nat)
    requires History(closer, ops, replies, snaps) && i < n <= |ops| && ops[i].PutSingleton?
    ensures var reg := SinglesMade(ops[..i]);
            reg < |snaps[n].singles| && snaps[n].singles[reg].closeable == ops[i].closeable
  {
    assert Effect(closer, ops[n - 1], replies[n - 1], snaps[n - 1], snaps[n]);
    if n == i + 1 {
      RegistryIs(closer, ops, replies, snaps, i);
    } else {
      SingleKept(closer, ops, replies, snaps, i, n - 1);
    }
  }

  /** Over any history a closeable singleton is closed exactly if it holds an instance when the first
      close after its registration comes, and with that instance. */
  lemma SingletonIsClosed(closer: Closer, ops: seq<Op>, replies: seq<Reply>, snaps: seq<Snapshot>,
                          i: nat, n: nat, t: nat)
    requires History(closer, ops, replies, snaps) && NextClose(ops, i, n) && n < t <= |ops|
    requires ops[i].PutSingleton? && ops[i].closeable
    ensures SinglesMade(ops[..i]) < |snaps[n].singles|
    ensures forall v: nat :: Closing(SlotsMade(ops[..i]), v) in snaps[t].closed <==>
              snaps[n].singles[SinglesMade(ops[..i])].value == Some(v)
  {
    SlotWaits(closer, ops, replies, snaps, i, n);
    SingleKept(closer, ops, replies, snaps, i, n);
    forall v: nat ensures Closing(SlotsMade(ops[..i]), v) in snaps[t].closed <==>
                     snaps[n].singles[SinglesMade(ops[..i])].value == Some(v) {
      ClosedForGood(closer, ops, replies, snaps, n, t, SlotsMade(ops[..i]) - snaps[n].drained, v);
    }
  }

  /** In particular, one that a resolution handed out before that close is closed as what was handed out. */
  lemma HandedOutIsClosed(closer: Closer, ops: seq<Op>, replies: seq<Reply>, snaps: seq<Snapshot>,
                          i: nat, j: nat, n: nat)
    requires History(closer, ops, replies, snaps) && NextClose(ops, i, n) && i < j < n
    requires ops[i].PutSingleton? && ops[i].closeable
    requires Target(ops, j) == Some(Singleton(SinglesMade(ops[..i]))) && Succeeds(replies[j])
    ensures Closing(SlotsMade(ops[..i]), replies[j].result.value) in snaps[n + 1].closed
  {
    HandedOut(closer, ops, replies, snaps, j);
    CacheGrows(closer, ops, replies, snaps, j + 1, n);
    SingletonIsClosed(closer, ops, replies, snaps, i, n, n + 1);
  }

  /** Nothing is closed that no call registered as closeable. */
  lemma ClosedWasRecorded(closer: Closer, ops: seq<Op>, replies: seq<Reply>, snaps: seq<Snapshot>,
                          t: nat, c: Closing)
    requires History(closer, ops, replies, snaps) && t <= |ops| && c in snaps[t].closed
    ensures c.slot < SlotsMade(ops[..t])
  {
    SlotsClosedOnce(closer, ops, replies, snaps, t);
    SlotsCounted(closer, ops, replies, snaps, t);
  }

  /** The failing family is real: a closeable singleton is resolved after a close, and no later close
      ever disposes of it. */
  lemma LeakExample(closer: Closer, k: Key)
    ensures var f := Factory([], None);
            var ops := [PutSingleton(k, f, true), CloseOp, ResolveOp(k), CloseOp];
            var one := Snapshot(map[k := Singleton(0)], [Single(f, true, None)], 0, [SingletonSlot(0)], 0, []);
            var drained := one.(slots := [], drained := 1);
            var resolved := drained.(singles := [Single(f, true, Some(0))], nextInstance := 1);
            History(closer, ops, [Registered, CloseReply(None), Handed(Ok(0)), CloseReply(None)],
                    [NEW, one, drained, resolved, resolved])
  {
    var f := Factory([], None);
    var one := Snapshot(map[k := Singleton(0)], [Single(f, true, None)], 0, [SingletonSlot(0)], 0, []);
    var drained := one.(slots := [], drained := 1);
    var resolved := drained.(singles := [Single(f, true, Some(0))], nextInstance := 1);
    LoneSingleton(k, f, drained, resolved);
    assert Closings(0, one.slots, one.singles, 1) == [] + Closings(0, one.slots, one.singles, 0);
  }

  lemma LoneSingleton(k: Key, f: Factory, was: Snapshot, now: Snapshot)
    requires f == Factory([], None) && was.registrations == map[k := Singleton(0)]
    requires was.singles == [Single(f, true, None)] && now.singles == [Single(f, true, Some(0))]
    requires now == was.(singles := now.singles, nextInstance := was.nextInstance + 1)
    requires was.nextInstance == 0
    ensures ResolveEffect(k, Ok(0), was, now)
  {
    var regs := was.registrations;
    assert Runs(regs, was.singles, k) == Some(f);
    assert FactoryFailure(regs, was.singles, {k}, f, 0) == None;
    assert {} + {k} == {k};
    FailureIff(regs, was.singles, {}, k);
    assert CachesMore(was.singles, now.singles);
    assert forall c :: NewlyCached(regs, was.singles, now.singles, c) ==> c == k;
  }

  predicate Succeeds(reply: Reply) {
    reply.Handed? && reply.result.Ok?
  }

  /** Over any history, two successful resolutions of one singleton registration hand out one instance,
      whatever happened in between; two of a lazy one hand out different instances; and one of a value
      hands out that value. */
  lemma HandsOut(closer: Closer, ops: seq<Op>, replies: seq<Reply>, snaps: seq<Snapshot>, i: nat, j: nat)
    requires History(closer, ops, replies, snaps) && i < j < |ops|
    requires Target(ops, i).Some? && Target(ops, j).Some? && Succeeds(replies[i]) && Succeeds(replies[j])
    ensures Target(ops, i).value.Singleton? && Target(ops, j) == Target(ops, i) ==> replies[i] == replies[j]
    ensures Target(ops, i).value.Lazy? && Target(ops, j).value.Lazy? ==> replies[i] != replies[j]
    ensures Target(ops, i).value.Eager? ==> replies[i].result == Ok(Target(ops, i).value.instance)
  {
    HandedOut(closer, ops, replies, snaps, i);
    HandedOut(closer, ops, replies, snaps, j);
    CacheGrows(closer, ops, replies, snaps, i + 1, j);
    CacheGrows(closer, ops, replies, snaps, j, j + 1);
  }

  lemma HandedOut(closer: Closer, ops: seq<Op>, replies: seq<Reply>, snaps: seq<Snapshot>, n: nat)
    requires History(closer, ops, replies, snaps) && n < |ops| && Target(ops, n).Some? && Succeeds(replies[n])
    ensures match Target(ops, n).value
            case Eager(v) => replies[n].result.value == v
            case Lazy(_) => snaps[n].nextInstance <= replies[n].result.value < snaps[n + 1].nextInstance
            case Singleton(r) =>
              r < |snaps[n + 1].singles| && snaps[n + 1].singles[r].value == Some(replies[n].result.value)
  {
    RegistryIs(closer, ops, replies, snaps, n);
    RegistryIs(closer, ops, replies, snaps, n + 1);
    SinglesInside(ops[..n], ops[n].key);
    assert Effect(closer, ops[n], replies[n], snaps[n], snaps[n + 1]);
  }

  lemma {:induction false} SinglesInside(ops: seq<Op>, k: Key)
    ensures k in Registry(ops) && Registry(ops)[k].Singleton? ==> Registry(ops)[k].reg < SinglesMade(ops)
  {
    if ops != [] {
      SinglesInside(ops[..|ops| - 1], k);
    }
  }

  /** Carry out one call. */
  method Perform(c: Container, closer: Closer, op: Op) returns (reply: Reply)
    requires c.Valid() && c.stack == {}
    modifies c
    ensures c.Valid() && c.stack == {}
    ensures Effect(closer, op, reply, old(c.Snap()), c.Snap())
  {
    match op
    case PutValue(k, v, closeable) =>
      c.RegisterValue(k, v, closeable);
      reply := Registered;
    case PutFactory(k, f) =>
      c.RegisterFactory(k, f);
      reply := Registered;
    case PutSingleton(k, f, closeable) =>
      c.RegisterSingleton(k, f, closeable);
      reply := Registered;
    case ResolveOp(k) =>
      var r := c.Resolve(k);
      reply := Handed(r);
    case CloseOp =>
      var error := c.Close(closer);
      reply := CloseReply(error);
  }

  lemma HistoryOn(closer: Closer, ops: seq<Op>, replies: seq<Reply>, snaps: seq<Snapshot>,
                  op: Op, reply: Reply, now: Snapshot)
    requires History(closer, ops, replies, snaps) && Effect(closer, op, reply, snaps[|ops|], now)
    ensures History(closer, ops + [op], replies + [reply], snaps + [now])
  {
    var ops', replies', snaps' := ops + [op], replies + [reply], snaps + [now];
    forall n | 0 <= n < |ops'| ensures Effect(closer, ops'[n], replies'[n], snaps'[n], snaps'[n + 1]) {
      if n < |ops| {
        assert Effect(closer, ops[n], replies[n], snaps[n], snaps[n + 1]);
      }
    }
  }

  /** Carry out a history of registrations, resolutions and closes on a new container, with one reply
      per call. The resolution stack is empty after every call. */
  method RunHistory(c: Container, closer: Closer, ops: seq<Op>)
    returns (replies: seq<Reply>, ghost snaps: seq<Snapshot>)
    requires c.Valid() && c.stack == {} && c.Snap() == NEW
    modifies c
    ensures c.Valid() && c.stack == {}
    ensures History(closer, ops, replies, snaps) && snaps[|ops|] == c.Snap()
  {
    replies, snaps := [], [c.Snap()];
    for n := 0 to |ops|
      invariant c.Valid() && c.stack == {}
      invariant History(closer, ops[..n], replies, snaps) && snaps[n] == c.Snap()
    {
      var reply := Perform(c, closer, ops[n]);
      HistoryOn(closer, ops[..n], replies, snaps, ops[n], reply, c.Snap());
      assert ops[..n + 1] == ops[..n] + [ops[n]];
      replies, snaps := replies + [reply], snaps + [c.Snap()];
    }
    assert ops[..|ops|] == ops;
  }
}
