/** Load balancing strategies: round robin over an atomic machine counter, weighted random choice over
    slots, and least connections. */
module Balancer {
  import opened Common

  /** The number of values of the machine counter. */
  const WORD: nat := 0x1_0000_0000_0000_0000

  type Word = n: nat | n < WORD

  // ---------------------------------------------------------------- round robin

  class RoundRobin {
    var counter: Word

    constructor ()
      ensures counter == 0
    {
      counter := 0;
    }

    /** Pick an index into `n` instances; the counter wraps around. */
    method Pick(n: nat) returns (r: Option<nat>)
      modifies this`counter
      ensures n == 0 ==> r == None && counter == old(counter)
      ensures n > 0 ==> r == Some(old(counter) % n) && r.value < n && counter == (old(counter) + 1) % WORD
    {
      if n == 0 { return None; }
      r := Some(counter % n);
      counter := (counter + 1) % WORD;
    }

    /** A full round of `n` picks, and where they went. */
    method Round(n: nat) returns (picks: seq<nat>)
      requires n > 0
      modifies this`counter
      ensures picks == Turns(old(counter), n)
      ensures counter == At(old(counter), n)
    {
      picks := [];
      ghost var c := counter;
      for j := 0 to n
        invariant counter == At(c, j) && |picks| == j
        invariant forall i :: 0 <= i < j ==> picks[i] == Turn(c, i, n)
      {
        AtNext(c, j);
        var r := Pick(n);
        picks := picks + [r.value];
      }
    }
  }

  /** The counter after `j` increments from `c`. */
  function At(c: nat, j: nat): (r: nat)
    ensures r < WORD
  {
    (c + j) % WORD
  }

  lemma AtNext(c: nat, j: nat)
    ensures At(c, j + 1) == (At(c, j) + 1) % WORD
  {
  }

  /** Where pick number `j` goes when the counter starts at `c`. */
  function Turn(c: nat, j: nat, n: nat): nat
    requires n > 0
  {
    At(c, j) % n
  }

  /** Where the picks of a round over `n` instances go. */
  function Turns(c: nat, n: nat): (s: seq<nat>)
    requires n > 0
    ensures |s| == n && forall j :: 0 <= j < n ==> s[j] == Turn(c, j, n) < n
  {
    seq(n, j requires 0 <= j < n => Turn(c, j, n))
  }

  ghost predicate OccursOnce(s: seq<nat>, i: nat) {
    exists j :: 0 <= j < |s| && s[j] == i && forall k :: 0 <= k < |s| && s[k] == i ==> k == j
  }

  /** A round of `n` picks gives every instance exactly one turn. */
  ghost predicate FairRound(c: nat, n: nat)
    requires n > 0
  {
    forall i: nat :: i < n ==> OccursOnce(Turns(c, n), i)
  }

  /** Pigeonhole: `n` distinct numbers below `n` are all the numbers below `n`. */
  lemma Pigeonhole(s: seq<nat>, i: nat)
    requires forall j :: 0 <= j < |s| ==> s[j] < |s|
    requires Distinct(s) && i < |s|
    ensures OccursOnce(s, i)
  {
    DistinctCard(s);
    RangeIs(0, |s|);
    SubsetCard(Elems(s), Range(0, |s|));
    assert i in Elems(s);
    var j :| 0 <= j < |s| && s[j] == i;
  }

  lemma CollisionUnfair(c: nat, n: nat, j: nat, k: nat)
    requires j < k < n && Turn(c, j, n) == Turn(c, k, n)
    ensures !FairRound(c, n)
  {
    var s := Turns(c, n);
    assert !OccursOnce(s, s[j]);
  }

  lemma ModIs(n: nat, q: int, r: nat)
    requires 0 < n && r < n
    ensures (n * q + r) % n == r
  {
    var x := n * q + r;
    var d := x / n - q;
    assert n * d == r - x % n;
    assert d == 0;
  }

  /** Numbers less than `n` apart have different remainders. */
  lemma ModDistinct(a: nat, b: nat, n: nat)
    requires 0 < n && a < b < a + n
    ensures a % n != b % n
  {
    var q, r := a / n, a % n;
    assert a == n * q + r;
    if r + (b - a) < n {
      assert b == n * q + (r + (b - a));
      ModIs(n, q, r + (b - a));
    } else {
      assert b == n * (q + 1) + (r + (b - a) - n);
      ModIs(n, q + 1, r + (b - a) - n);
    }
  }

  /** Within the word, or when `n` divides the word size, wrapping does not disturb remainders. */
  lemma WrapHarmless(c: nat, j: nat, n: nat)
    requires 0 < n && (c + j < WORD || (WORD % n == 0 && c + j < 2 * WORD))
    ensures Turn(c, j, n) == (c + j) % n
  {
    if c + j < WORD {
      TurnBefore(c, j, n);
    } else {
      var y, q := c + j - WORD, WORD / n;
      ModIs(WORD, 1, y);
      assert WORD == n * q;
      assert c + j == n * (q + y / n) + y % n;
      ModIs(n, q + y / n, y % n);
    }
  }

  lemma TurnsDiffer(c: nat, n: nat, j: nat, k: nat)
    requires c < WORD && 0 < n <= WORD && j < k < n && (c + n <= WORD || WORD % n == 0)
    ensures Turn(c, j, n) != Turn(c, k, n)
  {
    WrapHarmless(c, j, n);
    WrapHarmless(c, k, n);
    ModDistinct(c + j, c + k, n);
  }

  /** Exactly when a round of `n` picks is fair: the counter does not wrap during it, or `n` divides
      the word size. */
  lemma FairRoundIff(c: nat, n: nat)
    requires c < WORD && 0 < n <= WORD
    ensures FairRound(c, n) <==> c + n <= WORD || WORD % n == 0
  {
    if c + n <= WORD || WORD % n == 0 {
      forall j, k | 0 <= j < k < n ensures Turn(c, j, n) != Turn(c, k, n) {
        TurnsDiffer(c, n, j, k);
      }
      forall i: nat | i < n ensures OccursOnce(Turns(c, n), i) {
        Pigeonhole(Turns(c, n), i);
      }
    } else {
      UnfairAcrossWrap(c, n);
    }
  }

  /** Across the wrap, the last turns before it and the first after it collide. */
  lemma UnfairAcrossWrap(c: nat, n: nat)
    requires c < WORD && 0 < n <= WORD && c + n > WORD && WORD % n != 0
    ensures !FairRound(c, n)
  {
    var a, m, q := WORD - c, WORD % n, WORD / n;
    assert WORD == n * q + m;
    if m <= a {
      ModIs(n, q, 0);
      TurnBefore(c, a - m, n);
      TurnAfter(c, a, n);
      CollisionUnfair(c, n, a - m, a);
    } else {
      ModIs(n, q, m - a);
      TurnBefore(c, 0, n);
      TurnAfter(c, m, n);
      CollisionUnfair(c, n, 0, m);
    }
  }

  /** Three instances and a counter about to wrap: the first and second pick go to the same one. */
  lemma UnfairExample()
    ensures !FairRound(WORD - 1, 3) && Turn(WORD - 1, 0, 3) == Turn(WORD - 1, 1, 3) == 0
  {
    TurnBefore(WORD - 1, 0, 3);
    TurnAfter(WORD - 1, 1, 3);
    CollisionUnfair(WORD - 1, 3, 0, 1);
  }

  lemma TurnBefore(c: nat, j: nat, n: nat)
    requires c + j < WORD && n > 0
    ensures Turn(c, j, n) == (c + j) % n
  {
    ModIs(WORD, 0, c + j);
  }

  lemma TurnAfter(c: nat, j: nat, n: nat)
    requires WORD <= c + j < WORD + n && n <= WORD && n > 0
    ensures Turn(c, j, n) == c + j - WORD
  {
    ModIs(WORD, 1, c + j - WORD);
    ModIs(n, 0, c + j - WORD);
  }

  // ---------------------------------------------------------------- weighted

  function Weight(w: nat): nat {
    if w > 1 then w else 1
  }

  function Total(ws: seq<nat>): nat {
    if ws == [] then 0 else Weight(ws[0]) + Total(ws[1..])
  }

  /** Where a slot lands. */
  function Lands(ws: seq<nat>, slot: nat): nat
    requires slot < Total(ws)
  {
    if slot < Weight(ws[0]) then 0 else 1 + Lands(ws[1..], slot - Weight(ws[0]))
  }

  /** Walk down the weights; the fallback to the last instance is never taken. */
  method PickWeighted(ws: seq<nat>, random: nat) returns (r: Option<nat>)
    requires ws != [] ==> random < Total(ws)
    ensures ws == [] <==> r.None?
    ensures ws != [] ==> r == Some(Lands(ws, random))
  {
    if ws == [] { return None; }
    var slot: nat, i: nat := random, 0;
    while i < |ws|
      invariant i <= |ws| && slot < Total(ws[i..])
      invariant i + Lands(ws[i..], slot) == Lands(ws, random)
    {
      assert ws[i..][1..] == ws[i + 1..];
      if slot < Weight(ws[i]) { return Some(i); }
      slot := slot - Weight(ws[i]);
      i := i + 1;
    }
    assert false;
  }

  function Slots(ws: seq<nat>, i: nat): set<nat> {
    set s | 0 <= s < Total(ws) && Lands(ws, s) == i
  }

  function Range(lo: nat, n: nat): set<nat> {
    if n == 0 then {} else Range(lo, n - 1) + {lo + n - 1}
  }

  lemma {:induction false} RangeIs(lo: nat, n: nat)
    ensures |Range(lo, n)| == n && forall s :: s in Range(lo, n) <==> lo <= s < lo + n
  {
    if n > 0 {
      RangeIs(lo, n - 1);
    }
  }

  lemma {:induction false} SlotsRange(ws: seq<nat>, i: nat, s: nat)
    requires i < |ws|
    ensures Total(ws[..i]) + Weight(ws[i]) <= Total(ws)
    ensures s in Slots(ws, i) <==> Total(ws[..i]) <= s < Total(ws[..i]) + Weight(ws[i])
  {
    if i == 0 {
      assert ws[..0] == [];
    } else {
      var rest, w := ws[1..], Weight(ws[0]);
      assert ws[..i][1..] == rest[..i - 1] && rest[i - 1] == ws[i];
      if s >= w {
        SlotsRange(rest, i - 1, s - w);
      } else {
        SlotsRange(rest, i - 1, 0);
      }
    }
  }

  /** Of all the slots, exactly as many land on an instance as it has weight, counting zero as one. */
  lemma WeightedShare(ws: seq<nat>, i: nat)
    requires i < |ws|
    ensures |Slots(ws, i)| == if ws[i] > 0 then ws[i] else 1
  {
    var lo := Total(ws[..i]);
    forall s: nat ensures s in Slots(ws, i) <==> lo <= s < lo + Weight(ws[i]) {
      SlotsRange(ws, i, s);
    }
    RangeIs(lo, Weight(ws[i]));
    assert Slots(ws, i) == Range(lo, Weight(ws[i]));
  }

  // ---------------------------------------------------------------- least connections

  type Loads = map<string, nat>

  function Load(loads: Loads, id: string): nat {
    if id in loads then loads[id] else 0
  }

  /** No two of `ids` differ by more than one request. */
  ghost predicate Balanced(loads: Loads, ids: seq<string>) {
    forall i, j :: 0 <= i < |ids| && 0 <= j < |ids| ==> Load(loads, ids[i]) <= Load(loads, ids[j]) + 1
  }

  function TotalLoad(loads: Loads, ids: seq<string>): nat {
    if ids == [] then 0 else Load(loads, ids[0]) + TotalLoad(loads, ids[1..])
  }

  function Acquired(loads: Loads, id: string): Loads {
    loads[id := (Load(loads, id) + 1) % WORD]
  }

  function Released(loads: Loads, id: string): Loads {
    if id in loads then loads[id := (loads[id] + WORD - 1) % WORD] else loads
  }

  class LeastConnections {
    var inFlight: Loads

    constructor ()
      ensures inFlight == map[]
    {
      inFlight := map[];
    }

    method Acquire(id: string)
      modifies this`inFlight
      ensures inFlight == Acquired(old(inFlight), id)
    {
      if id !in inFlight {
        inFlight := inFlight[id := 0];
      }
      inFlight := inFlight[id := (inFlight[id] + 1) % WORD];
    }

    /** Releasing an id that holds nothing wraps the counter, releasing an unknown one does nothing. */
    method Release(id: string)
      modifies this`inFlight
      ensures inFlight == Released(old(inFlight), id)
    {
      if id in inFlight {
        inFlight := inFlight[id := (inFlight[id] + WORD - 1) % WORD];
      }
    }

    /** Serve a history of acquires and releases. */
    method Serve(ops: seq<Request>)
      requires inFlight == map[]
      modifies this`inFlight
      ensures inFlight == LoadsAfter(ops)
      ensures forall id :: Load(inFlight, id) == SinceFirst(ops, id) % WORD
    {
      for n := 0 to |ops|
        invariant inFlight == LoadsAfter(ops[..n])
      {
        assert ops[..n + 1][..n] == ops[..n];
        match ops[n]
        case AcquireOp(id) => Acquire(id);
        case ReleaseOp(id) => Release(id);
      }
      assert ops[..|ops|] == ops;
      forall id ensures Load(inFlight, id) == SinceFirst(ops, id) % WORD {
        LoadIs(ops, id);
      }
    }

    /** The first of the least loaded. */
    method Pick(ids: seq<string>) returns (r: Option<nat>)
      ensures ids == [] <==> r.None?
      ensures r.Some? ==>
                && r.value < |ids|
                && (forall j :: 0 <= j < |ids| ==> Load(inFlight, ids[r.value]) <= Load(inFlight, ids[j]))
                && (forall j :: 0 <= j < r.value ==> Load(inFlight, ids[r.value]) < Load(inFlight, ids[j]))
    {
      if ids == [] { return None; }
      var best := 0;
      for i := 1 to |ids|
        invariant best < i
        invariant forall j :: 0 <= j < i ==> Load(inFlight, ids[best]) <= Load(inFlight, ids[j])
        invariant forall j :: 0 <= j < best ==> Load(inFlight, ids[best]) < Load(inFlight, ids[j])
      {
        if Load(inFlight, ids[i]) < Load(inFlight, ids[best]) {
          best := i;
        }
      }
      return Some(best);
    }

    /** Route one more request, the `n`th being the last so far. */
    method Route(ids: seq<string>, ghost n: nat)
      requires n + 1 < WORD && ids != [] && Balanced(inFlight, ids) && TotalLoad(inFlight, ids) == n
      requires Distinct(ids)
      modifies this`inFlight
      ensures Balanced(inFlight, ids) && TotalLoad(inFlight, ids) == n + 1
    {
      var r := Pick(ids);
      LoadBounded(inFlight, ids, r.value);
      StaysBalanced(inFlight, ids, r.value);
      OneMoreTotal(inFlight, ids, r.value);
      ModIs(WORD, 0, Load(inFlight, ids[r.value]) + 1);
      Acquire(ids[r.value]);
    }

    /** Picking and acquiring `rounds` times from idle keeps the loads within one of each other and
        loses no request. */
    method Drive(ids: seq<string>, rounds: nat)
      requires rounds < WORD && inFlight == map[]
      requires Distinct(ids)
      modifies this`inFlight
      ensures Balanced(inFlight, ids)
      ensures ids != [] ==> TotalLoad(inFlight, ids) == rounds
    {
      IdleTotal(ids);
      if ids != [] {
        for n := 0 to rounds
          invariant Balanced(inFlight, ids) && TotalLoad(inFlight, ids) == n
        {
          Route(ids, n);
        }
      }
    }
  }

  lemma StaysBalanced(loads: Loads, ids: seq<string>, i: nat)
    requires Balanced(loads, ids) && i < |ids|
    requires forall j :: 0 <= j < |ids| ==> Load(loads, ids[i]) <= Load(loads, ids[j])
    ensures Balanced(loads[ids[i] := Load(loads, ids[i]) + 1], ids)
  {
  }

  lemma {:induction false} IdleTotal(ids: seq<string>)
    ensures TotalLoad(map[], ids) == 0
  {
    if ids != [] {
      IdleTotal(ids[1..]);
    }
  }

  lemma {:induction false} LoadBounded(loads: Loads, ids: seq<string>, i: nat)
    requires i < |ids|
    ensures Load(loads, ids[i]) <= TotalLoad(loads, ids)
  {
    if i > 0 {
      LoadBounded(loads, ids[1..], i - 1);
    }
  }

  lemma {:induction false} TotalUntouched(loads: Loads, ids: seq<string>, id: string, n: nat)
    requires id !in ids
    ensures TotalLoad(loads[id := n], ids) == TotalLoad(loads, ids)
  {
    if ids != [] {
      TotalUntouched(loads, ids[1..], id, n);
    }
  }

  lemma {:induction false} OneMoreTotal(loads: Loads, ids: seq<string>, i: nat)
    requires i < |ids| && Distinct(ids)
    ensures TotalLoad(loads[ids[i] := Load(loads, ids[i]) + 1], ids) == TotalLoad(loads, ids) + 1
  {
    if i == 0 {
      assert ids[0] !in ids[1..];
      TotalUntouched(loads, ids[1..], ids[0], Load(loads, ids[0]) + 1);
    } else {
      OneMoreTotal(loads, ids[1..], i - 1);
    }
  }

  // ---------------------------------------------------------------- histories of acquires and releases

  datatype Request = AcquireOp(id: string) | ReleaseOp(id: string)

  function LoadsAfter(ops: seq<Request>): Loads {
    if ops == [] then map[] else LoadsStep(LoadsAfter(ops[..|ops| - 1]), ops[|ops| - 1])
  }

  /** Acquires of `id` minus its releases. */
  function Net(ops: seq<Request>, id: string): int {
    if ops == [] then 0
    else
      var last := ops[|ops| - 1];
      Net(ops[..|ops| - 1], id) + if last.id != id then 0 else if last.AcquireOp? then 1 else -1
  }

  predicate EverAcquired(ops: seq<Request>, id: string) {
    AcquireOp(id) in ops
  }

  /** The same, not counting releases before the first acquire. */
  function SinceFirst(ops: seq<Request>, id: string): int {
    if ops == [] then 0
    else
      var front, last := ops[..|ops| - 1], ops[|ops| - 1];
      SinceFirst(front, id) +
      if last.id != id then 0 else if last.AcquireOp? then 1 else if EverAcquired(front, id) then -1 else 0
  }

  lemma ModStep(x: int, d: int)
    ensures (x % WORD + d) % WORD == (x + d) % WORD
  {
    var y := x % WORD + d;
    assert x + d == WORD * (x / WORD + y / WORD) + y % WORD;
    ModIs(WORD, x / WORD + y / WORD, y % WORD);
  }

  function LoadsStep(loads: Loads, op: Request): Loads {
    match op
    case AcquireOp(id) => Acquired(loads, id)
    case ReleaseOp(id) => Released(loads, id)
  }

  lemma LoadStep(loads: Loads, op: Request, net: int)
    requires Load(loads, op.id) == net % WORD
    ensures op.AcquireOp? ==> Load(LoadsStep(loads, op), op.id) == (net + 1) % WORD
    ensures op.ReleaseOp? && op.id in loads ==> Load(LoadsStep(loads, op), op.id) == (net - 1) % WORD
  {
    if op.AcquireOp? {
      ModStep(net, 1);
    } else if op.id in loads {
      ModStep(net, WORD - 1);
      assert net - 1 + WORD == WORD * ((net - 1) / WORD + 1) + (net - 1) % WORD;
      ModIs(WORD, (net - 1) / WORD + 1, (net - 1) % WORD);
    }
  }

  /** After every history the load of an instance is what it acquired minus what it released since its
      first acquire, modulo the word size. */
  lemma {:induction false} LoadIs(ops: seq<Request>, id: string)
    ensures id in LoadsAfter(ops) <==> EverAcquired(ops, id)
    ensures Load(LoadsAfter(ops), id) == SinceFirst(ops, id) % WORD
  {
    if ops != [] {
      var front, last := ops[..|ops| - 1], ops[|ops| - 1];
      LoadIs(front, id);
      assert ops == front + [last];
      assert EverAcquired(ops, id) <==> EverAcquired(front, id) || last == AcquireOp(id);
      if last.id == id {
        LoadStep(LoadsAfter(front), last, SinceFirst(front, id));
      }
    }
  }

  /** Releases never run ahead of acquires, and the count fits the word, throughout a history. */
  ghost predicate Disciplined(ops: seq<Request>, id: string) {
    forall n :: 0 <= n <= |ops| ==> 0 <= Net(ops[..n], id) < WORD
  }

  ghost predicate LoadsExact(ops: seq<Request>, id: string) {
    forall n :: 0 <= n <= |ops| ==> Load(LoadsAfter(ops[..n]), id) == Net(ops[..n], id)
  }

  /** Without an early release, nothing is ignored. */
  lemma {:induction false} NothingIgnored(ops: seq<Request>, id: string)
    requires Disciplined(ops, id)
    ensures SinceFirst(ops, id) == Net(ops, id)
  {
    if ops != [] {
      var front := ops[..|ops| - 1];
      assert forall n :: 0 <= n <= |front| ==> front[..n] == ops[..n];
      NothingIgnored(front, id);
      assert ops[..|ops|] == ops;
      if !EverAcquired(front, id) {
        NeverAcquired(front, id);
      }
    }
  }

  lemma {:induction false} NeverAcquired(ops: seq<Request>, id: string)
    requires !EverAcquired(ops, id)
    ensures Net(ops, id) <= 0
  {
    if ops != [] {
      NeverAcquired(ops[..|ops| - 1], id);
    }
  }

  /** The load of an instance is acquires minus releases throughout a history if and only if no prefix
      releases more than it acquired and the difference fits the word. */
  lemma LoadsExactIff(ops: seq<Request>, id: string)
    ensures LoadsExact(ops, id) <==> Disciplined(ops, id)
  {
    forall n | 0 <= n <= |ops|
      ensures Disciplined(ops, id) ==> Load(LoadsAfter(ops[..n]), id) == Net(ops[..n], id)
      ensures 0 <= Load(LoadsAfter(ops[..n]), id) < WORD
    {
      var front := ops[..n];
      LoadIs(front, id);
      if Disciplined(ops, id) {
        assert forall m :: 0 <= m <= n ==> front[..m] == ops[..m];
        NothingIgnored(front, id);
        ModIs(WORD, 0, Net(front, id));
      }
    }
  }

  /** One release too many sends the load to the top of the word. */
  lemma OverReleaseExample()
    ensures var ops := [AcquireOp("a"), ReleaseOp("a"), ReleaseOp("a")];
            Load(LoadsAfter(ops), "a") == WORD - 1 && !Disciplined(ops, "a")
  {
    var ops := [AcquireOp("a"), ReleaseOp("a"), ReleaseOp("a")];
    assert ops[..3] == ops && ops[..2] == [AcquireOp("a"), ReleaseOp("a")] && ops[..2][..1] == [AcquireOp("a")];
    assert LoadsAfter(ops[..1]) == map["a" := 1];
    assert LoadsAfter(ops[..2]) == map["a" := 0];
    assert Net(ops[..1], "a") == 1 && Net(ops[..2], "a") == 0 && Net(ops[..3], "a") == -1;
  }
}
