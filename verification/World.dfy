/** What the lifecycle code sees of the outside world: the calls it makes, kept in a journal, and the
    answers, which may depend on everything that happened before. */
module World {
  import opened Common

  datatype Phase = Configure | BeforeStart | AfterStart | Ready | BeforeStop | AfterStop

  /** A call to the outside: start or stop component `i`, run hook `k` of a phase, close the container. */
  datatype Call = Start(i: nat) | Stop(i: nat) | Hook(phase: Phase, k: nat) | CloseContainer

  datatype Answer = Okay | Fails(code: ErrorCode) | TimesOut

  /** An arbitrary world: the answer to a call, given the journal so far. */
  type Oracle = (seq<Call>, Call) -> Answer

  function ErrorOf(a: Answer): Option<ErrorCode> {
    match a
    case Okay => None
    case Fails(code) => Some(code)
    case TimesOut => Some(Timeout)
  }

  function Starts(idxs: seq<nat>): (calls: seq<Call>)
    ensures |calls| == |idxs|
  {
    seq(|idxs|, k requires 0 <= k < |idxs| => Start(idxs[k]))
  }

  function Stops(idxs: seq<nat>): (calls: seq<Call>)
    ensures |calls| == |idxs|
  {
    seq(|idxs|, k requires 0 <= k < |idxs| => Stop(idxs[k]))
  }

  lemma StopsSnoc(idxs: seq<nat>, i: nat)
    ensures Stops(idxs + [i]) == Stops(idxs) + [Stop(i)]
  {
  }

  lemma StartsSnoc(idxs: seq<nat>, i: nat)
    ensures Starts(idxs + [i]) == Starts(idxs) + [Start(i)]
  {
  }

  // ---------------------------------------------------------------- index lists

  /** The members of `s` below `n`, in increasing order. */
  function Ascending(s: set<nat>, n: nat): seq<nat> {
    if n == 0 then [] else Ascending(s, n - 1) + if n - 1 in s then [n - 1] else []
  }

  /** The members of `s` below `n`, in decreasing order. */
  function Descending(s: set<nat>, n: nat): seq<nat> {
    if n == 0 then [] else (if n - 1 in s then [n - 1] else []) + Descending(s, n - 1)
  }

  function Reverse<T>(s: seq<T>): seq<T> {
    if s == [] then [] else Reverse(s[1..]) + [s[0]]
  }

  lemma {:induction false} DescendingMembers(s: set<nat>, n: nat, i: nat)
    ensures i in Descending(s, n) <==> i in s && i < n
  {
    if n > 0 {
      DescendingMembers(s, n - 1, i);
    }
  }

  /** No member is listed twice. */
  lemma {:induction false} DescendingFalls(s: set<nat>, n: nat, j: nat, k: nat)
    requires j < k < |Descending(s, n)|
    ensures Descending(s, n)[j] > Descending(s, n)[k]
  {
    var rest := Descending(s, n - 1);
    if n - 1 !in s {
      DescendingFalls(s, n - 1, j, k);
    } else if j > 0 {
      DescendingFalls(s, n - 1, j - 1, k - 1);
    } else {
      assert rest[k - 1] in rest;
      DescendingMembers(s, n - 1, rest[k - 1]);
    }
  }

  lemma DescendingElems(s: set<nat>, n: nat)
    requires forall i :: i in s ==> i < n
    ensures Elems(Descending(s, n)) == s
  {
    forall i: nat ensures i in Descending(s, n) <==> i in s {
      DescendingMembers(s, n, i);
    }
  }

  lemma DescendingFresh(s: set<nat>, n: nat, k: nat)
    requires k < |Descending(s, n)|
    ensures Descending(s, n)[k] in s && Descending(s, n)[k] !in Descending(s, n)[..k]
  {
    var d := Descending(s, n);
    assert d[k] in d;
    DescendingMembers(s, n, d[k]);
    forall j | 0 <= j < k ensures d[j] != d[k] {
      DescendingFalls(s, n, j, k);
    }
  }

  lemma {:induction false} ReverseSnoc<T>(s: seq<T>, x: T)
    ensures Reverse(s + [x]) == [x] + Reverse(s)
  {
    if s != [] {
      assert (s + [x])[1..] == s[1..] + [x];
      ReverseSnoc(s[1..], x);
    }
  }

  /** Decreasing order is the reverse of increasing order. */
  lemma {:induction false} DescendingReverses(s: set<nat>, n: nat)
    ensures Descending(s, n) == Reverse(Ascending(s, n))
  {
    if n > 0 {
      DescendingReverses(s, n - 1);
      if n - 1 in s {
        ReverseSnoc<nat>(Ascending(s, n - 1), n - 1);
        assert Ascending(s, n) == Ascending(s, n - 1) + [n - 1];
      } else {
        assert Ascending(s, n) == Ascending(s, n - 1);
      }
    }
  }

  /** Only the members below the bound matter. */
  lemma {:induction false} DescendingLocal(s: set<nat>, t: set<nat>, m: nat, n: nat)
    requires m <= n && forall i :: i in s <==> i in t && i < m
    ensures Descending(s, n) == Descending(t, m)
    decreases n
  {
    if m < n {
      DescendingLocal(s, t, m, n - 1);
    } else {
      DescendingSame(s, t, n);
    }
  }

  lemma {:induction false} DescendingSame(s: set<nat>, t: set<nat>, n: nat)
    requires forall i :: 0 <= i < n ==> (i in s <==> i in t)
    ensures Descending(s, n) == Descending(t, n)
  {
    if n > 0 {
      DescendingSame(s, t, n - 1);
    }
  }
}
