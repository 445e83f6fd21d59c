/** Types shared by every component: optional values, error codes and results. */
module Common {

  datatype Option<+T> = None | Some(value: T)

  /** The error codes the modelled components produce or inspect.
      `Other` stands for every code that they only pass on. */
  datatype ErrorCode =
    | ServiceUnavailable
    | Timeout
    | NotFound
    | Conflict
    | InvalidInput
    | Internal
    | Cancelled
    | Other(code: nat)

  datatype Result<+T> = Ok(value: T) | Err(error: ErrorCode)

  /** Result of an operation that yields nothing. */
  datatype Outcome = Done | Failed(error: ErrorCode)

  lemma SubsetCard<T>(a: set<T>, b: set<T>)
    requires a <= b
    ensures |a| <= |b|
    ensures |a| == |b| ==> a == b
  {
    assert |b - a| == |b| - |a|;
  }

  ghost predicate Distinct<T>(s: seq<T>) {
    forall i, j :: 0 <= i < j < |s| ==> s[i] != s[j]
  }

  function Elems<T(==)>(s: seq<T>): set<T> {
    set x | x in s
  }

  lemma {:induction false} DistinctCard<T>(s: seq<T>)
    requires Distinct(s)
    ensures |Elems(s)| == |s|
  {
    if s != [] {
      var front, last := s[..|s| - 1], s[|s| - 1];
      DistinctCard(front);
      assert s == front + [last];
      assert Elems(s) == Elems(front) + {last};
    }
  }
}
