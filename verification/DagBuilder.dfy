/** The graph builder of the DAG orchestrator: adding nodes and edges with an online cycle check,
    the reachability search behind that check, and Kahn's topological sort. */
module DagBuilder {
  import opened Common
  import opened Graph

  datatype OnError = Fail | Skip | Continue

  datatype FailurePolicy = FailFast | ContinueAll | SkipDependents

  function DefaultOnError(p: FailurePolicy): OnError {
    match p
    case FailFast => Fail
    case ContinueAll => Continue
    case SkipDependents => Skip
  }

  const EMPTY := Graph({}, map[], map[])

  // ---------------------------------------------------------------- building, on values

  datatype BuildOp = PutNode(id: Id) | PutEdge(from: Id, to: Id)

  function WithNode(g: Graph, id: Id): Graph {
    Graph(g.nodes + {id},
          if id in g.edges then g.edges else g.edges[id := []],
          if id in g.rev then g.rev else g.rev[id := []])
  }

  function WithEdge(g: Graph, from: Id, to: Id): Graph {
    g.(edges := g.edges[from := Succ(g.edges, from) + [to]],
       rev := g.rev[to := Succ(g.rev, to) + [from]])
  }

  /** An edge is accepted when both ends are known and the target does not already reach the source. */
  ghost predicate Accepts(g: Graph, from: Id, to: Id) {
    from in g.nodes && to in g.nodes && !Reaches(g.edges, to, from)
  }

  ghost function Apply(g: Graph, op: BuildOp): Graph {
    match op
    case PutNode(id) => WithNode(g, id)
    case PutEdge(from, to) => if Accepts(g, from, to) then WithEdge(g, from, to) else g
  }

  ghost function Replay(g: Graph, ops: seq<BuildOp>): Graph {
    if ops == [] then g else Apply(Replay(g, ops[..|ops| - 1]), ops[|ops| - 1])
  }

  lemma WithNodeMirrors(g: Graph, id: Id, u: Id, v: Id)
    requires WellFormed(g) && id !in g.nodes && u in g.nodes + {id} && v in g.nodes + {id}
    ensures Mult(g.edges[id := []][u], v) == Mult(g.rev[id := []][v], u)
  {
    if u in g.nodes && v in g.nodes {
      assert Mult(g.edges[u], v) == Mult(g.rev[v], u);
    } else {
      MultPositive(g.edges[id := []][u], v);
      MultPositive(g.rev[id := []][v], u);
    }
  }

  lemma WithNodeInside(g: Graph, id: Id)
    requires WellFormed(g)
    ensures var h := WithNode(g, id);
            && h.nodes == h.edges.Keys == h.rev.Keys == g.nodes + {id}
            && Inside(h.edges, h.nodes) && Inside(h.rev, h.nodes)
            && (if id in g.nodes then h == g else h.edges == g.edges[id := []] && h.rev == g.rev[id := []])
  {
  }

  lemma WithNodeKeeps(g: Graph, id: Id)
    requires WellFormed(g)
    ensures WellFormed(WithNode(g, id))
  {
    var h := WithNode(g, id);
    WithNodeInside(g, id);
    if id !in g.nodes {
      forall u, v | u in h.edges && v in h.rev ensures Mult(h.edges[u], v) == Mult(h.rev[v], u) {
        WithNodeMirrors(g, id, u, v);
      }
      assert Mirrored(h.edges, h.rev);
    }
  }

  lemma WithNodeAcyclic(g: Graph, id: Id)
    requires Acyclic(g.edges)
    ensures Acyclic(WithNode(g, id).edges)
  {
    forall v ensures !Descends(WithNode(g, id).edges, v, v) {
      ReachMonotone(WithNode(g, id).edges, g.edges, v, v);
    }
  }

  lemma WithEdgeMirrors(g: Graph, from: Id, to: Id, u: Id, v: Id)
    requires WellFormed(g) && from in g.nodes && to in g.nodes && u in g.nodes && v in g.nodes
    ensures Mult(WithEdge(g, from, to).edges[u], v) == Mult(WithEdge(g, from, to).rev[v], u)
  {
    assert Mult(g.edges[u], v) == Mult(g.rev[v], u);
    MultSnoc(g.edges[from], to, v);
    MultSnoc(g.rev[to], from, u);
  }

  lemma WithEdgeInside(g: Graph, from: Id, to: Id)
    requires WellFormed(g) && from in g.nodes && to in g.nodes
    ensures var h := WithEdge(g, from, to);
            && h.nodes == h.edges.Keys == h.rev.Keys == g.nodes
            && Inside(h.edges, g.nodes) && Inside(h.rev, g.nodes)
  {
  }

  lemma WithEdgeKeeps(g: Graph, from: Id, to: Id)
    requires WellFormed(g) && from in g.nodes && to in g.nodes
    ensures WellFormed(WithEdge(g, from, to))
  {
    var h := WithEdge(g, from, to);
    WithEdgeInside(g, from, to);
    forall u, v | u in h.edges && v in h.rev ensures Mult(h.edges[u], v) == Mult(h.rev[v], u) {
      WithEdgeMirrors(g, from, to, u, v);
    }
    assert Mirrored(h.edges, h.rev);
  }

  /** A path of the enlarged graph either avoids the new edge or has an old part before and after it. */
  lemma {:induction false} PathThroughEdge(g: Graph, from: Id, to: Id, a: Id, b: Id, p: seq<Id>)
    requires PathBetween(WithEdge(g, from, to).edges, a, b, p)
    ensures Reaches(g.edges, a, b) || (Reaches(g.edges, a, from) && Reaches(g.edges, to, b))
    decreases |p|
  {
    var e := g.edges;
    if |p| == 1 {
      ReachRefl(e, a);
    } else {
      var x, q := p[1], p[1..];
      assert x in Succ(WithEdge(g, from, to).edges, a);
      assert PathBetween(WithEdge(g, from, to).edges, x, b, q);
      PathThroughEdge(g, from, to, x, b, q);
      ReachRefl(e, from);
      if x in Succ(e, a) {
        ReachEdge(e, a, x);
        if Reaches(e, x, b) {
          ReachTrans(e, a, x, b);
        } else {
          ReachTrans(e, a, x, from);
        }
      }
    }
  }

  /** An edge closes a cycle exactly when its target already reaches its source. */
  lemma RefusedIffCyclic(g: Graph, from: Id, to: Id)
    requires WellFormed(g) && Acyclic(g.edges) && from in g.nodes && to in g.nodes
    ensures Reaches(g.edges, to, from) <==> !Acyclic(WithEdge(g, from, to).edges)
  {
    var e, e' := g.edges, WithEdge(g, from, to).edges;
    if Reaches(e, to, from) {
      ReachMonotone(e, e', to, from);
      assert to in Succ(e', from);
      assert Descends(e', from, from);
    } else if !Acyclic(e') {
      var x :| Descends(e', x, x);
      var y :| y in Succ(e', x) && Reaches(e', y, x);
      var p :| PathBetween(e', y, x, p);
      PathThroughEdge(g, from, to, y, x, p);
      if y in Succ(e, x) {
        if Reaches(e, y, x) {
          assert Descends(e, x, x);
        } else {
          ReachEdge(e, x, y);
          ReachTrans(e, to, x, y);
          ReachTrans(e, to, y, from);
        }
      }
    }
  }

  /** One builder call keeps the graph mirrored, inside its nodes, and acyclic. */
  lemma ApplyKeeps(g: Graph, op: BuildOp)
    requires WellFormed(g) && Acyclic(g.edges)
    ensures WellFormed(Apply(g, op)) && Acyclic(Apply(g, op).edges)
  {
    match op
    case PutNode(id) =>
      WithNodeKeeps(g, id);
      WithNodeAcyclic(g, id);
    case PutEdge(from, to) =>
      if Accepts(g, from, to) {
        WithEdgeKeeps(g, from, to);
        RefusedIffCyclic(g, from, to);
      }
  }

  /** Every graph a builder can produce is mirrored and acyclic. */
  lemma {:induction false} EveryBuildIsAcyclic(ops: seq<BuildOp>)
    ensures WellFormed(Replay(EMPTY, ops)) && Acyclic(Replay(EMPTY, ops).edges)
  {
    if ops == [] {
      forall v ensures !Descends(EMPTY.edges, v, v) {
        assert Succ(EMPTY.edges, v) == [];
      }
    } else {
      EveryBuildIsAcyclic(ops[..|ops| - 1]);
      ApplyKeeps(Replay(EMPTY, ops[..|ops| - 1]), ops[|ops| - 1]);
    }
  }

  // ---------------------------------------------------------------- Kahn's algorithm

  /** `s` lists exactly the nodes of in-degree zero, once each. */
  ghost predicate ZeroesListed(inDegree: map<Id, nat>, s: seq<Id>) {
    Distinct(s) && Elems(s) <= inDegree.Keys && forall v :: v in inDegree ==> (v in s <==> inDegree[v] == 0)
  }

  /** Counting `v` down queues it exactly when it reaches zero. */
  lemma ZeroesStep(inDegree: map<Id, nat>, done: seq<Id>, queue: seq<Id>, v: Id)
    requires ZeroesListed(inDegree, done + queue) && v in inDegree && inDegree[v] > 0
    ensures ZeroesListed(inDegree[v := inDegree[v] - 1], done + if inDegree[v] == 1 then queue + [v] else queue)
  {
    assert done + (queue + [v]) == done + queue + [v];
  }

  /** Between two rounds of the sort: each in-degree counts the unsorted predecessors, and exactly
      the nodes at zero have been queued or sorted. */
  ghost predicate KahnInvariant(g: Graph, inDegree: map<Id, nat>, queue: seq<Id>, sorted: seq<Id>) {
    && inDegree.Keys == g.nodes == g.rev.Keys
    && ZeroesListed(inDegree, sorted + queue)
    && (forall v :: v in g.nodes ==> inDegree[v] == CountOutside(g.rev[v], Elems(sorted)))
    && PredecessorsFirst(g, sorted)
  }

  lemma KahnStart(g: Graph, inDegree: map<Id, nat>, queue: seq<Id>)
    requires WellFormed(g) && inDegree.Keys == g.nodes && Distinct(queue)
    requires forall v :: v in g.nodes ==> inDegree[v] == |g.rev[v]|
    requires Elems(queue) == set v | v in g.nodes && inDegree[v] == 0
    ensures KahnInvariant(g, inDegree, queue, [])
  {
    var none: seq<Id> := [];
    assert none + queue == queue && Elems(none) == {};
    forall v | v in g.nodes
      ensures inDegree[v] == CountOutside(g.rev[v], Elems(none))
      ensures v in queue <==> inDegree[v] == 0
    {
      CountOutsideEmpty(g.rev[v]);
      assert v in queue <==> v in Elems(queue);
    }
  }

  /** Inside a round: `id` has just been sorted and the first `i` of its successors are relaxed. */
  ghost predicate RoundInvariant(g: Graph, id: Id, i: nat, inDegree: map<Id, nat>, queue: seq<Id>, sorted: seq<Id>)
    requires WellFormed(g) && id in g.nodes && i <= |g.edges[id]|
  {
    && inDegree.Keys == g.nodes
    && ZeroesListed(inDegree, sorted + [id] + queue)
    && (forall v :: v in g.nodes ==> Relaxed(g, id, i, Elems(sorted), v, inDegree[v]))
  }

  /** The in-degree `n` of `v` is short of its unsorted predecessors by the entries relaxed. */
  ghost predicate Relaxed(g: Graph, id: Id, i: nat, p: set<Id>, v: Id, n: nat)
    requires WellFormed(g) && id in g.nodes && i <= |g.edges[id]| && v in g.nodes
  {
    n + Mult(g.edges[id][..i], v) == CountOutside(g.rev[v], p)
  }

  lemma RoundStart(g: Graph, inDegree: map<Id, nat>, queue: seq<Id>, sorted: seq<Id>)
    requires WellFormed(g) && queue != [] && KahnInvariant(g, inDegree, queue, sorted)
    ensures queue[0] in g.nodes && queue[0] !in sorted
    ensures RoundInvariant(g, queue[0], 0, inDegree, queue[1..], sorted)
    ensures PredecessorsFirst(g, sorted + [queue[0]])
    ensures Elems(sorted + [queue[0]]) == Elems(sorted) + {queue[0]}
  {
    var id := queue[0];
    assert sorted + queue == sorted + [id] + queue[1..];
    assert id in sorted + [id] + queue[1..];
    DistinctMiddle(sorted, id, queue[1..]);
    CountOutsideZero(g.rev[id], Elems(sorted));
    forall v | v in g.nodes ensures Mult(g.edges[id][..0], v) == 0 {
      MultPositive(g.edges[id][..0], v);
    }
    forall i | 0 <= i < |sorted + [id]| ensures (sorted + [id])[..i] == sorted[..i] {
    }
  }

  lemma RelaxedNext(g: Graph, id: Id, i: nat, p: set<Id>, v: Id, n: nat)
    requires WellFormed(g) && id in g.nodes && i < |g.edges[id]| && v in g.nodes && id !in p
    requires Relaxed(g, id, i, p, v, n)
    ensures if g.edges[id][i] == v then n > 0 && Relaxed(g, id, i + 1, p, v, n - 1) else Relaxed(g, id, i + 1, p, v, n)
  {
    SettleCount(g, id, v, p, i);
  }

  lemma AllRelaxedNext(g: Graph, id: Id, i: nat, p: set<Id>, inDegree: map<Id, nat>)
    requires WellFormed(g) && id in g.nodes && i < |g.edges[id]| && id !in p && inDegree.Keys == g.nodes
    requires forall v :: v in g.nodes ==> Relaxed(g, id, i, p, v, inDegree[v])
    ensures g.edges[id][i] in inDegree && inDegree[g.edges[id][i]] > 0
    ensures var dep := g.edges[id][i];
            forall v :: v in g.nodes ==> Relaxed(g, id, i + 1, p, v, inDegree[dep := inDegree[dep] - 1][v])
  {
    assert g.edges[id][i] in g.nodes;
    forall v | v in g.nodes
      ensures if g.edges[id][i] == v then inDegree[v] > 0 && Relaxed(g, id, i + 1, p, v, inDegree[v] - 1)
              else Relaxed(g, id, i + 1, p, v, inDegree[v])
    {
      RelaxedNext(g, id, i, p, v, inDegree[v]);
    }
  }

  /** Relaxing one more successor never underflows and keeps the round invariant. */
  lemma RoundStep(g: Graph, id: Id, i: nat, inDegree: map<Id, nat>, queue: seq<Id>, sorted: seq<Id>)
    requires WellFormed(g) && id in g.nodes && i < |g.edges[id]| && id !in sorted
    requires RoundInvariant(g, id, i, inDegree, queue, sorted)
    ensures g.edges[id][i] in inDegree && inDegree[g.edges[id][i]] > 0
    ensures var dep := g.edges[id][i];
            var inDegree' := inDegree[dep := inDegree[dep] - 1];
            RoundInvariant(g, id, i + 1, inDegree', if inDegree'[dep] == 0 then queue + [dep] else queue, sorted)
  {
    AllRelaxedNext(g, id, i, Elems(sorted), inDegree);
    ZeroesStep(inDegree, sorted + [id], queue, g.edges[id][i]);
  }

  lemma RoundEnd(g: Graph, id: Id, inDegree: map<Id, nat>, queue: seq<Id>, sorted: seq<Id>)
    requires WellFormed(g) && id in g.nodes && id !in sorted
    requires RoundInvariant(g, id, |g.edges[id]|, inDegree, queue, sorted)
    requires PredecessorsFirst(g, sorted + [id])
    ensures KahnInvariant(g, inDegree, queue, sorted + [id])
  {
    assert g.edges[id][..|g.edges[id]|] == g.edges[id];
    assert Elems(sorted + [id]) == Elems(sorted) + {id};
    forall v | v in g.nodes ensures inDegree[v] == CountOutside(g.rev[v], Elems(sorted + [id])) {
      SettleCount(g, id, v, Elems(sorted), 0);
    }
  }

  /** When the queue runs dry, the sort is complete exactly on an acyclic graph. */
  lemma KahnFinish(g: Graph, inDegree: map<Id, nat>, sorted: seq<Id>)
    requires WellFormed(g) && KahnInvariant(g, inDegree, [], sorted)
    ensures |sorted| == |g.nodes| <==> Acyclic(g.edges)
    ensures |sorted| == |g.nodes| ==> TopologicalOrder(g, sorted)
  {
    assert sorted + [] == sorted;
    DistinctCard(sorted);
    SubsetCard(Elems(sorted), g.nodes);
    if |sorted| == |g.nodes| {
      OrderedIsAcyclic(g, sorted);
    } else if Acyclic(g.edges) {
      var rest := g.nodes - Elems(sorted);
      assert rest != {};
      forall v | v in rest ensures HasPredecessorIn(g, rest, v) {
        CountOutsideZero(g.rev[v], Elems(sorted));
      }
      Rootless(g, rest);
    }
  }

  /** List a set in some order. */
  method Enumerate(s: set<Id>) returns (r: seq<Id>)
    ensures Distinct(r) && Elems(r) == s
  {
    r := [];
    var rest := s;
    while rest != {}
      invariant Distinct(r) && Elems(r) + rest == s && Elems(r) !! rest
    {
      var x :| x in rest;
      rest := rest - {x};
      assert Elems(r + [x]) == Elems(r) + {x};
      r := r + [x];
    }
  }

  class Dag {
    var nodes: set<Id>
    var edges: Adjacency
    var reverseEdges: Adjacency
    var maxParallelism: nat
    var failurePolicy: FailurePolicy
    var nodeOnError: map<Id, OnError>

    function Value(): Graph
      reads this
    {
      Graph(nodes, edges, reverseEdges)
    }

    ghost predicate Valid()
      reads this
    {
      WellFormed(Value()) && Acyclic(edges) && maxParallelism >= 1
    }

    constructor (defaultParallelism: nat)
      requires defaultParallelism >= 1
      ensures Valid() && Value() == EMPTY
      ensures maxParallelism == defaultParallelism && failurePolicy == FailFast && nodeOnError == map[]
    {
      nodes, edges, reverseEdges := {}, map[], map[];
      maxParallelism := defaultParallelism;
      failurePolicy := FailFast;
      nodeOnError := map[];
      new;
      EveryBuildIsAcyclic([]);
    }

    method WithMaxParallelism(max: nat)
      requires Valid()
      modifies this`maxParallelism
      ensures Valid() && maxParallelism == if max == 0 then 1 else max
    {
      maxParallelism := if max > 1 then max else 1;
    }

    method AddNode(id: Id)
      requires Valid()
      modifies this`nodes, this`edges, this`reverseEdges
      ensures Valid() && Value() == Apply(old(Value()), PutNode(id))
    {
      ApplyKeeps(Value(), PutNode(id));
      nodes := nodes + {id};
      if id !in edges { edges := edges[id := []]; }
      if id !in reverseEdges { reverseEdges := reverseEdges[id := []]; }
    }

    /** The edge is refused exactly when an end is unknown or it would close a cycle. */
    method AddEdge(from: Id, to: Id) returns (r: Outcome)
      requires Valid()
      modifies this`edges, this`reverseEdges
      ensures Valid() && Value() == Apply(old(Value()), PutEdge(from, to))
      ensures r.Done? <==> from in nodes && to in nodes && Acyclic(WithEdge(old(Value()), from, to).edges)
      ensures r.Failed? ==> r.error == InvalidInput && Value() == old(Value())
    {
      ghost var g := Value();
      ApplyKeeps(g, PutEdge(from, to));
      if from !in nodes { return Failed(InvalidInput); }
      if to !in nodes { return Failed(InvalidInput); }
      RefusedIffCyclic(g, from, to);
      var cyclic := PathExists(to, from);
      if cyclic { return Failed(InvalidInput); }
      edges := edges[from := edges[from] + [to]];
      reverseEdges := reverseEdges[to := reverseEdges[to] + [from]];
      assert Value() == WithEdge(g, from, to);
      return Done;
    }

    /** Depth-first search; correct on every graph, cyclic ones included. */
    method PathExists(from: Id, to: Id) returns (found: bool)
      requires WellFormed(Value())
      ensures found <==> Reaches(edges, from, to)
    {
      var stack := [from];
      var visited: set<Id> := {};
      ReachRefl(edges, from);
      while stack != []
        invariant forall x :: x in stack || x in visited ==> Reaches(edges, from, x)
        invariant forall x :: x in stack || x in visited ==> x in nodes + {from}
        invariant from in visited || from in stack
        invariant to !in visited
        invariant forall x, y :: x in visited && y in Succ(edges, x) ==> y in visited || y in stack
        decreases nodes + {from} - visited, |stack|
      {
        var id := stack[|stack| - 1];
        ghost var before := stack;
        stack := stack[..|stack| - 1];
        assert before == stack + [id];
        if id == to { return true; }
        if id in visited { continue; }
        visited := visited + {id};
        if id in edges {
          forall y | y in edges[id] ensures Reaches(edges, from, y) {
            ReachEdge(edges, id, y);
            ReachTrans(edges, from, id, y);
          }
          stack := stack + edges[id];
        }
      }
      if Reaches(edges, from, to) {
        ClosedReach(edges, visited, from, to);
      }
      return false;
    }

    /** Kahn's algorithm over any mirrored graph: it succeeds exactly on the acyclic ones. */
    method TopologicalSort() returns (r: Result<seq<Id>>)
      requires WellFormed(Value())
      ensures r.Ok? <==> Acyclic(edges)
      ensures r.Ok? ==> TopologicalOrder(Value(), r.value)
      ensures r.Err? ==> r.error == InvalidInput
    {
      var inDegree: map<Id, nat> := map v | v in nodes :: if v in reverseEdges then |reverseEdges[v]| else 0;
      var queue := Enumerate(set v | v in nodes && inDegree[v] == 0);
      var sorted: seq<Id> := [];
      KahnStart(Value(), inDegree, queue);
      while queue != []
        invariant KahnInvariant(Value(), inDegree, queue, sorted)
        decreases nodes - Elems(sorted)
      {
        RoundStart(Value(), inDegree, queue, sorted);
        var id := queue[0];
        inDegree, queue := Relax(inDegree, queue, sorted);
        sorted := sorted + [id];
      }
      KahnFinish(Value(), inDegree, sorted);
      return if |sorted| != |nodes| then Err(InvalidInput) else Ok(sorted);
    }

    /** The inner loop of the sort: take the front of the queue off each of its successors,
        queueing those that reach zero. */
    method Relax(inDegree: map<Id, nat>, queue: seq<Id>, ghost sorted: seq<Id>)
      returns (inDegree': map<Id, nat>, queue': seq<Id>)
      requires WellFormed(Value()) && queue != [] && KahnInvariant(Value(), inDegree, queue, sorted)
      ensures KahnInvariant(Value(), inDegree', queue', sorted + [queue[0]])
    {
      RoundStart(Value(), inDegree, queue, sorted);
      var id := queue[0];
      inDegree', queue' := inDegree, queue[1..];
      var i := 0;
      while i < |edges[id]|
        invariant i <= |edges[id]|
        invariant RoundInvariant(Value(), id, i, inDegree', queue', sorted)
      {
        RoundStep(Value(), id, i, inDegree', queue', sorted);
        var dep := edges[id][i];
        inDegree' := inDegree'[dep := inDegree'[dep] - 1];
        if inDegree'[dep] == 0 {
          queue' := queue' + [dep];
        }
        i := i + 1;
      }
      RoundEnd(Value(), id, inDegree', queue', sorted);
    }
  }
}
