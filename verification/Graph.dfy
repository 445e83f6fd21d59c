/** Directed multigraphs given by adjacency lists, with reachability, acyclicity and the
    counting of list entries (with multiplicity) that the scheduler and the sort rely on. */
module Graph {
  import opened Common

  /** A node name. */
  datatype Id = Id(name: string)

  type Adjacency = map<Id, seq<Id>>

  /** `nodes` plus the forward and the reverse adjacency lists. */
  datatype Graph = Graph(nodes: set<Id>, edges: Adjacency, rev: Adjacency)

  function Succ(e: Adjacency, u: Id): seq<Id> {
    if u in e then e[u] else []
  }

  // ---------------------------------------------------------------- reachability

  ghost predicate IsPath(e: Adjacency, p: seq<Id>) {
    forall i, j :: 0 <= i < |p| && j == i + 1 < |p| ==> p[j] in Succ(e, p[i])
  }

  ghost predicate PathBetween(e: Adjacency, u: Id, v: Id, p: seq<Id>) {
    |p| > 0 && p[0] == u && p[|p| - 1] == v && IsPath(e, p)
  }

  /** `v` can be reached from `u` in zero or more steps. */
  ghost predicate Reaches(e: Adjacency, u: Id, v: Id) {
    exists p :: PathBetween(e, u, v, p)
  }

  /** `v` can be reached from `u` in one or more steps. */
  ghost predicate Descends(e: Adjacency, u: Id, v: Id) {
    exists w :: w in Succ(e, u) && Reaches(e, w, v)
  }

  ghost predicate Acyclic(e: Adjacency) {
    forall v :: !Descends(e, v, v)
  }

  lemma ReachRefl(e: Adjacency, u: Id)
    ensures Reaches(e, u, u)
  {
    assert PathBetween(e, u, u, [u]);
  }

  lemma ReachTrans(e: Adjacency, u: Id, v: Id, w: Id)
    requires Reaches(e, u, v) && Reaches(e, v, w)
    ensures Reaches(e, u, w)
  {
    var p :| PathBetween(e, u, v, p);
    var q :| PathBetween(e, v, w, q);
    var r := p + q[1..];
    forall i, j | 0 <= i < |r| && j == i + 1 < |r|
      ensures r[j] in Succ(e, r[i])
    {
      if i >= |p| - 1 {
        assert r[i] == q[i - (|p| - 1)] && r[j] == q[j - (|p| - 1)];
      }
    }
    assert PathBetween(e, u, w, r);
  }

  lemma ReachEdge(e: Adjacency, u: Id, v: Id)
    requires v in Succ(e, u)
    ensures Reaches(e, u, v) && Descends(e, u, v)
  {
    assert PathBetween(e, u, v, [u, v]);
    ReachRefl(e, v);
  }

  /** A path is empty or starts with an edge. */
  lemma ReachSplit(e: Adjacency, u: Id, v: Id)
    ensures Reaches(e, u, v) <==> u == v || Descends(e, u, v)
  {
    if Reaches(e, u, v) && u != v {
      var p :| PathBetween(e, u, v, p);
      assert p[1] in Succ(e, u);
      var q := p[1..];
      assert PathBetween(e, p[1], v, q);
    } else if u == v {
      ReachRefl(e, u);
    } else if Descends(e, u, v) {
      var w :| w in Succ(e, u) && Reaches(e, w, v);
      ReachEdge(e, u, w);
      ReachTrans(e, u, w, v);
    }
  }

  lemma DescendTrans(e: Adjacency, u: Id, v: Id, w: Id)
    requires Descends(e, u, v) && Reaches(e, v, w)
    ensures Descends(e, u, w)
  {
    var x :| x in Succ(e, u) && Reaches(e, x, v);
    ReachTrans(e, x, v, w);
  }

  ghost predicate ClosedUnder(e: Adjacency, s: set<Id>) {
    forall u, v :: u in s && v in Succ(e, u) ==> v in s
  }

  lemma {:induction false} ClosedPath(e: Adjacency, s: set<Id>, p: seq<Id>, i: nat)
    requires ClosedUnder(e, s) && IsPath(e, p) && i < |p| && p[0] in s
    ensures p[i] in s
  {
    if i > 0 {
      ClosedPath(e, s, p, i - 1);
    }
  }

  /** A set closed under edges cannot be left. */
  lemma ClosedReach(e: Adjacency, s: set<Id>, u: Id, v: Id)
    requires ClosedUnder(e, s) && u in s && Reaches(e, u, v)
    ensures v in s
  {
    var p :| PathBetween(e, u, v, p);
    ClosedPath(e, s, p, |p| - 1);
  }

  /** Fewer edges give fewer paths. */
  lemma ReachMonotone(small: Adjacency, big: Adjacency, u: Id, v: Id)
    requires forall x, y :: y in Succ(small, x) ==> y in Succ(big, x)
    ensures Reaches(small, u, v) ==> Reaches(big, u, v)
    ensures Descends(small, u, v) ==> Descends(big, u, v)
  {
    if Reaches(small, u, v) {
      var p :| PathBetween(small, u, v, p);
      assert PathBetween(big, u, v, p);
    }
    if Descends(small, u, v) {
      var w :| w in Succ(small, u) && Reaches(small, w, v);
      var p :| PathBetween(small, w, v, p);
      assert PathBetween(big, w, v, p);
    }
  }

  // ---------------------------------------------------------------- counting

  /** How often `x` occurs in `s`. */
  function Mult(s: seq<Id>, x: Id): nat {
    |set i | 0 <= i < |s| && s[i] == x|
  }

  /** The number of entries of `s`, with multiplicity, that lie outside `p`. */
  function CountOutside(s: seq<Id>, p: set<Id>): nat {
    |set i | 0 <= i < |s| && s[i] !in p|
  }

  lemma MultPositive(s: seq<Id>, x: Id)
    ensures Mult(s, x) > 0 <==> x in s
  {
    var here := set i | 0 <= i < |s| && s[i] == x;
    if x in s {
      var k :| 0 <= k < |s| && s[k] == x;
      assert k in here;
    } else {
      assert here == {};
    }
  }

  lemma MultSnoc(s: seq<Id>, y: Id, x: Id)
    ensures Mult(s + [y], x) == Mult(s, x) + if y == x then 1 else 0
  {
    var t := s + [y];
    var before, after := set i | 0 <= i < |s| && s[i] == x, set i | 0 <= i < |t| && t[i] == x;
    assert after == before + if y == x then {|s|} else {};
  }

  /** Moving `x` into the set removes exactly its occurrences from the count. */
  lemma CountOutsideInsert(s: seq<Id>, p: set<Id>, x: Id)
    requires x !in p
    ensures CountOutside(s, p + {x}) + Mult(s, x) == CountOutside(s, p)
  {
    var before := set i | 0 <= i < |s| && s[i] !in p;
    var after := set i | 0 <= i < |s| && s[i] !in p + {x};
    var here := set i | 0 <= i < |s| && s[i] == x;
    assert before == after + here && after !! here;
  }

  lemma CountOutsideZero(s: seq<Id>, p: set<Id>)
    ensures CountOutside(s, p) == 0 <==> forall x :: x in s ==> x in p
  {
    var out := set i | 0 <= i < |s| && s[i] !in p;
    if out != {} {
      var i :| i in out;
      assert s[i] in s && s[i] !in p;
    } else {
      forall x | x in s ensures x in p {
        var i :| 0 <= i < |s| && s[i] == x;
        assert i !in out;
      }
    }
  }

  lemma {:induction false} CountOutsideEmpty(s: seq<Id>)
    ensures CountOutside(s, {}) == |s|
  {
    var none: set<Id> := {};
    var all := set i | 0 <= i < |s| && s[i] !in none;
    if s == [] {
      assert all == {};
    } else {
      var t := s[..|s| - 1];
      var fewer := set i | 0 <= i < |t| && t[i] !in none;
      CountOutsideEmpty(t);
      assert |fewer| == |t|;
      assert all == fewer + {|s| - 1};
    }
  }

  lemma PrefixMult(s: seq<Id>, i: nat, x: Id)
    requires i <= |s|
    ensures Mult(s[..i], x) <= Mult(s, x)
    ensures i < |s| ==> Mult(s[..i + 1], x) == Mult(s[..i], x) + if s[i] == x then 1 else 0
    ensures i < |s| && s[i] == x ==> Mult(s[..i], x) < Mult(s, x)
  {
    var part := set k | 0 <= k < i && s[..i][k] == x;
    var whole := set k | 0 <= k < |s| && s[k] == x;
    assert part <= whole;
    SubsetCard(part, whole);
    if i < |s| {
      assert s[..i + 1] == s[..i] + [s[i]];
      MultSnoc(s[..i], s[i], x);
      if s[i] == x {
        SubsetCard(part + {i}, whole);
      }
    }
  }

  // ---------------------------------------------------------------- well-formed graphs

  ghost predicate Inside(e: Adjacency, nodes: set<Id>) {
    forall u, v :: u in e && v in e[u] ==> v in nodes
  }

  ghost predicate Mirrored(e: Adjacency, r: Adjacency) {
    forall u, v {:trigger Mult(e[u], v)} {:trigger Mult(r[v], u)} :: u in e && v in r ==> Mult(e[u], v) == Mult(r[v], u)
  }

  /** Both lists cover the nodes, stay inside them, and mirror each other with multiplicity. */
  ghost predicate WellFormed(g: Graph) {
    && g.edges.Keys == g.nodes
    && g.rev.Keys == g.nodes
    && Inside(g.edges, g.nodes)
    && Inside(g.rev, g.nodes)
    && Mirrored(g.edges, g.rev)
  }

  lemma MirrorMember(g: Graph, u: Id, v: Id)
    requires WellFormed(g) && u in g.nodes && v in g.nodes
    ensures v in g.edges[u] <==> u in g.rev[v]
  {
    MultPositive(g.edges[u], v);
    MultPositive(g.rev[v], u);
  }

  /** What walking along the successor list of a newly settled node `u` does to the count of a
      successor `v`: entry `i` takes one occurrence, no prefix takes more than are outside `p`,
      and the whole list takes exactly what settling `u` removes. */
  lemma SettleCount(g: Graph, u: Id, v: Id, p: set<Id>, i: nat)
    requires WellFormed(g) && u in g.nodes && v in g.nodes && u !in p && i <= |g.edges[u]|
    ensures Mult(g.edges[u], v) + CountOutside(g.rev[v], p + {u}) == CountOutside(g.rev[v], p)
    ensures Mult(g.edges[u][..i], v) <= Mult(g.edges[u], v)
    ensures i < |g.edges[u]| ==>
              Mult(g.edges[u][..i + 1], v) == Mult(g.edges[u][..i], v) + if g.edges[u][i] == v then 1 else 0
    ensures i < |g.edges[u]| && g.edges[u][i] == v ==> Mult(g.edges[u][..i], v) < Mult(g.edges[u], v)
  {
    CountOutsideInsert(g.rev[v], p, u);
    assert Mult(g.edges[u], v) == Mult(g.rev[v], u);
    PrefixMult(g.edges[u], i, v);
  }

  lemma DescendantsInside(g: Graph, u: Id, v: Id)
    requires WellFormed(g) && Descends(g.edges, u, v)
    ensures u in g.nodes && v in g.nodes
  {
    var w :| w in Succ(g.edges, u) && Reaches(g.edges, w, v);
    ClosedReach(g.edges, g.nodes, w, v);
  }

  /** Every node strictly below `u`. */
  ghost function Descendants(g: Graph, u: Id): set<Id> {
    set v | v in g.nodes && Descends(g.edges, u, v)
  }

  // ---------------------------------------------------------------- topological orders

  /** `order` lists every node once, and every predecessor before its successor. */
  ghost predicate TopologicalOrder(g: Graph, order: seq<Id>) {
    && Distinct(order)
    && Elems(order) == g.nodes
    && PredecessorsFirst(g, order)
  }

  ghost predicate PredecessorsFirst(g: Graph, order: seq<Id>) {
    forall i :: 0 <= i < |order| ==>
      order[i] in g.rev && forall u :: u in g.rev[order[i]] ==> u in order[..i]
  }

  lemma DistinctMiddle(a: seq<Id>, x: Id, b: seq<Id>)
    requires Distinct(a + [x] + b)
    ensures x !in a && x !in b
  {
    var s := a + [x] + b;
    assert s[|a|] == x;
    assert forall i :: 0 <= i < |a| ==> s[i] == a[i];
    assert forall i :: 0 <= i < |b| ==> b[i] == s[|a| + 1 + i];
  }

  /** Positions never decrease along a path. */
  lemma {:induction false} OrderPath(g: Graph, order: seq<Id>, p: seq<Id>, i: nat, j: nat)
    requires WellFormed(g) && TopologicalOrder(g, order)
    requires IsPath(g.edges, p) && 0 < |p| && i < |order| && p[0] == order[i]
    requires j < |order| && p[|p| - 1] == order[j]
    ensures i <= j && (|p| > 1 ==> i < j)
    decreases |p|
  {
    if |p| > 1 {
      var x, y := p[|p| - 2], p[|p| - 1];
      assert y in Succ(g.edges, x);
      MirrorMember(g, x, y);
      var k :| 0 <= k < j && order[k] == x;
      OrderPath(g, order, p[..|p| - 1], i, k);
    }
  }

  lemma OrderedIsAcyclic(g: Graph, order: seq<Id>)
    requires WellFormed(g) && TopologicalOrder(g, order)
    ensures Acyclic(g.edges)
  {
    forall v ensures !Descends(g.edges, v, v) {
      if Descends(g.edges, v, v) {
        DescendantsInside(g, v, v);
        var w :| w in Succ(g.edges, v) && Reaches(g.edges, w, v);
        var p :| PathBetween(g.edges, w, v, p);
        var q := [v] + p;
        assert v in order;
        var i :| 0 <= i < |order| && order[i] == v;
        OrderPath(g, order, q, i, i);
      }
    }
  }

  ghost predicate HasPredecessorIn(g: Graph, r: set<Id>, v: Id) {
    v in g.rev && exists u :: u in r && u in g.rev[v]
  }

  /** Walking backwards inside a set where everyone has a predecessor must close a cycle. */
  lemma {:induction false} WalkBack(g: Graph, r: set<Id>, path: seq<Id>)
    requires WellFormed(g) && r <= g.nodes
    requires forall v {:trigger HasPredecessorIn(g, r, v)} :: v in r ==> HasPredecessorIn(g, r, v)
    requires path != [] && IsPath(g.edges, path) && forall x :: x in path ==> x in r
    ensures !Acyclic(g.edges)
    decreases r - Elems(path)
  {
    assert HasPredecessorIn(g, r, path[0]);
    var u :| u in r && u in g.rev[path[0]];
    MirrorMember(g, u, path[0]);
    if u in path {
      var k :| 0 <= k < |path| && path[k] == u;
      assert PathBetween(g.edges, path[0], u, path[..k + 1]);
      assert path[0] in Succ(g.edges, u) && Reaches(g.edges, path[0], u);
      assert Descends(g.edges, u, u);
    } else {
      var longer := [u] + path;
      assert Elems(longer) == Elems(path) + {u};
      WalkBack(g, r, longer);
    }
  }

  /** In an acyclic graph, a set in which everyone has a predecessor is empty. */
  lemma Rootless(g: Graph, r: set<Id>)
    requires WellFormed(g) && Acyclic(g.edges) && r <= g.nodes
    requires forall v {:trigger HasPredecessorIn(g, r, v)} :: v in r ==> HasPredecessorIn(g, r, v)
    ensures r == {}
  {
    if v :| v in r {
      WalkBack(g, r, [v]);
    }
  }

  lemma {:induction false} ExtendOrder(g: Graph, order: seq<Id>) returns (full: seq<Id>)
    requires WellFormed(g) && Acyclic(g.edges)
    requires Distinct(order) && Elems(order) <= g.nodes && PredecessorsFirst(g, order)
    ensures TopologicalOrder(g, full)
    decreases g.nodes - Elems(order)
  {
    var rest := g.nodes - Elems(order);
    if v :| v in rest && !HasPredecessorIn(g, rest, v) {
      var longer := order + [v];
      assert Elems(longer) == Elems(order) + {v};
      forall i | 0 <= i < |longer| ensures longer[..i] == order[..i] {
      }
      full := ExtendOrder(g, longer);
    } else {
      Rootless(g, rest);
      assert g.nodes <= Elems(order) + rest;
      full := order;
    }
  }

  /** Every acyclic graph has a topological order. */
  lemma OrderExists(g: Graph) returns (order: seq<Id>)
    requires WellFormed(g) && Acyclic(g.edges)
    ensures TopologicalOrder(g, order)
  {
    order := ExtendOrder(g, []);
  }
}
