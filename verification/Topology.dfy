/**
 * The dependency graph of the monitors: validation by Kahn's algorithm, and the
 * breadth-first traversals that name upstreams, dependents and the cause of a down.
 */
module Topology {
  import opened Wrappers

  datatype Monitor = Monitor(id: string, name: string, dependsOn: Option<seq<string>>)

  datatype GraphError =
    | UnknownUpstream(monitor: string, dep: string)
    | CycleDetected

  /** A relation over monitor ids: `(a, b)` says that a step leads from `a` to `b`. */
  type Rel = set<(string, string)>

  /** The successor lists a traversal follows. */
  type Graph = map<string, seq<string>>

  function Deps(m: Monitor): seq<string> {
    match m.dependsOn
    case None => []
    case Some(deps) => deps
  }

  function Ids(monitors: seq<Monitor>): set<string> {
    set m | m in monitors :: m.id
  }

  /** `(m, u)`: the monitor `m` lists `u` in its `depends_on`. */
  ghost function DependsOn(monitors: seq<Monitor>): Rel {
    set m, u | m in monitors && u in Deps(m) :: (m.id, u)
  }

  ghost function Converse(r: Rel): Rel {
    set e | e in r :: (e.1, e.0)
  }

  /** Some walk of exactly `k` steps leads from `a` to `b`. */
  ghost predicate Walk(r: Rel, a: string, b: string, k: nat)
    decreases k
  {
    k > 0 && if k == 1 then (a, b) in r else exists mid :: Walk(r, a, mid, k - 1) && (mid, b) in r
  }

  ghost predicate Reaches(r: Rel, a: string, b: string) {
    exists k :: Walk(r, a, b, k)
  }

  ghost predicate Acyclic(r: Rel) {
    forall a :: !Reaches(r, a, a)
  }

  ghost predicate AllKnown(monitors: seq<Monitor>) {
    forall m, u :: m in monitors && u in Deps(m) ==> u in Ids(monitors)
  }

  // ---------------------------------------------------------------- walks

  lemma {:induction false} WalkPrepend(r: Rel, a: string, b: string, c: string, k: nat)
    requires (a, b) in r && Walk(r, b, c, k)
    ensures Walk(r, a, c, k + 1)
    decreases k
  {
    if k == 1 {
      assert Walk(r, a, b, 1);
    } else {
      var mid :| Walk(r, b, mid, k - 1) && (mid, c) in r;
      WalkPrepend(r, a, b, mid, k - 1);
    }
  }

  lemma {:induction false} WalkConverse(r: Rel, a: string, b: string, k: nat)
    requires Walk(r, a, b, k)
    ensures Walk(Converse(r), b, a, k)
    decreases k
  {
    if k > 1 {
      var mid :| Walk(r, a, mid, k - 1) && (mid, b) in r;
      WalkConverse(r, a, mid, k - 1);
      assert (b, mid) in Converse(r);
      WalkPrepend(Converse(r), b, mid, a, k - 1);
    } else {
      assert (b, a) in Converse(r);
    }
  }

  lemma ConverseTwice(r: Rel)
    ensures Converse(Converse(r)) == r
  {
    forall e | e in r ensures e in Converse(Converse(r)) {
      assert (e.1, e.0) in Converse(r);
    }
  }

  // ---------------------------------------------------------------- topological orders

  ghost predicate Distinct(s: seq<string>) {
    forall i, j :: 0 <= i < j < |s| ==> s[i] != s[j]
  }

  /** Every step from a listed node leads to a node listed strictly before it. */
  ghost predicate TopologicalOrder(r: Rel, order: seq<string>) {
    && Distinct(order)
    && forall i, u :: 0 <= i < |order| && (order[i], u) in r ==> u in order[..i]
  }

  lemma {:induction false} OrderedWalksDescend(r: Rel, order: seq<string>, i: nat, b: string, k: nat)
    requires TopologicalOrder(r, order) && i < |order| && Walk(r, order[i], b, k)
    ensures b in order[..i]
    decreases k
  {
    if k > 1 {
      var mid :| Walk(r, order[i], mid, k - 1) && (mid, b) in r;
      OrderedWalksDescend(r, order, i, mid, k - 1);
      var j :| 0 <= j < i && order[j] == mid;
      assert b in order[..j];
    }
  }

  lemma WalksEndInside(r: Rel, order: seq<string>, a: string, k: nat)
    requires forall e :: e in r ==> e.0 in order
    requires Walk(r, a, a, k)
    ensures a in order
  {
    if k > 1 {
      var mid :| Walk(r, a, mid, k - 1) && (mid, a) in r;
      FirstStep(r, a, mid, k - 1);
    }
  }

  lemma {:induction false} FirstStep(r: Rel, a: string, b: string, k: nat)
    requires Walk(r, a, b, k)
    ensures exists c :: (a, c) in r
    decreases k
  {
    if k > 1 {
      var mid :| Walk(r, a, mid, k - 1) && (mid, b) in r;
      FirstStep(r, a, mid, k - 1);
    }
  }

  /** A total topological order leaves no room for a cycle. */
  lemma OrderedIsAcyclic(r: Rel, order: seq<string>)
    requires TopologicalOrder(r, order)
    requires forall e :: e in r ==> e.0 in order
    ensures Acyclic(r)
  {
    forall a, k | Walk(r, a, a, k) ensures false {
      WalksEndInside(r, order, a, k);
      var i :| 0 <= i < |order| && order[i] == a;
      OrderedWalksDescend(r, order, i, a, k);
    }
  }

  // ---------------------------------------------------------------- cycles

  ghost predicate IsPath(r: Rel, p: seq<string>) {
    forall i :: 0 <= i < |p| - 1 ==> (p[i], p[i + 1]) in r
  }

  lemma {:induction false} PathWalk(r: Rel, p: seq<string>, i: nat, j: nat)
    requires IsPath(r, p) && i < j < |p|
    ensures Walk(r, p[i], p[j], j - i)
    decreases j
  {
    if j > i + 1 {
      PathWalk(r, p, i, j - 1);
      assert (p[j - 1], p[j]) in r;
    } else {
      assert (p[i], p[i + 1]) in r;
    }
  }

  lemma DistinctFits(p: seq<string>, s: set<string>)
    requires Distinct(p) && forall x :: x in p ==> x in s
    ensures |p| <= |s|
  {
    if p != [] {
      var last := p[|p| - 1];
      DistinctFits(p[..|p| - 1], s - {last});
    }
  }

  ghost predicate HasSuccessorIn(r: Rel, s: set<string>, x: string) {
    exists y :: y in s && (x, y) in r
  }

  /** Extend a path inside a set where everyone has a successor: it must bite its tail. */
  lemma {:induction false} StuckPathCloses(r: Rel, stuck: set<string>, p: seq<string>)
    requires forall x :: x in stuck ==> HasSuccessorIn(r, stuck, x)
    requires p != [] && Distinct(p) && IsPath(r, p) && forall x :: x in p ==> x in stuck
    ensures !Acyclic(r)
    decreases |stuck| - |p|
  {
    DistinctFits(p, stuck);
    assert p[|p| - 1] in stuck && HasSuccessorIn(r, stuck, p[|p| - 1]);
    var y :| y in stuck && (p[|p| - 1], y) in r;
    if y in p {
      var i :| 0 <= i < |p| && p[i] == y;
      PathWalk(r, p + [y], i, |p|);
      assert Reaches(r, y, y);
    } else {
      DistinctFits(p + [y], stuck);
      StuckPathCloses(r, stuck, p + [y]);
    }
  }

  lemma StuckIsCyclic(r: Rel, stuck: set<string>)
    requires stuck != {}
    requires forall x :: x in stuck ==> HasSuccessorIn(r, stuck, x)
    ensures !Acyclic(r)
  {
    var x :| x in stuck;
    StuckPathCloses(r, stuck, [x]);
  }

  // ---------------------------------------------------------------- Kahn's bookkeeping

  /** The listed edges `(upstream, dependent)`, duplicates included, in listing order. */
  type Edges = seq<(string, string)>

  ghost function EdgeSet(edges: Edges): Rel {
    set e | e in edges :: (e.1, e.0)
  }

  /** The dependents listed for the upstream `u`, in order. */
  ghost function TargetsOf(edges: Edges, u: string): seq<string> {
    if edges == [] then []
    else
      var e := edges[|edges| - 1];
      TargetsOf(edges[..|edges| - 1], u) + if e.0 == u then [e.1] else []
  }

  /** How many listed edges into `n` start at an upstream outside `done`. */
  ghost function Blocking(edges: Edges, n: string, done: set<string>): nat {
    if edges == [] then 0
    else
      var e := edges[|edges| - 1];
      Blocking(edges[..|edges| - 1], n, done) + if e.1 == n && e.0 !in done then 1 else 0
  }

  lemma {:induction false} BlockingAfter(edges: Edges, n: string, done: set<string>, u: string)
    requires u !in done
    ensures Blocking(edges, n, done) == Blocking(edges, n, done + {u}) + multiset(TargetsOf(edges, u))[n]
  {
    if edges != [] {
      BlockingAfter(edges[..|edges| - 1], n, done, u);
    }
  }

  lemma {:induction false} BlockingZero(edges: Edges, n: string, done: set<string>)
    ensures Blocking(edges, n, done) == 0 <==> forall e :: e in edges && e.1 == n ==> e.0 in done
  {
    if edges != [] {
      BlockingZero(edges[..|edges| - 1], n, done);
      assert edges == edges[..|edges| - 1] + [edges[|edges| - 1]];
    }
  }

  lemma {:induction false} TargetsAreEdges(edges: Edges, u: string)
    ensures forall n :: n in TargetsOf(edges, u) ==> (u, n) in edges
  {
    if edges != [] {
      TargetsAreEdges(edges[..|edges| - 1], u);
      assert edges == edges[..|edges| - 1] + [edges[|edges| - 1]];
    }
  }

  function Successors(g: Graph, n: string): (s: seq<string>)
  {
    if n in g then g[n] else []
  }

  function Degree(inDegree: map<string, nat>, n: string): nat {
    if n in inDegree then inDegree[n] else 0
  }

  /** The maps mirror the listed edges. */
  ghost predicate Mirrors(edges: Edges, adj: Graph, inDegree: map<string, nat>) {
    && (forall u :: Successors(adj, u) == TargetsOf(edges, u))
    && (forall n :: Degree(inDegree, n) == Blocking(edges, n, {}))
  }

  lemma MirrorsTouch(edges: Edges, adj: Graph, inDegree: map<string, nat>, n: string)
    requires Mirrors(edges, adj, inDegree)
    ensures n !in inDegree ==> Mirrors(edges, adj, inDegree[n := 0])
  {
    if n !in inDegree {
      forall v ensures Degree(inDegree[n := 0], v) == Blocking(edges, v, {}) {
        assert Degree(inDegree, v) == Blocking(edges, v, {});
      }
    }
  }

  lemma MirrorsExtend(edges: Edges, adj: Graph, inDegree: map<string, nat>, u: string, n: string)
    requires Mirrors(edges, adj, inDegree)
    ensures Mirrors(edges + [(u, n)], adj[u := Successors(adj, u) + [n]], inDegree[n := Degree(inDegree, n) + 1])
  {
    var edges', adj' := edges + [(u, n)], adj[u := Successors(adj, u) + [n]];
    assert edges'[..|edges|] == edges && edges'[|edges|] == (u, n);
    forall v ensures Successors(adj', v) == TargetsOf(edges', v) {
      assert Successors(adj, v) == TargetsOf(edges, v);
      assert TargetsOf(edges', v) == TargetsOf(edges, v) + if u == v then [n] else [];
    }
    forall v ensures Degree(inDegree[n := Degree(inDegree, n) + 1], v) == Blocking(edges', v, {}) {
      assert Blocking(edges', v, {}) == Blocking(edges, v, {}) + if n == v then 1 else 0;
    }
  }

  /** The dependencies of the first `i` monitors and the first `j` of the next one are all known. */
  ghost predicate KnownUpTo(monitors: seq<Monitor>, i: nat, j: nat)
    requires i <= |monitors|
  {
    && (forall m, u :: m in monitors[..i] && u in Deps(m) ==> u in Ids(monitors))
    && (i < |monitors| ==> j <= |Deps(monitors[i])| && forall u :: u in Deps(monitors[i])[..j] ==> u in Ids(monitors))
  }

  lemma FoundUnknown(monitors: seq<Monitor>, i: nat, j: nat)
    requires i < |monitors| && j < |Deps(monitors[i])| && KnownUpTo(monitors, i, j)
    requires Deps(monitors[i])[j] !in Ids(monitors)
    ensures FirstUnknown(monitors, monitors[i].id, Deps(monitors[i])[j])
  {
  }

  lemma KnownStep(monitors: seq<Monitor>, i: nat, j: nat)
    requires i < |monitors| && j < |Deps(monitors[i])| && KnownUpTo(monitors, i, j)
    requires Deps(monitors[i])[j] in Ids(monitors)
    ensures KnownUpTo(monitors, i, j + 1)
  {
    var deps := Deps(monitors[i]);
    assert deps[..j + 1] == deps[..j] + [deps[j]];
  }

  lemma KnownNext(monitors: seq<Monitor>, i: nat)
    requires i < |monitors| && KnownUpTo(monitors, i, |Deps(monitors[i])|)
    ensures KnownUpTo(monitors, i + 1, 0)
  {
    var deps := Deps(monitors[i]);
    assert deps[..|deps|] == deps;
    assert monitors[..i + 1] == monitors[..i] + [monitors[i]];
    if i + 1 < |monitors| {
      assert Deps(monitors[i + 1])[..0] == [];
    }
  }

  /** `(m, u)` is the first dependency, in configuration order, that is not a configured id. */
  ghost predicate FirstUnknown(monitors: seq<Monitor>, m: string, u: string) {
    exists i, j ::
      && 0 <= i < |monitors| && 0 <= j < |Deps(monitors[i])|
      && KnownUpTo(monitors, i, j)
      && m == monitors[i].id && u == Deps(monitors[i])[j] && u !in Ids(monitors)
  }

  /** The edges listed by the first `i` monitors and the first `j` dependencies of the next. */
  ghost predicate Lists(edges: Edges, monitors: seq<Monitor>, i: nat, j: nat)
    requires i <= |monitors|
  {
    && (i < |monitors| ==> j <= |Deps(monitors[i])|)
    && forall e :: e in edges <==>
      || (exists m :: m in monitors[..i] && m.id == e.1 && e.0 in Deps(m))
      || (i < |monitors| && monitors[i].id == e.1 && e.0 in Deps(monitors[i])[..j])
  }

  lemma ListsStep(edges: Edges, monitors: seq<Monitor>, i: nat, j: nat)
    requires i < |monitors| && j < |Deps(monitors[i])| && Lists(edges, monitors, i, j)
    ensures Lists(edges + [(Deps(monitors[i])[j], monitors[i].id)], monitors, i, j + 1)
  {
    var deps := Deps(monitors[i]);
    assert deps[..j + 1] == deps[..j] + [deps[j]];
  }

  lemma ListsNext(edges: Edges, monitors: seq<Monitor>, i: nat)
    requires i < |monitors| && Lists(edges, monitors, i, |Deps(monitors[i])|)
    ensures Lists(edges, monitors, i + 1, 0)
  {
    assert monitors[..i + 1] == monitors[..i] + [monitors[i]];
    assert Deps(monitors[i])[..|Deps(monitors[i])|] == Deps(monitors[i]);
    if i + 1 < |monitors| {
      assert Deps(monitors[i + 1])[..0] == [];
    }
    forall e ensures e in edges <==> exists m :: m in monitors[..i + 1] && m.id == e.1 && e.0 in Deps(m) {
      if e in edges && !exists m :: m in monitors[..i] && m.id == e.1 && e.0 in Deps(m) {
        assert monitors[i] in monitors[..i + 1];
      }
    }
  }

  lemma ListedAll(edges: Edges, monitors: seq<Monitor>)
    requires Lists(edges, monitors, |monitors|, 0)
    ensures EdgeSet(edges) == DependsOn(monitors)
  {
    assert monitors[..|monitors|] == monitors;
    forall e | e in DependsOn(monitors) ensures e in EdgeSet(edges) {
      assert (e.1, e.0) in edges;
    }
  }

  // ---------------------------------------------------------------- validation

  /**
   * `validate_dag`: the first unknown upstream in configuration order is an error,
   * then a cycle is one.
   */
  method ValidateDag(monitors: seq<Monitor>) returns (r: Result<(), GraphError>)
    ensures r.Success? <==> AllKnown(monitors) && Acyclic(DependsOn(monitors))
    ensures r == Failure(CycleDetected) <==> AllKnown(monitors) && !Acyclic(DependsOn(monitors))
    ensures r.Failure? && r.error.UnknownUpstream? ==> FirstUnknown(monitors, r.error.monitor, r.error.dep)
  {
    var ids := Ids(monitors);
    var inDegree: map<string, nat> := map[];
    var adj: Graph := map[];
    ghost var edges: Edges := [];
    for i := 0 to |monitors|
      invariant KnownUpTo(monitors, i, 0)
      invariant Lists(edges, monitors, i, 0)
      invariant Mirrors(edges, adj, inDegree)
      invariant inDegree.Keys == Ids(monitors[..i])
    {
      var unknown;
      inDegree, adj, edges, unknown := ListMonitor(monitors, i, ids, inDegree, adj, edges);
      if unknown.Some? {
        return Failure(UnknownUpstream(monitors[i].id, unknown.value));
      }
    }
    assert monitors[..|monitors|] == monitors;
    ListedAll(edges, monitors);
    assert forall e :: e in edges ==> e.0 in ids && e.1 in ids by {
      forall e | e in edges ensures e.0 in ids && e.1 in ids {
        assert (e.1, e.0) in EdgeSet(edges);
      }
    }
    var visited := CountOrdered(adj, inDegree, ids, edges);
    if visited != |ids| {
      return Failure(CycleDetected);
    }
    return Success(());
  }

  /** One round of the listing loop: an entry for the monitor, then one edge per dependency. */
  method ListMonitor(monitors: seq<Monitor>, i: nat, ids: set<string>,
                     inDegree0: map<string, nat>, adj0: Graph, ghost edges0: Edges)
    returns (inDegree: map<string, nat>, adj: Graph, ghost edges: Edges, unknown: Option<string>)
    requires i < |monitors| && ids == Ids(monitors)
    requires KnownUpTo(monitors, i, 0) && Lists(edges0, monitors, i, 0)
    requires Mirrors(edges0, adj0, inDegree0) && inDegree0.Keys == Ids(monitors[..i])
    ensures unknown.Some? ==> FirstUnknown(monitors, monitors[i].id, unknown.value)
    ensures unknown.None? ==> KnownUpTo(monitors, i + 1, 0) && Lists(edges, monitors, i + 1, 0)
    ensures Mirrors(edges, adj, inDegree)
    ensures unknown.None? ==> inDegree.Keys == Ids(monitors[..i + 1])
  {
    hide KnownUpTo, Lists, Mirrors, FirstUnknown;
    inDegree, adj, edges := inDegree0, adj0, edges0;
    var monitor := monitors[i];
    MirrorsTouch(edges, adj, inDegree, monitor.id);
    if monitor.id !in inDegree {
      inDegree := inDegree[monitor.id := 0];
    }
    assert monitors[..i + 1] == monitors[..i] + [monitor];
    assert inDegree.Keys == Ids(monitors[..i + 1]);
    var deps := Deps(monitor);
    for j := 0 to |deps|
      invariant KnownUpTo(monitors, i, j)
      invariant Lists(edges, monitors, i, j)
      invariant Mirrors(edges, adj, inDegree)
      invariant inDegree.Keys == Ids(monitors[..i + 1])
    {
      var dep := deps[j];
      if dep !in ids {
        FoundUnknown(monitors, i, j);
        return inDegree, adj, edges, Some(dep);
      }
      MirrorsExtend(edges, adj, inDegree, dep, monitor.id);
      ListsStep(edges, monitors, i, j);
      KnownStep(monitors, i, j);
      adj := adj[dep := Successors(adj, dep) + [monitor.id]];
      inDegree := inDegree[monitor.id := Degree(inDegree, monitor.id) + 1];
      edges := edges + [(dep, monitor.id)];
    }
    ListsNext(edges, monitors, i);
    KnownNext(monitors, i);
    unknown := None;
  }

  /** The ids nothing blocks, in an unspecified order (a hash map's). */
  method Unblocked(inDegree: map<string, nat>) returns (queue: seq<string>)
    ensures Distinct(queue)
    ensures forall n :: n in queue <==> n in inDegree && inDegree[n] == 0
  {
    queue := [];
    var rest := inDegree.Keys;
    while rest != {}
      invariant rest <= inDegree.Keys
      invariant Distinct(queue)
      invariant forall n :: n in queue <==> n in inDegree && n !in rest && inDegree[n] == 0
      decreases rest
    {
      var n :| n in rest;
      rest := rest - {n};
      if inDegree[n] == 0 {
        queue := queue + [n];
      }
    }
  }

  /** The state of Kahn's loop between two dequeues. */
  ghost predicate KahnInvariant(edges: Edges, ids: set<string>, inDegree: map<string, nat>, queue: seq<string>,
                                order: seq<string>)
  {
    && inDegree.Keys == ids
    && Distinct(order + queue)
    && (forall n :: n in order + queue <==> n in ids && inDegree[n] == 0)
    && (forall n :: n in ids ==> inDegree[n] == Blocking(edges, n, set x | x in order))
    && TopologicalOrder(EdgeSet(edges), order)
  }

  lemma QueuedAreFree(edges: Edges, ids: set<string>, inDegree: map<string, nat>, queue: seq<string>,
                      order: seq<string>)
    requires KahnInvariant(edges, ids, inDegree, queue, order) && queue != []
    ensures TopologicalOrder(EdgeSet(edges), order + [queue[0]])
    ensures queue[0] !in order && queue[0] in ids && inDegree[queue[0]] == 0
    ensures (set x | x in order + [queue[0]]) == (set x | x in order) + {queue[0]}
  {
    var node := queue[0];
    assert (order + queue)[|order|] == node;
    assert node !in order by {
      forall i | 0 <= i < |order| ensures order[i] != node {
        assert (order + queue)[i] == order[i];
      }
    }
    var done := set x | x in order;
    BlockingZero(edges, node, done);
    var next := order + [node];
    forall i, u | 0 <= i < |next| && (next[i], u) in EdgeSet(edges) ensures u in next[..i] {
      assert (u, next[i]) in edges;
      if i < |order| {
        assert next[..i] == order[..i];
      } else {
        assert next[..i] == order;
      }
    }
  }

  /** The second half of `validate_dag`: dequeue, release the dependents, count. */
  method CountOrdered(adj: Graph, inDegree0: map<string, nat>, ids: set<string>, ghost edges: Edges)
    returns (visited: nat)
    requires Mirrors(edges, adj, inDegree0) && inDegree0.Keys == ids
    requires forall e :: e in edges ==> e.0 in ids && e.1 in ids
    ensures visited == |ids| <==> Acyclic(EdgeSet(edges))
  {
    var inDegree := inDegree0;
    var queue := Unblocked(inDegree);
    ghost var order: seq<string> := [];
    visited := 0;
    assert order + queue == queue;
    assert (set x | x in order) == {};
    while queue != []
      invariant KahnInvariant(edges, ids, inDegree, queue, order)
      invariant visited == |order|
      decreases ids - set x | x in order
    {
      QueuedAreFree(edges, ids, inDegree, queue, order);
      ghost var done := set x | x in order;
      var node := queue[0];
      assert order + queue == order + [node] + queue[1..];
      queue := queue[1..];
      order := order + [node];
      visited := visited + 1;
      forall n | n in ids
        ensures inDegree[n] == Blocking(edges, n, done + {node}) + multiset(Successors(adj, node))[n]
      {
        BlockingAfter(edges, n, done, node);
      }
      TargetsAreEdges(edges, node);
      inDegree, queue := ReleaseDependents(Successors(adj, node), inDegree, queue, order, done + {node}, ids, edges);
    }
    assert order + queue == order;
    ConcludeKahn(edges, ids, inDegree, order);
  }

  /** The inner loop: one decrement per listed edge, and a dependent is queued when its last one goes. */
  method ReleaseDependents(neighbors: seq<string>, inDegree0: map<string, nat>, queue0: seq<string>,
                           ghost order: seq<string>, ghost done: set<string>, ghost ids: set<string>,
                             ghost edges: Edges)
    returns (inDegree: map<string, nat>, queue: seq<string>)
    requires inDegree0.Keys == ids && forall n :: n in neighbors ==> n in ids
    requires forall n :: n in ids ==> inDegree0[n] == Blocking(edges, n, done) + multiset(neighbors)[n]
    requires Distinct(order + queue0)
    requires forall n :: n in order + queue0 <==> n in ids && inDegree0[n] == 0
    ensures inDegree.Keys == ids
    ensures forall n :: n in ids ==> inDegree[n] == Blocking(edges, n, done)
    ensures Distinct(order + queue)
    ensures forall n :: n in order + queue <==> n in ids && inDegree[n] == 0
  {
    hide Blocking;
    inDegree, queue := inDegree0, queue0;
    for j := 0 to |neighbors|
      invariant inDegree.Keys == ids
      invariant forall n :: n in ids ==> inDegree[n] == Blocking(edges, n, done) + multiset(neighbors[j..])[n]
      invariant Distinct(order + queue)
      invariant forall n :: n in order + queue <==> n in ids && inDegree[n] == 0
    {
      var next := neighbors[j];
      assert neighbors[j..] == [next] + neighbors[j + 1..];
      assert inDegree[next] > 0;
      assert next !in order + queue;
      var degree := if inDegree[next] > 0 then inDegree[next] - 1 else 0;
      inDegree := inDegree[next := degree];
      if degree == 0 {
        assert order + (queue + [next]) == (order + queue) + [next];
        queue := queue + [next];
      }
    }
    assert neighbors[|neighbors|..] == [];
  }

  lemma ConcludeKahn(edges: Edges, ids: set<string>, inDegree: map<string, nat>, order: seq<string>)
    requires KahnInvariant(edges, ids, inDegree, [], order)
    requires forall e :: e in edges ==> e.0 in ids && e.1 in ids
    ensures |order| == |ids| <==> Acyclic(EdgeSet(edges))
  {
    assert order + [] == order;
    var done := set x | x in order;
    DistinctCount(order);
    if done == ids {
      OrderedIsAcyclic(EdgeSet(edges), order);
    } else {
      ProperSubsetSmaller(done, ids);
      var stuck := ids - done;
      assert stuck != {} by {
        var x :| x in ids && x !in done;
        assert x in stuck;
      }
      forall x | x in stuck ensures HasSuccessorIn(EdgeSet(edges), stuck, x) {
        BlockingZero(edges, x, done);
        var e :| e in edges && e.1 == x && e.0 !in done;
        assert (x, e.0) in EdgeSet(edges);
      }
      StuckIsCyclic(EdgeSet(edges), stuck);
    }
  }

  lemma DistinctCount(s: seq<string>)
    requires Distinct(s)
    ensures |set x | x in s| == |s|
  {
    if s != [] {
      var front, last := s[..|s| - 1], s[|s| - 1];
      DistinctCount(front);
      assert (set x | x in s) == (set x | x in front) + {last};
    }
  }

  lemma ProperSubsetSmaller(a: set<string>, b: set<string>)
    requires a <= b && a != b
    ensures |a| < |b|
  {
    var x :| x in b && x !in a;
    assert b == a + (b - a);
  }

  // ---------------------------------------------------------------- traversal

  /** The steps a successor map allows. */
  ghost function Steps(g: Graph): Rel {
    set n, t | n in g && t in g[n] :: (n, t)
  }

  /** Every walk from `start` to `b` is at least as long as some walk to `a`. */
  ghost predicate NoFarther(r: Rel, start: string, a: string, b: string) {
    forall k :: Walk(r, start, b, k) ==> exists j :: j <= k && Walk(r, start, a, j)
  }

  /**
   * What a breadth-first search from `start` lists: what it reaches in one or
   * more steps, each once, the nearest first.
   */
  ghost predicate NearestFirst(r: Rel, start: string, result: seq<string>) {
    && Distinct(result)
    && (forall n :: n in result <==> Reaches(r, start, n))
    && (forall i, j :: 0 <= i < j < |result| ==> NoFarther(r, start, result[i], result[j]))
  }

  /** `d` is the length of a shortest walk from `start` to `n`. */
  ghost predicate IsDistance(r: Rel, start: string, n: string, d: nat) {
    Walk(r, start, n, d) && forall k :: Walk(r, start, n, k) ==> d <= k
  }

  /** A successor of an expanded node at depth `d` is listed by then, or queued to be. */
  ghost predicate Discovered(queue: seq<string>, depths: seq<nat>, depthOf: map<string, nat>, n: string, d: nat)
    requires |queue| == |depths|
  {
    || (n in depthOf && depthOf[n] <= d)
    || exists i :: 0 <= i < |queue| && queue[i] == n && depths[i] <= d
  }

  /** The queue: every entry at the end of a walk of its depth, depths ascending and at most one apart. */
  ghost predicate Frontier(r: Rel, start: string, queue: seq<string>, depths: seq<nat>) {
    && |queue| == |depths|
    && (forall i :: 0 <= i < |queue| ==> Walk(r, start, queue[i], depths[i]))
    && (forall i, j :: 0 <= i < j < |queue| ==> depths[i] <= depths[j])
    && (forall j :: 0 <= j < |queue| ==> depths[j] <= depths[0] + 1)
  }

  /** The nodes listed so far, with their distances, none deeper than `limit`. */
  ghost predicate Listed(r: Rel, start: string, result: seq<string>, depthOf: map<string, nat>) {
    && Distinct(result)
    && (forall n :: n in result <==> n in depthOf)
    && (forall n :: n in depthOf ==> IsDistance(r, start, n, depthOf[n]))
    && (forall i, j :: 0 <= i < j < |result| ==> depthOf[result[i]] <= depthOf[result[j]])
  }

  /** Everything one step away from the start or from a listed node is listed or queued. */
  ghost predicate Covered(g: Graph, start: string, queue: seq<string>, depths: seq<nat>, depthOf: map<string, nat>)
    requires |queue| == |depths|
  {
    && (forall n :: n in Successors(g, start) ==> Discovered(queue, depths, depthOf, n, 1))
    && (forall v, n :: v in depthOf && n in Successors(g, v) ==> Discovered(queue, depths, depthOf, n, depthOf[v] + 1))
  }

  /** The state of the search between two dequeues; `depths` annotates the queue, `depthOf` the listed nodes. */
  ghost predicate BfsInvariant(g: Graph, start: string, queue: seq<string>, result: seq<string>,
                               depths: seq<nat>, depthOf: map<string, nat>)
  {
    && Frontier(Steps(g), start, queue, depths)
    && Listed(Steps(g), start, result, depthOf)
    && Covered(g, start, queue, depths, depthOf)
    && (forall n :: n in depthOf && queue != [] ==> depthOf[n] <= depths[0])
  }

  /** Any walk is caught up with: its end is listed by then, or something queued is no deeper. */
  lemma {:induction false} WalksAreCovered(g: Graph, start: string, queue: seq<string>, result: seq<string>,
                                           depths: seq<nat>, depthOf: map<string, nat>, n: string, k: nat)
    requires BfsInvariant(g, start, queue, result, depths, depthOf) && Walk(Steps(g), start, n, k)
    ensures (n in depthOf && depthOf[n] <= k) || (queue != [] && depths[0] <= k)
    decreases k
  {
    if k == 1 {
      assert n in Successors(g, start);
      assert Discovered(queue, depths, depthOf, n, 1);
    } else {
      var mid :| Walk(Steps(g), start, mid, k - 1) && (mid, n) in Steps(g);
      WalksAreCovered(g, start, queue, result, depths, depthOf, mid, k - 1);
      if mid in depthOf && depthOf[mid] <= k - 1 {
        assert n in Successors(g, mid);
        assert Discovered(queue, depths, depthOf, n, depthOf[mid] + 1);
      }
    }
  }

  /** `bfs`: the queue-driven search, which lists a node when it is first taken off the queue. */
  method Bfs(g: Graph, start: string) returns (result: seq<string>)
    ensures NearestFirst(Steps(g), start, result)
  {
    var visited: set<string> := {};
    result := [];
    var queue := Successors(g, start);
    ghost var depths: seq<nat> := seq(|queue|, i => 1);
    ghost var depthOf: map<string, nat> := map[];
    ghost var universe := set n, t | n in g && t in g[n] :: t;
    InitialFrontier(g, start);
    while queue != []
      invariant BfsInvariant(g, start, queue, result, depths, depthOf)
      invariant visited == depthOf.Keys
      invariant visited <= universe && forall n :: n in queue ==> n in universe
      decreases universe - visited, |queue|
    {
      var node := queue[0];
      ghost var was := queue;
      queue := queue[1..];
      if node !in visited {
        Expand(g, start, was, result, depths, depthOf);
        depthOf := depthOf[node := depths[0]];
        depths := depths[1..] + seq(|Successors(g, node)|, i => depths[0] + 1);
        assert node in universe - visited;
        visited := visited + {node};
        result := result + [node];
        queue := queue + Successors(g, node);
      } else {
        Skip(g, start, was, result, depths, depthOf);
        depths := depths[1..];
      }
    }
    ConcludeBfs(g, start, result, depths, depthOf);
  }

  lemma ConcludeBfs(g: Graph, start: string, result: seq<string>, depths: seq<nat>, depthOf: map<string, nat>)
    requires BfsInvariant(g, start, [], result, depths, depthOf)
    ensures NearestFirst(Steps(g), start, result)
  {
    forall n ensures n in result <==> Reaches(Steps(g), start, n) {
      forall k | Walk(Steps(g), start, n, k) ensures n in result {
        WalksAreCovered(g, start, [], result, depths, depthOf, n, k);
      }
    }
    forall i, j | 0 <= i < j < |result| ensures NoFarther(Steps(g), start, result[i], result[j]) {
      assert depthOf[result[i]] <= depthOf[result[j]];
    }
  }

  lemma InitialFrontier(g: Graph, start: string)
    ensures BfsInvariant(g, start, Successors(g, start), [], seq(|Successors(g, start)|, i => 1), map[])
  {
    var queue := Successors(g, start);
    var depths: seq<nat> := seq(|queue|, i => 1);
    forall i | 0 <= i < |queue| ensures Walk(Steps(g), start, queue[i], depths[i]) {
      assert (start, queue[i]) in Steps(g);
    }
    forall n | n in Successors(g, start) ensures Discovered(queue, depths, map[], n, 1) {
      var i :| 0 <= i < |queue| && queue[i] == n;
    }
  }

  lemma Skip(g: Graph, start: string, queue: seq<string>, result: seq<string>,
             depths: seq<nat>, depthOf: map<string, nat>)
    requires BfsInvariant(g, start, queue, result, depths, depthOf) && queue != [] && queue[0] in depthOf
    ensures BfsInvariant(g, start, queue[1..], result, depths[1..], depthOf)
  {
    forall n, d: nat | Discovered(queue, depths, depthOf, n, d)
      ensures Discovered(queue[1..], depths[1..], depthOf, n, d) {
      if !(n in depthOf && depthOf[n] <= d) {
        var i :| 0 <= i < |queue| && queue[i] == n && depths[i] <= d;
        assert queue[1..][i - 1] == n && depths[1..][i - 1] <= d;
      }
    }
  }

  lemma WalkAppend(r: Rel, a: string, b: string, c: string, k: nat)
    requires Walk(r, a, b, k) && (b, c) in r
    ensures Walk(r, a, c, k + 1)
  {
  }

  lemma ExtendFrontier(r: Rel, start: string, queue: seq<string>, depths: seq<nat>, next: seq<string>)
    requires Frontier(r, start, queue, depths) && queue != [] && forall n :: n in next ==> (queue[0], n) in r
    ensures Frontier(r, start, queue[1..] + next, depths[1..] + seq(|next|, i => depths[0] + 1))
  {
    var queue', depths' := queue[1..] + next, depths[1..] + seq(|next|, i => depths[0] + 1);
    assert forall i :: 0 <= i < |queue'| ==> depths'[i] == if i < |queue| - 1 then depths[i + 1] else depths[0] + 1;
    forall i | 0 <= i < |queue'| ensures Walk(r, start, queue'[i], depths'[i]) {
      if i < |queue| - 1 {
        assert queue'[i] == queue[i + 1] && depths'[i] == depths[i + 1];
        assert Walk(r, start, queue[i + 1], depths[i + 1]);
      } else {
        assert queue'[i] == next[i - (|queue| - 1)];
        WalkAppend(r, start, queue[0], queue'[i], depths[0]);
      }
    }
  }

  lemma ExtendCovered(g: Graph, start: string, queue: seq<string>, depths: seq<nat>, depthOf: map<string, nat>)
    requires |queue| == |depths| && Covered(g, start, queue, depths, depthOf) && queue != [] && queue[0] !in depthOf
    ensures Covered(g, start, queue[1..] + Successors(g, queue[0]),
                    depths[1..] + seq(|Successors(g, queue[0])|, i => depths[0] + 1), depthOf[queue[0] := depths[0]])
  {
    var node, depth, next := queue[0], depths[0], Successors(g, queue[0]);
    var queue', depths' := queue[1..] + next, depths[1..] + seq(|next|, i => depth + 1);
    var depthOf' := depthOf[node := depth];
    forall n, d: nat | Discovered(queue, depths, depthOf, n, d) ensures Discovered(queue', depths', depthOf', n, d) {
      if !(n in depthOf && depthOf[n] <= d) {
        var i :| 0 <= i < |queue| && queue[i] == n && depths[i] <= d;
        if i > 0 {
          assert queue'[i - 1] == n && depths'[i - 1] <= d;
        }
      }
    }
    forall n | n in next ensures Discovered(queue', depths', depthOf', n, depth + 1) {
      var i :| 0 <= i < |next| && next[i] == n;
      assert queue'[|queue| - 1 + i] == n && depths'[|queue| - 1 + i] == depth + 1;
    }
  }

  /** Listing the head of the queue at its depth and queueing its successors one deeper keeps the invariant. */
  lemma Expand(g: Graph, start: string, queue: seq<string>, result: seq<string>,
               depths: seq<nat>, depthOf: map<string, nat>)
    requires BfsInvariant(g, start, queue, result, depths, depthOf) && queue != [] && queue[0] !in depthOf
    ensures BfsInvariant(g, start, queue[1..] + Successors(g, queue[0]), result + [queue[0]],
                         depths[1..] + seq(|Successors(g, queue[0])|, i => depths[0] + 1),
                           depthOf[queue[0] := depths[0]])
  {
    hide Covered, Walk, Discovered, Successors;
    var node, next := queue[0], Successors(g, queue[0]);
    HeadIsNearest(g, start, queue, result, depths, depthOf);
    SuccessorsAreSteps(g, node);
    ExtendFrontier(Steps(g), start, queue, depths, next);
    ExtendCovered(g, start, queue, depths, depthOf);
    ExtendListed(Steps(g), start, result, depthOf, node, depths[0]);
    var depths' := depths[1..] + seq(|next|, i => depths[0] + 1);
    assert depths' != [] ==> depths'[0] >= depths[0];
  }

  lemma HeadIsNearest(g: Graph, start: string, queue: seq<string>, result: seq<string>,
                      depths: seq<nat>, depthOf: map<string, nat>)
    requires BfsInvariant(g, start, queue, result, depths, depthOf) && queue != [] && queue[0] !in depthOf
    ensures IsDistance(Steps(g), start, queue[0], depths[0])
  {
    forall k | Walk(Steps(g), start, queue[0], k) ensures depths[0] <= k {
      WalksAreCovered(g, start, queue, result, depths, depthOf, queue[0], k);
    }
  }

  lemma SuccessorsAreSteps(g: Graph, n: string)
    ensures forall t :: t in Successors(g, n) ==> (n, t) in Steps(g)
  {
  }

  lemma ExtendListed(r: Rel, start: string, result: seq<string>, depthOf: map<string, nat>, node: string, depth: nat)
    requires Listed(r, start, result, depthOf) && node !in depthOf && IsDistance(r, start, node, depth)
    requires forall n :: n in depthOf ==> depthOf[n] <= depth
    ensures Listed(r, start, result + [node], depthOf[node := depth])
  {
    hide IsDistance;
    var result', depthOf' := result + [node], depthOf[node := depth];
    assert forall i :: 0 <= i < |result| ==> result[i] in result && result[i] in depthOf;
  }

  // ---------------------------------------------------------------- upstreams, dependents, cause

  ghost predicate UniqueIds(monitors: seq<Monitor>) {
    forall i, j :: 0 <= i < j < |monitors| ==> monitors[i].id != monitors[j].id
  }

  /** `transitive_upstreams`: the search along `depends_on`. */
  method TransitiveUpstreams(monitors: seq<Monitor>, id: string) returns (result: seq<string>)
    requires UniqueIds(monitors)
    ensures NearestFirst(DependsOn(monitors), id, result)
  {
    var upstreams: Graph := map[];
    for i := 0 to |monitors|
      invariant upstreams.Keys <= Ids(monitors[..i])
      invariant Steps(upstreams) == DependsOn(monitors[..i])
    {
      var m := monitors[i];
      assert monitors[..i + 1] == monitors[..i] + [m];
      assert m.id !in Ids(monitors[..i]);
      ghost var was := upstreams;
      if m.dependsOn.Some? {
        upstreams := upstreams[m.id := m.dependsOn.value];
      }
      DependsOnNext(monitors[..i], m);
      assert Steps(upstreams) == Steps(was) + set u | u in Deps(m) :: (m.id, u);
    }
    assert monitors[..|monitors|] == monitors;
    result := Bfs(upstreams, id);
  }

  lemma DependsOnNext(monitors: seq<Monitor>, m: Monitor)
    ensures DependsOn(monitors + [m]) == DependsOn(monitors) + set u | u in Deps(m) :: (m.id, u)
  {
    forall e | e in DependsOn(monitors) + set u | u in Deps(m) :: (m.id, u) ensures e in DependsOn(monitors + [m]) {
      if e in DependsOn(monitors) {
        var x :| x in monitors && x.id == e.0 && e.1 in Deps(x);
        assert x in monitors + [m];
      } else {
        assert m in monitors + [m];
      }
    }
  }

  /** `transitive_dependents`: the search along `depends_on` turned around. */
  method TransitiveDependents(monitors: seq<Monitor>, id: string) returns (result: seq<string>)
    ensures NearestFirst(Converse(DependsOn(monitors)), id, result)
  {
    var downstreams: Graph := map[];
    for i := 0 to |monitors|
      invariant Steps(downstreams) == Converse(DependsOn(monitors[..i]))
    {
      var m := monitors[i];
      assert monitors[..i + 1] == monitors[..i] + [m];
      DependsOnNext(monitors[..i], m);
      var deps := Deps(m);
      for j := 0 to |deps|
        invariant Steps(downstreams) == Converse(DependsOn(monitors[..i])) + set u | u in deps[..j] :: (u, m.id)
      {
        assert deps[..j + 1] == deps[..j] + [deps[j]];
        StepsAdd(downstreams, deps[j], m.id);
        downstreams := downstreams[deps[j] := Successors(downstreams, deps[j]) + [m.id]];
      }
      assert deps[..|deps|] == deps;
      ConverseAdd(DependsOn(monitors[..i]), m.id, deps);
    }
    assert monitors[..|monitors|] == monitors;
    result := Bfs(downstreams, id);
  }

  lemma StepsAdd(g: Graph, n: string, t: string)
    ensures Steps(g[n := Successors(g, n) + [t]]) == Steps(g) + {(n, t)}
  {
    var g' := g[n := Successors(g, n) + [t]];
    assert t in g'[n];
  }

  lemma ConverseAdd(r: Rel, m: string, deps: seq<string>)
    ensures Converse(r + set u | u in deps :: (m, u)) == Converse(r) + set u | u in deps :: (u, m)
  {
    var added := set u | u in deps :: (m, u);
    forall e | e in Converse(r) + set u | u in deps :: (u, m) ensures e in Converse(r + added) {
      assert (e.1, e.0) in r + added;
    }
  }

  lemma ReachesConverse(r: Rel, a: string, b: string)
    ensures Reaches(r, a, b) <==> Reaches(Converse(r), b, a)
  {
    forall k | Walk(r, a, b, k) ensures Reaches(Converse(r), b, a) {
      WalkConverse(r, a, b, k);
    }
    forall k | Walk(Converse(r), b, a, k) ensures Reaches(r, a, b) {
      WalkConverse(Converse(r), b, a, k);
      ConverseTwice(r);
    }
  }

  /** `u` is listed among `m`'s upstreams exactly when `m` is listed among `u`'s dependents. */
  lemma UpstreamsMirrorDependents(monitors: seq<Monitor>, m: string, u: string, upstreams: seq<string>,
                                  dependents: seq<string>)
    requires NearestFirst(DependsOn(monitors), m, upstreams)
    requires NearestFirst(Converse(DependsOn(monitors)), u, dependents)
    ensures u in upstreams <==> m in dependents
  {
    ReachesConverse(DependsOn(monitors), m, u);
  }

  /** On a graph that passed validation, nothing is its own upstream, and being upstream goes one way only. */
  lemma ValidatedUpstreamsAreStrict(monitors: seq<Monitor>, m: string, u: string, ofM: seq<string>, ofU: seq<string>)
    requires Acyclic(DependsOn(monitors))
    requires NearestFirst(DependsOn(monitors), m, ofM) && NearestFirst(DependsOn(monitors), u, ofU)
    ensures m !in ofM
    ensures u in ofM ==> m !in ofU && forall w :: w in ofU ==> w in ofM
  {
    var r := DependsOn(monitors);
    if u in ofM {
      forall w | w in ofU ensures w in ofM && w != m {
        var j, k :| Walk(r, m, u, j) && Walk(r, u, w, k);
        WalkConcat(r, m, u, w, j, k);
      }
    }
  }

  lemma {:induction false} WalkConcat(r: Rel, a: string, b: string, c: string, j: nat, k: nat)
    requires Walk(r, a, b, j) && Walk(r, b, c, k)
    ensures Walk(r, a, c, j + k)
    decreases k
  {
    if k == 1 {
      WalkAppend(r, a, b, c, j);
    } else {
      var mid :| Walk(r, b, mid, k - 1) && (mid, c) in r;
      WalkConcat(r, a, b, mid, j, k - 1);
      WalkAppend(r, a, mid, c, j + k - 1);
    }
  }

  /** The display name of the first monitor called `id`. */
  function MonitorName(monitors: seq<Monitor>, id: string): (name: Option<string>)
    ensures name.Some? <==> id in Ids(monitors)
    ensures name.Some? ==> exists m :: m in monitors && m.id == id && m.name == name.value
  {
    if monitors == [] then None
    else if monitors[0].id == id then Some(monitors[0].name)
    else
      assert monitors == [monitors[0]] + monitors[1..];
      MonitorName(monitors[1..], id)
  }

  /** The display names of the configured ids of a list, in its order. */
  function Names(monitors: seq<Monitor>, ids: seq<string>): seq<string> {
    if ids == [] then []
    else
      match MonitorName(monitors, ids[0])
      case Some(name) => [name] + Names(monitors, ids[1..])
      case None => Names(monitors, ids[1..])
  }

  /** The names of configured ids, one for one. */
  ghost predicate AreNames(monitors: seq<Monitor>, ids: seq<string>, names: seq<string>) {
    |names| == |ids| && forall i :: 0 <= i < |ids| ==> MonitorName(monitors, ids[i]) == Some(names[i])
  }

  lemma {:induction false} AllAreNamed(monitors: seq<Monitor>, ids: seq<string>)
    requires forall id :: id in ids ==> id in Ids(monitors)
    ensures AreNames(monitors, ids, Names(monitors, ids))
  {
    if ids != [] {
      assert ids[0] in ids && forall id :: id in ids[1..] ==> id in ids;
      AllAreNamed(monitors, ids[1..]);
    }
  }

  /** Only configured monitors depend on anything. */
  lemma DependentsAreConfigured(monitors: seq<Monitor>, id: string, dependents: seq<string>)
    requires NearestFirst(Converse(DependsOn(monitors)), id, dependents)
    ensures forall d :: d in dependents ==> d in Ids(monitors)
  {
    forall d | d in dependents ensures d in Ids(monitors) {
      var k :| Walk(Converse(DependsOn(monitors)), id, d, k);
    }
  }

  /** What the stored checks of a monitor say: not readable, not down, or down. */
  datatype Reading = Unreadable | NotDown | Down

  ghost predicate DownUpstream(monitors: seq<Monitor>, reading: string -> Reading, id: string, u: string) {
    Reaches(DependsOn(monitors), id, u) && reading(u) == Down && u in Ids(monitors)
  }

  /** `u` is a down upstream and no other one is strictly nearer. */
  ghost predicate NearestDown(monitors: seq<Monitor>, reading: string -> Reading, id: string, u: string) {
    && DownUpstream(monitors, reading, id, u)
    && forall w :: DownUpstream(monitors, reading, id, w) ==> NoFarther(DependsOn(monitors), id, u, w)
  }

  lemma CauseIsNearest(monitors: seq<Monitor>, reading: string -> Reading, id: string, upstreams: seq<string>, i: nat)
    requires NearestFirst(DependsOn(monitors), id, upstreams) && i < |upstreams|
    requires forall j :: 0 <= j < i ==> !DownUpstream(monitors, reading, id, upstreams[j])
    requires reading(upstreams[i]) == Down && upstreams[i] in Ids(monitors)
    ensures NearestDown(monitors, reading, id, upstreams[i])
  {
    var u := upstreams[i];
    assert u in upstreams;
    forall w | DownUpstream(monitors, reading, id, w) ensures NoFarther(DependsOn(monitors), id, u, w) {
      var j :| 0 <= j < |upstreams| && upstreams[j] == w;
      if j == i {
        forall k | Walk(DependsOn(monitors), id, w, k)
          ensures exists j :: j <= k && Walk(DependsOn(monitors), id, u, j) {
        }
      }
    }
  }

  /**
   * `down_context`: the cause of a down is a nearest upstream that reads as down;
   * without any, the down is a root and its dependents are named as impacted.
   */
  method DownContext(monitors: seq<Monitor>, reading: string -> Reading, id: string)
    returns (cause: Option<(string, string)>, impacted: seq<string>)
    requires UniqueIds(monitors)
    ensures cause.Some? <==> exists u :: DownUpstream(monitors, reading, id, u)
    ensures cause.Some? ==>
      && NearestDown(monitors, reading, id, cause.value.0)
      && MonitorName(monitors, cause.value.0) == Some(cause.value.1)
      && impacted == []
    ensures cause.None? ==>
      exists dependents ::
        NearestFirst(Converse(DependsOn(monitors)), id, dependents) && AreNames(monitors, dependents, impacted)
  {
    var upstreams := TransitiveUpstreams(monitors, id);
    for i := 0 to |upstreams|
      invariant forall j :: 0 <= j < i ==> !DownUpstream(monitors, reading, id, upstreams[j])
    {
      var name := MonitorName(monitors, upstreams[i]);
      if reading(upstreams[i]) == Down && name.Some? {
        CauseIsNearest(monitors, reading, id, upstreams, i);
        return Some((upstreams[i], name.value)), [];
      }
    }
    var dependents := TransitiveDependents(monitors, id);
    DependentsAreConfigured(monitors, id, dependents);
    AllAreNamed(monitors, dependents);
    return None, Names(monitors, dependents);
  }
}
