/**
 Dependency graphs of the scheduler: construction, Kahn's sort with cycle extraction, and
 layering into groups that may run in parallel. A graph maps each node to the set of nodes it
 depends on; Python's dictionary and set iteration orders are left arbitrary (`:|`), so every
 contract holds whatever the order.
 */
module Graph {
  import opened Wrappers

  type Dag<N> = map<N, set<N>>

  ghost predicate Edge<N(!new)>(g: Dag<N>, from: N, to: N) {
    from in g && to in g[from]
  }

  /** A walk follows dependency edges: each node depends on the next. */
  ghost predicate Walk<N(!new)>(g: Dag<N>, w: seq<N>) {
    forall i, j :: 0 <= i && j == i + 1 && j < |w| ==> Edge(g, w[i], w[j])
  }

  /** A closed walk that repeats no node but the one it returns to. */
  ghost predicate IsCycle<N(!new)>(g: Dag<N>, c: seq<N>) {
    && |c| >= 2
    && c[0] == c[|c| - 1]
    && Walk(g, c)
    && NoDup(c[1..])
  }

  ghost predicate IsCycleIn<N(!new)>(g: Dag<N>, nodes: set<N>, c: seq<N>) {
    IsCycle(g, c) && Elements(c) <= nodes
  }

  ghost predicate Acyclic<N(!new)>(g: Dag<N>) {
    forall w: seq<N> :: |w| >= 2 && Walk(g, w) ==> w[0] != w[|w| - 1]
  }

  ghost predicate Closed<N(!new)>(g: Dag<N>) {
    forall n, d :: n in g && d in g[n] ==> d in g
  }

  ghost predicate Unknown<N(!new)>(g: Dag<N>, d: N) {
    d !in g && exists n | n in g :: d in g[n]
  }

  /** Every dependency that lies in `nodes` stands before its dependent. */
  ghost predicate DepsEarlier<N(!new)>(g: Dag<N>, nodes: set<N>, order: seq<N>) {
    forall i, d :: 0 <= i < |order| && Edge(g, order[i], d) && d in nodes ==> d in order[..i]
  }

  /** Every dependency stands before its dependent. */
  ghost predicate DepsFirst<N(!new)>(g: Dag<N>, order: seq<N>) {
    forall i, d :: 0 <= i < |order| && Edge(g, order[i], d) ==> d in order[..i]
  }

  ghost predicate IsTopologicalOrder<N(!new)>(g: Dag<N>, order: seq<N>) {
    NoDup(order) && Elements(order) == g.Keys && DepsFirst(g, order)
  }

  /** No node of `nodes` can be sorted before the others: each waits for another of them. */
  ghost predicate Stuck<N(!new)>(g: Dag<N>, nodes: set<N>) {
    forall n {:trigger WaitsFor(g, nodes, n)} :: n in nodes ==> WaitsFor(g, nodes, n)
  }

  ghost predicate WaitsFor<N(!new)>(g: Dag<N>, nodes: set<N>, n: N) {
    exists d :: d in nodes && Edge(g, n, d)
  }

  // ---- construction ---------------------------------------------------------------------

  method BuildGraph<N(==,!new)>(tasks: seq<N>, dependencies: map<N, seq<N>>) returns (graph: Dag<N>)
    ensures graph.Keys == Elements(tasks) + dependencies.Keys
    ensures forall n | n in graph ::
      graph[n] == if n in dependencies then Elements(dependencies[n]) else {}
  {
    graph := map[];
    for i := 0 to |tasks|
      invariant graph.Keys == Elements(tasks[..i])
      invariant forall n | n in graph :: graph[n] == {}
    {
      assert tasks[..i + 1] == tasks[..i] + [tasks[i]];
      graph := graph[tasks[i] := {}];
    }
    assert tasks[..|tasks|] == tasks;
    var rest := dependencies.Keys;
    while rest != {}
      invariant rest <= dependencies.Keys
      invariant graph.Keys == Elements(tasks) + (dependencies.Keys - rest)
      invariant forall n | n in graph ::
        graph[n] == if n in dependencies.Keys - rest then Elements(dependencies[n]) else {}
      decreases rest
    {
      var name :| name in rest;
      graph := graph[name := Elements(dependencies[name])];
      rest := rest - {name};
    }
  }

  // ---- walks and ranks ------------------------------------------------------------------

  /** If every edge lowers the rank then a walk lowers it at least once per step. */
  lemma {:induction false} WalkLowersRank<N(!new)>(g: Dag<N>, rank: map<N, int>, w: seq<N>)
    requires |w| > 0 && Walk(g, w)
    requires forall i :: 0 <= i < |w| ==> w[i] in rank
    requires forall n, d :: n in rank && d in rank && Edge(g, n, d) ==> rank[d] < rank[n]
    ensures rank[w[|w| - 1]] <= rank[w[0]] - (|w| - 1)
  {
    if |w| > 1 {
      var v := w[..|w| - 1];
      assert Edge(g, w[|w| - 2], w[|w| - 1]);
      WalkLowersRank(g, rank, v);
    }
  }

  /** Positions in an order that puts dependencies first are a rank. */
  ghost function PositionRank<N(!new)>(order: seq<N>): (rank: map<N, int>)
    ensures forall n :: n in rank <==> n in order
  {
    map n | n in Elements(order) :: Position(order, n)
  }

  lemma EdgesLowerPosition<N(!new)>(g: Dag<N>, nodes: set<N>, order: seq<N>, n: N, d: N)
    requires NoDup(order) && Elements(order) <= nodes && DepsEarlier(g, nodes, order)
    requires n in order && d in order && Edge(g, n, d)
    ensures Position(order, d) < Position(order, n)
  {
    var i := Position(order, n);
    assert Edge(g, order[i], d) && d in Elements(order);
    assert d in order[..i];
  }

  lemma NodesStayInside<N(!new)>(g: Dag<N>, w: seq<N>)
    requires Closed(g) && Walk(g, w) && |w| > 1
    ensures Elements(w) <= g.Keys
  {
    forall i | 0 <= i < |w| ensures w[i] in g {
      if i == 0 { assert Edge(g, w[0], w[1]); } else { assert Edge(g, w[i - 1], w[i]); }
    }
  }

  /** A node order with dependencies first excludes every closed walk. */
  lemma OrderedNodesHaveNoClosedWalk<N(!new)>(g: Dag<N>, nodes: set<N>, order: seq<N>, w: seq<N>)
    requires NoDup(order) && Elements(order) == nodes && DepsEarlier(g, nodes, order)
    requires |w| >= 2 && Walk(g, w) && Elements(w) <= nodes
    ensures w[0] != w[|w| - 1]
  {
    var rank := PositionRank(order);
    forall n, d | n in rank && d in rank && Edge(g, n, d) ensures rank[d] < rank[n] {
      EdgesLowerPosition(g, nodes, order, n, d);
    }
    forall i | 0 <= i < |w| ensures w[i] in rank { assert w[i] in Elements(w); }
    WalkLowersRank(g, rank, w);
  }

  lemma TopologicalOrderIsAcyclic<N(!new)>(g: Dag<N>, order: seq<N>)
    requires Closed(g) && IsTopologicalOrder(g, order)
    ensures Acyclic(g)
  {
    forall w: seq<N> | |w| >= 2 && Walk(g, w) ensures w[0] != w[|w| - 1] {
      NodesStayInside(g, w);
      OrderedNodesHaveNoClosedWalk(g, g.Keys, order, w);
    }
  }

  // ---- cycle extraction -----------------------------------------------------------------

  /** The search has a duplicate-free path of ancestors and a set of finished, cycle-free nodes. */
  ghost predicate Searching<N(!new)>(g: Dag<N>, nodes: set<N>, path: seq<N>, finished: seq<N>) {
    && NoDup(path) && Walk(g, path) && Elements(path) <= nodes
    && NoDup(finished) && Elements(finished) <= nodes && Elements(finished) !! Elements(path)
    && DepsEarlier(g, nodes, finished)
  }

  lemma EnterNode<N(!new)>(g: Dag<N>, nodes: set<N>, path: seq<N>, finished: seq<N>, n: N)
    requires Searching(g, nodes, path, finished)
    requires n in nodes && n !in path && n !in finished
    requires path != [] ==> Edge(g, path[|path| - 1], n)
    ensures Searching(g, nodes, path + [n], finished)
    ensures Elements(path + [n]) == Elements(path) + {n}
  {
  }

  lemma LeaveNode<N(!new)>(g: Dag<N>, nodes: set<N>, path: seq<N>, finished: seq<N>, n: N)
    requires Searching(g, nodes, path + [n], finished)
    requires forall d :: Edge(g, n, d) && d in nodes ==> d in finished
    ensures Searching(g, nodes, path, finished + [n])
    ensures Elements(path) == Elements(path + [n]) - {n}
    ensures Elements(path) + Elements(finished + [n]) == Elements(path + [n]) + Elements(finished)
  {
    var p, f := path + [n], finished + [n];
    assert p[|path|] == n;
    forall i, j | 0 <= i && j == i + 1 && j < |path| ensures Edge(g, path[i], path[j]) {
      assert Edge(g, p[i], p[j]);
    }
    forall i, j | 0 <= i < j < |path| ensures path[i] != path[j] { assert p[i] != p[j]; }
    forall x | x in path ensures x != n && x !in finished {
      var i := Position(path, x);
      assert p[i] == x && p[i] != p[|path|];
      assert x in Elements(p);
    }
    forall i, d | 0 <= i < |f| && Edge(g, f[i], d) && d in nodes ensures d in f[..i] {
      if i < |finished| { assert d in finished[..i] && f[..i] == finished[..i]; }
      else { assert f[..i] == finished; }
    }
    assert n in Elements(p);
    assert Elements(f) == Elements(finished) + {n};
  }

  class CycleSearch<N(==,!new)> {
    const graph: Dag<N>
    const remaining: set<N>
    var visited: set<N>
    var path: seq<N>
    var pathSet: set<N>
    ghost var finished: seq<N>  // nodes whose search ended without a cycle, in that order

    ghost predicate Valid()
      reads this
    {
      && pathSet == Elements(path)
      && visited == pathSet + Elements(finished)
      && Searching(graph, remaining, path, finished)
    }

    constructor (graph: Dag<N>, remaining: set<N>)
      ensures this.graph == graph && this.remaining == remaining
      ensures Valid() && path == [] && finished == []
    {
      this.graph, this.remaining := graph, remaining;
      visited, path, pathSet, finished := {}, [], {}, [];
    }

    method Dfs(node: N) returns (found: Option<seq<N>>)
      requires Valid() && node in remaining
      requires path != [] ==> Edge(graph, path[|path| - 1], node)
      modifies this
      ensures found.Some? ==> IsCycleIn(graph, remaining, found.value)
      ensures found.None? ==>
        && Valid() && path == old(path) && old(finished) <= finished && node in finished
      decreases remaining - visited
    {
      if node in pathSet {
        var idx := IndexOf(path, node);
        CloseWalk(graph, remaining, path, idx, node);
        return Some(path[idx..] + [node]);
      }
      if node in visited {
        return None;
      }
      EnterNode(graph, remaining, path, finished, node);
      visited := visited + {node};
      path := path + [node];
      pathSet := pathSet + {node};
      var deps := if node in graph then graph[node] else {};
      var todo := deps;
      while todo != {}
        invariant todo <= deps
        invariant Valid() && path == old(path) + [node]
        invariant old(finished) <= finished
        invariant forall d | d in deps - todo && d in remaining :: d in finished
        decreases todo
      {
        var dep :| dep in todo;
        todo := todo - {dep};
        if dep in remaining {
          found := Dfs(dep);
          if found.Some? {
            return;
          }
        }
      }
      LeaveNode(graph, remaining, old(path), finished, node);
      path := path[..|path| - 1];
      pathSet := pathSet - {node};
      finished := finished + [node];
      assert path == old(path);
      return None;
    }
  }

  method IndexOf<N(==,!new)>(s: seq<N>, x: N) returns (i: nat)
    requires x in s
    ensures i < |s| && s[i] == x && x !in s[..i]
  {
    i := 0;
    while s[i] != x
      invariant i < |s| && x in s[i..] && x !in s[..i]
      decreases |s| - i
    {
      i := i + 1;
    }
  }

  lemma CloseWalk<N(!new)>(g: Dag<N>, nodes: set<N>, path: seq<N>, idx: nat, node: N)
    requires Walk(g, path) && NoDup(path) && Elements(path) <= nodes
    requires idx < |path| && path[idx] == node && Edge(g, path[|path| - 1], node)
    ensures IsCycleIn(g, nodes, path[idx..] + [node])
  {
    var c := path[idx..] + [node];
    forall i, j | 0 <= i && j == i + 1 && j < |c| ensures Edge(g, c[i], c[j]) {
      if j < |c| - 1 { assert Edge(g, path[idx + i], path[idx + j]); }
    }
    assert Walk(g, c);
    forall x | x in c ensures x in nodes { assert x in Elements(path); }
    assert c[1..] == path[idx + 1..] + [node];
  }

  /**
   Extracts one cycle from the nodes the sort could not place. The fallback (the remaining
   nodes as a list) is returned exactly when these nodes contain no cycle, which a set in
   which every node waits for another one rules out.
   */
  method FindCycle<N(==,!new)>(graph: Dag<N>, remaining: set<N>) returns (cycle: seq<N>)
    ensures (exists c :: IsCycleIn(graph, remaining, c)) ==> IsCycleIn(graph, remaining, cycle)
    ensures Stuck(graph, remaining) && remaining != {} ==> IsCycleIn(graph, remaining, cycle)
    ensures !IsCycleIn(graph, remaining, cycle) ==> NoDup(cycle) && Elements(cycle) == remaining
  {
    var search := new CycleSearch(graph, remaining);
    var todo := remaining;
    while todo != {}
      invariant todo <= remaining && search.Valid() && search.path == []
      invariant search.graph == graph && search.remaining == remaining
      invariant remaining - todo <= Elements(search.finished)
      decreases todo
    {
      var node :| node in todo;
      todo := todo - {node};
      var found := search.Dfs(node);
      if found.Some? {
        return found.value;
      }
    }
    FinishedNodesAreAcyclic(graph, remaining, search.finished);
    FinishedNodesAreNotStuck(graph, remaining, search.finished);
    cycle := SetToSeq(remaining);
    assert cycle != [] ==> NoDup(cycle);
  }

  method SetToSeq<N(==,!new)>(s: set<N>) returns (q: seq<N>)
    ensures NoDup(q) && Elements(q) == s
  {
    q := [];
    var rest := s;
    while rest != {}
      invariant rest <= s && NoDup(q) && Elements(q) == s - rest
      decreases rest
    {
      var x :| x in rest;
      rest := rest - {x};
      q := q + [x];
      assert Elements(q) == Elements(q[..|q| - 1]) + {x};
    }
  }

  lemma FinishedNodesAreAcyclic<N(!new)>(g: Dag<N>, remaining: set<N>, finished: seq<N>)
    requires NoDup(finished) && Elements(finished) == remaining && DepsEarlier(g, remaining, finished)
    ensures !exists c :: IsCycleIn(g, remaining, c)
  {
    forall c | IsCycleIn(g, remaining, c) ensures false {
      OrderedNodesHaveNoClosedWalk(g, remaining, finished, c);
    }
  }

  lemma FinishedNodesAreNotStuck<N(!new)>(g: Dag<N>, remaining: set<N>, finished: seq<N>)
    requires Elements(finished) == remaining && DepsEarlier(g, remaining, finished)
    ensures remaining != {} ==> !Stuck(g, remaining)
  {
    if remaining != {} {
      var n :| n in remaining;
      assert n in finished;
      var first, before := finished[0], finished[..0];
      assert first in Elements(finished);
      forall d | d in remaining ensures !Edge(g, first, d) {
        assert Edge(g, first, d) ==> d in before;
      }
      assert !WaitsFor(g, remaining, first);
    }
  }

  // ---- Kahn's algorithm -----------------------------------------------------------------

  /** What `topological_sort` returns or raises: an order, a CycleError, or a KeyError. */
  datatype SortOutcome<+N> =
    | Sorted(order: seq<N>)
    | CycleFound(cycle: seq<N>)
    | UnknownDependency(dep: N)

  ghost function Waiting<N(!new)>(g: Dag<N>, n: N, placed: seq<N>): set<N>
    requires n in g
  {
    set d | d in g[n] && d !in placed
  }

  /** `inDegree` counts the unplaced dependencies, with one not yet deducted for `pending`. */
  ghost predicate Counted<N(!new)>(g: Dag<N>, inDegree: map<N, int>, placed: seq<N>, pending: seq<N>) {
    && inDegree.Keys == g.Keys
    && forall n :: n in g ==> inDegree[n] == |Waiting(g, n, placed)| + if n in pending then 1 else 0
  }

  /** `seen` is the placed nodes followed by the queue: exactly the nodes counted down to zero. */
  ghost predicate SeenAtZero<N(!new)>(inDegree: map<N, int>, seen: seq<N>) {
    && NoDup(seen)
    && forall n :: n in seen <==> n in inDegree && inDegree[n] == 0
  }

  /** The nodes that depend on `d` and have been scanned, each listed once. */
  ghost predicate Lists<N(!new)>(g: Dag<N>, scanned: set<N>, d: N, dependents: seq<N>) {
    NoDup(dependents) && forall n :: n in dependents <==> n in scanned && Edge(g, n, d)
  }

  ghost predicate Reversed<N(!new)>(g: Dag<N>, scanned: set<N>, reverseAdj: map<N, seq<N>>) {
    reverseAdj.Keys == g.Keys && forall d :: d in g ==> Lists(g, scanned, d, reverseAdj[d])
  }

  method CountEdges<N(==,!new)>(graph: Dag<N>)
    returns (inDegree: map<N, int>, reverseAdj: map<N, seq<N>>, missing: Option<N>)
    ensures missing.None? ==>
      Closed(graph) && Counted(graph, inDegree, [], []) && Reversed(graph, graph.Keys, reverseAdj)
    ensures missing.Some? ==> Unknown(graph, missing.value) && !Closed(graph)
  {
    inDegree := map n | n in graph :: 0;
    reverseAdj := map n | n in graph :: [];
    var scanned := {};
    NoneScanned(graph, reverseAdj);
    while graph.Keys - scanned != {}
      invariant scanned <= graph.Keys
      invariant ScannedDegrees(graph, scanned, inDegree) && Reversed(graph, scanned, reverseAdj)
      decreases graph.Keys - scanned
    {
      var node :| node in graph.Keys - scanned;
      ghost var before := inDegree;
      inDegree := inDegree[node := |graph[node]|];
      reverseAdj, missing := ListDependent(graph, scanned, reverseAdj, node);
      if missing.Some? {
        return;
      }
      ScanNext(graph, scanned, before, node);
      scanned := scanned + {node};
    }
    assert scanned == graph.Keys;
    AllScanned(graph, inDegree);
    missing := None;
  }

  ghost predicate ScannedDegrees<N(!new)>(g: Dag<N>, scanned: set<N>, inDegree: map<N, int>) {
    inDegree.Keys == g.Keys && forall n :: n in scanned && n in g ==> inDegree[n] == |g[n]| && g[n] <= g.Keys
  }

  lemma ScanNext<N(!new)>(g: Dag<N>, scanned: set<N>, inDegree: map<N, int>, n: N)
    requires ScannedDegrees(g, scanned, inDegree) && n in g && g[n] <= g.Keys
    ensures ScannedDegrees(g, scanned + {n}, inDegree[n := |g[n]|])
  {
  }

  lemma NoneScanned<N(!new)>(g: Dag<N>, reverseAdj: map<N, seq<N>>)
    requires reverseAdj.Keys == g.Keys && forall d :: d in g ==> reverseAdj[d] == []
    ensures Reversed(g, {}, reverseAdj)
  {
  }

  lemma AllScanned<N(!new)>(g: Dag<N>, inDegree: map<N, int>)
    requires ScannedDegrees(g, g.Keys, inDegree)
    ensures Closed(g) && Counted(g, inDegree, [], [])
  {
    forall n | n in g ensures inDegree[n] == |Waiting(g, n, [])| {
      assert Waiting(g, n, []) == g[n];
    }
  }

  lemma MissingTarget<N(!new)>(g: Dag<N>, n: N, d: N)
    requires n in g && d in g[n] && d !in g
    ensures Unknown(g, d) && !Closed(g)
  {
  }

  /** Enters one node under each of its dependencies. */
  method ListDependent<N(==,!new)>(graph: Dag<N>, ghost scanned: set<N>, before: map<N, seq<N>>, node: N)
    returns (reverseAdj: map<N, seq<N>>, missing: Option<N>)
    requires node in graph && node !in scanned && Reversed(graph, scanned, before)
    ensures missing.None? ==> graph[node] <= graph.Keys && Reversed(graph, scanned + {node}, reverseAdj)
    ensures missing.Some? ==> Unknown(graph, missing.value) && !Closed(graph)
  {
    reverseAdj := before;
    var deps := graph[node];
    while deps != {}
      invariant deps <= graph[node] && graph[node] - deps <= graph.Keys
      invariant reverseAdj.Keys == graph.Keys
      invariant forall d | d in graph ::
        reverseAdj[d] == (if d in graph[node] - deps then before[d] + [node] else before[d])
      decreases deps
    {
      var dep :| dep in deps;
      if dep !in reverseAdj {
        MissingTarget(graph, node, dep);
        return reverseAdj, Some(dep);
      }
      deps := deps - {dep};
      reverseAdj := reverseAdj[dep := reverseAdj[dep] + [node]];
    }
    forall d | d in graph ensures Lists(graph, scanned + {node}, d, reverseAdj[d]) {
      assert Lists(graph, scanned, d, before[d]);
    }
    missing := None;
  }

  method TopologicalSort<N(==,!new)>(graph: Dag<N>) returns (r: SortOutcome<N>)
    ensures r.Sorted? <==> Closed(graph) && Acyclic(graph)
    ensures r.Sorted? ==> IsTopologicalOrder(graph, r.order)
    ensures r.CycleFound? ==> Closed(graph) && IsCycle(graph, r.cycle)
    ensures r.UnknownDependency? ==> Unknown(graph, r.dep)
  {
    if graph == map[] {
      EmptyGraphIsAcyclic(graph);
      return Sorted([]);
    }
    var inDegree, reverseAdj, missing := CountEdges(graph);
    if missing.Some? {
      return UnknownDependency(missing.value);
    }
    var result := PlaceNodes(graph, inDegree, reverseAdj);
    PlacedCount(graph, result);
    if |result| != |graph| {
      var cycle := UnplacedCycle(graph, graph.Keys - Elements(result));
      return CycleFound(cycle);
    }
    TopologicalOrderIsAcyclic(graph, result);
    return Sorted(result);
  }

  lemma EmptyGraphIsAcyclic<N(!new)>(g: Dag<N>)
    requires g == map[]
    ensures Closed(g) && IsTopologicalOrder(g, []) && Acyclic(g)
  {
    TopologicalOrderIsAcyclic(g, []);
  }

  method UnplacedCycle<N(==,!new)>(graph: Dag<N>, remaining: set<N>) returns (cycle: seq<N>)
    requires remaining != {} && Stuck(graph, remaining)
    ensures IsCycleIn(graph, remaining, cycle) && !Acyclic(graph)
  {
    cycle := FindCycle(graph, remaining);
    CycleRefutesAcyclic(graph, remaining, cycle);
  }

  lemma CycleRefutesAcyclic<N(!new)>(g: Dag<N>, nodes: set<N>, c: seq<N>)
    requires IsCycleIn(g, nodes, c)
    ensures IsCycle(g, c) && !Acyclic(g)
  {
    assert Walk(g, c);
  }

  lemma SubsetOfEqualSize<N(!new)>(a: set<N>, b: set<N>)
    requires a <= b && |a| == |b|
    ensures a == b
  {
    assert |b - a| == |b| - |a|;
  }

  lemma PlacedCount<N(!new)>(g: Dag<N>, result: seq<N>)
    requires NoDup(result) && Elements(result) <= g.Keys
    ensures |result| == |g| <==> Elements(result) == g.Keys
    ensures |result| != |g| ==> g.Keys - Elements(result) != {}
  {
    SizeOfElements(result);
    assert |g| == |g.Keys|;
    if |result| == |g| { SubsetOfEqualSize(Elements(result), g.Keys); }
    if g.Keys - Elements(result) == {} {
      forall n | n in g.Keys ensures n in Elements(result) { assert n !in g.Keys - Elements(result); }
    }
  }

  lemma PlaceOne<N(!new)>(g: Dag<N>, inDegree: map<N, int>, placed: seq<N>, node: N, dependents: seq<N>)
    requires Counted(g, inDegree, placed, []) && node !in placed
    requires Lists(g, g.Keys, node, dependents)
    ensures Counted(g, inDegree, placed + [node], dependents)
  {
    forall n | n in g
      ensures inDegree[n] == |Waiting(g, n, placed + [node])| + if n in dependents then 1 else 0
    {
      var before, after := Waiting(g, n, placed), Waiting(g, n, placed + [node]);
      if node in g[n] {
        assert Edge(g, n, node);
        assert before == after + {node};
      } else {
        assert before == after;
      }
    }
  }

  lemma EdgesFromSeen<N(!new)>(g: Dag<N>, seen: seq<N>, placed: seq<N>, n: N)
    requires DepsFirst(g, seen) && placed <= seen && n in g && Waiting(g, n, placed) == {}
    ensures DepsFirst(g, seen + [n])
  {
    var seen' := seen + [n];
    forall i, d | 0 <= i < |seen'| && Edge(g, seen'[i], d) ensures d in seen'[..i] {
      assert seen'[..i] == seen[..i];
      if i == |seen| {
        assert d !in Waiting(g, n, placed);
      }
    }
  }

  lemma UnplacedAreStuck<N(!new)>(g: Dag<N>, inDegree: map<N, int>, result: seq<N>)
    requires Closed(g) && Counted(g, inDegree, result, []) && SeenAtZero(inDegree, result)
    ensures Stuck(g, g.Keys - Elements(result))
  {
    var unplaced := g.Keys - Elements(result);
    forall n | n in unplaced ensures WaitsFor(g, unplaced, n) {
      assert Waiting(g, n, result) != {};
      var d :| d in Waiting(g, n, result);
      assert d in unplaced && Edge(g, n, d);
    }
  }

  method StartNodes<N(==,!new)>(inDegree: map<N, int>) returns (queue: seq<N>)
    ensures SeenAtZero(inDegree, queue)
  {
    queue := [];
    var rest := inDegree.Keys;
    while rest != {}
      invariant rest <= inDegree.Keys && NoDup(queue)
      invariant forall n :: n in queue <==> n in inDegree.Keys - rest && inDegree[n] == 0
      decreases rest
    {
      var node :| node in rest;
      rest := rest - {node};
      if inDegree[node] == 0 {
        queue := queue + [node];
      }
    }
  }

  /** Deducts one placed dependency from each dependent, queueing those that reach zero. */
  method DeductAll<N(==,!new)>(graph: Dag<N>, degrees: map<N, int>, ghost result: seq<N>, front: seq<N>,
                   dependents: seq<N>)
    returns (inDegree: map<N, int>, queue: seq<N>)
    requires Counted(graph, degrees, result, dependents) && SeenAtZero(degrees, result + front)
    requires NoDup(dependents) && forall n :: n in dependents ==> n in graph
    requires DepsFirst(graph, result + front)
    ensures Counted(graph, inDegree, result, []) && SeenAtZero(inDegree, result + queue)
    ensures DepsFirst(graph, result + queue)
  {
    inDegree, queue := degrees, front;
    for k := 0 to |dependents|
      invariant Counted(graph, inDegree, result, dependents[k..])
      invariant SeenAtZero(inDegree, result + queue)
      invariant DepsFirst(graph, result + queue)
    {
      var dependent := dependents[k];
      DropFirst(dependents, k);
      inDegree := inDegree[dependent := inDegree[dependent] - 1];
      if inDegree[dependent] == 0 {
        EdgesFromSeen(graph, result + queue, result, dependent);
        assert result + (queue + [dependent]) == result + queue + [dependent];
        queue := queue + [dependent];
      }
    }
  }

  lemma DropFirst<N(!new)>(s: seq<N>, k: nat)
    requires NoDup(s) && k < |s|
    ensures s[k] !in s[k + 1..] && forall n :: n in s[k..] <==> n == s[k] || n in s[k + 1..]
  {
    assert s[k..] == [s[k]] + s[k + 1..];
  }

  method PlaceNodes<N(==,!new)>(graph: Dag<N>, degrees: map<N, int>, reverseAdj: map<N, seq<N>>)
    returns (result: seq<N>)
    requires Closed(graph) && Counted(graph, degrees, [], []) && Reversed(graph, graph.Keys, reverseAdj)
    ensures NoDup(result) && Elements(result) <= graph.Keys && DepsFirst(graph, result)
    ensures Stuck(graph, graph.Keys - Elements(result))
  {
    var inDegree := degrees;
    var queue: seq<N> := StartNodes(inDegree);
    result := [];
    StartsHaveNoDeps(graph, inDegree, queue);
    while queue != []
      invariant Counted(graph, inDegree, result, [])
      invariant SeenAtZero(inDegree, result + queue) && DepsFirst(graph, result + queue)
      decreases graph.Keys - Elements(result)
    {
      var node := queue[0];
      PopKeepsSeen(result, queue);
      assert node in result + queue;
      var dependents := reverseAdj[node];
      PlaceOne(graph, inDegree, result, node, dependents);
      queue := queue[1..];
      result := result + [node];
      inDegree, queue := DeductAll(graph, inDegree, result, queue, dependents);
    }
    assert result + [] == result;
    UnplacedAreStuck(graph, inDegree, result);
  }

  lemma PopKeepsSeen<N(!new)>(result: seq<N>, queue: seq<N>)
    requires queue != [] && NoDup(result + queue)
    ensures (result + [queue[0]]) + queue[1..] == result + queue
    ensures queue[0] !in result && Elements(result + [queue[0]]) == Elements(result) + {queue[0]}
  {
    var seen := result + queue;
    forall i | 0 <= i < |result| ensures result[i] != queue[0] {
      assert seen[i] != seen[|result|];
    }
  }

  lemma StartsHaveNoDeps<N(!new)>(g: Dag<N>, inDegree: map<N, int>, queue: seq<N>)
    requires Counted(g, inDegree, [], []) && SeenAtZero(inDegree, queue)
    ensures [] + queue == queue && DepsFirst(g, queue)
  {
    forall n | n in queue ensures forall d :: !Edge(g, n, d) {
      assert Waiting(g, n, []) == g[n];
    }
  }

  // ---- layering -------------------------------------------------------------------------

  /** The length of the longest dependency chain below each node, defined for `depth.Keys`. */
  ghost predicate Depths<N(!new)>(g: Dag<N>, depth: map<N, nat>) {
    && (forall n, d :: n in depth && Edge(g, n, d) ==> d in depth && depth[d] < depth[n])
    && (forall n {:trigger HasDeepest(g, depth, n)} :: n in depth ==> HasDeepest(g, depth, n))
  }

  /** A node above depth zero has a dependency exactly one below it. */
  ghost predicate HasDeepest<N(!new)>(g: Dag<N>, depth: map<N, nat>, n: N)
    requires n in depth
  {
    depth[n] == 0 || exists d :: Edge(g, n, d) && d in depth && depth[d] == depth[n] - 1
  }

  /** A chain of dependencies that starts at `n` and makes `k` steps. */
  ghost predicate Chain<N(!new)>(g: Dag<N>, n: N, k: nat, c: seq<N>) {
    |c| == k + 1 && c[0] == n && Walk(g, c)
  }

  /** `k` is the length of the longest chain of dependencies below `n`. */
  ghost predicate LongestChain<N(!new)>(g: Dag<N>, n: N, k: nat) {
    && (exists c :: Chain(g, n, k, c))
    && (forall j: nat, c :: Chain(g, n, j, c) ==> j <= k)
  }

  /** Non-empty groups that partition `nodes` by the length of the longest chain below. */
  ghost predicate Layered<N(!new)>(g: Dag<N>, nodes: set<N>, groups: seq<set<N>>) {
    && (forall k :: 0 <= k < |groups| ==> groups[k] != {} && groups[k] <= nodes)
    && (forall n {:trigger InSomeGroup(groups, n)} :: n in nodes ==> InSomeGroup(groups, n))
    && (forall k, n {:trigger LongestChain(g, n, k)} ::
          0 <= k < |groups| && n in groups[k] ==> LongestChain(g, n, k))
  }

  ghost predicate InSomeGroup<N(!new)>(groups: seq<set<N>>, n: N) {
    exists k :: 0 <= k < |groups| && n in groups[k]
  }

  lemma {:induction false} ChainOfDepth<N(!new)>(g: Dag<N>, depth: map<N, nat>, n: N) returns (c: seq<N>)
    requires Depths(g, depth) && n in depth
    ensures Chain(g, n, depth[n], c)
    decreases depth[n]
  {
    if depth[n] == 0 {
      c := [n];
    } else {
      assert HasDeepest(g, depth, n);
      var d :| Edge(g, n, d) && d in depth && depth[d] == depth[n] - 1;
      var rest := ChainOfDepth(g, depth, d);
      c := [n] + rest;
      ExtendWalk(g, n, rest);
    }
  }

  lemma ExtendWalk<N(!new)>(g: Dag<N>, n: N, w: seq<N>)
    requires Walk(g, w) && w != [] && Edge(g, n, w[0])
    ensures Walk(g, [n] + w)
  {
    var v := [n] + w;
    forall i, j | 0 <= i && j == i + 1 && j < |v| ensures Edge(g, v[i], v[j]) {
      if i > 0 { assert Edge(g, w[i - 1], w[j - 1]); }
    }
  }

  lemma {:induction false} ChainStaysInside<N(!new)>(g: Dag<N>, depth: map<N, nat>, c: seq<N>, i: nat)
    requires Depths(g, depth) && Walk(g, c) && i < |c| && c[0] in depth
    ensures c[i] in depth
  {
    if i > 0 {
      ChainStaysInside(g, depth, c, i - 1);
      assert Edge(g, c[i - 1], c[i]);
    }
  }

  lemma DepthIsLongestChain<N(!new)>(g: Dag<N>, depth: map<N, nat>, n: N)
    requires Depths(g, depth) && n in depth
    ensures LongestChain(g, n, depth[n])
  {
    var longest := ChainOfDepth(g, depth, n);
    forall j: nat, c | Chain(g, n, j, c) ensures j <= depth[n] {
      forall i | 0 <= i < |c| ensures c[i] in depth { ChainStaysInside(g, depth, c, i); }
      WalkLowersRank(g, depth, c);
    }
  }

  /** One more than the deepest dependency, or zero without dependencies. */
  method DepthAbove<N(==,!new)>(depth: map<N, nat>, deps: set<N>) returns (d: nat)
    requires deps <= depth.Keys
    ensures forall n :: n in deps ==> depth[n] < d
    ensures d > 0 ==> exists n :: n in deps && depth[n] == d - 1
  {
    d := 0;
    var rest := deps;
    while rest != {}
      invariant rest <= deps
      invariant forall n :: n in deps - rest ==> depth[n] < d
      invariant d > 0 ==> exists n :: n in deps && depth[n] == d - 1
      decreases rest
    {
      var dep :| dep in rest;
      rest := rest - {dep};
      if depth[dep] + 1 > d {
        d := depth[dep] + 1;
      }
    }
  }

  lemma AddDepth<N(!new)>(g: Dag<N>, depth: map<N, nat>, n: N, d: nat)
    requires Depths(g, depth)
    requires forall e :: Edge(g, n, e) ==> e in depth && depth[e] < d
    requires d > 0 ==> exists e :: Edge(g, n, e) && e in depth && depth[e] == d - 1
    ensures Depths(g, depth[n := d])
  {
    var after := depth[n := d];
    if n in depth {
      assert HasDeepest(g, depth, n);
      assert after == depth;
    } else {
      forall m | m in after ensures HasDeepest(g, after, m) {
        if m != n && depth[m] > 0 {
          assert HasDeepest(g, depth, m);
          var e :| Edge(g, m, e) && e in depth && depth[e] == depth[m] - 1;
          assert e in after && after[e] == after[m] - 1;
        }
      }
    }
  }

  lemma ExtendOrder<N(!new)>(g: Dag<N>, order: seq<N>, i: nat)
    requires i < |order| && DepsFirst(g, order[..i])
    requires forall d :: Edge(g, order[i], d) ==> d in order[..i]
    ensures DepsFirst(g, order[..i + 1]) && order[..i + 1] == order[..i] + [order[i]]
  {
    var before, after := order[..i], order[..i + 1];
    forall j, d | 0 <= j < |after| && Edge(g, after[j], d) ensures d in after[..j] {
      assert after[..j] == order[..j];
      if j < i { assert before[..j] == order[..j] && before[j] == after[j]; }
    }
  }

  lemma NotDepsFirst<N(!new)>(g: Dag<N>, order: seq<N>, i: nat, d: N)
    requires i < |order| && Edge(g, order[i], d) && d !in order[..i]
    ensures !DepsFirst(g, order)
  {
  }

  ghost function AtDepth<N(!new)>(depth: map<N, nat>, nodes: set<N>, k: int): set<N>
    requires nodes <= depth.Keys
  {
    set n | n in nodes && depth[n] == k
  }

  method GroupByDepth<N(==,!new)>(depth: map<N, nat>) returns (groups: seq<set<N>>)
    requires depth != map[]
    ensures forall k :: 0 <= k < |groups| ==> groups[k] == AtDepth(depth, depth.Keys, k)
    ensures forall n :: n in depth ==> depth[n] < |groups|
    ensures groups != [] && exists n :: n in depth && depth[n] == |groups| - 1
  {
    var size := DepthAbove(depth, depth.Keys);
    var someNode :| someNode in depth.Keys;
    groups := seq(size, _ => {});
    var rest := depth.Keys;
    while rest != {}
      invariant rest <= depth.Keys && |groups| == size
      invariant forall k :: 0 <= k < size ==> groups[k] == AtDepth(depth, depth.Keys - rest, k)
      decreases rest
    {
      var node :| node in rest;
      ghost var scanned := depth.Keys - rest;
      rest := rest - {node};
      assert depth.Keys - rest == scanned + {node};
      assert forall k | 0 <= k < size :: (AtDepth(depth, depth.Keys - rest, k)
        == AtDepth(depth, scanned, k) + (if depth[node] == k then {node} else {}));
      groups := groups[depth[node] := groups[depth[node]] + {node}];
    }
    assert depth.Keys - rest == depth.Keys;
  }

  lemma {:induction false} EveryDepthOccurs<N(!new)>(g: Dag<N>, depth: map<N, nat>, n: N, k: nat) returns (m: N)
    requires Depths(g, depth) && n in depth && k <= depth[n]
    ensures m in depth && depth[m] == k
    decreases depth[n]
  {
    if k == depth[n] {
      m := n;
    } else {
      assert HasDeepest(g, depth, n);
      var d :| Edge(g, n, d) && d in depth && depth[d] == depth[n] - 1;
      m := EveryDepthOccurs(g, depth, d, k);
    }
  }

  lemma GroupsAreLayers<N(!new)>(g: Dag<N>, depth: map<N, nat>, groups: seq<set<N>>)
    requires Depths(g, depth)
    requires forall k :: 0 <= k < |groups| ==> groups[k] == AtDepth(depth, depth.Keys, k)
    requires forall n :: n in depth ==> depth[n] < |groups|
    requires groups != [] && exists n :: n in depth && depth[n] == |groups| - 1
    ensures Layered(g, depth.Keys, groups)
  {
    var deepest :| deepest in depth && depth[deepest] == |groups| - 1;
    forall k | 0 <= k < |groups| ensures groups[k] != {} {
      var m := EveryDepthOccurs(g, depth, deepest, k);
      assert m in groups[k];
    }
    forall k, n | 0 <= k < |groups| && n in groups[k] ensures LongestChain(g, n, k) {
      DepthIsLongestChain(g, depth, n);
    }
    forall n | n in depth.Keys ensures InSomeGroup(groups, n) {
      assert n in groups[depth[n]];
    }
  }

  /** Groups by depth; `None` stands for the KeyError on a dependency that is not yet placed. */
  method FindParallelGroups<N(==,!new)>(graph: Dag<N>, order: seq<N>) returns (r: Option<seq<set<N>>>)
    ensures r.None? <==> !DepsFirst(graph, order)
    ensures r.Some? ==> Layered(graph, Elements(order), r.value)
  {
    if order == [] {
      return Some([]);
    }
    var depth: map<N, nat> := map[];
    for i := 0 to |order|
      invariant depth.Keys == Elements(order[..i]) && Depths(graph, depth)
      invariant DepsFirst(graph, order[..i])
    {
      var node := order[i];
      var deps := if node in graph then graph[node] else {};
      if !(deps <= depth.Keys) {
        ghost var missing :| missing in deps && missing !in depth;
        NotDepsFirst(graph, order, i, missing);
        return None;
      }
      var d := DepthAbove(depth, deps);
      AddDepth(graph, depth, node, d);
      ExtendOrder(graph, order, i);
      depth := depth[node := d];
    }
    assert order[..|order|] == order;
    assert order[0] in depth;
    var groups := GroupByDepth(depth);
    GroupsAreLayers(graph, depth, groups);
    return Some(groups);
  }

  /** A dependency lies in a strictly earlier group than its dependent. */
  lemma DependenciesInEarlierGroups<N(!new)>(g: Dag<N>, nodes: set<N>, groups: seq<set<N>>,
                                             k: nat, n: N, j: nat, d: N)
    requires Layered(g, nodes, groups) && Edge(g, n, d)
    requires k < |groups| && n in groups[k] && j < |groups| && d in groups[j]
    ensures j < k
  {
    assert LongestChain(g, d, j) && LongestChain(g, n, k);
    var c :| Chain(g, d, j, c);
    ExtendWalk(g, n, c);
    assert Chain(g, n, j + 1, [n] + c);
  }

  /** No assignment of layers that respects the dependencies gets by with fewer layers. */
  lemma FewestLayers<N(!new)>(g: Dag<N>, nodes: set<N>, groups: seq<set<N>>, layer: map<N, int>, count: nat)
    requires Layered(g, nodes, groups) && Closed(g) && nodes == g.Keys == layer.Keys
    requires forall n :: n in layer ==> 0 <= layer[n] < count
    requires forall n, d :: Edge(g, n, d) && n in layer && d in layer ==> layer[d] < layer[n]
    ensures |groups| <= count
  {
    if groups != [] {
      var k := |groups| - 1;
      assert groups[k] != {};
      var n :| n in groups[k];
      assert LongestChain(g, n, k);
      var c :| Chain(g, n, k, c);
      if k > 0 { NodesStayInside(g, c); }
      forall i | 0 <= i < |c| ensures c[i] in layer { assert c[i] in Elements(c); }
      WalkLowersRank(g, layer, c);
    }
  }
}
