/** Depth-first cycle detection over a module dependency map (tools/analyze-simple.js).
    `FindCycles` is proved sound and complete: everything it reports is a simple closed walk along dependency edges, and
    every closed walk of the graph uses an edge that closes a reported one. */
module Cycles {

  datatype Node = Module(name: string)

  /** The dependency map. A dependency need not be a key: such a node simply has no outgoing edges. */
  type Graph = map<Node, seq<Node>>

  function Deps(g: Graph, n: Node): seq<Node> {
    if n in g then g[n] else []
  }

  predicate Edge(g: Graph, a: Node, b: Node) {
    b in Deps(g, a)
  }

  ghost predicate Walk(g: Graph, p: seq<Node>) {
    forall i, j :: 0 <= i < |p| && j == i + 1 < |p| ==> Edge(g, p[i], p[j])
  }

  /** A walk of at least one edge that returns to where it started. */
  ghost predicate ClosedWalk(g: Graph, p: seq<Node>) {
    2 <= |p| && p[0] == p[|p| - 1] && Walk(g, p)
  }

  ghost predicate Distinct(p: seq<Node>) {
    forall i, j :: 0 <= i < j < |p| ==> p[i] != p[j]
  }

  /** A closed walk that visits no node twice before it closes. */
  ghost predicate SimpleCycle(g: Graph, p: seq<Node>) {
    ClosedWalk(g, p) && Distinct(p[..|p| - 1])
  }

  ghost predicate Acyclic(g: Graph) {
    forall p :: !ClosedWalk(g, p)
  }

  function Elements(p: seq<Node>): set<Node> {
    set x | x in p
  }

  function Nodes(g: Graph): set<Node> {
    g.Keys + set n, d | n in g && d in g[n] :: d
  }

  lemma DepIsNode(g: Graph, a: Node, b: Node)
    requires Edge(g, a, b)
    ensures b in Nodes(g)
  {
    assert a in g && b in g[a];
  }

  /** The edge from `a` to `b` is the last one of `c`. */
  predicate Closes(c: seq<Node>, a: Node, b: Node) {
    |c| >= 2 && c[|c| - 2] == a && c[|c| - 1] == b
  }

  /** The edge from `a` to `b` closes a reported cycle. */
  ghost predicate Closing(cycles: seq<seq<Node>>, a: Node, b: Node) {
    exists i :: 0 <= i < |cycles| && Closes(cycles[i], a, b)
  }

  /** The walk uses an edge that closes a reported cycle. */
  ghost predicate Caught(cycles: seq<seq<Node>>, p: seq<Node>) {
    exists k, m :: 0 <= k < |p| && m == k + 1 < |p| && Closing(cycles, p[k], p[m])
  }

  /** Every edge that leaves a ranked node closes a reported cycle or enters a ranked node of smaller rank. */
  ghost predicate Descends(g: Graph, rank: map<Node, nat>, cycles: seq<seq<Node>>) {
    forall a, b :: a in rank && Edge(g, a, b) && !Closing(cycles, a, b) ==> b in rank && rank[b] < rank[a]
  }

  lemma {:induction false} WalkDescends(g: Graph, rank: map<Node, nat>, cycles: seq<seq<Node>>, p: seq<Node>, k: nat)
    requires Descends(g, rank, cycles) && Walk(g, p) && !Caught(cycles, p) && k < |p| && p[0] in rank
    ensures p[k] in rank && rank[p[k]] + k <= rank[p[0]]
  {
    if k > 0 {
      WalkDescends(g, rank, cycles, p, k - 1);
      assert Edge(g, p[k - 1], p[k]) && !Closing(cycles, p[k - 1], p[k]);
    }
  }

  /** With a ranking of all keys that descends along all other edges, every closed walk uses a closing edge. */
  lemma RankedIsCaught(g: Graph, rank: map<Node, nat>, cycles: seq<seq<Node>>, p: seq<Node>)
    requires Descends(g, rank, cycles) && g.Keys <= rank.Keys && ClosedWalk(g, p)
    ensures Caught(cycles, p)
  {
    assert Edge(g, p[0], p[1]);
    if !Caught(cycles, p) {
      WalkDescends(g, rank, cycles, p, |p| - 1);
    }
  }

  /** The first position of `x`, as `Array.indexOf` finds it. */
  function IndexOf(p: seq<Node>, x: Node): (i: nat)
    requires x in p
    ensures i < |p| && p[i] == x
  {
    if p[0] == x then 0 else 1 + IndexOf(p[1..], x)
  }

  lemma BackEdgeClosesCycle(g: Graph, path: seq<Node>, idx: nat)
    requires Walk(g, path) && Distinct(path) && idx < |path|
    requires Edge(g, path[|path| - 1], path[idx])
    ensures SimpleCycle(g, path[idx..] + [path[idx]])
  {
    var c := path[idx..] + [path[idx]];
    forall i, j | 0 <= i < |c| && j == i + 1 < |c| ensures Edge(g, c[i], c[j]) {
      assert c[i] == path[idx + i];
      assert c[j] == if idx + j < |path| then path[idx + j] else path[idx];
    }
    assert c[..|c| - 1] == path[idx..];
  }

  /** What holds between any two steps of the search. The finished nodes are the visited ones that left
      the stack, and their finishing order descends along every edge that closes no reported cycle. */
  ghost predicate Sound(g: Graph, visited: set<Node>, stack: set<Node>, cycles: seq<seq<Node>>, rank: map<Node, nat>, clock: nat)
  {
    && visited <= Nodes(g)
    && stack <= visited
    && rank.Keys == visited - stack
    && (forall n :: n in rank ==> rank[n] < clock)
    && Descends(g, rank, cycles)
    && Reported(g, cycles)
  }

  ghost predicate Reported(g: Graph, cycles: seq<seq<Node>>) {
    forall i :: 0 <= i < |cycles| ==> SimpleCycle(g, cycles[i])
  }

  /** The node under exploration: `path` leads to it and lists exactly the stack. */
  ghost predicate OnPath(g: Graph, path: seq<Node>, stack: set<Node>) {
    Walk(g, path) && Distinct(path) && Elements(path) == stack
  }

  lemma ExtendPath(g: Graph, path: seq<Node>, stack: set<Node>, node: Node)
    requires OnPath(g, path, stack) && node !in stack
    requires path != [] ==> Edge(g, path[|path| - 1], node)
    ensures OnPath(g, path + [node], stack + {node})
  {
    var here := path + [node];
    assert Elements(here) == Elements(path) + {node};
    forall i | 0 <= i < |path| ensures path[i] != node {
      assert path[i] in Elements(path);
    }
  }

  lemma ReportedExtend(g: Graph, cycles: seq<seq<Node>>, c: seq<Node>)
    requires Reported(g, cycles) && SimpleCycle(g, c)
    ensures Reported(g, cycles + [c])
  {
  }

  /** More reports close no fewer edges. */
  lemma ClosingStays(cycles: seq<seq<Node>>, more: seq<seq<Node>>, a: Node, b: Node)
    requires cycles <= more && Closing(cycles, a, b)
    ensures Closing(more, a, b)
  {
    var i :| 0 <= i < |cycles| && Closes(cycles[i], a, b);
    assert more[i] == cycles[i];
  }

  lemma DescendsStays(g: Graph, rank: map<Node, nat>, cycles: seq<seq<Node>>, more: seq<seq<Node>>)
    requires Descends(g, rank, cycles) && cycles <= more
    ensures Descends(g, rank, more)
  {
    forall a, b | a in rank && Edge(g, a, b) && !Closing(more, a, b) ensures b in rank && rank[b] < rank[a] {
      if Closing(cycles, a, b) {
        ClosingStays(cycles, more, a, b);
      }
    }
  }

  /** A node whose dependencies are finished or close a cycle can finish next. */
  lemma FinishDescends(g: Graph, rank: map<Node, nat>, cycles: seq<seq<Node>>, node: Node, clock: nat)
    requires Descends(g, rank, cycles) && node !in rank
    requires forall n :: n in rank ==> rank[n] < clock
    requires forall d :: d in Deps(g, node) ==> d in rank || Closing(cycles, node, d)
    ensures Descends(g, rank[node := clock], cycles)
  {
    var r := rank[node := clock];
    forall a, b | a in r && Edge(g, a, b) && !Closing(cycles, a, b) ensures b in r && r[b] < r[a] {
      if a != node {
        assert b in rank;
      }
    }
  }

  /** Dependency `d` of `node` is explored, and if it is still on the stack its edge closes a reported cycle. */
  ghost predicate Handled(visited: set<Node>, stack: set<Node>, cycles: seq<seq<Node>>, node: Node, d: Node) {
    d in visited && (d in stack ==> Closing(cycles, node, d))
  }

  lemma HandledStays(visited: set<Node>, stack: set<Node>, cycles: seq<seq<Node>>, visited': set<Node>, cycles': seq<seq<Node>>,
                     node: Node, d: Node)
    requires Handled(visited, stack, cycles, node, d) && visited <= visited' && cycles <= cycles'
    ensures Handled(visited', stack, cycles', node, d)
  {
    if d in stack {
      ClosingStays(cycles, cycles', node, d);
    }
  }

  lemma FinishSound(g: Graph, visited: set<Node>, stack: set<Node>, cycles: seq<seq<Node>>, rank: map<Node, nat>, clock: nat, node: Node)
    requires Sound(g, visited, stack, cycles, rank, clock) && node in stack
    requires forall j :: 0 <= j < |Deps(g, node)| ==> Handled(visited, stack, cycles, node, Deps(g, node)[j])
    ensures Sound(g, visited, stack - {node}, cycles, rank[node := clock], clock + 1)
  {
    forall d | d in Deps(g, node) ensures d in rank || Closing(cycles, node, d) {
      var j :| 0 <= j < |Deps(g, node)| && Deps(g, node)[j] == d;
      assert Handled(visited, stack, cycles, node, d);
    }
    FinishDescends(g, rank, cycles, node, clock);
  }

  class CycleFinder {
    const g: Graph
    var visited: set<Node>
    var stack: set<Node>
    var cycles: seq<seq<Node>>
    /** Finishing order of the nodes whose exploration is over; only the proof uses it. */
    ghost var rank: map<Node, nat>
    ghost var clock: nat

    constructor (g: Graph)
      ensures this.g == g && visited == {} && stack == {} && cycles == [] && Valid()
    {
      this.g := g;
      visited, stack, cycles, rank, clock := {}, {}, [], map[], 0;
    }

    ghost predicate Valid()
      reads this
    {
      Sound(g, visited, stack, cycles, rank, clock)
    }

    /** Records the cycle closed by a dependency that is still on the stack. */
    method Report(path: seq<Node>, dep: Node)
      requires Valid() && OnPath(g, path, stack) && dep in stack && path != []
      requires Edge(g, path[|path| - 1], dep)
      modifies this`cycles
      ensures Valid()
      ensures old(cycles) < cycles && |cycles| == |old(cycles)| + 1
      ensures Closing(cycles, path[|path| - 1], dep)
    {
      assert dep in Elements(path);
      var idx := IndexOf(path, dep);
      var c := path[idx..] + [dep];
      BackEdgeClosesCycle(g, path, idx);
      ReportedExtend(g, cycles, c);
      DescendsStays(g, rank, cycles, cycles + [c]);
      cycles := cycles + [c];
      assert Closes(cycles[|cycles| - 1], path[|path| - 1], dep);
    }

    /** Explores everything reachable from `node` through unvisited nodes. */
    method Dfs(node: Node, path: seq<Node>)
      requires Valid() && OnPath(g, path, stack)
      requires node in Nodes(g) && node !in visited
      requires path != [] ==> Edge(g, path[|path| - 1], node)
      modifies this
      ensures Valid()
      ensures stack == old(stack)
      ensures old(visited) + {node} <= visited
      ensures old(cycles) <= cycles
      decreases Nodes(g) - visited
    {
      ExtendPath(g, path, stack, node);
      visited := visited + {node};
      stack := stack + {node};
      var here := path + [node];
      label entered:
      var deps := Deps(g, node);
      var i := 0;
      while i < |deps|
        invariant 0 <= i <= |deps|
        invariant Valid() && stack == old@entered(stack)
        invariant old@entered(visited) <= visited
        invariant old(cycles) <= cycles
        invariant forall j :: 0 <= j < i ==> Handled(visited, stack, cycles, node, deps[j])
      {
        var dep := deps[i];
        ghost var visited0, cycles0 := visited, cycles;
        assert Edge(g, node, dep);
        if dep !in visited {
          DepIsNode(g, node, dep);
          Dfs(dep, here);
        } else if dep in stack {
          Report(here, dep);
        }
        forall j | 0 <= j < i ensures Handled(visited, stack, cycles, node, deps[j]) {
          HandledStays(visited0, stack, cycles0, visited, cycles, node, deps[j]);
        }
        i := i + 1;
      }
      FinishSound(g, visited, stack, cycles, rank, clock, node);
      stack := stack - {node};
      rank, clock := rank[node := clock], clock + 1;
    }
  }

  /** What a finished search has established. */
  lemma Verdict(g: Graph, visited: set<Node>, cycles: seq<seq<Node>>, rank: map<Node, nat>, clock: nat)
    requires Sound(g, visited, {}, cycles, rank, clock) && g.Keys <= visited
    ensures forall p :: ClosedWalk(g, p) ==> Caught(cycles, p)
    ensures cycles == [] <==> Acyclic(g)
  {
    forall p | ClosedWalk(g, p) ensures Caught(cycles, p) {
      RankedIsCaught(g, rank, cycles, p);
    }
    if cycles != [] {
      assert ClosedWalk(g, cycles[0]);
    }
  }

  /** All cycles the depth-first search reports, exploring the keys in the given order. */
  method FindCycles(g: Graph, keys: seq<Node>) returns (cycles: seq<seq<Node>>)
    requires Elements(keys) == g.Keys
    ensures forall i :: 0 <= i < |cycles| ==> SimpleCycle(g, cycles[i])
    ensures forall p :: ClosedWalk(g, p) ==> Caught(cycles, p)
    ensures cycles == [] <==> Acyclic(g)
  {
    var finder := new CycleFinder(g);
    var i := 0;
    while i < |keys|
      invariant 0 <= i <= |keys|
      invariant finder.Valid() && finder.stack == {} && fresh(finder) && finder.g == g
      invariant Elements(keys[..i]) <= finder.visited
    {
      assert keys[i] in Elements(keys);
      assert Elements(keys[..i + 1]) == Elements(keys[..i]) + {keys[i]};
      if keys[i] !in finder.visited {
        finder.Dfs(keys[i], []);
      }
      i := i + 1;
    }
    assert keys[..i] == keys;
    cycles := finder.cycles;
    Verdict(g, finder.visited, cycles, finder.rank, finder.clock);
  }
}
