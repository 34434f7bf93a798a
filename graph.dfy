/** The in-memory graph of graph.hpp: a map from node identifier to its set of
    neighbours. The bodies of the graph operations (graph.cpp) are not part
    of this model; they are given here the behaviour the status codes of the
    request handlers stand for: 200 the operation took effect, 204 it had
    already, 400 its operands name an absent node or edge or a self loop. */
module GraphStore {
  import opened Types
  import opened Blocks

  const OK: int := 200
  const ALREADY_EXISTS: int := 204
  const INVALID: int := 400

  type Adjacency = map<u64, set<u64>>

  /** Undirected and loop free: every neighbour is a node that lists the
      first one back. */
  predicate WellFormed(g: Adjacency) {
    forall a, b :: a in g && b in g[a] ==> b in g && a in g[b] && a != b
  }

  predicate HasEdge(g: Adjacency, a: u64, b: u64) {
    a in g && b in g[a]
  }

  datatype Outcome = Outcome(status: int, graph: Adjacency)

  /** `addNode`, `addEdge`, `removeNode` and `removeEdge`. */
  function Apply(g: Adjacency, op: Op): (r: Outcome)
    ensures r.status == OK || r.status == ALREADY_EXISTS || r.status == INVALID
    ensures r.status != OK ==> r.graph == g
    ensures op.AddNodeOp? ==>
              (r.status == OK <==> op.n !in g) && r.graph.Keys == g.Keys + {op.n}
    ensures op.AddEdgeOp? ==>
              (r.status == INVALID <==> op.a == op.b || op.a !in g || op.b !in g)
              && (r.status == ALREADY_EXISTS <==> op.a != op.b && op.a in g && op.b in g && op.b in g[op.a])
              && r.graph.Keys == g.Keys
              && (r.status != INVALID ==> HasEdge(r.graph, op.a, op.b))
              && (r.status == OK ==> HasEdge(r.graph, op.b, op.a))
    ensures op.RemoveNodeOp? ==>
              (r.status == OK <==> op.n in g)
              && r.graph.Keys == g.Keys - {op.n}
              && (r.status == OK ==> forall k :: k in r.graph ==> op.n !in r.graph[k])
    ensures op.RemoveEdgeOp? ==>
              (r.status == OK <==> HasEdge(g, op.a, op.b))
              && r.graph.Keys == g.Keys
              && !HasEdge(r.graph, op.a, op.b)
              && (r.status == OK && op.b in g ==> !HasEdge(r.graph, op.b, op.a))
    // What a 200 leaves: the operands' neighbour sets changed as the
    // operation says, every other node's set as it was.
    ensures op.AddNodeOp? && r.status == OK ==>
              r.graph[op.n] == {} && forall k :: k in g ==> r.graph[k] == g[k]
    ensures op.AddEdgeOp? && r.status == OK ==>
              forall k :: k in g ==> r.graph[k] == (if k == op.a then g[k] + {op.b} else if k == op.b then g[k] + {op.a} else g[k])
    ensures op.RemoveNodeOp? && r.status == OK ==>
              forall k :: k in r.graph ==> r.graph[k] == g[k] - {op.n}
    ensures op.RemoveEdgeOp? && r.status == OK ==>
              forall k :: k in g ==> r.graph[k] == (if k == op.a then g[k] - {op.b} else if k == op.b then g[k] - {op.a} else g[k])
  {
    match op
    case AddNodeOp(n) =>
      if n in g then Outcome(ALREADY_EXISTS, g) else Outcome(OK, g[n := {}])
    case AddEdgeOp(a, b) =>
      if a == b || a !in g || b !in g then Outcome(INVALID, g)
      else if b in g[a] then Outcome(ALREADY_EXISTS, g)
      else
        var g1 := g[a := g[a] + {b}];
        Outcome(OK, g1[b := g1[b] + {a}])
    case RemoveNodeOp(n) =>
      if n !in g then Outcome(INVALID, g)
      else Outcome(OK, map k | k in g && k != n :: g[k] - {n})
    case RemoveEdgeOp(a, b) =>
      if !HasEdge(g, a, b) then Outcome(INVALID, g)
      else
        var g1 := g[a := g[a] - {b}];
        Outcome(OK, if b in g1 then g1[b := g1[b] - {a}] else g1)
  }

  /** The symmetry invariant: every mutation keeps the graph undirected and
      loop free, whatever its status. */
  lemma {:induction false} ApplyPreservesWellFormed(g: Adjacency, op: Op)
    requires WellFormed(g)
    ensures WellFormed(Apply(g, op).graph)
  {
    var r := Apply(g, op).graph;
    match op
    case AddNodeOp(n) =>
      forall a, b | a in r && b in r[a] ensures b in r && a in r[b] && a != b {
        assert a in g && b in g[a];
      }
    case AddEdgeOp(x, y) =>
      forall a, b | a in r && b in r[a] ensures b in r && a in r[b] && a != b {
        if Apply(g, op).status == OK && ((a == x && b == y) || (a == y && b == x)) {
        } else {
          assert b in g[a];
        }
      }
    case RemoveNodeOp(n) =>
    case RemoveEdgeOp(x, y) =>
      forall a, b | a in r && b in r[a] ensures b in r && a in r[b] && a != b {
        assert b in g[a];
      }
  }

  /** `getNode`: always answers, with the membership flag. */
  function GetNode(g: Adjacency, n: u64): (r: (int, bool))
    ensures r.0 == OK && (r.1 <==> n in g)
  {
    (OK, n in g)
  }

  /** `getEdge`: the adjacency flag, or 400 when an endpoint is absent. */
  function GetEdge(g: Adjacency, a: u64, b: u64): (r: (int, bool))
    ensures r.0 == INVALID <==> a !in g || b !in g
    ensures r.0 != INVALID ==> r.0 == OK && (r.1 <==> b in g[a])
  {
    if a !in g || b !in g then (INVALID, false) else (OK, b in g[a])
  }

  /** No element occurs twice. */
  ghost predicate Distinct<T>(xs: seq<T>) {
    forall i, j :: 0 <= i < j < |xs| ==> xs[i] != xs[j]
  }

  /** A sequence that lists every element of `s` exactly once. */
  ghost predicate Lists<T(!new)>(xs: seq<T>, s: set<T>) {
    (forall x :: x in xs <==> x in s) && Distinct(xs)
  }

  /** The graph of graph.hpp, updated in place by the mutations. */
  class Graph {
    var g: Adjacency

    constructor()
      ensures g == map[]
    {
      g := map[];
    }

    method Mutate(op: Op) returns (status: int)
      modifies this
      ensures Outcome(status, g) == Apply(old(g), op)
    {
      var r := Apply(g, op);
      status, g := r.status, r.graph;
    }

    /** `getNeighbors`: the neighbour set in some order, or 400. */
    method GetNeighbors(n: u64) returns (status: int, nodes: seq<u64>)
      ensures status == OK <==> n in g
      ensures status != OK ==> status == INVALID && nodes == []
      ensures status == OK ==> Lists(nodes, g[n])
    {
      if n !in g {
        return INVALID, [];
      }
      status, nodes := OK, [];
      var rest := g[n];
      while rest != {}
        invariant rest <= g[n]
        invariant forall x :: x in nodes <==> x in g[n] - rest
        invariant forall i, j :: 0 <= i < j < |nodes| ==> nodes[i] != nodes[j]
        decreases |rest|
      {
        var x :| x in rest;
        nodes, rest := nodes + [x], rest - {x};
      }
    }
  }

  /** A session on an empty graph: add nodes 1 and 2, add the edge 1-2
      twice (the second time it already exists), then remove node 1. */
  lemma {:induction false} ExampleSession()
    ensures var g0: Adjacency := map[];
      var r1 := Apply(g0, AddNodeOp(1));
      var r2 := Apply(r1.graph, AddNodeOp(2));
      var r3 := Apply(r2.graph, AddEdgeOp(1, 2));
      var r4 := Apply(r3.graph, AddEdgeOp(1, 2));
      var r5 := Apply(r4.graph, RemoveNodeOp(1));
      r1.status == OK && r2.status == OK && r3.status == OK && r4.status == ALREADY_EXISTS
      && r5.status == OK && GetEdge(r5.graph, 1, 2).0 == INVALID
      && 2 in r5.graph && r5.graph[2] == {}
  {
    var g0: Adjacency := map[];
    var r1 := Apply(g0, AddNodeOp(1));
    assert r1.graph == map[1 := {}];
    var r2 := Apply(r1.graph, AddNodeOp(2));
    assert r2.graph == map[1 := {}, 2 := {}];
    var r3 := Apply(r2.graph, AddEdgeOp(1, 2));
    var g1 := r2.graph[1 := r2.graph[1] + {2}];
    assert r3.graph == g1[2 := g1[2] + {1}];
    assert r2.graph[1] + {2} == {2};
    assert g1 == map[1 := {2}, 2 := {}];
    assert g1[2] + {1} == {1};
    assert r3.graph == map[1 := {2}, 2 := {1}];
    var r5 := Apply(r3.graph, RemoveNodeOp(1));
    assert r5.graph == map[2 := {}];
  }
}
