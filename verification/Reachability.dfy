/**
 The downstream graph of the ownership policy: rejecting cycles by depth-first
 search, and collecting everything downstream of a node with a worklist.
 */
module Reachability {

  // A node's identifier and the identifiers of its downstream nodes.
  type Graph = map<string, seq<string>>

  /** No edge leaves the graph. */
  ghost predicate Closed(g: Graph) {
    forall n, d :: n in g && d in g[n] ==> d in g
  }

  /** `p` follows edges of the graph, in one or more steps. */
  ghost predicate Walk(g: Graph, p: seq<string>) {
    |p| >= 2 && forall i :: 0 <= i < |p| - 1 ==> p[i] in g && p[i + 1] in g[p[i]]
  }

  ghost predicate Reaches(g: Graph, a: string, b: string) {
    exists p :: Walk(g, p) && p[0] == a && p[|p| - 1] == b
  }

  ghost predicate Cyclic(g: Graph) {
    exists n :: n in g && Reaches(g, n, n)
  }

  lemma WalkReaches(g: Graph, p: seq<string>)
    requires Walk(g, p)
    ensures Reaches(g, p[0], p[|p| - 1])
  {
  }

  lemma EdgeReaches(g: Graph, a: string, b: string)
    requires a in g && b in g[a]
    ensures Reaches(g, a, b)
  {
    WalkReaches(g, [a, b]);
  }

  lemma ReachesFurther(g: Graph, a: string, b: string, c: string)
    requires Reaches(g, a, b) && b in g && c in g[b]
    ensures Reaches(g, a, c)
  {
    var p :| Walk(g, p) && p[0] == a && p[|p| - 1] == b;
    WalkReaches(g, p + [c]);
  }

  // ---- rejecting cycles ----

  /** Every listed node comes after all its downstream nodes. */
  ghost predicate Topological(g: Graph, order: seq<string>) {
    forall i :: 0 <= i < |order| ==> order[i] in g && forall d :: d in g[order[i]] ==> d in order[..i]
  }

  ghost function Rank(order: seq<string>, n: string): nat
    requires n in order
    ensures Rank(order, n) < |order| && order[Rank(order, n)] == n && n !in order[..Rank(order, n)]
  {
    if order[0] == n then 0 else 1 + Rank(order[1..], n)
  }

  lemma EdgeLowersRank(g: Graph, order: seq<string>, a: string, b: string)
    requires Topological(g, order) && a in order && b in g[a]
    ensures b in order && Rank(order, b) < Rank(order, a)
  {
    var i := Rank(order, a);
    assert b in order[..i];
    var j :| 0 <= j < i && order[j] == b;
    RankIsFirst(order, b, j);
  }

  lemma {:induction false} RankIsFirst(order: seq<string>, n: string, j: nat)
    requires j < |order| && order[j] == n
    ensures Rank(order, n) <= j
  {
    if j > 0 { RankIsFirst(order[1..], n, j - 1); }
  }

  lemma TopologicalAppend(g: Graph, order: seq<string>, n: string)
    requires Topological(g, order) && n in g && forall d :: d in g[n] ==> d in order
    ensures Topological(g, order + [n])
  {
    var longer := order + [n];
    forall i, d | 0 <= i < |longer| && d in g[longer[i]] ensures d in longer[..i] {
      assert longer[..i] == order[..i];
      if i == |order| { assert order[..i] == order; } else { assert longer[i] == order[i]; }
    }
  }

  lemma {:induction false} WalkLowersRank(g: Graph, order: seq<string>, p: seq<string>)
    requires Topological(g, order) && Walk(g, p) && p[0] in order
    ensures p[|p| - 1] in order && Rank(order, p[|p| - 1]) < Rank(order, p[0])
  {
    EdgeLowersRank(g, order, p[0], p[1]);
    if |p| > 2 { WalkLowersRank(g, order, p[1..]); }
  }

  lemma TopologicalIsAcyclic(g: Graph, order: seq<string>)
    requires Topological(g, order) && forall n :: n in g ==> n in order
    ensures !Cyclic(g)
  {
    if n :| n in g && Reaches(g, n, n) {
      var p :| Walk(g, p) && p[0] == n && p[|p| - 1] == n;
      WalkLowersRank(g, order, p);
      assert false;
    }
  }

  /** The two sets the recursive visit shares. */
  class CycleSearch {
    const graph: Graph
    var active: set<string>
    var complete: set<string>
    ghost var path: seq<string>   // the active nodes, outermost first
    ghost var order: seq<string>  // the complete nodes, first completed first

    ghost predicate Valid()
      reads this
    {
      && Closed(graph)
      && active <= graph.Keys
      && active == (set n | n in path) && complete == (set n | n in order)
      && (|path| >= 2 ==> Walk(graph, path))
      && Topological(graph, order)
    }

    constructor (g: Graph)
      requires Closed(g)
      ensures graph == g && Valid() && active == {} && path == []
    {
      graph, active, complete, path, order := g, {}, {}, [], [];
    }

    lemma BackEdgeIsCycle(n: string)
      requires Valid() && n in active && path != [] && n in graph[path[|path| - 1]]
      ensures Cyclic(graph)
    {
      var i :| 0 <= i < |path| && path[i] == n;
      WalkReaches(graph, path[i..] + [n]);
    }

    /** Visits everything below `n`; answers false when a node comes back to an active one. */
    method Visit(n: string) returns (ok: bool)
      requires Valid() && n in graph && (path != [] ==> n in graph[path[|path| - 1]])
      modifies this
      decreases graph.Keys - active
      ensures ok ==> Valid() && active == old(active) && path == old(path)
      ensures ok ==> old(complete) <= complete && n in complete
      ensures !ok ==> Cyclic(graph)
    {
      if n in active {
        BackEdgeIsCycle(n);
        return false;
      }
      if n in complete {
        return true;
      }
      active := active + {n};
      path := path + [n];
      var downstream := graph[n];
      for i := 0 to |downstream|
        invariant Valid() && active == old(active) + {n} && path == old(path) + [n]
        invariant old(complete) <= complete
        invariant forall k :: 0 <= k < i ==> downstream[k] in complete
      {
        ok := Visit(downstream[i]);
        if !ok {
          return false;
        }
      }
      active := active - {n};
      complete := complete + {n};
      path := old(path);
      TopologicalAppend(graph, order, n);
      order := order + [n];
      return true;
    }
  }

  /** The check raises if and only if the graph has a cycle. `names` are its nodes in any order. */
  method RejectCycles(g: Graph, names: seq<string>) returns (ok: bool)
    requires Closed(g) && forall n :: n in g <==> n in names
    ensures ok <==> !Cyclic(g)
  {
    var search := new CycleSearch(g);
    for i := 0 to |names|
      invariant search.Valid() && search.graph == g && search.active == {} && search.path == []
      invariant forall k :: 0 <= k < i ==> names[k] in search.complete
    {
      ok := search.Visit(names[i]);
      if !ok {
        return;
      }
    }
    TopologicalIsAcyclic(g, search.order);
    return true;
  }

  // ---- everything downstream ----

  /** A set that holds a node's downstream nodes and is closed under edges holds everything the node reaches. */
  lemma {:induction false} ClosedHoldsWalk(g: Graph, found: set<string>, p: seq<string>)
    requires Walk(g, p) && p[1] in found
    requires forall n :: n in found ==> n in g && forall d :: d in g[n] ==> d in found
    ensures p[|p| - 1] in found
  {
    if |p| > 2 { ClosedHoldsWalk(g, found, p[1..]); }
  }

  ghost function DownstreamOf(g: Graph, n: string): set<string> {
    set b | b in g && Reaches(g, n, b)
  }

  /** The worklist invariant: all that is found or pending is reachable, and nothing is forgotten. */
  ghost predicate Frontier(g: Graph, n: string, found: set<string>, pending: seq<string>)
    requires n in g
  {
    && (forall d :: d in pending ==> d in g && Reaches(g, n, d))
    && (forall d :: d in found ==> d in g && Reaches(g, n, d))
    && (forall d :: d in g[n] ==> d in found || d in pending)
    && (forall c, d :: c in found && d in g[c] ==> d in found || d in pending)
  }

  lemma FrontierStep(g: Graph, n: string, found: set<string>, rest: seq<string>, candidate: string)
    requires Closed(g) && n in g && Frontier(g, n, found, rest + [candidate])
    ensures candidate in found ==> Frontier(g, n, found, rest)
    ensures Frontier(g, n, found + {candidate}, rest + g[candidate])
  {
    forall d | d in rest ensures d in g && Reaches(g, n, d) { assert d in rest + [candidate]; }
    assert candidate in rest + [candidate];
    forall d | d in g[candidate] ensures Reaches(g, n, d) { ReachesFurther(g, n, candidate, d); }
  }

  lemma FrontierDone(g: Graph, n: string, found: set<string>)
    requires n in g && Frontier(g, n, found, [])
    ensures forall b :: b in found <==> Reaches(g, n, b)
    ensures found == DownstreamOf(g, n)
  {
    forall b | Reaches(g, n, b) ensures b in found {
      var p :| Walk(g, p) && p[0] == n && p[|p| - 1] == b;
      ClosedHoldsWalk(g, found, p);
    }
  }

  /** Exactly the nodes reachable in one or more steps. */
  method Downstream(g: Graph, n: string) returns (found: set<string>)
    requires Closed(g) && n in g
    ensures forall b :: b in found <==> Reaches(g, n, b)
    ensures found == DownstreamOf(g, n)
  {
    found := {};
    var pending := g[n];
    forall d | d in pending ensures Reaches(g, n, d) { EdgeReaches(g, n, d); }
    while pending != []
      invariant found <= g.Keys && Frontier(g, n, found, pending)
      decreases |g.Keys - found|, |pending|
    {
      var candidate, rest := pending[|pending| - 1], pending[..|pending| - 1];
      assert pending == rest + [candidate];
      FrontierStep(g, n, found, rest, candidate);
      pending := rest;
      if candidate !in found {
        assert g.Keys - (found + {candidate}) == (g.Keys - found) - {candidate};
        found := found + {candidate};
        pending := pending + g[candidate];
      }
    }
    FrontierDone(g, n, found);
  }
}
