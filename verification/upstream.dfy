/** The ancestor resolver of app/src/helpers/utils.ts: a reverse adjacency map
    and a depth-first search guarded by a visited set. */
module Upstream {
  import opened GraphTypes
  import opened Collections

  /** target -> the sources of the edges into it, in edge order. */
  type Adjacency = map<NodeId, seq<NodeId>>

  function EdgeTarget(e: Edge): NodeId { e.target }
  function EdgeSource(e: Edge): NodeId { e.source }

  /** The `adj` record built by pushing each edge's source under its target. */
  function ReverseAdjacency(edges: seq<Edge>): (adj: Adjacency)
    ensures forall t :: Lookup(adj, t) == Collect(edges, EdgeTarget, EdgeSource, t)
    ensures adj.Keys == KeysOf(edges, EdgeTarget)
  {
    GroupBy(edges, EdgeTarget, EdgeSource)
  }

  /** A node is listed under `t` exactly when it is the source of an edge into `t`. */
  lemma AdjacencyIsEdges(edges: seq<Edge>, s: NodeId, t: NodeId)
    ensures s in Lookup(ReverseAdjacency(edges), t) <==> Edge(s, t) in edges
  {
    if Edge(s, t) in edges {
      assert EdgeTarget(Edge(s, t)) == t && EdgeSource(Edge(s, t)) == s;
    }
  }

  lemma NoIncomingNoSources(edges: seq<Edge>, t: NodeId)
    ensures (forall e :: e in edges ==> e.target != t) ==> Lookup(ReverseAdjacency(edges), t) == []
  {
    forall x | x in Lookup(ReverseAdjacency(edges), t) ensures exists e :: e in edges && e.target == t {
      AdjacencyIsEdges(edges, x, t);
    }
  }

  /** Every node listed anywhere in the adjacency map: the bound of the search. */
  ghost function Universe(adj: Adjacency): set<NodeId> {
    set t, x | t in adj && x in adj[t] :: x
  }

  lemma ListedInUniverse(adj: Adjacency, t: NodeId)
    ensures forall x :: x in Lookup(adj, t) ==> x in Universe(adj)
  {
    forall x | x in Lookup(adj, t) ensures x in Universe(adj) {
      assert t in adj && x in adj[t];
    }
  }

  /** Marking one more unvisited node of the universe shrinks what is left. */
  lemma MeasureShrinks(u: set<NodeId>, visited: seq<NodeId>, x: NodeId)
    requires x in u && x !in visited
    ensures |u - Elems(visited + [x])| < |u - Elems(visited)|
  {
    assert u - Elems(visited + [x]) == (u - Elems(visited)) - {x};
  }

  /** Growing the visited list never enlarges what is left. */
  lemma MeasureMonotone(u: set<NodeId>, visited: seq<NodeId>, more: seq<NodeId>)
    requires visited <= more
    ensures |u - Elems(more)| <= |u - Elems(visited)|
  {
    assert u - Elems(more) <= u - Elems(visited);
    SubsetCard(u - Elems(more), u - Elems(visited));
  }

  lemma {:induction false} SubsetCard(a: set<NodeId>, b: set<NodeId>)
    requires a <= b
    ensures |a| <= |b|
    decreases |b|
  {
    if a != {} {
      var x :| x in a;
      SubsetCard(a - {x}, b - {x});
    }
  }

  /** `dfs(id)`: visits, in order, each source of `id` that is not yet visited,
      marking it before descending into it. */
  function Dfs(adj: Adjacency, id: NodeId, visited: seq<NodeId>): (r: seq<NodeId>)
    ensures visited <= r
    ensures forall x :: x in r ==> x in visited || x in Universe(adj)
    ensures Distinct(visited) ==> Distinct(r)
    decreases |Universe(adj) - Elems(visited)|, 1, 0
  {
    ListedInUniverse(adj, id);
    DfsEach(adj, Lookup(adj, id), visited)
  }

  /** The `forEach` over one adjacency list, threading the visited list. */
  function DfsEach(adj: Adjacency, srcs: seq<NodeId>, visited: seq<NodeId>): (r: seq<NodeId>)
    requires forall x :: x in srcs ==> x in Universe(adj)
    ensures visited <= r
    ensures forall x :: x in r ==> x in visited || x in Universe(adj)
    ensures Distinct(visited) ==> Distinct(r)
    decreases |Universe(adj) - Elems(visited)|, 0, |srcs|
  {
    if srcs == [] then visited
    else if srcs[0] in visited then DfsEach(adj, srcs[1..], visited)
    else
      var src := srcs[0];
      MeasureShrinks(Universe(adj), visited, src);
      var next := Dfs(adj, src, visited + [src]);
      MeasureMonotone(Universe(adj), visited, next);
      DfsEach(adj, srcs[1..], next)
  }

  /** `getUpstreamNodeIds(startId, edges)`: every node found by walking edges
      backwards from `startId`, in the order the search first reached it. */
  function UpstreamNodeIds(startId: NodeId, edges: seq<Edge>): (r: seq<NodeId>)
    ensures Distinct(r)
    ensures forall x :: x in r ==> exists e :: e in edges && e.source == x
    ensures (forall e :: e in edges ==> e.target != startId) ==> r == []
  {
    var adj := ReverseAdjacency(edges);
    var r := Dfs(adj, startId, []);
    forall x | x in r ensures exists e :: e in edges && e.source == x {
      var t :| t in adj && x in adj[t];
      AdjacencyIsEdges(edges, x, t);
    }
    NoIncomingNoSources(edges, startId);
    assert Lookup(adj, startId) == [] ==> r == DfsEach(adj, [], []);
    r
  }

  // ---------------------------------------------------------------------------
  // Reachability

  /** `p` is a walk of at least one edge. */
  ghost predicate IsPath(edges: seq<Edge>, p: seq<NodeId>) {
    |p| >= 2 && forall i :: 0 <= i < |p| - 1 ==> Edge(p[i], p[i + 1]) in edges
  }

  /** `x` reaches `y` by following one or more edges. */
  ghost predicate Reaches(edges: seq<Edge>, x: NodeId, y: NodeId) {
    exists p :: IsPath(edges, p) && p[0] == x && p[|p| - 1] == y
  }

  ghost predicate Acyclic(edges: seq<Edge>) {
    forall x :: !Reaches(edges, x, x)
  }

  /** One edge in front of a walk is a longer walk. */
  lemma ReachesStep(edges: seq<Edge>, s: NodeId, t: NodeId, y: NodeId)
    requires Edge(s, t) in edges
    requires t == y || Reaches(edges, t, y)
    ensures Reaches(edges, s, y)
  {
    if t == y {
      assert IsPath(edges, [s, t]);
    } else {
      var p :| IsPath(edges, p) && p[0] == t && p[|p| - 1] == y;
      var q := [s] + p;
      assert forall i :: 1 <= i < |q| - 1 ==> q[i] == p[i - 1] && q[i + 1] == p[i];
      assert IsPath(edges, q);
    }
  }

  // ---------------------------------------------------------------------------
  // Soundness: everything found reaches the start node

  lemma {:induction false} DfsSound(edges: seq<Edge>, start: NodeId, id: NodeId, visited: seq<NodeId>)
    requires id == start || Reaches(edges, id, start)
    requires forall x :: x in visited ==> Reaches(edges, x, start)
    ensures forall x :: x in Dfs(ReverseAdjacency(edges), id, visited) ==> Reaches(edges, x, start)
    decreases |Universe(ReverseAdjacency(edges)) - Elems(visited)|, 1, 0
  {
    var adj := ReverseAdjacency(edges);
    ListedInUniverse(adj, id);
    forall x | x in Lookup(adj, id) ensures Reaches(edges, x, start) {
      AdjacencyIsEdges(edges, x, id);
      ReachesStep(edges, x, id, start);
    }
    DfsEachSound(edges, start, Lookup(adj, id), visited);
  }

  lemma {:induction false} DfsEachSound(edges: seq<Edge>, start: NodeId, srcs: seq<NodeId>, visited: seq<NodeId>)
    requires forall x :: x in srcs ==> x in Universe(ReverseAdjacency(edges)) && Reaches(edges, x, start)
    requires forall x :: x in visited ==> Reaches(edges, x, start)
    ensures forall x :: x in DfsEach(ReverseAdjacency(edges), srcs, visited) ==> Reaches(edges, x, start)
    decreases |Universe(ReverseAdjacency(edges)) - Elems(visited)|, 0, |srcs|
  {
    var adj := ReverseAdjacency(edges);
    if srcs != [] {
      if srcs[0] in visited {
        DfsEachSound(edges, start, srcs[1..], visited);
      } else {
        var src := srcs[0];
        MeasureShrinks(Universe(adj), visited, src);
        DfsSound(edges, start, src, visited + [src]);
        var next := Dfs(adj, src, visited + [src]);
        MeasureMonotone(Universe(adj), visited, next);
        DfsEachSound(edges, start, srcs[1..], next);
      }
    }
  }

  /** Soundness: every returned id reaches `startId` along the edges. */
  lemma UpstreamSound(startId: NodeId, edges: seq<Edge>, x: NodeId)
    requires x in UpstreamNodeIds(startId, edges)
    ensures Reaches(edges, x, startId)
  {
    DfsSound(edges, startId, startId, []);
  }

  // ---------------------------------------------------------------------------
  // Closure: the sources of everything found are found

  /** All sources of `x` are in `r`. */
  ghost predicate SourcesWithin(adj: Adjacency, x: NodeId, r: seq<NodeId>) {
    forall y :: y in Lookup(adj, x) ==> y in r
  }

  lemma {:induction false} DfsClosed(adj: Adjacency, id: NodeId, visited: seq<NodeId>)
    ensures var r := Dfs(adj, id, visited);
            SourcesWithin(adj, id, r) && forall x :: x in r && x !in visited ==> SourcesWithin(adj, x, r)
    decreases |Universe(adj) - Elems(visited)|, 1, 0
  {
    ListedInUniverse(adj, id);
    DfsEachClosed(adj, Lookup(adj, id), visited);
  }

  lemma {:induction false} DfsEachClosed(adj: Adjacency, srcs: seq<NodeId>, visited: seq<NodeId>)
    requires forall x :: x in srcs ==> x in Universe(adj)
    ensures var r := DfsEach(adj, srcs, visited);
            (forall y :: y in srcs ==> y in r) && forall x :: x in r && x !in visited ==> SourcesWithin(adj, x, r)
    decreases |Universe(adj) - Elems(visited)|, 0, |srcs|
  {
    if srcs != [] {
      var r := DfsEach(adj, srcs, visited);
      if srcs[0] in visited {
        DfsEachClosed(adj, srcs[1..], visited);
        assert visited <= r;
      } else {
        var src := srcs[0];
        MeasureShrinks(Universe(adj), visited, src);
        DfsClosed(adj, src, visited + [src]);
        var next := Dfs(adj, src, visited + [src]);
        MeasureMonotone(Universe(adj), visited, next);
        DfsEachClosed(adj, srcs[1..], next);
        assert r == DfsEach(adj, srcs[1..], next);
        ClosedStep(adj, src, srcs[1..], visited, next, r);
      }
    }
  }

  /** A source list fully inside `a` is inside every extension of `a`. */
  lemma SourcesWithinGrow(adj: Adjacency, x: NodeId, a: seq<NodeId>, b: seq<NodeId>)
    requires SourcesWithin(adj, x, a) && a <= b
    ensures SourcesWithin(adj, x, b)
  {
    PrefixMembers(a, b);
  }

  /** The closure of one visit of `src` and of the rest of the list combine. */
  lemma ClosedStep(adj: Adjacency, src: NodeId, rest: seq<NodeId>, visited: seq<NodeId>,
                   next: seq<NodeId>, r: seq<NodeId>)
    requires visited + [src] <= next && next <= r
    requires SourcesWithin(adj, src, next)
    requires forall x :: x in next && x !in visited + [src] ==> SourcesWithin(adj, x, next)
    requires forall y :: y in rest ==> y in r
    requires forall x :: x in r && x !in next ==> SourcesWithin(adj, x, r)
    ensures forall y :: y in [src] + rest ==> y in r
    ensures forall x :: x in r && x !in visited ==> SourcesWithin(adj, x, r)
  {
    PrefixMembers(next, r);
    assert next[|visited|] == src;
    forall x | x in r && x !in visited ensures SourcesWithin(adj, x, r) {
      if x in next {
        assert SourcesWithin(adj, x, next);
        SourcesWithinGrow(adj, x, next, r);
      }
    }
  }

  /** Completeness, locally: every direct source of `startId` is returned, and
      every direct source of a returned id is returned. */
  lemma UpstreamClosed(startId: NodeId, edges: seq<Edge>, s: NodeId, t: NodeId)
    requires Edge(s, t) in edges
    requires t == startId || t in UpstreamNodeIds(startId, edges)
    ensures s in UpstreamNodeIds(startId, edges)
  {
    DfsClosed(ReverseAdjacency(edges), startId, []);
    AdjacencyIsEdges(edges, s, t);
  }

  /** Completeness: every node that reaches `startId` is returned. */
  lemma UpstreamComplete(startId: NodeId, edges: seq<Edge>, x: NodeId)
    requires Reaches(edges, x, startId)
    ensures x in UpstreamNodeIds(startId, edges)
  {
    var p :| IsPath(edges, p) && p[0] == x && p[|p| - 1] == startId;
    PathSuffixFound(startId, edges, p, 0);
  }

  lemma {:induction false} PathSuffixFound(startId: NodeId, edges: seq<Edge>, p: seq<NodeId>, k: nat)
    requires IsPath(edges, p) && p[|p| - 1] == startId
    requires k < |p| - 1
    ensures p[k] in UpstreamNodeIds(startId, edges)
    decreases |p| - k
  {
    if k + 1 < |p| - 1 {
      PathSuffixFound(startId, edges, p, k + 1);
    }
    UpstreamClosed(startId, edges, p[k], p[k + 1]);
  }

  /** The returned ids are exactly the nodes that reach `startId`. */
  lemma UpstreamIsAncestors(startId: NodeId, edges: seq<Edge>, x: NodeId)
    ensures x in UpstreamNodeIds(startId, edges) <==> Reaches(edges, x, startId)
  {
    if x in UpstreamNodeIds(startId, edges) {
      UpstreamSound(startId, edges, x);
    }
    if Reaches(edges, x, startId) {
      UpstreamComplete(startId, edges, x);
    }
  }

  /** On an acyclic graph the start node is never its own ancestor. */
  lemma UpstreamExcludesStart(startId: NodeId, edges: seq<Edge>)
    requires Acyclic(edges)
    ensures startId !in UpstreamNodeIds(startId, edges)
  {
    if startId in UpstreamNodeIds(startId, edges) {
      UpstreamSound(startId, edges, startId);
    }
  }

  /** With a cycle through the start node the start node is returned. */
  lemma UpstreamOfCycleIncludesStart(a: NodeId, b: NodeId)
    ensures a in UpstreamNodeIds(a, [Edge(a, b), Edge(b, a)])
  {
    var edges := [Edge(a, b), Edge(b, a)];
    UpstreamClosed(a, edges, b, a);
    UpstreamClosed(a, edges, a, b);
  }

  /** A sequence holding every member of `s` and nothing else has `s` as its elements. */
  lemma ElemsWithin(r: seq<NodeId>, s: set<NodeId>)
    requires forall w :: w in s ==> w in r
    requires forall w :: w in r ==> w in s
    ensures Elems(r) == s
  {
  }

  /** On a chain `x -> y -> z`, the upstream of `z` is `{x, y}`. */
  lemma UpstreamOfChainEnd(x: NodeId, y: NodeId, z: NodeId)
    ensures Elems(UpstreamNodeIds(z, [Edge(x, y), Edge(y, z)])) == {x, y}
  {
    var edges := [Edge(x, y), Edge(y, z)];
    var r := UpstreamNodeIds(z, edges);
    assert Edge(x, y) in edges && Edge(y, z) in edges;
    UpstreamClosed(z, edges, y, z);
    UpstreamClosed(z, edges, x, y);
    forall w | w in r ensures w in {x, y} {
      var e :| e in edges && e.source == w;
    }
    ElemsWithin(r, {x, y});
  }

  /** On a chain `x -> y -> z` of distinct nodes, the upstream of `y` is `{x}`. */
  lemma UpstreamOfChainMiddle(x: NodeId, y: NodeId, z: NodeId)
    requires x != y && y != z && x != z
    ensures Elems(UpstreamNodeIds(y, [Edge(x, y), Edge(y, z)])) == {x}
  {
    var edges := [Edge(x, y), Edge(y, z)];
    var r := UpstreamNodeIds(y, edges);
    assert Edge(x, y) in edges;
    UpstreamClosed(y, edges, x, y);
    forall w | w in r ensures w in {x} {
      ChainMiddleFound(x, y, z, w);
    }
    ElemsWithin(r, {x});
  }

  /** What the search from `y` finds on that chain is `x`. */
  lemma ChainMiddleFound(x: NodeId, y: NodeId, z: NodeId, w: NodeId)
    requires x != y && y != z && x != z
    requires w in UpstreamNodeIds(y, [Edge(x, y), Edge(y, z)])
    ensures w == x
  {
    var edges := [Edge(x, y), Edge(y, z)];
    var e :| e in edges && e.source == w;
    if w == y {
      UpstreamSound(y, edges, y);
      var p :| IsPath(edges, p) && p[0] == y && p[|p| - 1] == y;
      ChainPathFromY(x, y, z, p, |p| - 1);
    }
  }

  /** On that chain every walk that starts at `y` stays at `y` or `z` and never returns to `y`. */
  lemma {:induction false} ChainPathFromY(x: NodeId, y: NodeId, z: NodeId, p: seq<NodeId>, k: nat)
    requires x != y && y != z && x != z
    requires IsPath([Edge(x, y), Edge(y, z)], p) && p[0] == y
    requires k < |p|
    ensures k == 0 ==> p[k] == y
    ensures k > 0 ==> p[k] == z
    decreases k
  {
    if k > 0 {
      ChainPathFromY(x, y, z, p, k - 1);
      assert Edge(p[k - 1], p[k]) in [Edge(x, y), Edge(y, z)];
    }
  }

  /** Reordering the edge list changes at most the order of the result. */
  lemma UpstreamOrderIndependent(startId: NodeId, edges: seq<Edge>, edges': seq<Edge>)
    requires multiset(edges) == multiset(edges')
    ensures Elems(UpstreamNodeIds(startId, edges)) == Elems(UpstreamNodeIds(startId, edges'))
  {
    assert forall e :: e in edges <==> e in edges' by {
      forall e ensures e in edges <==> e in edges' {
        assert e in edges <==> e in multiset(edges);
        assert e in edges' <==> e in multiset(edges');
      }
    }
    assert forall p :: IsPath(edges, p) <==> IsPath(edges', p);
    forall x ensures x in UpstreamNodeIds(startId, edges) <==> x in UpstreamNodeIds(startId, edges') {
      UpstreamIsAncestors(startId, edges, x);
      UpstreamIsAncestors(startId, edges', x);
    }
  }
}
