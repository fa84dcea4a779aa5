/**
  The graph shared by every part of the engine: the `Graph` record of
  f1/src/main.rs (a vertex count and one adjacency list per vertex), and the
  reference definition of the adjacency lists that the builders in
  f1/src/main.rs and f1/src/bfs.rs produce, with its properties: bounds,
  multiplicity, symmetry, round trip and total length.
 */
module Graphs {

  type Vertex = nat

  /** An undirected edge as read from the input: a pair of vertex ids. */
  type Edge = (Vertex, Vertex)

  datatype Graph = Graph(n: nat, outedges: seq<seq<Vertex>>)

  /** The well-formedness every traversal relies on: one list per vertex and
      every neighbour a vertex of the graph. */
  predicate Valid(g: Graph) {
    |g.outedges| == g.n &&
    forall v, k :: 0 <= v < g.n && 0 <= k < |g.outedges[v]| ==> g.outedges[v][k] < g.n
  }

  predicate Distinct(s: seq<Vertex>) {
    forall i, j :: 0 <= i < j < |s| ==> s[i] != s[j]
  }

  /** `x` is one of the two ends of some edge. */
  predicate IsEndpoint(edges: seq<Edge>, x: Vertex) {
    exists i :: 0 <= i < |edges| && (edges[i].0 == x || edges[i].1 == x)
  }

  predicate EndpointsBelow(edges: seq<Edge>, n: nat) {
    forall i :: 0 <= i < |edges| ==> edges[i].0 < n && edges[i].1 < n
  }

  /** The two pushes made for one edge (a, b): b onto a's list, then a onto b's. */
  function AddEdge(adj: seq<seq<Vertex>>, a: Vertex, b: Vertex): (r: seq<seq<Vertex>>)
    requires a < |adj| && b < |adj|
    ensures |r| == |adj|
  {
    var once := adj[a := adj[a] + [b]];
    once[b := once[b] + [a]]
  }

  /** `n` empty adjacency lists, as `vec![vec![]; n]` makes them. */
  function EmptyLists(n: nat): seq<seq<Vertex>> {
    seq(n, _ => [])
  }

  /** The adjacency lists obtained from `n` empty lists by adding the edges in order. */
  function Adjacency(n: nat, edges: seq<Edge>): (adj: seq<seq<Vertex>>)
    requires EndpointsBelow(edges, n)
    ensures |adj| == n
    decreases |edges|
  {
    if |edges| == 0 then EmptyLists(n)
    else
      var last := edges[|edges| - 1];
      AddEdge(Adjacency(n, edges[..|edges| - 1]), last.0, last.1)
  }

  /** How many times the directed pair (v, w) occurs in the edge list. */
  function EdgeCount(edges: seq<Edge>, v: Vertex, w: Vertex): nat
    decreases |edges|
  {
    if |edges| == 0 then 0
    else EdgeCount(edges[..|edges| - 1], v, w) + (if edges[|edges| - 1] == (v, w) then 1 else 0)
  }

  /** The sum of the lengths of all adjacency lists. */
  function TotalLength(adj: seq<seq<Vertex>>): nat
    decreases |adj|
  {
    if |adj| == 0 then 0 else TotalLength(adj[..|adj| - 1]) + |adj[|adj| - 1]|
  }

  /** The pair (v, w) is counted exactly when it occurs in the list. */
  lemma {:induction false} EdgeCountPositive(edges: seq<Edge>, v: Vertex, w: Vertex)
    ensures EdgeCount(edges, v, w) > 0 <==> exists i :: 0 <= i < |edges| && edges[i] == (v, w)
    decreases |edges|
  {
    if |edges| > 0 {
      var prefix := edges[..|edges| - 1];
      EdgeCountPositive(prefix, v, w);
      if EdgeCount(prefix, v, w) > 0 {
        var i :| 0 <= i < |prefix| && prefix[i] == (v, w);
        assert edges[i] == (v, w);
      }
      if exists i :: 0 <= i < |edges| && edges[i] == (v, w) {
        var i :| 0 <= i < |edges| && edges[i] == (v, w);
        if i < |edges| - 1 {
          assert prefix[i] == (v, w);
        }
      }
    }
  }

  /** Every adjacency entry is the index of a vertex. */
  lemma {:induction false} AdjacencyBounded(n: nat, edges: seq<Edge>)
    requires EndpointsBelow(edges, n)
    ensures forall v, k :: 0 <= v < n && 0 <= k < |Adjacency(n, edges)[v]| ==> Adjacency(n, edges)[v][k] < n
    decreases |edges|
  {
    if |edges| > 0 {
      AdjacencyBounded(n, edges[..|edges| - 1]);
    }
  }

  /** Building from a prefix one edge longer adds that edge's two pushes. */
  lemma AdjacencyPrefixStep(n: nat, edges: seq<Edge>, i: nat)
    requires EndpointsBelow(edges, n) && i < |edges|
    ensures EndpointsBelow(edges[..i], n) && EndpointsBelow(edges[..i + 1], n)
    ensures Adjacency(n, edges[..i + 1]) == AddEdge(Adjacency(n, edges[..i]), edges[i].0, edges[i].1)
  {
    assert edges[..i + 1][..i] == edges[..i];
  }

  /** The number of times w occurs in v's list is the number of edges (v, w)
      plus the number of edges (w, v); a self-loop (v, v) therefore puts v
      into its own list twice. */
  lemma {:induction false} AdjacencyMultiplicity(n: nat, edges: seq<Edge>, v: Vertex, w: Vertex)
    requires EndpointsBelow(edges, n) && v < n
    ensures multiset(Adjacency(n, edges)[v])[w] == EdgeCount(edges, v, w) + EdgeCount(edges, w, v)
    decreases |edges|
  {
    if |edges| > 0 {
      var prefix := edges[..|edges| - 1];
      var (a, b) := edges[|edges| - 1];
      AdjacencyMultiplicity(n, prefix, v, w);
      var adj := Adjacency(n, prefix);
      var once := adj[a := adj[a] + [b]];
      assert Adjacency(n, edges) == once[b := once[b] + [a]];
      assert multiset(once[v]) == multiset(adj[v]) + (if v == a then multiset{b} else multiset{});
    }
  }

  /** The adjacency relation is symmetric, counted with multiplicity. */
  lemma AdjacencySymmetric(n: nat, edges: seq<Edge>, v: Vertex, w: Vertex)
    requires EndpointsBelow(edges, n) && v < n && w < n
    ensures multiset(Adjacency(n, edges)[v])[w] == multiset(Adjacency(n, edges)[w])[v]
  {
    AdjacencyMultiplicity(n, edges, v, w);
    AdjacencyMultiplicity(n, edges, w, v);
  }

  /** Round trip: w is adjacent to v exactly when (v, w) or (w, v) is an edge. */
  lemma AdjacencyHasExactlyTheEdges(n: nat, edges: seq<Edge>, v: Vertex, w: Vertex)
    requires EndpointsBelow(edges, n) && v < n
    ensures w in Adjacency(n, edges)[v] <==>
      exists i :: 0 <= i < |edges| && (edges[i] == (v, w) || edges[i] == (w, v))
  {
    AdjacencyMultiplicity(n, edges, v, w);
    EdgeCountPositive(edges, v, w);
    EdgeCountPositive(edges, w, v);
  }

  /** Every edge of the input is present in both directions. */
  lemma AdjacencyContainsEdges(n: nat, edges: seq<Edge>)
    requires EndpointsBelow(edges, n)
    ensures forall i :: 0 <= i < |edges| ==>
      edges[i].1 in Adjacency(n, edges)[edges[i].0] && edges[i].0 in Adjacency(n, edges)[edges[i].1]
  {
    forall i | 0 <= i < |edges|
      ensures edges[i].1 in Adjacency(n, edges)[edges[i].0] && edges[i].0 in Adjacency(n, edges)[edges[i].1]
    {
      AdjacencyHasExactlyTheEdges(n, edges, edges[i].0, edges[i].1);
      AdjacencyHasExactlyTheEdges(n, edges, edges[i].1, edges[i].0);
    }
  }

  lemma {:induction false} TotalLengthOfEmpty(n: nat)
    ensures TotalLength(EmptyLists(n)) == 0
  {
    if n > 0 {
      assert EmptyLists(n)[..n - 1] == EmptyLists(n - 1);
      TotalLengthOfEmpty(n - 1);
    }
  }

  /** One push makes the total length grow by one. */
  lemma {:induction false} TotalLengthPush(adj: seq<seq<Vertex>>, a: Vertex, x: Vertex)
    requires a < |adj|
    ensures TotalLength(adj[a := adj[a] + [x]]) == TotalLength(adj) + 1
    decreases |adj|
  {
    var pushed := adj[a := adj[a] + [x]];
    if a == |adj| - 1 {
      assert pushed[..|adj| - 1] == adj[..|adj| - 1];
    } else {
      var prefix := adj[..|adj| - 1];
      assert pushed[..|adj| - 1] == prefix[a := prefix[a] + [x]];
      TotalLengthPush(prefix, a, x);
    }
  }

  /** Every edge contributes two adjacency entries, so the total is 2 * |edges|. */
  lemma {:induction false} AdjacencyTotalLength(n: nat, edges: seq<Edge>)
    requires EndpointsBelow(edges, n)
    ensures TotalLength(Adjacency(n, edges)) == 2 * |edges|
    decreases |edges|
  {
    if |edges| == 0 {
      TotalLengthOfEmpty(n);
    } else {
      var prefix := edges[..|edges| - 1];
      var (a, b) := edges[|edges| - 1];
      AdjacencyTotalLength(n, prefix);
      var adj := Adjacency(n, prefix);
      var once := adj[a := adj[a] + [b]];
      TotalLengthPush(adj, a, b);
      TotalLengthPush(once, b, a);
    }
  }

  /** The adjacency lists of an edge list whose endpoints are below n form a valid graph. */
  lemma AdjacencyIsValid(n: nat, edges: seq<Edge>)
    requires EndpointsBelow(edges, n)
    ensures Valid(Graph(n, Adjacency(n, edges)))
  {
    AdjacencyBounded(n, edges);
  }
}
