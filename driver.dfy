/**
  The program of f1/src/main.rs without its file and console I/O: the vertex
  count that `read_file` derives from the edge list, the construction of the
  `Graph` in `main`, and the search of `compute_and_print_distance_bfs`, whose
  printed table is returned here as the distance sequence it prints.
 */
module Driver {
  import opened Wrappers
  import opened Graphs
  import opened Traversal

  /** The vertex count of `read_file`: one more than the largest id, where
      the running maximum starts at 0 (so an empty list gives 1). */
  method VertexCount(pairs: seq<Edge>) returns (n: nat)
    ensures n >= 1 && EndpointsBelow(pairs, n)
    ensures |pairs| == 0 ==> n == 1
    ensures |pairs| > 0 ==> IsEndpoint(pairs, n - 1)
  {
    var maxVertex: nat := 0;
    for i := 0 to |pairs|
      invariant EndpointsBelow(pairs[..i], maxVertex + 1)
      invariant i > 0 ==> IsEndpoint(pairs[..i], maxVertex)
      invariant i == 0 ==> maxVertex == 0
    {
      var (x, y) := pairs[i];
      ghost var before := maxVertex;
      maxVertex := if maxVertex < x then x else maxVertex;
      maxVertex := if maxVertex < y then y else maxVertex;
      assert pairs[..i + 1][i] == (x, y);
      assert forall j :: 0 <= j < i ==> pairs[..i + 1][j] == pairs[..i][j];
      assert IsEndpoint(pairs[..i + 1], maxVertex) by {
        if maxVertex != x && maxVertex != y {
          assert maxVertex == before && i > 0;
          var j :| 0 <= j < i && (pairs[..i][j].0 == before || pairs[..i][j].1 == before);
          assert pairs[..i + 1][j] == pairs[..i][j];
        }
      }
    }
    assert pairs[..|pairs|] == pairs;
    n := maxVertex + 1;
  }

  /** The graph of `main`: `n` empty lists, then for each pair (v, w) the
      push of w onto v's list and of v onto w's. */
  method BuildGraph(n: nat, edges: seq<Edge>) returns (graph: Graph)
    requires EndpointsBelow(edges, n)
    ensures graph == Graph(n, Adjacency(n, edges))
  {
    var outedges := new seq<Vertex>[n](_ => []);
    assert edges[..0] == [];
    // ghost mirror of the lists, so that the loop state is stated over a value
    ghost var adj := EmptyLists(n);
    for i := 0 to |edges|
      invariant |adj| == n && forall x :: 0 <= x < n ==> outedges[x] == adj[x]
      invariant adj == Adjacency(n, edges[..i])
    {
      var (v, w) := edges[i];
      AdjacencyPrefixStep(n, edges, i);
      outedges[v] := outedges[v] + [w];
      adj := adj[v := adj[v] + [w]];
      outedges[w] := outedges[w] + [v];
      adj := adj[w := adj[w] + [v]];
    }
    assert edges[..|edges|] == edges;
    assert outedges[..] == adj;
    graph := Graph(n, outedges[..]);
  }

  /** The search of `compute_and_print_distance_bfs`: a fresh buffer of
      `None`, filled by the breadth-first search from `start`. Every entry is
      the hop count from `start`, or `None` exactly for the unreachable
      vertices. */
  method ComputeDistanceBfs(start: Vertex, graph: Graph) returns (distance: seq<Option<nat>>)
    requires Valid(graph) && start < graph.n
    ensures |distance| == graph.n
    ensures IsDistanceMap(graph, start, distance)
  {
    var buffer := new Option<nat>[graph.n](_ => None);
    ghost var enqueued := DistancesBfs(start, graph, buffer);
    distance := buffer[..];
    BfsResultIsExact(graph, start, distance);
  }

  /** `main` on an edge list already read: the vertex count, the graph, and
      the distances from vertex 0. */
  method Run(pairs: seq<Edge>) returns (graph: Graph, distance: seq<Option<nat>>)
    ensures graph.n >= 1 && EndpointsBelow(pairs, graph.n)
    ensures |pairs| == 0 ==> graph.n == 1
    ensures |pairs| > 0 ==> IsEndpoint(pairs, graph.n - 1)
    ensures graph == Graph(graph.n, Adjacency(graph.n, pairs))
    ensures Valid(graph) && TotalLength(graph.outedges) == 2 * |pairs|
    ensures |distance| == graph.n && IsDistanceMap(graph, 0, distance)
  {
    var n := VertexCount(pairs);
    graph := BuildGraph(n, pairs);
    AdjacencyIsValid(n, pairs);
    AdjacencyTotalLength(n, pairs);
    var startVertex := 0;
    distance := ComputeDistanceBfs(startVertex, graph);
  }
}
