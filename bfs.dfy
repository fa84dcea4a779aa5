/**
  The helpers of f1/src/bfs.rs that turn an edge list over arbitrary vertex
  ids into a dense graph: `unique_nodes` collects the ids that occur, and
  `adjacency_list` numbers them in hash-set iteration order and builds the
  undirected adjacency lists over those numbers. The iteration order of a
  Rust `HashSet` is not specified, so it is a parameter here: any
  duplicate-free listing of the set.
 */
module Bfs {
  import opened Graphs

  /** The ids that occur as an endpoint of some edge (`unique_nodes`). */
  method UniqueNodes(edges: seq<Edge>) returns (nodes: set<Vertex>)
    ensures forall x :: x in nodes <==> IsEndpoint(edges, x)
  {
    nodes := {};
    for i := 0 to |edges|
      invariant forall x :: x in nodes <==> IsEndpoint(edges[..i], x)
    {
      var (a, b) := edges[i];
      nodes := nodes + {a};
      nodes := nodes + {b};
      forall x | IsEndpoint(edges[..i + 1], x) ensures x in nodes {
        var j :| 0 <= j < i + 1 && (edges[..i + 1][j].0 == x || edges[..i + 1][j].1 == x);
        if j < i {
          assert edges[..i][j] == edges[j];
        }
      }
      forall x | x in nodes ensures IsEndpoint(edges[..i + 1], x) {
        if x == a || x == b {
          assert edges[..i + 1][i] == (a, b);
        } else {
          var j :| 0 <= j < i && (edges[..i][j].0 == x || edges[..i][j].1 == x);
          assert edges[..i + 1][j] == edges[..i][j];
        }
      }
    }
    assert edges[..|edges|] == edges;
  }

  /** The map from id to position that inserting `order[idx] -> idx` for
      each index in turn produces; a later insertion of the same id wins. */
  function IndexMap(order: seq<Vertex>): (m: map<Vertex, nat>)
    ensures m.Keys == Elements(order)
    ensures forall x :: x in m ==> m[x] < |order| && order[m[x]] == x
    decreases |order|
  {
    if |order| == 0 then map[]
    else
      var prefix := order[..|order| - 1];
      var m := IndexMap(prefix);
      assert forall x :: x in m ==> order[m[x]] == prefix[m[x]];
      m[order[|order| - 1] := |order| - 1]
  }

  /** Over a duplicate-free order the map is the inverse of indexing. */
  lemma {:induction false} IndexMapInvertsOrder(order: seq<Vertex>)
    requires Distinct(order)
    ensures forall i :: 0 <= i < |order| ==> IndexMap(order)[order[i]] == i
  {
    var m := IndexMap(order);
    forall i | 0 <= i < |order| ensures m[order[i]] == i {
      assert order[m[order[i]]] == order[i];
    }
  }

  /** The set of the elements of a sequence. */
  function Elements(s: seq<Vertex>): set<Vertex> {
    set x | x in s
  }

  lemma AddNewElement(a: set<Vertex>, b: Vertex)
    requires b !in a
    ensures |a + {b}| == |a| + 1
  {
  }

  /** A duplicate-free sequence has as many elements as the set of them. */
  lemma {:induction false} DistinctCardinality(s: seq<Vertex>)
    requires Distinct(s)
    ensures |Elements(s)| == |s|
    decreases |s|
  {
    if |s| > 0 {
      var prefix, last := s[..|s| - 1], s[|s| - 1];
      assert Distinct(prefix);
      assert last !in prefix;
      DistinctCardinality(prefix);
      assert Elements(s) == Elements(prefix) + {last};
      AddNewElement(Elements(prefix), last);
    }
  }

  /** Every edge with both ends renamed through `m`. */
  function Relabel(edges: seq<Edge>, m: map<Vertex, nat>): seq<Edge>
    requires forall i :: 0 <= i < |edges| ==> edges[i].0 in m && edges[i].1 in m
  {
    seq(|edges|, i requires 0 <= i < |edges| => (m[edges[i].0], m[edges[i].1]))
  }

  /** Every edge with both ends renamed to their positions in `order`. */
  function Positions(edges: seq<Edge>, order: seq<Vertex>): (r: seq<Edge>)
    requires forall i :: 0 <= i < |edges| ==> edges[i].0 in order && edges[i].1 in order
    ensures |r| == |edges| && EndpointsBelow(r, |order|)
  {
    Relabel(edges, IndexMap(order))
  }

  /** Renaming to positions in a duplicate-free order keeps the edges and
      nothing else: a renamed pair occurs exactly when the original pair does. */
  lemma PositionsMeaning(edges: seq<Edge>, order: seq<Vertex>, v: nat, w: nat, i: nat)
    requires Distinct(order) && v < |order| && w < |order| && i < |edges|
    requires forall j :: 0 <= j < |edges| ==> edges[j].0 in order && edges[j].1 in order
    ensures Positions(edges, order)[i] == (v, w) <==> edges[i] == (order[v], order[w])
  {
    IndexMapInvertsOrder(order);
  }

  /** The id-to-position map of `adjacency_list`: each listed id is
      inserted with its index, in listing order. */
  method NodeMap(order: seq<Vertex>) returns (nodeMap: map<Vertex, nat>)
    ensures nodeMap == IndexMap(order)
  {
    nodeMap := map[];
    for idx := 0 to |order|
      invariant nodeMap == IndexMap(order[..idx])
    {
      assert order[..idx + 1][..idx] == order[..idx];
      nodeMap := nodeMap[order[idx] := idx];
    }
    assert order[..|order|] == order;
  }

  /** The adjacency lists over positions in `iterationOrder`
      (`adjacency_list`): the ids are numbered as they are listed, and each
      edge (s, t) pushes t's number onto s's list and s's number onto t's. */
  method AdjacencyList(edges: seq<Edge>, uniqueNodes: set<Vertex>, iterationOrder: seq<Vertex>)
    returns (graphList: seq<seq<Vertex>>)
    requires Distinct(iterationOrder) && uniqueNodes == Elements(iterationOrder)
    requires forall i :: 0 <= i < |edges| ==> edges[i].0 in uniqueNodes && edges[i].1 in uniqueNodes
    ensures |graphList| == |uniqueNodes|
    ensures graphList == Adjacency(|iterationOrder|, Positions(edges, iterationOrder))
  {
    DistinctCardinality(iterationOrder);
    var numUnique := |uniqueNodes|;
    var nodeMap := NodeMap(iterationOrder);
    graphList := PushEdges(edges, nodeMap, numUnique);
  }

  /** `adjacency_list(edges, unique_nodes(&edges))`: with the set taken from
      the edges themselves, every endpoint is a key of the id-to-position map,
      so no lookup can fail. `iterationOrder` is the iteration order of the
      set the first call returns. */
  method AdjacencyListOfEdges(edges: seq<Edge>, iterationOrder: seq<Vertex>) returns (graphList: seq<seq<Vertex>>)
    requires Distinct(iterationOrder)
    requires forall x :: x in iterationOrder <==> IsEndpoint(edges, x)
    ensures forall i :: 0 <= i < |edges| ==> edges[i].0 in iterationOrder && edges[i].1 in iterationOrder
    ensures |graphList| == |iterationOrder|
    ensures graphList == Adjacency(|iterationOrder|, Positions(edges, iterationOrder))
  {
    var nodes := UniqueNodes(edges);
    assert nodes == Elements(iterationOrder);
    forall i | 0 <= i < |edges| ensures edges[i].0 in nodes && edges[i].1 in nodes {
      assert IsEndpoint(edges, edges[i].0) && IsEndpoint(edges, edges[i].1);
    }
    DistinctCardinality(iterationOrder);
    graphList := AdjacencyList(edges, nodes, iterationOrder);
  }

  /** The edge loop of `adjacency_list`, over `numUnique` lists that start
      empty: each edge (s, t) pushes the number of t onto the list of s, then
      the number of s onto the list of t. */
  method PushEdges(edges: seq<Edge>, nodeMap: map<Vertex, nat>, numUnique: nat) returns (graphList: seq<seq<Vertex>>)
    requires forall i :: 0 <= i < |edges| ==> edges[i].0 in nodeMap && edges[i].1 in nodeMap
    requires EndpointsBelow(Relabel(edges, nodeMap), numUnique)
    ensures graphList == Adjacency(numUnique, Relabel(edges, nodeMap))
  {
    var lists := new seq<Vertex>[numUnique](_ => []);
    ghost var renamed := Relabel(edges, nodeMap);
    assert renamed[..0] == [];
    // ghost mirror of the lists, so that the loop state is stated over a value
    ghost var adj := EmptyLists(numUnique);
    for i := 0 to |edges|
      invariant |adj| == numUnique && forall x :: 0 <= x < numUnique ==> lists[x] == adj[x]
      invariant adj == Adjacency(numUnique, renamed[..i])
    {
      var (s, t) := edges[i];
      AdjacencyPrefixStep(numUnique, renamed, i);
      var a, b := nodeMap[s], nodeMap[t];
      lists[a] := lists[a] + [b];
      adj := adj[a := adj[a] + [b]];
      lists[b] := lists[b] + [a];
      adj := adj[b := adj[b] + [a]];
    }
    assert renamed[..|edges|] == renamed;
    graphList := lists[..];
    assert graphList == adj;
  }

  /** The lists over positions form a valid graph in which each edge makes two entries. */
  lemma AdjacencyListIsValid(edges: seq<Edge>, iterationOrder: seq<Vertex>)
    requires forall i :: 0 <= i < |edges| ==> edges[i].0 in iterationOrder && edges[i].1 in iterationOrder
    ensures Valid(Graph(|iterationOrder|, Adjacency(|iterationOrder|, Positions(edges, iterationOrder))))
    ensures TotalLength(Adjacency(|iterationOrder|, Positions(edges, iterationOrder))) == 2 * |edges|
  {
    var renamed := Positions(edges, iterationOrder);
    AdjacencyIsValid(|iterationOrder|, renamed);
    AdjacencyTotalLength(|iterationOrder|, renamed);
  }

  /** Round trip through the numbering: position w is in list v exactly when
      the edge between the v-th and the w-th listed id occurs, in either
      direction. */
  lemma AdjacentPositions(edges: seq<Edge>, iterationOrder: seq<Vertex>, v: nat, w: nat)
    requires Distinct(iterationOrder) && v < |iterationOrder| && w < |iterationOrder|
    requires forall i :: 0 <= i < |edges| ==> edges[i].0 in iterationOrder && edges[i].1 in iterationOrder
    ensures w in Adjacency(|iterationOrder|, Positions(edges, iterationOrder))[v] <==>
      (exists i :: 0 <= i < |edges| &&
         (edges[i] == (iterationOrder[v], iterationOrder[w]) || edges[i] == (iterationOrder[w], iterationOrder[v])))
  {
    var renamed := Positions(edges, iterationOrder);
    AdjacencyHasExactlyTheEdges(|iterationOrder|, renamed, v, w);
    forall i | 0 <= i < |edges|
      ensures (renamed[i] == (v, w) || renamed[i] == (w, v)) <==>
        (edges[i] == (iterationOrder[v], iterationOrder[w]) || edges[i] == (iterationOrder[w], iterationOrder[v]))
    {
      PositionsMeaning(edges, iterationOrder, v, w, i);
      PositionsMeaning(edges, iterationOrder, w, v, i);
    }
  }
}
