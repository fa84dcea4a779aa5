# Graph-distance engine of `f1`, modelled in Dafny

This project models the graph-distance engine of the `f1` crate. The engine
takes an undirected edge list and builds adjacency lists from it. It then runs
a breadth-first search from a source vertex that records hop counts, and
reduces the reachable hop counts to their mean, maximum and median.

The model has six modules:

- `Wrappers` holds `Option`.
- `Graphs` holds the `Graph` record of `f1/src/main.rs` and `Adjacency`. `Adjacency` is the reference definition of the lists that both builders produce, pushing both ends of each edge in input order. The module proves the properties of those lists: bounds, multiplicity, symmetry, the round trip to the edges, and the total length.
- `Traversal` holds `distances_bfs`. Its body occurs three times in the source: `f1/src/stats.rs:59-72`, `f1/src/bfs.rs:40-53`, and inlined in `f1/src/main.rs:60-73`. It is written once here, as an imperative method over an `array<Option<nat>>` buffer with a FIFO queue. The module then proves that the local facts the loop establishes make every entry the exact hop count. It also proves that a `None` entry means unreachable.
- `Driver` holds `f1/src/main.rs` without its I/O: the vertex count of `read_file` over already-parsed pairs, the adjacency build of `main`, and the search of `compute_and_print_distance_bfs`.
- `Bfs` holds `unique_nodes` and `adjacency_list` of `f1/src/bfs.rs`. The iteration order of the `HashSet` is a parameter: any duplicate-free sequence whose elements are exactly the set. Every property is proved for every such order.
- `Stats` holds `mean`, `max`, `median` and `calculate_graph_statistics` of `f1/src/stats.rs`. An `f64` result is modelled by `F64`: an exact real, or NaN. The `u32` values are unbounded naturals.

## Model

| member | source | states |
|---|---|---|
| Traversal.DistancesBfs | f1/src/stats.rs:59-72 | On a buffer of at least `n` entries that starts all `None` (the same body is at f1/src/bfs.rs:40-53 and f1/src/main.rs:60-73): the source holds `Some(0)` and is the only vertex at 0. Every vertex at distance d > 0 is a neighbour of a vertex at d - 1. Every neighbour of a reached vertex is reached, at most one hop farther. The push order starts at the source and has no duplicates, so each vertex is enqueued at most once. The pushed vertices are exactly the reached ones. A set entry is never overwritten (kept through each scan, see `Traversal.VisitNeighbours`). Vertices are discovered in non-decreasing distance, and entries at index `n` or above stay `None`. |
| Traversal.VisitNeighbours | f1/src/stats.rs:65-70 | Examining the neighbours of the dequeued vertex `v` in list order keeps the search state. An entry that held a distance keeps it. Every neighbour of `v` ends up reached, at most one hop farther than `v`. The queue and the push order only grow, and by the same vertices, each of which held `None` before. Every vertex newly reached is a neighbour of `v`, holds the distance of `v` plus one, and is among the pushed ones. Either the set of unreached vertices shrinks, or the queue is unchanged. |
| Traversal.Examine | f1/src/stats.rs:66-70 | One step of the scan at neighbour `u`: if `u` held `None`, it now holds the distance of `v` plus one and is pushed onto the queue and the push order; otherwise buffer, queue and push order are unchanged. The search state and the scan's additions are kept with one more neighbour examined. |
| Traversal.Discover | f1/src/stats.rs:67-68 | For a neighbour `u` holding `None`: the buffer becomes the old one with `u` set to the distance of `v` plus one, and `u` is appended to the queue and the push order. |
| Traversal.SetEntry | f1/src/stats.rs:67 | The write of one buffer entry changes that entry and no other. |
| Traversal.NewlyPushedStep | f1/src/stats.rs:66-69 | Reaching an unreached neighbour and pushing it keeps the account of the scan's additions: only `None` vertices are pushed, each at the distance of `v` plus one. |
| Traversal.WalkBack | f1/src/stats.rs:67 | Following predecessors back from a vertex at distance k gives a walk of k edges from the source. |
| Traversal.WalkIsBounded | f1/src/stats.rs:65-70 | Given edge closure, the end of any walk from the source is reached, and its entry is at most the walk's length. |
| Traversal.NoShorterWalk | f1/src/stats.rs:65-70 | No walk from the source to `v` is shorter than `v`'s entry, and a vertex reached by a walk holds `Some`. |
| Traversal.BfsResultIsExact | f1/src/stats.rs:59-72 | Source-at-zero, predecessors and edge closure make the buffer a distance map: every `Some(d)` is the length of a shortest walk, and every `None` marks an unreachable vertex. |
| Traversal.DistanceMapUnique | f1/src/stats.rs:59-72 | Two distance maps of the same graph and source agree on every vertex, so the result does not depend on the implementation's choices. |
| Traversal.WalkExtend | f1/src/stats.rs:65-68 | A walk followed by one more edge is a walk one vertex longer. |
| Graphs.Adjacency | f1/src/main.rs:20-27 | The reference definition of both builders: `n` empty lists, then each edge's two pushes in input order. It has exactly `n` lists; its other properties are the lemmas below. |
| Graphs.AdjacencyMultiplicity | f1/src/main.rs:24-27 | The number of times `w` occurs in `v`'s list equals the count of edges (v, w) plus the count of edges (w, v). A self-loop therefore puts `v` in its own list twice. |
| Graphs.AdjacencySymmetric | f1/src/main.rs:25-26 | With multiplicity, `w` occurs in `v`'s list as often as `v` occurs in `w`'s. |
| Graphs.AdjacencyHasExactlyTheEdges | f1/src/main.rs:24-27 | `w` is in `v`'s list if and only if (v, w) or (w, v) is an input edge. |
| Graphs.AdjacencyContainsEdges | f1/src/main.rs:24-27 | Every input edge is present in both directions. |
| Graphs.AdjacencyTotalLength | f1/src/main.rs:20-27 | The lists hold `2 * |edges|` entries in total. |
| Graphs.AdjacencyIsValid | f1/src/main.rs:20-27 | With all endpoints below `n`, there are `n` lists and every entry is below `n`. |
| Graphs.AdjacencyBounded | f1/src/main.rs:25-26 | Every adjacency entry is the index of a vertex. |
| Graphs.AdjacencyPrefixStep | f1/src/main.rs:24-27 | Building with one more edge adds exactly that edge's two pushes, the second end onto the first end's list and then the reverse. |
| Graphs.EdgeCountPositive | f1/src/main.rs:24 | A pair has a positive count exactly when it occurs in the edge list. |
| Graphs.TotalLengthPush | f1/src/main.rs:25 | One push adds one to the total length. |
| Graphs.TotalLengthOfEmpty | f1/src/main.rs:20 | `n` fresh empty lists hold nothing. |
| Driver.VertexCount | f1/src/main.rs:39-54 | The count is at least 1 and every endpoint is below it. With no pairs it is 1. Otherwise the count minus 1 is itself an endpoint, so the count is exactly one more than the largest id. |
| Driver.BuildGraph | f1/src/main.rs:18-27 | The graph has the given count, and its lists are `Adjacency(n, edges)`: `n` empty lists with each edge pushed both ways in input order. |
| Driver.ComputeDistanceBfs | f1/src/main.rs:59-73 | For `start < n`, the buffer of `n` entries is a distance map from `start`. |
| Driver.Run | f1/src/main.rs:14-32 | On already-parsed pairs, the graph has count `1 + max id` (1 with no pairs), the lists are `Adjacency` of the pairs and form a valid graph of `2 * |pairs|` entries, and the distances from vertex 0 form a distance map. |
| Bfs.UniqueNodes | f1/src/bfs.rs:8-15 | The result holds an id if and only if it is an endpoint of some edge. |
| Bfs.IndexMap | f1/src/bfs.rs:25-27 | The keys of the id-to-index map are exactly the listed ids, and each key maps to an index that lists it. |
| Bfs.IndexMapInvertsOrder | f1/src/bfs.rs:20-27 | Over a duplicate-free listing, the map sends the i-th id to i. Together with `IndexMap`, this makes it a bijection from the ids onto `[0, |order|)`. |
| Bfs.NodeMap | f1/src/bfs.rs:23-27 | The map the loop builds is `IndexMap(order)`. |
| Bfs.DistinctCardinality | f1/src/bfs.rs:19-20 | A duplicate-free listing has as many entries as the set it lists, so `num_unique` equals the number of listed ids. |
| Bfs.Positions | f1/src/bfs.rs:30-32 | Renaming to positions in the listing keeps the length, and every renamed endpoint is below the number of listed ids. |
| Bfs.PositionsMeaning | f1/src/bfs.rs:31-32 | A renamed edge is (v, w) exactly when the original edge joins the v-th and the w-th listed ids. |
| Bfs.AdjacencyList | f1/src/bfs.rs:18-37 | For any duplicate-free listing of the set, and with every endpoint in the set, the result has `|unique_nodes|` lists and equals `Adjacency` over the edges renamed to positions. |
| Bfs.PushEdges | f1/src/bfs.rs:30-33 | The edge loop produces `Adjacency` over the renamed edges. |
| Bfs.AdjacencyListOfEdges | f1/src/bfs.rs:8-37 | With the set taken from the same edges by `unique_nodes`, every endpoint is listed, so every `node_map` lookup succeeds. The result has one list per unique id and equals `Adjacency` over the edges renamed to positions. |
| Bfs.AdjacencyListIsValid | f1/src/bfs.rs:22-33 | The lists form a valid graph, every entry is below `num_unique`, and there are `2 * |edges|` entries in total. |
| Bfs.AdjacentPositions | f1/src/bfs.rs:30-33 | Position `w` is in list `v` if and only if some edge joins the v-th and the w-th listed ids, in either direction. |
| Stats.Sum | f1/src/stats.rs:29 | The total bounds every element from above. |
| Stats.Mean | f1/src/stats.rs:28-32 | The result is NaN exactly for the empty list. Otherwise the result times the count is the sum. |
| Stats.MeanBounds | f1/src/stats.rs:28-32 | For a non-empty list, the smallest element ≤ mean ≤ the largest element. |
| Stats.SumBounds | f1/src/stats.rs:29 | With every element in [lo, hi], the sum lies in [count * lo, count * hi]. |
| Stats.DivideBounds | f1/src/stats.rs:31 | Dividing by a positive count keeps bounds on the total as bounds on the quotient. |
| Stats.Max | f1/src/stats.rs:35-37 | For a non-empty list, the result is an element and is at least every element. |
| Stats.Min | f1/src/stats.rs:40-55 | For a non-empty list, the result is an element and is at most every element. It is the lower bound of the median. |
| Stats.Insert | f1/src/stats.rs:42 | Inserting adds exactly one occurrence of the element. |
| Stats.InsertKeepsSorted | f1/src/stats.rs:42 | Inserting into a sorted list keeps it sorted. |
| Stats.Sort | f1/src/stats.rs:41-42 | The sorted copy is ascending and a permutation of the input. |
| Stats.SortedUnique | f1/src/stats.rs:41-42 | Two ascending permutations of the same multiset are equal, so any correct sort gives the copy `median` indexes. |
| Stats.Middle | f1/src/stats.rs:44-54 | The odd/even pick: for an odd length it is the element at `len / 2`. On a sorted list the value lies between the elements at positions `(len - 1) / 2` and `len / 2`. |
| Stats.Median | f1/src/stats.rs:40-55 | For a non-empty list, the result is the middle of every ascending permutation of the input, so it does not depend on which correct sort made the copy. |
| Stats.SortedCopiesAgree | f1/src/stats.rs:41-42 | Every ascending permutation of the input equals `Sort` of it. |
| Stats.MedianIsMedian | f1/src/stats.rs:40-55 | At most half the elements are strictly below the median and at most half strictly above. For an odd count, the median is one of the elements. |
| Stats.MedianBounds | f1/src/stats.rs:40-55 | For a non-empty list, the smallest element ≤ median ≤ the largest element. |
| Stats.CountConcat | f1/src/stats.rs:44-54 | The counts below and above a value add over concatenation. |
| Stats.CountRemove | f1/src/stats.rs:44-54 | Removing one element takes away exactly its contribution to the counts. |
| Stats.CountPermutation | f1/src/stats.rs:41-42 | The counts below and above a value are the same for the input and any permutation of it, such as its sorted copy. |
| Stats.SortedCountBelow | f1/src/stats.rs:44-54 | In a sorted list, at most `m` elements are below any value not above the element at `m`. |
| Stats.SortedCountAbove | f1/src/stats.rs:44-54 | In a sorted list, at most `len - 1 - m` elements are above any value not below the element at `m`. |
| Stats.CountBounded | f1/src/stats.rs:44-54 | Neither count exceeds the length. |
| Stats.NoneBelow | f1/src/stats.rs:44-54 | If every element is at least `r`, none is below `r`. |
| Stats.NoneAbove | f1/src/stats.rs:44-54 | If every element is at most `r`, none is above `r`. |
| Stats.FilterSome | f1/src/stats.rs:12 | Each value occurs in the result as often as `Some` of it occurs in the buffer, and the buffer's order is kept. |
| Stats.MaxIsEccentricity | f1/src/stats.rs:18 | Over a distance map, the largest held distance is the hop count of some vertex, and no vertex has a larger hop count. |
| Stats.CalculateGraphStatistics | f1/src/stats.rs:7-24 | For `start < n`: the search's buffer is a distance map, and the filtered list is non-empty because the source holds 0. The triple is (`Mean`, `Max`, `Median`) of that list. The mean is a number, with 0 ≤ mean ≤ max and 0 ≤ median ≤ max. The max is the eccentricity of the source: some vertex is exactly that far and none is farther. |

## Left out

- k1/src/main.rs is not part of this model. It handles command-line arguments and CSV deserialization, with no algorithm.
- File reading and text parsing in `read_file` (f1/src/main.rs:34-46) are left out. `Driver.VertexCount` works on already-parsed pairs.
- The printed table of `compute_and_print_distance_bfs` (f1/src/main.rs:75-83) is left out. `Driver.ComputeDistanceBfs` returns the distances it would print.
- The unfinished `adjacency_list` in f1/src/main.rs:87-98 is left out. It ends in an incomplete `for` and duplicates f1/src/bfs.rs:18-37, which is modelled.
- IEEE `f64` rounding in `mean` and `median` is not modelled: division is exact over `real`. Only the NaN of `0.0 / 0.0` on an empty list is kept, as `F64.NaN`.
- Stats.Mean: the `u32` sum is an unbounded natural, so the overflow of a sum above 2^32 - 1 (a panic in a debug build, a wrap-around in a release build) is not modelled.
- Traversal.DistancesBfs: hop counts are unbounded naturals. `distance + 1` stays below the vertex count, so this matters only for graphs of more than 2^32 vertices.
- Driver.VertexCount: the `usize` overflow of `max_vertex + 1` for an id of `usize::MAX` is not modelled.
- Traversal.DistancesBfs: it requires a buffer of at least `n` entries that are all `None`. That is what every caller passes (f1/src/stats.rs:8, f1/src/main.rs:60).
- The concrete iteration order of `HashSet` is not modelled. `Bfs.AdjacencyList` takes any duplicate-free listing of the set, and its properties hold for every one.
- Stats.Sort: Rust's `sort` algorithm and its in-place update of the cloned vector are not modelled. The copy is the pure function `Sort`, and `Stats.SortedUnique` shows that every correct sort yields it.
- The crate has no connected-component labeller, so none is modelled.
- Bfs.AdjacencyList: it requires every endpoint to be in the set, because `node_map[&start]` and `node_map[&destination]` panic on a missing key (f1/src/bfs.rs:31-32). `Bfs.AdjacencyListOfEdges` shows the requirement always holds when the set is `unique_nodes` of the same edges.
- Bfs.PushEdges: it requires every endpoint to be a key of the map, for the same panic at f1/src/bfs.rs:31-32.
- Traversal.DistancesBfs: it requires `Valid(g)`, so that every neighbour is below `n`. An entry of `n` or more panics at the buffer index `distances[u]` (f1/src/stats.rs:66-67, f1/src/bfs.rs:47-48). The same holds for `Stats.CalculateGraphStatistics` and `Driver.ComputeDistanceBfs`.
- Driver.BuildGraph: it requires every endpoint to be below `n`, because `outedges[*v]` and `outedges[*w]` panic otherwise (f1/src/main.rs:25-26). `Driver.Run` discharges this with `Driver.VertexCount`.
- Where the documented error behaviour and the code differ, the code is followed:
  - `mean` of an empty list yields NaN, rather than reporting an empty-input error;
  - `max` and `median` of an empty list panic, so they require a non-empty list;
  - a source outside the graph panics at the first buffer write, so `start < n` is required, rather than an index error being reported.
