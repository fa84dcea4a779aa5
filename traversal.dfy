/**
  The breadth-first distance engine. The function `distances_bfs` occurs with
  the same body in f1/src/stats.rs, f1/src/bfs.rs and, inlined, in
  `compute_and_print_distance_bfs` of f1/src/main.rs; it is modelled once here.
  It fills a caller-supplied buffer of optional hop counts from a source vertex
  using a FIFO queue.

  What the loop establishes is stated locally (source at 0, every reached vertex
  has a predecessor one hop nearer, every edge out of a reached vertex leads to a
  vertex at most one hop farther); the lemmas below show that these three facts
  make every entry the exact hop count and `None` mean unreachable, so the
  result is uniquely determined.
 */
module Traversal {
  import opened Wrappers
  import opened Graphs

  /** The source holds 0 and no other vertex does. */
  ghost predicate SourceAtZero(d: seq<Option<nat>>, start: Vertex) {
    start < |d| && d[start] == Some(0) &&
    forall v :: 0 <= v < |d| && d[v] == Some(0) ==> v == start
  }

  /** Every vertex at distance k > 0 is a neighbour of some vertex at distance k - 1. */
  ghost predicate HasPredecessors(g: Graph, d: seq<Option<nat>>) {
    forall v :: 0 <= v < |d| && d[v].Some? && d[v].value > 0 ==>
      exists u :: 0 <= u < |g.outedges| && u < |d| && d[u] == Some(d[v].value - 1) && v in g.outedges[u]
  }

  /** Every neighbour of a reached vertex is reached, at most one hop farther. */
  ghost predicate EdgeClosed(g: Graph, d: seq<Option<nat>>) {
    forall v, k :: 0 <= v < |g.outedges| && v < |d| && d[v].Some? && 0 <= k < |g.outedges[v]| ==>
      g.outedges[v][k] < |d| && d[g.outedges[v][k]].Some? &&
      d[g.outedges[v][k]].value <= d[v].value + 1
  }

  /** A non-empty sequence of vertices, each consecutive pair joined by an edge. */
  ghost predicate IsWalk(g: Graph, p: seq<Vertex>) {
    |p| > 0 &&
    (forall i :: 0 <= i < |p| ==> p[i] < |g.outedges|) &&
    forall i :: 0 <= i < |p| - 1 ==> p[i + 1] in g.outedges[p[i]]
  }

  /** There is a walk with `len` edges from `s` to `v`. */
  ghost predicate WalkOfLength(g: Graph, s: Vertex, v: Vertex, len: nat) {
    exists p :: IsWalk(g, p) && |p| == len + 1 && p[0] == s && p[len] == v
  }

  ghost predicate Reachable(g: Graph, s: Vertex, v: Vertex) {
    exists len :: WalkOfLength(g, s, v, len)
  }

  /** `d` is the hop count from `s` to `v`: the length of a shortest walk. */
  ghost predicate IsHopCount(g: Graph, s: Vertex, v: Vertex, d: nat) {
    WalkOfLength(g, s, v, d) && forall k :: 0 <= k < d ==> !WalkOfLength(g, s, v, k)
  }

  /** The meaning of a distance map: `Some(d)` is the hop count, `None` is unreachable. */
  ghost predicate IsDistanceMap(g: Graph, s: Vertex, dist: seq<Option<nat>>) {
    g.n <= |dist| &&
    forall v :: 0 <= v < g.n ==>
      (dist[v].Some? ==> IsHopCount(g, s, v, dist[v].value)) &&
      (dist[v].None? ==> !Reachable(g, s, v))
  }

  /** A walk followed by one more edge is a walk. */
  lemma WalkExtend(g: Graph, p: seq<Vertex>, v: Vertex)
    requires Valid(g) && IsWalk(g, p) && v in g.outedges[p[|p| - 1]]
    ensures IsWalk(g, p + [v]) && |p + [v]| == |p| + 1 && (p + [v])[|p|] == v
  {
    var u := p[|p| - 1];
    var k :| 0 <= k < |g.outedges[u]| && g.outedges[u][k] == v;
    assert v < g.n;
    var q := p + [v];
    forall i | 0 <= i < |q| - 1 ensures q[i + 1] in g.outedges[q[i]] {
      if i < |p| - 1 {
        assert q[i] == p[i] && q[i + 1] == p[i + 1];
      }
    }
  }

  /** Following predecessors back from a vertex at distance k gives a walk
      of k edges from the source. */
  lemma {:induction false} WalkBack(g: Graph, start: Vertex, d: seq<Option<nat>>, v: Vertex) returns (p: seq<Vertex>)
    requires Valid(g) && start < g.n
    requires SourceAtZero(d, start) && HasPredecessors(g, d)
    requires v < |d| && d[v].Some?
    ensures IsWalk(g, p) && |p| == d[v].value + 1 && p[0] == start && p[d[v].value] == v
    decreases d[v].value
  {
    if d[v].value == 0 {
      p := [start];
    } else {
      var u :| 0 <= u < |g.outedges| && u < |d| && d[u] == Some(d[v].value - 1) && v in g.outedges[u];
      var q := WalkBack(g, start, d, u);
      WalkExtend(g, q, v);
      p := q + [v];
    }
  }

  /** Along any walk from the source, closure bounds the distance of the last
      vertex by the number of edges walked. */
  lemma {:induction false} WalkIsBounded(g: Graph, start: Vertex, d: seq<Option<nat>>, p: seq<Vertex>)
    requires Valid(g) && g.n <= |d| && start < |d| && d[start] == Some(0) && EdgeClosed(g, d)
    requires IsWalk(g, p) && p[0] == start
    ensures d[p[|p| - 1]].Some? && d[p[|p| - 1]].value <= |p| - 1
    decreases |p|
  {
    if |p| > 1 {
      var q := p[..|p| - 1];
      assert IsWalk(g, q);
      WalkIsBounded(g, start, d, q);
      var u, v := p[|p| - 2], p[|p| - 1];
      assert v in g.outedges[u];
      var k :| 0 <= k < |g.outedges[u]| && g.outedges[u][k] == v;
    }
  }

  /** No walk from the source is shorter than the distance of its end. */
  lemma NoShorterWalk(g: Graph, start: Vertex, d: seq<Option<nat>>, v: Vertex, k: nat)
    requires Valid(g) && g.n <= |d| && start < |d| && d[start] == Some(0) && EdgeClosed(g, d)
    requires WalkOfLength(g, start, v, k)
    ensures v < |d| && d[v].Some? && d[v].value <= k
  {
    var p :| IsWalk(g, p) && |p| == k + 1 && p[0] == start && p[k] == v;
    WalkIsBounded(g, start, d, p);
  }

  /** The three properties the search establishes make every `Some` entry the
      exact hop count and every `None` entry an unreachable vertex. */
  lemma BfsResultIsExact(g: Graph, start: Vertex, d: seq<Option<nat>>)
    requires Valid(g) && start < g.n && g.n <= |d|
    requires SourceAtZero(d, start) && HasPredecessors(g, d) && EdgeClosed(g, d)
    ensures IsDistanceMap(g, start, d)
  {
    forall v, k | 0 <= v < g.n && WalkOfLength(g, start, v, k) ensures d[v].Some? && d[v].value <= k {
      NoShorterWalk(g, start, d, v, k);
    }
    forall v | 0 <= v < g.n && d[v].Some? ensures WalkOfLength(g, start, v, d[v].value) {
      var p := WalkBack(g, start, d, v);
    }
  }

  /** A distance map is determined by the graph and the source: two searches
      from the same source on the same graph agree on every vertex. */
  lemma DistanceMapUnique(g: Graph, s: Vertex, d1: seq<Option<nat>>, d2: seq<Option<nat>>)
    requires IsDistanceMap(g, s, d1) && IsDistanceMap(g, s, d2)
    ensures d1[..g.n] == d2[..g.n]
  {
    forall v | 0 <= v < g.n ensures d1[v] == d2[v] {
      if d1[v].Some? {
        assert WalkOfLength(g, s, v, d1[v].value);
      }
      if d2[v].Some? {
        assert WalkOfLength(g, s, v, d2[v].value);
      }
    }
  }

  /** The state of the search, over the buffer `d`, the push order `order`
      and the ghost parent of each reached vertex. */
  ghost predicate Discovery(g: Graph, start: Vertex, d: seq<Option<nat>>, order: seq<Vertex>, pred: seq<Vertex>) {
    && |order| > 0 && order[0] == start && start < |d| && d[start] == Some(0)
    && (forall i :: 0 <= i < |order| ==> order[i] < g.n && order[i] < |d| && d[order[i]].Some?)
    && Distinct(order)
    && (forall x :: 0 <= x < |d| && d[x].Some? ==> x in order)
    && |pred| == |d|
    && (forall x {:trigger pred[x]} :: 0 <= x < |d| && x != start && d[x].Some? ==>
          pred[x] < |d| && pred[x] < |g.outedges| && d[pred[x]].Some? && x in g.outedges[pred[x]] &&
          d[x].value == d[pred[x]].value + 1)
    && (forall i, j :: 0 <= i < j < |order| ==> d[order[i]].value <= d[order[j]].value)
  }

  /** Every distance held in `d` is at most `bound`. */
  ghost predicate AtMost(d: seq<Option<nat>>, bound: nat) {
    forall x :: 0 <= x < |d| && d[x].Some? ==> d[x].value <= bound
  }

  /** The first `count` neighbours of the reached vertex `v` are reached, at most one hop farther. */
  ghost predicate NeighboursClosed(g: Graph, d: seq<Option<nat>>, v: Vertex, count: nat) {
    v < |g.outedges| && v < |d| && d[v].Some? && count <= |g.outedges[v]| &&
    forall k :: 0 <= k < count ==>
      g.outedges[v][k] < |d| && d[g.outedges[v][k]].Some? && d[g.outedges[v][k]].value <= d[v].value + 1
  }

  /** The first `h` vertices of `order` have had all their neighbours examined. */
  ghost predicate ProcessedClosed(g: Graph, d: seq<Option<nat>>, order: seq<Vertex>, h: nat) {
    h <= |order| &&
    forall i :: 0 <= i < h ==> order[i] < |g.outedges| && NeighboursClosed(g, d, order[i], |g.outedges[order[i]]|)
  }

  /** `e` agrees with `d` wherever `d` holds a distance. */
  ghost predicate Grows(d: seq<Option<nat>>, e: seq<Option<nat>>) {
    |d| == |e| && forall x :: 0 <= x < |d| && d[x].Some? ==> e[x] == d[x]
  }

  lemma GrowsKeepsClosed(g: Graph, d: seq<Option<nat>>, e: seq<Option<nat>>, order: seq<Vertex>, h: nat, v: Vertex, count: nat)
    requires Grows(d, e)
    ensures ProcessedClosed(g, d, order, h) ==> ProcessedClosed(g, e, order, h)
    ensures NeighboursClosed(g, d, v, count) ==> NeighboursClosed(g, e, v, count)
  {
    if ProcessedClosed(g, d, order, h) {
      forall i | 0 <= i < h
        ensures NeighboursClosed(g, e, order[i], |g.outedges[order[i]]|)
      {
        assert NeighboursClosed(g, d, order[i], |g.outedges[order[i]]|);
      }
    }
  }

  /** Reaching the unreached neighbour `u` of `v` keeps the search state. */
  lemma DiscoverStep(g: Graph, start: Vertex, d: seq<Option<nat>>, order: seq<Vertex>, pred: seq<Vertex>, v: Vertex, u: Vertex)
    requires Valid(g) && Discovery(g, start, d, order, pred)
    requires v < |d| && d[v].Some? && AtMost(d, d[v].value + 1)
    requires v < g.n && u in g.outedges[v] && u < |d| && d[u].None?
    ensures Discovery(g, start, d[u := Some(d[v].value + 1)], order + [u], pred[u := v])
    ensures AtMost(d[u := Some(d[v].value + 1)], d[v].value + 1)
    ensures Grows(d, d[u := Some(d[v].value + 1)])
  {
    var e := d[u := Some(d[v].value + 1)];
    var order' := order + [u];
    assert u !in order;
    forall i, j | 0 <= i < j < |order'| ensures order'[i] != order'[j] {
      if j == |order| {
        assert order'[j] == u;
      }
    }
    forall i, j | 0 <= i < j < |order'| ensures e[order'[i]].value <= e[order'[j]].value {
      if j < |order| {
        assert e[order'[i]] == d[order[i]] && e[order'[j]] == d[order[j]];
      } else {
        assert e[order'[i]] == d[order[i]];
      }
    }
  }

  /** When every pushed vertex has been processed, the three local properties hold. */
  lemma SearchDone(g: Graph, start: Vertex, d: seq<Option<nat>>, order: seq<Vertex>, pred: seq<Vertex>)
    requires Discovery(g, start, d, order, pred) && ProcessedClosed(g, d, order, |order|)
    ensures SourceAtZero(d, start) && HasPredecessors(g, d) && EdgeClosed(g, d)
  {
    forall v | 0 <= v < |d| && v != start && d[v].Some? ensures d[v].value > 0 {
      assert d[v].value == d[pred[v]].value + 1;
    }
    forall v | 0 <= v < |d| && d[v].Some? && d[v].value > 0
      ensures exists u :: 0 <= u < |g.outedges| && u < |d| && d[u] == Some(d[v].value - 1) && v in g.outedges[u]
    {
      var u := pred[v];
    }
    forall v, k | 0 <= v < |g.outedges| && v < |d| && d[v].Some? && 0 <= k < |g.outedges[v]|
      ensures g.outedges[v][k] < |d| && d[g.outedges[v][k]].Some? && d[g.outedges[v][k]].value <= d[v].value + 1
    {
      var i :| 0 <= i < |order| && order[i] == v;
      assert NeighboursClosed(g, d, order[i], |g.outedges[order[i]]|);
    }
  }

  /** The state of the search between two dequeues: `queue` is the part of
      the push order from `head` on, and the vertices before `head` have had
      all their neighbours examined. */
  ghost predicate Searching(g: Graph, start: Vertex, d: seq<Option<nat>>, order: seq<Vertex>, pred: seq<Vertex>,
                            unseen: set<Vertex>, head: nat, queue: seq<Vertex>)
  {
    && Valid(g) && g.n <= |d|
    && head <= |order| && queue == order[head..]
    && Discovery(g, start, d, order, pred)
    && (forall x :: x in unseen <==> 0 <= x < |d| && d[x].None?)
    && (head < |order| ==> AtMost(d, d[order[head]].value + 1))
    && ProcessedClosed(g, d, order, head)
  }

  /** Before the first dequeue only the source is reached and queued. */
  lemma SearchStart(g: Graph, start: Vertex, d: seq<Option<nat>>, unseen: set<Vertex>)
    requires Valid(g) && start < g.n && g.n <= |d|
    requires d[start] == Some(0) && forall x :: 0 <= x < |d| && x != start ==> d[x].None?
    requires forall x :: x in unseen <==> 0 <= x < |d| && d[x].None?
    ensures Searching(g, start, d, [start], seq(|d|, _ => start), unseen, 0, [start])
  {
  }

  /** The state while the neighbours of the dequeued vertex `v` are examined:
      `d0`, `q0` and `u0` are the buffer, queue and unreached set when `v` was
      dequeued, and the first `k` neighbours have been examined. */
  ghost predicate Scanning(g: Graph, start: Vertex, v: Vertex, head: nat,
                           d0: seq<Option<nat>>, q0: seq<Vertex>, u0: set<Vertex>,
                           d: seq<Option<nat>>, order: seq<Vertex>, pred: seq<Vertex>,
                           unseen: set<Vertex>, queue: seq<Vertex>, k: nat)
  {
    && Valid(g) && g.n <= |d|
    && 0 < head <= |order| && queue == order[head..] && v == order[head - 1]
    && Discovery(g, start, d, order, pred)
    && (forall x :: x in unseen <==> 0 <= x < |d| && d[x].None?)
    && (unseen < u0 || (unseen == u0 && queue == q0))
    && Grows(d0, d) && v < |d0| && d0[v].Some? && d[v] == d0[v]
    && AtMost(d, d0[v].value + 1)
    && ProcessedClosed(g, d, order, head - 1)
    && NeighboursClosed(g, d, v, k)
  }

  /** Examining a neighbour that already holds a distance changes nothing. */
  lemma ScanReached(g: Graph, start: Vertex, v: Vertex, head: nat,
                    d0: seq<Option<nat>>, q0: seq<Vertex>, u0: set<Vertex>,
                    d: seq<Option<nat>>, order: seq<Vertex>, pred: seq<Vertex>,
                    unseen: set<Vertex>, queue: seq<Vertex>, k: nat)
    requires Scanning(g, start, v, head, d0, q0, u0, d, order, pred, unseen, queue, k)
    requires k < |g.outedges[v]| && d[g.outedges[v][k]].Some?
    ensures Scanning(g, start, v, head, d0, q0, u0, d, order, pred, unseen, queue, k + 1)
  {
  }

  /** Examining a neighbour `u` that holds `None` gives it the distance of `v`
      plus one and pushes it. */
  lemma ScanDiscovered(g: Graph, start: Vertex, v: Vertex, head: nat,
                       d0: seq<Option<nat>>, q0: seq<Vertex>, u0: set<Vertex>,
                       d: seq<Option<nat>>, order: seq<Vertex>, pred: seq<Vertex>,
                       unseen: set<Vertex>, queue: seq<Vertex>, k: nat, u: Vertex)
    requires Scanning(g, start, v, head, d0, q0, u0, d, order, pred, unseen, queue, k)
    requires k < |g.outedges[v]| && u == g.outedges[v][k] && d[u].None?
    ensures Scanning(g, start, v, head, d0, q0, u0,
                     d[u := Some(d[v].value + 1)], order + [u], pred[u := v],
                     unseen - {u}, queue + [u], k + 1)
  {
    var e := d[u := Some(d[v].value + 1)];
    DiscoverStep(g, start, d, order, pred, v, u);
    GrowsKeepsClosed(g, d, e, order, head - 1, v, k);
    ProcessedClosedPush(g, e, order, head - 1, u);
    assert NeighboursClosed(g, e, v, k + 1);
    assert (order + [u])[head..] == queue + [u];
    assert (order + [u])[head - 1] == v;
    assert forall x :: x in unseen - {u} <==> 0 <= x < |e| && e[x].None?;
    assert Grows(d0, e);
  }

  /** Pushing a vertex leaves the processed prefix of the order unchanged. */
  lemma ProcessedClosedPush(g: Graph, d: seq<Option<nat>>, order: seq<Vertex>, h: nat, u: Vertex)
    requires ProcessedClosed(g, d, order, h)
    ensures ProcessedClosed(g, d, order + [u], h)
  {
    forall i | 0 <= i < h ensures (order + [u])[i] == order[i] {
    }
  }

  /** Dequeuing `queue[0]` starts the examination of its neighbours. */
  lemma ScanStart(g: Graph, start: Vertex, d: seq<Option<nat>>, order: seq<Vertex>, pred: seq<Vertex>,
                  unseen: set<Vertex>, head: nat, queue: seq<Vertex>)
    requires Searching(g, start, d, order, pred, unseen, head, queue) && |queue| > 0
    ensures queue[0] < |g.outedges|
    ensures Scanning(g, start, queue[0], head + 1, d, queue[1..], unseen, d, order, pred, unseen, queue[1..], 0)
  {
    assert queue[0] == order[head];
    assert queue[1..] == order[head + 1..];
  }

  /** Once every neighbour of the dequeued vertex is examined, the search
      state holds again with one more vertex processed. */
  lemma ScanEnd(g: Graph, start: Vertex, v: Vertex, head: nat,
                d0: seq<Option<nat>>, q0: seq<Vertex>, u0: set<Vertex>,
                d: seq<Option<nat>>, order: seq<Vertex>, pred: seq<Vertex>,
                unseen: set<Vertex>, queue: seq<Vertex>)
    requires v < |g.outedges| && Scanning(g, start, v, head, d0, q0, u0, d, order, pred, unseen, queue, |g.outedges[v]|)
    ensures Searching(g, start, d, order, pred, unseen, head, queue)
    ensures unseen < u0 || (unseen == u0 && queue == q0)
  {
    if head < |order| {
      assert d[order[head - 1]].value <= d[order[head]].value;
    }
  }

  /** What one scan of `v`'s neighbours adds, against the buffer `d0`, queue
      `q0` and push order `o0` it started from: the queue and the push order
      only grow, and by the same vertices; each of those held `None` before;
      and every vertex newly reached is a neighbour of `v`, has the distance
      of `v` plus one, and is among the pushed ones. */
  ghost predicate NewlyPushed(g: Graph, v: Vertex, d0: seq<Option<nat>>, q0: seq<Vertex>, o0: seq<Vertex>,
                              d: seq<Option<nat>>, queue: seq<Vertex>, order: seq<Vertex>)
  {
    && |d| == |d0| && v < |d0| && d0[v].Some? && v < |g.outedges|
    && q0 <= queue && o0 <= order && order[|o0|..] == queue[|q0|..]
    && (forall i :: |q0| <= i < |queue| ==> queue[i] < |d0| && d0[queue[i]].None?)
    && (forall x :: 0 <= x < |d| && d0[x].None? && d[x].Some? ==>
          d[x] == Some(d0[v].value + 1) && x in g.outedges[v] && x in queue[|q0|..])
  }

  /** Reaching the unreached neighbour `u` of `v` and pushing it keeps `NewlyPushed`. */
  lemma NewlyPushedStep(g: Graph, v: Vertex, d0: seq<Option<nat>>, q0: seq<Vertex>, o0: seq<Vertex>,
                        d: seq<Option<nat>>, queue: seq<Vertex>, order: seq<Vertex>, u: Vertex)
    requires NewlyPushed(g, v, d0, q0, o0, d, queue, order) && Grows(d0, d) && d[v] == d0[v]
    requires u in g.outedges[v] && u < |d| && d[u].None?
    ensures NewlyPushed(g, v, d0, q0, o0, d[u := Some(d[v].value + 1)], queue + [u], order + [u])
  {
    var queue', order' := queue + [u], order + [u];
    assert order'[|o0|..] == order[|o0|..] + [u];
    assert queue'[|q0|..] == queue[|q0|..] + [u];
    assert d0[u].None?;
  }

  /** Breadth-first search from `start`, writing hop counts into `distances`.
      The ghost result `enqueued` is every vertex pushed onto the queue, in
      push order. */
  method DistancesBfs(start: Vertex, g: Graph, distances: array<Option<nat>>) returns (ghost enqueued: seq<Vertex>)
    requires Valid(g) && start < g.n && g.n <= distances.Length
    requires forall x :: 0 <= x < distances.Length ==> distances[x].None?
    modifies distances
    ensures SourceAtZero(distances[..], start)
    ensures HasPredecessors(g, distances[..])
    ensures EdgeClosed(g, distances[..])
    ensures forall x :: g.n <= x < distances.Length ==> distances[x].None?
    // each vertex is pushed at most once, and exactly the reached ones are pushed
    ensures |enqueued| > 0 && enqueued[0] == start && Distinct(enqueued)
    ensures forall i :: 0 <= i < |enqueued| ==> enqueued[i] < g.n
    ensures forall x :: 0 <= x < distances.Length ==> (distances[x].Some? <==> x in enqueued)
    // vertices are discovered in non-decreasing order of distance
    ensures forall i, j :: 0 <= i < j < |enqueued| ==>
      distances[enqueued[i]].value <= distances[enqueued[j]].value
  {
    distances[start] := Some(0);
    var queue: seq<Vertex> := [start];
    enqueued := [start];
    // ghost mirror of the buffer, so that the search state is stated over a value
    ghost var dist := distances[..];
    ghost var head := 0;
    ghost var pred: seq<Vertex> := seq(distances.Length, _ => start);
    ghost var unseen := set x | 0 <= x < distances.Length && dist[x].None?;
    SearchStart(g, start, dist, unseen);
    while |queue| > 0
      invariant |dist| == distances.Length && forall x :: 0 <= x < |dist| ==> distances[x] == dist[x]
      invariant Searching(g, start, dist, enqueued, pred, unseen, head, queue)
      decreases unseen, |queue|
    {
      ScanStart(g, start, dist, enqueued, pred, unseen, head, queue);
      var v := queue[0];
      queue := queue[1..];
      head := head + 1;
      ghost var d0, q0, u0 := dist, queue, unseen;
      queue, enqueued, dist, pred, unseen := VisitNeighbours(g, start, distances, v, queue, head, enqueued, dist, pred, unseen);
      ScanEnd(g, start, v, head, d0, q0, u0, dist, enqueued, pred, unseen, queue);
    }
    SearchDone(g, start, dist, enqueued, pred);
    assert distances[..] == dist;
  }

  /** The inner loop of the search: every neighbour `u` of the dequeued vertex
      `v` whose entry is still `None` gets the distance of `v` plus one and is
      pushed. The ghost parameters carry the search state of `DistancesBfs`. */
  method VisitNeighbours(g: Graph, start: Vertex, distances: array<Option<nat>>, v: Vertex, queue: seq<Vertex>,
                         ghost head: nat, ghost enqueued: seq<Vertex>, ghost dist: seq<Option<nat>>,
                         ghost pred: seq<Vertex>, ghost unseen: set<Vertex>)
    returns (queue': seq<Vertex>, ghost enqueued': seq<Vertex>, ghost dist': seq<Option<nat>>,
             ghost pred': seq<Vertex>, ghost unseen': set<Vertex>)
    requires |dist| == distances.Length && forall x :: 0 <= x < |dist| ==> distances[x] == dist[x]
    requires v < |g.outedges|
    requires Scanning(g, start, v, head, dist, queue, unseen, dist, enqueued, pred, unseen, queue, 0)
    modifies distances
    ensures |dist'| == distances.Length && forall x :: 0 <= x < |dist'| ==> distances[x] == dist'[x]
    ensures Scanning(g, start, v, head, dist, queue, unseen, dist', enqueued', pred', unseen', queue', |g.outedges[v]|)
    ensures NewlyPushed(g, v, dist, queue, enqueued, dist', queue', enqueued')
  {
    queue', enqueued', dist', pred', unseen' := queue, enqueued, dist, pred, unseen;
    var neighbours := g.outedges[v];
    for k := 0 to |neighbours|
      invariant |dist'| == distances.Length && forall x :: 0 <= x < |dist'| ==> distances[x] == dist'[x]
      invariant Scanning(g, start, v, head, dist, queue, unseen, dist', enqueued', pred', unseen', queue', k)
      invariant NewlyPushed(g, v, dist, queue, enqueued, dist', queue', enqueued')
    {
      queue', enqueued', dist', pred', unseen' :=
        Examine(g, start, distances, v, neighbours[k], queue', head, dist, queue, unseen, enqueued, enqueued', dist', pred', unseen', k);
    }
  }

  /** One step of the scan, at the neighbour `u` of `v`: if `u` still holds
      `None` it gets the distance of `v` plus one and is pushed, otherwise
      nothing changes. `d0`, `q0`, `u0` and `o0` are the buffer, queue,
      unreached set and push order when `v` was dequeued. */
  method Examine(g: Graph, start: Vertex, distances: array<Option<nat>>, v: Vertex, u: Vertex, queue: seq<Vertex>,
                 ghost head: nat, ghost d0: seq<Option<nat>>, ghost q0: seq<Vertex>, ghost u0: set<Vertex>,
                 ghost o0: seq<Vertex>, ghost order: seq<Vertex>, ghost dist: seq<Option<nat>>,
                 ghost pred: seq<Vertex>, ghost unseen: set<Vertex>, ghost k: nat)
    returns (queue': seq<Vertex>, ghost order': seq<Vertex>, ghost dist': seq<Option<nat>>,
             ghost pred': seq<Vertex>, ghost unseen': set<Vertex>)
    requires |dist| == distances.Length && forall x :: 0 <= x < |dist| ==> distances[x] == dist[x]
    requires Scanning(g, start, v, head, d0, q0, u0, dist, order, pred, unseen, queue, k)
    requires NewlyPushed(g, v, d0, q0, o0, dist, queue, order)
    requires k < |g.outedges[v]| && u == g.outedges[v][k]
    modifies distances
    ensures |dist'| == distances.Length && forall x :: 0 <= x < |dist'| ==> distances[x] == dist'[x]
    ensures dist[u].None? ==> dist' == dist[u := Some(dist[v].value + 1)] && queue' == queue + [u] && order' == order + [u]
    ensures dist[u].Some? ==> dist' == dist && queue' == queue && order' == order
    ensures Scanning(g, start, v, head, d0, q0, u0, dist', order', pred', unseen', queue', k + 1)
    ensures NewlyPushed(g, v, d0, q0, o0, dist', queue', order')
  {
    if distances[u].None? {
      queue', order', dist', pred', unseen' :=
        Discover(g, start, distances, v, u, queue, head, d0, q0, u0, o0, order, dist, pred, unseen, k);
    } else {
      ScanReached(g, start, v, head, d0, q0, u0, dist, order, pred, unseen, queue, k);
      queue', order', dist', pred', unseen' := queue, order, dist, pred, unseen;
    }
  }

  /** One discovery of the scan: the neighbour `u` of `v`, still `None`, gets
      the distance of `v` plus one and is pushed. */
  method Discover(g: Graph, start: Vertex, distances: array<Option<nat>>, v: Vertex, u: Vertex, queue: seq<Vertex>,
                  ghost head: nat, ghost d0: seq<Option<nat>>, ghost q0: seq<Vertex>, ghost u0: set<Vertex>,
                  ghost o0: seq<Vertex>, ghost order: seq<Vertex>, ghost dist: seq<Option<nat>>,
                  ghost pred: seq<Vertex>, ghost unseen: set<Vertex>, ghost k: nat)
    returns (queue': seq<Vertex>, ghost order': seq<Vertex>, ghost dist': seq<Option<nat>>,
             ghost pred': seq<Vertex>, ghost unseen': set<Vertex>)
    requires |dist| == distances.Length && forall x :: 0 <= x < |dist| ==> distances[x] == dist[x]
    requires Scanning(g, start, v, head, d0, q0, u0, dist, order, pred, unseen, queue, k)
    requires NewlyPushed(g, v, d0, q0, o0, dist, queue, order)
    requires k < |g.outedges[v]| && u == g.outedges[v][k] && dist[u].None?
    modifies distances
    ensures |dist'| == distances.Length && forall x :: 0 <= x < |dist'| ==> distances[x] == dist'[x]
    ensures dist' == dist[u := Some(dist[v].value + 1)] && queue' == queue + [u] && order' == order + [u]
    ensures Scanning(g, start, v, head, d0, q0, u0, dist', order', pred', unseen', queue', k + 1)
    ensures NewlyPushed(g, v, d0, q0, o0, dist', queue', order')
  {
    ScanDiscovered(g, start, v, head, d0, q0, u0, dist, order, pred, unseen, queue, k, u);
    NewlyPushedStep(g, v, d0, q0, o0, dist, queue, order, u);
    dist' := SetEntry(distances, dist, u, Some(distances[v].value + 1));
    queue' := queue + [u];
    order' := order + [u];
    pred' := pred[u := v];
    unseen' := unseen - {u};
  }

  /** Writes `value` at index `u` of the buffer, and of its ghost mirror. */
  method SetEntry(distances: array<Option<nat>>, ghost dist: seq<Option<nat>>, u: Vertex, value: Option<nat>)
    returns (ghost dist': seq<Option<nat>>)
    requires |dist| == distances.Length && forall x :: 0 <= x < |dist| ==> distances[x] == dist[x]
    requires u < distances.Length
    modifies distances
    ensures dist' == dist[u := value]
    ensures |dist'| == distances.Length && forall x :: 0 <= x < |dist'| ==> distances[x] == dist'[x]
  {
    distances[u] := value;
    dist' := dist[u := value];
  }
}
