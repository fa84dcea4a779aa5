/**
  The statistics of f1/src/stats.rs: a breadth-first search from a start
  vertex, the reached hop counts collected in vertex order, and their mean,
  maximum and median. Rust's `f64` is modelled by `F64`, an exact real or
  NaN; the `u32` hop counts and their sum are unbounded naturals.
 */
module Stats {
  import opened Wrappers
  import opened Graphs
  import opened Traversal

  /** A floating-point result: a value held exactly, or NaN. */
  datatype F64 = Finite(value: real) | NaN

  /** The sum of `iter().sum()`; every element is at most the total. */
  function Sum(s: seq<nat>): (r: nat)
    ensures forall i :: 0 <= i < |s| ==> s[i] <= r
    decreases |s|
  {
    if |s| == 0 then 0 else Sum(s[..|s| - 1]) + s[|s| - 1]
  }

  /** `mean`: the sum divided by the count; on an empty list this is
      0.0 / 0.0, which is NaN. */
  function Mean(distances: seq<nat>): (r: F64)
    ensures r.NaN? <==> |distances| == 0
    ensures r.Finite? ==> r.value * |distances| as real == Sum(distances) as real
  {
    if |distances| == 0 then NaN
    else Finite(Sum(distances) as real / |distances| as real)
  }

  /** `max`: the largest element; `unwrap` panics on an empty list. */
  function Max(distances: seq<nat>): (r: nat)
    requires |distances| > 0
    ensures r in distances
    ensures forall i :: 0 <= i < |distances| ==> distances[i] <= r
    decreases |distances|
  {
    if |distances| == 1 then distances[0]
    else
      var m := Max(distances[..|distances| - 1]);
      var last := distances[|distances| - 1];
      if last < m then m else last
  }

  /** The smallest element, the lower bound of the mean and the median. */
  function Min(distances: seq<nat>): (r: nat)
    requires |distances| > 0
    ensures r in distances
    ensures forall i :: 0 <= i < |distances| ==> r <= distances[i]
    decreases |distances|
  {
    if |distances| == 1 then distances[0]
    else
      var m := Min(distances[..|distances| - 1]);
      var last := distances[|distances| - 1];
      if m <= last then m else last
  }

  lemma MultiplySuccessor(k: nat, x: nat)
    ensures (k + 1) * x == k * x + x
  {
  }

  lemma {:induction false} SumBounds(s: seq<nat>, lo: nat, hi: nat)
    requires forall i :: 0 <= i < |s| ==> lo <= s[i] <= hi
    ensures |s| * lo <= Sum(s) <= |s| * hi
    decreases |s|
  {
    if |s| > 0 {
      var prefix := s[..|s| - 1];
      assert forall i :: 0 <= i < |prefix| ==> prefix[i] == s[i];
      SumBounds(prefix, lo, hi);
      MultiplySuccessor(|prefix|, lo);
      MultiplySuccessor(|prefix|, hi);
    }
  }

  /** Division by a positive count keeps bounds on the total as bounds on the quotient. */
  lemma DivideBounds(sum: nat, n: nat, lo: nat, hi: nat)
    requires n > 0 && n * lo <= sum <= n * hi
    ensures lo as real <= sum as real / n as real <= hi as real
  {
    assert (n * lo) as real == n as real * lo as real;
    assert (n * hi) as real == n as real * hi as real;
  }

  /** The mean lies between the smallest and the largest element. */
  lemma MeanBounds(distances: seq<nat>)
    requires |distances| > 0
    ensures Min(distances) as real <= Mean(distances).value <= Max(distances) as real
  {
    SumBounds(distances, Min(distances), Max(distances));
    DivideBounds(Sum(distances), |distances|, Min(distances), Max(distances));
  }

  predicate IsSorted(s: seq<nat>) {
    forall i, j :: 0 <= i < j < |s| ==> s[i] <= s[j]
  }

  /** `x` placed before the first element not smaller than it. */
  function Insert(x: nat, s: seq<nat>): (r: seq<nat>)
    ensures multiset(r) == multiset(s) + multiset{x}
    decreases |s|
  {
    if |s| == 0 then [x]
    else if x <= s[0] then [x] + s
    else
      assert s == [s[0]] + s[1..];
      [s[0]] + Insert(x, s[1..])
  }

  lemma {:induction false} InsertKeepsSorted(x: nat, s: seq<nat>)
    requires IsSorted(s)
    ensures IsSorted(Insert(x, s))
    decreases |s|
  {
    if |s| > 0 && x > s[0] {
      var rest := Insert(x, s[1..]);
      InsertKeepsSorted(x, s[1..]);
      forall i | 0 <= i < |rest| ensures s[0] <= rest[i] {
        assert rest[i] in multiset(rest);
        assert rest[i] == x || rest[i] in multiset(s[1..]);
      }
    }
  }

  /** The ascending rearrangement of `s`, standing for the result of `sort`. */
  function Sort(s: seq<nat>): (r: seq<nat>)
    ensures IsSorted(r) && multiset(r) == multiset(s)
    decreases |s|
  {
    if |s| == 0 then []
    else
      assert s == [s[0]] + s[1..];
      var rest := Sort(s[1..]);
      InsertKeepsSorted(s[0], rest);
      Insert(s[0], rest)
  }

  /** A sorted permutation is unique, so every correct sorting algorithm,
      Rust's stable sort among them, produces `Sort(s)`. */
  lemma {:induction false} SortedUnique(a: seq<nat>, b: seq<nat>)
    requires IsSorted(a) && IsSorted(b) && multiset(a) == multiset(b)
    ensures a == b
    decreases |a|
  {
    if |a| > 0 {
      assert |b| == |multiset(b)| == |a|;
      assert a[0] in multiset(b) && b[0] in multiset(a);
      assert a == [a[0]] + a[1..] && b == [b[0]] + b[1..];
      assert multiset(a) == multiset{a[0]} + multiset(a[1..]);
      assert multiset(b) == multiset{b[0]} + multiset(b[1..]);
      assert a[0] == b[0];
      assert multiset(a[1..]) == multiset(a) - multiset{a[0]};
      assert multiset(b[1..]) == multiset(b) - multiset{b[0]};
      SortedUnique(a[1..], b[1..]);
    }
  }

  /** The middle element of an odd-length list, the mean of the two middle
      elements of an even-length one. On a sorted list the value lies
      between the two middle positions (which coincide for an odd length). */
  function Middle(sorted: seq<nat>): (r: real)
    requires |sorted| > 0
    ensures IsSorted(sorted) ==> sorted[(|sorted| - 1) / 2] as real <= r <= sorted[|sorted| / 2] as real
    ensures |sorted| % 2 == 1 ==> r == sorted[|sorted| / 2] as real
  {
    var len := |sorted|;
    if len % 2 == 1 then sorted[len / 2] as real
    else (sorted[len / 2 - 1] as real + sorted[len / 2] as real) / 2.0
  }

  /** Every ascending permutation of `s` is `Sort(s)`. */
  lemma SortedCopiesAgree(s: seq<nat>)
    ensures forall t: seq<nat> :: IsSorted(t) && multiset(t) == multiset(s) ==> t == Sort(s)
  {
    forall t: seq<nat> | IsSorted(t) && multiset(t) == multiset(s) ensures t == Sort(s) {
      SortedUnique(t, Sort(s));
    }
  }

  /** `median`: the middle of a sorted copy, whichever correct sort made it.
      An empty list makes `len / 2 - 1` underflow, so it is excluded. */
  function Median(distances: seq<nat>): (r: real)
    requires |distances| > 0
    ensures forall t: seq<nat> :: IsSorted(t) && multiset(t) == multiset(distances) ==> |t| > 0 && r == Middle(t)
  {
    SortedCopiesAgree(distances);
    assert |Sort(distances)| == |multiset(distances)| == |distances|;
    Middle(Sort(distances))
  }

  /** The number of elements strictly below `r`. */
  function CountBelow(s: seq<nat>, r: real): nat
    decreases |s|
  {
    if |s| == 0 then 0 else CountBelow(s[..|s| - 1], r) + (if (s[|s| - 1] as real) < r then 1 else 0)
  }

  /** The number of elements strictly above `r`. */
  function CountAbove(s: seq<nat>, r: real): nat
    decreases |s|
  {
    if |s| == 0 then 0 else CountAbove(s[..|s| - 1], r) + (if (s[|s| - 1] as real) > r then 1 else 0)
  }

  lemma {:induction false} CountConcat(a: seq<nat>, b: seq<nat>, r: real)
    ensures CountBelow(a + b, r) == CountBelow(a, r) + CountBelow(b, r)
    ensures CountAbove(a + b, r) == CountAbove(a, r) + CountAbove(b, r)
    decreases |b|
  {
    if |b| == 0 {
      assert a + b == a;
    } else {
      var b' := b[..|b| - 1];
      assert (a + b)[..|a + b| - 1] == a + b';
      assert (a + b)[|a + b| - 1] == b[|b| - 1];
      CountConcat(a, b', r);
    }
  }

  /** Taking out the element at `j` removes its contribution to the counts. */
  lemma CountRemove(b: seq<nat>, j: nat, r: real)
    requires j < |b|
    ensures CountBelow(b, r) == CountBelow(b[..j] + b[j + 1..], r) + (if (b[j] as real) < r then 1 else 0)
    ensures CountAbove(b, r) == CountAbove(b[..j] + b[j + 1..], r) + (if (b[j] as real) > r then 1 else 0)
  {
    var front, e, back := b[..j], b[j], b[j + 1..];
    assert b == front + ([e] + back);
    CountConcat(front, [e] + back, r);
    CountConcat([e], back, r);
    CountConcat(front, back, r);
    assert [e][..0] == [];
  }

  lemma RemoveElement(b: seq<nat>, j: nat)
    requires j < |b|
    ensures multiset(b[..j] + b[j + 1..]) == multiset(b) - multiset{b[j]}
  {
    assert b == b[..j] + [b[j]] + b[j + 1..];
  }

  /** Counting is blind to the order of the elements. */
  lemma {:induction false} CountPermutation(a: seq<nat>, b: seq<nat>, r: real)
    requires multiset(a) == multiset(b)
    ensures CountBelow(a, r) == CountBelow(b, r) && CountAbove(a, r) == CountAbove(b, r)
    decreases |a|
  {
    if |a| == 0 {
      assert |b| == |multiset(b)| == 0;
    } else {
      var a', e := a[..|a| - 1], a[|a| - 1];
      assert a == a' + [e];
      assert multiset(a') == multiset(a) - multiset{e};
      assert e in multiset(b);
      var j :| 0 <= j < |b| && b[j] == e;
      RemoveElement(b, j);
      CountRemove(b, j, r);
      CountPermutation(a', b[..j] + b[j + 1..], r);
      assert [e][..0] == [];
    }
  }

  /** In a sorted list, everything from index `m` on is at least `s[m]`, so
      at most `m` elements lie below any value not above `s[m]`. */
  lemma {:induction false} SortedCountBelow(s: seq<nat>, m: nat, r: real)
    requires IsSorted(s) && m < |s| && r <= s[m] as real
    ensures CountBelow(s, r) <= m
  {
    CountConcat(s[..m], s[m..], r);
    assert s == s[..m] + s[m..];
    CountBounded(s[..m], r);
    NoneBelow(s[m..], r);
  }

  /** In a sorted list, everything up to index `m` is at most `s[m]`, so at
      most `|s| - 1 - m` elements lie above any value not below `s[m]`. */
  lemma {:induction false} SortedCountAbove(s: seq<nat>, m: nat, r: real)
    requires IsSorted(s) && m < |s| && s[m] as real <= r
    ensures CountAbove(s, r) <= |s| - 1 - m
  {
    CountConcat(s[..m + 1], s[m + 1..], r);
    assert s == s[..m + 1] + s[m + 1..];
    CountBounded(s[m + 1..], r);
    NoneAbove(s[..m + 1], r);
  }

  lemma {:induction false} CountBounded(s: seq<nat>, r: real)
    ensures CountBelow(s, r) <= |s| && CountAbove(s, r) <= |s|
    decreases |s|
  {
    if |s| > 0 {
      CountBounded(s[..|s| - 1], r);
    }
  }

  lemma {:induction false} NoneBelow(s: seq<nat>, r: real)
    requires forall i :: 0 <= i < |s| ==> r <= s[i] as real
    ensures CountBelow(s, r) == 0
    decreases |s|
  {
    if |s| > 0 {
      NoneBelow(s[..|s| - 1], r);
    }
  }

  lemma {:induction false} NoneAbove(s: seq<nat>, r: real)
    requires forall i :: 0 <= i < |s| ==> s[i] as real <= r
    ensures CountAbove(s, r) == 0
    decreases |s|
  {
    if |s| > 0 {
      NoneAbove(s[..|s| - 1], r);
    }
  }

  /** The value `median` returns is a median in the usual sense: at most half
      of the elements lie strictly below it and at most half strictly above;
      for an odd count it is one of the elements. */
  lemma MedianIsMedian(distances: seq<nat>)
    requires |distances| > 0
    ensures CountBelow(distances, Median(distances)) <= |distances| / 2
    ensures CountAbove(distances, Median(distances)) <= |distances| / 2
    ensures |distances| % 2 == 1 ==> exists i :: 0 <= i < |distances| && distances[i] as real == Median(distances)
  {
    var sorted := Sort(distances);
    var len := |sorted|;
    var r := Median(distances);
    assert r == Middle(sorted);
    CountPermutation(distances, sorted, r);
    SortedCountBelow(sorted, len / 2, r);
    SortedCountAbove(sorted, (len - 1) / 2, r);
    assert sorted[len / 2] in multiset(distances);
  }

  /** The median lies between the smallest and the largest element. */
  lemma MedianBounds(distances: seq<nat>)
    requires |distances| > 0
    ensures Min(distances) as real <= Median(distances) <= Max(distances) as real
  {
    var sorted := Sort(distances);
    var len := |sorted|;
    assert Median(distances) == Middle(sorted);
    var lo, hi := sorted[(len - 1) / 2], sorted[len / 2];
    assert lo in multiset(distances) && hi in multiset(distances);
    var i :| 0 <= i < |distances| && distances[i] == lo;
    var j :| 0 <= j < |distances| && distances[j] == hi;
    assert Min(distances) <= lo && hi <= Max(distances);
  }

  /** `filter_map(|&dist| dist)`: the held distances, in vertex order. */
  function FilterSome(s: seq<Option<nat>>): (r: seq<nat>)
    ensures forall x :: multiset(r)[x] == multiset(s)[Some(x)]
    decreases |s|
  {
    if |s| == 0 then []
    else
      var prefix := s[..|s| - 1];
      assert s == prefix + [s[|s| - 1]];
      match s[|s| - 1]
      case None => FilterSome(prefix)
      case Some(x) => FilterSome(prefix) + [x]
  }

  /** Over a distance map, the largest held distance is the eccentricity of
      the source: some vertex is exactly that far, and none is farther. */
  lemma MaxIsEccentricity(g: Graph, start: Vertex, d: seq<Option<nat>>)
    requires IsDistanceMap(g, start, d) && |d| == g.n && |FilterSome(d)| > 0
    ensures exists v :: 0 <= v < g.n && IsHopCount(g, start, v, Max(FilterSome(d)))
    ensures forall v, k: nat :: 0 <= v < g.n && IsHopCount(g, start, v, k) ==> k <= Max(FilterSome(d))
  {
    var filtered := FilterSome(d);
    var m := Max(filtered);
    assert multiset(d)[Some(m)] > 0;
    var v :| 0 <= v < |d| && d[v] == Some(m);
    forall v, k: nat | 0 <= v < g.n && IsHopCount(g, start, v, k) ensures k <= m {
      assert WalkOfLength(g, start, v, k);
      assert d[v].Some?;
      assert WalkOfLength(g, start, v, d[v].value);
      assert d[v] == Some(k);
      assert d[v] in multiset(d);
      assert k in multiset(filtered);
    }
  }

  /** `calculate_graph_statistics`: the mean, maximum and median of the hop
      counts of the vertices reachable from `startVertex`. The ghost result
      `distances` is the buffer the search fills. */
  method CalculateGraphStatistics(graph: Graph, startVertex: Vertex)
    returns (meanDistance: F64, maxDistance: nat, medianDistance: real, ghost distances: seq<Option<nat>>)
    requires Valid(graph) && startVertex < graph.n
    ensures |distances| == graph.n && IsDistanceMap(graph, startVertex, distances)
    ensures |FilterSome(distances)| > 0
    ensures meanDistance == Mean(FilterSome(distances))
    ensures maxDistance == Max(FilterSome(distances))
    ensures medianDistance == Median(FilterSome(distances))
    // the source is always reached, so the list is never empty and the mean is a number
    ensures meanDistance.Finite? && 0.0 <= meanDistance.value <= maxDistance as real
    ensures 0.0 <= medianDistance <= maxDistance as real
    // the maximum is the eccentricity of the start vertex
    ensures exists v :: 0 <= v < graph.n && IsHopCount(graph, startVertex, v, maxDistance)
    ensures forall v, k: nat :: 0 <= v < graph.n && IsHopCount(graph, startVertex, v, k) ==> k <= maxDistance
  {
    var buffer := new Option<nat>[graph.n](_ => None);
    ghost var enqueued := DistancesBfs(startVertex, graph, buffer);
    var found := buffer[..];
    distances := found;
    BfsResultIsExact(graph, startVertex, distances);
    var filteredDistances := FilterSome(found);
    assert distances[startVertex] in multiset(distances);
    assert multiset(filteredDistances)[0] > 0;
    meanDistance := Mean(filteredDistances);
    maxDistance := Max(filteredDistances);
    medianDistance := Median(filteredDistances);
    MeanBounds(filteredDistances);
    MedianBounds(filteredDistances);
    MaxIsEccentricity(graph, startVertex, distances);
  }
}
