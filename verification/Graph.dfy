/**
  Kruskal's algorithm: sort the edges, then keep each edge that joins two sets
  of the union-find structure.  The result is compared with an independent
  definition of a minimum spanning forest.
 */
module Graphs {
  import opened Wrappers
  import opened Connectivity
  import opened UnionFinds

  datatype Edge<E> = Edge(from: int, to: int, attribute: E)

  // ---------- Comparisons and sorting ----------

  ghost predicate TotalPreorder<E(!new)>(compare: (E, E) -> int) {
    && (forall x, y :: compare(x, y) <= 0 || compare(y, x) <= 0)
    && (forall x, y, z :: compare(x, y) <= 0 && compare(y, z) <= 0 ==> compare(x, z) <= 0)
  }

  ghost predicate Sorted<E>(compare: (E, E) -> int, edges: seq<Edge<E>>) {
    forall i, j :: 0 <= i < j < |edges| ==> compare(edges[i].attribute, edges[j].attribute) <= 0
  }

  /** A weighting that never gives the cheaper of two attributes the larger weight. */
  ghost predicate Respects<E(!new)>(weight: E -> real, compare: (E, E) -> int) {
    forall x, y :: compare(x, y) <= 0 ==> weight(x) <= weight(y)
  }

  // ---------- What a minimum spanning forest is ----------

  ghost predicate EdgesInRange<E>(n: nat, edges: seq<Edge<E>>) {
    forall e :: e in edges ==> 0 <= e.from < n && 0 <= e.to < n
  }

  ghost function Ends<E>(n: nat, edges: seq<Edge<E>>): (pairs: seq<Pair>)
    requires EdgesInRange(n, edges)
    ensures |pairs| == |edges| && InRange(n, pairs)
  {
    if edges == [] then
      []
    else
      assert edges[|edges| - 1] in edges;
      Ends(n, edges[..|edges| - 1]) + [(edges[|edges| - 1].from as nat, edges[|edges| - 1].to as nat)]
  }

  ghost function Without<T>(s: seq<T>, i: nat): seq<T>
    requires i < |s|
  {
    s[..i] + s[i + 1..]
  }

  /** The ends of the edge are not connected by the other edges. */
  ghost predicate IsBridge<E>(n: nat, edges: seq<Edge<E>>, i: nat)
    requires EdgesInRange(n, edges) && i < |edges|
  {
    !Connected(Ends(n, Without(edges, i)), edges[i].from, edges[i].to)
  }

  /** No edge lies on a cycle. */
  ghost predicate Acyclic<E>(n: nat, edges: seq<Edge<E>>)
    requires EdgesInRange(n, edges)
  {
    forall i :: 0 <= i < |edges| ==> IsBridge(n, edges, i)
  }

  /** The same vertices below n are connected by either sequence of pairs. */
  ghost predicate SameConnections(n: nat, some: seq<Pair>, others: seq<Pair>) {
    forall a, b :: 0 <= a < n && 0 <= b < n ==> (Connected(some, a, b) <==> Connected(others, a, b))
  }

  ghost predicate SpanningForest<E>(n: nat, forest: seq<Edge<E>>, edges: seq<Edge<E>>)
    requires EdgesInRange(n, edges)
  {
    && (forall e :: e in forest ==> e in edges)
    && Acyclic(n, forest)
    && SameConnections(n, Ends(n, forest), Ends(n, edges))
  }

  ghost function Weight<E>(weight: E -> real, edges: seq<Edge<E>>): real {
    if edges == [] then 0.0 else Weight(weight, edges[..|edges| - 1]) + weight(edges[|edges| - 1].attribute)
  }

  /** A spanning forest than which no other is lighter, whatever weighting the comparison stands for. */
  ghost predicate MinimumSpanningForest<E(!new)>(compare: (E, E) -> int, n: nat, forest: seq<Edge<E>>, edges: seq<Edge<E>>)
    requires EdgesInRange(n, edges)
  {
    && SpanningForest(n, forest, edges)
    && forall weight: E -> real, other: seq<Edge<E>> {:trigger Weight(weight, other)} ::
         Respects(weight, compare) && SpanningForest(n, other, edges) ==> Weight(weight, forest) <= Weight(weight, other)
  }

  // ---------- The edges that are kept ----------

  /** The edges that join two classes of the edges before them. */
  ghost function Kept<E>(n: nat, edges: seq<Edge<E>>): (kept: seq<Edge<E>>)
    requires EdgesInRange(n, edges)
    ensures multiset(kept) <= multiset(edges)
  {
    if edges == [] then
      []
    else
      var prev, last := edges[..|edges| - 1], edges[|edges| - 1];
      assert edges == prev + [last];
      assert last in edges;
      if Connected(Ends(n, prev), last.from, last.to) then Kept(n, prev) else Kept(n, prev) + [last]
  }

  lemma KeptAreEdges<E>(n: nat, edges: seq<Edge<E>>)
    requires EdgesInRange(n, edges)
    ensures forall e :: e in Kept(n, edges) ==> e in edges
    ensures EdgesInRange(n, Kept(n, edges))
  {
    forall e | e in Kept(n, edges) ensures e in edges {
      assert multiset(Kept(n, edges))[e] <= multiset(edges)[e];
    }
  }

  lemma EndsOfLast<E>(n: nat, prev: seq<Edge<E>>, last: Edge<E>)
    requires EdgesInRange(n, prev + [last])
    ensures EdgesInRange(n, prev) && 0 <= last.from < n && 0 <= last.to < n
    ensures Ends(n, prev + [last]) == Ends(n, prev) + [(last.from as nat, last.to as nat)]
  {
    assert (prev + [last])[..|prev|] == prev;
    assert last in prev + [last];
    forall e | e in prev ensures 0 <= e.from < n && 0 <= e.to < n {
      assert e in prev + [last];
    }
  }

  lemma {:induction false} EndsContain<E>(n: nat, edges: seq<Edge<E>>, p: Pair)
    requires EdgesInRange(n, edges)
    ensures p in Ends(n, edges) <==> exists e :: e in edges && p == (e.from, e.to)
  {
    if edges != [] {
      var prev, last := edges[..|edges| - 1], edges[|edges| - 1];
      EndsContain(n, prev, p);
      assert edges == prev + [last];
    }
  }

  lemma EdgeEndsConnected<E>(n: nat, edges: seq<Edge<E>>, e: Edge<E>)
    requires EdgesInRange(n, edges) && e in edges
    ensures Connected(Ends(n, edges), e.from, e.to)
  {
    EndsContain(n, edges, (e.from as nat, e.to as nat));
    ConnectedIsEquivalence(Ends(n, edges));
  }

  /** The ends of every edge of the first list are connected by the second. */
  ghost predicate Covers<E>(n: nat, few: seq<Edge<E>>, many: seq<Edge<E>>)
    requires EdgesInRange(n, few) && EdgesInRange(n, many)
  {
    forall e :: e in few ==> Connected(Ends(n, many), e.from, e.to)
  }

  lemma CoverPairs<E>(n: nat, few: seq<Edge<E>>, many: seq<Edge<E>>)
    requires EdgesInRange(n, few) && EdgesInRange(n, many) && Covers(n, few, many)
    ensures forall p :: p in Ends(n, few) ==> Connected(Ends(n, many), p.0, p.1)
  {
    forall p | p in Ends(n, few) ensures Connected(Ends(n, many), p.0, p.1) {
      EndsContain(n, few, p);
    }
  }

  lemma CoverConnects<E>(n: nat, few: seq<Edge<E>>, many: seq<Edge<E>>, a: nat, b: nat)
    requires EdgesInRange(n, few) && EdgesInRange(n, many) && Covers(n, few, many)
    requires Connected(Ends(n, few), a, b)
    ensures Connected(Ends(n, many), a, b)
  {
    CoverPairs(n, few, many);
    ConnectedMonotone(Ends(n, few), Ends(n, many), a, b);
  }

  lemma CoverHasFewerClasses<E>(n: nat, few: seq<Edge<E>>, many: seq<Edge<E>>)
    requires EdgesInRange(n, few) && EdgesInRange(n, many) && Covers(n, few, many)
    ensures |Labels(n, Ends(n, many))| <= |Labels(n, Ends(n, few))|
  {
    CoverPairs(n, few, many);
    CoarserHasFewerClasses(n, Ends(n, few), Ends(n, many));
  }

  lemma SubsetIsCovered<E>(n: nat, few: seq<Edge<E>>, many: seq<Edge<E>>)
    requires EdgesInRange(n, many)
    requires forall e :: e in few ==> e in many
    ensures EdgesInRange(n, few) && Covers(n, few, many)
  {
    forall e | e in few ensures Connected(Ends(n, many), e.from, e.to) {
      EdgeEndsConnected(n, many, e);
    }
  }

  // ---------- The kept edges span ----------

  lemma {:induction false} KeptConnect<E>(n: nat, edges: seq<Edge<E>>, a: nat, b: nat)
    requires EdgesInRange(n, edges)
    ensures EdgesInRange(n, Kept(n, edges))
    ensures Connected(Ends(n, Kept(n, edges)), a, b) <==> Connected(Ends(n, edges), a, b)
  {
    KeptAreEdges(n, edges);
    if edges != [] {
      var prev, last := edges[..|edges| - 1], edges[|edges| - 1];
      assert edges == prev + [last];
      EndsOfLast(n, prev, last);
      KeptConnect(n, prev, a, b);
      var x, y: nat := last.from, last.to;
      if Connected(Ends(n, prev), x, y) {
        ConnectAlready(Ends(n, prev), x, y, a, b);
      } else {
        EndsOfLast(n, Kept(n, prev), last);
        KeptConnect(n, prev, a, x);
        KeptConnect(n, prev, a, y);
        KeptConnect(n, prev, x, b);
        KeptConnect(n, prev, y, b);
        ConnectedByLast(Ends(n, prev), x, y, a, b);
        ConnectedByLast(Ends(n, Kept(n, prev)), x, y, a, b);
      }
    }
  }

  // ---------- Counting edges and classes ----------

  /** Every edge joins two classes of the edges before it. */
  ghost predicate Merging<E>(n: nat, edges: seq<Edge<E>>)
    requires EdgesInRange(n, edges)
  {
    edges == [] ||
    var prev, last := edges[..|edges| - 1], edges[|edges| - 1];
    Merging(n, prev) && !Connected(Ends(n, prev), last.from, last.to)
  }

  lemma {:induction false} ClassCount<E>(n: nat, edges: seq<Edge<E>>)
    requires EdgesInRange(n, edges)
    ensures |Labels(n, Ends(n, edges))| >= n - |edges|
    ensures |Labels(n, Ends(n, edges))| == n - |Kept(n, edges)|
    ensures Merging(n, edges) ==> Kept(n, edges) == edges
  {
    if edges == [] {
      ClassesInitially(n);
    } else {
      var prev, last := edges[..|edges| - 1], edges[|edges| - 1];
      assert edges == prev + [last];
      EndsOfLast(n, prev, last);
      ClassCount(n, prev);
      ClassesAfterPair(n, Ends(n, prev), last.from, last.to);
    }
  }

  lemma {:induction false} AcyclicMerges<E>(n: nat, edges: seq<Edge<E>>, k: nat)
    requires EdgesInRange(n, edges) && Acyclic(n, edges) && k <= |edges|
    ensures Merging(n, edges[..k])
  {
    if k > 0 {
      AcyclicMerges(n, edges, k - 1);
      var prev, last, others := edges[..k - 1], edges[k - 1], Without(edges, k - 1);
      assert edges[..k][..k - 1] == prev;
      assert IsBridge(n, edges, k - 1);
      SubsetIsCovered(n, prev, others);
      if Connected(Ends(n, prev), last.from, last.to) {
        CoverConnects(n, prev, others, last.from, last.to);
      }
    }
  }

  lemma {:induction false} KeptMerges<E>(n: nat, edges: seq<Edge<E>>)
    requires EdgesInRange(n, edges)
    ensures EdgesInRange(n, Kept(n, edges)) && Merging(n, Kept(n, edges))
  {
    KeptAreEdges(n, edges);
    if edges != [] {
      var prev, last := edges[..|edges| - 1], edges[|edges| - 1];
      assert last in edges;
      KeptMerges(n, prev);
      KeptConnect(n, prev, last.from, last.to);
      assert (Kept(n, prev) + [last])[..|Kept(n, prev)|] == Kept(n, prev);
    }
  }

  /** Of edges that merge classes one after the other, none is connected by the others. */
  lemma MergingIsBridge<E>(n: nat, edges: seq<Edge<E>>, i: nat)
    requires EdgesInRange(n, edges) && Merging(n, edges) && i < |edges|
    ensures IsBridge(n, edges, i)
  {
    var others := Without(edges, i);
    if Connected(Ends(n, others), edges[i].from, edges[i].to) {
      forall e | e in edges ensures Connected(Ends(n, others), e.from, e.to) {
        var j :| 0 <= j < |edges| && edges[j] == e;
        if j != i {
          assert others[if j < i then j else j - 1] == e;
          EdgeEndsConnected(n, others, e);
        }
      }
      CoverHasFewerClasses(n, edges, others);
      ClassCount(n, edges);
      ClassCount(n, others);
    }
  }

  lemma KeptIsSpanningForest<E>(n: nat, edges: seq<Edge<E>>)
    requires EdgesInRange(n, edges)
    ensures SpanningForest(n, Kept(n, edges), edges)
  {
    var kept := Kept(n, edges);
    KeptAreEdges(n, edges);
    KeptMerges(n, edges);
    forall i | 0 <= i < |kept| ensures IsBridge(n, kept, i) {
      MergingIsBridge(n, kept, i);
    }
    forall a, b | 0 <= a < n && 0 <= b < n ensures Connected(Ends(n, kept), a, b) <==> Connected(Ends(n, edges), a, b) {
      KeptConnect(n, edges, a, b);
    }
  }

  // ---------- Minimality ----------

  /** The edges that weigh at most t. */
  ghost function UpTo<E(!new)>(weight: E -> real, t: real, edges: seq<Edge<E>>): (light: seq<Edge<E>>)
    ensures forall e :: e in light <==> e in edges && weight(e.attribute) <= t
    ensures |light| <= |edges|
  {
    if edges == [] then
      []
    else
      var prev, last := edges[..|edges| - 1], edges[|edges| - 1];
      assert edges == prev + [last];
      if weight(last.attribute) <= t then UpTo(weight, t, prev) + [last] else UpTo(weight, t, prev)
  }

  lemma {:induction false} UpToMerges<E(!new)>(weight: E -> real, t: real, n: nat, edges: seq<Edge<E>>)
    requires EdgesInRange(n, edges) && Merging(n, edges)
    ensures EdgesInRange(n, UpTo(weight, t, edges)) && Merging(n, UpTo(weight, t, edges))
  {
    if edges != [] {
      var prev, last := edges[..|edges| - 1], edges[|edges| - 1];
      var light := UpTo(weight, t, prev);
      UpToMerges(weight, t, n, prev);
      SubsetIsCovered(n, light, prev);
      assert last in edges;
      if Connected(Ends(n, light), last.from, last.to) {
        CoverConnects(n, light, prev, last.from, last.to);
      }
      assert (light + [last])[..|light|] == light;
    }
  }

  /** Of edges sorted by weight, the light ones come first, and keeping edges commutes with cutting there. */
  lemma {:induction false} UpToKept<E(!new)>(weight: E -> real, t: real, n: nat, edges: seq<Edge<E>>)
    requires EdgesInRange(n, edges)
    requires forall i, j :: 0 <= i < j < |edges| ==> weight(edges[i].attribute) <= weight(edges[j].attribute)
    ensures UpTo(weight, t, edges) <= edges
    ensures EdgesInRange(n, UpTo(weight, t, edges))
    ensures UpTo(weight, t, Kept(n, edges)) == Kept(n, UpTo(weight, t, edges))
  {
    if edges != [] {
      var prev, last := edges[..|edges| - 1], edges[|edges| - 1];
      assert edges == prev + [last];
      KeptAreEdges(n, edges);
      if weight(last.attribute) <= t {
        AllLight(weight, t, edges);
        AllLight(weight, t, Kept(n, edges));
      } else {
        UpToKept(weight, t, n, prev);
        var kept := Kept(n, prev);
        assert (kept + [last])[..|kept|] == kept;
        assert UpTo(weight, t, kept + [last]) == UpTo(weight, t, kept);
      }
    }
  }

  lemma {:induction false} AllLight<E(!new)>(weight: E -> real, t: real, edges: seq<Edge<E>>)
    requires forall e :: e in edges ==> weight(e.attribute) <= t
    ensures UpTo(weight, t, edges) == edges
  {
    if edges != [] {
      AllLight(weight, t, edges[..|edges| - 1]);
    }
  }

  /** At every threshold an acyclic set of edges has at most as many light edges as the kept ones. */
  lemma FewerLightEdges<E(!new)>(weight: E -> real, t: real, n: nat, edges: seq<Edge<E>>, other: seq<Edge<E>>)
    requires EdgesInRange(n, edges)
    requires forall i, j :: 0 <= i < j < |edges| ==> weight(edges[i].attribute) <= weight(edges[j].attribute)
    requires forall e :: e in other ==> e in edges
    requires Acyclic(n, other)
    ensures |UpTo(weight, t, other)| <= |UpTo(weight, t, Kept(n, edges))|
  {
    AcyclicMerges(n, other, |other|);
    assert other[..|other|] == other;
    UpToMerges(weight, t, n, other);
    UpToKept(weight, t, n, edges);
    var otherLight, light := UpTo(weight, t, other), UpTo(weight, t, edges);
    ClassCount(n, otherLight);
    ClassCount(n, light);
    SubsetIsCovered(n, otherLight, light);
    CoverHasFewerClasses(n, otherLight, light);
  }

  lemma SpanningForestsAreEquallyLarge<E>(n: nat, edges: seq<Edge<E>>, other: seq<Edge<E>>)
    requires EdgesInRange(n, edges) && SpanningForest(n, other, edges)
    ensures |other| == |Kept(n, edges)|
  {
    AcyclicMerges(n, other, |other|);
    assert other[..|other|] == other;
    ClassCount(n, other);
    ClassCount(n, edges);
    SubsetIsCovered(n, other, edges);
    CoverHasFewerClasses(n, other, edges);
    forall e | e in edges ensures Connected(Ends(n, other), e.from, e.to) {
      EdgeEndsConnected(n, edges, e);
      assert Connected(Ends(n, edges), e.from as nat, e.to as nat);
    }
    CoverHasFewerClasses(n, edges, other);
  }

  lemma {:induction false} WeightOfRest<E(!new)>(weight: E -> real, edges: seq<Edge<E>>, i: nat)
    requires i < |edges|
    ensures Weight(weight, edges) == Weight(weight, Without(edges, i)) + weight(edges[i].attribute)
  {
    var prev, last := edges[..|edges| - 1], edges[|edges| - 1];
    var rest := Without(edges, i);
    if i == |edges| - 1 {
      assert rest == prev;
    } else {
      WeightOfRest(weight, prev, i);
      assert rest[..|rest| - 1] == Without(prev, i);
    }
  }

  lemma {:induction false} LightOfRest<E(!new)>(weight: E -> real, edges: seq<Edge<E>>, i: nat, t: real)
    requires i < |edges|
    ensures |UpTo(weight, t, edges)| == |UpTo(weight, t, Without(edges, i))| + (if weight(edges[i].attribute) <= t then 1 else 0)
  {
    var prev, last := edges[..|edges| - 1], edges[|edges| - 1];
    OneMoreLight(weight, t, prev, last, edges);
    if i == |edges| - 1 {
      assert Without(edges, i) == prev;
    } else {
      LightOfRest(weight, prev, i, t);
      assert Without(edges, i) == Without(prev, i) + [last];
      OneMoreLight(weight, t, Without(prev, i), last, Without(edges, i));
    }
  }

  lemma OneMoreLight<E(!new)>(weight: E -> real, t: real, prev: seq<Edge<E>>, last: Edge<E>, edges: seq<Edge<E>>)
    requires edges == prev + [last]
    ensures |UpTo(weight, t, edges)| == |UpTo(weight, t, prev)| + (if weight(last.attribute) <= t then 1 else 0)
  {
    assert edges[..|edges| - 1] == prev;
  }

  ghost function Heaviest<E(!new)>(weight: E -> real, edges: seq<Edge<E>>): (i: nat)
    requires edges != []
    ensures i < |edges| && forall e :: e in edges ==> weight(e.attribute) <= weight(edges[i].attribute)
  {
    if |edges| == 1 then
      0
    else
      var prev, last := edges[..|edges| - 1], edges[|edges| - 1];
      var i := Heaviest(weight, prev);
      assert edges == prev + [last];
      if weight(prev[i].attribute) <= weight(last.attribute) then |edges| - 1 else i
  }

  /** A list that has at least as many light edges at every threshold is no heavier. */
  lemma {:induction false} MoreLightIsLighter<E(!new)>(weight: E -> real, light: seq<Edge<E>>, other: seq<Edge<E>>)
    requires |light| == |other|
    requires forall t: real :: |UpTo(weight, t, other)| <= |UpTo(weight, t, light)|
    ensures Weight(weight, light) <= Weight(weight, other)
    decreases |light|
  {
    if light != [] {
      var i, j := Heaviest(weight, light), Heaviest(weight, other);
      HeaviestIsLighter(weight, light, i, other, j);
      WeightOfRest(weight, light, i);
      WeightOfRest(weight, other, j);
      forall t: real ensures |UpTo(weight, t, Without(other, j))| <= |UpTo(weight, t, Without(light, i))| {
        StillMoreLight(weight, light, i, other, j, t);
      }
      MoreLightIsLighter(weight, Without(light, i), Without(other, j));
    }
  }

  lemma HeaviestIsLighter<E(!new)>(weight: E -> real, light: seq<Edge<E>>, i: nat, other: seq<Edge<E>>, j: nat)
    requires |light| == |other| && i < |light| && j < |other|
    requires forall e :: e in other ==> weight(e.attribute) <= weight(other[j].attribute)
    requires |UpTo(weight, weight(other[j].attribute), other)| <= |UpTo(weight, weight(other[j].attribute), light)|
    ensures weight(light[i].attribute) <= weight(other[j].attribute)
  {
    AllLight(weight, weight(other[j].attribute), other);
    UpToIsWhole(weight, weight(other[j].attribute), light);
    assert light[i] in light;
  }

  /** Without the heaviest edge of the lighter list and some edge that weighs as much or more, this stays so. */
  lemma StillMoreLight<E(!new)>(weight: E -> real, light: seq<Edge<E>>, i: nat, other: seq<Edge<E>>, j: nat, t: real)
    requires |light| == |other| && i < |light| && j < |other|
    requires |UpTo(weight, t, other)| <= |UpTo(weight, t, light)|
    requires forall e :: e in light ==> weight(e.attribute) <= weight(light[i].attribute)
    requires weight(light[i].attribute) <= weight(other[j].attribute)
    ensures |UpTo(weight, t, Without(other, j))| <= |UpTo(weight, t, Without(light, i))|
  {
    LightOfRest(weight, light, i, t);
    LightOfRest(weight, other, j, t);
    if weight(light[i].attribute) <= t {
      AllLight(weight, t, light);
    }
  }

  lemma {:induction false} UpToIsWhole<E(!new)>(weight: E -> real, t: real, edges: seq<Edge<E>>)
    requires |UpTo(weight, t, edges)| == |edges|
    ensures forall e :: e in edges ==> weight(e.attribute) <= t
  {
    if edges != [] {
      var prev, last := edges[..|edges| - 1], edges[|edges| - 1];
      assert edges == prev + [last];
      UpToIsWhole(weight, t, prev);
    }
  }

  lemma NoneIsLighter<E(!new)>(weight: E -> real, n: nat, edges: seq<Edge<E>>, other: seq<Edge<E>>)
    requires EdgesInRange(n, edges) && SpanningForest(n, other, edges)
    requires forall i, j :: 0 <= i < j < |edges| ==> weight(edges[i].attribute) <= weight(edges[j].attribute)
    ensures Weight(weight, Kept(n, edges)) <= Weight(weight, other)
  {
    SpanningForestsAreEquallyLarge(n, edges, other);
    forall t: real ensures |UpTo(weight, t, other)| <= |UpTo(weight, t, Kept(n, edges))| {
      FewerLightEdges(weight, t, n, edges, other);
    }
    MoreLightIsLighter(weight, Kept(n, edges), other);
  }

  /** The edges kept of a sorted list are a minimum spanning forest. */
  lemma KeptIsMinimal<E(!new)>(compare: (E, E) -> int, n: nat, edges: seq<Edge<E>>)
    requires EdgesInRange(n, edges) && Sorted(compare, edges)
    ensures MinimumSpanningForest(compare, n, Kept(n, edges), edges)
  {
    KeptIsSpanningForest(n, edges);
    forall weight: E -> real, other: seq<Edge<E>> | Respects(weight, compare) && SpanningForest(n, other, edges)
      ensures Weight(weight, Kept(n, edges)) <= Weight(weight, other)
    {
      NoneIsLighter(weight, n, edges, other);
    }
  }

  /** Which edges a spanning forest may use does not depend on their order. */
  lemma MinimumIgnoresOrder<E(!new)>(compare: (E, E) -> int, n: nat, forest: seq<Edge<E>>,
                                     edges: seq<Edge<E>>, reordered: seq<Edge<E>>)
    requires EdgesInRange(n, edges) && multiset(edges) == multiset(reordered)
    requires MinimumSpanningForest(compare, n, forest, edges)
    ensures EdgesInRange(n, reordered) && MinimumSpanningForest(compare, n, forest, reordered)
  {
    SameElements(edges, reordered);
    SubsetIsCovered(n, edges, reordered);
    SubsetIsCovered(n, reordered, edges);
    forall a: nat, b: nat ensures Connected(Ends(n, edges), a, b) <==> Connected(Ends(n, reordered), a, b) {
      if Connected(Ends(n, edges), a, b) {
        CoverConnects(n, edges, reordered, a, b);
      }
      if Connected(Ends(n, reordered), a, b) {
        CoverConnects(n, reordered, edges, a, b);
      }
    }
    forall other: seq<Edge<E>> ensures SpanningForest(n, other, reordered) <==> SpanningForest(n, other, edges) {
      SameSpanning(n, other, edges, reordered);
    }
  }

  lemma SameSpanning<E>(n: nat, forest: seq<Edge<E>>, edges: seq<Edge<E>>, reordered: seq<Edge<E>>)
    requires EdgesInRange(n, edges) && EdgesInRange(n, reordered)
    requires forall e :: e in edges <==> e in reordered
    requires forall a: nat, b: nat :: Connected(Ends(n, edges), a, b) <==> Connected(Ends(n, reordered), a, b)
    ensures SpanningForest(n, forest, reordered) <==> SpanningForest(n, forest, edges)
  {
  }

  lemma SameElements<T>(s: seq<T>, t: seq<T>)
    requires multiset(s) == multiset(t)
    ensures forall x :: x in s <==> x in t
  {
    forall x ensures x in s <==> x in t {
      assert x in s <==> x in multiset(s);
      assert x in t <==> x in multiset(t);
    }
  }

  method InsertSorted<E(!new)>(compare: (E, E) -> int, sorted: seq<Edge<E>>, e: Edge<E>) returns (inserted: seq<Edge<E>>)
    requires TotalPreorder(compare) && Sorted(compare, sorted)
    ensures Sorted(compare, inserted)
    ensures multiset(inserted) == multiset(sorted + [e])
  {
    var i := 0;
    while i < |sorted| && compare(sorted[i].attribute, e.attribute) <= 0
      invariant 0 <= i <= |sorted|
      invariant forall k :: 0 <= k < i ==> compare(sorted[k].attribute, e.attribute) <= 0
    {
      i := i + 1;
    }
    InsertKeepsSorted(compare, sorted, e, i);
    assert sorted == sorted[..i] + sorted[i..];
    inserted := sorted[..i] + [e] + sorted[i..];
  }

  lemma InsertKeepsSorted<E(!new)>(compare: (E, E) -> int, sorted: seq<Edge<E>>, e: Edge<E>, i: nat)
    requires TotalPreorder(compare) && Sorted(compare, sorted) && i <= |sorted|
    requires forall k :: 0 <= k < i ==> compare(sorted[k].attribute, e.attribute) <= 0
    requires i < |sorted| ==> compare(sorted[i].attribute, e.attribute) > 0
    ensures Sorted(compare, sorted[..i] + [e] + sorted[i..])
  {
    forall k | i <= k < |sorted| ensures compare(e.attribute, sorted[k].attribute) <= 0 {
      assert compare(sorted[i].attribute, sorted[k].attribute) <= 0 || k == i;
    }
  }

  // ---------- The class ----------

  datatype Exception = ArgumentOutOfRange | IndexOutOfRange

  class Graph<V, E(!new)> {
    var vertices: seq<V>
    var edges: seq<Edge<E>>

    constructor (vertices: seq<V>, edges: seq<Edge<E>>)
      ensures this.vertices == vertices && this.edges == edges
    {
      this.vertices, this.edges := vertices, edges;
    }

    method AddVertex(vertex: V)
      modifies `vertices
      ensures vertices == old(vertices) + [vertex]
    {
      vertices := vertices + [vertex];
    }

    /** Stands for the library's in-place sort: any order that the comparison allows. */
    method SortEdges(compare: (E, E) -> int)
      requires TotalPreorder(compare)
      modifies `edges
      ensures multiset(edges) == multiset(old(edges)) && Sorted(compare, edges)
    {
      var unsorted, sorted: seq<Edge<E>> := edges, [];
      for k := 0 to |unsorted|
        invariant multiset(sorted) == multiset(unsorted[..k])
        invariant Sorted(compare, sorted)
      {
        assert unsorted[..k + 1] == unsorted[..k] + [unsorted[k]];
        sorted := InsertSorted(compare, sorted, unsorted[k]);
      }
      assert unsorted[..|unsorted|] == unsorted;
      edges := sorted;
    }

    /** Filters the edges, in their present order, by whether Union merges the sets of their ends. */
    method JoiningEdges() returns (joining: Result<seq<Edge<E>>, Exception>)
      ensures joining.Success? <==> vertices != [] && EdgesInRange(|vertices| - 1, edges)
      ensures joining.Success? ==> joining.value == Kept(|vertices| - 1, edges)
      ensures joining.Failure? ==> joining.error == if vertices == [] then ArgumentOutOfRange else IndexOutOfRange
    {
      if vertices == [] {
        return Failure(ArgumentOutOfRange);
      }
      var groups := new UnionFind(|vertices|);
      var all, n := edges, groups.parents.Length;
      var kept: seq<Edge<E>> := [];
      for i := 0 to |all|
        invariant groups.Valid() && fresh(groups) && fresh(groups.parents) && fresh(groups.ranks)
        invariant n == groups.parents.Length
        invariant EdgesInRange(n, all[..i])
        invariant groups.united == Ends(n, all[..i])
        invariant kept == Kept(n, all[..i])
      {
        var edge := all[i];
        if !(0 <= edge.from < n && 0 <= edge.to < n) {
          assert edge in all;
          return Failure(IndexOutOfRange);
        }
        OneMoreEdge(n, all, i);
        var merged := groups.Union(edge.from, edge.to);
        if merged {
          kept := kept + [edge];
        }
      }
      assert all[..|all|] == all;
      return Success(kept);
    }

    /**
      The edges are left sorted.  The union-find structure has one item less
      than there are vertices, so the call succeeds exactly when there is a
      vertex and no edge touches the last one.
     */
    method MinSpanTree(compare: (E, E) -> int) returns (tree: Result<seq<Edge<E>>, Exception>)
      requires TotalPreorder(compare)
      modifies `edges
      ensures multiset(edges) == multiset(old(edges)) && Sorted(compare, edges)
      ensures tree.Success? <==> vertices != [] && EdgesInRange(|vertices| - 1, old(edges))
      ensures tree.Success? ==>
                && multiset(tree.value) <= multiset(old(edges))
                && Sorted(compare, tree.value)
                && MinimumSpanningForest(compare, |vertices|, tree.value, old(edges))
      ensures tree.Failure? ==> tree.error == if vertices == [] then ArgumentOutOfRange else IndexOutOfRange
    {
      SortEdges(compare);
      SameElements(edges, old(edges));
      tree := JoiningEdges();
      if tree.Success? {
        ghost var n := |vertices| - 1;
        KeptIsMinimal(compare, n, edges);
        MinimumIgnoresOrder(compare, n, tree.value, edges, old(edges));
        MinimumIgnoresIsolated(compare, n, |vertices|, tree.value, old(edges));
        KeptIsSorted(compare, n, edges);
      }
    }
  }

  lemma OneMoreEdge<E>(n: nat, edges: seq<Edge<E>>, i: nat)
    requires i < |edges| && EdgesInRange(n, edges[..i])
    requires 0 <= edges[i].from < n && 0 <= edges[i].to < n
    ensures EdgesInRange(n, edges[..i + 1])
    ensures Ends(n, edges[..i + 1]) == Ends(n, edges[..i]) + [(edges[i].from as nat, edges[i].to as nat)]
    ensures Kept(n, edges[..i + 1]) ==
            Kept(n, edges[..i]) + if Connected(Ends(n, edges[..i]), edges[i].from, edges[i].to) then [] else [edges[i]]
  {
    assert edges[..i + 1] == edges[..i] + [edges[i]];
    assert edges[..i + 1][..i] == edges[..i];
  }

  lemma {:induction false} KeptIsSorted<E>(compare: (E, E) -> int, n: nat, edges: seq<Edge<E>>)
    requires EdgesInRange(n, edges) && Sorted(compare, edges)
    ensures Sorted(compare, Kept(n, edges))
  {
    if edges != [] {
      var prev, last := edges[..|edges| - 1], edges[|edges| - 1];
      KeptIsSorted(compare, n, prev);
      KeptAreEdges(n, prev);
      forall i | 0 <= i < |Kept(n, prev)| ensures compare(Kept(n, prev)[i].attribute, last.attribute) <= 0 {
        assert Kept(n, prev)[i] in prev;
      }
    }
  }

  // ---------- The vertex that has no set ----------

  lemma {:induction false} OutOfRangeIsIsolated(n: nat, pairs: seq<Pair>, a: nat, b: nat)
    requires InRange(n, pairs) && a >= n
    ensures Connected(pairs, a, b) <==> a == b
    ensures Connected(pairs, b, a) <==> a == b
  {
    if pairs != [] {
      var prev, last := pairs[..|pairs| - 1], pairs[|pairs| - 1];
      assert last in pairs;
      OutOfRangeIsIsolated(n, prev, a, b);
      OutOfRangeIsIsolated(n, prev, a, last.0);
      OutOfRangeIsIsolated(n, prev, a, last.1);
    }
  }

  lemma {:induction false} EndsIgnoreBound<E>(m: nat, n: nat, edges: seq<Edge<E>>)
    requires m <= n && EdgesInRange(m, edges)
    ensures EdgesInRange(n, edges) && Ends(n, edges) == Ends(m, edges)
  {
    if edges != [] {
      EndsIgnoreBound(m, n, edges[..|edges| - 1]);
    }
  }

  lemma AcyclicIgnoresBound<E>(m: nat, n: nat, edges: seq<Edge<E>>)
    requires m <= n && EdgesInRange(m, edges)
    ensures EdgesInRange(n, edges) && (Acyclic(n, edges) <==> Acyclic(m, edges))
  {
    EndsIgnoreBound(m, n, edges);
    forall i | 0 <= i < |edges| ensures IsBridge(n, edges, i) <==> IsBridge(m, edges, i) {
      EndsIgnoreBound(m, n, Without(edges, i));
    }
  }

  lemma ConnectionsIgnoreIsolated(m: nat, n: nat, some: seq<Pair>, others: seq<Pair>)
    requires m <= n && InRange(m, some) && InRange(m, others)
    ensures SameConnections(n, some, others) <==> SameConnections(m, some, others)
  {
    forall a: nat, b: nat | a >= m || b >= m ensures Connected(some, a, b) <==> Connected(others, a, b) {
      var outside, other := if a >= m then a else b, if a >= m then b else a;
      OutOfRangeIsIsolated(m, some, outside, other);
      OutOfRangeIsIsolated(m, others, outside, other);
    }
  }

  /** As long as no edge touches the vertices from m on, it does not matter whether they are counted. */
  lemma SpanningIgnoresIsolated<E>(m: nat, n: nat, forest: seq<Edge<E>>, edges: seq<Edge<E>>)
    requires m <= n && EdgesInRange(m, edges)
    ensures EdgesInRange(n, edges)
    ensures SpanningForest(n, forest, edges) <==> SpanningForest(m, forest, edges)
  {
    EndsIgnoreBound(m, n, edges);
    if forall e :: e in forest ==> e in edges {
      EndsIgnoreBound(m, n, forest);
      AcyclicIgnoresBound(m, n, forest);
      ConnectionsIgnoreIsolated(m, n, Ends(m, forest), Ends(m, edges));
    }
  }

  lemma MinimumIgnoresIsolated<E(!new)>(compare: (E, E) -> int, m: nat, n: nat, forest: seq<Edge<E>>, edges: seq<Edge<E>>)
    requires m <= n && EdgesInRange(m, edges) && MinimumSpanningForest(compare, m, forest, edges)
    ensures EdgesInRange(n, edges) && MinimumSpanningForest(compare, n, forest, edges)
  {
    SpanningIgnoresIsolated(m, n, forest, edges);
    forall other: seq<Edge<E>> ensures SpanningForest(n, other, edges) <==> SpanningForest(m, other, edges) {
      SpanningIgnoresIsolated(m, n, other, edges);
    }
  }

  /** A single edge is its own spanning tree, but touches the last vertex. */
  lemma LastVertexIsOutOfReach<E(!new)>(compare: (E, E) -> int, attribute: E)
    ensures var edges := [Edge(0, 1, attribute)];
            EdgesInRange(2, edges) && SpanningForest(2, edges, edges) && !EdgesInRange(2 - 1, edges)
  {
    var edges := [Edge(0, 1, attribute)];
    assert edges[0] in edges;
    assert edges[..0] == [];
    KeptIsSpanningForest(2, edges);
    assert Kept(2, edges) == edges;
  }
}
