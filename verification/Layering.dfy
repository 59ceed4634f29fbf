/** Dependency layers and the parallelisation cost gate of the orchestrator. */
module Layering {
  import opened Ordering
  import opened PlanGraph
  import opened PlanEngine

  // ------------------------------------------------------- longest chains

  ghost predicate ChainFrom(g: Deps, n: Id, w: seq<Id>) {
    IsWalk(g, w) && w[0] == n
  }

  /** The longest dependency chain that starts at `n` has `k` steps. */
  ghost predicate LongestChain(g: Deps, n: Id, k: nat) {
    && (exists w :: ChainFrom(g, n, w) && |w| == k + 1)
    && (forall w :: ChainFrom(g, n, w) ==> |w| <= k + 1)
  }

  lemma {:induction false} LongestBelow(g: Deps, n: Id, bound: nat) returns (k: nat)
    requires n in g && forall w :: ChainFrom(g, n, w) ==> |w| <= bound + 1
    ensures LongestChain(g, n, k)
  {
    assert ChainFrom(g, n, [n]) && |[n]| == 1;
    if bound == 0 || exists w :: ChainFrom(g, n, w) && |w| == bound + 1 {
      k := bound;
    } else {
      k := LongestBelow(g, n, bound - 1);
    }
  }

  lemma LongestExists(g: Deps, n: Id)
    requires Closed(g) && Acyclic(g) && n in g
    ensures exists k :: LongestChain(g, n, k)
  {
    AcyclicIffListing(g);
    var o :| FullListing(g, o);
    forall w | ChainFrom(g, n, w)
      ensures |w| <= |o| + 1
    {
      var i :| 0 <= i < |o| && o[i] == n;
      var k := WalkMovesBack(g, o, w, i);
    }
    var k := LongestBelow(g, n, |o|);
  }

  ghost function Depth(g: Deps, n: Id): (k: nat)
    requires Closed(g) && Acyclic(g) && n in g
    ensures LongestChain(g, n, k)
  {
    LongestExists(g, n);
    var k: nat :| LongestChain(g, n, k);
    k
  }

  lemma ConsChain(g: Deps, n: Id, d: Id, w: seq<Id>)
    requires n in g && d in g[n] && ChainFrom(g, d, w)
    ensures ChainFrom(g, n, [n] + w)
  {
    var v := [n] + w;
    forall i | 0 <= i < |v| - 1
      ensures v[i + 1] in g[v[i]]
    {
      if i > 0 {
        assert w[(i - 1) + 1] in g[w[i - 1]];
      }
    }
  }

  lemma TailChain(g: Deps, n: Id, w: seq<Id>)
    requires ChainFrom(g, n, w) && |w| > 1
    ensures w[1] in g[n] && ChainFrom(g, w[1], w[1..])
  {
    assert w[0 + 1] in g[w[0]];
    var v := w[1..];
    forall i | 0 <= i < |v| - 1
      ensures v[i + 1] in g[v[i]]
    {
      assert w[(i + 1) + 1] in g[w[i + 1]];
    }
  }

  /** Dependencies lie strictly above. */
  lemma DependencyIsShallower(g: Deps, n: Id, d: Id)
    requires Closed(g) && Acyclic(g) && n in g && d in g[n]
    ensures Depth(g, d) < Depth(g, n)
  {
    assert LongestChain(g, d, Depth(g, d));
    var w :| ChainFrom(g, d, w) && |w| == Depth(g, d) + 1;
    ConsChain(g, n, d, w);
  }

  /** The recurrence that the layering loop computes with. */
  lemma DepthOfRoot(g: Deps, n: Id)
    requires Closed(g) && Acyclic(g) && n in g && g[n] == {}
    ensures Depth(g, n) == 0
  {
    assert LongestChain(g, n, Depth(g, n));
    var w :| ChainFrom(g, n, w) && |w| == Depth(g, n) + 1;
    if |w| > 1 {
      TailChain(g, n, w);
      assert false;
    }
  }

  lemma DepthOfDependent(g: Deps, n: Id, deepest: Id)
    requires Closed(g) && Acyclic(g) && n in g && deepest in g[n]
    requires forall d :: d in g[n] ==> Depth(g, d) <= Depth(g, deepest)
    ensures Depth(g, n) == 1 + Depth(g, deepest)
  {
    DependencyIsShallower(g, n, deepest);
    assert LongestChain(g, n, Depth(g, n));
    var w :| ChainFrom(g, n, w) && |w| == Depth(g, n) + 1;
    TailChain(g, n, w);
    assert |w[1..]| <= Depth(g, w[1]) + 1;
  }

  // ------------------------------------------------------- layers

  ghost predicate AtDepth(g: Deps, n: Id, l: nat)
    requires Closed(g) && Acyclic(g)
  {
    n in g && Depth(g, n) == l
  }

  /** Layer `l` lists, in topological order, the tasks whose longest chain has `l` steps. */
  ghost function LayerAt(g: Deps, order: seq<Id>, l: nat): seq<Id>
    requires Closed(g) && Acyclic(g)
  {
    Filter(n => AtDepth(g, n, l), order)
  }

  ghost predicate LayersOf(g: Deps, order: seq<Id>, layers: seq<seq<Id>>) {
    && ValidGraph(g) && LeastListing(g, order)
    && (forall l :: 0 <= l < |layers| ==> layers[l] == LayerAt(g, order, l) && layers[l] != [])
    && (forall n :: n in g ==> Depth(g, n) < |layers|)
  }

  function Flatten<T>(ss: seq<seq<T>>): seq<T> {
    if ss == [] then [] else Flatten(ss[..|ss| - 1]) + ss[|ss| - 1]
  }

  lemma {:induction false} FlattenCount(g: Deps, order: seq<Id>, layers: seq<seq<Id>>, x: Id)
    requires Closed(g) && Acyclic(g) && x in g
    requires forall l :: 0 <= l < |layers| ==> layers[l] == LayerAt(g, order, l)
    ensures multiset(Flatten(layers))[x] == if Depth(g, x) < |layers| then multiset(order)[x] else 0
  {
    if layers != [] {
      var k := |layers| - 1;
      FlattenCount(g, order, layers[..k], x);
      FilterMultiset(n => AtDepth(g, n, k), order, x);
    }
  }

  lemma {:induction false} FlattenMembers(g: Deps, order: seq<Id>, layers: seq<seq<Id>>, x: Id)
    requires Closed(g) && Acyclic(g) && x in Flatten(layers)
    requires forall l :: 0 <= l < |layers| ==> layers[l] == LayerAt(g, order, l)
    ensures x in g && x in order
  {
    var k := |layers| - 1;
    if x !in layers[k] {
      FlattenMembers(g, order, layers[..k], x);
    }
  }

  /** The layers partition the nodes: every node is in exactly one layer, once. */
  lemma LayersPartition(g: Deps, order: seq<Id>, layers: seq<seq<Id>>)
    requires LayersOf(g, order, layers)
    ensures multiset(Flatten(layers)) == multiset(order)
    ensures |Flatten(layers)| == |g|
    ensures Distinct(Flatten(layers)) && forall n :: n in Flatten(layers) <==> n in g
  {
    var flat := Flatten(layers);
    ListedAreNodes(g, order);
    forall x
      ensures multiset(flat)[x] == multiset(order)[x]
    {
      if x in g {
        FlattenCount(g, order, layers, x);
      } else {
        if x in flat {
          FlattenMembers(g, order, layers, x);
        }
        assert x !in flat && x !in order;
      }
    }
    ListingDistinct(g, order);
    DistinctByMultiset(order, flat);
    SameMultisetSameElements(flat, order);
    FullListingLength(g, order);
  }

  /** No assignment of nodes to layers with dependencies strictly earlier uses fewer layers. */
  lemma FewestLayers(g: Deps, order: seq<Id>, layers: seq<seq<Id>>, other: map<Id, nat>, count: nat)
    requires LayersOf(g, order, layers)
    requires other.Keys == g.Keys && forall n :: n in g ==> other[n] < count
    requires forall n, d :: n in g && d in g[n] ==> other[d] < other[n]
    ensures |layers| <= count
  {
    if layers != [] {
      var k := |layers| - 1;
      var n := layers[k][0];
      assert n in layers[k] && AtDepth(g, n, k);
      var w :| ChainFrom(g, n, w) && |w| == k + 1;
      ChainClimbs(g, other, w);
    }
  }

  lemma {:induction false} ChainClimbs(g: Deps, other: map<Id, nat>, w: seq<Id>)
    requires Closed(g) && IsWalk(g, w) && other.Keys == g.Keys
    requires forall n, d :: n in g && d in g[n] ==> other[d] < other[n]
    ensures other[w[0]] >= |w| - 1
  {
    if |w| > 1 {
      TailChain(g, w[0], w);
      ChainClimbs(g, other, w[1..]);
    }
  }

  /** The `while len(layers) <= layer_index` loop followed by the append. */
  method Place(start: seq<seq<Id>>, index: nat, n: Id) returns (layers: seq<seq<Id>>)
    requires index <= |start|
    ensures layers == if index < |start| then start[index := start[index] + [n]] else start + [[n]]
  {
    layers := start;
    while |layers| <= index
      invariant layers == start || (|start| == index && layers == start + [[]])
      decreases index + 1 - |layers|
    {
      layers := layers + [[]];
    }
    ghost var grown := layers;
    layers := layers[index := layers[index] + [n]];
    if index == |start| {
      assert grown[index] == [] && grown[index] + [n] == [n];
      assert layers == start + [[n]];
    }
  }

  method Deepest(placed: map<Id, nat>, dependencies: set<Id>) returns (deepest: Id)
    requires dependencies != {} && dependencies <= placed.Keys
    ensures deepest in dependencies && forall d :: d in dependencies ==> placed[d] <= placed[deepest]
  {
    var rest := dependencies;
    deepest :| deepest in rest;
    while rest != {}
      invariant deepest in dependencies && rest <= dependencies
      invariant forall d :: d in dependencies - rest ==> placed[d] <= placed[deepest]
    {
      var d :| d in rest;
      if placed[d] > placed[deepest] {
        deepest := d;
      }
      rest := rest - {d};
    }
  }

  ghost predicate PlacedSoFar(g: Deps, order: seq<Id>, i: nat, placed: map<Id, nat>, count: nat) {
    && i <= |order| && Closed(g) && Acyclic(g)
    && (forall n :: n in placed <==> n in order[..i])
    && (forall n :: n in placed ==> n in g && placed[n] == Depth(g, n) < count)
  }

  /** The layers of the first `i` tasks of the order. */
  ghost predicate LayersSoFar(g: Deps, order: seq<Id>, i: nat, layers: seq<seq<Id>>) {
    && i <= |order| && Closed(g) && Acyclic(g)
    && (forall l :: 0 <= l < |layers| ==> layers[l] == LayerAt(g, order[..i], l) && layers[l] != [])
    && (forall n :: n in order[..i] && n in g ==> Depth(g, n) < |layers|)
  }

  lemma LayerGrows(g: Deps, order: seq<Id>, i: nat, l: nat)
    requires Closed(g) && Acyclic(g) && i < |order|
    ensures LayerAt(g, order[..i + 1], l) ==
      LayerAt(g, order[..i], l) + if AtDepth(g, order[i], l) then [order[i]] else []
  {
    var n := order[i];
    var keep := (m: Id) => AtDepth(g, m, l);
    assert order[..i + 1] == order[..i] + [n];
    FilterAppend(keep, order[..i], [n]);
    assert [n][1..] == [];
    assert Filter(keep, [n]) == if keep(n) then [n] else [];
  }

  lemma PlacedNext(g: Deps, order: seq<Id>, i: nat, placed: map<Id, nat>, count: nat)
    requires PlacedSoFar(g, order, i, placed, count) && i < |order| && order[i] in g
    ensures PlacedSoFar(g, order, i + 1, placed[order[i] := Depth(g, order[i])],
      if Depth(g, order[i]) < count then count else Depth(g, order[i]) + 1)
  {
    assert order[..i + 1] == order[..i] + [order[i]];
  }

  lemma LayersNext(g: Deps, order: seq<Id>, i: nat, layers: seq<seq<Id>>, index: nat)
    requires LayersSoFar(g, order, i, layers) && i < |order|
    requires order[i] in g && index == Depth(g, order[i]) <= |layers|
    ensures LayersSoFar(g, order, i + 1,
      if index < |layers| then layers[index := layers[index] + [order[i]]] else layers + [[order[i]]])
  {
    var n := order[i];
    var next := if index < |layers| then layers[index := layers[index] + [n]] else layers + [[n]];
    assert order[..i + 1] == order[..i] + [n];
    forall l | 0 <= l < |next|
      ensures next[l] == LayerAt(g, order[..i + 1], l) && next[l] != []
    {
      LayerGrows(g, order, i, l);
      if l == |layers| {
        LayerBeyondIsEmpty(g, order, i, layers);
      }
    }
  }

  lemma LayerBeyondIsEmpty(g: Deps, order: seq<Id>, i: nat, layers: seq<seq<Id>>)
    requires LayersSoFar(g, order, i, layers)
    ensures LayerAt(g, order[..i], |layers|) == []
  {
    var beyond := LayerAt(g, order[..i], |layers|);
    HeadIsMember(beyond);
  }

  lemma DependenciesPlaced(g: Deps, order: seq<Id>, i: nat, placed: map<Id, nat>, count: nat)
    requires Listing(g, order) && PlacedSoFar(g, order, i, placed, count) && i < |order|
    ensures order[i] in g && g[order[i]] <= placed.Keys
  {
    assert Ready(g, order[..i], order[i]);
  }

  /** The loop state after the first `i` tasks of the order. */
  ghost predicate LayeredSoFar(g: Deps, order: seq<Id>, i: nat, placed: map<Id, nat>, layers: seq<seq<Id>>) {
    && ValidGraph(g) && LeastListing(g, order)
    && PlacedSoFar(g, order, i, placed, |layers|) && LayersSoFar(g, order, i, layers)
  }

  lemma LayeredStarts(g: Deps, order: seq<Id>)
    requires ValidGraph(g) && LeastListing(g, order)
    ensures LayeredSoFar(g, order, 0, map[], [])
  {
  }

  lemma LayeredNext(g: Deps, order: seq<Id>, i: nat, placed: map<Id, nat>, layers: seq<seq<Id>>, index: nat)
    requires LayeredSoFar(g, order, i, placed, layers) && i < |order|
    requires order[i] in g && index == Depth(g, order[i]) <= |layers|
    ensures LayeredSoFar(g, order, i + 1, placed[order[i] := index],
      if index < |layers| then layers[index := layers[index] + [order[i]]] else layers + [[order[i]]])
  {
    PlacedNext(g, order, i, placed, |layers|);
    LayersNext(g, order, i, layers, index);
  }

  lemma LayeredEnds(g: Deps, order: seq<Id>, placed: map<Id, nat>, layers: seq<seq<Id>>)
    requires LayeredSoFar(g, order, |order|, placed, layers)
    ensures LayersOf(g, order, layers)
  {
    assert order[..|order|] == order;
  }

  /** The `max` over the dependencies, plus one; 0 for a task without any. */
  method LayerIndex(g: Deps, n: Id, placed: map<Id, nat>) returns (index: nat)
    requires Closed(g) && Acyclic(g) && n in g && g[n] <= placed.Keys
    requires forall d :: d in g[n] ==> placed[d] == Depth(g, d)
    ensures index == Depth(g, n)
    ensures index == 0 || exists d :: d in g[n] && index == 1 + placed[d]
  {
    if g[n] == {} {
      DepthOfRoot(g, n);
      return 0;
    }
    var deepest := Deepest(placed, g[n]);
    DepthOfDependent(g, n, deepest);
    index := 1 + placed[deepest];
  }

  /** `_dependency_layers`. */
  method DependencyLayers(p: Plan) returns (r: Result<seq<seq<Id>>, PlanError>, ghost order: seq<Id>)
    requires p.WellFormed()
    ensures r.Success? <==> ValidGraph(p.deps)
    ensures r.Success? ==> LayersOf(p.deps, order, r.value)
  {
    var topological := TopologicalOrder(p);
    if topological.Failure? {
      order := [];
      return Failure(topological.error), order;
    }
    order := topological.value;
    var placed: map<Id, nat> := map[];
    var layers: seq<seq<Id>> := [];
    LayeredStarts(p.deps, order);
    for i := 0 to |topological.value|
      invariant LayeredSoFar(p.deps, topological.value, i, placed, layers)
    {
      var n := topological.value[i];
      DependenciesPlaced(p.deps, topological.value, i, placed, |layers|);
      var index := LayerIndex(p.deps, n, placed);
      LayeredNext(p.deps, topological.value, i, placed, layers, index);
      layers := Place(layers, index, n);
      placed := placed[n := index];
    }
    LayeredEnds(p.deps, order, placed, layers);
    r := Success(layers);
  }

  // ------------------------------------------------------- the cost gate

  const PARALLEL_OVERHEAD_PER_AGENT: real := 1.0
  const PARALLEL_MAX_BENEFIT_RATIO: real := 10.0

  datatype Estimate = Estimate(overhead: real, benefit: int, ratio: real)

  datatype GateReason = NoLayers | NoFanOut | RatioTooHigh | BenefitDominates

  datatype GateDecision = GateDecision(allowed: bool, estimate: Estimate, reason: GateReason)

  function SumOverhead(sizes: seq<int>): real {
    if sizes == [] then 0.0
    else SumOverhead(sizes[..|sizes| - 1]) + PARALLEL_OVERHEAD_PER_AGENT * (sizes[|sizes| - 1] as real)
  }

  function SumBenefit(sizes: seq<int>): int {
    if sizes == [] then 0
    else SumBenefit(sizes[..|sizes| - 1]) + (if sizes[|sizes| - 1] - 1 > 0 then sizes[|sizes| - 1] - 1 else 0)
  }

  function EstimateParallelCost(sizes: seq<int>): Estimate {
    var overhead, benefit := SumOverhead(sizes), SumBenefit(sizes);
    Estimate(overhead, benefit,
      if benefit != 0 then overhead / (benefit as real)
      else if overhead != 0.0 then 1000000000.0 else 0.0)
  }

  /** `ParallelizationCostGate.evaluate`. */
  function EvaluateGate(sizes: seq<int>): GateDecision {
    var estimate := EstimateParallelCost(sizes);
    if sizes == [] then
      GateDecision(true, Estimate(0.0, 0, 0.0), NoLayers)
    else if forall n :: n in sizes ==> n <= 1 then
      GateDecision(false, estimate, NoFanOut)
    else if estimate.ratio > PARALLEL_MAX_BENEFIT_RATIO then
      GateDecision(false, estimate, RatioTooHigh)
    else
      GateDecision(true, estimate, BenefitDominates)
  }

  function Sizes(layers: seq<seq<Id>>): seq<int> {
    if layers == [] then [] else Sizes(layers[..|layers| - 1]) + [|layers[|layers| - 1]|]
  }

  lemma {:induction false} SizesAdd(layers: seq<seq<Id>>)
    requires forall l :: 0 <= l < |layers| ==> layers[l] != []
    ensures SumOverhead(Sizes(layers)) == |Flatten(layers)| as real
    ensures SumBenefit(Sizes(layers)) == |Flatten(layers)| - |layers|
    ensures |Sizes(layers)| == |layers|
    ensures forall n :: n in Sizes(layers) ==> n >= 1
  {
    if layers != [] {
      var init, last := layers[..|layers| - 1], layers[|layers| - 1];
      SizesAdd(init);
      assert Sizes(layers)[..|layers| - 1] == Sizes(init);
    }
  }

  lemma {:induction false} NoFanOutMeansNoBenefit(sizes: seq<int>)
    ensures SumBenefit(sizes) >= 0
    ensures SumBenefit(sizes) == 0 <==> forall n :: n in sizes ==> n <= 1
  {
    if sizes != [] {
      var init, last := sizes[..|sizes| - 1], sizes[|sizes| - 1];
      NoFanOutMeansNoBenefit(init);
      assert sizes == init + [last];
      assert forall n :: n in init ==> n in sizes;
      assert last in sizes;
      assert (forall n :: n in sizes ==> n <= 1) <==> (forall n :: n in init ==> n <= 1) && last <= 1;
    }
  }

  /** For non-empty layers the gate compares ten times the layers with nine times the nodes. */
  lemma GateOnLayers(layers: seq<seq<Id>>)
    requires layers != [] && forall l :: 0 <= l < |layers| ==> layers[l] != []
    ensures EvaluateGate(Sizes(layers)).allowed <==> 10 * |layers| <= 9 * |Flatten(layers)|
  {
    SizesAdd(layers);
    var sizes := Sizes(layers);
    NoFanOutMeansNoBenefit(sizes);
    var nodes, benefit := |Flatten(layers)|, SumBenefit(sizes);
    if benefit > 0 {
      RatioBound(nodes, benefit);
    }
  }

  /** The decision on a plan with this many nodes and layers, with its numbers and its reason. */
  predicate Decides(d: GateDecision, nodes: int, layers: int) {
    && d.estimate.overhead == nodes as real && d.estimate.benefit == nodes - layers
    && (nodes > layers ==> d.estimate.ratio == (nodes as real) / ((nodes - layers) as real))
    && (nodes == layers ==> d.estimate.ratio == 1000000000.0)
    && (d.reason == NoFanOut <==> nodes == layers)
    && (d.reason == RatioTooHigh <==> nodes > layers && 10 * layers > 9 * nodes)
    && (d.reason == BenefitDominates <==> 10 * layers <= 9 * nodes)
    && (d.allowed <==> 10 * layers <= 9 * nodes)
  }

  /** What the gate decides, why, and by which numbers. */
  lemma GateTells(layers: seq<seq<Id>>)
    requires layers != [] && forall l :: 0 <= l < |layers| ==> layers[l] != []
    ensures |Flatten(layers)| >= |layers| && Decides(EvaluateGate(Sizes(layers)), |Flatten(layers)|, |layers|)
    ensures EvaluateGate([]) == GateDecision(true, Estimate(0.0, 0, 0.0), NoLayers)
  {
    SizesAdd(layers);
    var sizes := Sizes(layers);
    NoFanOutMeansNoBenefit(sizes);
    var nodes, benefit := |Flatten(layers)|, SumBenefit(sizes);
    if benefit > 0 {
      RatioBound(nodes, benefit);
      assert EstimateParallelCost(sizes).ratio == (nodes as real) / (benefit as real);
    }
  }

  lemma RatioBound(nodes: int, benefit: int)
    requires benefit > 0
    ensures (nodes as real) / (benefit as real) > 10.0 <==> nodes > 10 * benefit
  {
    var q := (nodes as real) / (benefit as real);
    assert q * (benefit as real) == nodes as real;
    assert 10.0 * (benefit as real) == (10 * benefit) as real;
    ScaleBoth(q, 10.0, benefit as real);
  }

  lemma ScaleBoth(x: real, y: real, scale: real)
    requires scale > 0.0
    ensures x > y <==> x * scale > y * scale
  {
    assert (x - y) * scale == x * scale - y * scale;
    if x > y {
      assert (x - y) * scale > 0.0;
    } else {
      assert (y - x) * scale >= 0.0;
    }
  }

  /** The number of layers is one more than the longest chain of the whole plan. */
  ghost predicate Height(g: Deps, height: nat) {
    && (exists w :: IsWalk(g, w) && |w| == height)
    && (forall w :: IsWalk(g, w) ==> |w| <= height)
  }

  lemma LayersAreHeight(g: Deps, order: seq<Id>, layers: seq<seq<Id>>)
    requires LayersOf(g, order, layers)
    ensures layers != [] && Height(g, |layers|)
  {
    var some :| some in g;
    assert Depth(g, some) < |layers|;
    var k := |layers| - 1;
    var n := layers[k][0];
    assert n in layers[k] && AtDepth(g, n, k);
    var v :| ChainFrom(g, n, v) && |v| == k + 1;
    forall w | IsWalk(g, w)
      ensures |w| <= |layers|
    {
      assert ChainFrom(g, w[0], w);
      assert w[0] in g;
      assert |w| <= Depth(g, w[0]) + 1;
    }
  }

  /** The gate on a plan: `n` nodes whose longest chain has `h` nodes run in parallel iff 10h <= 9n. */
  lemma GateOnPlan(g: Deps, order: seq<Id>, layers: seq<seq<Id>>, height: nat)
    requires LayersOf(g, order, layers) && Height(g, height)
    ensures |layers| == height
    ensures EvaluateGate(Sizes(layers)).allowed <==> 10 * height <= 9 * |g|
  {
    LayersAreHeight(g, order, layers);
    var v :| IsWalk(g, v) && |v| == height;
    var w :| IsWalk(g, w) && |w| == |layers|;
    LayersPartition(g, order, layers);
    GateOnLayers(layers);
  }
}
