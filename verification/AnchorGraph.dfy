/** The reduced graph given to the pose-graph solver, and how its answer is spread over every frozen keyframe. */
module AnchorGraph {
  import opened RigidMotion
  import opened MapEntities
  import opened Ordering
  import opened LoopGraph
  import opened RealSums
  import opened Sampling

  // ---- building -----------------------------------------------------------

  datatype Graph = Graph(full: seq<State>, indices: seq<nat>, anchors: seq<State>, fixed: seq<nat>,
                         constraints: seq<Edge>)

  ghost predicate DistinctKeyframes(full: seq<State>) {
    forall i, j :: 0 <= i < j < |full| ==> full[i].id != full[j].id
  }

  lemma FoundAt(full: seq<State>, i: nat)
    requires DistinctKeyframes(full) && i < |full|
    ensures IndexOf(full, full[i].id) == Some(i)
  {
    hide IndexOf;
  }

  /** A frozen odometry edge lying between positions lo and hi. */
  predicate Between(full: seq<State>, e: Edge, lo: nat, hi: nat) {
    !e.isLoop && IndexOf(full, e.a).Some? && IndexOf(full, e.b).Some?
    && lo <= IndexOf(full, e.a).value && IndexOf(full, e.b).value <= hi
  }

  /** The weights of the first n edges that lie between lo and hi, by their position. */
  ghost function Weights(full: seq<State>, constraints: seq<Edge>, n: nat, lo: nat, hi: nat): Table
    requires n <= |constraints|
  {
    map i: nat | i < n && Between(full, constraints[i], lo, hi) :: constraints[i].weight
  }

  /** Their mean, and 1 where no edge was frozen. */
  ghost function MeanWeight(full: seq<State>, constraints: seq<Edge>, lo: nat, hi: nat): real {
    var weights := Weights(full, constraints, |constraints|, lo, hi);
    if weights == map[] then 1.0 else (assert |weights| > 0; Total(weights) / |weights| as real)
  }

  lemma OneEdgeMore(full: seq<State>, constraints: seq<Edge>, n: nat, lo: nat, hi: nat)
    requires n < |constraints|
    ensures var now, next := Weights(full, constraints, n, lo, hi), Weights(full, constraints, n + 1, lo, hi);
            if Between(full, constraints[n], lo, hi)
            then Total(next) == Total(now) + constraints[n].weight && |next| == |now| + 1
            else next == now
  {
    hide Between, Total, Weights;
    var now := Weights(full, constraints, n, lo, hi);
    WeightsMore(full, constraints, n, lo, hi);
    if Between(full, constraints[n], lo, hi) {
      TotalAdds(now, n, constraints[n].weight);
      assert now[n := constraints[n].weight].Keys == now.Keys + {n};
    }
  }

  lemma WeightsMore(full: seq<State>, constraints: seq<Edge>, n: nat, lo: nat, hi: nat)
    requires n < |constraints|
    ensures n !in Weights(full, constraints, n, lo, hi)
    ensures Weights(full, constraints, n + 1, lo, hi)
         == if Between(full, constraints[n], lo, hi)
            then Weights(full, constraints, n, lo, hi)[n := constraints[n].weight]
            else Weights(full, constraints, n, lo, hi)
  {
    hide Between;
  }

  /** The mean weight of equally weighted edges is that weight. */
  lemma {:induction false} MeanOfEqual(full: seq<State>, constraints: seq<Edge>, lo: nat, hi: nat, w: real)
    requires forall i :: 0 <= i < |constraints| && Between(full, constraints[i], lo, hi) ==> constraints[i].weight == w
    ensures MeanWeight(full, constraints, lo, hi) == w
         || forall i :: 0 <= i < |constraints| ==> !Between(full, constraints[i], lo, hi)
  {
    hide Between;
    var weights := Weights(full, constraints, |constraints|, lo, hi);
    TotalOfEqual(weights, w);
    if weights == map[] {
      assert forall i: nat :: i < |constraints| && Between(full, constraints[i], lo, hi) ==> i in weights;
    } else {
      assert |weights| > 0;
      CancelFactor(|weights| as real, w);
    }
  }

  lemma {:induction false} TotalOfEqual(m: Table, w: real)
    requires forall k :: k in m ==> m[k] == w
    ensures Total(m) == |m| as real * w
    decreases |m|
  {
    if m != map[] {
      assert m.Keys != {};
      var k := Least(m.Keys);
      Smaller(m, k);
      TotalTakes(m, k);
      TotalOfEqual(m - {k}, w);
      OneFactorMore(|m|, w);
    }
  }

  lemma OneFactorMore(c: nat, w: real)
    ensures (c - 1) as real * w + w == c as real * w
  {
  }

  lemma CancelFactor(c: real, w: real)
    requires c > 0.0
    ensures (c * w) / c == w
  {
  }

  function Relative(a: State, b: State): SE3 {
    Compose(a.pose, Inverse(b.pose))
  }

  function AnchorIds(anchors: seq<State>): set<nat> {
    set s | s in anchors :: s.id
  }

  /** kept are the loop edges among the first n with both ends among ids, in order; at tells their positions. */
  ghost predicate KeepsLoops(kept: seq<Edge>, at: seq<nat>, constraints: seq<Edge>, n: nat, ids: set<nat>) {
    && Increasing(at) && |kept| == |at|
    && (forall i: nat :: i in at <==>
          i < n && i < |constraints| && constraints[i].isLoop && constraints[i].a in ids && constraints[i].b in ids)
    && (forall k :: 0 <= k < |at| ==> at[k] < |constraints| && kept[k] == constraints[at[k]])
  }

  lemma KeepOneMore(kept: seq<Edge>, at: seq<nat>, constraints: seq<Edge>, n: nat, ids: set<nat>)
    requires n < |constraints| && KeepsLoops(kept, at, constraints, n, ids)
    ensures var e := constraints[n];
            if e.isLoop && e.a in ids && e.b in ids then KeepsLoops(kept + [e], at + [n], constraints, n + 1, ids)
            else KeepsLoops(kept, at, constraints, n + 1, ids)
  {
    hide Increasing;
    assert forall k :: 0 <= k < |at| ==> at[k] in at;
    IncreasingAppend(at, n);
  }

  /**
   * Anchors are the selected keyframes, neighbours are tied by their frozen relative pose, then the loop edges between
   * anchors.
   */
  ghost predicate Reduces(g: Graph, constraints: seq<Edge>) {
    && Increasing(g.indices) && (forall x :: x in g.indices ==> x < |g.full|)
    && |g.anchors| == |g.indices| && (forall k :: 0 <= k < |g.anchors| ==> Picks(g, k))
    && |g.constraints| >= Ties(g)
    && (forall k :: 0 <= k < Ties(g) ==> TiesNeighbours(g, constraints, k))
    && exists at :: KeepsLoops(g.constraints[Ties(g)..], at, constraints, |constraints|, AnchorIds(g.anchors))
  }

  ghost predicate Picks(g: Graph, k: nat)
    requires k < |g.anchors| == |g.indices|
  {
    g.indices[k] < |g.full| && g.anchors[k] == g.full[g.indices[k]]
  }

  function Ties(g: Graph): nat {
    if g.anchors == [] then 0 else |g.anchors| - 1
  }

  ghost predicate TiesNeighbours(g: Graph, constraints: seq<Edge>, k: nat)
    requires k + 1 < |g.anchors| == |g.indices| && k < |g.constraints|
  {
    g.constraints[k] == Edge(g.anchors[k].id, g.anchors[k + 1].id, Relative(g.anchors[k], g.anchors[k + 1]),
                             MeanWeight(g.full, constraints, g.indices[k], g.indices[k + 1]), false)
  }

  method PickAnchors(full: seq<State>, indices: seq<nat>) returns (anchors: seq<State>)
    requires forall x :: x in indices ==> x < |full|
    ensures |anchors| == |indices| && forall k :: 0 <= k < |anchors| ==>
      indices[k] < |full| && anchors[k] == full[indices[k]]
  {
    anchors := [];
    for k := 0 to |indices|
      invariant |anchors| == k && forall j :: 0 <= j < k ==> indices[j] < |full| && anchors[j] == full[indices[j]]
    {
      assert indices[k] in indices;
      anchors := anchors + [full[indices[k]]];
    }
  }

  lemma NoEdges(full: seq<State>, constraints: seq<Edge>, lo: nat, hi: nat)
    ensures Weights(full, constraints, 0, lo, hi) == map[] && Total(map[]) == 0.0
  {
  }

  method TotalWeight(full: seq<State>, constraints: seq<Edge>, lo: nat, hi: nat) returns (sum: real, count: nat)
    ensures var weights := Weights(full, constraints, |constraints|, lo, hi);
            sum == Total(weights) && count == |weights|
  {
    hide IndexOf, Total;
    sum, count := 0.0, 0;
    NoEdges(full, constraints, lo, hi);
    for i := 0 to |constraints|
      invariant sum == Total(Weights(full, constraints, i, lo, hi)) && count == |Weights(full, constraints, i, lo, hi)|
    {
      OneEdgeMore(full, constraints, i, lo, hi);
      var e := constraints[i];
      if !e.isLoop {
        var a, b := IndexOf(full, e.a), IndexOf(full, e.b);
        if a.Some? && b.Some? && lo <= a.value && b.value <= hi {
          sum, count := sum + e.weight, count + 1;
        }
      }
    }
  }

  method TieNeighbours(full: seq<State>, constraints: seq<Edge>, indices: seq<nat>,
                       anchors: seq<State>) returns (ties: seq<Edge>)
    requires |anchors| == |indices|
    ensures |ties| == if anchors == [] then 0 else |anchors| - 1
    ensures forall k :: 0 <= k < |ties| ==>
      ties[k] == Edge(anchors[k].id, anchors[k + 1].id, Relative(anchors[k], anchors[k + 1]),
                      MeanWeight(full, constraints, indices[k], indices[k + 1]), false)
  {
    hide Relative, Weights, Total;
    ties := [];
    var i := 1;
    while i < |anchors|
      invariant 1 <= i && (anchors != [] ==> i <= |anchors| && |ties| == i - 1) && (anchors == [] ==> ties == [])
      invariant forall k :: 0 <= k < |ties| ==>
        ties[k] == Edge(anchors[k].id, anchors[k + 1].id, Relative(anchors[k], anchors[k + 1]),
                        MeanWeight(full, constraints, indices[k], indices[k + 1]), false)
    {
      var sum, count := TotalWeight(full, constraints, indices[i - 1], indices[i]);
      var weight := if count > 0 then sum / count as real else 1.0;
      ties := ties + [Edge(anchors[i - 1].id, anchors[i].id, Relative(anchors[i - 1], anchors[i]), weight, false)];
      i := i + 1;
    }
  }

  method KeepLoops(constraints: seq<Edge>, ids: set<nat>) returns (kept: seq<Edge>, ghost at: seq<nat>)
    ensures KeepsLoops(kept, at, constraints, |constraints|, ids)
  {
    hide KeepsLoops;
    kept, at := [], [];
    NoLoops(constraints, ids);
    for i := 0 to |constraints|
      invariant KeepsLoops(kept, at, constraints, i, ids)
    {
      KeepOneMore(kept, at, constraints, i, ids);
      var e := constraints[i];
      if e.isLoop && e.a in ids && e.b in ids {
        kept, at := kept + [e], at + [i];
      }
    }
  }

  lemma NoLoops(constraints: seq<Edge>, ids: set<nat>)
    ensures KeepsLoops([], [], constraints, 0, ids)
  {
  }

  method KeepFixed(fixed: seq<nat>, ids: set<nat>) returns (kept: seq<nat>)
    ensures forall id :: id in kept <==> id in fixed && id in ids
  {
    kept := [];
    for i := 0 to |fixed|
      invariant forall id :: id in kept <==> id in fixed[..i] && id in ids
    {
      if fixed[i] in ids {
        kept := kept + [fixed[i]];
      }
    }
    assert fixed[..|fixed|] == fixed;
  }

  lemma SelectionSpans(full: seq<State>, constraints: seq<Edge>, limit: nat, stride: nat, indices: seq<nat>,
                       ends: set<nat>, grid: seq<nat>)
    requires |full| >= 2 && GoodSelection(full, constraints, limit, stride, indices, ends, grid)
    ensures indices != [] && indices[0] == 0 && indices[|indices| - 1] + 1 == |full|
  {
    hide IndexOf, OnGrid, FixedEnd, IsNewest, EndsSelected, NewestFirst, EvenlySpread;
    var n := |full|;
    var i :| 0 <= i < |indices| && indices[i] == 0;
    var j :| 0 <= j < |indices| && indices[j] == n - 1;
    assert indices[|indices| - 1] in indices;
  }

  lemma AssembledReduces(g: Graph, constraints: seq<Edge>, ties: seq<Edge>, loops: seq<Edge>,
                         at: seq<nat>)
    requires Increasing(g.indices) && forall x :: x in g.indices ==> x < |g.full|
    requires |g.anchors| == |g.indices|
    requires forall k :: 0 <= k < |g.anchors| ==> g.indices[k] < |g.full| && g.anchors[k] == g.full[g.indices[k]]
    requires |ties| == Ties(g) && g.constraints == ties + loops
    requires forall k :: 0 <= k < |ties| ==>
      ties[k] == Edge(g.anchors[k].id, g.anchors[k + 1].id, Relative(g.anchors[k], g.anchors[k + 1]),
                      MeanWeight(g.full, constraints, g.indices[k], g.indices[k + 1]), false)
    requires KeepsLoops(loops, at, constraints, |constraints|, AnchorIds(g.anchors))
    ensures Reduces(g, constraints)
  {
    hide Increasing, Relative, MeanWeight, KeepsLoops;
    assert g.constraints[Ties(g)..] == loops;
  }

  method BuildAnchorGraph(full: seq<State>, constraints: seq<Edge>, fixed: seq<nat>, maxAnchors: nat,
                          preferredStride: nat)
    returns (g: Graph, ghost ends: set<nat>, ghost grid: seq<nat>)
    ensures g.full == full && Reduces(g, constraints)
    ensures full == [] ==> g.indices == []
    ensures full != [] ==> g.indices != [] && g.indices[0] == 0 && g.indices[|g.indices| - 1] + 1 == |full|
    ensures |full| >= 2 ==>
      GoodSelection(full, constraints, AtLeast(4, maxAnchors), AtLeast(1, preferredStride), g.indices, ends, grid)
    ensures forall id :: id in g.fixed <==> id in fixed && id in AnchorIds(g.anchors)
  {
    hide Increasing, GoodSelection, Reduces, Relative, MeanWeight, KeepsLoops;
    var indices, e, rest := SelectAnchorIndices(full, constraints, maxAnchors, preferredStride);
    ends, grid := e, rest;
    if |full| >= 2 {
      SelectionSpans(full, constraints, AtLeast(4, maxAnchors), AtLeast(1, preferredStride), indices, e, rest);
    }
    var anchors := PickAnchors(full, indices);
    var ids := AnchorIds(anchors);
    var fixedIds := KeepFixed(fixed, ids);
    var ties := TieNeighbours(full, constraints, indices, anchors);
    var loops, at := KeepLoops(constraints, ids);
    g := Graph(full, indices, anchors, fixedIds, ties + loops);
    AssembledReduces(g, constraints, ties, loops, at);
  }

  /** The newest loop edge with both ends in the snapshot is always given to the solver. */
  lemma {:induction false} NewestLoopIsKept(g: Graph, constraints: seq<Edge>, limit: nat, stride: nat,
                                            ends: set<nat>, grid: seq<nat>, i: nat)
    requires Reduces(g, constraints) && GoodSelection(g.full, constraints, limit, stride, g.indices, ends, grid)
    requires IsNewest(g.full, constraints, i)
    ensures constraints[i] in g.constraints[Ties(g)..]
  {
    hide Increasing, IndexOf, OnGrid, FixedEnd, TiesNeighbours, NewestFirst, EvenlySpread;
    var e := constraints[i];
    AnchorOf(g, IndexOf(g.full, e.a).value);
    AnchorOf(g, IndexOf(g.full, e.b).value);
    var kept := g.constraints[Ties(g)..];
    var at :| KeepsLoops(kept, at, constraints, |constraints|, AnchorIds(g.anchors));
    assert i in at;
    var k :| 0 <= k < |at| && at[k] == i;
    assert kept[k] == e;
  }

  lemma AnchorOf(g: Graph, x: nat)
    requires |g.anchors| == |g.indices| && (forall k :: 0 <= k < |g.anchors| ==> Picks(g, k)) && x in g.indices
    ensures x < |g.full| && g.full[x].id in AnchorIds(g.anchors)
  {
    var k :| 0 <= k < |g.indices| && g.indices[k] == x;
    assert Picks(g, k) && g.anchors[k] in g.anchors;
  }

  // ---- odometry edges telescope ---------------------------------------------

  /** Product of the neighbour edges from anchor i to anchor j. */
  function Chain(g: Graph, i: nat, j: nat): SE3
    requires i < j <= Ties(g) <= |g.constraints|
    decreases j
  {
    if i + 1 == j then g.constraints[i].T_rel
    else Compose(Chain(g, i, j - 1), g.constraints[j - 1].T_rel)
  }

  /** The chained measurements between any two anchors are their frozen relative pose. */
  lemma {:induction false} OdometryTelescopes(g: Graph, constraints: seq<Edge>, i: nat, j: nat)
    requires Reduces(g, constraints) && i < j <= Ties(g)
    ensures Chain(g, i, j) == Relative(g.anchors[i], g.anchors[j])
    decreases j
  {
    hide Compose, Inverse, MeanWeight, KeepsLoops;
    assert TiesNeighbours(g, constraints, j - 1);
    if i + 1 < j {
      OdometryTelescopes(g, constraints, i, j - 1);
      RelativeChain(g.anchors[i].pose, g.anchors[j - 1].pose, g.anchors[j].pose);
    }
  }
}
