/** The essential anchor graph: bounded anchor selection, frozen odometry edges, propagation of the correction. */
module LoopGraph {
  import opened Quaternions
  import opened RigidMotion
  import opened MapEntities
  import opened Ordering
  import opened Sampling

  datatype State = State(id: nat, pose: SE3)

  datatype Edge = Edge(a: nat, b: nat, T_rel: SE3, weight: real, isLoop: bool)

  type Slerp = (Rotor, Rotor, real) -> Rotor

  // ---- anchor selection ---------------------------------------------------

  /** Position of a keyframe in the frozen snapshot. */
  function IndexOf(keyframes: seq<State>, id: nat): (r: Option<nat>)
    ensures r.Some? ==> r.value < |keyframes| && keyframes[r.value].id == id
    ensures r.None? ==> forall i :: 0 <= i < |keyframes| ==> keyframes[i].id != id
  {
    if keyframes == [] then None
    else if keyframes[0].id == id then Some(0)
    else match IndexOf(keyframes[1..], id)
      case Some(i) => Some(i + 1)
      case None => None
  }

  predicate Resolvable(keyframes: seq<State>, e: Edge) {
    e.isLoop && IndexOf(keyframes, e.a).Some? && IndexOf(keyframes, e.b).Some?
  }

  predicate EndsSelected(keyframes: seq<State>, e: Edge, selected: set<nat>) {
    Resolvable(keyframes, e) ==>
      IndexOf(keyframes, e.a).value in selected && IndexOf(keyframes, e.b).value in selected
  }

  /** Edge i is the newest loop edge with both ends in the snapshot. */
  ghost predicate IsNewest(keyframes: seq<State>, constraints: seq<Edge>, i: nat) {
    && i < |constraints| && Resolvable(keyframes, constraints[i])
    && forall j :: i < j < |constraints| ==> !Resolvable(keyframes, constraints[j])
  }

  /** Position x is an end of the path or of a resolvable loop edge. */
  ghost predicate FixedEnd(keyframes: seq<State>, constraints: seq<Edge>, x: int) {
    || x == 0 || x == |keyframes| - 1
    || exists i :: 0 <= i < |constraints| && EndsAt(keyframes, constraints[i], x)
  }

  predicate EndsAt(keyframes: seq<State>, e: Edge, x: int) {
    Resolvable(keyframes, e) && (IndexOf(keyframes, e.a).value == x || IndexOf(keyframes, e.b).value == x)
  }

  /** The path's ends, and the selected ends of those edges from position from on that are selected whole. */
  ghost function NewerEnds(keyframes: seq<State>, constraints: seq<Edge>, from: nat, selected: set<nat>): set<nat> {
    set x | x in selected && (x == 0 || x == |keyframes| - 1 || FromNewer(keyframes, constraints, from, selected, x))
  }

  ghost predicate FromNewer(keyframes: seq<State>, constraints: seq<Edge>, from: nat, selected: set<nat>, x: nat) {
    exists j :: from <= j < |constraints| && EndsAt(keyframes, constraints[j], x)
                && EndsSelected(keyframes, constraints[j], selected)
  }

  /** The newer edges leave no room for the ends of edge i. */
  ghost predicate Crowded(keyframes: seq<State>, constraints: seq<Edge>, limit: nat, selected: set<nat>, i: nat)
    requires i < |constraints| && Resolvable(keyframes, constraints[i])
  {
    var newer := NewerEnds(keyframes, constraints, i + 1, selected);
    |newer| + Needed(keyframes, constraints[i], newer) > limit
  }

  function Needed(keyframes: seq<State>, e: Edge, selected: set<nat>): nat
    requires Resolvable(keyframes, e)
  {
    (if IndexOf(keyframes, e.a).value in selected then 0 else 1)
    + (if IndexOf(keyframes, e.b).value in selected then 0 else 1)
  }

  /** From position from on, a loop edge is left out only if newer ones leave no room for it. */
  ghost predicate NewestFirst(keyframes: seq<State>, constraints: seq<Edge>, limit: nat, selected: set<nat>,
                              from: nat) {
    forall i: nat {:trigger constraints[i]} :: from <= i < |constraints| && Resolvable(keyframes, constraints[i]) ==>
      EndsSelected(keyframes, constraints[i], selected) || Crowded(keyframes, constraints, limit, selected, i)
  }

  lemma StillCrowded(keyframes: seq<State>, constraints: seq<Edge>, limit: nat, selected: set<nat>, more: set<nat>,
                     i: nat)
    requires i < |constraints| && Resolvable(keyframes, constraints[i]) && selected <= more
    requires Crowded(keyframes, constraints, limit, selected, i) && !EndsSelected(keyframes, constraints[i], more)
    ensures Crowded(keyframes, constraints, limit, more, i)
  {
    hide IndexOf;
    var before := NewerEnds(keyframes, constraints, i + 1, selected);
    var after := NewerEnds(keyframes, constraints, i + 1, more);
    assert before <= after;
    var added := after - before;
    assert after == before + added;
    var a, b := IndexOf(keyframes, constraints[i].a).value, IndexOf(keyframes, constraints[i].b).value;
    assert a in after && a !in before ==> a in added;
    assert b in after && b !in before ==> b in added;
  }

  lemma EndsFirst(keyframes: seq<State>, constraints: seq<Edge>, limit: nat, selected: set<nat>)
    requires selected == {0, |keyframes| - 1}
    ensures NewestFirst(keyframes, constraints, limit, selected, |constraints|)
    ensures selected == NewerEnds(keyframes, constraints, |constraints|, selected)
  {
  }

  lemma NextOlder(keyframes: seq<State>, constraints: seq<Edge>, limit: nat, i: nat, selected: set<nat>)
    requires i < |constraints| && NewestFirst(keyframes, constraints, limit, selected, i + 1)
    requires selected == NewerEnds(keyframes, constraints, i + 1, selected)
    ensures !Resolvable(keyframes, constraints[i]) ==>
      && NewestFirst(keyframes, constraints, limit, selected, i)
      && selected == NewerEnds(keyframes, constraints, i, selected)
    ensures Resolvable(keyframes, constraints[i]) ==>
      var a, b := IndexOf(keyframes, constraints[i].a).value, IndexOf(keyframes, constraints[i].b).value;
      var next := if |selected| + Needed(keyframes, constraints[i], selected) <= limit then selected + {a} + {b}
                  else selected;
      NewestFirst(keyframes, constraints, limit, next, i) && next == NewerEnds(keyframes, constraints, i, next)
  {
    hide IndexOf, Needed, EndsSelected, EndsAt, NewestFirst, NewerEnds, Crowded;
    if Resolvable(keyframes, constraints[i]) {
      var a, b := IndexOf(keyframes, constraints[i].a).value, IndexOf(keyframes, constraints[i].b).value;
      if |selected| + Needed(keyframes, constraints[i], selected) <= limit {
        KeepNewest(keyframes, constraints, limit, i, selected, selected + {a} + {b});
      } else {
        KeepNewest(keyframes, constraints, limit, i, selected, selected);
      }
    } else {
      KeepNewest(keyframes, constraints, limit, i, selected, selected);
    }
  }

  /** What edge i makes of the selection. */
  ghost predicate Selects(keyframes: seq<State>, e: Edge, limit: nat, selected: set<nat>, next: set<nat>) {
    if !Resolvable(keyframes, e) then next == selected
    else || (next == selected && |selected| + Needed(keyframes, e, selected) > limit)
         || next == selected + {IndexOf(keyframes, e.a).value} + {IndexOf(keyframes, e.b).value}
  }

  lemma KeepNewest(keyframes: seq<State>, constraints: seq<Edge>, limit: nat, i: nat, selected: set<nat>,
                   next: set<nat>)
    requires i < |constraints| && NewestFirst(keyframes, constraints, limit, selected, i + 1)
    requires selected == NewerEnds(keyframes, constraints, i + 1, selected)
    requires Selects(keyframes, constraints[i], limit, selected, next)
    ensures NewestFirst(keyframes, constraints, limit, next, i) && next == NewerEnds(keyframes, constraints, i, next)
  {
    hide IndexOf, NewerEnds, NewestFirst, Crowded, Needed;
    NewestStays(keyframes, constraints, limit, i, selected, next);
    AllAreNewer(keyframes, constraints, limit, i, selected, next);
  }

  lemma NewestStays(keyframes: seq<State>, constraints: seq<Edge>, limit: nat, i: nat, selected: set<nat>,
                    next: set<nat>)
    requires i < |constraints| && NewestFirst(keyframes, constraints, limit, selected, i + 1)
    requires selected == NewerEnds(keyframes, constraints, i + 1, selected)
    requires Selects(keyframes, constraints[i], limit, selected, next)
    ensures NewestFirst(keyframes, constraints, limit, next, i)
  {
    hide IndexOf, NewerEnds, Needed;
    forall k: nat | i <= k < |constraints| && Resolvable(keyframes, constraints[k])
      ensures EndsSelected(keyframes, constraints[k], next) || Crowded(keyframes, constraints, limit, next, k)
    {
      if k > i && !EndsSelected(keyframes, constraints[k], next) {
        StillCrowded(keyframes, constraints, limit, selected, next, k);
      }
    }
  }

  lemma AllAreNewer(keyframes: seq<State>, constraints: seq<Edge>, limit: nat, i: nat, selected: set<nat>,
                    next: set<nat>)
    requires i < |constraints| && selected == NewerEnds(keyframes, constraints, i + 1, selected)
    requires Selects(keyframes, constraints[i], limit, selected, next)
    ensures next == NewerEnds(keyframes, constraints, i, next)
  {
    hide IndexOf, Needed;
    forall x | x in next
      ensures x in NewerEnds(keyframes, constraints, i, next)
    {
      if x in selected {
        if x != 0 && x != |keyframes| - 1 {
          var j :| i + 1 <= j < |constraints| && EndsAt(keyframes, constraints[j], x)
                   && EndsSelected(keyframes, constraints[j], selected);
          assert EndsSelected(keyframes, constraints[j], next);
        }
      } else {
        assert EndsAt(keyframes, constraints[i], x) && EndsSelected(keyframes, constraints[i], next);
      }
    }
  }

  function AtLeast(least: nat, x: nat): (r: nat)
    ensures r >= least && r >= x && (r == least || r == x)
  {
    if x < least then least else x
  }

  /** Ends first, then loop ends from the newest edge backwards while both still fit. */
  method SelectLoopEnds(keyframes: seq<State>, constraints: seq<Edge>, limit: nat) returns (selected: set<nat>)
    requires |keyframes| >= 2 && limit >= 4
    ensures 0 in selected && |keyframes| - 1 in selected && |selected| <= limit
    ensures forall x :: x in selected ==> x < |keyframes| && FixedEnd(keyframes, constraints, x)
    ensures forall i: nat :: IsNewest(keyframes, constraints, i) ==> EndsSelected(keyframes, constraints[i], selected)
    ensures NewestFirst(keyframes, constraints, limit, selected, 0)
  {
    hide IndexOf, NewestFirst, NewerEnds, Selecting, IsNewest, FixedEnd, EndsSelected;
    EndsFirst(keyframes, constraints, limit, {0, |keyframes| - 1});
    SelectingStarts(keyframes, constraints, limit);
    var last: nat := |keyframes| - 1;
    selected := {0, last};
    ghost var met := false;
    var i := |constraints|;
    while i > 0
      invariant 0 <= i <= |constraints| && Selecting(keyframes, constraints, limit, i, selected, met)
      invariant NewestFirst(keyframes, constraints, limit, selected, i)
      invariant selected == NewerEnds(keyframes, constraints, i, selected)
    {
      i := i - 1;
      var e := constraints[i];
      var a, b := IndexOf(keyframes, e.a), IndexOf(keyframes, e.b);
      SelectStep(keyframes, constraints, limit, i, selected, met);
      NextOlder(keyframes, constraints, limit, i, selected);
      if e.isLoop && a.Some? && b.Some? {
        var needed := (if a.value in selected then 0 else 1) + (if b.value in selected then 0 else 1);
        if |selected| + needed <= limit {
          selected := selected + {a.value} + {b.value};
        }
        met := true;
      }
    }
    SelectingEnds(keyframes, constraints, limit, selected, met);
  }

  lemma SelectingStarts(keyframes: seq<State>, constraints: seq<Edge>, limit: nat)
    requires |keyframes| >= 2 && limit >= 4
    ensures Selecting(keyframes, constraints, limit, |constraints|, {0, |keyframes| - 1}, false)
  {
    GrowBound({}, 0, |keyframes| - 1);
    assert {0, |keyframes| - 1} == {} + {0} + {|keyframes| - 1};
  }

  lemma SelectingEnds(keyframes: seq<State>, constraints: seq<Edge>, limit: nat, selected: set<nat>, met: bool)
    requires limit >= 4 && Selecting(keyframes, constraints, limit, 0, selected, met)
    ensures 0 in selected && |keyframes| - 1 in selected && |selected| <= limit
    ensures forall x :: x in selected ==> x < |keyframes| && FixedEnd(keyframes, constraints, x)
    ensures forall i: nat :: IsNewest(keyframes, constraints, i) ==> EndsSelected(keyframes, constraints[i], selected)
  {
    hide IndexOf, FixedEnd;
  }

  /** The scan from the newest edge back to edge i; met tells whether an edge was resolvable so far. */
  ghost predicate Selecting(keyframes: seq<State>, constraints: seq<Edge>, limit: nat, i: nat, selected: set<nat>,
                            met: bool) {
    && 0 in selected && |keyframes| - 1 in selected && |selected| <= (if met then limit else 2)
    && (forall x :: x in selected ==> x < |keyframes| && FixedEnd(keyframes, constraints, x))
    && (!met ==> forall j :: i <= j < |constraints| ==> !Resolvable(keyframes, constraints[j]))
    && (met ==> forall j: nat :: j < i ==> !IsNewest(keyframes, constraints, j))
    && (forall j: nat :: i <= j && IsNewest(keyframes, constraints, j) ==>
          EndsSelected(keyframes, constraints[j], selected))
  }

  lemma SelectStep(keyframes: seq<State>, constraints: seq<Edge>, limit: nat, i: nat, selected: set<nat>, met: bool)
    requires limit >= 4 && i < |constraints| && Selecting(keyframes, constraints, limit, i + 1, selected, met)
    ensures !Resolvable(keyframes, constraints[i]) ==> Selecting(keyframes, constraints, limit, i, selected, met)
    ensures Resolvable(keyframes, constraints[i]) ==>
      var a, b := IndexOf(keyframes, constraints[i].a).value, IndexOf(keyframes, constraints[i].b).value;
      if |selected| + (if a in selected then 0 else 1) + (if b in selected then 0 else 1) <= limit
      then Selecting(keyframes, constraints, limit, i, selected + {a} + {b}, true)
      else Selecting(keyframes, constraints, limit, i, selected, true)
  {
    hide IndexOf, FixedEnd;
    if Resolvable(keyframes, constraints[i]) {
      var a, b := IndexOf(keyframes, constraints[i].a).value, IndexOf(keyframes, constraints[i].b).value;
      GrowBound(selected, a, b);
      EdgeEndsAreFixed(keyframes, constraints, i);
    }
  }

  lemma EdgeEndsAreFixed(keyframes: seq<State>, constraints: seq<Edge>, i: nat)
    requires i < |constraints| && Resolvable(keyframes, constraints[i])
    ensures FixedEnd(keyframes, constraints, IndexOf(keyframes, constraints[i].a).value)
    ensures FixedEnd(keyframes, constraints, IndexOf(keyframes, constraints[i].b).value)
  {
    assert EndsAt(keyframes, constraints[i], IndexOf(keyframes, constraints[i].a).value);
    assert EndsAt(keyframes, constraints[i], IndexOf(keyframes, constraints[i].b).value);
  }

  lemma GrowBound(s: set<nat>, a: nat, b: nat)
    ensures |s + {a} + {b}| <= |s| + (if a in s then 0 else 1) + (if b in s then 0 else 1)
  {
    if a in s {
      assert s + {a} == s;
    }
    if b in s + {a} {
      assert s + {a} + {b} == s + {a};
    }
  }

  /** Every stride-th inner keyframe that is not selected yet. */
  method StrideCandidates(n: nat, stride: nat, selected: set<nat>) returns (optional: seq<nat>)
    requires stride >= 1
    ensures Increasing(optional)
    ensures forall x :: x in optional <==> OnGrid(n, stride, x) && x !in selected
  {
    hide Step, Increasing;
    IncreasingEmpty();
    optional := [];
    var i := stride;
    ghost var k := 1;
    StepNext(0, stride);
    while i + 1 < n
      invariant i == Step(k, stride) && k >= 1 && i >= 1
      invariant Increasing(optional)
      invariant forall x :: x in optional ==> x < i && OnGrid(n, stride, x) && x !in selected
      invariant forall m :: 1 <= m < k && Step(m, stride) !in selected ==> Step(m, stride) in optional
      decreases n - i
    {
      StepNext(k, stride);
      if i !in selected {
        IncreasingAppend(optional, i);
        optional := optional + [i];
      }
      i := i + stride;
      k := k + 1;
    }
    forall x | OnGrid(n, stride, x) && x !in selected
      ensures x in optional
    {
      var m :| m >= 1 && Step(m, stride) == x;
      if m >= k {
        StepOrder(k, m, stride);
      }
    }
  }

  lemma IncreasingEmpty()
    ensures Increasing([])
  {
  }

  lemma IncreasingSmall(x: nat)
    ensures Increasing([]) && Increasing([x])
  {
  }

  function Members(s: seq<nat>): set<nat> {
    set x | x in s
  }

  /**
   * What a selection promises: the path's ends, the loop ends that fit, the newest first, and from the rest of the grid
   * all or an even sample that fills the bound.
   */
  ghost predicate GoodSelection(keyframes: seq<State>, constraints: seq<Edge>, limit: nat, stride: nat,
                                indices: seq<nat>, ends: set<nat>, grid: seq<nat>) {
    var n, chosen := |keyframes|, Members(indices);
    && Increasing(indices) && (forall x :: x in indices ==> x < n) && |indices| <= limit
    && 0 in ends && n - 1 in ends && ends <= chosen && (forall x :: x in ends ==> FixedEnd(keyframes, constraints, x))
    && NewestFirst(keyframes, constraints, limit, ends, 0)
    && (forall i: nat :: IsNewest(keyframes, constraints, i) ==> EndsSelected(keyframes, constraints[i], ends))
    && Increasing(grid) && (forall x :: x in grid <==> OnGrid(n, stride, x) && x !in ends)
    && (forall x :: x in indices ==> x in ends || x in grid) && |ends| <= limit
    && if |grid| <= limit - |ends| then forall x :: x in grid ==> x in indices
       else |indices| == limit && (|ends| < limit ==> EvenlySpread(grid, limit - |ends|, chosen))
  }

  /** The anchors in order; the sample fills the bound exactly when there are more candidates than free slots. */
  method SelectAnchorIndices(keyframes: seq<State>, constraints: seq<Edge>, maxAnchors: nat, preferredStride: nat)
    returns (indices: seq<nat>, ghost ends: set<nat>, ghost grid: seq<nat>)
    ensures Increasing(indices) && forall x :: x in indices ==> x < |keyframes|
    ensures keyframes == [] ==> indices == []
    ensures |keyframes| == 1 ==> indices == [0]
    ensures |keyframes| >= 2 ==>
      GoodSelection(keyframes, constraints, AtLeast(4, maxAnchors), AtLeast(1, preferredStride), indices, ends, grid)
  {
    hide Increasing, IndexOf, Step, OnGrid, IsNewest, Resolvable, FixedEnd, GoodSelection, NewestFirst, EvenlySpread;
    IncreasingSmall(0);
    ends, grid := {}, [];
    if keyframes == [] {
      return [], {}, [];
    }
    if |keyframes| == 1 {
      return [0], {}, [];
    }
    var limit, stride := AtLeast(4, maxAnchors), AtLeast(1, preferredStride);
    var selected := SelectLoopEnds(keyframes, constraints, limit);
    var optional := StrideCandidates(|keyframes|, stride, selected);
    var slots := if limit > |selected| then limit - |selected| else 0;
    ends, grid := selected, optional;
    var all := AddSpread(selected, optional, slots);
    indices := Ascending(all);
    SelectionIsGood(keyframes, constraints, limit, stride, selected, optional, slots, indices, all);
  }

  lemma SelectionIsGood(keyframes: seq<State>, constraints: seq<Edge>, limit: nat, stride: nat,
                        selected: set<nat>, optional: seq<nat>, slots: nat, indices: seq<nat>, all: set<nat>)
    requires |keyframes| >= 2 && |selected| + slots == limit && Increasing(indices) && Increasing(optional)
    requires NewestFirst(keyframes, constraints, limit, selected, 0)
    requires 0 < slots < |optional| ==> EvenlySpread(optional, slots, all)
    requires forall x :: x in indices <==> x in all
    requires 0 in selected && |keyframes| - 1 in selected
    requires forall x :: x in selected ==> x < |keyframes| && FixedEnd(keyframes, constraints, x)
    requires forall i: nat :: IsNewest(keyframes, constraints, i) ==> EndsSelected(keyframes, constraints[i], selected)
    requires forall x :: x in optional <==> OnGrid(|keyframes|, stride, x) && x !in selected
    requires forall x :: x in selected ==> x in indices
    requires forall x :: x in indices ==> x in selected || x in optional
    requires |optional| <= slots ==> forall x :: x in optional ==> x in indices
    requires |indices| == |selected| + if |optional| <= slots then |optional| else slots
    ensures GoodSelection(keyframes, constraints, limit, stride, indices, selected, optional)
    ensures forall x :: x in indices ==> x < |keyframes|
  {
    hide Increasing, IndexOf, Step, IsNewest, FixedEnd, NewestFirst, EvenlySpread;
    assert Members(indices) == all;
    forall x | x in indices
      ensures x < |keyframes|
    {
      assert x in selected || OnGrid(|keyframes|, stride, x);
    }
  }
}
