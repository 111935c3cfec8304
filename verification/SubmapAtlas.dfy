/** The Atlas: rigid submaps, the constraints between them, and the residual gate on loop constraints. */
module SubmapAtlas {
  import opened RigidMotion
  import opened Rebasing
  import opened MapEntities
  import opened SlamMap
  import opened CommitModel

  datatype Submap = Submap(id: nat, localMap: Map, T_ws: SE3, frozen: bool, connected: bool)

  datatype Kind = TrackingBridge | Relocalization | LoopClosure

  datatype Constraint = Constraint(a: nat, b: nat, T_rel: SE3, weight: real, kind: Kind)

  function IndexOf(submaps: seq<Submap>, id: nat): (r: Option<nat>)
    ensures r.Some? ==> r.value < |submaps| && submaps[r.value].id == id
    ensures r.None? ==> forall i :: 0 <= i < |submaps| ==> submaps[i].id != id
  {
    if submaps == [] then None
    else if submaps[0].id == id then Some(0)
    else match IndexOf(submaps[1..], id)
      case Some(i) => Some(i + 1)
      case None => None
  }

  function MakeLoopConstraint(current: nat, loop: nat, currentPose: SE3, loopPose: SE3, T_loop_curr: SE3): Constraint {
    Constraint(current, loop, CrossSubmapRelative(currentPose, loopPose, T_loop_curr), 10.0, LoopClosure)
  }

  function Abs(x: real): (r: real)
    ensures r >= 0.0 && (r == x || r == -x)
  {
    if x < 0.0 then -x else x
  }

  /** What is left of an edge after the submap anchors are placed. */
  function Residual(edge: Constraint, a: SE3, b: SE3): SE3 {
    Compose(Inverse(edge.T_rel), Compose(Inverse(a), b))
  }

  /** The residual moves by at most the limit and turns by at most the angle whose half has this cosine. */
  predicate Within(residual: SE3, maxSquared: real, minCosine: real) {
    SquaredNorm(residual.t) <= maxSquared && Abs(residual.q.w) >= minCosine
  }

  predicate EdgeConsistent(submaps: seq<Submap>, edge: Constraint, maxSquared: real, minCosine: real) {
    edge.kind == LoopClosure ==>
      var a, b := IndexOf(submaps, edge.a), IndexOf(submaps, edge.b);
      && a.Some? && b.Some?
      && Within(Residual(edge, submaps[a.value].T_ws, submaps[b.value].T_ws), maxSquared, minCosine)
  }

  ghost predicate LoopsConsistent(submaps: seq<Submap>, constraints: seq<Constraint>, maxSquared: real,
                                  minCosine: real) {
    forall i :: 0 <= i < |constraints| ==> EdgeConsistent(submaps, constraints[i], maxSquared, minCosine)
  }

  /** A zero residual is what the constraint asks for: the far anchor is the near one moved by the measurement. */
  lemma {:induction false} ZeroResidualMeansAgreement(edge: Constraint, a: SE3, b: SE3)
    ensures Residual(edge, a, b) == IDENTITY <==> b == Compose(a, edge.T_rel)
  {
    hide Compose, Inverse, IDENTITY;
    var p := Compose(Inverse(a), b);
    CancelLeft(edge.T_rel, p);
    CancelLeft(a, b);
    ComposeIdentity(edge.T_rel);
    CancelLeft(a, edge.T_rel);
    ComposeInverse(edge.T_rel);
  }

  ghost predicate IdsIncrease(submaps: seq<Submap>) {
    forall i, j :: 0 <= i < j < |submaps| ==> submaps[i].id < submaps[j].id
  }

  class Atlas {
    var submaps: seq<Submap>
    var constraints: seq<Constraint>
    var activeId: nat
    var nextId: nat

    ghost predicate Valid()
      reads this
    {
      && (forall i :: 0 <= i < |submaps| ==> submaps[i].id < nextId)
      && IdsIncrease(submaps)
      && (submaps != [] ==> IndexOf(submaps, activeId).Some?)
    }

    constructor ()
      ensures Valid() && submaps == [] && constraints == [] && nextId == 0
    {
      submaps, constraints, activeId, nextId := [], [], 0, 0;
    }

    /** Freeze the active submap and open a new one with an id never used before. */
    method CreateSubmap(T_ws: SE3, connected: bool) returns (created: Submap)
      requires Valid()
      modifies this
      ensures Valid() && fresh(created.localMap) && created.localMap.Valid()
      ensures created == Submap(old(nextId), created.localMap, T_ws, false, connected) && nextId == old(nextId) + 1
      ensures |submaps| == |old(submaps)| + 1 && submaps[|old(submaps)|] == created && activeId == created.id
      ensures forall i :: 0 <= i < |old(submaps)| ==>
        submaps[i] == old(submaps)[i].(frozen := old(submaps)[i].frozen || old(submaps)[i].id == old(activeId))
      ensures constraints == old(constraints)
    {
      hide IndexOf, Map.Valid;
      var active := IndexOf(submaps, activeId);
      if active.Some? {
        submaps := submaps[active.value := submaps[active.value].(frozen := true)];
      }
      var localMap := new Map();
      created := Submap(nextId, localMap, T_ws, false, connected);
      nextId := nextId + 1;
      submaps := submaps + [created];
      activeId := created.id;
      assert submaps[|submaps| - 1].id == activeId;
    }

    method Activate(id: nat) returns (found: bool)
      requires Valid()
      modifies this`submaps, this`activeId
      ensures Valid()
      ensures found <==> exists i :: 0 <= i < |old(submaps)| && old(submaps)[i].id == id
      ensures !found ==> submaps == old(submaps) && activeId == old(activeId)
      ensures found ==> activeId == id && |submaps| == |old(submaps)|
      ensures found ==> forall i :: 0 <= i < |submaps| ==>
        submaps[i] == old(submaps)[i].(frozen := old(submaps)[i].frozen && old(submaps)[i].id != id)
    {
      var i := 0;
      while i < |submaps|
        invariant 0 <= i <= |submaps|
        invariant submaps == old(submaps) && activeId == old(activeId)
        invariant forall j :: 0 <= j < i ==> submaps[j].id != id
      {
        if submaps[i].id == id {
          activeId := id;
          submaps := submaps[i := submaps[i].(frozen := false)];
          assert submaps[i].id == id;
          return true;
        }
        i := i + 1;
      }
      return false;
    }

    method AddConstraint(c: Constraint)
      modifies this`constraints
      ensures constraints == old(constraints) + [c]
    {
      constraints := constraints + [c];
    }

    method RemoveConstraintsFrom(index: nat)
      modifies this`constraints
      ensures constraints == if index < |old(constraints)| then old(constraints)[..index] else old(constraints)
    {
      if index < |constraints| {
        constraints := constraints[..index];
      }
    }

    /** The gate: stops at the first dangling or violated loop edge; what it reports are limits all loop edges meet. */
    method LoopConstraintsConsistent(maxSquared: real, minCosine: real)
      returns (ok: bool, worstSquared: real, worstCosine: real)
      ensures ok <==> LoopsConsistent(submaps, constraints, maxSquared, minCosine)
      ensures ok ==> LoopsConsistent(submaps, constraints, worstSquared, worstCosine)
      ensures ok && worstSquared > 0.0 ==> worstSquared <= maxSquared
      ensures ok && worstCosine < 1.0 ==> worstCosine >= minCosine
    {
      hide Residual, SquaredNorm, IndexOf;
      ok, worstSquared, worstCosine := true, 0.0, 1.0;
      var i := 0;
      while i < |constraints|
        invariant 0 <= i <= |constraints|
        invariant forall j :: 0 <= j < i ==> EdgeConsistent(submaps, constraints[j], maxSquared, minCosine)
        invariant forall j :: 0 <= j < i ==> EdgeConsistent(submaps, constraints[j], worstSquared, worstCosine)
        invariant worstSquared > 0.0 ==> worstSquared <= maxSquared
        invariant worstCosine < 1.0 ==> worstCosine >= minCosine
      {
        var edge := constraints[i];
        if edge.kind == LoopClosure {
          var a, b := IndexOf(submaps, edge.a), IndexOf(submaps, edge.b);
          if a.None? || b.None? {
            assert !EdgeConsistent(submaps, constraints[i], maxSquared, minCosine);
            return false, worstSquared, worstCosine;
          }
          var residual := Residual(edge, submaps[a.value].T_ws, submaps[b.value].T_ws);
          var squared, cosine := SquaredNorm(residual.t), Abs(residual.q.w);
          worstSquared := if worstSquared < squared then squared else worstSquared;
          worstCosine := if cosine < worstCosine then cosine else worstCosine;
          if squared > maxSquared || cosine < minCosine {
            assert !EdgeConsistent(submaps, constraints[i], maxSquared, minCosine);
            return false, worstSquared, worstCosine;
          }
        }
        i := i + 1;
      }
    }

    /** Write T_ws of one submap. */
    method Place(index: nat, T_ws: SE3)
      requires index < |submaps|
      modifies this`submaps
      ensures submaps == old(submaps)[index := old(submaps)[index].(T_ws := T_ws)]
    {
      submaps := submaps[index := submaps[index].(T_ws := T_ws)];
    }

    /** Whatever the solver answered, only submap anchors change; false means none did. */
    method Solve(valid: bool, answer: seq<PoseUpdate>) returns (updated: bool)
      modifies this`submaps
      ensures submaps == if |old(submaps)| >= 2 && valid then Answered(old(submaps), answer) else old(submaps)
      ensures SameButAnchors(old(submaps), submaps)
      ensures updated <==> |old(submaps)| >= 2 && valid && NamesOne(old(submaps), answer)
      ensures !updated ==> submaps == old(submaps)
    {
      hide Inverse, IndexOf;
      updated := false;
      if |submaps| < 2 || !valid {
        return;
      }
      for i := 0 to |answer|
        invariant submaps == Answered(old(submaps), answer[..i])
        invariant SameButAnchors(old(submaps), submaps)
        invariant updated <==> NamesOne(old(submaps), answer[..i])
        invariant !updated ==> submaps == old(submaps)
      {
        assert answer[..i + 1][..i] == answer[..i];
        SameIndex(old(submaps), submaps, answer[i].id);
        NamesOneMore(old(submaps), answer, i);
        var at := IndexOf(submaps, answer[i].id);
        if at.Some? {
          Place(at.value, Inverse(answer[i].pose));
          updated := true;
        }
      }
      assert answer[..|answer|] == answer;
    }

    method SaveAnchors() returns (saved: seq<(nat, SE3)>)
      ensures |saved| == |submaps| && forall i :: 0 <= i < |saved| ==> saved[i] == (submaps[i].id, submaps[i].T_ws)
    {
      saved := [];
      for i := 0 to |submaps|
        invariant |saved| == i && forall j :: 0 <= j < i ==> saved[j] == (submaps[j].id, submaps[j].T_ws)
      {
        saved := saved + [(submaps[i].id, submaps[i].T_ws)];
      }
    }

    /** Put every anchor back where it was saved. */
    method RestoreAnchors(saved: seq<(nat, SE3)>, ghost before: seq<Submap>)
      requires IdsIncrease(before) && SameButAnchors(before, submaps) && |saved| == |before| == |submaps|
      requires forall i :: 0 <= i < |saved| ==> saved[i] == (before[i].id, before[i].T_ws)
      modifies this`submaps
      ensures submaps == before
    {
      hide IdsIncrease, SameButAnchors, IndexOf;
      for i := 0 to |saved|
        invariant SameButAnchors(before, submaps) && |submaps| == |before|
        invariant submaps[..i] == before[..i]
      {
        RestoreStep(before, submaps, i);
        var at := IndexOf(submaps, saved[i].0);
        if at.Some? {
          Place(at.value, saved[i].1);
        }
      }
      assert submaps == submaps[..|saved|] && before == before[..|saved|];
    }
  }

  lemma RestoreStep(before: seq<Submap>, now: seq<Submap>, i: nat)
    requires IdsIncrease(before) && SameButAnchors(before, now) && i < |before| && |now| == |before|
    requires now[..i] == before[..i]
    ensures IndexOf(now, before[i].id) == Some(i)
    ensures var next := now[i := now[i].(T_ws := before[i].T_ws)];
            |next| == |before| && SameButAnchors(before, next) && next[..i + 1] == before[..i + 1]
  {
    SameIndex(before, now, before[i].id);
    OnlyIndex(before, i);
    var next := now[i := now[i].(T_ws := before[i].T_ws)];
    assert next[i] == before[i];
    assert next[..i] == now[..i];
    assert next[..i + 1] == next[..i] + [next[i]];
    assert before[..i + 1] == before[..i] + [before[i]];
  }

  /** The answer moves at least one submap. */
  ghost predicate NamesOne(submaps: seq<Submap>, answer: seq<PoseUpdate>) {
    exists u :: u in answer && IndexOf(submaps, u.id).Some?
  }

  lemma NamesOneMore(submaps: seq<Submap>, answer: seq<PoseUpdate>, n: nat)
    requires n < |answer|
    ensures NamesOne(submaps, answer[..n + 1]) <==>
      NamesOne(submaps, answer[..n]) || IndexOf(submaps, answer[n].id).Some?
  {
    hide IndexOf;
    assert answer[..n + 1] == answer[..n] + [answer[n]];
    assert answer[n] in answer[..n + 1];
  }

  /** A solver answer written back: node poses are world-to-submap, anchors submap-to-world. */
  function Answered(submaps: seq<Submap>, answer: seq<PoseUpdate>): seq<Submap>
    decreases |answer|
  {
    if answer == [] then submaps
    else
      var before, last := Answered(submaps, answer[..|answer| - 1]), answer[|answer| - 1];
      match IndexOf(before, last.id)
      case None => before
      case Some(i) => before[i := before[i].(T_ws := Inverse(last.pose))]
  }

  ghost predicate SameButAnchors(before: seq<Submap>, after: seq<Submap>) {
    |before| == |after| && forall i :: 0 <= i < |after| ==> after[i] == before[i].(T_ws := after[i].T_ws)
  }

  lemma OnlyIndex(submaps: seq<Submap>, i: nat)
    requires i < |submaps| && IdsIncrease(submaps)
    ensures IndexOf(submaps, submaps[i].id) == Some(i)
  {
    var at := IndexOf(submaps, submaps[i].id);
    if at.Some? {
      assert submaps[at.value].id == submaps[i].id;
    }
  }

  lemma {:induction false} SameIndex(before: seq<Submap>, after: seq<Submap>, id: nat)
    requires SameButAnchors(before, after)
    ensures IndexOf(before, id) == IndexOf(after, id)
  {
    if before != [] {
      SameIndex(before[1..], after[1..], id);
    }
  }
}
