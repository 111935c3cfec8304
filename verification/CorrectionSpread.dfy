/** Spreading the corrected anchor poses over all frozen keyframes with one moving pair of anchors. */
module CorrectionSpread {
  import opened Quaternions
  import opened RigidMotion
  import opened Rebasing
  import opened MapEntities
  import opened Ordering
  import opened LoopGraph
  import opened CommitModel
  import opened AnchorGraph

  /** How far the solver moved the camera at an anchor. */
  function Correction(frozen: SE3, solved: SE3): SE3 {
    Compose(Inverse(solved), frozen)
  }

  /** A keyframe pose with a correction applied to its camera-to-map pose. */
  function Moved(correction: SE3, frozen: SE3): SE3 {
    Inverse(Compose(correction, Inverse(frozen)))
  }

  /** Anchors with their frozen index and solved pose: first and last keyframe are anchors. */
  datatype Placed = Placed(index: nat, pose: SE3)

  ghost predicate Spans(full: seq<State>, anchors: seq<Placed>) {
    && anchors != [] && anchors[0].index == 0 && anchors[|anchors| - 1].index + 1 == |full|
    && forall i, j :: 0 <= i < j < |anchors| ==> anchors[i].index < anchors[j].index
  }

  /** right closes the pair of neighbouring anchors around keyframe i. */
  predicate Brackets(anchors: seq<Placed>, i: nat, right: nat) {
    && right < |anchors| && i <= anchors[right].index
    && (if right == 0 then |anchors| == 1
        else anchors[right - 1].index <= i && (i == anchors[right - 1].index ==> right == 1))
  }

  lemma {:induction false} BracketIsUnique(full: seq<State>, anchors: seq<Placed>, i: nat, r: nat, s: nat)
    requires Spans(full, anchors) && Brackets(anchors, i, r) && Brackets(anchors, i, s)
    ensures r == s
  {
  }

  function Left(right: nat): nat {
    if right == 0 then 0 else right - 1
  }

  function AlphaOf(anchors: seq<Placed>, i: nat, right: nat): real
    requires right < |anchors|
  {
    var left := Left(right);
    var denominator := (anchors[right].index - anchors[left].index) as real;
    if denominator > 0.0 then (i - anchors[left].index) as real / denominator else 0.0
  }

  function AnchorCorrection(full: seq<State>, anchors: seq<Placed>, k: nat): SE3
    requires k < |anchors| && anchors[k].index < |full|
  {
    Correction(full[anchors[k].index].pose, anchors[k].pose)
  }

  function SpreadPose(slerp: Slerp, full: seq<State>, anchors: seq<Placed>, i: nat, right: nat): SE3
    requires i < |full| && right < |anchors| && anchors[right].index < |full| && anchors[Left(right)].index < |full|
  {
    Moved(InterpolateCorrection(slerp, AnchorCorrection(full, anchors, Left(right)),
                                AnchorCorrection(full, anchors, right),
                                AlphaOf(anchors, i, right)),
          full[i].pose)
  }

  /** One update per frozen keyframe, in order, each taken between the anchors that bracket it. */
  ghost predicate SpreadOver(slerp: Slerp, full: seq<State>, anchors: seq<Placed>, updates: seq<PoseUpdate>, n: nat)
    requires Spans(full, anchors) && n <= |full|
  {
    |updates| == n && forall i :: 0 <= i < n ==> SpreadAt(slerp, full, anchors, updates, i)
  }

  ghost predicate SpreadAt(slerp: Slerp, full: seq<State>, anchors: seq<Placed>, updates: seq<PoseUpdate>, i: nat)
    requires Spans(full, anchors) && i < |full| && i < |updates|
  {
    updates[i].id == full[i].id &&
    exists right :: Brackets(anchors, i, right) && updates[i].pose == SpreadPoseAt(slerp, full, anchors, i, right)
  }

  function SpreadPoseAt(slerp: Slerp, full: seq<State>, anchors: seq<Placed>, i: nat, right: nat): SE3
    requires Spans(full, anchors) && i < |full| && right < |anchors|
  {
    SpanIndex(full, anchors, right);
    SpanIndex(full, anchors, Left(right));
    SpreadPose(slerp, full, anchors, i, right)
  }

  lemma SpanIndex(full: seq<State>, anchors: seq<Placed>, k: nat)
    requires Spans(full, anchors) && k < |anchors|
    ensures anchors[k].index < |full|
  {
  }

  // ---- the loop -----------------------------------------------------------------

  /** Solved poses by id; the first answer for an id counts. */
  function AnswerFor(answer: seq<PoseUpdate>, id: nat): (r: Option<SE3>)
    ensures r.None? ==> forall i :: 0 <= i < |answer| ==> answer[i].id != id
    ensures r.Some? ==> exists i :: && 0 <= i < |answer| && answer[i] == PoseUpdate(id, r.value)
                                    && forall j :: 0 <= j < i ==> answer[j].id != id
  {
    if answer == [] then None
    else if answer[0].id == id then Some(answer[0].pose)
    else AnswerFor(answer[1..], id)
  }

  function SolvedPose(answer: seq<PoseUpdate>, anchor: State): SE3 {
    match AnswerFor(answer, anchor.id)
    case Some(pose) => pose
    case None => anchor.pose
  }

  method PlaceAnchors(g: Graph, answer: seq<PoseUpdate>) returns (anchors: seq<Placed>)
    requires DistinctKeyframes(g.full) && |g.anchors| == |g.indices|
    requires forall k :: 0 <= k < |g.anchors| ==> g.indices[k] < |g.full| && g.anchors[k] == g.full[g.indices[k]]
    ensures |anchors| == |g.anchors|
    ensures forall k :: 0 <= k < |anchors| ==> anchors[k] == Placed(g.indices[k], SolvedPose(answer, g.anchors[k]))
  {
    hide IndexOf, SolvedPose, DistinctKeyframes;
    anchors := [];
    for k := 0 to |g.anchors|
      invariant |anchors| == k
      invariant forall j :: 0 <= j < k ==> anchors[j] == Placed(g.indices[j], SolvedPose(answer, g.anchors[j]))
    {
      FoundAt(g.full, g.indices[k]);
      var at := IndexOf(g.full, g.anchors[k].id);
      if at.Some? {
        anchors := anchors + [Placed(at.value, SolvedPose(answer, g.anchors[k]))];
      }
    }
  }

  method Propagate(slerp: Slerp, full: seq<State>, anchors: seq<Placed>) returns (updates: seq<PoseUpdate>)
    requires Spans(full, anchors)
    ensures SpreadOver(slerp, full, anchors, updates, |full|)
  {
    hide SpreadPose, Spans;
    SpanEnds(full, anchors);
    updates := [];
    var right := if |anchors| > 1 then 1 else 0;
    for i := 0 to |full|
      invariant right < |anchors| && (right == 0 ==> |anchors| == 1)
      invariant right > 1 ==> anchors[right - 1].index < i
      invariant SpreadOver(slerp, full, anchors, updates, i)
    {
      while right + 1 < |anchors| && i > anchors[right].index
        invariant right < |anchors| && (right == 0 ==> |anchors| == 1)
        invariant right > 1 ==> anchors[right - 1].index < i
        decreases |anchors| - right
      {
        right := right + 1;
      }
      SpanIndex(full, anchors, right);
      SpanIndex(full, anchors, Left(right));
      var pose := SpreadPose(slerp, full, anchors, i, right);
      SpreadMore(slerp, full, anchors, updates, i, right, PoseUpdate(full[i].id, pose));
      updates := updates + [PoseUpdate(full[i].id, pose)];
    }
  }

  lemma SpanEnds(full: seq<State>, anchors: seq<Placed>)
    requires Spans(full, anchors)
    ensures anchors != [] && anchors[0].index == 0 && anchors[|anchors| - 1].index + 1 == |full|
  {
  }

  lemma SpreadMore(slerp: Slerp, full: seq<State>, anchors: seq<Placed>, updates: seq<PoseUpdate>, i: nat, right: nat,
                   u: PoseUpdate)
    requires Spans(full, anchors) && i < |full| && SpreadOver(slerp, full, anchors, updates, i)
    requires Brackets(anchors, i, right) && u == PoseUpdate(full[i].id, SpreadPoseAt(slerp, full, anchors, i, right))
    ensures SpreadOver(slerp, full, anchors, updates + [u], i + 1)
  {
    hide SpreadPoseAt, Spans, Brackets;
    forall j | 0 <= j < i
      ensures SpreadAt(slerp, full, anchors, updates + [u], j)
    {
      assert SpreadAt(slerp, full, anchors, updates, j);
    }
    assert SpreadAt(slerp, full, anchors, updates + [u], i);
  }

  /** The whole step from a solver answer to the poses of every frozen keyframe. */
  method PropagateAnchorCorrections(slerp: Slerp, g: Graph, valid: bool, answer: seq<PoseUpdate>)
    returns (updates: seq<PoseUpdate>, ghost anchors: seq<Placed>)
    requires DistinctKeyframes(g.full) && |g.anchors| == |g.indices| && Increasing(g.indices)
    requires forall k :: 0 <= k < |g.anchors| ==> g.indices[k] < |g.full| && g.anchors[k] == g.full[g.indices[k]]
    requires g.full != [] ==> g.indices != [] && g.indices[0] == 0 && g.indices[|g.indices| - 1] + 1 == |g.full|
    ensures !valid || g.full == [] ==> updates == []
    ensures valid && g.full != [] ==>
      && Spans(g.full, anchors) && SpreadOver(slerp, g.full, anchors, updates, |g.full|)
      && |anchors| == |g.anchors|
      && forall k :: 0 <= k < |anchors| ==> anchors[k] == Placed(g.indices[k], SolvedPose(answer, g.anchors[k]))
  {
    hide SolvedPose, SpreadOver, DistinctKeyframes;
    anchors := [];
    if g.full == [] || g.anchors == [] || !valid {
      return [], [];
    }
    var placed := PlaceAnchors(g, answer);
    anchors := placed;
    updates := Propagate(slerp, g.full, placed);
  }

  // ---- what the spread means --------------------------------------------------

  lemma MovedBySolved(frozen: SE3, solved: SE3)
    ensures Moved(Correction(frozen, solved), frozen) == solved
  {
    hide Compose, Inverse;
    CancelRight(Inverse(solved), frozen);
    InverseInverse(solved);
  }

  lemma MovedSame(a: SE3, b: SE3, frozen: SE3)
    requires Same(a, b)
    ensures Same(Moved(a, frozen), Moved(b, frozen))
  {
    hide Compose, Inverse, Same;
    SameCompose(a, b, Inverse(frozen));
    SameInverse(Compose(a, Inverse(frozen)), Compose(b, Inverse(frozen)));
  }

  lemma AlphaAtEnds(anchors: seq<Placed>, right: nat)
    requires right < |anchors| && (right > 0 ==> anchors[right - 1].index < anchors[right].index)
    ensures AlphaOf(anchors, anchors[Left(right)].index, right) == 0.0
    ensures right > 0 ==> AlphaOf(anchors, anchors[right].index, right) == 1.0
  {
    if right > 0 {
      EndRatios((anchors[right].index - anchors[right - 1].index) as real);
    }
  }

  lemma EndRatios(d: real)
    requires d > 0.0
    ensures 0.0 / d == 0.0 && d / d == 1.0
  {
  }

  /** Every anchor ends at exactly the pose the solver gave it (as a rigid motion). */
  lemma {:induction false} AnchorsGetSolvedPose(slerp: Slerp, full: seq<State>, anchors: seq<Placed>,
                                                updates: seq<PoseUpdate>, k: nat)
    requires SlerpLaws(slerp) && Spans(full, anchors) && SpreadOver(slerp, full, anchors, updates, |full|)
    requires k < |anchors|
    ensures anchors[k].index < |full| && updates[anchors[k].index].id == full[anchors[k].index].id
    ensures Same(updates[anchors[k].index].pose, anchors[k].pose)
    ensures k == 0 ==> updates[0].pose == anchors[0].pose
  {
    hide Compose, Inverse, SlerpLaws, InterpolateCorrection, Moved, Correction, Same, AlphaOf;
    SpanIndex(full, anchors, k);
    var i := anchors[k].index;
    assert SpreadAt(slerp, full, anchors, updates, i);
    var right: nat :| Brackets(anchors, i, right) && updates[i].pose == SpreadPoseAt(slerp, full, anchors, i, right);
    AlphaAtEnds(anchors, right);
    var a, b := AnchorCorrection(full, anchors, Left(right)), AnchorCorrection(full, anchors, right);
    InterpolationEnds(slerp, a, b);
    MovedBySolved(full[i].pose, anchors[k].pose);
    SameRefl(anchors[k].pose);
    if k == Left(right) {
      assert AlphaOf(anchors, i, right) == 0.0;
    } else {
      assert k == right;
      MovedSame(InterpolateCorrection(slerp, a, b, 1.0), b, full[i].pose);
    }
  }

  /** If all anchors were moved by one motion, so is every keyframe. */
  lemma {:induction false} CommonCorrectionMovesAll(slerp: Slerp, full: seq<State>, anchors: seq<Placed>,
                                                    updates: seq<PoseUpdate>,
                                                    common: SE3, i: nat)
    requires SlerpLaws(slerp) && Spans(full, anchors) && SpreadOver(slerp, full, anchors, updates, |full|) && i < |full|
    requires forall k :: 0 <= k < |anchors| ==>
      anchors[k].index < |full| && Same(AnchorCorrection(full, anchors, k), common)
    ensures Same(updates[i].pose, Compose(full[i].pose, Inverse(common)))
  {
    hide Compose, Inverse, SlerpLaws, InterpolateCorrection, Moved, AnchorCorrection, Same, AlphaOf, Spans;
    assert SpreadAt(slerp, full, anchors, updates, i);
    var right: nat :| Brackets(anchors, i, right) && updates[i].pose == SpreadPoseAt(slerp, full, anchors, i, right);
    var a, b := AnchorCorrection(full, anchors, Left(right)), AnchorCorrection(full, anchors, right);
    SameTransitiveTo(a, common, b);
    InterpolationOfEqual(slerp, a, b, AlphaOf(anchors, i, right));
    MovedSame(a, common, full[i].pose);
    MovedByInverse(common, full[i].pose);
  }

  lemma SameTransitiveTo(a: SE3, common: SE3, b: SE3)
    requires Same(a, common) && Same(b, common)
    ensures Same(a, b)
  {
    hide Neg, Dot;
    MulConj(common.q);
  }

  lemma MovedByInverse(c: SE3, frozen: SE3)
    ensures Moved(c, frozen) == Compose(frozen, Inverse(c))
  {
    hide Compose, Inverse;
    InverseCompose(c, Inverse(frozen));
    InverseInverse(frozen);
  }

  /** A solver that leaves every anchor alone leaves every keyframe alone. */
  lemma {:induction false} UnmovedAnchorsMoveNothing(slerp: Slerp, full: seq<State>, anchors: seq<Placed>,
                                                     updates: seq<PoseUpdate>, i: nat)
    requires SlerpLaws(slerp) && Spans(full, anchors) && SpreadOver(slerp, full, anchors, updates, |full|) && i < |full|
    requires forall k :: 0 <= k < |anchors| ==>
      anchors[k].index < |full| && anchors[k].pose == full[anchors[k].index].pose
    ensures updates[i].pose == full[i].pose
  {
    hide Compose, Inverse, SlerpLaws, InterpolateCorrection, Moved, Same, AlphaOf, Spans, IDENTITY;
    assert SpreadAt(slerp, full, anchors, updates, i);
    var right: nat :| Brackets(anchors, i, right) && updates[i].pose == SpreadPoseAt(slerp, full, anchors, i, right);
    var a, b := AnchorCorrection(full, anchors, Left(right)), AnchorCorrection(full, anchors, right);
    SpanIndex(full, anchors, right);
    SpanIndex(full, anchors, Left(right));
    ComposeInverse(full[anchors[right].index].pose);
    ComposeInverse(full[anchors[Left(right)].index].pose);
    SameRefl(a);
    InterpolationOfEqual(slerp, a, b, AlphaOf(anchors, i, right));
    MovedBySolved(full[i].pose, full[i].pose);
    ComposeInverse(full[i].pose);
  }

  lemma AlphaIsProportional(anchors: seq<Placed>, i: nat, right: nat, fraction: real)
    requires 0 < right < |anchors| && anchors[right - 1].index <= i <= anchors[right].index
    requires anchors[right - 1].index < anchors[right].index
    requires fraction * (anchors[right].index - anchors[right - 1].index) as real
          == (i - anchors[right - 1].index) as real
    ensures AlphaOf(anchors, i, right) == fraction && 0.0 <= fraction <= 1.0
  {
    RatioIs(i - anchors[right - 1].index, anchors[right].index - anchors[right - 1].index, fraction);
  }

  lemma RatioIs(part: nat, span: nat, fraction: real)
    requires part <= span && span > 0 && fraction * span as real == part as real
    ensures part as real / span as real == fraction && 0.0 <= fraction <= 1.0
  {
    Ratios(part as real, span as real, span as real);
    FullRatio(span as real);
    SameFactor(part as real / span as real, fraction, span as real, part as real);
  }

  /** The correction a keyframe got. */
  function CorrectionAt(full: seq<State>, updates: seq<PoseUpdate>, i: nat): SE3
    requires i < |full| && i < |updates|
  {
    Correction(full[i].pose, updates[i].pose)
  }

  /**
   * Between two anchors the correction goes from the one's to the other's by the fraction of keyframes passed:
   * straight, and by the slerp of that fraction over the shorter turn.
   */
  lemma {:induction false} SpreadsEvenly(slerp: Slerp, full: seq<State>, anchors: seq<Placed>, updates: seq<PoseUpdate>,
                                         i: nat, right: nat, fraction: real)
    requires Spans(full, anchors) && SpreadOver(slerp, full, anchors, updates, |full|) && i < |full|
    requires 0 < right < |anchors| && Brackets(anchors, i, right)
    requires var left := anchors[right - 1].index;
             fraction * (anchors[right].index - left) as real == (i - left) as real
    ensures anchors[right].index < |full| && anchors[right - 1].index < |full| && updates[i].id == full[i].id
    ensures var a, b, c := AnchorCorrection(full, anchors, right - 1), AnchorCorrection(full, anchors, right),
                           CorrectionAt(full, updates, i);
            && AtFraction(a.t, b.t, fraction, c.t)
            && Dot(Neg(b.q), Neg(b.q)) == 1.0
            && c.q == slerp(a.q, if Dot(a.q, b.q) < 0.0 then Neg(b.q) else b.q, fraction)
  {
    hide Compose, Inverse, InterpolateCorrection, Moved, Correction, AlphaOf, AtFraction, Spans, Times, Dot, Neg;
    SpanIndex(full, anchors, right);
    SpanIndex(full, anchors, right - 1);
    NeighboursApart(full, anchors, i, right);
    assert SpreadAt(slerp, full, anchors, updates, i);
    var r: nat :| Brackets(anchors, i, r) && updates[i].pose == SpreadPoseAt(slerp, full, anchors, i, r);
    BracketIsUnique(full, anchors, i, r, right);
    AlphaIsProportional(anchors, i, right, fraction);
    var a, b := AnchorCorrection(full, anchors, right - 1), AnchorCorrection(full, anchors, right);
    CorrectionOfMoved(InterpolateCorrection(slerp, a, b, fraction), full[i].pose);
    CorrectionMovesEvenly(slerp, a, b, fraction);
  }

  lemma NeighboursApart(full: seq<State>, anchors: seq<Placed>, i: nat, right: nat)
    requires Spans(full, anchors) && 0 < right < |anchors| && Brackets(anchors, i, right)
    ensures anchors[right - 1].index < anchors[right].index && anchors[right - 1].index <= i <= anchors[right].index
  {
  }

  lemma CorrectionOfMoved(c: SE3, frozen: SE3)
    ensures Correction(frozen, Moved(c, frozen)) == c
  {
    hide Compose, Inverse;
    InverseInverse(Compose(c, Inverse(frozen)));
    CancelRight(c, frozen);
  }
}
