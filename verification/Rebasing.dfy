/** The pose-rebasing formulas of loop_graph.cpp, vo.cpp and atlas.cpp, and what each one keeps fixed. */
module Rebasing {
  import opened Quaternions
  import opened RigidMotion

  // ---- formulas --------------------------------------------------------

  datatype CameraSplit = CameraSplit(T_oc: SE3, T_wo: SE3)

  function SplitGlobalCameraPose(T_wc: SE3, T_oc: SE3): CameraSplit {
    CameraSplit(T_oc, Compose(T_wc, Inverse(T_oc)))
  }

  function RebaseTailPose(tail: SE3, oldEnd: SE3, newEnd: SE3): SE3 {
    Compose(Compose(tail, Inverse(oldEnd)), newEnd)
  }

  function RebaseTailPoint(p: Vec3, oldRef: SE3, newRef: SE3): Vec3 {
    Act(Compose(Inverse(newRef), oldRef), p)
  }

  function RebaseAnchoredFramePose(frame: SE3, oldRef: SE3, newRef: SE3): SE3 {
    Compose(Compose(frame, Inverse(oldRef)), newRef)
  }

  function RebaseTrajectoryAnchor(T_ca: SE3, oldAnchor: SE3, newAnchor: SE3): SE3 {
    Compose(Compose(T_ca, oldAnchor), Inverse(newAnchor))
  }

  function ComposeAnchoredWorldPose(T_ca: SE3, anchor: SE3, T_ws: SE3): SE3 {
    Compose(T_ca, Compose(anchor, Inverse(T_ws)))
  }

  function RebaseWorldPoseForSubmapAnchor(T_cw: SE3, oldWs: SE3, newWs: SE3): SE3 {
    Compose(Compose(T_cw, oldWs), Inverse(newWs))
  }

  function CrossSubmapRelative(current: SE3, loop: SE3, T_loop_curr: SE3): SE3 {
    Compose(Compose(Inverse(current), Inverse(T_loop_curr)), loop)
  }

  // ---- spherical interpolation -----------------------------------------

  /** Eigen's slerp is a foreign call; these endpoint and equal-argument laws are all that is used. */
  ghost predicate SlerpLaws(slerp: (Rotor, Rotor, real) -> Rotor) {
    && (forall a: Rotor, b: Rotor :: slerp(a, b, 0.0) == a)
    && (forall a: Rotor, b: Rotor :: slerp(a, b, 1.0) == if Dot(a, b) < 0.0 then Neg(b) else b)
    && (forall a: Rotor, b: Rotor, alpha :: (b == a || b == Neg(a)) ==> slerp(a, b, alpha) == a)
  }

  function Clamp01(x: real): real {
    if x < 0.0 then 0.0 else if x > 1.0 then 1.0 else x
  }

  /** Correction blend between two anchors, on one hemisphere. */
  function InterpolateCorrection(slerp: (Rotor, Rotor, real) -> Rotor,
                                 a: SE3, b: SE3, alpha: real): SE3 {
    var t := Clamp01(alpha);
    RotateNeg(b.q, ORIGIN);
    var qb: Rotor := if Dot(a.q, b.q) < 0.0 then Neg(b.q) else b.q;
    SE3(slerp(a.q, qb, t), Blend(a.t, b.t, t))
  }

  /** The submap anchor a record is shown at while the correction fades in. */
  function BlendedAnchor(slerp: (Rotor, Rotor, real) -> Rotor, oldWs: SE3, newWs: SE3, alpha: real): SE3 {
    var t := Clamp01(alpha);
    SE3(slerp(oldWs.q, newWs.q, t), Blend(oldWs.t, newWs.t, t))
  }

  function RebaseTrajectoryForSubmapAnchor(slerp: (Rotor, Rotor, real) -> Rotor,
                                           T_ca: SE3, anchor: SE3,
                                           oldWs: SE3, newWs: SE3, alpha: real): SE3 {
    var blended := BlendedAnchor(slerp, oldWs, newWs, alpha);
    var desired := Compose(Compose(T_ca, anchor), Inverse(blended));
    Compose(Compose(desired, newWs), Inverse(anchor))
  }

  const TWO64: int := 0x1_0000_0000_0000_0000

  /** Unsigned 64-bit subtraction. */
  function Sub64(a: nat, b: nat): (r: nat) {
    (a - b) % TWO64
  }

  function CorrectionAlpha(frame: nat, segmentStart: nat, first: nat, endpoint: nat): real {
    if frame < segmentStart then 0.0
    else if endpoint <= first then 1.0
    else Clamp01(Sub64(frame, first) as real / (endpoint - first) as real)
  }

  // ---- what each formula keeps fixed -----------------------------------

  lemma SplitRecomposes(T_wc: SE3, T_oc: SE3)
    ensures var s := SplitGlobalCameraPose(T_wc, T_oc);
            Compose(s.T_wo, s.T_oc) == T_wc
  {
    hide Compose, Inverse;
    CancelRight(T_wc, T_oc);
  }

  /** A rebased tail pose keeps its pose relative to the endpoint, and no other pose does. */
  lemma TailPoseFollowsEndpoint(tail: SE3, oldEnd: SE3, newEnd: SE3, result: SE3)
    ensures result == RebaseTailPose(tail, oldEnd, newEnd)
       <==> Compose(result, Inverse(newEnd)) == Compose(tail, Inverse(oldEnd))
  {
    hide Compose, Inverse;
    CancelRight(Compose(tail, Inverse(oldEnd)), newEnd);
    CancelRight(result, newEnd);
  }

  lemma TailPosesKeepRelative(a: SE3, b: SE3, oldEnd: SE3, newEnd: SE3)
    ensures Compose(RebaseTailPose(a, oldEnd, newEnd), Inverse(RebaseTailPose(b, oldEnd, newEnd)))
         == Compose(a, Inverse(b))
  {
    hide Compose, Inverse;
    var ra := Compose(a, Inverse(oldEnd));
    var rb := Compose(b, Inverse(oldEnd));
    InverseCompose(rb, newEnd);
    ComposeAssoc(Compose(ra, newEnd), Inverse(newEnd), Inverse(rb));
    CancelRight(ra, newEnd);
    InverseCompose(b, Inverse(oldEnd));
    InverseInverse(oldEnd);
    ComposeAssoc(ra, oldEnd, Inverse(b));
    CancelRight(a, oldEnd);
  }

  /** A rebased point has the same camera coordinates in its reference keyframe; that determines it. */
  lemma TailPointFollowsReference(p: Vec3, oldRef: SE3, newRef: SE3, result: Vec3)
    ensures result == RebaseTailPoint(p, oldRef, newRef) <==> Act(newRef, result) == Act(oldRef, p)
  {
    hide Compose, Inverse, Act;
    ActCompose(Inverse(newRef), oldRef, p);
    ActInverse(newRef, Act(oldRef, p));
    ActInverse(newRef, result);
  }

  /** Re-anchoring a record leaves the composed world pose where it was. */
  lemma ReanchoredWorldPose(T_ca: SE3, oldAnchor: SE3, newAnchor: SE3, T_ws: SE3)
    ensures ComposeAnchoredWorldPose(RebaseTrajectoryAnchor(T_ca, oldAnchor, newAnchor), newAnchor, T_ws)
         == ComposeAnchoredWorldPose(T_ca, oldAnchor, T_ws)
  {
    hide Compose, Inverse;
    var inner := Compose(T_ca, oldAnchor);
    ComposeAssoc(Compose(inner, Inverse(newAnchor)), newAnchor, Inverse(T_ws));
    CancelRight(inner, newAnchor);
    ComposeAssoc(T_ca, oldAnchor, Inverse(T_ws));
  }

  /** After the blend the record's world pose is its local pose seen from the blended anchor. */
  lemma BlendedWorldPose(slerp: (Rotor, Rotor, real) -> Rotor, T_ca: SE3, anchor: SE3,
                         oldWs: SE3, newWs: SE3, alpha: real)
    ensures ComposeAnchoredWorldPose(
              RebaseTrajectoryForSubmapAnchor(slerp, T_ca, anchor, oldWs, newWs, alpha), anchor, newWs)
         == Compose(Compose(T_ca, anchor), Inverse(BlendedAnchor(slerp, oldWs, newWs, alpha)))
  {
    hide Compose, Inverse, Blend;
    var blended := BlendedAnchor(slerp, oldWs, newWs, alpha);
    var desired := Compose(Compose(T_ca, anchor), Inverse(blended));
    ComposeAssoc(Compose(Compose(desired, newWs), Inverse(anchor)), anchor, Inverse(newWs));
    CancelRight(Compose(desired, newWs), anchor);
    CancelRight(desired, newWs);
  }

  lemma BlendEnds(a: Vec3, b: Vec3)
    ensures Blend(a, b, 0.0) == a && Blend(a, b, 1.0) == b
  {
  }

  lemma BlendEqual(a: Vec3, alpha: real)
    ensures Blend(a, a, alpha) == a
  {
  }

  /** Blend factor 0: the world pose of the record does not move. */
  lemma ZeroAlphaKeepsWorldPose(slerp: (Rotor, Rotor, real) -> Rotor, T_ca: SE3, anchor: SE3,
                                oldWs: SE3, newWs: SE3)
    requires SlerpLaws(slerp)
    ensures ComposeAnchoredWorldPose(
              RebaseTrajectoryForSubmapAnchor(slerp, T_ca, anchor, oldWs, newWs, 0.0), anchor, newWs)
         == ComposeAnchoredWorldPose(T_ca, anchor, oldWs)
  {
    hide Compose, Inverse, Blend;
    BlendedWorldPose(slerp, T_ca, anchor, oldWs, newWs, 0.0);
    BlendEnds(oldWs.t, newWs.t);
    ComposeAssoc(T_ca, anchor, Inverse(oldWs));
  }

  /** Blend factor 1: the record follows the new anchor as a rigid part of the submap. */
  lemma FullAlphaFollowsAnchor(slerp: (Rotor, Rotor, real) -> Rotor, T_ca: SE3, anchor: SE3,
                               oldWs: SE3, newWs: SE3)
    requires SlerpLaws(slerp)
    ensures Same(ComposeAnchoredWorldPose(
                   RebaseTrajectoryForSubmapAnchor(slerp, T_ca, anchor, oldWs, newWs, 1.0), anchor, newWs),
                 ComposeAnchoredWorldPose(T_ca, anchor, newWs))
  {
    hide Compose, Inverse, Blend;
    BlendedWorldPose(slerp, T_ca, anchor, oldWs, newWs, 1.0);
    BlendEnds(oldWs.t, newWs.t);
    var blended := SE3(slerp(oldWs.q, newWs.q, 1.0), newWs.t);
    assert Same(blended, newWs);
    SameInverse(blended, newWs);
    SameCompose(Inverse(blended), Inverse(newWs), Compose(T_ca, anchor));
    ComposeAssoc(T_ca, anchor, Inverse(newWs));
  }

  /** The loop constraint says both submaps put the camera at one world pose. */
  lemma CrossSubmapConstraintMeaning(curWs: SE3, loopWs: SE3, current: SE3, loop: SE3, T_loop_curr: SE3)
    ensures loopWs == Compose(curWs, CrossSubmapRelative(current, loop, T_loop_curr))
       <==> Compose(current, Inverse(curWs)) == Compose(Compose(Inverse(T_loop_curr), loop), Inverse(loopWs))
  {
    hide Compose, Inverse;
    var p := Compose(Inverse(T_loop_curr), loop);
    ComposeAssoc(Inverse(current), Inverse(T_loop_curr), loop);
    ComposeAssoc(curWs, Inverse(current), p);
    InverseCompose(current, Inverse(curWs));
    InverseInverse(curWs);
    var q := Compose(current, Inverse(curWs));
    // the left side is loopWs == Inverse(q) * p, the right side q == p * Inverse(loopWs)
    CancelLeft(q, p);
    CancelRight(p, loopWs);
    CancelRight(q, loopWs);
    CancelLeft(q, loopWs);
  }

  /** Moving the submap anchor keeps the camera pose inside the submap. */
  lemma AnchorMoveKeepsLocalPose(T_cw: SE3, oldWs: SE3, newWs: SE3)
    ensures Compose(RebaseWorldPoseForSubmapAnchor(T_cw, oldWs, newWs), newWs) == Compose(T_cw, oldWs)
  {
    hide Compose, Inverse;
    CancelRight(Compose(T_cw, oldWs), newWs);
  }

  lemma InterpolationEnds(slerp: (Rotor, Rotor, real) -> Rotor, a: SE3, b: SE3)
    requires SlerpLaws(slerp)
    ensures InterpolateCorrection(slerp, a, b, 0.0) == a
    ensures Same(InterpolateCorrection(slerp, a, b, 1.0), b)
  {
    hide Blend, Times;
    BlendEnds(a.t, b.t);
    RotateNeg(b.q, ORIGIN);
    assert Dot(a.q, b.q) < 0.0 ==> Dot(a.q, Neg(b.q)) >= 0.0 by {
      hide Dot;
      DotNeg(a.q, b.q);
    }
  }

  lemma DotNeg(a: Quat, b: Quat)
    ensures Dot(a, Neg(b)) == -Dot(a, b)
  {
    hide Times;
    TimesSigns(a.w, b);
    TimesSigns(a.x, b);
    TimesSigns(a.y, b);
    TimesSigns(a.z, b);
  }

  lemma InterpolationOfEqual(slerp: (Rotor, Rotor, real) -> Rotor, a: SE3, b: SE3, alpha: real)
    requires SlerpLaws(slerp) && Same(a, b)
    ensures InterpolateCorrection(slerp, a, b, alpha) == a
  {
    hide Blend, Times, Dot;
    BlendEqual(a.t, Clamp01(alpha));
    RotateNeg(b.q, ORIGIN);
    MulConj(b.q);
  }

  /** The laws are satisfiable: jump to the far end only at 1. */
  lemma SlerpLawsSatisfiable(slerp: (Rotor, Rotor, real) -> Rotor)
    requires forall a: Rotor, b: Rotor, t: real ::
               slerp(a, b, t) == if t != 1.0 then a else if Dot(a, b) < 0.0 then Neg(b) else b
    ensures SlerpLaws(slerp)
  {
    hide Times;
    forall a: Rotor, b: Rotor, t: real | b == a || b == Neg(a)
      ensures slerp(a, b, t) == a
    {
      DotNeg(a, a);
    }
  }

  /** p lies on the way from a to b, the fraction alpha of it done. */
  ghost predicate AtFraction(a: Vec3, b: Vec3, alpha: real, p: Vec3) {
    && p.x - a.x == alpha * (b.x - a.x) && p.y - a.y == alpha * (b.y - a.y) && p.z - a.z == alpha * (b.z - a.z)
  }

  lemma BlendIsLinear(a: Vec3, b: Vec3, alpha: real)
    ensures AtFraction(a, b, alpha, Blend(a, b, alpha))
  {
    Distributes(a.x, b.x, alpha);
    Distributes(a.y, b.y, alpha);
    Distributes(a.z, b.z, alpha);
  }

  lemma Distributes(a: real, b: real, alpha: real)
    ensures (1.0 - alpha) * a + alpha * b - a == alpha * (b - a)
  {
  }

  /** Between the ends the blended anchor goes straight, and turns by the slerp of the same factor. */
  lemma AnchorMovesEvenly(slerp: (Rotor, Rotor, real) -> Rotor, oldWs: SE3, newWs: SE3, alpha: real)
    requires 0.0 <= alpha <= 1.0
    ensures AtFraction(oldWs.t, newWs.t, alpha, BlendedAnchor(slerp, oldWs, newWs, alpha).t)
    ensures BlendedAnchor(slerp, oldWs, newWs, alpha).q == slerp(oldWs.q, newWs.q, alpha)
  {
    hide Blend, AtFraction;
    BlendIsLinear(oldWs.t, newWs.t, alpha);
  }

  /** So does the correction between two anchors, by the shorter turn. */
  lemma CorrectionMovesEvenly(slerp: (Rotor, Rotor, real) -> Rotor, a: SE3, b: SE3, alpha: real)
    requires 0.0 <= alpha <= 1.0
    ensures Dot(Neg(b.q), Neg(b.q)) == 1.0
    ensures AtFraction(a.t, b.t, alpha, InterpolateCorrection(slerp, a, b, alpha).t)
    ensures InterpolateCorrection(slerp, a, b, alpha).q
         == slerp(a.q, if Dot(a.q, b.q) < 0.0 then Neg(b.q) else b.q, alpha)
  {
    hide Blend, AtFraction, Times;
    BlendIsLinear(a.t, b.t, alpha);
    RotateNeg(b.q, ORIGIN);
  }

  // ---- the blend factor ------------------------------------------------

  /** Between first frame and endpoint the factor is the fraction of frames passed. */
  lemma AlphaIsProportional(frame: nat, segmentStart: nat, first: nat, endpoint: nat)
    requires segmentStart <= frame && first <= frame <= endpoint < TWO64 && first < endpoint
    ensures var alpha := CorrectionAlpha(frame, segmentStart, first, endpoint);
            0.0 <= alpha <= 1.0 && alpha * (endpoint - first) as real == (frame - first) as real
  {
    hide Sub64;
    SmallDifference(frame, first);
    Ratios((frame - first) as real, (endpoint - first) as real, (endpoint - first) as real);
    FullRatio((endpoint - first) as real);
  }

  lemma SameFactor(a: real, b: real, span: real, part: real)
    requires a * span == part && b * span == part && span > 0.0
    ensures a == b
  {
  }

  lemma FullRatio(span: real)
    requires span > 0.0
    ensures span / span == 1.0
  {
  }

  /** With 64-bit ids the factor is 0 up to the first frame, 1 from the endpoint on, and monotone. */
  lemma AlphaShape(frame: nat, later: nat, segmentStart: nat, first: nat, endpoint: nat)
    requires segmentStart <= first < endpoint < TWO64 && frame <= later < TWO64
    requires segmentStart <= frame ==> first <= frame
    requires segmentStart <= later ==> first <= later
    ensures 0.0 <= CorrectionAlpha(frame, segmentStart, first, endpoint)
                <= CorrectionAlpha(later, segmentStart, first, endpoint) <= 1.0
    ensures CorrectionAlpha(first, segmentStart, first, endpoint) == 0.0
    ensures frame >= endpoint ==> CorrectionAlpha(frame, segmentStart, first, endpoint) == 1.0
  {
    hide Sub64;
    var span := (endpoint - first) as real;
    SmallDifference(first, first);
    Ratios(0.0, 0.0, span);
    if segmentStart <= frame {
      SmallDifference(frame, first);
      SmallDifference(later, first);
      Ratios((frame - first) as real, (later - first) as real, span);
    }
  }

  lemma SmallDifference(a: nat, b: nat)
    requires b <= a < TWO64
    ensures Sub64(a, b) == a - b
  {
  }

  lemma Ratios(a: real, b: real, span: real)
    requires 0.0 <= a <= b && span > 0.0
    ensures 0.0 <= a / span <= b / span
    ensures a >= span ==> a / span >= 1.0
    ensures a == 0.0 ==> a / span == 0.0
  {
    var x, y := a / span, b / span;
    assert x * span == a && y * span == b;
    PositiveFactor(x, span);
    PositiveFactor(y - x, span);
    PositiveFactor(x - 1.0, span);
  }

  lemma PositiveFactor(x: real, span: real)
    requires span > 0.0
    ensures x * span >= 0.0 <==> x >= 0.0
  {
  }
}
