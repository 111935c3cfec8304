/** A loop between two submaps: an Atlas transaction that restores everything or passes the residual gate. */
module CrossSubmap {
  import opened Quaternions
  import opened RigidMotion
  import opened Rebasing
  import opened MapEntities
  import opened SlamMap
  import opened CommitModel
  import opened CommitOnMap
  import opened Trajectory
  import opened SubmapAtlas

  type Slerp = (Rotor, Rotor, real) -> Rotor

  // ---- the records of the corrected submap -------------------------------

  /** Record rec belongs to the submap and to its active segment. */
  predicate InSegment(rec: Record, submap: nat, start: nat) {
    rec.submap == submap && rec.frame >= start
  }

  /** Smallest frame of the segment among the first n records. */
  ghost predicate FirstFrame(records: seq<Record>, n: nat, submap: nat, start: nat, first: Option<nat>)
    requires n <= |records|
  {
    match first
    case None => forall i :: 0 <= i < n ==> !InSegment(records[i], submap, start)
    case Some(f) =>
      && (exists i :: 0 <= i < n && InSegment(records[i], submap, start) && records[i].frame == f)
      && (forall i :: 0 <= i < n && InSegment(records[i], submap, start) ==> f <= records[i].frame)
  }

  /** The record after its submap anchor moved from oldWs to newWs. */
  function Faded(slerp: Slerp, rec: Record, submap: nat, poses: map<nat, SE3>, oldWs: SE3, newWs: SE3,
                 start: nat, first: nat, endpoint: nat): Record {
    if rec.submap != submap then rec
    else rec.(T_ca := RebaseTrajectoryForSubmapAnchor(slerp, rec.T_ca, AnchorPose(rec, poses), oldWs, newWs,
                                                      CorrectionAlpha(rec.frame, start, first, endpoint)))
  }

  /** A record before the active segment, or the first of it, keeps its world pose. */
  lemma {:induction false} FadedKeepsEarlyRecords(slerp: Slerp, rec: Record, submap: nat, poses: map<nat, SE3>,
                                                  oldWs: SE3, newWs: SE3, start: nat, first: nat, endpoint: nat)
    requires SlerpLaws(slerp) && rec.submap == submap && rec.frame < TWO64 && endpoint < TWO64
    requires rec.frame < start || (rec.frame == first && first < endpoint)
    ensures WorldPose(Faded(slerp, rec, submap, poses, oldWs, newWs, start, first, endpoint), poses, newWs)
         == WorldPose(rec, poses, oldWs)
  {
    hide Compose, Inverse, RebaseTrajectoryForSubmapAnchor, ComposeAnchoredWorldPose, SlerpLaws;
    if rec.frame >= start {
      AlphaShape(first, first, start, first, endpoint);
    }
    assert rec.frame < start ==> CorrectionAlpha(rec.frame, start, first, endpoint) == 0.0;
    ZeroAlphaKeepsWorldPose(slerp, rec.T_ca, AnchorPose(rec, poses), oldWs, newWs);
  }

  /** From the endpoint on a record moves rigidly with its submap. */
  lemma {:induction false} FadedFollowsFromEndpoint(slerp: Slerp, rec: Record, submap: nat, poses: map<nat, SE3>,
                                                    oldWs: SE3, newWs: SE3, start: nat, first: nat, endpoint: nat)
    requires SlerpLaws(slerp) && rec.submap == submap
    requires start <= rec.frame < TWO64 && first <= rec.frame && endpoint <= rec.frame
    requires start <= first || endpoint <= first
    ensures Same(WorldPose(Faded(slerp, rec, submap, poses, oldWs, newWs, start, first, endpoint), poses, newWs),
                 WorldPose(rec, poses, newWs))
  {
    hide Compose, Inverse, RebaseTrajectoryForSubmapAnchor, ComposeAnchoredWorldPose, SlerpLaws, Same;
    if first < endpoint {
      AlphaShape(rec.frame, rec.frame, start, first, endpoint);
    }
    FullAlphaFollowsAnchor(slerp, rec.T_ca, AnchorPose(rec, poses), oldWs, newWs);
  }

  /** Between first frame and endpoint a record is seen from the anchor moved by the fraction of frames passed. */
  lemma {:induction false} FadedInBetween(slerp: Slerp, rec: Record, submap: nat, poses: map<nat, SE3>,
                                          oldWs: SE3, newWs: SE3, start: nat, first: nat, endpoint: nat, fraction: real)
    requires rec.submap == submap && start <= rec.frame && first <= rec.frame <= endpoint < TWO64 && first < endpoint
    requires fraction * (endpoint - first) as real == (rec.frame - first) as real
    ensures SeenFromFraction(slerp, rec, poses, oldWs, newWs, fraction,
                             WorldPose(Faded(slerp, rec, submap, poses, oldWs, newWs, start, first, endpoint), poses,
                                       newWs))
  {
    hide Compose, Inverse, RebaseTrajectoryForSubmapAnchor, ComposeAnchoredWorldPose, BlendedAnchor, CorrectionAlpha,
      AtFraction;
    AlphaIsProportional(rec.frame, start, first, endpoint);
    SameFactor(CorrectionAlpha(rec.frame, start, first, endpoint), fraction, (endpoint - first) as real,
               (rec.frame - first) as real);
    BlendedWorldPose(slerp, rec.T_ca, AnchorPose(rec, poses), oldWs, newWs, fraction);
    AnchorMovesEvenly(slerp, oldWs, newWs, fraction);
  }

  /** The record at this world pose is seen from an anchor that has made this fraction of the way. */
  ghost predicate SeenFromFraction(slerp: Slerp, rec: Record, poses: map<nat, SE3>, oldWs: SE3, newWs: SE3,
                                   fraction: real, world: SE3) {
    exists t: Vec3 :: AtFraction(oldWs.t, newWs.t, fraction, t) &&
      world == Compose(Compose(rec.T_ca, AnchorPose(rec, poses)), Inverse(SE3(slerp(oldWs.q, newWs.q, fraction), t)))
  }

  /** The first record of the segment is held exactly when the loop endpoint comes after it. */
  lemma {:induction false} FirstRecordHeld(start: nat, first: nat, endpoint: nat)
    requires start <= first < TWO64 && endpoint < TWO64
    ensures CorrectionAlpha(first, start, first, endpoint) == (if first < endpoint then 0.0 else 1.0)
  {
    if first < endpoint {
      AlphaShape(first, first, start, first, endpoint);
    }
  }

  // ---- the transaction -----------------------------------------------------

  /** What the loop was detected on; revalidated before anything is written. */
  datatype Attempt = Attempt(
    localMap: Map, loopMap: Map, submap: nat, loopSubmap: nat,
    current: Frame, loop: Frame, T_loop_curr: SE3, geometry: nat)

  predicate SameIdentity(atlas: Atlas, activeMap: Map, at: Attempt)
    reads atlas, at.localMap, at.loopMap
  {
    var active, loop := IndexOf(atlas.submaps, atlas.activeId), IndexOf(atlas.submaps, at.loopSubmap);
    && activeMap == at.localMap && active.Some? && loop.Some?
    && atlas.activeId == at.submap && atlas.submaps[loop.value].localMap == at.loopMap
    && at.localMap.geometry == at.geometry
    && at.current.id in at.localMap.keyframes && at.localMap.keyframes[at.current.id] == at.current
    && at.loop.id in at.loopMap.keyframes && at.loopMap.keyframes[at.loop.id] == at.loop
  }

  method Rollback(atlas: Atlas, saved: seq<(nat, SE3)>, constraintCount: nat,
                  ghost before: seq<Submap>, ghost constraints: seq<Constraint>)
    requires IdsIncrease(before) && SameButAnchors(before, atlas.submaps) && |saved| == |before| == |atlas.submaps|
    requires forall i :: 0 <= i < |saved| ==> saved[i] == (before[i].id, before[i].T_ws)
    requires |atlas.constraints| == constraintCount + 1 && |constraints| == constraintCount
    requires atlas.constraints[..constraintCount] == constraints
    modifies atlas`submaps, atlas`constraints
    ensures atlas.submaps == before && atlas.constraints == constraints
  {
    hide SameButAnchors, IdsIncrease;
    atlas.RemoveConstraintsFrom(constraintCount);
    atlas.RestoreAnchors(saved, before);
  }

  /** Fade the correction into the records of the submap; the map and the records agree on live anchors. */
  method FadeRecords(traj: PoseRecords, m: Map, slerp: Slerp, submap: nat, oldWs: SE3, newWs: SE3, start: nat,
                     endpoint: nat)
    returns (ghost first: nat)
    requires m.Filed()
    modifies traj
    ensures first == endpoint
         || exists i :: && 0 <= i < |old(traj.records)| && InSegment(old(traj.records)[i], submap, start)
                        && old(traj.records)[i].frame == first
    ensures forall i :: 0 <= i < |old(traj.records)| && InSegment(old(traj.records)[i], submap, start) ==>
      first <= old(traj.records)[i].frame
    ensures |traj.records| == |old(traj.records)|
    ensures forall i :: 0 <= i < |traj.records| ==>
      traj.records[i] == Faded(slerp, old(traj.records)[i], submap, Poses(m), oldWs, newWs, start, first, endpoint)
  {
    hide RebaseTrajectoryForSubmapAnchor, CorrectionAlpha, Poses, Map.Filed;
    var found := FindFirst(traj, submap, start);
    var from := match found case Some(f) => f case None => endpoint;
    first := from;
    LiveKeys(m);
    var i := 0;
    while i < |traj.records|
      invariant 0 <= i <= |traj.records| == |old(traj.records)|
      invariant forall j :: 0 <= j < i ==>
        traj.records[j] == Faded(slerp, old(traj.records)[j], submap, Poses(m), oldWs, newWs, start, first, endpoint)
      invariant forall j :: i <= j < |traj.records| ==> traj.records[j] == old(traj.records)[j]
    {
      var rec := traj.records[i];
      if rec.submap == submap {
        var anchorPose := if rec.anchor in m.keyframes then m.keyframes[rec.anchor].pose else rec.anchorPose;
        var alpha := CorrectionAlpha(rec.frame, start, from, endpoint);
        traj.records := traj.records[i := rec.(
          T_ca := RebaseTrajectoryForSubmapAnchor(slerp, rec.T_ca, anchorPose, oldWs, newWs, alpha))];
      }
      i := i + 1;
    }
  }

  method FindFirst(traj: PoseRecords, submap: nat, start: nat) returns (first: Option<nat>)
    ensures FirstFrame(traj.records, |traj.records|, submap, start, first)
  {
    first := None;
    for i := 0 to |traj.records|
      invariant FirstFrame(traj.records, i, submap, start, first)
    {
      var rec := traj.records[i];
      if rec.submap == submap && rec.frame >= start {
        first := match first
          case None => Some(rec.frame)
          case Some(f) => Some(if rec.frame < f then rec.frame else f);
        assert InSegment(traj.records[i], submap, start);
      }
    }
  }

  function LoopConstraint(at: Attempt): Constraint
    reads at.current`pose, at.loop`pose
  {
    MakeLoopConstraint(at.submap, at.loopSubmap, at.current.pose, at.loop.pose, at.T_loop_curr)
  }

  /**
   * The solver moved something, afterwards every loop edge, the new one included, is within the limits, and the submap
   * found active then is still the query's.
   */
  ghost predicate Acceptable(submaps: seq<Submap>, constraints: seq<Constraint>, at: Attempt, solved: bool,
                             answer: seq<PoseUpdate>, activeThen: Option<nat>, maxSquared: real, minCosine: real)
    reads at.current`pose, at.loop`pose
  {
    && solved && |submaps| >= 2 && NamesOne(submaps, answer)
    && LoopsConsistent(Answered(submaps, answer), constraints + [LoopConstraint(at)], maxSquared, minCosine)
    && activeThen == Some(at.submap)
  }

  /**
   * The new constraint is added and the graph solved. On failure, a violated loop edge or another active submap the
   * Atlas is restored.
   */
  method PlaceAnchors(atlas: Atlas, at: Attempt, solved: bool, answer: seq<PoseUpdate>, activeThen: Option<nat>,
                      maxSquared: real, minCosine: real)
    returns (done: bool)
    requires atlas.Valid()
    modifies atlas`submaps, atlas`constraints
    ensures SameButAnchors(old(atlas.submaps), atlas.submaps)
    ensures done <==>
      Acceptable(old(atlas.submaps), old(atlas.constraints), at, solved, answer, activeThen, maxSquared, minCosine)
    ensures (atlas.submaps, atlas.constraints) ==
            if done then (Answered(old(atlas.submaps), answer), old(atlas.constraints) + [LoopConstraint(at)])
            else (old(atlas.submaps), old(atlas.constraints))
  {
    hide SameButAnchors, IdsIncrease, LoopsConsistent, MakeLoopConstraint, IndexOf, Answered, NamesOne;
    var saved := atlas.SaveAnchors();
    var count := |atlas.constraints|;
    ghost var before, constraints := atlas.submaps, atlas.constraints;
    atlas.AddConstraint(LoopConstraint(at));
    var updated := atlas.Solve(solved, answer);
    SameLength(before, atlas.submaps);
    SameAsItself(before);
    if !updated {
      Rollback(atlas, saved, count, before, constraints);
      return false;
    }
    var consistent, worstSquared, worstCosine := atlas.LoopConstraintsConsistent(maxSquared, minCosine);
    if !consistent {
      Rollback(atlas, saved, count, before, constraints);
      return false;
    }
    if activeThen != Some(at.submap) {
      Rollback(atlas, saved, count, before, constraints);
      return false;
    }
    return true;
  }

  lemma SameAsItself(submaps: seq<Submap>)
    ensures SameButAnchors(submaps, submaps)
  {
  }

  lemma SameLength(before: seq<Submap>, after: seq<Submap>)
    requires SameButAnchors(before, after)
    ensures |before| == |after|
  {
  }

  /** The records after a committed loop that moved the submap anchor from oldWs to newWs. */
  ghost predicate RecordsFaded(before: seq<Record>, after: seq<Record>, slerp: Slerp, submap: nat, poses: map<nat, SE3>,
                               oldWs: SE3, newWs: SE3, start: nat, first: nat, endpoint: nat) {
    && |after| == |before|
    && (oldWs != newWs ==>
         && (first == endpoint ||
             exists i :: 0 <= i < |before| && InSegment(before[i], submap, start) && before[i].frame == first)
         && forall i :: 0 <= i < |before| && InSegment(before[i], submap, start) ==> first <= before[i].frame)
    && forall i :: 0 <= i < |after| ==>
         after[i] == if oldWs == newWs then before[i]
                     else Faded(slerp, before[i], submap, poses, oldWs, newWs, start, first, endpoint)
  }

  /**
   * After a committed loop what came before the segment stays where it was published, and so does the segment's first
   * record if the endpoint lies behind it; from there to the endpoint a record is seen from the submap anchor moved by
   * the fraction of frames passed; what lies at or after the endpoint moves with the submap, and other submaps' records
   * are untouched.
   */
  lemma {:induction false} CommittedLoopWorldPoses(before: seq<Record>, after: seq<Record>, slerp: Slerp, submap: nat,
                                                   poses: map<nat, SE3>, oldWs: SE3, newWs: SE3,
                                                   start: nat, first: nat, endpoint: nat, i: nat)
    requires RecordsFaded(before, after, slerp, submap, poses, oldWs, newWs, start, first, endpoint)
    requires SlerpLaws(slerp) && i < |before| && before[i].frame < TWO64 && endpoint < TWO64
    ensures before[i].submap != submap ==> after[i] == before[i]
    ensures before[i].submap == submap && (before[i].frame < start || before[i].frame == first < endpoint) ==>
      WorldPose(after[i], poses, newWs) == WorldPose(before[i], poses, oldWs)
    ensures before[i].submap == submap && before[i].frame >= start
            && first <= before[i].frame && endpoint <= before[i].frame ==>
      Same(WorldPose(after[i], poses, newWs), WorldPose(before[i], poses, newWs))
    ensures before[i].submap == submap && oldWs != newWs && before[i].frame >= start
            && first <= before[i].frame <= endpoint && first < endpoint ==>
      SeenFromFraction(slerp, before[i], poses, oldWs, newWs,
                       (before[i].frame - first) as real / (endpoint - first) as real,
                       WorldPose(after[i], poses, newWs))
  {
    hide WorldPose, SlerpLaws, CorrectionAlpha, RebaseTrajectoryForSubmapAnchor, SeenFromFraction;
    var rec := before[i];
    if rec.submap == submap && oldWs != newWs {
      if rec.frame < start || rec.frame == first < endpoint {
        FadedKeepsEarlyRecords(slerp, rec, submap, poses, oldWs, newWs, start, first, endpoint);
      }
      if rec.frame >= start && first <= rec.frame && endpoint <= rec.frame {
        FadedFollowsFromEndpoint(slerp, rec, submap, poses, oldWs, newWs, start, first, endpoint);
      }
      if rec.frame >= start && first <= rec.frame <= endpoint && first < endpoint {
        var fraction := (rec.frame - first) as real / (endpoint - first) as real;
        FadedInBetween(slerp, rec, submap, poses, oldWs, newWs, start, first, endpoint, fraction);
      }
    }
  }

  /** The whole transaction; activeThen is the active submap found after the foreign solve. */
  method CloseLoop(atlas: Atlas, traj: PoseRecords, activeMap: Map, at: Attempt, solved: bool, answer: seq<PoseUpdate>,
                   activeThen: Option<nat>, slerp: Slerp, start: nat, maxSquared: real, minCosine: real)
    returns (done: bool, ghost oldWs: SE3, ghost newWs: SE3, ghost first: nat)
    requires atlas.Valid() && at.localMap.Filed()
    modifies atlas`submaps, atlas`constraints, traj
    ensures done <==>
      && old(SameIdentity(atlas, activeMap, at))
      && Acceptable(old(atlas.submaps), old(atlas.constraints), at, solved, answer, activeThen, maxSquared, minCosine)
    ensures (atlas.submaps, atlas.constraints) ==
            if done then (Answered(old(atlas.submaps), answer), old(atlas.constraints) + [LoopConstraint(at)])
            else (old(atlas.submaps), old(atlas.constraints))
    ensures !done ==> traj.records == old(traj.records)
    ensures done ==>
      && IsAnchor(old(atlas.submaps), at.submap, oldWs) && IsAnchor(atlas.submaps, at.submap, newWs)
      && RecordsFaded(old(traj.records), traj.records, slerp, at.submap, Poses(at.localMap), oldWs, newWs, start, first,
                      at.current.id)
  {
    hide SameButAnchors, IdsIncrease, Acceptable, LoopConstraint, Answered, Faded, Poses, Map.Filed, IndexOf;
    oldWs, newWs, first := at.T_loop_curr, at.T_loop_curr, 0;
    if !SameIdentity(atlas, activeMap, at) {
      return false, oldWs, newWs, first;
    }
    var active := IndexOf(atlas.submaps, at.submap);
    var from := atlas.submaps[active.value].T_ws;
    done := PlaceAnchors(atlas, at, solved, answer, activeThen, maxSquared, minCosine);
    if !done {
      return;
    }
    SameIndex(old(atlas.submaps), atlas.submaps, at.submap);
    var corrected := IndexOf(atlas.submaps, at.submap);
    var to := atlas.submaps[corrected.value].T_ws;
    oldWs, newWs := from, to;
    if from != to {
      first := FadeRecords(traj, at.localMap, slerp, at.submap, from, to, start, at.current.id);
    }
  }

  ghost predicate IsAnchor(submaps: seq<Submap>, id: nat, T_ws: SE3) {
    IndexOf(submaps, id).Some? && submaps[IndexOf(submaps, id).value].T_ws == T_ws
  }
}
