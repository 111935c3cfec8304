/** Optimistic commit on values: what a result bound to a geometry revision may do to live coordinates. */
module CommitModel {
  import opened RigidMotion
  import opened MapEntities

  datatype PoseUpdate = PoseUpdate(id: nat, pose: SE3)
  datatype PointUpdate = PointUpdate(id: nat, pos: Vec3)

  /** Solver output; maxCorrection is None when the metric is not finite. */
  datatype OptimizationResult = OptimizationResult(
    submap: nat, baseGeometry: nat,
    poses: seq<PoseUpdate>, points: seq<PointUpdate>,
    maxCorrection: Option<real>, valid: bool)

  datatype CommitStatus = Committed | Stale | Invalid | NotFound

  /** The coordinates of one map's live objects, and their revision. */
  datatype Live = Live(poses: map<nat, SE3>, points: map<nat, Vec3>, geometry: nat)

  predicate PassesQuality(r: OptimizationResult, maxPoseCorrection: real) {
    r.valid && r.maxCorrection.Some? &&
    !(maxPoseCorrection > 0.0 && r.maxCorrection.value > maxPoseCorrection)
  }

  ghost predicate AllAlive(live: Live, r: OptimizationResult, skip: set<nat>) {
    && (forall i :: 0 <= i < |r.poses| && r.poses[i].id !in skip ==> r.poses[i].id in live.poses)
    && (forall i :: 0 <= i < |r.points| ==> r.points[i].id in live.points)
  }

  function WritePoses(poses: map<nat, SE3>, updates: seq<PoseUpdate>, skip: set<nat>): map<nat, SE3> {
    if updates == [] then poses
    else
      var n := |updates| - 1;
      var before := WritePoses(poses, updates[..n], skip);
      if updates[n].id in skip || updates[n].id !in before then before else before[updates[n].id := updates[n].pose]
  }

  function WritePoints(points: map<nat, Vec3>, updates: seq<PointUpdate>): map<nat, Vec3> {
    if updates == [] then points
    else
      var n := |updates| - 1;
      var before := WritePoints(points, updates[..n]);
      if updates[n].id !in before then before else before[updates[n].id := updates[n].pos]
  }

  /** commit on the map the result was bound to. */
  ghost function Commit(live: Live, r: OptimizationResult, skip: set<nat>,
                        maxPoseCorrection: real): (Live, CommitStatus) {
    if r.baseGeometry != live.geometry then (live, Stale)
    else if !PassesQuality(r, maxPoseCorrection) then (live, Invalid)
    else if !AllAlive(live, r, skip) then (live, Stale)
    else (Live(WritePoses(live.poses, r.poses, skip), WritePoints(live.points, r.points), live.geometry + 1), Committed)
  }

  // ---- all or nothing --------------------------------------------------

  ghost predicate DistinctIds(r: OptimizationResult) {
    && (forall i, j :: 0 <= i < j < |r.poses| ==> r.poses[i].id != r.poses[j].id)
    && (forall i, j :: 0 <= i < j < |r.points| ==> r.points[i].id != r.points[j].id)
  }

  /** What a full write leaves: each updated live id holds its update, every other id what it held. */
  ghost predicate PosesWritten(before: map<nat, SE3>, after: map<nat, SE3>, updates: seq<PoseUpdate>, skip: set<nat>) {
    && after.Keys == before.Keys
    && (forall i :: 0 <= i < |updates| && updates[i].id !in skip && updates[i].id in before ==>
          after[updates[i].id] == updates[i].pose)
    && (forall id :: id in before && (id in skip || forall i :: 0 <= i < |updates| ==> updates[i].id != id) ==>
          after[id] == before[id])
  }

  ghost predicate PointsWritten(before: map<nat, Vec3>, after: map<nat, Vec3>, updates: seq<PointUpdate>) {
    && after.Keys == before.Keys
    && (forall i :: 0 <= i < |updates| && updates[i].id in before ==> after[updates[i].id] == updates[i].pos)
    && (forall id :: id in before && (forall i :: 0 <= i < |updates| ==> updates[i].id != id) ==>
          after[id] == before[id])
  }

  lemma {:induction false} WritePosesWrites(poses: map<nat, SE3>, updates: seq<PoseUpdate>, skip: set<nat>)
    requires forall i, j :: 0 <= i < j < |updates| ==> updates[i].id != updates[j].id
    ensures PosesWritten(poses, WritePoses(poses, updates, skip), updates, skip)
  {
    if updates != [] {
      var n := |updates| - 1;
      WritePosesWrites(poses, updates[..n], skip);
      var before := WritePoses(poses, updates[..n], skip);
      var after := WritePoses(poses, updates, skip);
      forall id | id in poses && (id in skip || forall i :: 0 <= i < |updates| ==> updates[i].id != id)
        ensures after[id] == poses[id]
      {
        assert forall i :: 0 <= i < n ==> updates[..n][i].id == updates[i].id;
        assert before[id] == poses[id];
        assert updates[n].id != id || id in skip;
      }
      forall i | 0 <= i < |updates| && updates[i].id !in skip && updates[i].id in poses
        ensures after[updates[i].id] == updates[i].pose
      {
        if i < n {
          assert updates[..n][i] == updates[i];
        }
      }
    }
  }

  lemma {:induction false} WritePointsWrites(points: map<nat, Vec3>, updates: seq<PointUpdate>)
    requires forall i, j :: 0 <= i < j < |updates| ==> updates[i].id != updates[j].id
    ensures PointsWritten(points, WritePoints(points, updates), updates)
  {
    if updates != [] {
      var n := |updates| - 1;
      WritePointsWrites(points, updates[..n]);
      var before := WritePoints(points, updates[..n]);
      var after := WritePoints(points, updates);
      forall id | id in points && forall i :: 0 <= i < |updates| ==> updates[i].id != id
        ensures after[id] == points[id]
      {
        assert forall i :: 0 <= i < n ==> updates[..n][i].id == updates[i].id;
        assert before[id] == points[id];
      }
      forall i | 0 <= i < |updates| && updates[i].id in points
        ensures after[updates[i].id] == updates[i].pos
      {
        if i < n {
          assert updates[..n][i] == updates[i];
        }
      }
    }
  }

  /** Either nothing moves, or every non-skipped update is written, nothing else is, and geometry advances by one. */
  lemma {:induction false} CommitIsAllOrNothing(live: Live, r: OptimizationResult, skip: set<nat>, limit: real)
    requires DistinctIds(r)
    ensures var (after, status) := Commit(live, r, skip, limit);
            && (status != Committed ==> after == live)
            && (status == Committed ==>
                 && after.geometry == live.geometry + 1 && r.baseGeometry == live.geometry && AllAlive(live, r, skip)
                 && PosesWritten(live.poses, after.poses, r.poses, skip)
                 && PointsWritten(live.points, after.points, r.points))
  {
    WritePosesWrites(live.poses, r.poses, skip);
    WritePointsWrites(live.points, r.points);
  }

  /**
   * Exactly what commits: a result for the present geometry, sound and within the limit if there is one, naming none
   * but live objects and skipped poses. An outdated result is stale before anything else is looked at.
   */
  lemma {:induction false} CommitsExactly(live: Live, r: OptimizationResult, skip: set<nat>, limit: real)
    ensures var status, sound := Commit(live, r, skip, limit).1,
              r.valid && r.maxCorrection.Some? && (limit <= 0.0 || r.maxCorrection.value <= limit);
            && (status == Committed <==>
                  && r.baseGeometry == live.geometry && sound
                  && (forall u :: u in r.poses ==> u.id in skip || u.id in live.poses)
                  && (forall u :: u in r.points ==> u.id in live.points))
            && (status == Invalid <==> r.baseGeometry == live.geometry && !sound)
            && status != NotFound
  {
    if AllAlive(live, r, skip) {
      forall u | u in r.poses
        ensures u.id in skip || u.id in live.poses
      {
        var i :| 0 <= i < |r.poses| && r.poses[i] == u;
      }
      forall u | u in r.points
        ensures u.id in live.points
      {
        var i :| 0 <= i < |r.points| && r.points[i] == u;
      }
    }
  }
}
