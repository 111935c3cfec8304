/** The committer on the live map: updates written through the registered objects, under the map lock. */
module CommitOnMap {
  import opened RigidMotion
  import opened CommitModel
  import opened SlamMap

  /** The local poses of the registered keyframes. */
  ghost function Poses(m: Map): map<nat, SE3>
    reads m`keyframes, m`frameSet, m.frameSet`pose
  {
    map k | k in m.keyframes && m.keyframes[k] in m.frameSet :: m.keyframes[k].pose
  }

  ghost function Positions(m: Map): map<nat, Vec3>
    reads m`mapPoints, m`pointSet, m.pointSet`pos
  {
    map id | id in m.mapPoints && m.mapPoints[id] in m.pointSet :: m.mapPoints[id].pos
  }

  /** The coordinates and revision a commit looks at. */
  ghost function LiveOf(m: Map): Live
    reads m`keyframes, m`frameSet, m.frameSet`pose, m`mapPoints, m`pointSet, m.pointSet`pos, m`geometry
  {
    Live(Poses(m), Positions(m), m.geometry)
  }

  lemma LiveKeys(m: Map)
    requires m.Filed()
    ensures Poses(m).Keys == m.keyframes.Keys && Positions(m).Keys == m.mapPoints.Keys
    ensures forall k :: k in m.keyframes ==> Poses(m)[k] == m.keyframes[k].pose
    ensures forall id :: id in m.mapPoints ==> Positions(m)[id] == m.mapPoints[id].pos
  {
  }

  method MovePose(m: Map, k: nat, pose: SE3)
    requires m.Filed() && k in m.keyframes
    modifies m.frameSet`pose
    ensures Poses(m) == old(Poses(m))[k := pose]
  {
    m.keyframes[k].pose := pose;
  }

  method MovePoint(m: Map, id: nat, pos: Vec3)
    requires m.Filed() && id in m.mapPoints
    modifies m.pointSet`pos
    ensures Positions(m) == old(Positions(m))[id := pos]
  {
    m.mapPoints[id].pos := pos;
  }

  method PosesAlive(m: Map, updates: seq<PoseUpdate>, skip: set<nat>) returns (alive: bool)
    requires m.Filed()
    ensures alive <==> forall i :: 0 <= i < |updates| && updates[i].id !in skip ==> updates[i].id in Poses(m)
  {
    for i := 0 to |updates|
      invariant forall j :: 0 <= j < i && updates[j].id !in skip ==> updates[j].id in m.keyframes
    {
      if updates[i].id !in skip && updates[i].id !in m.keyframes {
        return false;
      }
    }
    return true;
  }

  method PointsAlive(m: Map, updates: seq<PointUpdate>) returns (alive: bool)
    requires m.Filed()
    ensures alive <==> forall i :: 0 <= i < |updates| ==> updates[i].id in Positions(m)
  {
    for i := 0 to |updates|
      invariant forall j :: 0 <= j < i ==> updates[j].id in m.mapPoints
    {
      if updates[i].id !in m.mapPoints {
        return false;
      }
    }
    return true;
  }

  method ApplyPoses(m: Map, updates: seq<PoseUpdate>, skip: set<nat>)
    requires m.Filed()
    modifies m.frameSet`pose
    ensures Poses(m) == WritePoses(old(Poses(m)), updates, skip)
  {
    hide Poses;
    LiveKeys(m);
    var i := 0;
    while i < |updates|
      invariant 0 <= i <= |updates| && m.Filed() && Poses(m).Keys == m.keyframes.Keys
      invariant Poses(m) == WritePoses(old(Poses(m)), updates[..i], skip)
    {
      assert updates[..i + 1][..i] == updates[..i];
      if updates[i].id !in skip && updates[i].id in m.keyframes {
        MovePose(m, updates[i].id, updates[i].pose);
      }
      i := i + 1;
    }
    assert updates[..i] == updates;
  }

  method ApplyPoints(m: Map, updates: seq<PointUpdate>)
    requires m.Filed()
    modifies m.pointSet`pos
    ensures Positions(m) == WritePoints(old(Positions(m)), updates)
  {
    hide Positions;
    LiveKeys(m);
    var i := 0;
    while i < |updates|
      invariant 0 <= i <= |updates| && m.Filed() && Positions(m).Keys == m.mapPoints.Keys
      invariant Positions(m) == WritePoints(old(Positions(m)), updates[..i])
    {
      assert updates[..i + 1][..i] == updates[..i];
      if updates[i].id in m.mapPoints {
        MovePoint(m, updates[i].id, updates[i].pos);
      }
      i := i + 1;
    }
    assert updates[..i] == updates;
  }

  /**
   * The one commit path: a null map, another map instance, a moved revision, a bad or a dangling result write nothing.
   */
  method CommitResult(m: Map?, r: OptimizationResult, skip: set<nat>, limit: real,
                      expected: Map?) returns (status: CommitStatus)
    requires m != null ==> m.Filed()
    modifies (if m == null then {} else {m})`geometry, (if m == null then {} else m.frameSet)`pose
    modifies (if m == null then {} else m.pointSet)`pos
    ensures m == null ==> status == NotFound
    ensures m != null && expected != null && m != expected ==> status == Stale && LiveOf(m) == old(LiveOf(m))
    ensures m != null && (expected == null || m == expected) ==>
      (LiveOf(m), status) == Commit(old(LiveOf(m)), r, skip, limit)
  {
    hide Poses, Positions, Commit;
    if m == null {
      return NotFound;
    }
    if expected != null && m != expected {
      return Stale;
    }
    status := CommitOn(m, r, skip, limit);
  }

  /** The checks and the write on the map the result was bound to. */
  method CommitOn(m: Map, r: OptimizationResult, skip: set<nat>, limit: real) returns (status: CommitStatus)
    requires m.Filed()
    modifies m`geometry, m.frameSet`pose, m.pointSet`pos
    ensures (LiveOf(m), status) == Commit(old(LiveOf(m)), r, skip, limit)
  {
    hide Poses, Positions, WritePoses, WritePoints, Map.Filed;
    if r.baseGeometry != m.geometry {
      return Stale;
    }
    if !PassesQuality(r, limit) {
      return Invalid;
    }
    var posesAlive := PosesAlive(m, r.poses, skip);
    if !posesAlive {
      return Stale;
    }
    var pointsAlive := PointsAlive(m, r.points);
    if !pointsAlive {
      return Stale;
    }
    ApplyPoses(m, r.poses, skip);
    ApplyPoints(m, r.points);
    m.geometry := m.geometry + 1;
    return Committed;
  }
}
