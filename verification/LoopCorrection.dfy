/** What a same-submap loop transaction writes, on values, and what it leaves where it was. */
module LoopCorrection {
  import opened Quaternions
  import opened RigidMotion
  import opened Rebasing
  import opened MapEntities
  import opened Ordering
  import opened CommitModel

  /** Taken under the map lock: coordinates, the earliest observer of every observed point, the last keyframe. */
  datatype Frozen = Frozen(
    poses: map<nat, SE3>, points: map<nat, Vec3>,
    refs: map<nat, nat>, endpoint: nat, geometry: nat)

  ghost predicate WellFrozen(f: Frozen) {
    && f.endpoint in f.poses
    && f.refs.Keys <= f.points.Keys
    && (forall id :: id in f.refs ==> f.refs[id] in f.poses)
  }

  /** Computed outside the lock: a pose for every frozen keyframe, a position for some frozen points. */
  datatype Solution = Solution(poses: map<nat, SE3>, points: map<nat, Vec3>)

  ghost predicate Solves(s: Solution, f: Frozen) {
    s.poses.Keys == f.poses.Keys && s.points.Keys <= f.points.Keys
  }

  /** With global BA off, every observed point follows its earliest observer. */
  function PoseGraphSolution(f: Frozen, propagated: map<nat, SE3>): (s: Solution)
    requires WellFrozen(f) && propagated.Keys == f.poses.Keys
    ensures Solves(s, f)
  {
    Solution(propagated,
             map id | id in f.refs :: RebaseTailPoint(f.points[id], f.poses[f.refs[id]], propagated[f.refs[id]]))
  }

  /** Poses after the commit: frozen keyframes take the solution, later ones follow the frozen endpoint. */
  function NewPose(f: Frozen, s: Solution, live: map<nat, SE3>, k: nat): SE3
    requires WellFrozen(f) && Solves(s, f) && k in live
  {
    if k in s.poses then s.poses[k]
    else RebaseTailPose(live[k], f.poses[f.endpoint], s.poses[f.endpoint])
  }

  /** The first observer that is a registered keyframe. */
  function Reference(observers: set<nat>, live: map<nat, SE3>): Option<nat> {
    var known := observers * live.Keys;
    if known == {} then None else Some(Least(known))
  }

  function TailPoint(f: Frozen, s: Solution, live: map<nat, SE3>, observers: set<nat>, p: Vec3): Vec3
    requires WellFrozen(f) && Solves(s, f)
  {
    match Reference(observers, live)
    case Some(k) => RebaseTailPoint(p, live[k], NewPose(f, s, live, k))
    case None => RebaseTailPoint(p, f.poses[f.endpoint], s.poses[f.endpoint])
  }

  function NewPoint(f: Frozen, s: Solution, live: Live, observers: set<nat>, id: nat): Vec3
    requires WellFrozen(f) && Solves(s, f) && id in live.points
  {
    if id in f.points then if id in s.points then s.points[id] else live.points[id]
    else TailPoint(f, s, live.poses, observers, live.points[id])
  }

  type Observers = map<nat, set<nat>>

  function ObserversOf(o: Observers, id: nat): set<nat> {
    if id in o then o[id] else {}
  }

  /** The whole write of a committed loop. */
  function Corrected(f: Frozen, s: Solution, live: Live, o: Observers): Live
    requires WellFrozen(f) && Solves(s, f)
  {
    Live(map k | k in live.poses :: NewPose(f, s, live.poses, k),
         map id | id in live.points :: NewPoint(f, s, live, ObserversOf(o, id), id),
         live.geometry + 1)
  }

  /** Nothing that was frozen has gone or moved; keyframes and points may have been appended. */
  ghost predicate PrefixIntact(f: Frozen, live: Live) {
    && f.geometry == live.geometry
    && f.poses.Keys <= live.poses.Keys && f.points.Keys <= live.points.Keys
    && (forall k :: k in f.poses ==> live.poses[k] == f.poses[k])
    && (forall id :: id in f.points ==> live.points[id] == f.points[id])
  }

  // ---- what a committed loop keeps --------------------------------------

  /** Appended keyframes keep their pose relative to the frozen endpoint and to each other. */
  lemma {:induction false} TailKeepsRelativePoses(f: Frozen, s: Solution, live: Live, o: Observers, a: nat, b: nat)
    requires WellFrozen(f) && Solves(s, f) && PrefixIntact(f, live)
    requires a in live.poses && a !in f.poses
    requires b in live.poses && (b !in f.poses || b == f.endpoint)
    ensures var now := Corrected(f, s, live, o);
            Compose(now.poses[a], Inverse(now.poses[b])) == Compose(live.poses[a], Inverse(live.poses[b]))
  {
    hide Compose, Inverse, RebaseTailPose;
    var oldEnd, newEnd := f.poses[f.endpoint], s.poses[f.endpoint];
    TailPoseFollowsEndpoint(live.poses[a], oldEnd, newEnd, NewPose(f, s, live.poses, a));
    TailPosesKeepRelative(live.poses[a], live.poses[b], oldEnd, newEnd);
  }

  /** The keyframe that was, or would now be, the reference of a point. */
  function ReferenceNow(o: Observers, live: Live, id: nat): Option<nat> {
    Reference(ObserversOf(o, id), live.poses)
  }

  /** Camera coordinates of a point in keyframe k. */
  function InCamera(live: Live, k: nat, id: nat): Vec3
    requires k in live.poses && id in live.points
  {
    Act(live.poses[k], live.points[id])
  }

  /**
   * With global BA off: a frozen observed point keeps its camera coordinates in the earliest observer it was frozen
   * with.
   */
  lemma {:induction false} FrozenPointKeepsCamera(f: Frozen, propagated: map<nat, SE3>, live: Live, o: Observers,
                                                  id: nat)
    requires WellFrozen(f) && propagated.Keys == f.poses.Keys && PrefixIntact(f, live) && id in f.refs
    ensures InCamera(Corrected(f, PoseGraphSolution(f, propagated), live, o), f.refs[id], id)
         == InCamera(live, f.refs[id], id)
  {
    hide Act, RebaseTailPoint;
    var k := f.refs[id];
    TailPointFollowsReference(f.points[id], f.poses[k], propagated[k],
                              RebaseTailPoint(f.points[id], f.poses[k], propagated[k]));
  }

  /** An appended point keeps its camera coordinates in its earliest observer, or in the endpoint if it has none. */
  lemma {:induction false} AppendedPointKeepsCamera(f: Frozen, s: Solution, live: Live, o: Observers, id: nat)
    requires WellFrozen(f) && Solves(s, f) && PrefixIntact(f, live) && id in live.points && id !in f.points
    ensures var k := match ReferenceNow(o, live, id) case Some(r) => r case None => f.endpoint;
            k in live.poses && InCamera(Corrected(f, s, live, o), k, id) == InCamera(live, k, id)
  {
    hide Act, RebaseTailPoint, RebaseTailPose;
    var k := match ReferenceNow(o, live, id) case Some(r) => r case None => f.endpoint;
    var next := NewPose(f, s, live.poses, k);
    TailPointFollowsReference(live.points[id], live.poses[k], next,
                              RebaseTailPoint(live.points[id], live.poses[k], next));
  }

  /**
   * With global BA off, a point keeps its camera coordinates in its present earliest observer if that is also
   * the one it was frozen with, or if it was appended. In the remaining case, a frozen point whose earliest
   * observer has changed since, it keeps them exactly when the corrections of the two observers agree on it;
   * a point frozen without any observer is not moved at all.
   */
  lemma {:induction false} CameraKeptExactly(f: Frozen, propagated: map<nat, SE3>, live: Live, o: Observers, id: nat,
                                             k: nat)
    requires WellFrozen(f) && propagated.Keys == f.poses.Keys && PrefixIntact(f, live)
    requires id in live.points && ReferenceNow(o, live, id) == Some(k)
    ensures var s := PoseGraphSolution(f, propagated);
            InCamera(Corrected(f, s, live, o), k, id) == InCamera(live, k, id) <==>
              || id !in f.points
              || (id in f.refs && f.refs[id] == k)
              || (id in f.refs &&
                  Moved(f, s, live, k, live.points[id]) == Moved(f, s, live, f.refs[id], live.points[id]))
              || (id !in f.refs && Moved(f, s, live, k, live.points[id]) == live.points[id])
  {
    hide Act, RebaseTailPoint, RebaseTailPose;
    var s := PoseGraphSolution(f, propagated);
    var p, next := live.points[id], NewPose(f, s, live.poses, k);
    TailPointFollowsReference(p, live.poses[k], next, Corrected(f, s, live, o).points[id]);
    if id !in f.points {
      AppendedPointKeepsCamera(f, s, live, o, id);
    } else if id in f.refs {
      FrozenPointKeepsCamera(f, propagated, live, o, id);
    }
  }

  /** Where the correction of keyframe k carries p. */
  function Moved(f: Frozen, s: Solution, live: Live, k: nat, p: Vec3): Vec3
    requires WellFrozen(f) && Solves(s, f) && k in live.poses
  {
    RebaseTailPoint(p, live.poses[k], NewPose(f, s, live.poses, k))
  }

  // ---- a late first observation is not followed -------------------------

  /**
   * Two keyframes and one point that nothing observes yet are frozen, the endpoint at pose a; a third keyframe at the
   * same pose is appended.
   */
  function LateFrozen(first: SE3, a: SE3, p: Vec3): Frozen {
    Frozen(map[0 := first, 1 := a], map[7 := p], map[], 1, 0)
  }

  function LateLive(first: SE3, a: SE3, p: Vec3): Live {
    Live(map[0 := first, 1 := a, 2 := a], map[7 := p], 0)
  }

  /** The new keyframe is the point's first observer. A loop that moves the endpoint to c leaves the point behind. */
  lemma {:induction false} LateObservationIsNotFollowed(first: SE3, a: SE3, c: SE3, p: Vec3, o: Observers,
                                                        propagated: map<nat, SE3>)
    requires Act(c, p) != Act(a, p)
    requires o == map[7 := {2}] && propagated == map[0 := first, 1 := c]
    ensures var f, live := LateFrozen(first, a, p), LateLive(first, a, p);
            && WellFrozen(f) && PrefixIntact(f, live) && ReferenceNow(o, live, 7) == Some(2)
            && InCamera(Corrected(f, PoseGraphSolution(f, propagated), live, o), 2, 7) != InCamera(live, 2, 7)
  {
    hide Act, RebaseTailPoint, RebaseTailPose, Least;
    var f, live := LateFrozen(first, a, p), LateLive(first, a, p);
    assert ObserversOf(o, 7) * live.poses.Keys == {2};
    EndpointFollowsItself(a, c);
  }

  lemma EndpointFollowsItself(a: SE3, c: SE3)
    ensures RebaseTailPose(a, a, c) == c
  {
    hide Compose, Inverse;
    ComposeInverse(a);
    ComposeIdentity(c);
  }

  /** Such a, c and p exist. */
  lemma TranslationMoves()
    ensures Act(SE3(UNIT, Vec3(1.0, 0.0, 0.0)), ORIGIN) != Act(SE3(UNIT, ORIGIN), ORIGIN)
  {
    hide Rotate, Dot, Times;
    RotateOne(ORIGIN);
  }
}
