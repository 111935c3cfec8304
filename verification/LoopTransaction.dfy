/** The same-submap loop transaction on the live map: freeze under the lock, solve outside it, revalidate and commit. */
module LoopTransaction {
  import Quaternions
  import opened RigidMotion
  import opened Rebasing
  import opened MapEntities
  import opened Ordering
  import opened ObservationModel
  import opened SlamMap
  import opened CommitModel
  import opened CommitOnMap
  import opened LoopCorrection

  // ---- freezing ---------------------------------------------------------

  /** Keyframe x observes through o and was scanned: its frame is done, or it is k and its slot lies before i. */
  predicate Scanned(o: map<nat, nat>, x: nat, done: set<nat>, k: nat, i: nat) {
    x in o && (x in done || (x == k && o[x] < i))
  }

  ghost predicate RefOk(o: map<nat, nat>, ref: Option<nat>, done: set<nat>, k: nat, i: nat) {
    match ref
    case Some(r) => Scanned(o, r, done, k, i) && forall x :: Scanned(o, x, done, k, i) ==> r <= x
    case None => forall x :: !Scanned(o, x, done, k, i)
  }

  function At(refs: map<nat, nat>, id: nat): Option<nat> {
    if id in refs then Some(refs[id]) else None
  }

  /** refs holds the least scanned observer of every point that has one. */
  ghost predicate RefsOk(v: View, refs: map<nat, nat>, done: set<nat>, k: nat, i: nat)
    requires Indexed(v)
  {
    refs.Keys <= v.points.Keys &&
    forall id :: id in v.points ==> RefOk(v.obs[v.points[id]], At(refs, id), done, k, i)
  }

  function Earlier(refs: map<nat, nat>, id: nat, k: nat): map<nat, nat> {
    if id !in refs || k < refs[id] then refs[id := k] else refs
  }

  lemma ScanSlot(v: View, refs: map<nat, nat>, done: set<nat>, k: nat, i: nat)
    requires Consistent(v) && k in v.slots && i < |v.slots[k]| && k !in done && RefsOk(v, refs, done, k, i)
    ensures v.slots[k][i] == null ==> RefsOk(v, refs, done, k, i + 1)
    ensures v.slots[k][i] != null ==>
      var p := v.slots[k][i];
      p in v.obs && k in v.obs[p] && v.obs[p][k] == i && RefsOk(v, Earlier(refs, p.id, k), done, k, i + 1)
  {
    var p := v.slots[k][i];
    assert FrameFormal(v, k) && Formal(v, k, i);
    var next := if p == null then refs else Earlier(refs, p.id, k);
    forall id | id in v.points
      ensures RefOk(v.obs[v.points[id]], At(next, id), done, k, i + 1)
    {
      ScanPoint(v.obs[v.points[id]], At(refs, id), done, k, i, i + 1);
    }
  }

  lemma ScanPoint(o: map<nat, nat>, ref: Option<nat>, done: set<nat>, k: nat, i: nat, next: nat)
    requires RefOk(o, ref, done, k, i) && k !in done && next == i + 1
    ensures !(k in o && o[k] == i) ==> RefOk(o, ref, done, k, next)
    ensures k in o && o[k] == i ==>
      RefOk(o, if ref.None? || k < ref.value then Some(k) else ref, done, k, next)
  {
    var now := k in o && o[k] == i;
    forall x
      ensures Scanned(o, x, done, k, next) <==> Scanned(o, x, done, k, i) || (now && x == k)
    {
    }
    if now {
      assert Scanned(o, k, done, k, next);
    }
  }

  lemma ScanFrameEnd(v: View, refs: map<nat, nat>, done: set<nat>, k: nat, next: nat)
    requires Consistent(v) && k in v.slots && RefsOk(v, refs, done, k, |v.slots[k]|)
    ensures RefsOk(v, refs, done + {k}, next, 0)
  {
    forall id | id in v.points
      ensures RefOk(v.obs[v.points[id]], At(refs, id), done + {k}, next, 0)
    {
      var o := v.obs[v.points[id]];
      assert forall x :: Scanned(o, x, done + {k}, next, 0) == Scanned(o, x, done, k, |v.slots[k]|);
    }
  }

  lemma ScanNewFrame(v: View, refs: map<nat, nat>, done: set<nat>, k: nat, next: nat)
    requires Indexed(v) && RefsOk(v, refs, done, k, 0)
    ensures RefsOk(v, refs, done, next, 0)
  {
    forall id | id in v.points
      ensures RefOk(v.obs[v.points[id]], At(refs, id), done, next, 0)
    {
      var o := v.obs[v.points[id]];
      assert forall x :: Scanned(o, x, done, next, 0) == Scanned(o, x, done, k, 0);
    }
  }

  /** Every observed point, and no other, is mapped to its earliest observing keyframe. */
  ghost predicate EarliestObservers(v: View, refs: map<nat, nat>) {
    && refs.Keys <= v.points.Keys
    && (forall id :: id in v.points && v.points[id] in v.obs ==> (id in refs <==> v.obs[v.points[id]] != map[]))
    && (forall id :: id in refs ==> v.points[id] in v.obs && IsLeast(refs[id], v.obs[v.points[id]].Keys))
  }

  lemma ScanDone(v: View, refs: map<nat, nat>, k: nat)
    requires Consistent(v) && RefsOk(v, refs, v.slots.Keys, k, 0)
    ensures EarliestObservers(v, refs) && refs.Keys <= v.points.Keys
    ensures forall id :: id in refs ==> refs[id] in v.slots
  {
    forall id | id in v.points
      ensures id in refs <==> v.obs[v.points[id]] != map[]
      ensures id in refs ==> IsLeast(refs[id], v.obs[v.points[id]].Keys) && refs[id] in v.slots
    {
      var o := v.obs[v.points[id]];
      assert RefOk(o, At(refs, id), v.slots.Keys, k, 0);
      assert forall x :: x in o ==> Scanned(o, x, v.slots.Keys, k, 0);
      if o != map[] {
        var x :| x in o;
        assert Scanned(o, x, v.slots.Keys, k, 0);
      }
    }
  }

  method ScanSlots(m: Map, k: nat, refs0: map<nat, nat>, ghost v: View,
                   ghost done: set<nat>) returns (refs: map<nat, nat>)
    requires m.Filed() && v == m.Abs() && Consistent(v)
    requires k in m.keyframes && k !in done && RefsOk(v, refs0, done, k, 0)
    ensures RefsOk(v, refs, done + {k}, 0, 0)
  {
    hide Consistent, RefsOk, Indexed, Earlier;
    ConsistentIsIndexed(v);
    m.FiledUnder(k);
    refs := refs0;
    var frame := m.keyframes[k];
    var i := 0;
    while i < |frame.slots|
      invariant 0 <= i <= |frame.slots| && RefsOk(v, refs, done, k, i)
    {
      ScanSlot(v, refs, done, k, i);
      var p := frame.slots[i];
      if p != null && p.HasObservation(k, i) {
        refs := Earlier(refs, p.id, k);
      }
      i := i + 1;
    }
    ScanFrameEnd(v, refs, done, k, 0);
  }

  method ScanFrames(m: Map, ghost v: View) returns (refs: map<nat, nat>)
    requires m.Filed() && v == m.Abs() && Consistent(v)
    ensures EarliestObservers(v, refs)
    ensures refs.Keys <= m.mapPoints.Keys && forall id :: id in refs ==> refs[id] in m.keyframes
  {
    hide Increasing, Consistent, RefsOk, Indexed, EarliestObservers, Front, Map.Filed, Map.Abs;
    ConsistentIsIndexed(v);
    var ids := Ascending(m.keyframes.Keys);
    refs := map[];
    ghost var done: set<nat> := {};
    ScanStart(v);
    FrontIsAll(ids, m.keyframes.Keys);
    SlotKeys(m);
    var n := 0;
    while n < |ids|
      invariant 0 <= n <= |ids| && done == Front(ids, n) && RefsOk(v, refs, done, 0, 0)
    {
      var k := ids[n];
      FrontGrows(ids, n);
      ScanNewFrame(v, refs, done, 0, k);
      refs := ScanSlots(m, k, refs, v, done);
      done := done + {k};
      n := n + 1;
    }
    ScanDone(v, refs, 0);
  }

  lemma SlotKeys(m: Map)
    ensures m.Abs().slots.Keys == m.keyframes.Keys && m.Abs().points == m.mapPoints
  {
  }

  lemma ScanStart(v: View)
    requires Indexed(v)
    ensures RefsOk(v, map[], {}, 0, 0)
  {
  }

  datatype Identity = Identity(frames: map<nat, Frame>, points: map<nat, MapPoint>)

  lemma WholeIsIntact(live: Live, refs: map<nat, nat>, endpoint: nat)
    requires endpoint in live.poses && refs.Keys <= live.points.Keys
    requires forall id :: id in refs ==> refs[id] in live.poses
    ensures var f := Frozen(live.poses, live.points, refs, endpoint, live.geometry);
            WellFrozen(f) && PrefixIntact(f, live)
  {
  }

  method CopyCoordinates(m: Map, refs: map<nat, nat>) returns (f: Frozen)
    requires m.Filed() && |m.keyframes| >= 2
    requires refs.Keys <= m.mapPoints.Keys && forall id :: id in refs ==> refs[id] in m.keyframes
    ensures WellFrozen(f) && PrefixIntact(f, LiveOf(m)) && f.refs == refs
    ensures f.poses.Keys == m.keyframes.Keys && f.points.Keys == m.mapPoints.Keys
    ensures forall k :: k in m.keyframes ==> k <= f.endpoint
  {
    hide Increasing, WellFrozen, PrefixIntact, Poses, Positions, Map.Filed;
    LiveKeys(m);
    var ids := Ascending(m.keyframes.Keys);
    var endpoint := ids[|ids| - 1];
    LastIsGreatest(ids);
    f := Frozen(map k | k in m.keyframes :: m.keyframes[k].pose,
                map id | id in m.mapPoints :: m.mapPoints[id].pos,
                refs, endpoint, m.geometry);
    assert f.poses == Poses(m) && f.points == Positions(m);
    WholeIsIntact(LiveOf(m), refs, endpoint);
  }

  /** Phase 1, under the shared lock. */
  method Freeze(m: Map) returns (f: Option<Frozen>, who: Identity)
    requires m.Valid()
    ensures f.Some? <==> |m.keyframes| >= 2
    ensures who == Identity(m.keyframes, m.mapPoints)
    ensures f.Some? ==>
      && WellFrozen(f.value) && PrefixIntact(f.value, LiveOf(m))
      && f.value.poses.Keys == m.keyframes.Keys && f.value.points.Keys == m.mapPoints.Keys
      && (forall k :: k in m.keyframes ==> k <= f.value.endpoint)
      && EarliestObservers(m.Abs(), f.value.refs)
  {
    hide Consistent, Covisibility.IsCov, EarliestObservers, Map.Filed;
    who := Identity(m.keyframes, m.mapPoints);
    if |m.keyframes| < 2 {
      return None, who;
    }
    var refs := ScanFrames(m, m.Abs());
    var frozen := CopyCoordinates(m, refs);
    f := Some(frozen);
  }

  // ---- committing -------------------------------------------------------

  ghost function ObserversOn(m: Map): Observers
    reads m`mapPoints, m`pointSet, m.pointSet`obs
  {
    map id | id in m.mapPoints && m.mapPoints[id] in m.pointSet :: m.mapPoints[id].obs.Keys
  }

  /** Every frozen object is still registered under its id, as the same object. */
  predicate StillThere(who: Identity, frames: map<nat, Frame>, points: map<nat, MapPoint>) {
    && (forall k :: k in who.frames ==> k in frames && frames[k] == who.frames[k])
    && (forall id :: id in who.points ==> id in points && points[id] == who.points[id])
  }

  /** Final poses of the frozen keyframes and of those in done. */
  ghost function FinalFor(f: Frozen, s: Solution, live: map<nat, SE3>, done: set<nat>): map<nat, SE3>
    requires WellFrozen(f) && Solves(s, f)
  {
    map k | k in live && (k in f.poses || k in done) :: NewPose(f, s, live, k)
  }

  lemma FinalForSteps(f: Frozen, s: Solution, live: map<nat, SE3>, done: set<nat>, k: nat)
    requires WellFrozen(f) && Solves(s, f) && f.poses.Keys <= live.Keys && k in live
    ensures FinalFor(f, s, live, {}) == s.poses
    ensures k in f.poses ==> FinalFor(f, s, live, done + {k}) == FinalFor(f, s, live, done)
    ensures k !in f.poses ==>
      FinalFor(f, s, live, done + {k})
        == FinalFor(f, s, live, done)[k := RebaseTailPose(live[k], f.poses[f.endpoint], s.poses[f.endpoint])]
  {
    hide RebaseTailPose, Quaternions.Times;
  }

  /** Every keyframe of the live map gets its pose: solved if frozen, following the endpoint if appended. */
  method FinalPoses(m: Map, f: Frozen, s: Solution) returns (poses: map<nat, SE3>)
    requires m.Filed() && WellFrozen(f) && Solves(s, f) && f.poses.Keys <= m.keyframes.Keys
    ensures poses == FinalFor(f, s, Poses(m), Poses(m).Keys)
  {
    hide Increasing, Front, RebaseTailPose, WellFrozen, Solves, FinalFor, NewPose, Poses, Map.Filed, Quaternions.Times;
    LiveKeys(m);
    SolvedKeys(f, s);
    ghost var live := Poses(m);
    FinalForSteps(f, s, live, {}, f.endpoint);
    poses := s.poses;
    var ids := Ascending(m.keyframes.Keys);
    FrontIsAll(ids, m.keyframes.Keys);
    for n := 0 to |ids|
      invariant poses == FinalFor(f, s, live, Front(ids, n))
    {
      var k := ids[n];
      FrontGrows(ids, n);
      FinalForSteps(f, s, live, Front(ids, n), k);
      if k !in f.poses {
        poses := poses[k := RebaseTailPose(m.keyframes[k].pose, f.poses[f.endpoint], s.poses[f.endpoint])];
      }
    }
  }

  lemma SolvedKeys(f: Frozen, s: Solution)
    requires WellFrozen(f) && Solves(s, f)
    ensures s.poses.Keys == f.poses.Keys && f.endpoint in f.poses && s.points.Keys <= f.points.Keys
  {
  }

  lemma FinalForAll(f: Frozen, s: Solution, live: map<nat, SE3>)
    requires WellFrozen(f) && Solves(s, f)
    ensures FinalFor(f, s, live, live.Keys).Keys == live.Keys
    ensures forall k :: k in live ==> FinalFor(f, s, live, live.Keys)[k] == NewPose(f, s, live, k)
  {
    hide NewPose;
  }

  /** The position of a point appended since: with its first registered observer, else with the endpoint. */
  method AppendedPosition(m: Map, f: Frozen, s: Solution, poses: map<nat, SE3>, p: MapPoint,
                          ghost live: map<nat, SE3>) returns (pos: Vec3)
    requires m.Filed() && WellFrozen(f) && Solves(s, f)
    requires live == Poses(m) && poses == FinalFor(f, s, live, live.Keys)
    ensures pos == TailPoint(f, s, live, p.obs.Keys, p.pos)
  {
    hide Increasing, Front, RebaseTailPoint, WellFrozen, Solves, NewPose, FinalFor, Reference, Poses, Map.Filed,
         Quaternions.Times;
    LiveKeys(m);
    SolvedKeys(f, s);
    FinalForAll(f, s, live);
    var oldRef, newRef := f.poses[f.endpoint], s.poses[f.endpoint];
    var observers := Ascending(p.obs.Keys);
    FrontIsAll(observers, p.obs.Keys);
    var n := 0;
    while n < |observers|
      invariant 0 <= n <= |observers| && Front(observers, n) !! live.Keys
    {
      var k := observers[n];
      FrontGrows(observers, n);
      if k in m.keyframes && k in poses {
        FirstKnown(observers, n, p.obs.Keys, live);
        return RebaseTailPoint(p.pos, m.keyframes[k].pose, poses[k]);
      }
      n := n + 1;
    }
    NoneKnown(p.obs.Keys, live);
    return RebaseTailPoint(p.pos, oldRef, newRef);
  }

  lemma NoneKnown(s: set<nat>, live: map<nat, SE3>)
    requires s !! live.Keys
    ensures Reference(s, live) == None
  {
    assert s * live.Keys == {};
  }

  lemma FirstKnown(a: seq<nat>, n: nat, s: set<nat>, live: map<nat, SE3>)
    requires Increasing(a) && n < |a| && a[n] in live && Front(a, n) !! live.Keys
    requires forall x :: x in a <==> x in s
    ensures Reference(s, live) == Some(a[n])
  {
    var known := s * live.Keys;
    assert a[n] in a && a[n] in known;
    FrontMembers(a, n);
    forall x | x in known
      ensures a[n] <= x
    {
      var i :| 0 <= i < |a| && a[i] == x;
    }
  }

  /** Where every point goes: solved if frozen, with its reference if appended. */
  ghost function PointsFor(f: Frozen, s: Solution, live: Live, o: Observers, done: set<nat>): map<nat, Vec3>
    requires WellFrozen(f) && Solves(s, f)
  {
    map id | id in live.points && (id in s.points || (id in done && id !in f.points)) ::
      NewPoint(f, s, live, ObserversOf(o, id), id)
  }

  lemma PointsForStart(f: Frozen, s: Solution, live: Live, o: Observers)
    requires WellFrozen(f) && Solves(s, f) && f.points.Keys <= live.points.Keys
    ensures PointsFor(f, s, live, o, {}) == s.points
  {
    hide TailPoint, ObserversOf;
  }

  lemma PointsForSteps(f: Frozen, s: Solution, live: Live, o: Observers, done: set<nat>, id: nat)
    requires WellFrozen(f) && Solves(s, f) && f.points.Keys <= live.points.Keys
    ensures id in live.points && id in f.points ==>
      PointsFor(f, s, live, o, done + {id}) == PointsFor(f, s, live, o, done)
    ensures id in live.points && id !in f.points ==>
      PointsFor(f, s, live, o, done + {id})
        == PointsFor(f, s, live, o, done)[id := TailPoint(f, s, live.poses, ObserversOf(o, id), live.points[id])]
  {
    hide TailPoint, ObserversOf;
  }

  method PlacePoint(m: Map, f: Frozen, s: Solution, poses: map<nat, SE3>, points: map<nat, Vec3>, id: nat,
                    ghost live: Live, ghost o: Observers, ghost done: set<nat>) returns (next: map<nat, Vec3>)
    requires m.Filed() && WellFrozen(f) && Solves(s, f) && f.points.Keys <= m.mapPoints.Keys && id in m.mapPoints
    requires live == LiveOf(m) && o == ObserversOn(m) && poses == FinalFor(f, s, live.poses, live.poses.Keys)
    requires points == PointsFor(f, s, live, o, done)
    ensures next == PointsFor(f, s, live, o, done + {id})
  {
    hide Increasing, WellFrozen, Solves, FinalFor, PointsFor, TailPoint, ObserversOf, Poses, Positions, ObserversOn,
         Map.Filed;
    LiveKeys(m);
    PointsForSteps(f, s, live, o, done, id);
    next := points;
    if id !in f.points {
      ObserversOfPoint(m, id);
      var pos := AppendedPosition(m, f, s, poses, m.mapPoints[id], live.poses);
      next := next[id := pos];
    }
  }

  method FinalPoints(m: Map, f: Frozen, s: Solution, poses: map<nat, SE3>,
                     ghost live: Live, ghost o: Observers) returns (points: map<nat, Vec3>)
    requires m.Filed() && WellFrozen(f) && Solves(s, f) && f.points.Keys <= m.mapPoints.Keys
    requires live == LiveOf(m) && o == ObserversOn(m) && poses == FinalFor(f, s, live.poses, live.poses.Keys)
    ensures points == PointsFor(f, s, live, o, live.points.Keys)
  {
    hide Increasing, Front, WellFrozen, Solves, FinalFor, PointsFor, LiveOf, ObserversOn, Map.Filed;
    PointKeys(m);
    PointsForStart(f, s, live, o);
    points := s.points;
    var ids := Ascending(m.mapPoints.Keys);
    FrontIsAll(ids, m.mapPoints.Keys);
    for n := 0 to |ids|
      invariant points == PointsFor(f, s, live, o, Front(ids, n))
    {
      FrontGrows(ids, n);
      points := PlacePoint(m, f, s, poses, points, ids[n], live, o, Front(ids, n));
    }
  }

  lemma PointKeys(m: Map)
    requires m.Filed()
    ensures LiveOf(m).points.Keys == m.mapPoints.Keys
  {
  }

  lemma ObserversOfPoint(m: Map, id: nat)
    requires m.Filed() && id in m.mapPoints
    ensures ObserversOf(ObserversOn(m), id) == m.mapPoints[id].obs.Keys
  {
  }

  // ---- the result offered to the committer ------------------------------

  function PoseUpdates(poses: map<nat, SE3>): seq<PoseUpdate> {
    var ids := Ascending(poses.Keys);
    seq(|ids|, i requires 0 <= i < |ids| => (assert ids[i] in ids; PoseUpdate(ids[i], poses[ids[i]])))
  }

  function PointUpdates(points: map<nat, Vec3>): seq<PointUpdate> {
    var ids := Ascending(points.Keys);
    seq(|ids|, i requires 0 <= i < |ids| => (assert ids[i] in ids; PointUpdate(ids[i], points[ids[i]])))
  }

  function Overridden<T>(before: map<nat, T>, news: map<nat, T>): map<nat, T> {
    map k | k in before :: if k in news then news[k] else before[k]
  }

  /** Every entry once. */
  ghost predicate ListsPoses(u: seq<PoseUpdate>, poses: map<nat, SE3>) {
    && (forall i, j :: 0 <= i < j < |u| ==> u[i].id != u[j].id)
    && (forall i :: 0 <= i < |u| ==> u[i].id in poses && u[i].pose == poses[u[i].id])
    && (forall k :: k in poses ==> exists i :: 0 <= i < |u| && u[i].id == k)
  }

  ghost predicate ListsPoints(u: seq<PointUpdate>, points: map<nat, Vec3>) {
    && (forall i, j :: 0 <= i < j < |u| ==> u[i].id != u[j].id)
    && (forall i :: 0 <= i < |u| ==> u[i].id in points && u[i].pos == points[u[i].id])
    && (forall k :: k in points ==> exists i :: 0 <= i < |u| && u[i].id == k)
  }

  lemma PoseUpdatesList(poses: map<nat, SE3>)
    ensures ListsPoses(PoseUpdates(poses), poses)
  {
    hide PoseUpdates;
    PoseUpdatesDistinct(poses);
    PoseUpdatesCover(poses);
  }

  lemma PoseUpdatesDistinct(poses: map<nat, SE3>)
    ensures var u := PoseUpdates(poses); forall i, j :: 0 <= i < j < |u| ==> u[i].id != u[j].id
  {
    hide Increasing;
    var u, ids := PoseUpdates(poses), Ascending(poses.Keys);
    forall i, j | 0 <= i < j < |u|
      ensures u[i].id != u[j].id
    {
      IncreasingDistinct(ids, i, j);
    }
  }

  lemma PoseUpdatesCover(poses: map<nat, SE3>)
    ensures var u := PoseUpdates(poses);
            && (forall i :: 0 <= i < |u| ==> u[i].id in poses && u[i].pose == poses[u[i].id])
            && (forall k :: k in poses ==> exists i :: 0 <= i < |u| && u[i].id == k)
  {
    hide Increasing;
    var u, ids := PoseUpdates(poses), Ascending(poses.Keys);
    forall i | 0 <= i < |u|
      ensures u[i].id in poses && u[i].pose == poses[u[i].id]
    {
      assert ids[i] in ids;
    }
    forall k | k in poses
      ensures exists i :: 0 <= i < |u| && u[i].id == k
    {
      assert k in ids;
      var i :| 0 <= i < |ids| && ids[i] == k;
      assert u[i].id == k;
    }
  }

  lemma PointUpdatesList(points: map<nat, Vec3>)
    ensures ListsPoints(PointUpdates(points), points)
  {
    hide PointUpdates;
    PointUpdatesDistinct(points);
    PointUpdatesCover(points);
  }

  lemma PointUpdatesDistinct(points: map<nat, Vec3>)
    ensures var u := PointUpdates(points); forall i, j :: 0 <= i < j < |u| ==> u[i].id != u[j].id
  {
    hide Increasing;
    var u, ids := PointUpdates(points), Ascending(points.Keys);
    forall i, j | 0 <= i < j < |u|
      ensures u[i].id != u[j].id
    {
      IncreasingDistinct(ids, i, j);
    }
  }

  lemma PointUpdatesCover(points: map<nat, Vec3>)
    ensures var u := PointUpdates(points);
            && (forall i :: 0 <= i < |u| ==> u[i].id in points && u[i].pos == points[u[i].id])
            && (forall k :: k in points ==> exists i :: 0 <= i < |u| && u[i].id == k)
  {
    hide Increasing;
    var u, ids := PointUpdates(points), Ascending(points.Keys);
    forall i | 0 <= i < |u|
      ensures u[i].id in points && u[i].pos == points[u[i].id]
    {
      assert ids[i] in ids;
    }
    forall k | k in points
      ensures exists i :: 0 <= i < |u| && u[i].id == k
    {
      assert k in ids;
      var i :| 0 <= i < |ids| && ids[i] == k;
      assert u[i].id == k;
    }
  }

  lemma ListedPosesOverride(before: map<nat, SE3>, poses: map<nat, SE3>, u: seq<PoseUpdate>)
    requires poses.Keys <= before.Keys && ListsPoses(u, poses)
    ensures WritePoses(before, u, {}) == Overridden(before, poses)
  {
    hide WritePoses;
    WritePosesWrites(before, u, {});
    var after := WritePoses(before, u, {});
    forall k | k in before
      ensures after[k] == if k in poses then poses[k] else before[k]
    {
      if k in poses {
        var i :| 0 <= i < |u| && u[i].id == k;
      }
    }
  }

  lemma ListedPointsOverride(before: map<nat, Vec3>, points: map<nat, Vec3>, u: seq<PointUpdate>)
    requires points.Keys <= before.Keys && ListsPoints(u, points)
    ensures WritePoints(before, u) == Overridden(before, points)
  {
    hide WritePoints;
    WritePointsWrites(before, u);
    var after := WritePoints(before, u);
    forall k | k in before
      ensures after[k] == if k in points then points[k] else before[k]
    {
      if k in points {
        var i :| 0 <= i < |u| && u[i].id == k;
      }
    }
  }

  lemma OverriddenIsCorrected(f: Frozen, s: Solution, live: Live, o: Observers)
    requires WellFrozen(f) && Solves(s, f)
    ensures Overridden(live.poses, FinalFor(f, s, live.poses, live.poses.Keys)) == Corrected(f, s, live, o).poses
    ensures Overridden(live.points, PointsFor(f, s, live, o, live.points.Keys)) == Corrected(f, s, live, o).points
  {
    hide NewPose, TailPoint, ObserversOf;
  }

  /** The offered result is accepted whole: every id it names is alive. */
  lemma OfferIsCommitted(f: Frozen, s: Solution, live: Live, o: Observers, r: OptimizationResult)
    requires WellFrozen(f) && Solves(s, f) && f.geometry == live.geometry == r.baseGeometry
    requires f.poses.Keys <= live.poses.Keys && f.points.Keys <= live.points.Keys
    requires ListsPoses(r.poses, FinalFor(f, s, live.poses, live.poses.Keys))
    requires ListsPoints(r.points, PointsFor(f, s, live, o, live.points.Keys))
    ensures Commit(live, r, {}, 0.0)
         == if r.valid && r.maxCorrection.Some? then (Corrected(f, s, live, o), Committed) else (live, Invalid)
  {
    hide NewPose, NewPoint, WritePoses, WritePoints;
    ListedPosesOverride(live.poses, FinalFor(f, s, live.poses, live.poses.Keys), r.poses);
    ListedPointsOverride(live.points, PointsFor(f, s, live, o, live.points.Keys), r.points);
    OverriddenIsCorrected(f, s, live, o);
  }

  method CheckIdentity(m: Map, who: Identity) returns (intact: bool)
    ensures intact <==> StillThere(who, m.keyframes, m.mapPoints)
  {
    var ks := who.frames.Keys;
    while ks != {}
      invariant ks <= who.frames.Keys
      invariant forall k :: k in who.frames && k !in ks ==> k in m.keyframes && m.keyframes[k] == who.frames[k]
      decreases ks
    {
      var k :| k in ks;
      if k !in m.keyframes || m.keyframes[k] != who.frames[k] {
        return false;
      }
      ks := ks - {k};
    }
    var ids := who.points.Keys;
    while ids != {}
      invariant ids <= who.points.Keys
      invariant forall id :: id in who.points && id !in ids ==> id in m.mapPoints && m.mapPoints[id] == who.points[id]
      decreases ids
    {
      var id :| id in ids;
      if id !in m.mapPoints || m.mapPoints[id] != who.points[id] {
        return false;
      }
      ids := ids - {id};
    }
    return true;
  }

  /** Phase 3, under the exclusive lock: revalidate, rebase what was appended, commit everything or nothing. */
  method CommitLoop(m: Map, sameMap: bool, f: Frozen, who: Identity, s: Solution,
                    metric: Option<real>) returns (done: bool)
    requires m.Filed() && WellFrozen(f) && Solves(s, f)
    requires who.frames.Keys == f.poses.Keys && who.points.Keys == f.points.Keys
    modifies m`geometry, m.frameSet`pose, m.pointSet`pos
    ensures done <==>
      sameMap && f.geometry == old(m.geometry) && StillThere(who, m.keyframes, m.mapPoints) && metric.Some?
    ensures LiveOf(m) == if done then Corrected(f, s, old(LiveOf(m)), ObserversOn(m)) else old(LiveOf(m))
  {
    hide Increasing, WellFrozen, Solves, Poses, Positions, ObserversOn, FinalFor, PointsFor, Corrected, Commit,
      ListsPoses, ListsPoints, PoseUpdates, PointUpdates, Map.Filed;
    if !sameMap || f.geometry != m.geometry {
      return false;
    }
    var intact := CheckIdentity(m, who);
    if !intact {
      return false;
    }
    LiveKeys(m);
    ghost var live, o := LiveOf(m), ObserversOn(m);
    var poses := FinalPoses(m, f, s);
    var points := FinalPoints(m, f, s, poses, live, o);
    PoseUpdatesList(poses);
    PointUpdatesList(points);
    var r := OptimizationResult(0, f.geometry, PoseUpdates(poses), PointUpdates(points), metric, true);
    OfferIsCommitted(f, s, live, o, r);
    var status := CommitResult(m, r, {}, 0.0, m);
    done := status == Committed;
  }
}
