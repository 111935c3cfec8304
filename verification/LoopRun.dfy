/** A whole same-submap loop: freeze, let other threads change the map while the loop is solved, commit. */
module LoopRun {
  import opened RigidMotion
  import opened MapEntities
  import opened ObservationModel
  import opened SlamMap
  import opened CommitModel
  import opened CommitOnMap
  import opened LoopCorrection
  import opened LoopTransaction

  /** What another thread may do to the map between the two critical sections. */
  datatype Change =
    | AddFrame(k: nat, keypoints: nat, slots: Slots, pose: SE3)
    | AddPoint(id: nat, pos: Vec3)
    | Observe(k: nat, i: nat, id: nat)
    | Release(k: nat, i: nat)
    | DropFrame(k: nat)
    | DropPoints(ids: seq<nat>)
    | Correct(r: OptimizationResult, skip: set<nat>, limit: real)
    | Reset

  // ---- what changes do, on values ---------------------------------------

  ghost function After(live: Live, c: Change): Live {
    match c
    case AddFrame(k, _, _, pose) => if k in live.poses then live else live.(poses := live.poses[k := pose])
    case AddPoint(id, pos) => if id in live.points then live else live.(points := live.points[id := pos])
    case Observe(_, _, _) => live
    case Release(_, _) => live
    case DropFrame(k) => live.(poses := live.poses - {k})
    case DropPoints(ids) => live.(points := live.points - IdSet(ids))
    case Correct(r, skip, limit) => Commit(live, r, skip, limit).0
    case Reset => Live(map[], map[], live.geometry + 1)
  }

  ghost function AfterAll(live: Live, changes: seq<Change>): Live {
    if changes == [] then live
    else After(AfterAll(live, changes[..|changes| - 1]), changes[|changes| - 1])
  }

  predicate TakesFrame(c: Change, k: nat) {
    c == DropFrame(k) || c.Reset?
  }

  predicate TakesPoint(c: Change, id: nat) {
    (c.DropPoints? && id in c.ids) || c.Reset?
  }

  /** No change takes one of these objects. */
  ghost predicate Spares(changes: seq<Change>, frames: set<nat>, points: set<nat>) {
    && (forall c, k :: c in changes && k in frames ==> !TakesFrame(c, k))
    && (forall c, id :: c in changes && id in points ==> !TakesPoint(c, id))
  }

  /** The revision never falls; while it stands, what is spared does not move. */
  ghost predicate Since(before: Live, after: Live, frames: set<nat>, points: set<nat>)
    requires frames <= before.poses.Keys && points <= before.points.Keys
  {
    && before.geometry <= after.geometry
    && (before.geometry == after.geometry ==>
          && (forall k :: k in frames ==> k in after.poses && after.poses[k] == before.poses[k])
          && (forall id :: id in points ==> id in after.points && after.points[id] == before.points[id]))
  }

  lemma SinceStep(before: Live, live: Live, c: Change, frames: set<nat>, points: set<nat>)
    requires frames <= before.poses.Keys && points <= before.points.Keys
    requires Since(before, live, frames, points) && Spares([c], frames, points)
    ensures Since(before, After(live, c), frames, points)
  {
    hide WritePoses, WritePoints, AllAlive, PassesQuality;
    assert c in [c];
  }

  lemma {:induction false} SpareMeansUnmoved(live: Live, changes: seq<Change>, frames: set<nat>, points: set<nat>)
    requires Spares(changes, frames, points) && frames <= live.poses.Keys && points <= live.points.Keys
    ensures Since(live, AfterAll(live, changes), frames, points)
  {
    hide After;
    if changes != [] {
      var n := |changes| - 1;
      assert changes[n] in changes;
      SpareMeansUnmoved(live, changes[..n], frames, points);
      SinceStep(live, AfterAll(live, changes[..n]), changes[n], frames, points);
    }
  }

  // ---- what changes do, on the map --------------------------------------

  ghost function Registered(m: Map): Identity
    reads m`keyframes, m`mapPoints
  {
    Identity(m.keyframes, m.mapPoints)
  }

  /** Objects stay unless taken. */
  ghost predicate Stay(before: Identity, after: Identity, c: Change) {
    && (forall k :: k in before.frames ==>
          if TakesFrame(c, k) then k !in after.frames
          else k in after.frames && after.frames[k] == before.frames[k])
    && (forall id :: id in before.points ==>
          if TakesPoint(c, id) then id !in after.points
          else id in after.points && after.points[id] == before.points[id])
  }

  /** What is registered now and was not registered then. */
  ghost function Added(before: Identity, after: Identity): set<object> {
    (set k | k in after.frames && k !in before.frames :: after.frames[k] as object)
    + (set id | id in after.points && id !in before.points :: after.points[id] as object)
  }

  lemma FramesStay(before: Identity, after: Identity, c: Change, added: set<object>)
    requires before.points == after.points
    requires match c
      case AddFrame(k, _, _, _) =>
        after.frames.Keys == before.frames.Keys + {k} &&
        forall x :: x in after.frames ==>
          if x in before.frames then after.frames[x] == before.frames[x] else after.frames[x] in added
      case DropFrame(k) => after.frames == before.frames - {k}
      case _ => false
    ensures Stay(before, after, c) && Added(before, after) <= added
  {
  }

  lemma PointsStay(before: Identity, after: Identity, c: Change, added: set<object>)
    requires before.frames == after.frames
    requires match c
      case AddPoint(id, _) =>
        after.points.Keys == before.points.Keys + {id} &&
        forall x :: x in after.points ==>
          if x in before.points then after.points[x] == before.points[x] else after.points[x] in added
      case DropPoints(ids) => after.points == before.points - IdSet(ids)
      case _ => false
    ensures Stay(before, after, c) && Added(before, after) <= added
  {
  }

  lemma FrameAdded(m: Map, before: Live, frames: map<nat, Frame>, c: Change, frame: Frame)
    requires m.Filed() && c.AddFrame? && frame.pose == c.pose
    requires m.keyframes == if c.k in frames then frames else frames[c.k := frame]
    requires before.poses.Keys == frames.Keys && forall k :: k in frames ==> before.poses[k] == frames[k].pose
    requires before.points == Positions(m) && before.geometry == m.geometry
    ensures LiveOf(m) == After(before, c)
  {
    assert Poses(m) == After(before, c).poses;
  }

  method FileFrame(m: Map, frame: Frame, c: Change)
    requires m.Valid() && c.AddFrame? && frame.id == c.k && frame.pose == c.pose
    modifies m, frame`slots, frame`isKeyframe, m.pointSet`obs
    ensures m.Valid() && LiveOf(m) == After(old(LiveOf(m)), c)
    ensures Stay(old(Registered(m)), Registered(m), c)
    ensures Added(old(Registered(m)), Registered(m)) <= {frame}
  {
    hide Consistent, Covisibility.IsCov, FrameRepaired, Map.Filed, Map.Abs, Stay, Added, Poses, Positions, After,
      Map.Observations;
    ghost var before, frames := LiveOf(m), m.keyframes;
    LiveKeys(m);
    m.InsertKeyFrame(frame);
    FramesStay(old(Registered(m)), Registered(m), c, {frame});
    FrameAdded(m, before, frames, c, frame);
  }

  lemma PointAdded(m: Map, before: Live, points: map<nat, MapPoint>, c: Change, p: MapPoint)
    requires m.Filed() && c.AddPoint? && p.pos == c.pos
    requires m.mapPoints == if c.id in points then points else points[c.id := p]
    requires before.points.Keys == points.Keys && forall id :: id in points ==> before.points[id] == points[id].pos
    requires before.poses == Poses(m) && before.geometry == m.geometry
    ensures LiveOf(m) == After(before, c)
  {
    assert Positions(m) == After(before, c).points;
  }

  method FileMapPoint(m: Map, p: MapPoint, c: Change)
    requires m.Valid() && c.AddPoint? && p.id == c.id && p.pos == c.pos && p.obs == map[]
    modifies m
    ensures m.Valid() && LiveOf(m) == After(old(LiveOf(m)), c)
    ensures Stay(old(Registered(m)), Registered(m), c)
    ensures Added(old(Registered(m)), Registered(m)) <= {p}
  {
    hide Consistent, Covisibility.IsCov, Map.Filed, Stay, Added, Poses, Positions, After, Map.Observations;
    ghost var before, points := LiveOf(m), m.mapPoints;
    LiveKeys(m);
    m.InsertMapPoint(p);
    PointsStay(old(Registered(m)), Registered(m), c, {p});
    PointAdded(m, before, points, c, p);
  }

  lemma FrameTaken(m: Map, before: Live, frames: map<nat, Frame>, c: Change)
    requires m.Filed() && c.DropFrame? && m.keyframes == frames - {c.k}
    requires before.poses.Keys == frames.Keys && forall k :: k in frames ==> before.poses[k] == frames[k].pose
    requires before.points == Positions(m) && before.geometry == m.geometry
    ensures LiveOf(m) == After(before, c)
  {
    assert Poses(m) == After(before, c).poses;
  }

  method TakeFrame(m: Map, c: Change)
    requires m.Valid() && c.DropFrame?
    modifies m, m.frameSet`slots, m.pointSet`obs
    ensures m.Valid() && LiveOf(m) == After(old(LiveOf(m)), c)
    ensures Stay(old(Registered(m)), Registered(m), c)
    ensures Added(old(Registered(m)), Registered(m)) == {}
  {
    hide Consistent, Covisibility.IsCov, RemoveFrame, Map.Filed, Map.Abs, Stay, Added, Poses, Positions, After,
      Map.Observations;
    ghost var before, frames := LiveOf(m), m.keyframes;
    LiveKeys(m);
    var _ := m.RemoveKeyFrame(c.k);
    FramesStay(old(Registered(m)), Registered(m), c, {});
    FrameTaken(m, before, frames, c);
  }

  lemma PointsTaken(m: Map, before: Live, points: map<nat, MapPoint>, c: Change)
    requires m.Filed() && c.DropPoints? && m.mapPoints == points - IdSet(c.ids)
    requires before.points.Keys == points.Keys && forall id :: id in points ==> before.points[id] == points[id].pos
    requires before.poses == Poses(m) && before.geometry == m.geometry
    ensures LiveOf(m) == After(before, c)
  {
    assert Positions(m) == After(before, c).points;
  }

  lemma RemovedPoints(v: View, ids: set<nat>)
    ensures RemovePoints(v, ids).points == v.points - ids
  {
  }

  method DropIds(m: Map, ids: seq<nat>)
    requires m.Valid()
    modifies m`covisibility, m`lastHit, m`mapPoints, m`pointSet, m`mpCount, m`topology
    modifies m.frameSet`slots, m.pointSet`obs
    ensures m.Valid() && m.mapPoints == old(m.mapPoints) - IdSet(ids)
  {
    hide Consistent, Covisibility.IsCov, RemovePoints, IdSet, Map.Filed, Map.Abs, Map.Observations;
    ghost var v := m.Abs();
    SlotKeys(m);
    var _ := m.RemoveMapPoints(ids);
    SlotKeys(m);
    RemovedPoints(v, IdSet(ids));
  }

  method TakePoints(m: Map, c: Change)
    requires m.Valid() && c.DropPoints?
    modifies m, m.frameSet`slots, m.pointSet`obs
    ensures m.Valid() && LiveOf(m) == After(old(LiveOf(m)), c)
    ensures Stay(old(Registered(m)), Registered(m), c)
    ensures Added(old(Registered(m)), Registered(m)) == {}
  {
    hide Consistent, Covisibility.IsCov, IdSet, Map.Filed, Stay, Added, Poses, Positions, After, Map.Observations;
    ghost var before, points := LiveOf(m), m.mapPoints;
    LiveKeys(m);
    DropIds(m, c.ids);
    PointsStay(old(Registered(m)), Registered(m), c, {});
    PointsTaken(m, before, points, c);
  }

  lemma AllStay(r: Identity, c: Change)
    requires c.Observe? || c.Release? || c.Correct?
    ensures Stay(r, r, c) && Added(r, r) == {}
  {
  }

  /** The map after an observation was made or withdrawn; unknown ids do nothing. */
  ghost function Rebound(v: View, c: Change): View
    requires Consistent(v) && (c.Observe? || c.Release?)
  {
    if c.Release? then ClearSlot(v, c.k, c.i).0
    else if c.k in v.slots && c.id in v.points then SetSlot(v, c.k, c.i, v.points[c.id]).0
    else v
  }

  lemma TablesOf(m: Map)
    requires m.Valid()
    ensures m.Abs().points == m.mapPoints && m.Abs().slots.Keys == m.keyframes.Keys
  {
    hide Consistent, Covisibility.IsCov;
  }

  /** An observation is made through the registered objects. */
  method Rebind(m: Map, c: Change)
    requires m.Valid() && (c.Observe? || c.Release?)
    modifies m, m.frameSet`slots, m.pointSet`obs
    ensures m.Valid() && LiveOf(m) == After(old(LiveOf(m)), c)
    ensures Stay(old(Registered(m)), Registered(m), c)
    ensures Added(old(Registered(m)), Registered(m)) == {}
    ensures m.Abs() == Rebound(old(m.Abs()), c)
  {
    hide Consistent, Covisibility.IsCov, SetSlot, ClearSlot, Map.Filed, Map.Abs, Stay, Added, Poses, Positions,
      Map.Observations;
    AllStay(Registered(m), c);
    TablesOf(m);
    if c.Release? {
      var _ := m.ClearObservation(c.k, c.i);
    } else if c.k in m.keyframes && c.id in m.mapPoints {
      m.FiledUnder(c.k);
      var _ := m.SetObservation(m.keyframes[c.k], c.i, m.mapPoints[c.id]);
    }
  }

  /** Another optimization result is offered to the committer. */
  method Recorrect(m: Map, c: Change)
    requires m.Valid() && c.Correct?
    modifies m`geometry, m.frameSet`pose, m.pointSet`pos
    ensures m.Valid() && LiveOf(m) == After(old(LiveOf(m)), c)
    ensures Stay(old(Registered(m)), Registered(m), c)
    ensures Added(old(Registered(m)), Registered(m)) == {}
  {
    hide Consistent, Covisibility.IsCov, Commit, Map.Filed, Stay, Added, Poses, Positions, Map.Observations;
    AllStay(Registered(m), c);
    var _ := CommitResult(m, c.r, c.skip, c.limit, m);
  }

  method Empty(m: Map)
    requires m.Valid()
    modifies m, m.frameSet`slots, m.pointSet`obs
    ensures m.Valid() && LiveOf(m) == After(old(LiveOf(m)), Reset)
    ensures Stay(old(Registered(m)), Registered(m), Reset)
    ensures Added(old(Registered(m)), Registered(m)) == {}
  {
    hide Consistent, Covisibility.IsCov, Map.Filed, Map.Abs;
    m.Clear();
  }

  method Step(m: Map, c: Change)
    requires m.Valid()
    modifies m, m.frameSet, m.pointSet
    ensures m.Valid() && LiveOf(m) == After(old(LiveOf(m)), c)
    ensures Stay(old(Registered(m)), Registered(m), c)
    ensures fresh(Added(old(Registered(m)), Registered(m)))
    ensures c.Observe? || c.Release? ==> m.Abs() == Rebound(old(m.Abs()), c)
  {
    hide Consistent, Covisibility.IsCov, Map.Filed, Map.Abs, Map.Valid, Stay, Added, Poses, Positions, After, Rebound;
    match c
    case AddFrame(k, keypoints, slots, pose) =>
      var frame := new Frame(k, keypoints, slots, pose, 0, 0);
      FileFrame(m, frame, c);
    case AddPoint(id, pos) =>
      var p := new MapPoint(id, pos, 0);
      FileMapPoint(m, p, c);
    case Observe(_, _, _) => Rebind(m, c);
    case Release(_, _) => Rebind(m, c);
    case DropFrame(_) => TakeFrame(m, c);
    case DropPoints(_) => TakePoints(m, c);
    case Correct(_, _, _) => Recorrect(m, c);
    case Reset => Empty(m);
  }

  ghost function Objects(who: Identity): set<object> {
    (set k | k in who.frames :: who.frames[k] as object) + (set id | id in who.points :: who.points[id] as object)
  }

  /** A registered object is replaced by none that existed: a taken id can come back, the object cannot. */
  lemma StillThereStep(who: Identity, before: Identity, after: Identity, c: Change)
    requires Stay(before, after, c) && Added(before, after) !! Objects(who)
    ensures StillThere(who, after.frames, after.points) <==>
      StillThere(who, before.frames, before.points) && Spares([c], who.frames.Keys, who.points.Keys)
  {
    assert c in [c];
    forall k | k in who.frames
      ensures k in after.frames && after.frames[k] == who.frames[k] <==>
        k in before.frames && before.frames[k] == who.frames[k] && !TakesFrame(c, k)
    {
      assert who.frames[k] in Objects(who);
      assert k in after.frames && k !in before.frames ==> after.frames[k] in Added(before, after);
    }
    forall id | id in who.points
      ensures id in after.points && after.points[id] == who.points[id] <==>
        id in before.points && before.points[id] == who.points[id] && !TakesPoint(c, id)
    {
      assert who.points[id] in Objects(who);
      assert id in after.points && id !in before.points ==> after.points[id] in Added(before, after);
    }
  }

  lemma SparesOneMore(changes: seq<Change>, n: nat, frames: set<nat>, points: set<nat>)
    requires n < |changes|
    ensures Spares(changes[..n + 1], frames, points) <==>
      Spares(changes[..n], frames, points) && Spares([changes[n]], frames, points)
  {
    assert changes[..n + 1] == changes[..n] + [changes[n]];
  }

  lemma AfterOneMore(live: Live, changes: seq<Change>, n: nat)
    requires n < |changes|
    ensures AfterAll(live, changes[..n + 1]) == After(AfterAll(live, changes[..n]), changes[n])
  {
    assert changes[..n + 1][..n] == changes[..n];
  }

  lemma OldOrAdded(m: Map, before: Identity, frames: set<Frame>, points: set<MapPoint>, c: Change)
    requires m.Valid() && Stay(before, Registered(m), c)
    requires forall k :: k in before.frames ==> before.frames[k] in frames
    requires forall id :: id in before.points ==> before.points[id] in points
    ensures forall f :: f in m.frameSet ==> f in frames || f in Added(before, Registered(m))
    ensures forall p :: p in m.pointSet ==> p in points || p in Added(before, Registered(m))
  {
    hide Consistent, Covisibility.IsCov, Map.Abs, TakesFrame, TakesPoint;
    forall f | f in m.frameSet
      ensures f in frames || f in Added(before, Registered(m))
    {
      assert m.keyframes[f.id] == f;
    }
    forall p | p in m.pointSet
      ensures p in points || p in Added(before, Registered(m))
    {
      assert m.mapPoints[p.id] == p;
    }
  }

  /** The changes made while the loop is solved, one after the other. */
  method ChangeAll(m: Map, changes: seq<Change>)
    requires m.Valid()
    modifies m, m.frameSet, m.pointSet
    ensures m.Valid() && LiveOf(m) == AfterAll(old(LiveOf(m)), changes)
    ensures StillThere(old(Registered(m)), m.keyframes, m.mapPoints) <==>
      Spares(changes, old(m.keyframes).Keys, old(m.mapPoints).Keys)
    ensures fresh(m.frameSet - old(m.frameSet)) && fresh(m.pointSet - old(m.pointSet))
  {
    hide Consistent, Covisibility.IsCov, Map.Filed, Map.Abs, Map.Valid, Stay, Added, LiveOf, After, AfterAll,
      Spares, StillThere;
    ghost var who, live := Registered(m), LiveOf(m);
    AllThere(who);
    for n := 0 to |changes|
      invariant m.Valid() && LiveOf(m) == AfterAll(live, changes[..n])
      invariant StillThere(who, m.keyframes, m.mapPoints) <==>
        Spares(changes[..n], who.frames.Keys, who.points.Keys)
      invariant fresh(m.frameSet - old(m.frameSet)) && fresh(m.pointSet - old(m.pointSet))
    {
      ghost var before, frames, points := Registered(m), m.frameSet, m.pointSet;
      FiledObjects(m);
      Step(m, changes[n]);
      OldOrAdded(m, before, frames, points, changes[n]);
      StillThereStep(who, before, Registered(m), changes[n]);
      SparesOneMore(changes, n, who.frames.Keys, who.points.Keys);
      AfterOneMore(live, changes, n);
    }
    assert changes[..|changes|] == changes;
  }

  lemma AllThere(who: Identity)
    ensures StillThere(who, who.frames, who.points) && Spares([], who.frames.Keys, who.points.Keys)
    ensures forall live :: AfterAll(live, []) == live
  {
  }

  lemma FiledObjects(m: Map)
    requires m.Valid()
    ensures m.Filed()
    ensures forall k :: k in m.keyframes ==> m.keyframes[k] in m.frameSet
    ensures forall id :: id in m.mapPoints ==> m.mapPoints[id] in m.pointSet
  {
  }

  // ---- the whole transaction --------------------------------------------

  /** What the solver answers: the solution and its metric. */
  datatype Answer = Answer(solution: Solution, metric: Option<real>)

  /** The frozen prefix is exactly the map at the start. */
  ghost predicate FrozenFrom(f: Frozen, start: Live, v: View) {
    && WellFrozen(f) && f.poses == start.poses && f.points == start.points && f.geometry == start.geometry
    && (forall k :: k in f.poses ==> k <= f.endpoint)
    && EarliestObservers(v, f.refs)
  }

  /** Appended keyframes keep their pose relative to the endpoint and to each other. */
  ghost predicate TailKept(f: Frozen, before: Live, after: Live) {
    forall a, b ::
      a in before.poses && a !in f.poses && b in before.poses && (b !in f.poses || b == f.endpoint) ==>
        && a in after.poses && b in after.poses
        && Compose(after.poses[a], Inverse(after.poses[b])) == Compose(before.poses[a], Inverse(before.poses[b]))
  }

  lemma CorrectedKeepsTail(f: Frozen, s: Solution, live: Live, o: Observers)
    requires WellFrozen(f) && Solves(s, f) && PrefixIntact(f, live)
    ensures TailKept(f, live, Corrected(f, s, live, o))
  {
    hide Compose, Inverse, NewPose, NewPoint;
    forall a, b | a in live.poses && a !in f.poses && b in live.poses && (b !in f.poses || b == f.endpoint)
      ensures var after := Corrected(f, s, live, o);
              Compose(after.poses[a], Inverse(after.poses[b])) == Compose(live.poses[a], Inverse(live.poses[b]))
    {
      TailKeepsRelativePoses(f, s, live, o, a, b);
    }
  }

  lemma SparedPrefixIsIntact(f: Frozen, v: View, start: Live, changes: seq<Change>)
    requires FrozenFrom(f, start, v) && Spares(changes, f.poses.Keys, f.points.Keys)
    requires AfterAll(start, changes).geometry == start.geometry
    ensures PrefixIntact(f, AfterAll(start, changes))
  {
    hide AfterAll, Spares;
    SpareMeansUnmoved(start, changes, f.poses.Keys, f.points.Keys);
  }

  ghost predicate Commits(f: Frozen, answer: Option<Answer>, changes: seq<Change>, before: Live, sameMap: bool) {
    && answer.Some? && answer.value.metric.Some? && sameMap
    && before.geometry == f.geometry && Spares(changes, f.poses.Keys, f.points.Keys)
  }

  method Begin(m: Map) returns (f: Option<Frozen>, who: Identity)
    requires m.Valid()
    ensures f.Some? <==> |m.keyframes| >= 2
    ensures who == Registered(m)
    ensures f.Some? ==> who.frames.Keys == f.value.poses.Keys && who.points.Keys == f.value.points.Keys
    ensures f.Some? ==> FrozenFrom(f.value, LiveOf(m), m.Abs())
  {
    hide Consistent, Covisibility.IsCov, Map.Filed, Map.Abs, WellFrozen, Poses, Positions, EarliestObservers;
    FiledObjects(m);
    LiveKeys(m);
    f, who := Freeze(m);
    if f.Some? {
      assert f.value.poses == Poses(m) && f.value.points == Positions(m);
    }
  }

  method Finish(m: Map, sameMap: bool, f: Frozen, who: Identity, answer: Answer) returns (done: bool)
    requires m.Valid() && WellFrozen(f) && Solves(answer.solution, f)
    requires who.frames.Keys == f.poses.Keys && who.points.Keys == f.points.Keys
    modifies m`geometry, m.frameSet`pose, m.pointSet`pos
    ensures m.Valid()
    ensures done <==> sameMap && f.geometry == old(m.geometry) && StillThere(who, m.keyframes, m.mapPoints)
                      && answer.metric.Some?
    ensures LiveOf(m) == if done then Corrected(f, answer.solution, old(LiveOf(m)), ObserversOn(m)) else old(LiveOf(m))
  {
    hide Consistent, Covisibility.IsCov, Map.Filed, Map.Abs, WellFrozen, Solves, Poses, Positions, ObserversOn,
      Corrected, StillThere;
    done := CommitLoop(m, sameMap, f, who, answer.solution, answer.metric);
  }

  /**
   * Freeze, solve while the changes happen, commit. For any solver and any changes: the loop is committed exactly if
   * there were two keyframes, the solver answered with a metric, the map is still the active one, no other result
   * moved the geometry and no frozen object was taken. Then every frozen object was where it was frozen, and the map
   * is the corrected one; otherwise it is what the changes made of it.
   */
  method RunLoop(m: Map, solve: Frozen -> Option<Answer>, changes: seq<Change>,
                 sameMap: bool) returns (done: bool, f: Option<Frozen>)
    requires m.Valid()
    requires forall f :: WellFrozen(f) && solve(f).Some? ==> Solves(solve(f).value.solution, f)
    modifies m, m.frameSet, m.pointSet
    ensures m.Valid()
    ensures f.Some? <==> |old(m.keyframes)| >= 2
    ensures f.Some? ==> FrozenFrom(f.value, old(LiveOf(m)), old(m.Abs()))
    ensures f.None? ==> !done && LiveOf(m) == old(LiveOf(m))
    ensures f.Some? ==>
      var before, answer := AfterAll(old(LiveOf(m)), changes), solve(f.value);
      && (done <==> Commits(f.value, answer, changes, before, sameMap))
      && (!done ==> LiveOf(m) == before)
      && (done ==>
            && PrefixIntact(f.value, before)
            && LiveOf(m) == Corrected(f.value, answer.value.solution, before, ObserversOn(m))
            && TailKept(f.value, before, LiveOf(m)))
  {
    hide Consistent, Covisibility.IsCov, Map.Filed, Map.Abs, Map.Valid, WellFrozen, Solves, LiveOf, Poses, Positions,
      EarliestObservers, AfterAll, Spares, Corrected, TailKept, PrefixIntact, ObserversOn, StillThere;
    ghost var start, v := LiveOf(m), m.Abs();
    var who;
    f, who := Begin(m);
    if f.None? {
      return false, None;
    }
    ChangeAll(m, changes);
    var answer := solve(f.value);
    if answer.None? {
      return false, f;
    }
    GeometryOf(m);
    done := Finish(m, sameMap, f.value, who, answer.value);
    if done {
      SparedPrefixIsIntact(f.value, v, start, changes);
      CorrectedKeepsTail(f.value, answer.value.solution, AfterAll(start, changes), ObserversOn(m));
    }
  }

  lemma GeometryOf(m: Map)
    ensures LiveOf(m).geometry == m.geometry
  {
  }
}
