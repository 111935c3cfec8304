/** Reclaiming a map that is over budget, in fixed stages, with the trajectory re-anchored before each cull. */
module ResourceBudget {
  import Quaternions
  import opened RigidMotion
  import opened MapEntities
  import opened Ordering
  import opened Covisibility
  import opened ObservationModel
  import opened SlamMap
  import opened Baseline
  import opened BudgetPolicy
  import opened CommitOnMap
  import opened Trajectory
  import opened MapExtent

  // ---- evaluation -----------------------------------------------------------

  method PointDescriptorBytes(m: Map) returns (bytes: nat)
    ensures bytes == Sum(PointBytes(m.mapPoints))
  {
    hide Sum;
    ghost var all := PointBytes(m.mapPoints);
    SumEnds(all);
    bytes := 0;
    var todo := m.mapPoints.Keys;
    assert all.Keys == todo;
    while todo != {}
      invariant todo <= m.mapPoints.Keys && bytes + Sum(Only(all, todo)) == Sum(all)
      decreases todo
    {
      var id :| id in todo;
      SumStep(all, todo, id);
      bytes := bytes + m.mapPoints[id].descriptorBytes;
      todo := todo - {id};
    }
  }

  method FrameDescriptorBytes(m: Map) returns (bytes: nat)
    ensures bytes == Sum(FrameBytes(m.keyframes))
  {
    hide Sum;
    ghost var all := FrameBytes(m.keyframes);
    SumEnds(all);
    bytes := 0;
    var todo := m.keyframes.Keys;
    assert all.Keys == todo;
    while todo != {}
      invariant todo <= m.keyframes.Keys && bytes + Sum(Only(all, todo)) == Sum(all)
      decreases todo
    {
      var k :| k in todo;
      SumStep(all, todo, k);
      bytes := bytes + m.keyframes[k].descriptorBytes;
      todo := todo - {k};
    }
  }

  method ImageBytes(m: Map) returns (bytes: nat)
    requires m.Filed()
    ensures bytes == Sum(Images(m))
  {
    hide Sum;
    ghost var all := Images(m);
    SumEnds(all);
    bytes := 0;
    var todo := m.keyframes.Keys;
    assert all.Keys == todo;
    while todo != {}
      invariant todo <= m.keyframes.Keys && bytes + Sum(Only(all, todo)) == Sum(all)
      decreases todo
    {
      var k :| k in todo;
      SumStep(all, todo, k);
      bytes := bytes + m.keyframes[k].imageBytes;
      todo := todo - {k};
    }
  }

  method Evaluate(m: Map) returns (u: Usage)
    requires m.Filed()
    ensures u == UsageOf(ExtentOf(m))
  {
    hide Sum, PointBytes, FrameBytes, Images;
    var points := PointDescriptorBytes(m);
    var frames := FrameDescriptorBytes(m);
    var images := ImageBytes(m);
    CountsAreExact(m);
    u := Usage(m.kfCount, m.mpCount, points + frames, images);
  }

  lemma CountsAreExact(m: Map)
    requires m.Filed()
    ensures m.kfCount == |m.keyframes| && m.mpCount == |m.mapPoints|
  {
  }

  // ---- points ---------------------------------------------------------------

  /** One removal per id, as stages 1, 2 and 6 do it. */
  method RemoveOneByOne(m: Map, ids: seq<nat>) returns (count: nat)
    requires m.Valid()
    modifies m`covisibility, m`lastHit, m`mapPoints, m`pointSet, m`mpCount, m`topology
    modifies m.pointSet`obs, m.frameSet`slots
    ensures m.Valid() && m.Abs() == RemovePoints(old(m.Abs()), IdSet(ids))
    ensures count == |old(m.mapPoints)| - |m.mapPoints|
    ensures ExtentOf(m) == old(ExtentOf(m)).(points := old(m.mapPoints) - IdSet(ids))
    ensures m.pointSet <= old(m.pointSet) && m.lastHit == old(m.lastHit) - old(m.mapPoints).Keys * IdSet(ids)
  {
    hide *;
    ghost var v, images := m.Abs(), Images(m);
    PointSetIs(m, v);
    ExtentParts(m);
    count := RemoveInTurn(m, ids);
    assert Images(m) == images;
    PointsLeft(v, IdSet(ids));
    PointSetIs(m, m.Abs());
    ExtentParts(m);
  }

  method RemoveInTurn(m: Map, ids: seq<nat>) returns (count: nat)
    requires m.Valid()
    modifies m`covisibility, m`lastHit, m`mapPoints, m`pointSet, m`mpCount, m`topology
    modifies m.pointSet`obs, m.frameSet`slots
    ensures m.Valid() && m.Abs() == RemovePoints(old(m.Abs()), IdSet(ids))
    ensures count == |old(m.mapPoints)| - |m.mapPoints|
    ensures m.pointSet <= old(m.pointSet) && m.lastHit == old(m.lastHit) - old(m.mapPoints).Keys * IdSet(ids)
  {
    hide *;
    ghost var v, hits := m.Abs(), m.lastHit;
    PointSetIs(m, v);
    NoneTaken(v, hits);
    count := 0;
    var i := 0;
    while i < |ids|
      invariant 0 <= i <= |ids| && m.Valid() && Taken(v, hits, m.Abs(), m.lastHit, IdSet(ids[..i]))
      invariant m.pointSet <= old(m.pointSet) && count == |old(m.mapPoints)| - |m.mapPoints|
    {
      var removed := RemoveOne(m, ids[i], v, hits, IdSet(ids[..i]));
      IdSetMore(ids, i);
      count := count + if removed then 1 else 0;
      i := i + 1;
    }
    assert ids[..i] == ids;
    AllTaken(v, hits, m.Abs(), m.lastHit, IdSet(ids));
  }

  /** These points were taken, and with them their last hits. */
  ghost predicate Taken(v: View, hits: map<nat, nat>, now: View, left: map<nat, nat>, ids: set<nat>) {
    now == RemovePoints(v, ids) && left == hits - v.points.Keys * ids
  }

  lemma NoneTaken(v: View, hits: map<nat, nat>)
    ensures Taken(v, hits, v, hits, IdSet([]))
  {
    RemoveNone(v);
  }

  lemma AllTaken(v: View, hits: map<nat, nat>, now: View, left: map<nat, nat>, ids: set<nat>)
    requires Taken(v, hits, now, left, ids)
    ensures now == RemovePoints(v, ids) && left == hits - v.points.Keys * ids
  {
  }

  lemma TakenToo(v: View, hits: map<nat, nat>, before: View, now0: map<nat, nat>, now: View, now1: map<nat, nat>,
                 done: set<nat>, id: nat)
    requires Taken(v, hits, before, now0, done) && now == RemovePoints(before, {id})
    requires now1 == if id in before.points then now0 - {id} else now0
    ensures Taken(v, hits, now, now1, done + {id})
  {
    hide RemovePoints;
    PointsLeft(v, done);
    RemoveTwice(v, done, {id});
  }

  lemma ExtentParts(m: Map)
    ensures ExtentOf(m) == Extent(m.mapPoints, m.keyframes, Images(m))
  {
  }

  method RemoveOne(m: Map, id: nat, ghost v: View, ghost hits: map<nat, nat>, ghost done: set<nat>)
    returns (removed: bool)
    requires m.Valid() && Taken(v, hits, m.Abs(), m.lastHit, done)
    modifies m`covisibility, m`lastHit, m`mapPoints, m`pointSet, m`mpCount, m`topology
    modifies m.pointSet`obs, m.frameSet`slots
    ensures m.Valid() && Taken(v, hits, m.Abs(), m.lastHit, done + {id}) && m.pointSet <= old(m.pointSet)
    ensures |m.mapPoints| == |old(m.mapPoints)| - if removed then 1 else 0
  {
    hide Consistent, IsCov, Map.Filed, RemovePoints, Taken;
    ghost var before, left := m.Abs(), m.lastHit;
    PointSetIs(m, before);
    removed := m.RemoveMapPoint(id);
    RemovedOnePoint(before, id);
    TakenToo(v, hits, before, left, m.Abs(), m.lastHit, done, id);
    PointSetIs(m, m.Abs());
  }

  lemma RemoveTwice(v: View, s: set<nat>, t: set<nat>)
    ensures RemovePoints(RemovePoints(v, s), t) == RemovePoints(v, s + t)
  {
    var one := RemovePoints(v, s);
    GoneTwice(v, s, t);
    forall k | k in v.slots
      ensures DropPoints(one.slots[k], PointsOf(one, t)) == DropPoints(v.slots[k], PointsOf(v, s + t))
    {
    }
    assert v.obs - PointsOf(v, s) - PointsOf(one, t) == v.obs - PointsOf(v, s + t);
    assert v.points - s - t == v.points - (s + t);
  }

  lemma GoneTwice(v: View, s: set<nat>, t: set<nat>)
    ensures PointsOf(v, s + t) == PointsOf(v, s) + PointsOf(RemovePoints(v, s), t)
  {
    var one := RemovePoints(v, s);
    forall x | x in t && x in v.points && v.points[x] !in PointsOf(v, s)
      ensures v.points[x] in PointsOf(one, t)
    {
      assert x in one.points;
    }
  }

  lemma RemovedOnePoint(v: View, id: nat)
    ensures id !in v.points ==> RemovePoints(v, {id}) == v
    ensures id in v.points ==> |RemovePoints(v, {id}).points| == |v.points| - 1
    ensures RemovePoints(v, {id}).obs.Keys <= v.obs.Keys
  {
    if id !in v.points {
      RemoveUnknown(v, id);
    } else {
      assert (v.points - {id}).Keys == v.points.Keys - {id};
    }
    hide PointsOf, DropPoints;
  }

  lemma RemoveUnknown(v: View, id: nat)
    requires id !in v.points
    ensures RemovePoints(v, {id}) == v
  {
    assert PointsOf(v, {id}) == {};
    forall k | k in v.slots
      ensures DropPoints(v.slots[k], {}) == v.slots[k]
    {
    }
    assert v.points - {id} == v.points;
  }

  lemma PointSetIs(m: Map, v: View)
    requires v == m.Abs()
    ensures m.pointSet == v.obs.Keys && m.mapPoints == v.points
  {
  }

  lemma IdSetMore(ids: seq<nat>, i: nat)
    requires i < |ids|
    ensures IdSet(ids[..i + 1]) == IdSet(ids[..i]) + {ids[i]}
  {
    assert ids[..i + 1] == ids[..i] + [ids[i]];
  }

  lemma RemoveNone(v: View)
    ensures RemovePoints(v, IdSet([])) == v
  {
    assert IdSet([]) == {};
    RemoveNothing(v);
  }

  lemma PointsLeft(v: View, ids: set<nat>)
    ensures RemovePoints(v, ids).points == v.points - ids
  {
  }

  /** Weak points that no tracked frame has hit for a while. */
  ghost function StaleIds(m: Map, minObservations: nat, window: nat): set<nat>
    reads m`mapPoints, m`pointSet, m.pointSet`obs, m`lastHit, m`kfCount
  {
    set id | id in m.mapPoints && m.mapPoints[id] in m.pointSet && |m.mapPoints[id].obs| < minObservations
             && LastHit(m, id) + window < m.kfCount
  }

  /** The same set, by value. */
  ghost function StaleIn(v: View, hits: map<nat, nat>, count: nat, minObservations: nat, window: nat): set<nat> {
    set id | id in v.points && v.points[id] in v.obs && |v.obs[v.points[id]]| < minObservations
             && (if id in hits then hits[id] else 0) + window < count
  }

  lemma StaleIsStaleIn(m: Map, minObservations: nat, window: nat)
    ensures StaleIds(m, minObservations, window) == StaleIn(m.Abs(), m.lastHit, m.kfCount, minObservations, window)
  {
  }

  /** Whether a point is stale does not depend on the points removed beside it. */
  lemma {:induction false} StaleStays(v: View, hits: map<nat, nat>, count: nat, ids: set<nat>, minObservations: nat,
                                      window: nat)
    requires Indexed(v)
    ensures StaleIn(RemovePoints(v, ids), hits - v.points.Keys * ids, count, minObservations, window) ==
            StaleIn(v, hits, count, minObservations, window) - ids
  {
    forall id | id in v.points && id !in ids
      ensures v.points[id] !in PointsOf(v, ids)
    {
    }
  }

  function LastHit(m: Map, id: nat): nat
    reads m`lastHit
  {
    if id in m.lastHit then m.lastHit[id] else 0
  }

  method StalePoints(m: Map, minObservations: nat, window: nat) returns (stale: seq<nat>)
    requires m.Filed()
    ensures IdSet(stale) == StaleIds(m, minObservations, window)
  {
    stale := [];
    var todo := m.mapPoints.Keys;
    while todo != {}
      invariant todo <= m.mapPoints.Keys
      invariant forall id :: id in stale <==>
        id in m.mapPoints && id !in todo && |m.mapPoints[id].obs| < minObservations
                                              && LastHit(m, id) + window < m.kfCount
      decreases todo
    {
      var id :| id in todo;
      if |m.mapPoints[id].obs| < minObservations && LastHit(m, id) + window < m.kfCount {
        stale := stale + [id];
      }
      todo := todo - {id};
    }
  }

  // ---- images -----------------------------------------------------------------

  /** Less than keep ids behind the newest keyframe. */
  predicate Recent(ids: set<nat>, k: nat, keep: nat) {
    forall x :: x in ids ==> x < k + keep
  }

  /** Drop the image buffers of all but the most recent keyframes, and of nothing else. */
  method ReleaseOldImages(m: Map, keepRecent: nat) returns (count: nat)
    requires m.Filed()
    modifies m.frameSet`imageBytes
    ensures forall f :: f in m.frameSet ==>
      f.imageBytes == if Recent(m.keyframes.Keys, f.id, keepRecent) then old(f.imageBytes) else 0
    ensures count == |Old(m.keyframes.Keys, m.keyframes.Keys, keepRecent)|
  {
    hide Recent, Increasing, Front, Old;
    count := 0;
    var ids := Ascending(m.keyframes.Keys);
    NothingOld(m.keyframes.Keys, ids, keepRecent);
    FrontIsAll(ids, m.keyframes.Keys);
    OldMeans(m.keyframes.Keys, keepRecent);
    if ids == [] {
      return;
    }
    var last := ids[|ids| - 1];
    ghost var all, done := m.keyframes.Keys, Old(m.keyframes.Keys, Front(ids, 0), keepRecent);
    for i := 0 to |ids|
      invariant done == Old(all, Front(ids, i), keepRecent) && count == |done|
      invariant forall f :: f in m.frameSet ==> f.imageBytes == if f.id in done then 0 else old(f.imageBytes)
    {
      var k := ids[i];
      OldMore(all, ids, i, keepRecent);
      if k + keepRecent <= last {
        m.keyframes[k].ReleaseImages();
        count := count + 1;
      }
      done := Old(all, Front(ids, i + 1), keepRecent);
    }
  }

  ghost function Old(all: set<nat>, ids: set<nat>, keep: nat): set<nat> {
    set k | k in ids && !Recent(all, k, keep)
  }

  lemma OldMeans(all: set<nat>, keep: nat)
    ensures forall k :: k in all ==> (k in Old(all, all, keep) <==> !Recent(all, k, keep))
  {
    hide Recent;
  }

  lemma NothingOld(all: set<nat>, ids: seq<nat>, keep: nat)
    ensures Old(all, Front(ids, 0), keep) == {}
  {
  }

  lemma OldMore(all: set<nat>, ids: seq<nat>, i: nat, keep: nat)
    requires Increasing(ids) && i < |ids| && forall x :: x in ids <==> x in all
    ensures ids[i] in all
    ensures var before, after := Old(all, Front(ids, i), keep), Old(all, Front(ids, i + 1), keep);
            if ids[i] + keep <= ids[|ids| - 1]
            then after == before + {ids[i]} && |after| == |before| + 1 else after == before
  {
    hide Recent, Front, Increasing;
    assert ids[i] in ids;
    FrontGrows(ids, i);
    NewestDecides(all, ids, ids[i], keep);
  }

  lemma NewestDecides(all: set<nat>, ids: seq<nat>, k: nat, keep: nat)
    requires Increasing(ids) && ids != [] && forall x :: x in ids <==> x in all
    ensures Recent(all, k, keep) <==> !(k + keep <= ids[|ids| - 1])
  {
    LastIsGreatest(ids);
  }

  // ---- culling one keyframe ---------------------------------------------------

  method RemoveOneFrame(m: Map, id: nat) returns (gone: bool)
    requires m.Valid() && id in m.keyframes
    modifies m`covisibility, m`keyframes, m`frameSet, m`kfCount, m`topology
    modifies m.frameSet`slots, m.pointSet`obs
    ensures gone && m.Valid() && m.frameSet <= old(m.frameSet)
    ensures m.keyframes == old(m.keyframes) - {id} && Poses(m) == old(Poses(m)) - {id}
    ensures m.Abs() == RemoveFrame(old(m.Abs()), id)
    ensures Within(ExtentOf(m), old(ExtentOf(m)))
  {
    hide Consistent, IsCov, RemoveFrame, Quaternions.Times, Quaternions.Dot, Map.Abs, Map.Observations;
    ghost var before, images := Poses(m), Images(m);
    gone := m.RemoveKeyFrame(id);
    assert m.frameSet <= old(m.frameSet);
    assert Poses(m) == before - {id};
    assert Images(m) == images - {id};
  }

  /** What a redundancy test looks at. */
  datatype State = State(v: View, poses: map<nat, SE3>)

  ghost function StateOf(m: Map): State
    reads m`mapPoints, m`pointSet, m.pointSet`obs, m`keyframes, m`frameSet, m.frameSet`slots, m.frameSet`pose
  {
    State(m.Abs(), Poses(m))
  }

  /** The state without a keyframe. */
  ghost function Culled(s: State, id: nat): State {
    State(RemoveFrame(s.v, id), s.poses - {id})
  }

  /** Re-anchor the records of a keyframe, then remove it. */
  method CullOne(m: Map, traj: PoseRecords, submap: nat, removed: Frame, replacement: Frame,
                 ghost T_ws: SE3) returns (gone: bool)
    requires m.Valid() && m.Has(removed) && m.Has(replacement) && removed.id != replacement.id
    modifies m`covisibility, m`keyframes, m`frameSet, m`kfCount, m`topology
    modifies m.frameSet`slots, m.pointSet`obs, traj
    ensures gone && m.Valid() && m.frameSet <= old(m.frameSet)
    ensures m.keyframes == old(m.keyframes) - {removed.id}
    ensures StateOf(m) == Culled(old(StateOf(m)), removed.id)
    ensures Within(ExtentOf(m), old(ExtentOf(m)))
    ensures RecordsKept(old(Track(Poses(m), traj.records)), Track(Poses(m), traj.records), submap, T_ws)
  {
    hide Map.Valid, Map.Filed, Map.Abs, RemoveFrame, RecordsKept, Poses, ExtentOf, Within, Reanchored;
    ghost var t := Track(Poses(m), traj.records);
    PosesOf(m, removed, replacement);
    traj.HandOver(submap, removed, replacement);
    HandedOverKept(t, Track(t.poses - {removed.id}, traj.records), submap, removed.id, replacement.id, T_ws);
    gone := RemoveOneFrame(m, removed.id);
  }

  lemma PosesOf(m: Map, removed: Frame, replacement: Frame)
    requires m.Valid() && m.Has(removed) && m.Has(replacement)
    ensures removed.id in Poses(m) && Poses(m)[removed.id] == removed.pose
    ensures replacement.id in Poses(m) && Poses(m)[replacement.id] == replacement.pose
  {
    hide Consistent, IsCov;
  }

  // ---- redundant neighbours ---------------------------------------------------

  /** The ids of the points a frame holds. */
  function SlotIds(slots: Slots): set<nat> {
    set i | 0 <= i < |slots| && slots[i] != null :: slots[i].id
  }

  method DistinctPointCount(frame: Frame) returns (count: nat)
    ensures count == |SlotIds(frame.slots)|
  {
    var ids: set<nat> := {};
    for i := 0 to |frame.slots|
      invariant ids == SlotIds(frame.slots[..i])
    {
      assert frame.slots[..i + 1] == frame.slots[..i] + [frame.slots[i]];
      if frame.slots[i] != null {
        ids := ids + {frame.slots[i].id};
      }
    }
    assert frame.slots[..|frame.slots|] == frame.slots;
    count := |ids|;
  }

  ghost predicate Redundant(shared: nat, older: nat, newer: nat, c: Config) {
    shared > 0 && older > 0 && newer > 0 && shared as real > c.overlap * Min(older, newer) as real
  }

  /** Keyframe a is redundant beside b. */
  ghost predicate RedundantIn(v: View, poses: map<nat, SE3>, a: nat, b: nat, c: Config) {
    && a in poses && b in poses && a in v.slots && b in v.slots
    && Close(poses[a], poses[b], c) && a != b
    && Redundant(|Shared(v.obs, a, b)|, |SlotIds(v.slots[a])|, |SlotIds(v.slots[b])|, c)
  }

  method RedundantPair(m: Map, older: Frame, newer: Frame, c: Config) returns (redundant: bool)
    requires m.Valid() && m.Has(older) && m.Has(newer)
    ensures redundant <==> RedundantIn(m.Abs(), Poses(m), older.id, newer.id, c)
  {
    hide Consistent, IsCov, Close, SlotIds, Shared;
    PosesOf(m, older, newer);
    if !Close(older.pose, newer.pose, c) {
      return false;
    }
    var shared := m.SharedObservationCount(older.id, newer.id);
    var countOlder := DistinctPointCount(older);
    var countNewer := DistinctPointCount(newer);
    if shared == 0 || countOlder == 0 || countNewer == 0 {
      return false;
    }
    var least := Min(countOlder, countNewer);
    RatioAbove(shared as real, least as real, c.overlap);
    redundant := shared as real / least as real > c.overlap;
  }

  lemma RatioAbove(a: real, b: real, r: real)
    requires b > 0.0
    ensures a / b > r <==> a > r * b
  {
    var q := a / b;
    assert a == q * b;
    if q > r {
      assert (q - r) * b > 0.0;
    } else {
      assert (r - q) * b >= 0.0;
    }
  }

  /** In the keyframes of the map, a directly precedes b. */
  ghost predicate Neighbours(frames: map<nat, Frame>, a: nat, b: nat) {
    a in frames && b in frames && a < b && forall k :: k in frames ==> k <= a || b <= k
  }

  /** a may be culled: not protected and not among the recent ones. */
  ghost predicate Cullable(frames: map<nat, Frame>, protectedIds: set<nat>, c: Config, a: nat) {
    a in frames && a !in protectedIds && exists last :: last in frames && a + c.keepRecent <= last
  }

  /** No cullable keyframe is redundant beside its successor. */
  ghost predicate NothingRedundant(v: View, poses: map<nat, SE3>, frames: map<nat, Frame>, protectedIds: set<nat>,
                                   c: Config) {
    forall a, b :: Neighbours(frames, a, b) && Cullable(frames, protectedIds, c, a) ==> !RedundantIn(v, poses, a, b, c)
  }

  lemma NeighboursAreAdjacent(frames: map<nat, Frame>, ids: seq<nat>, a: nat, b: nat)
    requires Increasing(ids) && (forall x :: x in ids <==> x in frames) && Neighbours(frames, a, b)
    ensures exists i :: 1 <= i < |ids| && ids[i - 1] == a && ids[i] == b
  {
    hide Increasing;
    var i :| 0 <= i < |ids| && ids[i] == b;
    var j :| 0 <= j < |ids| && ids[j] == a;
    IncreasingOrder(ids, j, i);
  }

  lemma ScanFoundNothing(v: View, poses: map<nat, SE3>, frames: map<nat, Frame>, ids: seq<nat>, protectedIds: set<nat>,
                         c: Config)
    requires Increasing(ids) && ids != [] && forall x :: x in ids <==> x in frames
    requires CleanUpTo(v, poses, ids, protectedIds, c, |ids|)
    ensures NothingRedundant(v, poses, frames, protectedIds, c)
  {
    LastIsGreatest(ids);
    hide RedundantIn, Increasing;
    forall a, b | Neighbours(frames, a, b) && Cullable(frames, protectedIds, c, a)
      ensures !RedundantIn(v, poses, a, b, c)
    {
      NeighboursAreAdjacent(frames, ids, a, b);
      var i :| 1 <= i < |ids| && ids[i - 1] == a && ids[i] == b;
    }
  }

  /**
   * The state of a culling in progress: map valid, exactly the reported keyframes gone, world poses where they were.
   */
  ghost predicate Culling(m: Map, traj: PoseRecords, protectedIds: set<nat>, submap: nat, culled: seq<nat>,
                          e0: Extent, t0: Track, T_ws: SE3)
    reads m, m.pointSet`obs, m.frameSet`slots, m.frameSet`pose, m.frameSet`imageBytes, traj
  {
    && m.Valid() && Progress(e0, ExtentOf(m), protectedIds, culled)
    && RecordsKept(t0, Track(Poses(m), traj.records), submap, T_ws)
  }

  // ---- why keyframes were culled ------------------------------------------------

  /** Keyframe older went because of newer, on this state. */
  datatype Reason = Reason(before: State, older: nat, newer: nat)

  /** It was redundant beside its successor, unprotected, and not among the recent ones. */
  ghost predicate Justified(g: Reason, protectedIds: set<nat>, c: Config) {
    && RedundantIn(g.before.v, g.before.poses, g.older, g.newer, c) && g.older < g.newer
    && (forall k :: k in g.before.poses ==> k <= g.older || g.newer <= k)
    && g.older !in protectedIds && exists last :: last in g.before.poses && g.older + c.keepRecent <= last
  }

  /** From state begin the listed keyframes went one after the other, each for a reason, which left state now. */
  ghost predicate Explained(begin: State, why: seq<Reason>, now: State, protectedIds: set<nat>, c: Config,
                            culled: seq<nat>) {
    && |why| == |culled|
    && (forall i :: 0 <= i < |why| ==> why[i].older == culled[i] && Justified(why[i], protectedIds, c))
    && (forall i :: 0 < i < |why| ==> why[i].before == Culled(why[i - 1].before, why[i - 1].older))
    && if why == [] then now == begin
       else why[0].before == begin && now == Culled(why[|why| - 1].before, why[|why| - 1].older)
  }

  lemma ExplainNone(begin: State, protectedIds: set<nat>, c: Config)
    ensures Explained(begin, [], begin, protectedIds, c, [])
  {
  }

  lemma ExplainMore(begin: State, why: seq<Reason>, now: State, protectedIds: set<nat>, c: Config, culled: seq<nat>,
                    g: Reason)
    requires Explained(begin, why, now, protectedIds, c, culled) && g.before == now && Justified(g, protectedIds, c)
    ensures Explained(begin, why + [g], Culled(now, g.older), protectedIds, c, culled + [g.older])
  {
    hide Justified, Culled;
  }

  /** A pair of neighbours in a scan. */
  lemma PairJustified(s: State, ids: seq<nat>, i: nat, protectedIds: set<nat>, c: Config)
    requires Increasing(ids) && 1 <= i < |ids| && ids[|ids| - 1] in s.poses && forall k :: k in s.poses ==> k in ids
    requires ids[i - 1] !in protectedIds && ids[i - 1] + c.keepRecent <= ids[|ids| - 1]
    requires RedundantIn(s.v, s.poses, ids[i - 1], ids[i], c)
    ensures Justified(Reason(s, ids[i - 1], ids[i]), protectedIds, c)
  {
    hide RedundantIn;
    forall k | k in s.poses
      ensures k <= ids[i - 1] || ids[i] <= k
    {
      var j :| 0 <= j < |ids| && ids[j] == k;
    }
  }

  /** Cull the older of two neighbours if it may go and is redundant. */
  method TryPair(m: Map, protectedIds: set<nat>, c: Config, traj: PoseRecords, submap: nat, older: Frame, newer: Frame,
                 last: nat,
                 culled0: seq<nat>, ghost e0: Extent, ghost t0: Track, ghost T_ws: SE3) returns (culled: seq<nat>)
    requires m.Has(older) && m.Has(newer) && Culling(m, traj, protectedIds, submap, culled0, e0, t0, T_ws)
    modifies m`covisibility, m`keyframes, m`frameSet, m`kfCount, m`topology
    modifies m.frameSet`slots, m.pointSet`obs, traj
    ensures Culling(m, traj, protectedIds, submap, culled, e0, t0, T_ws) && m.frameSet <= old(m.frameSet)
    ensures culled == culled0 || culled == culled0 + [older.id]
    ensures culled == culled0 ==>
      && m.Abs() == old(m.Abs()) && Poses(m) == old(Poses(m)) && m.keyframes == old(m.keyframes)
      && (older.id !in protectedIds && older.id + c.keepRecent <= last ==>
            !RedundantIn(m.Abs(), Poses(m), older.id, newer.id, c))
    ensures culled != culled0 ==>
      && m.keyframes == old(m.keyframes) - {older.id} && |m.keyframes| + 1 == old(|m.keyframes|)
      && StateOf(m) == Culled(old(StateOf(m)), older.id)
      && older.id !in protectedIds && older.id + c.keepRecent <= last
      && RedundantIn(old(m.Abs()), old(Poses(m)), older.id, newer.id, c)
  {
    hide Map.Valid, Progress, RecordsKept, Poses, ExtentOf, RedundantIn, Map.Abs, Culled;
    culled := culled0;
    if older.id !in protectedIds && older.id + c.keepRecent <= last {
      var redundant := RedundantPair(m, older, newer, c);
      if redundant {
        culled := CullNeighbour(m, protectedIds, c, traj, submap, older, newer, culled, e0, t0, T_ws);
      }
    }
  }

  /** What a scan works on: the ids in order, the frames and values it started with. */
  datatype Scan = Scan(ids: seq<nat>, all: map<nat, Frame>, v: View, poses: map<nat, SE3>, culled0: nat)

  /** Before pair i of a scan: frames ahead untouched, and nothing at all changed unless something was culled. */
  ghost predicate Scanning(m: Map, s: Scan, protectedIds: set<nat>, c: Config, culled: nat, i: nat)
    reads m`keyframes, m`frameSet, m.frameSet`pose, m`mapPoints, m`pointSet, m.pointSet`obs, m.frameSet`slots
  {
    && 1 <= i && StillAhead(s.ids, i - 1, m.keyframes, s.all) && (forall k :: k in m.keyframes ==> k in s.all)
    && |m.keyframes| + culled == |s.all| + s.culled0 && culled >= s.culled0
    && (culled == s.culled0 ==>
         && m.Abs() == s.v && Poses(m) == s.poses && m.keyframes == s.all
         && CleanUpTo(s.v, s.poses, s.ids, protectedIds, c, i))
  }

  method ScanStep(m: Map, protectedIds: set<nat>, c: Config, traj: PoseRecords, submap: nat, ids: seq<nat>,
                  all: map<nat, Frame>, i: nat, last: nat, culled0: seq<nat>, ghost s: Scan, ghost begin: State,
                  ghost why0: seq<Reason>, ghost e0: Extent, ghost t0: Track, ghost T_ws: SE3)
    returns (culled: seq<nat>, ghost why: seq<Reason>)
    requires Culling(m, traj, protectedIds, submap, culled0, e0, t0, T_ws)
    requires ids == s.ids && all == s.all && 1 <= i < |ids| && last == ids[|ids| - 1] && Increasing(ids)
    requires Scanning(m, s, protectedIds, c, |culled0|, i) && ids[i - 1] in all && ids[i] in all
    requires (forall x :: x in ids <==> x in all) && Explained(begin, why0, StateOf(m), protectedIds, c, culled0)
    modifies m`covisibility, m`keyframes, m`frameSet, m`kfCount, m`topology
    modifies m.frameSet`slots, m.pointSet`obs, traj
    ensures Culling(m, traj, protectedIds, submap, culled, e0, t0, T_ws) && m.frameSet <= old(m.frameSet)
    ensures Scanning(m, s, protectedIds, c, |culled|, i + 1)
    ensures Explained(begin, why, StateOf(m), protectedIds, c, culled)
  {
    hide Increasing, Culling, Culled, Poses, RedundantIn, Map.Abs, Map.Has, StillAhead, CleanUpTo, Explained, Justified;
    ghost var now := StateOf(m);
    AheadStep(ids, i, m.keyframes, all);
    if |culled0| == s.culled0 {
      CleanStep(s.v, s.poses, ids, protectedIds, c, i);
    }
    CullingHasBoth(m, traj, protectedIds, submap, culled0, e0, t0, T_ws, ids[i - 1], ids[i]);
    CullingKeys(m, traj, protectedIds, submap, culled0, e0, t0, T_ws);
    culled := TryPair(m, protectedIds, c, traj, submap, all[ids[i - 1]], all[ids[i]], last, culled0, e0, t0, T_ws);
    why := why0;
    assert culled == culled0 ==> StateOf(m) == now;
    if culled != culled0 {
      PairJustified(now, ids, i, protectedIds, c);
      ExplainMore(begin, why0, now, protectedIds, c, culled0, Reason(now, ids[i - 1], ids[i]));
      why := why0 + [Reason(now, ids[i - 1], ids[i])];
    }
  }

  lemma CullingKeys(m: Map, traj: PoseRecords, protectedIds: set<nat>, submap: nat, culled: seq<nat>,
                    e0: Extent, t0: Track, T_ws: SE3)
    requires Culling(m, traj, protectedIds, submap, culled, e0, t0, T_ws)
    ensures StateOf(m).poses.Keys == m.keyframes.Keys
  {
    hide Consistent, IsCov, Progress, RecordsKept, ExtentOf;
  }

  /** One scan over neighbouring keyframes; a replacement may itself be culled next, handing its records on. */
  method CullPass(m: Map, protectedIds: set<nat>, c: Config, traj: PoseRecords, submap: nat, culled0: seq<nat>,
                  ghost begin: State, ghost why0: seq<Reason>, ghost e0: Extent, ghost t0: Track, ghost T_ws: SE3)
    returns (culled: seq<nat>, ghost why: seq<Reason>)
    requires Culling(m, traj, protectedIds, submap, culled0, e0, t0, T_ws) && |m.keyframes| >= 2
    requires Explained(begin, why0, StateOf(m), protectedIds, c, culled0)
    modifies m`covisibility, m`keyframes, m`frameSet, m`kfCount, m`topology
    modifies m.frameSet`slots, m.pointSet`obs, traj
    ensures Culling(m, traj, protectedIds, submap, culled, e0, t0, T_ws) && m.frameSet <= old(m.frameSet)
    ensures |m.keyframes| + |culled| == old(|m.keyframes|) + |culled0| && |culled| >= |culled0|
    ensures |culled| == |culled0| ==> NothingRedundant(m.Abs(), Poses(m), m.keyframes, protectedIds, c)
    ensures Explained(begin, why, StateOf(m), protectedIds, c, culled)
  {
    hide Increasing, Culling, StateOf, Explained, Poses, NothingRedundant, Map.Abs, Scanning;
    culled, why := culled0, why0;
    var ids, all := Ascending(m.keyframes.Keys), m.keyframes;
    ghost var s := Scan(ids, all, m.Abs(), Poses(m), |culled0|);
    ScanStarts(m, s, protectedIds, c);
    var last := ids[|ids| - 1];
    var i := 1;
    while i < |ids|
      invariant 1 <= i <= |ids| && m.frameSet <= old(m.frameSet)
      invariant Culling(m, traj, protectedIds, submap, culled, e0, t0, T_ws)
      invariant Scanning(m, s, protectedIds, c, |culled|, i)
      invariant Explained(begin, why, StateOf(m), protectedIds, c, culled)
    {
      MembersKnown(ids, all, i);
      culled, why := ScanStep(m, protectedIds, c, traj, submap, ids, all, i, last, culled, s, begin, why, e0, t0, T_ws);
      i := i + 1;
    }
    ScanEnds(m, s, protectedIds, c, |culled|);
  }

  lemma MembersKnown(ids: seq<nat>, all: map<nat, Frame>, i: nat)
    requires 1 <= i < |ids| && forall x :: x in ids <==> x in all
    ensures ids[i - 1] in all && ids[i] in all
  {
    assert ids[i - 1] in ids && ids[i] in ids;
  }

  lemma ScanStarts(m: Map, s: Scan, protectedIds: set<nat>, c: Config)
    requires s == Scan(Ascending(m.keyframes.Keys), m.keyframes, m.Abs(), Poses(m), s.culled0)
    ensures Scanning(m, s, protectedIds, c, s.culled0, 1)
  {
    hide Increasing, Poses, Map.Abs, RedundantIn;
    assert forall j :: 0 <= j < |s.ids| ==> s.ids[j] in s.ids;
  }

  lemma ScanEnds(m: Map, s: Scan, protectedIds: set<nat>, c: Config, culled: nat)
    requires Increasing(s.ids) && s.ids != [] && (forall x :: x in s.ids <==> x in s.all)
    requires Scanning(m, s, protectedIds, c, culled, |s.ids|)
    ensures |m.keyframes| + culled == |s.all| + s.culled0 && culled >= s.culled0
    ensures culled == s.culled0 ==> NothingRedundant(m.Abs(), Poses(m), m.keyframes, protectedIds, c)
  {
    hide Increasing, Poses, Map.Abs, NothingRedundant, StillAhead, CleanUpTo;
    if culled == s.culled0 {
      ScanFoundNothing(s.v, s.poses, s.all, s.ids, protectedIds, c);
    }
  }

  lemma CullingHasBoth(m: Map, traj: PoseRecords, protectedIds: set<nat>, submap: nat, culled: seq<nat>,
                       e0: Extent, t0: Track, T_ws: SE3, a: nat, b: nat)
    requires Culling(m, traj, protectedIds, submap, culled, e0, t0, T_ws) && a in m.keyframes && b in m.keyframes
    ensures m.Has(m.keyframes[a]) && m.Has(m.keyframes[b]) && m.keyframes[a].id == a && m.keyframes[b].id == b
  {
    hide Progress, RecordsKept, Poses, ExtentOf;
    HasBoth(m, a, b);
  }

  /** Only a keyframe redundant beside its replacement is culled by a scan. */
  method CullNeighbour(m: Map, protectedIds: set<nat>, c: Config, traj: PoseRecords, submap: nat, removed: Frame,
                       replacement: Frame,
                       culled0: seq<nat>, ghost e0: Extent, ghost t0: Track, ghost T_ws: SE3) returns (culled: seq<nat>)
    requires m.Valid() && m.Has(removed) && m.Has(replacement)
    requires RedundantIn(m.Abs(), Poses(m), removed.id, replacement.id, c)
    requires removed.id !in protectedIds && Progress(e0, ExtentOf(m), protectedIds, culled0)
    requires RecordsKept(t0, Track(Poses(m), traj.records), submap, T_ws)
    modifies m`covisibility, m`keyframes, m`frameSet, m`kfCount, m`topology
    modifies m.frameSet`slots, m.pointSet`obs, traj
    ensures m.Valid() && m.frameSet <= old(m.frameSet)
    ensures m.keyframes == old(m.keyframes) - {removed.id} && |m.keyframes| + 1 == old(|m.keyframes|)
    ensures StateOf(m) == Culled(old(StateOf(m)), removed.id)
    ensures Progress(e0, ExtentOf(m), protectedIds, culled) && culled == culled0 + [removed.id]
    ensures RecordsKept(t0, Track(Poses(m), traj.records), submap, T_ws)
  {
    hide Map.Valid, Progress, RecordsKept, Poses, ExtentOf, Close, Redundant, Map.Abs, StateOf;
    culled := CullNext(m, protectedIds, traj, submap, removed, replacement, culled0, e0, t0, T_ws);
  }

  lemma HasBoth(m: Map, a: nat, b: nat)
    requires m.Valid() && a in m.keyframes && b in m.keyframes
    ensures m.Has(m.keyframes[a]) && m.Has(m.keyframes[b]) && m.keyframes[a].id == a && m.keyframes[b].id == b
  {
    hide Consistent, IsCov;
  }

  /** The scanned pairs before position n had nothing redundant that may go. */
  ghost predicate CleanUpTo(v: View, poses: map<nat, SE3>, ids: seq<nat>, protectedIds: set<nat>, c: Config, n: nat) {
    forall i :: 1 <= i < n && i < |ids| && ids[i - 1] !in protectedIds &&
                ids[i - 1] + c.keepRecent <= ids[|ids| - 1] ==>
      !RedundantIn(v, poses, ids[i - 1], ids[i], c)
  }

  /** From position n on the keyframes are the ones the scan started with. */
  ghost predicate StillAhead(ids: seq<nat>, n: nat, frames: map<nat, Frame>, all: map<nat, Frame>) {
    forall j :: n <= j < |ids| ==> ids[j] in frames && ids[j] in all && frames[ids[j]] == all[ids[j]]
  }

  lemma CleanStep(v: View, poses: map<nat, SE3>, ids: seq<nat>, protectedIds: set<nat>, c: Config, n: nat)
    requires 1 <= n < |ids| && CleanUpTo(v, poses, ids, protectedIds, c, n)
    ensures (ids[n - 1] !in protectedIds && ids[n - 1] + c.keepRecent <= ids[|ids| - 1] ==>
              !RedundantIn(v, poses, ids[n - 1], ids[n], c))
        ==> CleanUpTo(v, poses, ids, protectedIds, c, n + 1)
  {
    hide RedundantIn;
  }

  lemma AheadStep(ids: seq<nat>, n: nat, frames: map<nat, Frame>, all: map<nat, Frame>)
    requires Increasing(ids) && 1 <= n < |ids| && StillAhead(ids, n - 1, frames, all)
    ensures ids[n - 1] in frames && ids[n] in frames && ids[n - 1] in all && ids[n] in all
    ensures all[ids[n - 1]] == frames[ids[n - 1]] && all[ids[n]] == frames[ids[n]] && ids[n - 1] != ids[n]
    ensures StillAhead(ids, n, frames, all) && StillAhead(ids, n, frames - {ids[n - 1]}, all)
    ensures ids[|ids| - 1] in frames
  {
  }

  /** Cull one unprotected keyframe and report it. */
  method CullNext(m: Map, protectedIds: set<nat>, traj: PoseRecords, submap: nat, removed: Frame, replacement: Frame,
                  culled0: seq<nat>, ghost e0: Extent, ghost t0: Track, ghost T_ws: SE3) returns (culled: seq<nat>)
    requires m.Valid() && m.Has(removed) && m.Has(replacement) && removed.id != replacement.id
    requires removed.id !in protectedIds && Progress(e0, ExtentOf(m), protectedIds, culled0)
    requires RecordsKept(t0, Track(Poses(m), traj.records), submap, T_ws)
    modifies m`covisibility, m`keyframes, m`frameSet, m`kfCount, m`topology
    modifies m.frameSet`slots, m.pointSet`obs, traj
    ensures m.Valid() && m.frameSet <= old(m.frameSet)
    ensures m.keyframes == old(m.keyframes) - {removed.id} && |m.keyframes| + 1 == old(|m.keyframes|)
    ensures StateOf(m) == Culled(old(StateOf(m)), removed.id)
    ensures Progress(e0, ExtentOf(m), protectedIds, culled) && culled == culled0 + [removed.id]
    ensures RecordsKept(t0, Track(Poses(m), traj.records), submap, T_ws)
  {
    hide Map.Valid, Progress, RecordsKept, Poses, Images, Within, StateOf;
    ghost var e, t := ExtentOf(m), Track(Poses(m), traj.records);
    culled := culled0;
    KeysMinusOne(m.keyframes, removed.id);
    var gone := CullOne(m, traj, submap, removed, replacement, T_ws);
    if gone {
      culled := culled + [removed.id];
    }
    ProgressCull(e0, e, ExtentOf(m), protectedIds, culled0, removed.id);
    RecordsKeptTransitive(t0, t, Track(Poses(m), traj.records), submap, T_ws);
  }

  lemma KeysMinusOne(m: map<nat, Frame>, k: nat)
    requires k in m
    ensures |m - {k}| + 1 == |m|
  {
    assert (m - {k}).Keys == m.Keys - {k};
  }

  /** Scan until the keyframe count fits or nothing more is redundant. */
  method CullRedundant(m: Map, protectedIds: set<nat>, c: Config, traj: PoseRecords, submap: nat,
                       ghost e0: Extent, ghost t0: Track, ghost T_ws: SE3)
    returns (culled: seq<nat>, ghost why: seq<Reason>)
    requires Culling(m, traj, protectedIds, submap, [], e0, t0, T_ws)
    modifies m`covisibility, m`keyframes, m`frameSet, m`kfCount, m`topology
    modifies m.frameSet`slots, m.pointSet`obs, traj
    ensures Culling(m, traj, protectedIds, submap, culled, e0, t0, T_ws) && m.frameSet <= old(m.frameSet)
    ensures Explained(old(StateOf(m)), why, StateOf(m), protectedIds, c, culled)
    ensures why != [] ==> |old(m.keyframes)| > c.maxKeyframes
    ensures OverKeyframes(UsageOf(ExtentOf(m)), c) && |m.keyframes| >= 2 ==>
      NothingRedundant(m.Abs(), Poses(m), m.keyframes, protectedIds, c)
  {
    hide Culling, StateOf, Explained, Poses, ExtentOf, UsageOf, NothingRedundant, Map.Abs;
    culled, why := [], [];
    FramesCounted(m);
    ghost var begin := StateOf(m);
    ExplainNone(begin, protectedIds, c);
    var usage := EvaluateCulling(m, traj, protectedIds, submap, culled, e0, t0, T_ws);
    while OverKeyframes(usage, c)
      invariant Culling(m, traj, protectedIds, submap, culled, e0, t0, T_ws) && m.frameSet <= old(m.frameSet)
      invariant usage == UsageOf(ExtentOf(m)) && Explained(begin, why, StateOf(m), protectedIds, c, culled)
      invariant m.keyframes == old(m.keyframes) || |old(m.keyframes)| > c.maxKeyframes
      invariant why != [] ==> |old(m.keyframes)| > c.maxKeyframes
      decreases |m.keyframes|
    {
      if |m.keyframes| < 2 {
        break;
      }
      var count := |culled|;
      FramesCounted(m);
      culled, why := CullPass(m, protectedIds, c, traj, submap, culled, begin, why, e0, t0, T_ws);
      if |culled| == count {
        break;
      }
      usage := EvaluateCulling(m, traj, protectedIds, submap, culled, e0, t0, T_ws);
    }
  }

  lemma FramesCounted(m: Map)
    ensures UsageOf(ExtentOf(m)).keyframes == |m.keyframes|
  {
    hide Sum;
  }

  method EvaluateCulling(m: Map, ghost traj: PoseRecords, ghost protectedIds: set<nat>, ghost submap: nat,
                         ghost culled: seq<nat>,
                         ghost e0: Extent, ghost t0: Track, ghost T_ws: SE3) returns (u: Usage)
    requires Culling(m, traj, protectedIds, submap, culled, e0, t0, T_ws)
    ensures u == UsageOf(ExtentOf(m))
  {
    hide Consistent, IsCov, Progress, RecordsKept, Poses, ExtentOf, UsageOf;
    u := Evaluate(m);
  }
}
