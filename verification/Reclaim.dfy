/** The stages of a reclaim in order, each followed by a check whether the map fits its budget again. */
module Reclaim {
  import opened RigidMotion
  import opened MapEntities
  import opened Ordering
  import opened Covisibility
  import opened ObservationModel
  import opened SlamMap
  import opened BudgetPolicy
  import opened CommitOnMap
  import opened Trajectory
  import opened MapExtent
  import opened ResourceBudget

  // ---- compaction of older keyframes ------------------------------------------

  /** The kept keyframe that takes over: the first one from id on, else the last one. */
  predicate TakesOver(keep: set<nat>, id: nat, r: nat) {
    && r in keep
    && (r >= id ==> forall x :: x in keep && x >= id ==> r <= x)
    && (r < id ==> forall x :: x in keep ==> x <= r)
  }

  method FindReplacement(kept: seq<nat>, ghost keep: set<nat>, id: nat) returns (r: nat)
    requires kept != [] && Increasing(kept) && forall x :: x in kept <==> x in keep
    ensures TakesOver(keep, id, r)
  {
    LastIsGreatest(kept);
    FrontIsAll(kept, keep);
    var i := 0;
    while i < |kept|
      invariant 0 <= i <= |kept| && forall x :: x in Front(kept, i) ==> x < id
    {
      FrontGrows(kept, i);
      if kept[i] >= id {
        FirstFrom(kept, i, keep, id);
        return kept[i];
      }
      i := i + 1;
    }
    return kept[|kept| - 1];
  }

  lemma FirstFrom(kept: seq<nat>, i: nat, keep: set<nat>, id: nat)
    requires Increasing(kept) && i < |kept| && kept[i] >= id && forall x :: x in kept <==> x in keep
    requires forall x :: x in Front(kept, i) ==> x < id
    ensures TakesOver(keep, id, kept[i])
  {
    FrontMembers(kept, i);
    hide Front;
    assert kept[i] in kept;
    forall x | x in keep && x >= id
      ensures kept[i] <= x
    {
      var j :| 0 <= j < |kept| && kept[j] == x;
      IncreasingOrder(kept, j, i);
    }
  }

  /** Keyframes of all that are kept or lie at position i or later. */
  ghost predicate Compacted(frames: map<nat, Frame>, all: map<nat, Frame>, ids: seq<nat>, keep: set<nat>, i: nat)
    requires i <= |ids|
  {
    && (forall k :: k in frames <==> k in all && (k in keep || k !in Front(ids, i)))
    && (forall k :: k in frames ==> frames[k] == all[k])
  }

  lemma CompactedStep(frames: map<nat, Frame>, all: map<nat, Frame>, ids: seq<nat>, keep: set<nat>, i: nat)
    requires Increasing(ids) && i < |ids| && Compacted(frames, all, ids, keep, i) && ids[i] in all
    ensures ids[i] in frames
    ensures ids[i] in keep ==> Compacted(frames, all, ids, keep, i + 1)
    ensures ids[i] !in keep ==> Compacted(frames - {ids[i]}, all, ids, keep, i + 1)
  {
    FrontGrows(ids, i);
    hide Front, Increasing;
  }

  /** Thin the older keyframes down to keep, handing every removed one's records to a kept one. */
  method ThinOut(m: Map, protectedIds: set<nat>, traj: PoseRecords, submap: nat, keep: set<nat>, culled0: seq<nat>,
                 ghost e0: Extent, ghost t0: Track, ghost T_ws: SE3) returns (culled: seq<nat>, count: nat)
    requires Culling(m, traj, protectedIds, submap, culled0, e0, t0, T_ws)
    requires keep != {} && keep <= m.keyframes.Keys && protectedIds * m.keyframes.Keys <= keep
    modifies m`covisibility, m`keyframes, m`frameSet, m`kfCount, m`topology
    modifies m.frameSet`slots, m.pointSet`obs, traj
    ensures Culling(m, traj, protectedIds, submap, culled, e0, t0, T_ws) && m.frameSet <= old(m.frameSet)
    ensures m.keyframes.Keys == keep && count == |old(m.keyframes)| - |m.keyframes|
    ensures culled0 <= culled && |culled| == |culled0| + count
    ensures OnlyFramesGone(old(StateOf(m)), StateOf(m))
  {
    hide *;
    var ids, kept := Ascending(m.keyframes.Keys), Ascending(keep);
    ghost var all, start := m.keyframes, StateOf(m);
    culled, count := culled0, 0;
    CompactedStart(all, ids, keep);
    NoFramesGone(start);
    var i := 0;
    while i < |ids|
      invariant 0 <= i <= |ids| && m.frameSet <= old(m.frameSet)
      invariant Culling(m, traj, protectedIds, submap, culled, e0, t0, T_ws)
      invariant Compacted(m.keyframes, all, ids, keep, i) && count == |all| - |m.keyframes|
      invariant culled0 <= culled && |culled| == |culled0| + count && OnlyFramesGone(start, StateOf(m))
    {
      assert ids[i] in ids;
      CompactedStep(m.keyframes, all, ids, keep, i);
      if ids[i] !in keep {
        var r := FindReplacement(kept, keep, ids[i]);
        KeptIsThere(m.keyframes, all, ids, keep, i, r, ids[i]);
        OneFrameLess(m.keyframes, ids[i]);
        ghost var now := StateOf(m);
        CullingKeys(m, traj, protectedIds, submap, culled, e0, t0, T_ws);
        OneFrameGone(start, now, ids[i]);
        culled := ThinOne(m, protectedIds, traj, submap, ids[i], r, culled, e0, t0, T_ws);
        assert StateOf(m) == Culled(now, ids[i]);
        count := count + 1;
      }
      i := i + 1;
    }
    CompactedEnd(m.keyframes, all, ids, keep);
  }

  lemma OneFrameLess(frames: map<nat, Frame>, id: nat)
    requires id in frames
    ensures |frames - {id}| == |frames| - 1
  {
    assert (frames - {id}).Keys == frames.Keys - {id};
  }

  lemma KeptIsThere(frames: map<nat, Frame>, all: map<nat, Frame>, ids: seq<nat>, keep: set<nat>, i: nat, r: nat,
                    removed: nat)
    requires i <= |ids| && Compacted(frames, all, ids, keep, i) && keep <= all.Keys && TakesOver(keep, removed, r)
    ensures r in frames && r in keep
  {
  }

  lemma CompactedStart(all: map<nat, Frame>, ids: seq<nat>, keep: set<nat>)
    ensures Compacted(all, all, ids, keep, 0)
  {
  }

  lemma CompactedEnd(frames: map<nat, Frame>, all: map<nat, Frame>, ids: seq<nat>, keep: set<nat>)
    requires Compacted(frames, all, ids, keep, |ids|) && keep <= all.Keys && forall x :: x in ids <==> x in all
    ensures frames.Keys == keep
  {
    FrontIsAll(ids, all.Keys);
  }

  method ThinOne(m: Map, protectedIds: set<nat>, traj: PoseRecords, submap: nat, id: nat, replacement: nat,
                 culled0: seq<nat>,
                 ghost e0: Extent, ghost t0: Track, ghost T_ws: SE3) returns (culled: seq<nat>)
    requires Culling(m, traj, protectedIds, submap, culled0, e0, t0, T_ws)
    requires id in m.keyframes && replacement in m.keyframes && id != replacement && id !in protectedIds
    modifies m`covisibility, m`keyframes, m`frameSet, m`kfCount, m`topology
    modifies m.frameSet`slots, m.pointSet`obs, traj
    ensures Culling(m, traj, protectedIds, submap, culled, e0, t0, T_ws) && m.frameSet <= old(m.frameSet)
    ensures m.keyframes == old(m.keyframes) - {id} && culled == culled0 + [id]
    ensures StateOf(m) == Culled(old(StateOf(m)), id)
  {
    hide Map.Valid, Progress, RecordsKept, Poses, ExtentOf;
    CullingHasBoth(m, traj, protectedIds, submap, culled0, e0, t0, T_ws, id, replacement);
    culled := CullNext(m, protectedIds, traj, submap, m.keyframes[id], m.keyframes[replacement], culled0, e0, t0, T_ws);
  }

  /** Points went, and with them their slots and observations; keyframes and poses stayed. */
  ghost predicate OnlyPointsGone(before: State, after: State) {
    && after.poses == before.poses
    && after.v == RemovePoints(before.v, before.v.points.Keys - after.v.points.Keys)
  }

  lemma RemovedOnlyPoints(before: State, after: State, ids: set<nat>)
    requires after.poses == before.poses && after.v == RemovePoints(before.v, ids)
    ensures OnlyPointsGone(before, after)
  {
    assert before.v.points.Keys - after.v.points.Keys == before.v.points.Keys * ids;
    assert PointsOf(before.v, before.v.points.Keys * ids) == PointsOf(before.v, ids);
    assert before.v.points - ids == before.v.points - before.v.points.Keys * ids;
  }

  lemma OnlyPointsTwice(a: State, b: State, c: State)
    requires OnlyPointsGone(a, b) && OnlyPointsGone(b, c)
    ensures OnlyPointsGone(a, c)
  {
    hide RemovePoints;
    RemoveTwice(a.v, a.v.points.Keys - b.v.points.Keys, b.v.points.Keys - c.v.points.Keys);
    RemovedOnlyPoints(a, c, (a.v.points.Keys - b.v.points.Keys) + (b.v.points.Keys - c.v.points.Keys));
  }

  lemma NoPointsGone(s: State)
    ensures OnlyPointsGone(s, s)
  {
    RemoveNothing(s.v);
    assert s.v.points.Keys - s.v.points.Keys == {};
  }

  // ---- stages on points and images, during a culling -----------------------------

  /** Points went away, nothing else moved. */
  lemma PointsOnly(e0: Extent, e: Extent, next: Extent, ids: set<nat>, protectedIds: set<nat>, culled: seq<nat>)
    requires Progress(e0, e, protectedIds, culled) && next == e.(points := e.points - ids)
    ensures Progress(e0, next, protectedIds, culled) && Removed(e, next, ids, |e.points| - |next.points|)
  {
    ProgressSame(e0, e, next, protectedIds, culled);
  }

  /** Exactly these points were removed and nothing else, and count says how many of them there were. */
  ghost predicate Removed(before: Extent, after: Extent, ids: set<nat>, count: nat) {
    after == before.(points := before.points - ids) && count == |before.points| - |after.points|
  }

  /** The ids of the points nothing observes. */
  ghost function Unobserved(m: Map): set<nat>
    reads m`mapPoints, m`pointSet, m.pointSet`obs
  {
    m.WeakIds(1)
  }

  /** The ids of the weak points no tracked frame has hit for a while. */
  ghost function Stale(m: Map, c: Config): set<nat>
    reads m`mapPoints, m`pointSet, m.pointSet`obs, m`lastHit, m`kfCount
  {
    StaleIds(m, c.weakMinObservations, c.staleWindow)
  }

  lemma CullingParts(m: Map, traj: PoseRecords, protectedIds: set<nat>, submap: nat, culled: seq<nat>,
                     e0: Extent, t0: Track, T_ws: SE3)
    ensures Culling(m, traj, protectedIds, submap, culled, e0, t0, T_ws) <==>
      && m.Valid() && Progress(e0, ExtentOf(m), protectedIds, culled)
      && RecordsKept(t0, Track(Poses(m), traj.records), submap, T_ws)
  {
  }

  /** Points are removed one by one while the culling state stands. */
  method DropOneByOne(m: Map, ids: seq<nat>, ghost traj: PoseRecords, ghost protectedIds: set<nat>, ghost submap: nat,
                      ghost culled: seq<nat>, ghost e0: Extent, ghost t0: Track, ghost T_ws: SE3) returns (count: nat)
    requires Culling(m, traj, protectedIds, submap, culled, e0, t0, T_ws)
    modifies m`covisibility, m`lastHit, m`mapPoints, m`pointSet, m`mpCount, m`topology
    modifies m.pointSet`obs, m.frameSet`slots
    ensures Culling(m, traj, protectedIds, submap, culled, e0, t0, T_ws) && m.pointSet <= old(m.pointSet)
    ensures Removed(old(ExtentOf(m)), ExtentOf(m), IdSet(ids), count)
    ensures OnlyPointsGone(old(StateOf(m)), StateOf(m))
    ensures m.Abs() == RemovePoints(old(m.Abs()), IdSet(ids))
    ensures m.lastHit == old(m.lastHit) - old(m.mapPoints).Keys * IdSet(ids)
  {
    hide Culling, Map.Valid, Progress, RecordsKept, Poses, RemovePoints, Images, IdSet, Map.Abs, OnlyPointsGone;
    ghost var e, s := ExtentOf(m), StateOf(m);
    CullingParts(m, traj, protectedIds, submap, culled, e0, t0, T_ws);
    count := RemoveOneByOne(m, ids);
    RemovedOnlyPoints(s, StateOf(m), IdSet(ids));
    PointsOnly(e0, e, ExtentOf(m), IdSet(ids), protectedIds, culled);
    CullingParts(m, traj, protectedIds, submap, culled, e0, t0, T_ws);
  }

  lemma CullingIsFiled(m: Map, traj: PoseRecords, protectedIds: set<nat>, submap: nat, culled: seq<nat>,
                       e0: Extent, t0: Track, T_ws: SE3)
    requires Culling(m, traj, protectedIds, submap, culled, e0, t0, T_ws)
    ensures m.Filed()
  {
    hide Consistent, IsCov, Progress, RecordsKept;
  }

  /** Stage 1: points without any observation, one by one. */
  method RemoveUnobserved(m: Map, ghost c: Config, ghost traj: PoseRecords, ghost protectedIds: set<nat>,
                          ghost submap: nat, ghost culled: seq<nat>,
                          ghost e0: Extent, ghost t0: Track, ghost T_ws: SE3) returns (count: nat)
    requires Culling(m, traj, protectedIds, submap, culled, e0, t0, T_ws)
    modifies m`covisibility, m`lastHit, m`mapPoints, m`pointSet, m`mpCount, m`topology
    modifies m.pointSet`obs, m.frameSet`slots
    ensures Culling(m, traj, protectedIds, submap, culled, e0, t0, T_ws) && m.pointSet <= old(m.pointSet)
    ensures Removed(old(ExtentOf(m)), ExtentOf(m), old(Unobserved(m)), count)
    ensures OnlyPointsGone(old(StateOf(m)), StateOf(m))
    ensures Stale(m, c) == old(Stale(m, c)) - old(Unobserved(m))
  {
    hide *;
    CullingIsFiled(m, traj, protectedIds, submap, culled, e0, t0, T_ws);
    CullingIsIndexed(m, traj, protectedIds, submap, culled, e0, t0, T_ws);
    ghost var v, hits, unobserved := m.Abs(), m.lastHit, Unobserved(m);
    PointsByValue(m, c);
    var ids := m.WeakPoints(1);
    assert IdSet(ids) == unobserved;
    count := DropOneByOne(m, ids, traj, protectedIds, submap, culled, e0, t0, T_ws);
    StaleLeft(m, c, v, hits, unobserved);
  }

  lemma StaleLeft(m: Map, c: Config, v: View, hits: map<nat, nat>, ids: set<nat>)
    requires Indexed(v) && m.Abs() == RemovePoints(v, ids) && m.lastHit == hits - v.points.Keys * ids
    ensures Stale(m, c) == StaleIn(v, hits, m.kfCount, c.weakMinObservations, c.staleWindow) - ids
  {
    hide *;
    StaleStays(v, hits, m.kfCount, ids, c.weakMinObservations, c.staleWindow);
    PointsByValue(m, c);
  }

  lemma PointsByValue(m: Map, c: Config)
    ensures m.Abs().points == m.mapPoints == ExtentOf(m).points && Unobserved(m) == m.WeakIds(1)
    ensures Stale(m, c) == StaleIn(m.Abs(), m.lastHit, m.kfCount, c.weakMinObservations, c.staleWindow)
  {
    StaleIsStaleIn(m, c.weakMinObservations, c.staleWindow);
  }

  lemma CullingIsIndexed(m: Map, traj: PoseRecords, protectedIds: set<nat>, submap: nat, culled: seq<nat>,
                         e0: Extent, t0: Track, T_ws: SE3)
    requires Culling(m, traj, protectedIds, submap, culled, e0, t0, T_ws)
    ensures Indexed(m.Abs())
  {
    hide IsCov, Progress, RecordsKept;
    ConsistentIsIndexed(m.Abs());
  }

  /** Stage 2: weak points that were not hit for a while. */
  method RemoveStale(m: Map, c: Config, ghost traj: PoseRecords, ghost protectedIds: set<nat>, ghost submap: nat,
                     ghost culled: seq<nat>,
                     ghost e0: Extent, ghost t0: Track, ghost T_ws: SE3) returns (count: nat)
    requires Culling(m, traj, protectedIds, submap, culled, e0, t0, T_ws)
    modifies m`covisibility, m`lastHit, m`mapPoints, m`pointSet, m`mpCount, m`topology
    modifies m.pointSet`obs, m.frameSet`slots
    ensures Culling(m, traj, protectedIds, submap, culled, e0, t0, T_ws) && m.pointSet <= old(m.pointSet)
    ensures Removed(old(ExtentOf(m)), ExtentOf(m), old(Stale(m, c)), count)
    ensures OnlyPointsGone(old(StateOf(m)), StateOf(m))
  {
    hide Culling, OnlyPointsGone, StateOf, Map.Filed, StaleIds, IdSet;
    CullingIsFiled(m, traj, protectedIds, submap, culled, e0, t0, T_ws);
    var ids := StalePoints(m, c.weakMinObservations, c.staleWindow);
    count := DropOneByOne(m, ids, traj, protectedIds, submap, culled, e0, t0, T_ws);
  }

  /** Stage 5's last part: the points a compaction left unobserved, in one batch. */
  method RemoveOrphans(m: Map, ghost traj: PoseRecords, ghost protectedIds: set<nat>, ghost submap: nat,
                       ghost culled: seq<nat>,
                       ghost e0: Extent, ghost t0: Track, ghost T_ws: SE3) returns (count: nat)
    requires Culling(m, traj, protectedIds, submap, culled, e0, t0, T_ws)
    modifies m`covisibility, m`lastHit, m`mapPoints, m`pointSet, m`mpCount, m`topology
    modifies m.pointSet`obs, m.frameSet`slots
    ensures Culling(m, traj, protectedIds, submap, culled, e0, t0, T_ws) && m.pointSet <= old(m.pointSet)
    ensures Removed(old(ExtentOf(m)), ExtentOf(m), old(Unobserved(m)), count)
  {
    hide Culling, Map.Filed, Map.WeakIds, IdSet;
    CullingIsFiled(m, traj, protectedIds, submap, culled, e0, t0, T_ws);
    var ids := m.WeakPoints(1);
    count := DropBatch(m, ids, traj, protectedIds, submap, culled, e0, t0, T_ws);
  }

  /** Points are removed in one batch while the culling state stands. */
  method DropBatch(m: Map, ids: seq<nat>, ghost traj: PoseRecords, ghost protectedIds: set<nat>, ghost submap: nat,
                   ghost culled: seq<nat>, ghost e0: Extent, ghost t0: Track, ghost T_ws: SE3) returns (count: nat)
    requires Culling(m, traj, protectedIds, submap, culled, e0, t0, T_ws)
    modifies m`covisibility, m`lastHit, m`mapPoints, m`pointSet, m`mpCount, m`topology
    modifies m.pointSet`obs, m.frameSet`slots
    ensures Culling(m, traj, protectedIds, submap, culled, e0, t0, T_ws) && m.pointSet <= old(m.pointSet)
    ensures ExtentOf(m) == old(ExtentOf(m)).(points := old(m.mapPoints) - IdSet(ids))
    ensures count == |old(m.mapPoints)| - |m.mapPoints|
  {
    hide Culling, Map.Valid, Progress, RecordsKept, Poses, RemovePoints, Images, IdSet, Map.Abs;
    ghost var e := ExtentOf(m);
    CullingParts(m, traj, protectedIds, submap, culled, e0, t0, T_ws);
    count := RemoveBatch(m, ids);
    PointsOnly(e0, e, ExtentOf(m), IdSet(ids), protectedIds, culled);
    CullingParts(m, traj, protectedIds, submap, culled, e0, t0, T_ws);
  }

  method RemoveBatch(m: Map, ids: seq<nat>) returns (count: nat)
    requires m.Valid()
    modifies m`covisibility, m`lastHit, m`mapPoints, m`pointSet, m`mpCount, m`topology
    modifies m.pointSet`obs, m.frameSet`slots
    ensures m.Valid() && m.pointSet <= old(m.pointSet) && count == |old(m.mapPoints)| - |m.mapPoints|
    ensures ExtentOf(m) == old(ExtentOf(m)).(points := old(m.mapPoints) - IdSet(ids))
  {
    hide Map.Valid, RemovePoints, Images, IdSet;
    ghost var v := m.Abs();
    PointSetIs(m, v);
    count := m.RemoveMapPoints(ids);
    PointsLeft(v, IdSet(ids));
    PointSetIs(m, m.Abs());
    ObsLeft(v, IdSet(ids));
  }

  lemma ObsLeft(v: View, ids: set<nat>)
    ensures RemovePoints(v, ids).obs.Keys <= v.obs.Keys
  {
  }

  ghost function Unloaded(images: map<nat, nat>, ids: set<nat>): map<nat, nat> {
    map k | k in images :: if k in ids then 0 else images[k]
  }

  /** The keyframes that are not among the recent ones. */
  ghost function OldOnes(frames: map<nat, Frame>, keep: nat): set<nat> {
    Old(frames.Keys, frames.Keys, keep)
  }

  /** Stage 3: image buffers of all but the recent keyframes. */
  method ReleaseImages(m: Map, c: Config, ghost traj: PoseRecords, ghost protectedIds: set<nat>, ghost submap: nat,
                       ghost culled: seq<nat>,
                       ghost e0: Extent, ghost t0: Track, ghost T_ws: SE3) returns (count: nat)
    requires Culling(m, traj, protectedIds, submap, culled, e0, t0, T_ws)
    modifies m.frameSet`imageBytes
    ensures Culling(m, traj, protectedIds, submap, culled, e0, t0, T_ws)
    ensures ExtentOf(m) == old(ExtentOf(m)).(images := Unloaded(old(Images(m)), OldOnes(m.keyframes, c.keepRecent)))
    ensures count == |OldOnes(m.keyframes, c.keepRecent)|
  {
    hide Consistent, IsCov, Progress, RecordsKept, Poses, Recent;
    ghost var e := ExtentOf(m);
    count := ReleaseOldImages(m, c.keepRecent);
    assert Within(ExtentOf(m), e);
    ProgressSame(e0, e, ExtentOf(m), protectedIds, culled);
  }

  // ---- compaction and the whole reclaim ----------------------------------------------

  /** The keyframes left by a compaction of ids: the kept ones, or all if nothing at all would be kept. */
  ghost predicate CompactedTo(ids: seq<nat>, protectedIds: set<nat>, c: Config, left: set<nat>) {
    exists keep, optional ::
      && GoodHistory(ids, protectedIds, c, keep) && SpreadHistory(ids, protectedIds, c, keep, optional)
      && left == if keep == {} then (set x | x in ids) else keep
  }

  function HistoryBound(ids: seq<nat>, protectedIds: set<nat>, c: Config): nat {
    DenseCount(|ids|, c) + Max(AnchorBudget(|ids|, c), |ProtectedHistory(ids, protectedIds, c)| + 2)
  }

  /** Nothing would be kept: no dense window, no anchor quota, and no protected keyframe. */
  predicate KeepsNothing(ids: seq<nat>, protectedIds: set<nat>, c: Config) {
    DenseCount(|ids|, c) == 0 && AnchorBudget(|ids|, c) == 0 && ProtectedHistory(ids, protectedIds, c) == {}
  }

  /**
   * After a compaction the count is within dense + max(anchor quota, protected history + 2), with one exception:
   * a configuration that keeps nothing removes nothing, so the count is then within the bound only if it was before.
   */
  lemma {:induction false} CompactionBound(ids: seq<nat>, protectedIds: set<nat>, c: Config, left: set<nat>)
    requires Increasing(ids) && CompactedTo(ids, protectedIds, c, left)
    ensures |left| <= HistoryBound(ids, protectedIds, c) <==> !KeepsNothing(ids, protectedIds, c) || |ids| <= 2
  {
    hide DenseCount, AnchorBudget, ProtectedHistory, Increasing;
    SetOfIds(ids);
    var keep, optional :|
      && GoodHistory(ids, protectedIds, c, keep) && SpreadHistory(ids, protectedIds, c, keep, optional)
      && left == if keep == {} then (set x | x in ids) else keep;
  }

  /** ids lists keyframes among keys, all protected ones included. */
  ghost predicate Listing(ids: seq<nat>, protectedIds: set<nat>, keys: set<nat>) {
    && Increasing(ids) && (forall x :: x in ids ==> x in keys)
    && (forall x :: x in protectedIds && x in keys ==> x in ids)
  }

  /** A budget or windows of zero, and no protected keyframe: a compaction then removes nothing. */
  predicate NothingToKeep(protectedIds: set<nat>, keys: set<nat>, c: Config) {
    Min(c.dense, c.maxKeyframes) == 0 && Min(c.maxHistorical, c.maxKeyframes) == 0 && protectedIds !! keys
  }

  /** What a reclaim brings the keyframes down to: the budget, or the dense window and two more than are protected. */
  function ReclaimBound(protectedIds: set<nat>, keys: set<nat>, c: Config): nat {
    Max(c.maxKeyframes, DenseCount(|keys|, c) + |protectedIds * keys| + 2)
  }

  /** How many keyframes are left of keys, and that nothing is compacted where nothing is to be kept. */
  ghost predicate Bounded(protectedIds: set<nat>, keys: set<nat>, c: Config, left: nat, compacted: int) {
    && (!NothingToKeep(protectedIds, keys, c) ==> left <= ReclaimBound(protectedIds, keys, c))
    && (NothingToKeep(protectedIds, keys, c) ==> compacted == 0)
  }

  lemma FittingIsBounded(e: Extent, snapshot: nat, c: Config, protectedIds: set<nat>, keys: set<nat>)
    requires Fits(UsageOf(e), snapshot, c)
    ensures Bounded(protectedIds, keys, c, |e.frames|, 0)
  {
    hide Total;
  }

  /** The bound in terms of the keyframes a reclaim started with, whatever it removed before it compacted. */
  lemma {:induction false} CompactedReclaimBound(ids: seq<nat>, protectedIds: set<nat>, c: Config, keys: set<nat>,
                                                 left: set<nat>)
    requires Listing(ids, protectedIds, keys) && CompactedTo(ids, protectedIds, c, left)
    ensures Bounded(protectedIds, keys, c, |left|, |ids| - |left|)
  {
    hide GoodHistory, Increasing;
    SetOfIds(ids);
    ListedAreFewer(ids, protectedIds, c, keys);
    KeepsNothingInBoth(ids, protectedIds, c, keys);
    CompactionBound(ids, protectedIds, c, left);
    var keep, optional :|
      && GoodHistory(ids, protectedIds, c, keep) && SpreadHistory(ids, protectedIds, c, keep, optional)
      && left == if keep == {} then (set x | x in ids) else keep;
    if KeepsNothing(ids, protectedIds, c) {
      NothingGood(ids, protectedIds, c, keep);
    }
  }

  lemma NothingGood(ids: seq<nat>, protectedIds: set<nat>, c: Config, keep: set<nat>)
    requires GoodHistory(ids, protectedIds, c, keep) && KeepsNothing(ids, protectedIds, c)
    ensures keep == {}
  {
  }

  lemma ListedAreFewer(ids: seq<nat>, protectedIds: set<nat>, c: Config, keys: set<nat>)
    requires Listing(ids, protectedIds, keys)
    ensures |ids| <= |keys| && |ProtectedHistory(ids, protectedIds, c)| <= |protectedIds * keys|
    ensures DenseCount(|ids|, c) <= DenseCount(|keys|, c)
    ensures HistoryBound(ids, protectedIds, c) <= ReclaimBound(protectedIds, keys, c)
  {
    hide DenseCount, AnchorBudget, Increasing;
    FrontSize(ids, |ids|);
    assert ids[..|ids|] == ids;
    SubsetSize(Front(ids, |ids|), keys);
    ProtectedAreListed(ids, protectedIds, c, keys);
    SubsetSize(ProtectedHistory(ids, protectedIds, c), protectedIds * keys);
    WithinBudget(|ids|, |keys|, c);
  }

  lemma ProtectedAreListed(ids: seq<nat>, protectedIds: set<nat>, c: Config, keys: set<nat>)
    requires forall x :: x in ids ==> x in keys
    ensures ProtectedHistory(ids, protectedIds, c) <= protectedIds * keys
  {
    forall i | 0 <= i < |ids|
      ensures ids[i] in keys
    {
      assert ids[i] in ids;
    }
  }

  lemma WithinBudget(n: nat, all: nat, c: Config)
    requires n <= all
    ensures DenseCount(n, c) <= DenseCount(all, c) && DenseCount(n, c) + AnchorBudget(n, c) <= c.maxKeyframes
  {
  }

  lemma KeepsNothingInBoth(ids: seq<nat>, protectedIds: set<nat>, c: Config, keys: set<nat>)
    requires Listing(ids, protectedIds, keys)
    ensures NothingToKeep(protectedIds, keys, c) ==> KeepsNothing(ids, protectedIds, c)
    ensures KeepsNothing(ids, protectedIds, c) && ids != [] ==> NothingToKeep(protectedIds, keys, c)
  {
    if DenseCount(|ids|, c) == 0 {
      forall x | x in protectedIds && x in keys
        ensures x in ProtectedHistory(ids, protectedIds, c)
      {
        var i :| 0 <= i < |ids| && ids[i] == x;
      }
    }
  }

  /** The exception at three keyframes: nothing is to be kept, so all of them are, against a bound of two. */
  lemma {:induction false} NothingKeptNothingRemoved(c: Config, left: set<nat>)
    requires c.dense == 0 && c.maxHistorical == 0 && CompactedTo([0, 1, 2], {}, c, left)
    ensures left == {0, 1, 2} && HistoryBound([0, 1, 2], {}, c) == 2
  {
  }

  lemma SetOfIds(ids: seq<nat>)
    requires Increasing(ids)
    ensures |set x | x in ids| == |ids|
  {
    FrontSize(ids, |ids|);
    assert ids[..|ids|] == ids;
    assert Front(ids, |ids|) == set x | x in ids;
  }

  lemma SubsetOfSameSize(a: set<nat>, b: set<nat>)
    requires a <= b && |a| >= |b|
    ensures a == b
  {
    assert b == a + (b - a);
    assert |b - a| == |b| - |a|;
    assert b - a == {};
  }

  // ---- the points a compaction leaves without observation -----------------------------------

  /** The points no other keyframes than these observe. */
  ghost function Orphans(v: View, gone: set<nat>): set<nat> {
    set id | id in v.points && v.points[id] in v.obs && v.obs[v.points[id]].Keys <= gone
  }

  /** A compaction touches the map: keyframes go, or it would keep none. */
  predicate Compacts(ids: seq<nat>, protectedIds: set<nat>, c: Config, left: set<nat>) {
    |left| < |ids| || (ids != [] && KeepsNothing(ids, protectedIds, c))
  }

  /** The points after the keyframes of s, listed in ids, were compacted to left. */
  ghost function Surviving(s: State, ids: seq<nat>, protectedIds: set<nat>, c: Config, left: set<nat>)
    : map<nat, MapPoint>
  {
    if Compacts(ids, protectedIds, c, left) then s.v.points - Orphans(s.v, s.poses.Keys - left) else s.v.points
  }

  /** Keyframes went, and with them their observations; no point went. */
  ghost predicate OnlyFramesGone(before: State, after: State) {
    && after.poses.Keys <= before.poses.Keys && after.v.points == before.v.points
    && after.v.obs.Keys == before.v.obs.Keys
    && forall p :: p in before.v.obs ==> after.v.obs[p] == before.v.obs[p] - (before.poses.Keys - after.poses.Keys)
  }

  lemma NoFramesGone(s: State)
    ensures OnlyFramesGone(s, s)
  {
    forall p | p in s.v.obs
      ensures s.v.obs[p] == s.v.obs[p] - (s.poses.Keys - s.poses.Keys)
    {
    }
  }

  lemma OneFrameGone(before: State, now: State, id: nat)
    requires OnlyFramesGone(before, now) && id in now.poses
    ensures OnlyFramesGone(before, Culled(now, id))
  {
    var after, gone := Culled(now, id), before.poses.Keys - now.poses.Keys;
    assert before.poses.Keys - after.poses.Keys == gone + {id};
    forall p | p in before.v.obs
      ensures after.v.obs[p] == before.v.obs[p] - (gone + {id})
    {
      assert after.v.obs[p] == now.v.obs[p] - {id};
    }
  }

  lemma LeftOf(obs: map<nat, nat>, gone: set<nat>)
    ensures (obs - gone).Keys <= {} <==> obs.Keys <= gone
  {
    var left := (obs - gone).Keys;
    if obs.Keys <= gone {
      assert left == {};
    } else {
      var k :| k in obs && k !in gone;
      assert k in left;
    }
  }

  /** So the points unobserved now are the orphans of the keyframes that went. */
  lemma UnobservedAreOrphans(before: State, after: State)
    requires OnlyFramesGone(before, after)
    ensures Orphans(after.v, {}) == Orphans(before.v, before.poses.Keys - after.poses.Keys)
  {
    var gone := before.poses.Keys - after.poses.Keys;
    var now, orphans := Orphans(after.v, {}), Orphans(before.v, gone);
    forall id: nat
      ensures id in now <==> id in orphans
    {
      if id in before.v.points && before.v.points[id] in before.v.obs {
        LeftOf(before.v.obs[before.v.points[id]], gone);
      }
    }
    assert now == orphans;
  }

  lemma UnobservedByValue(m: Map)
    ensures Unobserved(m) == Orphans(m.Abs(), {}) && m.Abs().points == m.mapPoints
  {
    hide Consistent, IsCov;
    forall p: MapPoint | p in m.pointSet
      ensures |p.obs| < 1 <==> p.obs.Keys <= {}
    {
      assert |p.obs.Keys| == |p.obs|;
      if p.obs.Keys <= {} {
        assert p.obs.Keys == {};
      }
    }
  }

  /** Stage 5: keep the essential history, re-anchor the rest, then drop the orphaned points. */
  method Compact(m: Map, protectedIds: set<nat>, c: Config, traj: PoseRecords, submap: nat, culled0: seq<nat>,
                 ghost e0: Extent, ghost t0: Track, ghost T_ws: SE3)
    returns (culled: seq<nat>, compacted: nat, orphans: nat)
    requires Culling(m, traj, protectedIds, submap, culled0, e0, t0, T_ws)
    modifies m`covisibility, m`keyframes, m`frameSet, m`kfCount, m`topology, m`lastHit
    modifies m`mapPoints, m`pointSet, m`mpCount
    modifies m.frameSet`slots, m.pointSet`obs, traj
    ensures Culling(m, traj, protectedIds, submap, culled, e0, t0, T_ws)
    ensures m.frameSet <= old(m.frameSet) && m.pointSet <= old(m.pointSet)
    ensures CompactedTo(Ascending(old(m.keyframes.Keys)), protectedIds, c, m.keyframes.Keys)
    ensures compacted == |old(m.keyframes)| - |m.keyframes| && orphans == |old(m.mapPoints)| - |m.mapPoints|
    ensures culled0 <= culled && |culled| == |culled0| + compacted
    ensures m.mapPoints ==
            Surviving(old(StateOf(m)), Ascending(old(m.keyframes.Keys)), protectedIds, c, m.keyframes.Keys)
  {
    hide *;
    culled, compacted, orphans := culled0, 0, 0;
    var ids := Ascending(m.keyframes.Keys);
    ghost var keys, s := m.keyframes.Keys, StateOf(m);
    CullingKeys(m, traj, protectedIds, submap, culled, e0, t0, T_ws);
    CullingPoints(m, traj, protectedIds, submap, culled, e0, t0, T_ws);
    var keep, optional := SelectEssentialHistory(ids, protectedIds, c);
    HistoryKeeps(ids, protectedIds, c, keep, keys);
    if |keep| < |ids| {
      culled, compacted, orphans := ThinAndClean(m, protectedIds, traj, submap, keep, culled, e0, t0, T_ws);
      assert m.mapPoints == s.v.points - Orphans(s.v, s.poses.Keys - m.keyframes.Keys);
    } else {
      SubsetOfSameSize(keep, keys);
      assert m.mapPoints == s.v.points;
    }
    CompactedBy(s, ids, protectedIds, c, keep, optional, m.keyframes.Keys);
  }

  lemma CullingPoints(m: Map, traj: PoseRecords, protectedIds: set<nat>, submap: nat, culled: seq<nat>,
                      e0: Extent, t0: Track, T_ws: SE3)
    requires Culling(m, traj, protectedIds, submap, culled, e0, t0, T_ws)
    ensures StateOf(m).v.points == m.mapPoints
  {
  }

  lemma CompactedBy(s: State, ids: seq<nat>, protectedIds: set<nat>, c: Config, keep: set<nat>, optional: seq<nat>,
                    left: set<nat>)
    requires Increasing(ids) && GoodHistory(ids, protectedIds, c, keep)
    requires SpreadHistory(ids, protectedIds, c, keep, optional) && forall x :: x in ids <==> x in s.poses
    requires left == if keep == {} then s.poses.Keys else keep
    ensures CompactedTo(ids, protectedIds, c, left)
    ensures Surviving(s, ids, protectedIds, c, left) ==
            if |keep| < |ids| then s.v.points - Orphans(s.v, s.poses.Keys - left) else s.v.points
  {
    hide DenseCount, AnchorBudget, ProtectedHistory, Increasing, Orphans, SpreadHistory;
    SetOfIds(ids);
    assert (set x | x in ids) == s.poses.Keys;
  }


  /** Thin the keyframes down to keep, if anything is to be kept. */
  method ThinIfAny(m: Map, protectedIds: set<nat>, traj: PoseRecords, submap: nat, keep: set<nat>, culled0: seq<nat>,
                   ghost e0: Extent, ghost t0: Track, ghost T_ws: SE3) returns (culled: seq<nat>, count: nat)
    requires Culling(m, traj, protectedIds, submap, culled0, e0, t0, T_ws)
    requires keep <= m.keyframes.Keys && protectedIds * m.keyframes.Keys <= keep
    modifies m`covisibility, m`keyframes, m`frameSet, m`kfCount, m`topology
    modifies m.frameSet`slots, m.pointSet`obs, traj
    ensures Culling(m, traj, protectedIds, submap, culled, e0, t0, T_ws) && m.frameSet <= old(m.frameSet)
    ensures m.keyframes.Keys == if keep == {} then old(m.keyframes.Keys) else keep
    ensures count == |old(m.keyframes)| - |m.keyframes| && culled0 <= culled && |culled| == |culled0| + count
    ensures OnlyFramesGone(old(StateOf(m)), StateOf(m))
  {
    hide *;
    culled, count := culled0, 0;
    NoFramesGone(StateOf(m));
    if keep != {} {
      culled, count := ThinOut(m, protectedIds, traj, submap, keep, culled, e0, t0, T_ws);
    }
  }

  /** Remove the orphans of the keyframes that went since s. */
  method CleanUp(m: Map, ghost traj: PoseRecords, ghost protectedIds: set<nat>, ghost submap: nat,
                 ghost culled: seq<nat>, ghost s: State,
                 ghost e0: Extent, ghost t0: Track, ghost T_ws: SE3) returns (count: nat)
    requires Culling(m, traj, protectedIds, submap, culled, e0, t0, T_ws) && OnlyFramesGone(s, StateOf(m))
    modifies m`covisibility, m`lastHit, m`mapPoints, m`pointSet, m`mpCount, m`topology
    modifies m.pointSet`obs, m.frameSet`slots
    ensures Culling(m, traj, protectedIds, submap, culled, e0, t0, T_ws) && m.pointSet <= old(m.pointSet)
    ensures m.mapPoints == old(m.mapPoints) - Orphans(s.v, s.poses.Keys - m.keyframes.Keys)
    ensures count == |old(m.mapPoints)| - |m.mapPoints|
  {
    hide *;
    ghost var e, unobserved := ExtentOf(m), Unobserved(m);
    UnobservedByValue(m);
    UnobservedAreOrphans(s, StateOf(m));
    CullingKeys(m, traj, protectedIds, submap, culled, e0, t0, T_ws);
    StateView(m);
    ExtentParts(m);
    assert unobserved == Orphans(s.v, s.poses.Keys - m.keyframes.Keys);
    count := RemoveOrphans(m, traj, protectedIds, submap, culled, e0, t0, T_ws);
    RemovedParts(e, ExtentOf(m), unobserved, count);
    ExtentParts(m);
  }

  method ThinAndClean(m: Map, protectedIds: set<nat>, traj: PoseRecords, submap: nat, keep: set<nat>, culled0: seq<nat>,
                      ghost e0: Extent, ghost t0: Track, ghost T_ws: SE3)
    returns (culled: seq<nat>, compacted: nat, orphans: nat)
    requires Culling(m, traj, protectedIds, submap, culled0, e0, t0, T_ws)
    requires keep <= m.keyframes.Keys && protectedIds * m.keyframes.Keys <= keep
    modifies m`covisibility, m`keyframes, m`frameSet, m`kfCount, m`topology, m`lastHit
    modifies m`mapPoints, m`pointSet, m`mpCount
    modifies m.frameSet`slots, m.pointSet`obs, traj
    ensures Culling(m, traj, protectedIds, submap, culled, e0, t0, T_ws)
    ensures m.frameSet <= old(m.frameSet) && m.pointSet <= old(m.pointSet)
    ensures m.keyframes.Keys == if keep == {} then old(m.keyframes.Keys) else keep
    ensures compacted == |old(m.keyframes)| - |m.keyframes| && orphans == |old(m.mapPoints)| - |m.mapPoints|
    ensures culled0 <= culled && |culled| == |culled0| + compacted
    ensures m.mapPoints ==
            old(m.mapPoints) - Orphans(old(StateOf(m)).v, old(StateOf(m)).poses.Keys - m.keyframes.Keys)
  {
    hide *;
    ghost var s, points, all := StateOf(m), m.mapPoints, m.keyframes;
    culled, compacted := ThinIfAny(m, protectedIds, traj, submap, keep, culled0, e0, t0, T_ws);
    ghost var left := m.keyframes;
    assert m.mapPoints == points && OnlyFramesGone(s, StateOf(m)) && compacted == |all| - |left|;
    orphans := CleanUp(m, traj, protectedIds, submap, culled, s, e0, t0, T_ws);
    assert m.keyframes == left && m.mapPoints == points - Orphans(s.v, s.poses.Keys - left.Keys);
  }

  lemma StateView(m: Map)
    ensures StateOf(m).v == m.Abs()
  {
  }

  lemma RemovedParts(before: Extent, after: Extent, ids: set<nat>, count: nat)
    requires Removed(before, after, ids, count)
    ensures after.points == before.points - ids && count == |before.points| - |after.points|
  {
  }

  lemma CullingLists(m: Map, traj: PoseRecords, protectedIds: set<nat>, submap: nat, culled: seq<nat>,
                     e0: Extent, t0: Track, T_ws: SE3)
    requires Culling(m, traj, protectedIds, submap, culled, e0, t0, T_ws)
    ensures Listing(Ascending(m.keyframes.Keys), protectedIds, e0.frames.Keys)
  {
    hide Map.Valid, RecordsKept, Increasing;
  }

  lemma HistoryKeeps(ids: seq<nat>, protectedIds: set<nat>, c: Config, keep: set<nat>, keys: set<nat>)
    requires GoodHistory(ids, protectedIds, c, keep) && forall x :: x in ids <==> x in keys
    ensures keep <= keys && protectedIds * keys <= keep
  {
    hide DenseCount, AnchorBudget, ProtectedHistory;
  }

  datatype Result = Result(zeroObs: nat, weakStale: nat, unloaded: nat, compacted: nat, culled: seq<nat>, stopped: bool)

  method Fit(m: Map, snapshot: nat, c: Config, ghost traj: PoseRecords, ghost protectedIds: set<nat>, ghost submap: nat,
             ghost culled: seq<nat>, ghost e0: Extent, ghost t0: Track, ghost T_ws: SE3) returns (fits: bool)
    requires Culling(m, traj, protectedIds, submap, culled, e0, t0, T_ws)
    ensures fits <==> Fits(UsageOf(ExtentOf(m)), snapshot, c)
  {
    hide Culling, UsageOf, ExtentOf, Map.Filed;
    CullingIsFiled(m, traj, protectedIds, submap, culled, e0, t0, T_ws);
    var usage := Evaluate(m);
    fits := Fits(usage, snapshot, c);
  }

  // What the first three stages leave of a map.

  ghost function First(e: Extent, unobserved: set<nat>): Extent {
    e.(points := e.points - unobserved)
  }

  ghost function Second(e: Extent, unobserved: set<nat>, stale: set<nat>): Extent {
    e.(points := e.points - unobserved - stale)
  }

  ghost function Third(e: Extent, unobserved: set<nat>, stale: set<nat>, keep: nat): Extent {
    Extent(e.points - unobserved - stale, e.frames, Unloaded(e.images, OldOnes(e.frames, keep)))
  }

  /**
   * The first three stages take no more than they need: exactly the unobserved points, if that is not enough the stale
   * ones too, and only then the images of old keyframes. No keyframe goes.
   */
  ghost predicate Frugal(e: Extent, unobserved: set<nat>, stale: set<nat>, after: Extent, r: Result, snapshot: nat,
                         c: Config) {
    var one, two := First(e, unobserved), Second(e, unobserved, stale);
    var three := Third(e, unobserved, stale, c.keepRecent);
    && r.zeroObs == |e.points| - |one.points|
    && if Fits(UsageOf(one), snapshot, c) then after == one && r.weakStale == 0 && r.unloaded == 0
       else
         && r.weakStale == |one.points| - |two.points|
         && if Fits(UsageOf(two), snapshot, c) then after == two && r.unloaded == 0
            else after == three && r.unloaded == |OldOnes(e.frames, c.keepRecent)|
  }

  /** Stages 1 to 3. */
  method ReclaimPointsAndImages(m: Map, snapshot: nat, c: Config, ghost traj: PoseRecords, ghost protectedIds: set<nat>,
                                ghost submap: nat, ghost e0: Extent, ghost t0: Track, ghost T_ws: SE3)
    returns (r: Result, fits: bool)
    requires Culling(m, traj, protectedIds, submap, [], e0, t0, T_ws)
    modifies m`covisibility, m`lastHit, m`mapPoints, m`pointSet, m`mpCount, m`topology
    modifies m.pointSet`obs, m.frameSet`slots, m.frameSet`imageBytes
    ensures Culling(m, traj, protectedIds, submap, [], e0, t0, T_ws) && m.pointSet <= old(m.pointSet)
    ensures r.culled == [] && r.compacted == 0 && !r.stopped && (fits <==> Fits(UsageOf(ExtentOf(m)), snapshot, c))
    ensures Frugal(old(ExtentOf(m)), old(Unobserved(m)), old(Stale(m, c)), ExtentOf(m), r, snapshot, c)
    ensures OnlyPointsGone(old(StateOf(m)), StateOf(m))
  {
    hide *;
    ghost var s := StateOf(m);
    ghost var e, unobserved, stale := ExtentOf(m), Unobserved(m), Stale(m, c);
    var zeroObs := RemoveUnobserved(m, c, traj, protectedIds, submap, [], e0, t0, T_ws);
    r := Result(zeroObs, 0, 0, 0, [], false);
    FrugalFirst(e, unobserved, stale, ExtentOf(m), r, snapshot, c);
    fits := Fit(m, snapshot, c, traj, protectedIds, submap, [], e0, t0, T_ws);
    if !fits {
      ghost var one := StateOf(m);
      r, fits := ReclaimStaleAndImages(m, snapshot, c, r, traj, protectedIds, submap, e0, t0, T_ws, e, unobserved,
                                       stale);
      OnlyPointsTwice(s, one, StateOf(m));
    }
  }

  /** Stages 2 and 3, when removing the unobserved points of e was not enough. */
  method ReclaimStaleAndImages(m: Map, snapshot: nat, c: Config, r0: Result, ghost traj: PoseRecords,
                               ghost protectedIds: set<nat>,
                               ghost submap: nat, ghost e0: Extent, ghost t0: Track, ghost T_ws: SE3,
                               ghost e: Extent, ghost unobserved: set<nat>, ghost stale: set<nat>)
    returns (r: Result, fits: bool)
    requires Culling(m, traj, protectedIds, submap, [], e0, t0, T_ws)
    requires ExtentOf(m) == First(e, unobserved) && Stale(m, c) == stale - unobserved
    requires !Fits(UsageOf(ExtentOf(m)), snapshot, c)
    requires r0 == Result(|e.points| - |ExtentOf(m).points|, 0, 0, 0, [], false)
    modifies m`covisibility, m`lastHit, m`mapPoints, m`pointSet, m`mpCount, m`topology
    modifies m.pointSet`obs, m.frameSet`slots, m.frameSet`imageBytes
    ensures Culling(m, traj, protectedIds, submap, [], e0, t0, T_ws) && m.pointSet <= old(m.pointSet)
    ensures r.culled == [] && r.compacted == 0 && !r.stopped && (fits <==> Fits(UsageOf(ExtentOf(m)), snapshot, c))
    ensures Frugal(e, unobserved, stale, ExtentOf(m), r, snapshot, c)
    ensures OnlyPointsGone(old(StateOf(m)), StateOf(m))
  {
    hide *;
    ghost var first := ExtentOf(m);
    var weakStale := RemoveStale(m, c, traj, protectedIds, submap, [], e0, t0, T_ws);
    r := r0.(weakStale := weakStale);
    ghost var second := ExtentOf(m);
    FrugalSecond(e, unobserved, stale, first, second, r);
    fits := Fit(m, snapshot, c, traj, protectedIds, submap, [], e0, t0, T_ws);
    assert ExtentOf(m) == second;
    if fits {
      FrugalSoFar(e, unobserved, stale, r, snapshot, c);
    } else {
      r, fits := ReclaimImages(m, snapshot, c, r, traj, protectedIds, submap, e0, t0, T_ws, e, unobserved, stale);
    }
  }

  /** Stage 3, when removing the stale points too was not enough. */
  method ReclaimImages(m: Map, snapshot: nat, c: Config, r0: Result, ghost traj: PoseRecords,
                       ghost protectedIds: set<nat>, ghost submap: nat,
                       ghost e0: Extent, ghost t0: Track, ghost T_ws: SE3,
                       ghost e: Extent, ghost unobserved: set<nat>, ghost stale: set<nat>)
    returns (r: Result, fits: bool)
    requires Culling(m, traj, protectedIds, submap, [], e0, t0, T_ws)
    requires ExtentOf(m) == Second(e, unobserved, stale) && !Fits(UsageOf(ExtentOf(m)), snapshot, c)
    requires !Fits(UsageOf(First(e, unobserved)), snapshot, c)
    requires r0 == Counted(e, unobserved, stale, 0)
    modifies m.frameSet`imageBytes
    ensures Culling(m, traj, protectedIds, submap, [], e0, t0, T_ws)
    ensures r.culled == [] && r.compacted == 0 && !r.stopped && (fits <==> Fits(UsageOf(ExtentOf(m)), snapshot, c))
    ensures Frugal(e, unobserved, stale, ExtentOf(m), r, snapshot, c)
  {
    hide *;
    ghost var second := ExtentOf(m);
    ExtentParts(m);
    var unloaded := ReleaseImages(m, c, traj, protectedIds, submap, [], e0, t0, T_ws);
    FrugalThird(e, unobserved, stale, second, ExtentOf(m), r0, unloaded, snapshot, c);
    r := r0.(unloaded := unloaded);
    fits := Fit(m, snapshot, c, traj, protectedIds, submap, [], e0, t0, T_ws);
  }

  /** The report when the stale points went too. */
  ghost function Counted(e: Extent, unobserved: set<nat>, stale: set<nat>, unloaded: nat): Result {
    FewerAndFewer(e, unobserved, stale);
    var one, two := First(e, unobserved), Second(e, unobserved, stale);
    Result(|e.points| - |one.points|, |one.points| - |two.points|, unloaded, 0, [], false)
  }

  lemma FewerAndFewer(e: Extent, unobserved: set<nat>, stale: set<nat>)
    ensures |e.points| >= |First(e, unobserved).points| >= |Second(e, unobserved, stale).points|
  {
    SubsetSize((e.points - unobserved).Keys, e.points.Keys);
    SubsetSize((e.points - unobserved - stale).Keys, (e.points - unobserved).Keys);
  }

  lemma FrugalFirst(e: Extent, unobserved: set<nat>, stale: set<nat>, after: Extent, r: Result, snapshot: nat,
                    c: Config)
    requires Removed(e, after, unobserved, r.zeroObs) && r.weakStale == r.unloaded == 0
    ensures after == First(e, unobserved) && r.zeroObs == |e.points| - |after.points|
    ensures Fits(UsageOf(after), snapshot, c) ==> Frugal(e, unobserved, stale, after, r, snapshot, c)
  {
    hide Fits, UsageOf;
  }

  lemma FrugalSecond(e: Extent, unobserved: set<nat>, stale: set<nat>, first: Extent, after: Extent, r: Result)
    requires first == First(e, unobserved) && Removed(first, after, stale - unobserved, r.weakStale)
    requires r == Result(|e.points| - |first.points|, r.weakStale, 0, 0, [], false)
    ensures after == Second(e, unobserved, stale) && r == Counted(e, unobserved, stale, 0)
  {
    MinusRest(e.points, unobserved, stale);
  }

  lemma MinusRest(points: map<nat, MapPoint>, a: set<nat>, b: set<nat>)
    ensures points - a - (b - a) == points - a - b
  {
  }

  lemma FrugalSoFar(e: Extent, unobserved: set<nat>, stale: set<nat>, r: Result, snapshot: nat, c: Config)
    requires r == Counted(e, unobserved, stale, 0) && !Fits(UsageOf(First(e, unobserved)), snapshot, c)
    requires Fits(UsageOf(Second(e, unobserved, stale)), snapshot, c)
    ensures Frugal(e, unobserved, stale, Second(e, unobserved, stale), r, snapshot, c)
  {
    hide Fits, UsageOf;
  }

  lemma FrugalThird(e: Extent, unobserved: set<nat>, stale: set<nat>, second: Extent, after: Extent, r: Result,
                    unloaded: nat, snapshot: nat, c: Config)
    requires second == Second(e, unobserved, stale) && r == Counted(e, unobserved, stale, 0)
    requires !Fits(UsageOf(First(e, unobserved)), snapshot, c) && !Fits(UsageOf(second), snapshot, c)
    requires after == second.(images := Unloaded(second.images, OldOnes(second.frames, c.keepRecent)))
    requires unloaded == |OldOnes(second.frames, c.keepRecent)|
    ensures Frugal(e, unobserved, stale, after, r.(unloaded := unloaded), snapshot, c)
    ensures r.culled == [] && r.compacted == 0 && !r.stopped
  {
    hide Fits, UsageOf, OldOnes, Unloaded;
  }

  lemma FrugalCounts(e: Extent, unobserved: set<nat>, stale: set<nat>, after: Extent, r: Result, snapshot: nat,
                     c: Config)
    requires Frugal(e, unobserved, stale, after, r, snapshot, c)
    ensures r.zeroObs + r.weakStale == |e.points| - |after.points| && after.frames == e.frames
  {
    hide Fits, UsageOf, OldOnes, Unloaded;
  }

  /** Stage 5 and what it reports. */
  method CompactStage(m: Map, protectedIds: set<nat>, c: Config, traj: PoseRecords, submap: nat, r0: Result,
                      ghost e0: Extent, ghost t0: Track, ghost T_ws: SE3)
    returns (r: Result, ghost before5: seq<nat>)
    requires Culling(m, traj, protectedIds, submap, r0.culled, e0, t0, T_ws)
    modifies m`covisibility, m`keyframes, m`frameSet, m`kfCount, m`topology, m`lastHit
    modifies m`mapPoints, m`pointSet, m`mpCount
    modifies m.frameSet`slots, m.pointSet`obs, traj
    ensures Culling(m, traj, protectedIds, submap, r.culled, e0, t0, T_ws)
    ensures m.frameSet <= old(m.frameSet) && m.pointSet <= old(m.pointSet)
    ensures Listing(before5, protectedIds, e0.frames.Keys)
    ensures CompactedTo(before5, protectedIds, c, m.keyframes.Keys)
    ensures r == r0.(culled := r.culled, compacted := r.compacted, zeroObs := r.zeroObs)
    ensures r.compacted == |before5| - |m.keyframes|
    ensures r0.culled <= r.culled && |r.culled| == |r0.culled| + r.compacted
    ensures forall k :: k in before5 <==> k in old(m.keyframes)
    ensures m.mapPoints == Surviving(old(StateOf(m)), before5, protectedIds, c, m.keyframes.Keys)
    ensures r.zeroObs == r0.zeroObs + |old(m.mapPoints)| - |m.mapPoints|
    ensures Bounded(protectedIds, e0.frames.Keys, c, |m.keyframes|, r.compacted)
  {
    hide Culling, CompactedTo, Listing, Bounded, Increasing, Ascending, Surviving, StateOf;
    before5 := Ascending(m.keyframes.Keys);
    CullingLists(m, traj, protectedIds, submap, r0.culled, e0, t0, T_ws);
    var culled, compacted, orphans := Compact(m, protectedIds, c, traj, submap, r0.culled, e0, t0, T_ws);
    r := r0.(culled := culled, compacted := compacted, zeroObs := r0.zeroObs + orphans);
    CompactedReclaimBound(before5, protectedIds, c, e0.frames.Keys, m.keyframes.Keys);
  }

  /**
   * The first reported keyframes went because they were redundant, one after the other; what is reported after them are
   * the ones a compaction took from the keyframes left, together with the points it orphaned.
   */
  ghost predicate Reasons(begin: State, why: seq<Reason>, protectedIds: set<nat>, c: Config, r: Result,
                          before5: Option<seq<nat>>, now: Extent) {
    var left := Afterwards(begin, why);
    && |r.culled| == |why| + r.compacted
    && Explained(begin, why, left, protectedIds, c, r.culled[..|why|])
    && (before5.Some? ==> forall k :: k in before5.value <==> k in left.poses)
    && now.points == (if before5.Some? then Surviving(left, before5.value, protectedIds, c, now.frames.Keys)
                      else begin.v.points)
  }

  ghost function Afterwards(begin: State, why: seq<Reason>): State {
    if why == [] then begin else Culled(why[|why| - 1].before, why[|why| - 1].older)
  }

  lemma ReasonsGiven(begin: State, why: seq<Reason>, left: State, protectedIds: set<nat>, c: Config, r: Result,
                     before5: Option<seq<nat>>, culled: seq<nat>, now: Extent)
    requires culled <= r.culled && |r.culled| == |culled| + r.compacted
    requires Explained(begin, why, left, protectedIds, c, culled)
    requires before5.Some? ==> forall k :: k in before5.value <==> k in left.poses
    requires now.points == if before5.Some? then Surviving(left, before5.value, protectedIds, c, now.frames.Keys)
                           else begin.v.points
    ensures Reasons(begin, why, protectedIds, c, r, before5, now)
  {
    hide Surviving;
    assert r.culled[..|why|] == culled;
  }

  /** What is there with these keyframes only. */
  ghost function WithOnly(e: Extent, keys: set<nat>): Extent {
    Extent(e.points,
           map k | k in e.frames && k in keys :: e.frames[k],
           map k | k in e.images && k in keys :: e.images[k])
  }

  /**
   * Stage 4 left these keyframes of e: above the keyframe budget none of them is redundant, and a compaction follows
   * exactly if the map does not fit yet.
   */
  ghost predicate CulledEnough(e: Extent, left: State, compacts: bool, protectedIds: set<nat>, snapshot: nat,
                               c: Config) {
    var now := WithOnly(e, left.poses.Keys);
    && (compacts <==> !Fits(UsageOf(now), snapshot, c))
    && (OverKeyframes(UsageOf(now), c) && |now.frames| >= 2 ==>
          NothingRedundant(left.v, left.poses, now.frames, protectedIds, c))
  }

  lemma LastOfExplained(begin: State, why: seq<Reason>, left: State, protectedIds: set<nat>, c: Config,
                        culled: seq<nat>)
    requires Explained(begin, why, left, protectedIds, c, culled)
    ensures left == Afterwards(begin, why)
  {
    hide Culled, Justified;
  }

  /** Stage 4. */
  method CullStage(m: Map, protectedIds: set<nat>, snapshot: nat, c: Config, traj: PoseRecords, submap: nat,
                   ghost e0: Extent, ghost t0: Track, ghost T_ws: SE3)
    returns (culled: seq<nat>, fits: bool, ghost why: seq<Reason>)
    requires Culling(m, traj, protectedIds, submap, [], e0, t0, T_ws)
    modifies m`covisibility, m`keyframes, m`frameSet, m`kfCount, m`topology
    modifies m.frameSet`slots, m.pointSet`obs, traj
    ensures Culling(m, traj, protectedIds, submap, culled, e0, t0, T_ws) && m.frameSet <= old(m.frameSet)
    ensures Explained(old(StateOf(m)), why, StateOf(m), protectedIds, c, culled)
    ensures why != [] ==> |old(m.keyframes)| > c.maxKeyframes
    ensures fits <==> Fits(UsageOf(ExtentOf(m)), snapshot, c)
    ensures CulledEnough(old(ExtentOf(m)), StateOf(m), !fits, protectedIds, snapshot, c)
  {
    hide *;
    ghost var e, frames, images := ExtentOf(m), m.keyframes, Images(m);
    FramesFiled(m, traj, protectedIds, submap, [], e0, t0, T_ws);
    ExtentParts(m);
    culled, why := CullRedundant(m, protectedIds, c, traj, submap, e0, t0, T_ws);
    CullingKeys(m, traj, protectedIds, submap, culled, e0, t0, T_ws);
    FramesFiled(m, traj, protectedIds, submap, culled, e0, t0, T_ws);
    ExtentParts(m);
    forall k | k in m.keyframes
      ensures k in frames && m.keyframes[k] == frames[k] && Images(m)[k] == images[k]
    {
    }
    OnlyTheseLeft(e, ExtentOf(m));
    fits := Fit(m, snapshot, c, traj, protectedIds, submap, culled, e0, t0, T_ws);
    EnoughCulled(e, StateOf(m), ExtentOf(m), fits, protectedIds, snapshot, c);
  }

  lemma OnlyTheseLeft(e: Extent, now: Extent)
    requires now.points == e.points && now.images.Keys == now.frames.Keys && e.images.Keys == e.frames.Keys
    requires forall k :: k in now.frames ==>
      k in e.frames && now.frames[k] == e.frames[k] && now.images[k] == e.images[k]
    ensures now == WithOnly(e, now.frames.Keys)
  {
  }

  lemma EnoughCulled(e: Extent, left: State, now: Extent, fits: bool, protectedIds: set<nat>, snapshot: nat, c: Config)
    requires now == WithOnly(e, now.frames.Keys) && now.frames.Keys == left.poses.Keys
    requires fits <==> Fits(UsageOf(now), snapshot, c)
    requires OverKeyframes(UsageOf(now), c) && |now.frames| >= 2 ==>
      NothingRedundant(left.v, left.poses, now.frames, protectedIds, c)
    ensures CulledEnough(e, left, !fits, protectedIds, snapshot, c)
  {
    hide WithOnly, UsageOf, Fits, OverKeyframes, NothingRedundant;
  }

  lemma FramesFiled(m: Map, traj: PoseRecords, protectedIds: set<nat>, submap: nat, culled: seq<nat>,
                    e0: Extent, t0: Track, T_ws: SE3)
    requires Culling(m, traj, protectedIds, submap, culled, e0, t0, T_ws)
    ensures forall k :: k in m.keyframes ==> m.keyframes[k].id == k && m.keyframes[k] in m.frameSet
    ensures forall f :: f in m.frameSet ==> f.id in m.keyframes && m.keyframes[f.id] == f
    ensures Images(m).Keys == m.keyframes.Keys
    ensures forall k :: k in m.keyframes ==> Images(m)[k] == m.keyframes[k].imageBytes
    ensures StateOf(m).v == m.Abs() && StateOf(m).poses == Poses(m)
  {
    hide Consistent, IsCov, Progress, RecordsKept;
  }

  /** Stages 4 and 5. */
  method ReclaimKeyframes(m: Map, protectedIds: set<nat>, snapshot: nat, c: Config, traj: PoseRecords, submap: nat,
                          r0: Result,
                          ghost e0: Extent, ghost t0: Track, ghost T_ws: SE3)
    returns (r: Result, fits: bool, ghost before5: Option<seq<nat>>, ghost why: seq<Reason>)
    requires Culling(m, traj, protectedIds, submap, [], e0, t0, T_ws)
    requires r0.culled == [] && r0.compacted == 0 && !r0.stopped
    modifies m`covisibility, m`keyframes, m`frameSet, m`kfCount, m`topology, m`lastHit
    modifies m`mapPoints, m`pointSet, m`mpCount
    modifies m.frameSet`slots, m.pointSet`obs, traj
    ensures Culling(m, traj, protectedIds, submap, r.culled, e0, t0, T_ws) && !r.stopped
    ensures m.frameSet <= old(m.frameSet) && m.pointSet <= old(m.pointSet)
    ensures fits <==> Fits(UsageOf(ExtentOf(m)), snapshot, c)
    ensures !fits ==> before5.Some?
    ensures before5.Some? ==>
      && Listing(before5.value, protectedIds, e0.frames.Keys)
      && CompactedTo(before5.value, protectedIds, c, m.keyframes.Keys)
    ensures r.compacted == if before5.Some? then |before5.value| - |m.keyframes| else 0
    ensures r.zeroObs == r0.zeroObs + |old(m.mapPoints)| - |m.mapPoints|
    ensures r.weakStale == r0.weakStale && r.unloaded == r0.unloaded
    ensures Bounded(protectedIds, e0.frames.Keys, c, |m.keyframes|, r.compacted)
    ensures Reasons(old(StateOf(m)), why, protectedIds, c, r, before5, ExtentOf(m))
    ensures why != [] ==> |old(m.keyframes)| > c.maxKeyframes
    ensures CulledEnough(old(ExtentOf(m)), Afterwards(old(StateOf(m)), why), before5.Some?, protectedIds, snapshot, c)
  {
    hide *;
    ghost var begin, e := StateOf(m), ExtentOf(m);
    StatePoints(m);
    before5 := None;
    var culled;
    culled, fits, why := CullStage(m, protectedIds, snapshot, c, traj, submap, e0, t0, T_ws);
    r := r0.(culled := culled);
    CullingKeys(m, traj, protectedIds, submap, culled, e0, t0, T_ws);
    ghost var left := StateOf(m);
    LastOfExplained(begin, why, left, protectedIds, c, culled);
    ExtentParts(m);
    if fits {
      FittingIsBounded(ExtentOf(m), snapshot, c, protectedIds, e0.frames.Keys);
      ReasonsGiven(begin, why, left, protectedIds, c, r, None, culled, ExtentOf(m));
      return;
    }
    ghost var ids;
    r, ids := CompactStage(m, protectedIds, c, traj, submap, r, e0, t0, T_ws);
    before5 := Some(ids);
    ExtentParts(m);
    ReasonsGiven(begin, why, left, protectedIds, c, r, before5, culled, ExtentOf(m));
    fits := Fit(m, snapshot, c, traj, protectedIds, submap, r.culled, e0, t0, T_ws);
  }

  /** Keyframes may go: without unobserved and stale points and all but the recent images it still did not fit. */
  ghost predicate Exhausted(e: Extent, unobserved: set<nat>, stale: set<nat>, tried: Extent, weakStale: nat,
                            unloaded: nat, snapshot: nat, c: Config) {
    && tried == Third(e, unobserved, stale, c.keepRecent) && !Fits(UsageOf(tried), snapshot, c)
    && weakStale == |First(e, unobserved).points| - |tried.points|
    && unloaded == |OldOnes(e.frames, c.keepRecent)|
  }

  lemma ExhaustedAfterThree(e: Extent, unobserved: set<nat>, stale: set<nat>, after: Extent, r: Result, snapshot: nat,
                            c: Config)
    requires Frugal(e, unobserved, stale, after, r, snapshot, c) && !Fits(UsageOf(after), snapshot, c)
    ensures Exhausted(e, unobserved, stale, after, r.weakStale, r.unloaded, snapshot, c)
  {
    hide Fits, UsageOf, OldOnes, Unloaded;
  }

  /**
   * The stages one after the other, until the map fits. before5 is the list of keyframes a compaction started from,
   * tried what was left when the first keyframe had to go.
   */
  method ReclaimInStages(m: Map, protectedIds: set<nat>, snapshot: nat, c: Config, traj: PoseRecords, submap: nat,
                    ghost T_ws: SE3)
    returns (r: Result, ghost tried: Option<Extent>, ghost before5: Option<seq<nat>>, ghost begin4: State,
             ghost why: seq<Reason>)
    requires m.Valid()
    modifies m`covisibility, m`keyframes, m`frameSet, m`kfCount, m`topology, m`lastHit
    modifies m`mapPoints, m`pointSet, m`mpCount
    modifies m.frameSet`slots, m.frameSet`imageBytes, m.pointSet`obs, traj
    ensures Culling(m, traj, protectedIds, submap, r.culled, old(ExtentOf(m)), old(Track(Poses(m), traj.records)), T_ws)
    ensures m.frameSet <= old(m.frameSet) && m.pointSet <= old(m.pointSet)
    ensures r.stopped <==> !Fits(UsageOf(ExtentOf(m)), snapshot, c)
    ensures old(Fits(UsageOf(ExtentOf(m)), snapshot, c)) ==>
      r == Result(0, 0, 0, 0, [], false) && ExtentOf(m) == old(ExtentOf(m))
    ensures r.stopped ==> before5.Some?
    ensures before5.Some? ==>
      && Listing(before5.value, protectedIds, old(m.keyframes.Keys))
      && CompactedTo(before5.value, protectedIds, c, m.keyframes.Keys)
    ensures r.compacted == if before5.Some? then |before5.value| - |m.keyframes| else 0
    ensures r.zeroObs + r.weakStale == |old(m.mapPoints)| - |m.mapPoints|
    ensures Bounded(protectedIds, old(m.keyframes.Keys), c, |m.keyframes|, r.compacted)
    ensures OnlyPointsGone(old(StateOf(m)), begin4) && Reasons(begin4, why, protectedIds, c, r, before5, ExtentOf(m))
    ensures why != [] ==> |old(m.keyframes)| > c.maxKeyframes
    ensures r.culled != [] || before5.Some? ==> tried.Some?
    ensures tried.Some? ==>
      CulledEnough(tried.value, Afterwards(begin4, why), before5.Some?, protectedIds, snapshot, c)
    ensures tried.Some? ==>
      Exhausted(old(ExtentOf(m)), old(Unobserved(m)), old(Stale(m, c)), tried.value, r.weakStale, r.unloaded, snapshot,
                c)
    ensures tried.None? && !old(Fits(UsageOf(ExtentOf(m)), snapshot, c)) ==>
      Frugal(old(ExtentOf(m)), old(Unobserved(m)), old(Stale(m, c)), ExtentOf(m), r, snapshot, c)
  {
    hide *;
    ghost var e0, t0 := ExtentOf(m), Track(Poses(m), traj.records);
    ghost var unobserved, stale := Unobserved(m), Stale(m, c);
    r, tried, before5 := Result(0, 0, 0, 0, [], false), None, None;
    begin4, why := StateOf(m), [];
    NoPointsGone(begin4);
    StatePoints(m);
    NothingCulled(begin4, protectedIds, c, r, ExtentOf(m));
    CullingStarts(m, traj, protectedIds, submap, T_ws);
    ExtentParts(m);
    var fits := Fit(m, snapshot, c, traj, protectedIds, submap, [], e0, t0, T_ws);
    if fits {
      FittingIsBounded(ExtentOf(m), snapshot, c, protectedIds, e0.frames.Keys);
      return;
    }
    r, fits := ReclaimPointsAndImages(m, snapshot, c, traj, protectedIds, submap, e0, t0, T_ws);
    ExtentParts(m);
    begin4 := StateOf(m);
    StatePoints(m);
    NothingCulled(begin4, protectedIds, c, r, ExtentOf(m));
    FrugalCounts(e0, unobserved, stale, ExtentOf(m), r, snapshot, c);
    if fits {
      FittingIsBounded(ExtentOf(m), snapshot, c, protectedIds, e0.frames.Keys);
      return;
    }
    ExhaustedAfterThree(e0, unobserved, stale, ExtentOf(m), r, snapshot, c);
    tried := Some(ExtentOf(m));
    r, fits, before5, why := ReclaimKeyframes(m, protectedIds, snapshot, c, traj, submap, r, e0, t0, T_ws);
    SameReasons(begin4, why, protectedIds, c, r, r.(stopped := !fits), before5, ExtentOf(m));
    r := r.(stopped := !fits);
  }

  /** What a reclaim starts from. */
  datatype Outset = Outset(held: Extent, unobserved: set<nat>, stale: set<nat>, state: State)

  ghost function OutsetOf(m: Map, c: Config): Outset
    reads m`mapPoints, m`pointSet, m.pointSet`obs, m`lastHit, m`kfCount, m`keyframes, m`frameSet
    reads m.frameSet`imageBytes, m.frameSet`slots, m.frameSet`pose
  {
    Outset(ExtentOf(m), Unobserved(m), Stale(m, c), StateOf(m))
  }

  /**
   * How a reclaim went: what was left when the first keyframe had to go, the state culling began with, why each
   * keyframe was culled, and the keyframes a compaction started from.
   */
  datatype Account = Account(tried: Option<Extent>, begin4: State, why: seq<Reason>, before5: Option<seq<nat>>)

  /** The whole reclaim: what went at which stage, why, and that the report says so. */
  ghost predicate Accounted(s: Outset, a: Account, r: Result, now: Extent, protectedIds: set<nat>, snapshot: nat,
                            c: Config) {
    var e := s.held;
    // the report
    && (r.stopped <==> !Fits(UsageOf(now), snapshot, c))
    && r.zeroObs + r.weakStale == |e.points| - |now.points|
    && r.compacted == (if a.before5.Some? then |a.before5.value| - |now.frames| else 0)
    && Bounded(protectedIds, e.frames.Keys, c, |now.frames|, r.compacted)
    // nothing happens within budget; points and images go before keyframes
    && (Fits(UsageOf(e), snapshot, c) ==> r == Result(0, 0, 0, 0, [], false) && now == e)
    && (!Fits(UsageOf(e), snapshot, c) && a.tried.None? ==> Frugal(e, s.unobserved, s.stale, now, r, snapshot, c))
    && (r.culled != [] || a.before5.Some? || r.stopped ==> a.tried.Some?)
    && (a.tried.Some? ==>
          Exhausted(e, s.unobserved, s.stale, a.tried.value, r.weakStale, r.unloaded, snapshot, c))
    // redundant keyframes go before the history is compacted
    && OnlyPointsGone(s.state, a.begin4) && Reasons(a.begin4, a.why, protectedIds, c, r, a.before5, now)
    && (a.why != [] ==> |e.frames| > c.maxKeyframes)
    && (a.tried.Some? ==>
          CulledEnough(a.tried.value, Afterwards(a.begin4, a.why), a.before5.Some?, protectedIds, snapshot, c))
    && (r.stopped ==> a.before5.Some?)
    && (a.before5.Some? ==>
          && Listing(a.before5.value, protectedIds, e.frames.Keys)
          && CompactedTo(a.before5.value, protectedIds, c, now.frames.Keys))
  }

  /** Reclaim the active map. */
  method ReclaimMap(m: Map, protectedIds: set<nat>, snapshot: nat, c: Config, traj: PoseRecords, submap: nat,
                    ghost T_ws: SE3) returns (r: Result, ghost a: Account)
    requires m.Valid()
    modifies m`covisibility, m`keyframes, m`frameSet, m`kfCount, m`topology, m`lastHit
    modifies m`mapPoints, m`pointSet, m`mpCount
    modifies m.frameSet`slots, m.frameSet`imageBytes, m.pointSet`obs, traj
    ensures Culling(m, traj, protectedIds, submap, r.culled, old(ExtentOf(m)), old(Track(Poses(m), traj.records)), T_ws)
    ensures m.frameSet <= old(m.frameSet) && m.pointSet <= old(m.pointSet)
    ensures Accounted(old(OutsetOf(m, c)), a, r, ExtentOf(m), protectedIds, snapshot, c)
  {
    hide Culling, UsageOf, ExtentOf, Fits, Poses, Bounded, Frugal, Exhausted, OnlyPointsGone, Reasons, CulledEnough,
      Afterwards, Listing, CompactedTo, Unobserved, Stale, StateOf, Map.Valid;
    ExtentParts(m);
    ghost var tried, before5, begin4, why;
    r, tried, before5, begin4, why := ReclaimInStages(m, protectedIds, snapshot, c, traj, submap, T_ws);
    a := Account(tried, begin4, why, before5);
    ExtentParts(m);
  }

  lemma StatePoints(m: Map)
    ensures StateOf(m).v.points == m.mapPoints == ExtentOf(m).points
  {
  }

  lemma NothingCulled(begin: State, protectedIds: set<nat>, c: Config, r: Result, now: Extent)
    requires now.points == begin.v.points
    ensures r.culled == [] && r.compacted == 0 ==> Reasons(begin, [], protectedIds, c, r, None, now)
  {
    ExplainNone(begin, protectedIds, c);
    if r.culled == [] && r.compacted == 0 {
      ReasonsGiven(begin, [], begin, protectedIds, c, r, None, [], now);
    }
  }

  lemma SameReasons(begin: State, why: seq<Reason>, protectedIds: set<nat>, c: Config, r: Result, s: Result,
                    before5: Option<seq<nat>>, now: Extent)
    requires Reasons(begin, why, protectedIds, c, r, before5, now)
    requires s.culled == r.culled && s.compacted == r.compacted
    ensures Reasons(begin, why, protectedIds, c, s, before5, now)
  {
    hide Surviving;
  }

  lemma CullingStarts(m: Map, traj: PoseRecords, protectedIds: set<nat>, submap: nat, T_ws: SE3)
    requires m.Valid()
    ensures Culling(m, traj, protectedIds, submap, [], ExtentOf(m), Track(Poses(m), traj.records), T_ws)
  {
    hide Consistent, IsCov, Progress, RecordsKept, Poses, ExtentOf;
    ProgressStart(ExtentOf(m), protectedIds);
    RecordsKeptStart(Track(Poses(m), traj.records), submap, T_ws);
  }

  /** What every reclaim guarantees, read off its final state. */
  lemma {:induction false} CullingMeans(m: Map, traj: PoseRecords, protectedIds: set<nat>, submap: nat,
                                        culled: seq<nat>,
                                        e0: Extent, t0: Track, T_ws: SE3)
    requires Culling(m, traj, protectedIds, submap, culled, e0, t0, T_ws)
    ensures m.Valid() && NoMore(UsageOf(ExtentOf(m)), UsageOf(e0))
    ensures forall k :: k in e0.frames && k in protectedIds ==> k in m.keyframes && m.keyframes[k] == e0.frames[k]
    ensures forall k :: k in culled <==> k in e0.frames && k !in m.keyframes
    ensures forall i :: 0 <= i < |t0.records| && t0.records[i].submap == submap ==>
      && i < |traj.records| && WorldPose(traj.records[i], Poses(m), T_ws) == WorldPose(t0.records[i], t0.poses, T_ws)
      && (t0.records[i].anchor in t0.poses ==> traj.records[i].anchor in m.keyframes)
  {
    hide Consistent, IsCov, UsageOf, WorldPose, Poses, Images;
    WithinUsesLess(ExtentOf(m), e0);
    LiveKeys(m);
    forall i | 0 <= i < |t0.records| && t0.records[i].submap == submap
      ensures i < |traj.records| && RecordKept(t0, Track(Poses(m), traj.records), submap, T_ws, i)
    {
    }
  }

  // ---- frozen submaps ---------------------------------------------------------------------

  /** How many of the listed ids the map knows. */
  function Known(ids: seq<nat>, keys: set<nat>): nat {
    if ids == [] then 0 else Known(ids[..|ids| - 1], keys) + if ids[|ids| - 1] in keys then 1 else 0
  }

  /** Drop the image buffers of these keyframes; ids the map does not know are skipped. */
  method UnloadImages(m: Map, ids: seq<nat>) returns (count: nat)
    requires m.Valid()
    modifies m.frameSet`imageBytes
    ensures m.Valid() && count == Known(ids, m.keyframes.Keys)
    ensures ExtentOf(m) == old(ExtentOf(m)).(images := Unloaded(old(Images(m)), IdSet(ids)))
  {
    hide Consistent, IsCov, Known;
    count := 0;
    KnownNone(m.keyframes.Keys);
    for i := 0 to |ids|
      invariant count == Known(ids[..i], m.keyframes.Keys)
      invariant forall f :: f in m.frameSet ==> f.imageBytes == if f.id in ids[..i] then 0 else old(f.imageBytes)
    {
      KnownMore(ids, i, m.keyframes.Keys);
      assert ids[..i + 1] == ids[..i] + [ids[i]];
      if ids[i] in m.keyframes {
        m.keyframes[ids[i]].ReleaseImages();
        count := count + 1;
      }
    }
    assert ids[..|ids|] == ids;
  }

  lemma KnownNone(keys: set<nat>)
    ensures Known([], keys) == 0
  {
  }

  lemma KnownMore(ids: seq<nat>, i: nat, keys: set<nat>)
    requires i < |ids|
    ensures Known(ids[..i + 1], keys) == Known(ids[..i], keys) + if ids[i] in keys then 1 else 0
  {
    assert ids[..i + 1][..i] == ids[..i];
  }

  /** Which inactive submaps are frozen: all but the newest, as many as are allowed to stay. */
  method ChooseFrozen(inactive: set<nat>, c: Config) returns (frozen: seq<nat>)
    ensures Increasing(frozen) && forall s :: s in frozen ==> s in inactive
    ensures |frozen| == if |inactive| > c.maxInactive then |inactive| - c.maxInactive else 0
    ensures forall s, t :: s in frozen && t in inactive && t !in frozen ==> s < t
  {
    hide Increasing;
    var ids := Ascending(inactive);
    frozen := [];
    if |ids| > c.maxInactive {
      frozen := ids[..|ids| - c.maxInactive];
      OldestFirst(ids, |ids| - c.maxInactive);
    } else {
      EmptyAscends();
    }
  }

  lemma EmptyAscends()
    ensures Increasing([])
  {
  }

  lemma OldestFirst(ids: seq<nat>, n: nat)
    requires Increasing(ids) && n <= |ids|
    ensures Increasing(ids[..n]) && forall s :: s in ids[..n] ==> s in ids
    ensures forall s, t :: s in ids[..n] && t in ids && t !in ids[..n] ==> s < t
  {
    assert ids == ids[..n] + ids[n..];
    forall s, t | s in ids[..n] && t in ids && t !in ids[..n]
      ensures s < t
    {
      var i :| 0 <= i < n && ids[i] == s;
      var j :| 0 <= j < |ids| - n && ids[n..][j] == t;
      IncreasingOrder(ids, i, n + j);
    }
  }

  ghost function Frozen(e: Extent, stale: set<nat>, ids: set<nat>): Extent {
    Extent(e.points - stale, e.frames, Unloaded(e.images, ids))
  }

  lemma ValidIsFiled(m: Map)
    requires m.Valid()
    ensures m.Filed()
  {
  }

  /** Stage 6 for one frozen submap: its images are unloaded and its weak stale points removed, its keyframes stay. */
  method FreezeSubmap(m: Map, ids: seq<nat>, c: Config) returns (unloaded: nat, removed: nat)
    requires m.Valid()
    modifies m`covisibility, m`lastHit, m`mapPoints, m`pointSet, m`mpCount, m`topology
    modifies m.pointSet`obs, m.frameSet`slots, m.frameSet`imageBytes
    ensures m.Valid() && m.pointSet <= old(m.pointSet)
    ensures unloaded == Known(ids, m.keyframes.Keys) && removed == |old(m.mapPoints)| - |m.mapPoints|
    ensures ExtentOf(m) == Frozen(old(ExtentOf(m)), old(StaleIds(m, c.weakMinObservations, c.staleWindow)), IdSet(ids))
  {
    hide Map.Valid, Map.Filed, Unloaded, IdSet, StaleIds, Images, ExtentOf;
    ExtentParts(m);
    unloaded := UnloadImages(m, ids);
    removed := RemoveWeak(m, c);
  }

  method RemoveWeak(m: Map, c: Config) returns (removed: nat)
    requires m.Valid()
    modifies m`covisibility, m`lastHit, m`mapPoints, m`pointSet, m`mpCount, m`topology
    modifies m.pointSet`obs, m.frameSet`slots
    ensures m.Valid() && m.pointSet <= old(m.pointSet) && removed == |old(m.mapPoints)| - |m.mapPoints|
    ensures ExtentOf(m) ==
            old(ExtentOf(m)).(points := old(m.mapPoints) - old(StaleIds(m, c.weakMinObservations, c.staleWindow)))
  {
    hide Map.Valid, Map.Filed, IdSet, StaleIds, Images, Map.Abs, RemovePoints, ExtentOf;
    ValidIsFiled(m);
    var stale := StalePoints(m, c.weakMinObservations, c.staleWindow);
    removed := RemoveOneByOne(m, stale);
  }
}
