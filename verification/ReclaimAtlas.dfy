/** The last stage of a reclaim: inactive submaps beyond the newest few are frozen, each on its own map. */
module ReclaimAtlas {
  import opened RigidMotion
  import opened MapEntities
  import opened Ordering
  import opened ObservationModel
  import opened SlamMap
  import opened BudgetPolicy
  import opened CommitOnMap
  import opened Trajectory
  import opened MapExtent
  import opened ResourceBudget
  import opened Reclaim

  type Maps = map<nat, Map>

  ghost predicate Disjoint<T>(sets: map<nat, set<T>>) {
    forall s, t :: s in sets && t in sets && s != t ==> sets[s] !! sets[t]
  }

  lemma DisjointShrinks<T>(before: map<nat, set<T>>, after: map<nat, set<T>>)
    requires Disjoint(before) && after.Keys == before.Keys && forall s :: s in after ==> after[s] <= before[s]
    ensures Disjoint(after)
  {
  }

  ghost function PointSets(maps: Maps): map<nat, set<MapPoint>>
    reads maps.Values`pointSet
  {
    map s | s in maps :: maps[s].pointSet
  }

  ghost function FrameSets(maps: Maps): map<nat, set<Frame>>
    reads maps.Values`frameSet
  {
    map s | s in maps :: maps[s].frameSet
  }

  ghost predicate OneMapEach(maps: Maps) {
    forall s, t :: s in maps && t in maps && s != t ==> maps[s] != maps[t]
  }

  /** No two submaps share a map or an object. */
  ghost predicate Separate(maps: Maps)
    reads maps.Values`pointSet, maps.Values`frameSet
  {
    OneMapEach(maps) && Disjoint(PointSets(maps)) && Disjoint(FrameSets(maps))
  }

  /** Maps that only lost points stay separate. */
  lemma StaysSeparate(maps: Maps, points: map<nat, set<MapPoint>>)
    requires OneMapEach(maps) && Disjoint(points) && Disjoint(FrameSets(maps)) && points.Keys == maps.Keys
    requires forall s :: s in maps ==> maps[s].pointSet <= points[s]
    ensures Separate(maps)
  {
    hide OneMapEach, Disjoint, FrameSets;
    DisjointShrinks(points, PointSets(maps));
  }

  lemma PointSetAt(maps: Maps)
    ensures PointSets(maps).Keys == maps.Keys && forall s :: s in maps ==> PointSets(maps)[s] == maps[s].pointSet
  {
  }

  lemma SeparateFrom(maps: Maps, s: nat)
    requires Separate(maps) && s in maps
    ensures forall t :: t in maps && t != s ==>
      maps[t] != maps[s] && maps[t].pointSet !! maps[s].pointSet && maps[t].frameSet !! maps[s].frameSet
  {
    forall t | t in maps && t != s
      ensures maps[t].pointSet !! maps[s].pointSet && maps[t].frameSet !! maps[s].frameSet
    {
      assert PointSets(maps)[t] !! PointSets(maps)[s] && FrameSets(maps)[t] !! FrameSets(maps)[s];
    }
  }

  ghost function PointsIn(maps: Maps): set<MapPoint>
    reads maps.Values`pointSet
  {
    set m, p | m in maps.Values && p in m.pointSet :: p
  }

  ghost function FramesIn(maps: Maps): set<Frame>
    reads maps.Values`frameSet
  {
    set m, f | m in maps.Values && f in m.frameSet :: f
  }

  /** What the submaps held at the start, and which of their points were weak and stale. */
  datatype Start = Start(extents: map<nat, Extent>, stale: map<nat, set<nat>>)

  ghost function Held(maps: Maps, c: Config): Start
    reads maps.Values, PointsIn(maps)`obs, FramesIn(maps)`imageBytes
  {
    Start(map s | s in maps :: ExtentOf(maps[s]),
          map s | s in maps :: StaleIds(maps[s], c.weakMinObservations, c.staleWindow))
  }

  ghost predicate AllValid(maps: Maps)
    reads maps.Values, PointsIn(maps)`obs, FramesIn(maps)`slots
  {
    forall s :: s in maps ==> maps[s].Valid()
  }

  /** The submaps in frozen are frozen, the others as they were. */
  ghost predicate FrozenOnly(start: Start, now: Start, keyframesOf: map<nat, seq<nat>>, frozen: set<nat>) {
    && start.extents.Keys == start.stale.Keys == now.extents.Keys == now.stale.Keys == keyframesOf.Keys
    && forall s :: s in keyframesOf ==>
      if s in frozen then now.extents[s] == Frozen(start.extents[s], start.stale[s], IdSet(keyframesOf[s]))
      else now.extents[s] == start.extents[s] && now.stale[s] == start.stale[s]
  }

  lemma FrozenMore(start: Start, now: Start, next: Start, keyframesOf: map<nat, seq<nat>>, frozen: set<nat>, s: nat)
    requires FrozenOnly(start, now, keyframesOf, frozen) && s in keyframesOf && s !in frozen
    requires next.extents == now.extents[s := Frozen(now.extents[s], now.stale[s], IdSet(keyframesOf[s]))]
    requires next.stale.Keys == now.stale.Keys && forall t :: t in now.stale && t != s ==> next.stale[t] == now.stale[t]
    ensures FrozenOnly(start, next, keyframesOf, frozen + {s})
  {
    hide Frozen, IdSet;
  }

  /** The other maps do not notice. */
  method FreezeApart(maps: Maps, s: nat, m: Map, ids: seq<nat>, c: Config) returns (unloaded: nat, removed: nat)
    requires s in maps && maps[s] == m && Separate(maps) && AllValid(maps)
    modifies m`covisibility, m`lastHit, m`mapPoints, m`pointSet, m`mpCount, m`topology
    modifies m.pointSet`obs, m.frameSet`slots, m.frameSet`imageBytes
    ensures m.Valid() && m.pointSet <= old(m.pointSet)
    ensures ExtentOf(m) == Frozen(old(ExtentOf(m)), old(StaleIds(m, c.weakMinObservations, c.staleWindow)), IdSet(ids))
    ensures unloaded == Known(ids, m.keyframes.Keys) && removed == |old(m.mapPoints)| - |m.mapPoints|
    ensures forall t :: t in maps && t != s ==>
      && maps[t].Valid() && maps[t].pointSet == old(maps[t].pointSet) && ExtentOf(maps[t]) == old(ExtentOf(maps[t]))
      && StaleIds(maps[t], c.weakMinObservations, c.staleWindow)
         == old(StaleIds(maps[t], c.weakMinObservations, c.staleWindow))
  {
    hide StaleIds, ExtentOf, Map.Valid, Frozen, IdSet, Separate;
    SeparateFrom(maps, s);
    unloaded, removed := FreezeSubmap(m, ids, c);
  }

  lemma HeldAt(maps: Maps, c: Config)
    ensures Held(maps, c).extents.Keys == Held(maps, c).stale.Keys == maps.Keys
    ensures forall s :: s in maps ==>
      && Held(maps, c).extents[s] == ExtentOf(maps[s])
      && Held(maps, c).stale[s] == StaleIds(maps[s], c.weakMinObservations, c.staleWindow)
  {
    hide StaleIds, ExtentOf;
  }

  lemma HeldIs(maps: Maps, c: Config, now: Start, s: nat, e: Extent)
    requires s in maps && now.extents.Keys == now.stale.Keys == maps.Keys && ExtentOf(maps[s]) == e
    requires forall t :: t in maps && t != s ==>
      ExtentOf(maps[t]) == now.extents[t] && StaleIds(maps[t], c.weakMinObservations, c.staleWindow) == now.stale[t]
    ensures var next := Held(maps, c);
            && next.extents == now.extents[s := e] && next.stale.Keys == now.stale.Keys
            && forall t :: t in now.stale && t != s ==> next.stale[t] == now.stale[t]
  {
    hide StaleIds, ExtentOf;
  }

  /** next is now with submap s frozen, which took so many images and points. */
  ghost predicate OneFrozen(now: Start, next: Start, s: nat, ids: seq<nat>, unloaded: nat, removed: nat) {
    && s in now.extents && s in now.stale && next.stale.Keys == now.stale.Keys
    && next.extents == now.extents[s := Frozen(now.extents[s], now.stale[s], IdSet(ids))]
    && (forall t :: t in now.stale && t != s ==> next.stale[t] == now.stale[t])
    && unloaded == Known(ids, now.extents[s].frames.Keys)
    && removed == |now.extents[s].points| - |next.extents[s].points|
  }

  /** One submap more is frozen. */
  method FreezeOne(maps: Maps, s: nat, m: Map, ids: seq<nat>, c: Config) returns (unloaded: nat, removed: nat)
    requires s in maps && maps[s] == m && Separate(maps) && AllValid(maps)
    modifies m`covisibility, m`lastHit, m`mapPoints, m`pointSet, m`mpCount, m`topology
    modifies m.pointSet`obs, m.frameSet`slots, m.frameSet`imageBytes
    ensures Separate(maps) && AllValid(maps) && m.pointSet <= old(m.pointSet)
    ensures OneFrozen(old(Held(maps, c)), Held(maps, c), s, ids, unloaded, removed)
  {
    hide StaleIds, ExtentOf, Map.Valid, Frozen, IdSet, Held, PointsIn, FramesIn, Disjoint, OneMapEach, FrameSets,
      PointSets;
    ghost var now, points := Held(maps, c), PointSets(maps);
    HeldAt(maps, c);
    ExtentParts(m);
    PointSetAt(maps);
    unloaded, removed := FreezeApart(maps, s, m, ids, c);
    ExtentParts(m);
    StaysSeparate(maps, points);
    HeldIs(maps, c, now, s, Frozen(now.extents[s], now.stale[s], IdSet(ids)));
  }

  /** Points held by all submaps together. */
  ghost function PointCounts(held: Start): map<nat, nat> {
    map s | s in held.extents :: |held.extents[s].points|
  }

  lemma CountsChange(now: Start, next: Start, s: nat, e: Extent)
    requires s in now.extents && next.extents == now.extents[s := e]
    ensures Sum(PointCounts(now)) - |now.extents[s].points| == Sum(PointCounts(next)) - |e.points|
  {
    hide Sum;
    assert PointCounts(next) == PointCounts(now)[s := |e.points|];
    SumChanges(PointCounts(now), s, |e.points|);
  }

  lemma SumChanges(m: map<nat, nat>, k: nat, v: nat)
    requires k in m
    ensures Sum(m[k := v]) == Sum(m) - m[k] + v
  {
    hide Sum;
    SumTakes(m, k);
    SumTakes(m[k := v], k);
    assert m[k := v] - {k} == m - {k};
  }

  /** Images of listed keyframes that these submaps know. */
  ghost function KnownIn(start: Start, keyframesOf: map<nat, seq<nat>>, ids: seq<nat>): nat {
    if ids == [] then 0
    else
      var n := |ids| - 1;
      var s := ids[n];
      KnownIn(start, keyframesOf, ids[..n])
      + if s in keyframesOf && s in start.extents then Known(keyframesOf[s], start.extents[s].frames.Keys) else 0
  }

  lemma KnownInMore(start: Start, keyframesOf: map<nat, seq<nat>>, ids: seq<nat>, n: nat)
    requires n < |ids| && ids[n] in keyframesOf && ids[n] in start.extents
    ensures KnownIn(start, keyframesOf, ids[..n + 1])
         == KnownIn(start, keyframesOf, ids[..n]) + Known(keyframesOf[ids[n]], start.extents[ids[n]].frames.Keys)
  {
    hide Known;
    assert ids[..n + 1][..n] == ids[..n];
  }

  lemma NotYet(start: Start, now: Start, keyframesOf: map<nat, seq<nat>>, frozen: set<nat>, s: nat)
    requires FrozenOnly(start, now, keyframesOf, frozen) && s in keyframesOf && s !in frozen
    ensures s in now.extents && s in start.extents && now.extents[s] == start.extents[s]
  {
  }

  /** The first n of the chosen submaps are frozen, and the counts are theirs. */
  ghost predicate Freezing(start: Start, now: Start, keyframesOf: map<nat, seq<nat>>, frozen: seq<nat>, n: nat,
                           unloaded: nat, removed: nat)
    requires n <= |frozen|
  {
    && FrozenOnly(start, now, keyframesOf, Front(frozen, n)) && unloaded == KnownIn(start, keyframesOf, frozen[..n])
    && removed == Sum(PointCounts(start)) - Sum(PointCounts(now))
  }

  lemma FreezingStep(start: Start, now: Start, next: Start, keyframesOf: map<nat, seq<nat>>, frozen: seq<nat>, n: nat,
                     unloaded: nat, removed: nat, images: nat, points: nat)
    requires Increasing(frozen) && n < |frozen| && frozen[n] in keyframesOf
    requires Freezing(start, now, keyframesOf, frozen, n, unloaded, removed)
    requires OneFrozen(now, next, frozen[n], keyframesOf[frozen[n]], images, points)
    ensures Freezing(start, next, keyframesOf, frozen, n + 1, unloaded + images, removed + points)
  {
    hide Increasing, FrozenOnly, Frozen, IdSet, Known, KnownIn, Front, Sum, PointCounts;
    var s := frozen[n];
    FrontGrows(frozen, n);
    NotYet(start, now, keyframesOf, Front(frozen, n), s);
    FrozenMore(start, now, next, keyframesOf, Front(frozen, n), s);
    CountsChange(now, next, s, next.extents[s]);
    KnownInMore(start, keyframesOf, frozen, n);
  }

  /** Freeze all but the newest allowed submaps, and count the images and points that go. */
  method FreezeInactive(maps: Maps, keyframesOf: map<nat, seq<nat>>, c: Config)
    returns (frozen: seq<nat>, unloaded: nat, removed: nat)
    requires keyframesOf.Keys == maps.Keys && Separate(maps) && AllValid(maps)
    modifies maps.Values`covisibility, maps.Values`lastHit, maps.Values`mapPoints, maps.Values`pointSet
    modifies maps.Values`mpCount, maps.Values`topology
    modifies PointsIn(maps)`obs, FramesIn(maps)`slots, FramesIn(maps)`imageBytes
    ensures Separate(maps) && AllValid(maps) && PointsIn(maps) <= old(PointsIn(maps))
    ensures |frozen| == if |maps| > c.maxInactive then |maps| - c.maxInactive else 0
    ensures forall s, t :: s in frozen && t in maps && t !in frozen ==> s < t
    ensures Freezing(old(Held(maps, c)), Held(maps, c), keyframesOf, frozen, |frozen|, unloaded, removed)
  {
    hide StaleIds, ExtentOf, Map.Valid, Separate, AllValid, IdSet, Held, Freezing, OneFrozen, Increasing;
    unloaded, removed := 0, 0;
    frozen := ChooseFrozen(keyframesOf.Keys, c);
    ghost var start := Held(maps, c);
    NothingFrozen(maps, keyframesOf, c, frozen);
    for n := 0 to |frozen|
      invariant Separate(maps) && AllValid(maps)
      invariant forall s :: s in maps ==> maps[s].pointSet <= old(maps[s].pointSet)
      invariant Freezing(start, Held(maps, c), keyframesOf, frozen, n, unloaded, removed)
    {
      var s := frozen[n];
      assert s in frozen;
      ghost var now := Held(maps, c);
      var images, points := FreezeOne(maps, s, maps[s], keyframesOf[s], c);
      FreezingStep(start, now, Held(maps, c), keyframesOf, frozen, n, unloaded, removed, images, points);
      unloaded, removed := unloaded + images, removed + points;
    }
  }

  lemma NothingFrozen(maps: Maps, keyframesOf: map<nat, seq<nat>>, c: Config, frozen: seq<nat>)
    requires keyframesOf.Keys == maps.Keys
    ensures Freezing(Held(maps, c), Held(maps, c), keyframesOf, frozen, 0, 0, 0)
  {
    hide StaleIds, ExtentOf, Sum;
  }

  // ---- the whole reclaim --------------------------------------------------------------------

  /** The active map shares nothing with the inactive ones. */
  ghost predicate Aside(m: Map, maps: Maps)
    reads m`pointSet, m`frameSet, maps.Values`pointSet, maps.Values`frameSet
  {
    m !in maps.Values && m.pointSet !! PointsIn(maps) && m.frameSet !! FramesIn(maps)
  }

  lemma AsideOf(m: Map, maps: Maps, s: nat)
    requires Aside(m, maps) && s in maps
    ensures m !in maps.Values
    ensures maps[s] in maps.Values && maps[s] != m && maps[s].pointSet !! m.pointSet && maps[s].frameSet !! m.frameSet
  {
    assert maps[s].pointSet <= PointsIn(maps) && maps[s].frameSet <= FramesIn(maps);
  }

  lemma StaysAside(m: Map, maps: Maps)
    requires m !in maps.Values
    requires forall s :: s in maps ==> maps[s].pointSet !! m.pointSet && maps[s].frameSet !! m.frameSet
    ensures Aside(m, maps)
  {
  }

  /** The stages on the active map leave the others alone. */
  method ReclaimActive(m: Map, protectedIds: set<nat>, snapshot: nat, c: Config, traj: PoseRecords, submap: nat,
                       ghost maps: Maps, ghost T_ws: SE3)
    returns (r: Result, ghost a: Account)
    requires m.Valid() && Separate(maps) && AllValid(maps) && Aside(m, maps)
    modifies m`covisibility, m`keyframes, m`frameSet, m`kfCount, m`topology, m`lastHit
    modifies m`mapPoints, m`pointSet, m`mpCount
    modifies m.frameSet`slots, m.frameSet`imageBytes, m.pointSet`obs, traj
    ensures Culling(m, traj, protectedIds, submap, r.culled, old(ExtentOf(m)), old(Track(Poses(m), traj.records)), T_ws)
    ensures Accounted(old(OutsetOf(m, c)), a, r, ExtentOf(m), protectedIds, snapshot, c)
    ensures PointsIn(maps) == old(PointsIn(maps)) && FramesIn(maps) == old(FramesIn(maps))
    ensures AllValid(maps) && Separate(maps) && Aside(m, maps)
    ensures forall s :: s in maps ==> ExtentOf(maps[s]) == old(ExtentOf(maps[s]))
    ensures forall s :: s in maps ==>
      StaleIds(maps[s], c.weakMinObservations, c.staleWindow)
        == old(StaleIds(maps[s], c.weakMinObservations, c.staleWindow))
  {
    hide Culling, ExtentOf, Accounted, Poses, Separate, StaleIds, Map.Valid, PointsIn, FramesIn, Aside, OutsetOf;
    forall s | s in maps
      ensures maps[s] in maps.Values && maps[s] != m && maps[s].pointSet !! m.pointSet && maps[s].frameSet !! m.frameSet
    {
      AsideOf(m, maps, s);
    }
    r, a := ReclaimMap(m, protectedIds, snapshot, c, traj, submap, T_ws);
    StaysAside(m, maps);
  }

  lemma HeldSame(maps: Maps, c: Config, before: Start)
    requires before.extents.Keys == before.stale.Keys == maps.Keys
    requires forall s :: s in maps ==>
      before.extents[s] == ExtentOf(maps[s])
      && before.stale[s] == StaleIds(maps[s], c.weakMinObservations, c.staleWindow)
    ensures Held(maps, c) == before
  {
    hide ExtentOf, StaleIds;
    HeldAt(maps, c);
    assert Held(maps, c).extents == before.extents && Held(maps, c).stale == before.stale;
  }

  /** Freezing the inactive submaps leaves the active map and the trajectory alone. */
  method FreezeBeside(m: Map, maps: Maps, keyframesOf: map<nat, seq<nat>>, c: Config, ghost traj: PoseRecords,
                      ghost protectedIds: set<nat>, ghost submap: nat, ghost culled: seq<nat>,
                      ghost e0: Extent, ghost t0: Track, ghost T_ws: SE3)
    returns (frozen: seq<nat>, unloaded: nat, removed: nat)
    requires Culling(m, traj, protectedIds, submap, culled, e0, t0, T_ws)
    requires keyframesOf.Keys == maps.Keys && Separate(maps) && AllValid(maps) && Aside(m, maps)
    modifies maps.Values`covisibility, maps.Values`lastHit, maps.Values`mapPoints, maps.Values`pointSet
    modifies maps.Values`mpCount, maps.Values`topology
    modifies PointsIn(maps)`obs, FramesIn(maps)`slots, FramesIn(maps)`imageBytes
    ensures Culling(m, traj, protectedIds, submap, culled, e0, t0, T_ws) && ExtentOf(m) == old(ExtentOf(m))
    ensures Separate(maps) && AllValid(maps) && Aside(m, maps)
    ensures |frozen| == if |maps| > c.maxInactive then |maps| - c.maxInactive else 0
    ensures forall s, t :: s in frozen && t in maps && t !in frozen ==> s < t
    ensures Freezing(old(Held(maps, c)), Held(maps, c), keyframesOf, frozen, |frozen|, unloaded, removed)
  {
    hide Culling, ExtentOf, Held, Freezing, Separate, AllValid, StaleIds, Map.Valid, PointsIn;
    frozen, unloaded, removed := FreezeInactive(maps, keyframesOf, c);
  }

  /**
   * All stages. The inactive submaps are frozen exactly if the active map still does not fit, which they do not change.
   */
  method ReclaimAll(m: Map, protectedIds: set<nat>, snapshot: nat, c: Config, traj: PoseRecords, submap: nat,
                    maps: Maps, keyframesOf: map<nat, seq<nat>>, ghost T_ws: SE3)
    returns (r: Result, frozen: seq<nat>, unloaded: nat, removed: nat, ghost a: Account)
    requires m.Valid() && keyframesOf.Keys == maps.Keys && Separate(maps) && AllValid(maps) && Aside(m, maps)
    modifies m`covisibility, m`keyframes, m`frameSet, m`kfCount, m`topology, m`lastHit
    modifies m`mapPoints, m`pointSet, m`mpCount
    modifies m.frameSet`slots, m.frameSet`imageBytes, m.pointSet`obs, traj
    modifies maps.Values`covisibility, maps.Values`lastHit, maps.Values`mapPoints, maps.Values`pointSet
    modifies maps.Values`mpCount, maps.Values`topology
    modifies PointsIn(maps)`obs, FramesIn(maps)`slots, FramesIn(maps)`imageBytes
    ensures Culling(m, traj, protectedIds, submap, r.culled, old(ExtentOf(m)), old(Track(Poses(m), traj.records)), T_ws)
    ensures Accounted(old(OutsetOf(m, c)), a, r, ExtentOf(m), protectedIds, snapshot, c)
    ensures Separate(maps) && AllValid(maps) && Aside(m, maps)
    ensures !r.stopped ==> frozen == [] && unloaded == removed == 0 && Held(maps, c) == old(Held(maps, c))
    ensures r.stopped ==>
      && |frozen| == (if |maps| > c.maxInactive then |maps| - c.maxInactive else 0)
      && (forall s, t :: s in frozen && t in maps && t !in frozen ==> s < t)
      && Freezing(old(Held(maps, c)), Held(maps, c), keyframesOf, frozen, |frozen|, unloaded, removed)
  {
    hide Culling, ExtentOf, Accounted, Poses, Held, Freezing, Separate, AllValid, StaleIds, Map.Valid, Aside, PointsIn,
      FramesIn, OutsetOf;
    ghost var e0, t0, held := ExtentOf(m), Track(Poses(m), traj.records), Held(maps, c);
    frozen, unloaded, removed := [], 0, 0;
    HeldAt(maps, c);
    r, a := ReclaimActive(m, protectedIds, snapshot, c, traj, submap, maps, T_ws);
    HeldSame(maps, c, held);
    if r.stopped {
      frozen, unloaded, removed := FreezeBeside(m, maps, keyframesOf, c, traj, protectedIds, submap, r.culled,
                                                e0, t0, T_ws);
    }
  }
}
