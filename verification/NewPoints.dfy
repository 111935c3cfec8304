/** New map points from stereo depth and from triangulation: connected on every registered side, or not at all. */
module NewPoints {
  import opened RigidMotion
  import opened MapEntities
  import opened Covisibility
  import opened ObservationModel
  import opened SlamMap

  // ---- a new point on values ---------------------------------------------------------

  ghost function Bound(slots: map<nat, Slots>, p: MapPoint, at: map<nat, nat>): map<nat, Slots> {
    map k | k in slots :: if k in at && at[k] < |slots[k]| then slots[k][at[k] := p] else slots[k]
  }

  /** p registered and bound to the feature at names on each of its keyframes. */
  ghost function Connected(v: View, p: MapPoint, at: map<nat, nat>): View {
    View(v.points[p.id := p], v.keypoints, Bound(v.slots, p, at), v.obs[p := at])
  }

  ghost predicate Free(v: View, k: nat, i: nat) {
    k in v.slots && k in v.keypoints && i < v.keypoints[k] && i < |v.slots[k]| && v.slots[k][i] == null
  }

  ghost predicate AllFree(v: View, at: map<nat, nat>) {
    forall k :: k in at ==> Free(v, k, at[k])
  }

  lemma BoundNowhere(slots: map<nat, Slots>, p: MapPoint)
    ensures Bound(slots, p, map[]) == slots
  {
  }

  lemma AbsentFromSlots(v: View, p: MapPoint, k: nat)
    requires Consistent(v) && p !in v.obs && k in v.slots
    ensures DropPoints(v.slots[k], {p}) == v.slots[k]
  {
    assert FrameFormal(v, k);
    forall i | 0 <= i < |v.slots[k]|
      ensures v.slots[k][i] != p
    {
      assert Formal(v, k, i);
    }
  }

  lemma InsertThenRemove(v: View, p: MapPoint)
    requires Consistent(v) && p.id !in v.points && p !in v.obs
    ensures RemovePoints(InsertPoint(v, p), {p.id}) == v
  {
    hide Consistent;
    var w := InsertPoint(v, p);
    assert PointsOf(w, {p.id}) == {p};
    assert w.points - {p.id} == v.points && w.obs - {p} == v.obs;
    forall k | k in v.slots
      ensures DropPoints(v.slots[k], {p}) == v.slots[k]
    {
      AbsentFromSlots(v, p, k);
    }
  }

  lemma {:induction false} ConnectedNone(v: View, p: MapPoint)
    requires Consistent(v) && p.id !in v.points
    ensures Connected(v, p, map[]) == InsertPoint(v, p) && Consistent(InsertPoint(v, p)) && p !in v.obs
    ensures RemovePoints(Connected(v, p, map[]), {p.id}) == v
  {
    hide Consistent, RemovePoints, Bound;
    InsertPointConsistent(v, p);
    BoundNowhere(v.slots, p);
    InsertThenRemove(v, p);
  }

  lemma BoundOnceMore(v: View, p: MapPoint, at: map<nat, nat>, k: nat, i: nat)
    requires Free(v, k, i) && k !in at
    ensures var w, u := Connected(v, p, at), Connected(v, p, at[k := i]);
            && Free(w, k, i) && k !in w.obs[p]
            && u == w.(slots := w.slots[k := w.slots[k][i := p]], obs := With(w.obs, p, k, i))
  {
    var w := Connected(v, p, at);
    assert w.slots[k := w.slots[k][i := p]] == Bound(v.slots, p, at[k := i]);
    assert With(w.obs, p, k, i) == v.obs[p := at[k := i]];
  }

  lemma {:induction false} ConnectedMore(v: View, p: MapPoint, at: map<nat, nat>, k: nat, i: nat)
    requires Consistent(Connected(v, p, at)) && Free(v, k, i) && k !in at
    ensures SetSlot(Connected(v, p, at), k, i, p) == (Connected(v, p, at[k := i]), true)
    ensures ClearSlot(Connected(v, p, at[k := i]), k, i) == (Connected(v, p, at), true)
    ensures Consistent(Connected(v, p, at[k := i]))
  {
    hide Consistent, ClearSlot, SetSlot, Indexed, Bound, With;
    var w := Connected(v, p, at);
    ConsistentIsIndexed(w);
    BoundOnceMore(v, p, at, k, i);
    SetEmptySlot(w, k, i, p);
    SetThenClear(w, k, i, p);
  }

  /** On a frame that observes p already a second feature is refused, as is a slot without a keypoint. */
  lemma {:induction false} ConnectedTwice(v: View, p: MapPoint, k: nat, i: nat)
    requires Consistent(v) && p in v.obs
    requires k in v.obs[p] || (k in v.keypoints && i >= v.keypoints[k])
    ensures SetSlot(v, k, i, p) == (v, false)
  {
    SetSlotOnConsistent(v, k, i, p);
  }

  // ---- one point ---------------------------------------------------------------------------

  predicate IsRegistered(m: Map, f: Frame)
    reads m`keyframes
  {
    f.id in m.keyframes && m.keyframes[f.id] == f
  }

  /** The registered frames among the two, with the feature each one sees the point at. */
  function Seen(m: Map, f1: Frame, i: nat, f2: Frame, j: nat): map<nat, nat>
    reads m`keyframes
  {
    var one: map<nat, nat> := if IsRegistered(m, f1) then map[f1.id := i] else map[];
    if IsRegistered(m, f2) then one[f2.id := j] else one
  }

  ghost predicate IsNew(m: Map, p: MapPoint)
    reads m, p
  {
    p.id !in m.mapPoints && p.obs == map[]
  }

  lemma FreeSlot(m: Map, f: Frame, i: nat)
    requires m.Valid() && IsRegistered(m, f) && i < |f.slots| && f.slots[i] == null
    ensures f.id in m.Abs().keypoints && m.Abs().keypoints[f.id] == f.keypoints
    ensures i < f.keypoints ==> Free(m.Abs(), f.id, i)
  {
    hide Consistent, IsCov;
  }

  lemma Unfiled(m: Map, f: Frame)
    requires m.Valid() && !IsRegistered(m, f)
    ensures f !in m.frameSet
  {
    hide Consistent, IsCov;
  }

  method Register(m: Map, p: MapPoint)
    requires m.Valid() && IsNew(m, p)
    modifies m`mapPoints, m`pointSet, m`mpCount, m`topology
    ensures m.Valid() && m.Abs() == Connected(old(m.Abs()), p, map[]) && m.pointSet == old(m.pointSet) + {p}
    ensures Consistent(old(m.Abs())) && Consistent(m.Abs())
    ensures RemovePoints(m.Abs(), {p.id}) == old(m.Abs())
  {
    hide Consistent, IsCov, Map.Filed, Connected, RemovePoints, Map.ObsOver;
    ConnectedNone(m.Abs(), p);
    m.ObsKeys();
    m.InsertMapPoint(p);
    m.ObsKeys();
  }

  method Bind(m: Map, f: Frame, i: nat, p: MapPoint, ghost v: View, ghost at: map<nat, nat>) returns (ok: bool)
    requires m.Valid() && m.Abs() == Connected(v, p, at) && Consistent(m.Abs())
    requires IsRegistered(m, f) && f.id in v.keypoints && v.keypoints[f.id] == f.keypoints
    requires f.id !in at && i < f.keypoints ==> Free(v, f.id, i)
    modifies m`covisibility, m`lastHit, m`topology, f`slots, m.pointSet`obs
    ensures m.Valid() && Consistent(m.Abs()) && (ok <==> f.id !in at && i < f.keypoints)
    ensures m.Abs() == Connected(v, p, if ok then at[f.id := i] else at)
    ensures ok ==> ClearSlot(m.Abs(), f.id, i) == (Connected(v, p, at), true)
  {
    hide Consistent, IsCov, Map.Filed, SetSlot, ClearSlot, Map.Observations, Map.SlotMap, Map.KeypointMap, Bound;
    if f.id !in at && i < f.keypoints {
      ConnectedMore(v, p, at, f.id, i);
    } else {
      ConnectedTwice(m.Abs(), p, f.id, i);
    }
    ok := m.SetObservation(f, i, p);
  }

  lemma RemovedKeys(v: View, id: nat)
    ensures RemovePoints(v, {id}).obs.Keys <= v.obs.Keys
  {
  }

  method Withdraw(m: Map, p: MapPoint, ghost v: View)
    requires m.Valid() && m.Abs() == Connected(v, p, map[]) && RemovePoints(m.Abs(), {p.id}) == v
    modifies m`covisibility, m`lastHit, m`mapPoints, m`pointSet, m`mpCount, m`topology, m.pointSet`obs, m.frameSet`slots
    ensures m.Valid() && m.Abs() == v && m.pointSet <= old(m.pointSet)
  {
    hide Consistent, IsCov, Map.Filed, RemovePoints, Map.Observations, Map.SlotMap, Map.KeypointMap, Bound;
    assert p.id in m.Abs().points;
    m.ObsKeys();
    RemovedKeys(m.Abs(), p.id);
    var _ := m.RemoveMapPoint(p.id);
    m.ObsKeys();
  }

  /** Undo the one binding that succeeded, if any, and drop the point. */
  method RollBack(m: Map, bound1: bool, f1: Frame, i: nat, bound2: bool, f2: Frame, j: nat, p: MapPoint, ghost v: View)
    requires m.Valid() && RemovePoints(Connected(v, p, map[]), {p.id}) == v && !(bound1 && bound2)
    requires !bound1 && !bound2 ==> m.Abs() == Connected(v, p, map[])
    requires bound1 ==> ClearSlot(m.Abs(), f1.id, i) == (Connected(v, p, map[]), true)
    requires bound2 ==> ClearSlot(m.Abs(), f2.id, j) == (Connected(v, p, map[]), true)
    modifies m`covisibility, m`lastHit, m`mapPoints, m`pointSet, m`mpCount, m`topology, m.pointSet`obs, m.frameSet`slots
    ensures m.Valid() && m.Abs() == v && m.pointSet <= old(m.pointSet)
  {
    hide Consistent, IsCov, Map.Filed, RemovePoints, ClearSlot, Map.Observations, Map.SlotMap, Map.KeypointMap,
         Connected;
    if bound1 {
      var _ := m.ClearObservation(f1.id, i);
    }
    if bound2 {
      var _ := m.ClearObservation(f2.id, j);
    }
    Withdraw(m, p, v);
  }

  /**
   * triangulateNewPoints for one accepted match: the point is bound on both frames or the map is as before.
   * It fails if a registered frame has no keypoint for the slot, or both features lie on one registered frame.
   */
  method ConnectPair(m: Map, f1: Frame, i: nat, f2: Frame, j: nat, p: MapPoint) returns (ok: bool)
    requires m.Valid() && IsNew(m, p)
    requires i < |f1.slots| && f1.slots[i] == null && j < |f2.slots| && f2.slots[j] == null
    modifies m, p`obs, f1`slots, f2`slots, m.pointSet`obs, m.frameSet`slots
    ensures m.Valid() && m.keyframes == old(m.keyframes) && m.frameSet == old(m.frameSet)
    ensures ok <==> && !(f1 == f2 && IsRegistered(m, f1))
                    && (IsRegistered(m, f1) ==> i < f1.keypoints) && (IsRegistered(m, f2) ==> j < f2.keypoints)
    ensures m.Abs() == if ok then Connected(old(m.Abs()), p, Seen(m, f1, i, f2, j)) else old(m.Abs())
    ensures m.pointSet <= old(m.pointSet) + {p}
    ensures f1.slots == if ok then Placing(old(f1.slots), i, j, p, f1 == f2) else old(f1.slots)
    ensures f1 != f2 ==> f2.slots == if ok then old(f2.slots)[j := p] else old(f2.slots)
  {
    hide Consistent, IsCov, Map.Filed, RemovePoints, ClearSlot, Map.Observations, Map.SlotMap, Map.KeypointMap,
         Connected, Free,
         Map.Abs, Map.ObsOver, Map.Valid;
    if IsRegistered(m, f1) { RegisteredSlots(m, f1); }
    if IsRegistered(m, f2) { RegisteredSlots(m, f2); }
    ok := ConnectSides(m, f1, i, f2, j, p);
    ConnectedSlots(old(m.Abs()), p, Seen(m, f1, i, f2, j));
    if IsRegistered(m, f1) { RegisteredSlots(m, f1); }
    if IsRegistered(m, f2) { RegisteredSlots(m, f2); }
  }

  /** The slots of the first frame once the point sits at i, and at j too if both features lie on this frame. */
  function Placing(s: Slots, i: nat, j: nat, p: MapPoint, both: bool): Slots
    requires i < |s| && (both ==> j < |s|)
  {
    if both then s[i := p][j := p] else s[i := p]
  }

  lemma RegisteredSlots(m: Map, f: Frame)
    requires m.Valid() && IsRegistered(m, f)
    ensures f.id in m.Abs().slots && m.Abs().slots[f.id] == f.slots
  {
    hide Consistent, IsCov;
  }

  lemma ConnectedSlots(v: View, p: MapPoint, at: map<nat, nat>)
    ensures forall k :: k in v.slots ==> k in Connected(v, p, at).slots
    ensures forall k :: k in v.slots ==>
      Connected(v, p, at).slots[k] == if k in at && at[k] < |v.slots[k]| then v.slots[k][at[k] := p] else v.slots[k]
  {
  }

  method ConnectSides(m: Map, f1: Frame, i: nat, f2: Frame, j: nat, p: MapPoint) returns (ok: bool)
    requires m.Valid() && IsNew(m, p)
    requires i < |f1.slots| && f1.slots[i] == null && j < |f2.slots| && f2.slots[j] == null
    modifies m, p`obs, f1`slots, f2`slots, m.pointSet`obs, m.frameSet`slots
    ensures m.Valid() && m.keyframes == old(m.keyframes) && m.frameSet == old(m.frameSet)
    ensures ok <==> && !(f1 == f2 && IsRegistered(m, f1))
                    && (IsRegistered(m, f1) ==> i < f1.keypoints) && (IsRegistered(m, f2) ==> j < f2.keypoints)
    ensures m.Abs() == if ok then Connected(old(m.Abs()), p, Seen(m, f1, i, f2, j)) else old(m.Abs())
    ensures m.pointSet <= old(m.pointSet) + {p}
    ensures !IsRegistered(m, f1) ==> f1.slots == if ok then Placing(old(f1.slots), i, j, p, f1 == f2) else old(f1.slots)
    ensures !IsRegistered(m, f2) && f1 != f2 ==> f2.slots == if ok then old(f2.slots)[j := p] else old(f2.slots)
  {
    hide Consistent, IsCov, Map.Filed, RemovePoints, ClearSlot, Map.Observations, Map.SlotMap, Map.KeypointMap,
         Connected, Free,
         Map.Abs, Map.ObsOver;
    var reg1, reg2 := IsRegistered(m, f1), IsRegistered(m, f2);
    ghost var v := m.Abs();
    if reg1 { FreeSlot(m, f1, i); } else { Unfiled(m, f1); }
    if reg2 { FreeSlot(m, f2, j); } else { Unfiled(m, f2); }
    Register(m, p);
    var ok1, ok2 := true, true;
    ghost var at: map<nat, nat> := map[];
    if reg1 {
      ok1 := Bind(m, f1, i, p, v, at);
      at := if ok1 then at[f1.id := i] else at;
    }
    ghost var before := at;
    if reg2 {
      ok2 := Bind(m, f2, j, p, v, at);
      at := if ok2 then at[f2.id := j] else at;
    }
    if ok1 && ok2 {
      if !reg1 {
        f1.slots := f1.slots[i := p];
      }
      if !reg2 {
        f2.slots := f2.slots[j := p];
      }
      ok := true;
    } else {
      RollBack(m, reg1 && ok1, f1, i, reg2 && ok2, f2, j, p, v);
      ok := false;
    }
  }

  /** createMapPointsFromStereo for one feature with depth. */
  method ConnectOne(m: Map, f: Frame, i: nat, p: MapPoint) returns (ok: bool)
    requires m.Valid() && IsNew(m, p) && i < |f.slots| && f.slots[i] == null
    modifies m, p`obs, f`slots, m.pointSet`obs, m.frameSet`slots
    ensures m.Valid() && m.keyframes == old(m.keyframes) && m.frameSet == old(m.frameSet)
    ensures ok <==> (IsRegistered(m, f) ==> i < f.keypoints)
    ensures m.Abs() == if !ok then old(m.Abs())
                       else Connected(old(m.Abs()), p, if IsRegistered(m, f) then map[f.id := i] else map[])
    ensures m.pointSet <= old(m.pointSet) + {p}
    ensures ok ==> f.slots == old(f.slots)[i := p]
    ensures !ok ==> f.slots == old(f.slots)
  {
    hide Consistent, IsCov, Map.Filed, RemovePoints, ClearSlot, Map.Observations, Map.KeypointMap, Free;
    ghost var v := m.Abs();
    if !IsRegistered(m, f) {
      Unfiled(m, f);
      Register(m, p);
      f.slots := f.slots[i := p];
      return true;
    }
    FreeSlot(m, f, i);
    m.FiledUnder(f.id);
    Register(m, p);
    ok := Bind(m, f, i, p, v, map[]);
    if !ok {
      Withdraw(m, p, v);
    }
    assert f.slots == m.Abs().slots[f.id];
  }

  // ---- many points ------------------------------------------------------------------------

  /** Nothing that was registered or bound has moved; every new point is seen by exactly the keyframes in frames. */
  ghost predicate Grew(v: View, w: View, frames: set<nat>) {
    && w.keypoints == v.keypoints && w.slots.Keys == v.slots.Keys
    && (forall id :: id in v.points ==> id in w.points && w.points[id] == v.points[id])
    && (forall p :: p in v.obs ==> p in w.obs && w.obs[p] == v.obs[p])
    && (forall p :: p in w.obs && p !in v.obs ==> w.obs[p].Keys == frames)
    && (forall k :: k in v.slots ==> SlotsGrew(v.slots[k], w.slots[k]) && (k !in frames ==> w.slots[k] == v.slots[k]))
  }

  ghost predicate SlotsGrew(s: Slots, t: Slots) {
    |t| == |s| && forall i :: 0 <= i < |s| && s[i] != null ==> t[i] == s[i]
  }

  lemma SlotsOnceMore(w: View, p: MapPoint, at: map<nat, nat>, k: nat)
    requires AllFree(w, at) && k in w.slots
    ensures SlotsGrew(w.slots[k], Bound(w.slots, p, at)[k]) && (k !in at ==> Bound(w.slots, p, at)[k] == w.slots[k])
  {
    if k in at {
      assert Free(w, k, at[k]);
    }
  }

  lemma {:induction false} GrewMore(v: View, w: View, frames: set<nat>, p: MapPoint, at: map<nat, nat>)
    requires Grew(v, w, frames) && AllFree(w, at) && at.Keys == frames && p !in w.obs && p.id !in w.points
    ensures Grew(v, Connected(w, p, at), frames)
  {
    hide AllFree, SlotsGrew;
    var u := Connected(w, p, at);
    forall k | k in v.slots
      ensures SlotsGrew(v.slots[k], u.slots[k]) && (k !in frames ==> u.slots[k] == v.slots[k])
    {
      SlotsOnceMore(w, p, at, k);
      SlotsGrewTransitive(v.slots[k], w.slots[k], u.slots[k]);
    }
  }

  lemma SlotsGrewTransitive(s: Slots, t: Slots, u: Slots)
    requires SlotsGrew(s, t) && SlotsGrew(t, u)
    ensures SlotsGrew(s, u)
  {
  }

  lemma {:induction false} GrewTransitive(u: View, v: View, w: View, frames: set<nat>)
    requires Grew(u, v, frames) && Grew(v, w, frames)
    ensures Grew(u, w, frames)
  {
    hide SlotsGrew;
    forall k | k in u.slots
      ensures SlotsGrew(u.slots[k], w.slots[k])
    {
      SlotsGrewTransitive(u.slots[k], v.slots[k], w.slots[k]);
    }
  }

  lemma GrewNothing(v: View, frames: set<nat>)
    ensures Grew(v, v, frames)
  {
  }

  /** A feature match and the point its triangulation gives, if the parallax suffices. */
  datatype Match = Match(query: int, train: int, point: Option<Vec3>)

  function SeenBy(m: Map, f1: Frame, f2: Frame): set<nat>
    reads m`keyframes
  {
    (if IsRegistered(m, f1) then {f1.id} else {}) + (if IsRegistered(m, f2) then {f2.id} else {})
  }

  predicate Usable(f1: Frame, f2: Frame, match_: Match)
    reads f1`slots, f2`slots
  {
    && 0 <= match_.query < |f1.slots| && 0 <= match_.train < |f2.slots|
    && match_.query < f1.keypoints && match_.train < f2.keypoints
    && f1.slots[match_.query] == null && f2.slots[match_.train] == null
  }

  lemma SeenIsFree(m: Map, f1: Frame, i: nat, f2: Frame, j: nat)
    requires m.Valid()
    requires i < |f1.slots| && i < f1.keypoints && f1.slots[i] == null
    requires j < |f2.slots| && j < f2.keypoints && f2.slots[j] == null
    ensures AllFree(m.Abs(), Seen(m, f1, i, f2, j)) && Seen(m, f1, i, f2, j).Keys == SeenBy(m, f1, f2)
  {
    hide Consistent, IsCov, Free;
    if IsRegistered(m, f1) {
      FreeSlot(m, f1, i);
    }
    if IsRegistered(m, f2) {
      FreeSlot(m, f2, j);
    }
  }

  lemma ConnectedPoints(v: View, p: MapPoint, at: map<nat, nat>)
    requires p.id !in v.points
    ensures Connected(v, p, at).points.Keys == v.points.Keys + {p.id}
    ensures |Connected(v, p, at).points| == |v.points| + 1
  {
  }

  lemma Counted(m: Map)
    requires m.Valid()
    ensures m.Abs().points == m.mapPoints && m.mpCount == |m.mapPoints| && Consistent(m.Abs())
    ensures forall p :: p in m.Abs().obs ==> p.id in m.mapPoints
  {
    hide IsCov;
  }

  /** The features of the two frames that have a keypoint and no point yet. */
  datatype Open = Open(first: set<nat>, second: set<nat>)

  function OpenSlots(s: Slots, keypoints: nat): set<nat> {
    set i | 0 <= i < |s| && i < keypoints && s[i] == null
  }

  function OpenIn(f: Frame): set<nat>
    reads f`slots
  {
    OpenSlots(f.slots, f.keypoints)
  }

  function OpenOf(f1: Frame, f2: Frame): Open
    reads f1`slots, f2`slots
  {
    Open(OpenIn(f1), OpenIn(f2))
  }

  /** Both features are open and the triangulated point lies before the first camera. */
  predicate Yields(o: Open, match_: Match, pose: SE3) {
    && 0 <= match_.query && match_.query as nat in o.first && 0 <= match_.train && match_.train as nat in o.second
    && match_.point.Some? && Act(pose, match_.point.value).z > 0.0
  }

  function Closed(o: Open, match_: Match, oneFrame: bool): Open
    requires match_.query >= 0 && match_.train >= 0
  {
    var q, t := match_.query as nat, match_.train as nat;
    if oneFrame then Open(o.first - {q, t}, o.second - {q, t}) else Open(o.first - {q}, o.second - {t})
  }

  /** The first n matches, taken in order while there is room: which of them yield a point, and what stays open. */
  function Accepted(o: Open, matches: seq<Match>, n: nat, pose: SE3, oneFrame: bool, room: int): (seq<nat>, Open)
    requires n <= |matches|
  {
    if n == 0 then ([], o)
    else
      var (made, left) := Accepted(o, matches, n - 1, pose, oneFrame, room);
      if |made| < room && Yields(left, matches[n - 1], pose)
      then (made + [n - 1], Closed(left, matches[n - 1], oneFrame))
      else (made, left)
  }

  /** p sits at both features of the match. */
  predicate Sits(s1: Slots, s2: Slots, match_: Match, p: MapPoint) {
    0 <= match_.query < |s1| && 0 <= match_.train < |s2| && s1[match_.query] == p == s2[match_.train]
  }

  method TryMatch(m: Map, f1: Frame, f2: Frame, match_: Match, id: nat) returns (ok: bool, ghost p: MapPoint?)
    requires m.Valid() && id !in m.mapPoints && Usable(f1, f2, match_)
    modifies m, f1`slots, f2`slots, m.pointSet`obs, m.frameSet`slots
    ensures m.Valid() && m.keyframes == old(m.keyframes) && m.frameSet == old(m.frameSet)
    ensures fresh(m.pointSet - old(m.pointSet))
    ensures Grew(old(m.Abs()), m.Abs(), SeenBy(m, f1, f2))
    ensures m.mapPoints.Keys == old(m.mapPoints.Keys) + if ok then {id} else {}
    ensures m.mpCount == old(m.mpCount) + if ok then 1 else 0
    ensures ok <==> match_.point.Some? && Act(f1.pose, match_.point.value).z > 0.0 && !(f1 == f2 && IsRegistered(m, f1))
    ensures ok ==> p != null && Some(p.pos) == match_.point
    ensures f1.slots == if ok then Placing(old(f1.slots), match_.query, match_.train, p, f1 == f2) else old(f1.slots)
    ensures f1 != f2 ==> f2.slots == if ok then old(f2.slots)[match_.train := p] else old(f2.slots)
  {
    hide Consistent, IsCov, Act, Grew, Connected, Map.Valid, Map.Abs, Seen, SeenBy, AllFree, Placing, Map.Filed;
    GrewNothing(m.Abs(), SeenBy(m, f1, f2));
    if match_.point.None? || Act(f1.pose, match_.point.value).z <= 0.0 {
      return false, null;
    }
    var q := new MapPoint(id, match_.point.value, 0);
    p := q;
    ghost var v, at := m.Abs(), Seen(m, f1, match_.query, f2, match_.train);
    Counted(m);
    SeenIsFree(m, f1, match_.query, f2, match_.train);
    ok := ConnectPair(m, f1, match_.query, f2, match_.train, q);
    Counted(m);
    if ok {
      ConnectedPoints(v, q, at);
      GrewMore(v, v, at.Keys, q, at);
    }
  }

  /** What placing a point leaves behind on the two frames. */
  lemma PlacedOn(s1: Slots, s2: Slots, n1: Slots, n2: Slots, k1: nat, k2: nat, match_: Match, p: MapPoint,
                 oneFrame: bool)
    requires 0 <= match_.query < |s1| && 0 <= match_.train < |s2| && s1[match_.query] == null
    requires s2[match_.train] == null
    requires oneFrame ==> s1 == s2 && n1 == n2 && k1 == k2
    requires n1 == Placing(s1, match_.query, match_.train, p, oneFrame) && (!oneFrame ==> n2 == s2[match_.train := p])
    ensures Sits(n1, n2, match_, p) && SlotsGrew(s1, n1) && SlotsGrew(s2, n2)
    ensures Open(OpenSlots(n1, k1), OpenSlots(n2, k2))
         == Closed(Open(OpenSlots(s1, k1), OpenSlots(s2, k2)), match_, oneFrame)
  {
    Punched(s1, match_.query, p, k1);
    Punched(s2, match_.train, p, k2);
    if oneFrame {
      Punched(s1[match_.query := p], match_.train, p, k1);
    }
  }

  lemma Punched(s: Slots, i: nat, p: MapPoint, keypoints: nat)
    requires i < |s|
    ensures OpenSlots(s[i := p], keypoints) == OpenSlots(s, keypoints) - {i}
  {
  }

  lemma SitsStill(s1: Slots, s2: Slots, n1: Slots, n2: Slots, match_: Match, p: MapPoint)
    requires Sits(s1, s2, match_, p) && SlotsGrew(s1, n1) && SlotsGrew(s2, n2)
    ensures Sits(n1, n2, match_, p)
  {
  }

  ghost predicate IdsBelow(m: Map, next: nat)
    reads m`mapPoints
  {
    forall id :: id in m.mapPoints ==> id < next
  }

  /** The accepted matches have their points: at both features, where the triangulation says. */
  ghost predicate AllSit(s1: Slots, s2: Slots, matches: seq<Match>, accepted: seq<nat>, points: seq<MapPoint>)
    reads points`pos
  {
    && |points| == |accepted|
    && forall c :: 0 <= c < |accepted| ==> accepted[c] < |matches| && Sits(s1, s2, matches[accepted[c]], points[c])
                                           && matches[accepted[c]].point == Some(points[c].pos)
  }

  /** New points for the matches of two frames, up to the point budget: exactly the accepted matches yield one. */
  method TriangulateNewPoints(m: Map, f1: Frame, f2: Frame, matches: seq<Match>, limit: nat, nextId: nat)
    returns (made: nat, next: nat, ghost accepted: seq<nat>, ghost points: seq<MapPoint>)
    requires m.Valid() && IdsBelow(m, nextId)
    modifies m, f1`slots, f2`slots, m.pointSet`obs, m.frameSet`slots
    ensures m.Valid() && IdsBelow(m, next) && Grew(old(m.Abs()), m.Abs(), SeenBy(m, f1, f2))
    ensures made == |accepted| && m.mpCount == old(m.mpCount) + made && (made > 0 ==> m.mpCount <= limit)
    ensures var room := if f1 == f2 && IsRegistered(m, f1) then 0 else limit - old(m.mpCount);
            (accepted, OpenOf(f1, f2)) == Accepted(old(OpenOf(f1, f2)), matches, |matches|, f1.pose, f1 == f2, room)
    ensures AllSit(f1.slots, f2.slots, matches, accepted, points)
  {
    hide Consistent, IsCov, Act, Grew, Map.Valid, Map.Abs, SeenBy, OpenSlots, Accepted, Sits, SlotsGrew, Placing,
         AllSit, Closed, Usable, Yields, IsRegistered, Map.Filed;
    made, next, accepted, points := 0, nextId, [], [];
    ghost var open, room := OpenOf(f1, f2), if f1 == f2 && IsRegistered(m, f1) then 0 else limit - m.mpCount;
    GrewNothing(m.Abs(), SeenBy(m, f1, f2));
    NoneAccepted(open, matches, f1.pose, f1 == f2, room);
    NoneSit(f1.slots, f2.slots, matches);
    var n := 0;
    while n < |matches| && m.mpCount < limit
      invariant 0 <= n <= |matches| && made == |accepted|
      invariant m.Valid() && IdsBelow(m, next) && Grew(old(m.Abs()), m.Abs(), SeenBy(m, f1, f2))
      invariant m.mpCount == old(m.mpCount) + made && (made > 0 ==> m.mpCount <= limit)
      invariant (accepted, OpenOf(f1, f2)) == Accepted(open, matches, n, f1.pose, f1 == f2, room)
      invariant AllSit(f1.slots, f2.slots, matches, accepted, points)
      invariant m.keyframes == old(m.keyframes) && m.frameSet == old(m.frameSet)
      invariant fresh(m.pointSet - old(m.pointSet))
    {
      AcceptedMore(open, matches, n, f1.pose, f1 == f2, room);
      YieldsIsUsable(f1, f2, matches[n]);
      if Usable(f1, f2, matches[n]) {
        ghost var before, s1, s2 := m.Abs(), f1.slots, f2.slots;
        UsableMeans(f1, f2, matches[n]);
        var ok;
        ghost var p;
        ok, p := TryMatch(m, f1, f2, matches[n], next);
        GrewTransitive(old(m.Abs()), before, m.Abs(), SeenBy(m, f1, f2));
        next := next + 1;
        if ok {
          PlacedOn(s1, s2, f1.slots, f2.slots, f1.keypoints, f2.keypoints, matches[n], p, f1 == f2);
          AllSitMore(s1, s2, f1.slots, f2.slots, matches, accepted, points, n, p);
          made, accepted, points := made + 1, accepted + [n], points + [p];
        }
      }
      n := n + 1;
    }
    NoRoom(open, matches, n, f1.pose, f1 == f2, room);
  }

  lemma NoneAccepted(o: Open, matches: seq<Match>, pose: SE3, oneFrame: bool, room: int)
    ensures Accepted(o, matches, 0, pose, oneFrame, room) == ([], o)
  {
  }

  lemma AcceptedMore(o: Open, matches: seq<Match>, n: nat, pose: SE3, oneFrame: bool, room: int)
    requires n < |matches|
    ensures var (made, left) := Accepted(o, matches, n, pose, oneFrame, room);
            Accepted(o, matches, n + 1, pose, oneFrame, room) ==
              if |made| < room && Yields(left, matches[n], pose) then (made + [n], Closed(left, matches[n], oneFrame))
              else (made, left)
  {
  }

  /** Without room nothing more is accepted. */
  lemma {:induction false} NoRoom(o: Open, matches: seq<Match>, n: nat, pose: SE3, oneFrame: bool, room: int)
    requires n <= |matches| && (n == |matches| || |Accepted(o, matches, n, pose, oneFrame, room).0| >= room)
    ensures Accepted(o, matches, |matches|, pose, oneFrame, room) == Accepted(o, matches, n, pose, oneFrame, room)
    decreases |matches| - n
  {
    hide Accepted, Yields;
    if n < |matches| {
      AcceptedMore(o, matches, n, pose, oneFrame, room);
      NoRoom(o, matches, n + 1, pose, oneFrame, room);
    }
  }

  lemma YieldsIsUsable(f1: Frame, f2: Frame, match_: Match)
    ensures Yields(OpenOf(f1, f2), match_, f1.pose)
       <==> Usable(f1, f2, match_) && match_.point.Some? && Act(f1.pose, match_.point.value).z > 0.0
  {
    hide Act;
  }

  lemma UsableMeans(f1: Frame, f2: Frame, match_: Match)
    requires Usable(f1, f2, match_)
    ensures 0 <= match_.query < |f1.slots| && 0 <= match_.train < |f2.slots|
    ensures f1.slots[match_.query] == null && f2.slots[match_.train] == null
  {
  }

  lemma NoneSit(s1: Slots, s2: Slots, matches: seq<Match>)
    ensures AllSit(s1, s2, matches, [], [])
  {
  }

  lemma AllSitMore(s1: Slots, s2: Slots, n1: Slots, n2: Slots, matches: seq<Match>, accepted: seq<nat>,
                   points: seq<MapPoint>,
                   n: nat, p: MapPoint)
    requires AllSit(s1, s2, matches, accepted, points) && SlotsGrew(s1, n1) && SlotsGrew(s2, n2)
    requires n < |matches| && Sits(n1, n2, matches[n], p) && matches[n].point == Some(p.pos)
    ensures AllSit(n1, n2, matches, accepted + [n], points + [p])
  {
    hide Sits, SlotsGrew;
    forall c | 0 <= c < |accepted|
      ensures Sits(n1, n2, matches[accepted[c]], points[c])
    {
      SitsStill(s1, s2, n1, n2, matches[accepted[c]], points[c]);
    }
  }

  // ---- stereo ---------------------------------------------------------------------------------

  /** The point a stereo feature is placed at is seen where the depth says it is. */
  lemma StereoPointIsSeenThere(pose: SE3, c: Vec3)
    ensures Act(pose, Act(Inverse(pose), c)) == c
  {
    hide Act, Inverse;
    ActInverse(pose, c);
  }

  lemma SeenAlone(m: Map, f: Frame, i: nat)
    ensures Seen(m, f, i, f, i) == if IsRegistered(m, f) then map[f.id := i] else map[]
  {
  }

  method PlacePoint(m: Map, f: Frame, i: nat, c: Vec3, id: nat) returns (p: MapPoint)
    requires m.Valid() && id !in m.mapPoints && i < |f.slots| && i < f.keypoints && f.slots[i] == null
    modifies m, f`slots, m.pointSet`obs, m.frameSet`slots
    ensures m.Valid() && m.keyframes == old(m.keyframes) && m.frameSet == old(m.frameSet)
    ensures fresh(m.pointSet - old(m.pointSet)) && fresh(p)
    ensures Grew(old(m.Abs()), m.Abs(), SeenBy(m, f, f))
    ensures m.mapPoints.Keys == old(m.mapPoints.Keys) + {id} && m.mpCount == old(m.mpCount) + 1
    ensures f.slots == old(f.slots)[i := p] && Act(f.pose, p.pos) == c
  {
    hide Consistent, IsCov, Act, Grew, Connected, Map.Valid, Map.Abs, AllFree, Inverse, Seen, SeenBy, IsRegistered,
         Map.Filed;
    p := new MapPoint(id, Act(Inverse(f.pose), c), 0);
    StereoPointIsSeenThere(f.pose, c);
    ghost var v := m.Abs();
    ghost var at := if IsRegistered(m, f) then map[f.id := i] else map[];
    Counted(m);
    SeenIsFree(m, f, i, f, i);
    SeenAlone(m, f, i);
    GrewNothing(v, at.Keys);
    var ok := ConnectOne(m, f, i, p);
    Counted(m);
    ConnectedPoints(v, p, at);
    GrewMore(v, v, at.Keys, p, at);
  }

  /** A point for every free feature with depth, up to the point budget; each is seen where its depth says. */
  method CreateMapPointsFromStereo(m: Map, f: Frame, camera: seq<Vec3>, limit: nat,
                                   nextId: nat) returns (made: nat, next: nat)
    requires m.Valid() && IdsBelow(m, nextId) && f.keypoints <= |f.slots|
    modifies m, f`slots, m.pointSet`obs, m.frameSet`slots
    ensures m.Valid() && IdsBelow(m, next) && Grew(old(m.Abs()), m.Abs(), SeenBy(m, f, f))
    ensures m.mpCount == old(m.mpCount) + made && (made > 0 ==> m.mpCount <= limit)
    ensures |f.slots| == |old(f.slots)|
    ensures forall i: nat :: i < |f.slots| && f.slots[i] != old(f.slots)[i] ==>
      f.slots[i] != null && Placed(old(f.slots)[i], f.slots[i], f.pose, camera, i)
    ensures m.mpCount >= limit || forall i: nat :: i < f.keypoints && i < |camera| && camera[i].z > 0.0 ==>
      f.slots[i] != null
  {
    hide Consistent, IsCov, Act, Grew, Map.Valid, Map.Abs, SeenBy;
    made, next := 0, nextId;
    GrewNothing(m.Abs(), SeenBy(m, f, f));
    for i := 0 to f.keypoints
      invariant m.Valid() && IdsBelow(m, next) && Grew(old(m.Abs()), m.Abs(), SeenBy(m, f, f))
      invariant m.mpCount == old(m.mpCount) + made && (made > 0 ==> m.mpCount <= limit)
      invariant m.keyframes == old(m.keyframes) && m.frameSet == old(m.frameSet)
      invariant fresh(m.pointSet - old(m.pointSet)) && |f.slots| == |old(f.slots)|
      invariant forall j: nat :: j < |f.slots| && f.slots[j] != old(f.slots)[j] ==>
        f.slots[j] != null && Placed(old(f.slots)[j], f.slots[j], f.pose, camera, j)
      invariant forall j: nat :: j < i && j < |camera| && camera[j].z > 0.0 ==> f.slots[j] != null
    {
      if m.mpCount >= limit {
        break;
      }
      if f.slots[i] == null && i < |camera| && camera[i].z > 0.0 {
        ghost var before := m.Abs();
        var p := PlacePoint(m, f, i, camera[i], next);
        GrewTransitive(old(m.Abs()), before, m.Abs(), SeenBy(m, f, f));
        next, made := next + 1, made + 1;
      }
    }
  }

  /** The slot was free, feature i has depth, and the slot's point has exactly these camera coordinates. */
  predicate Placed(was: MapPoint?, now: MapPoint, pose: SE3, camera: seq<Vec3>, i: nat)
    reads now`pos
  {
    was == null && i < |camera| && camera[i].z > 0.0 && Act(pose, now.pos) == camera[i]
  }
}
