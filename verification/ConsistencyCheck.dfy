/** verifyObservationConsistency: what the map's own check establishes, and the one thing it cannot see. */
module ConsistencyCheck {
  import opened RigidMotion
  import opened MapEntities
  import opened Covisibility
  import opened ObservationModel
  import opened SlamMap

  // ---- what the check reads ----------------------------------------------------------

  ghost function TableObs(m: Map): ObsMap
    reads m`mapPoints, m.mapPoints.Values`obs
  {
    map p | p in m.mapPoints.Values :: p.obs
  }

  /** Observation k of p names a slot that holds p itself. */
  predicate ObservationPasses(m: Map, p: MapPoint, k: nat)
    requires k in p.obs
    reads m`keyframes, m.keyframes.Values`slots, p`obs
  {
    && k in m.keyframes && p.obs[k] < m.keyframes[k].keypoints && p.obs[k] < |m.keyframes[k].slots|
    && m.keyframes[k].slots[p.obs[k]] == p
  }

  /** Slot i of keyframe k is empty, or its point carries (k, i) and its id, not the object, is registered. */
  predicate SlotPasses(m: Map, k: nat, i: nat)
    requires k in m.keyframes && i < |m.keyframes[k].slots|
    reads *
  {
    var p := m.keyframes[k].slots[i];
    p != null ==> i < m.keyframes[k].keypoints && p.id in m.mapPoints && p.HasObservation(k, i)
  }

  ghost predicate PointPasses(m: Map, id: nat)
    requires id in m.mapPoints
    reads *
  {
    m.mapPoints[id].id == id && forall k :: k in m.mapPoints[id].obs ==> ObservationPasses(m, m.mapPoints[id], k)
  }

  ghost predicate FramePasses(m: Map, k: nat)
    requires k in m.keyframes
    reads *
  {
    m.keyframes[k].id == k && forall i :: 0 <= i < |m.keyframes[k].slots| ==> SlotPasses(m, k, i)
  }

  ghost predicate Passes(m: Map)
    reads *
  {
    && (forall id :: id in m.mapPoints ==> PointPasses(m, id))
    && (forall k :: k in m.keyframes ==> FramePasses(m, k))
    && IsCov(TableObs(m), m.covisibility)
  }

  // ---- the check -----------------------------------------------------------------------

  /** Count k with every member of s. */
  method CountWith(cov: CovTable, k: nat, s: set<nat>) returns (c: CovTable)
    requires Ordered(cov) && k !in s
    ensures Ordered(c) && Bumped(cov, c, k, s)
  {
    c := cov;
    var todo := s;
    ghost var done: set<nat> := {};
    while todo != {}
      invariant done !! todo && done + todo == s && Ordered(c) && Bumped(cov, c, k, done)
      decreases todo
    {
      var x :| x in todo;
      BumpOneMore(cov, c, k, done, x);
      c := Incremented(c, MinMax(x, k));
      todo := todo - {x};
      done := done + {x};
    }
    assert done == s;
  }

  /** Count every pair of keyframes that observe p. */
  method CountPairs(p: MapPoint, cov: CovTable, ghost obs: ObsMap) returns (c: CovTable)
    requires p !in obs && IsCov(obs, cov)
    ensures IsCov(obs[p := p.obs], c)
  {
    hide Bumped, Shared;
    c := cov;
    var todo := p.obs.Keys;
    var seen: map<nat, nat> := map[];
    CovWithBarePoint(obs, p, cov);
    while todo != {}
      invariant seen.Keys !! todo && seen.Keys + todo == p.obs.Keys
      invariant forall k :: k in seen ==> seen[k] == p.obs[k]
      invariant IsCov(obs[p := seen], c)
      decreases todo
    {
      var k :| k in todo;
      var next := CountWith(c, k, seen.Keys);
      CovAfterAdd(obs[p := seen], p, k, p.obs[k], c, next);
      assert With(obs[p := seen], p, k, p.obs[k]) == obs[p := seen[k := p.obs[k]]];
      c := next;
      seen := seen[k := p.obs[k]];
      todo := todo - {k};
    }
    assert seen == p.obs;
  }

  method CheckPoint(m: Map, id: nat) returns (ok: bool)
    requires id in m.mapPoints
    ensures ok <==> PointPasses(m, id)
  {
    var p := m.mapPoints[id];
    if p.id != id {
      return false;
    }
    var todo := p.obs.Keys;
    while todo != {}
      invariant todo <= p.obs.Keys
      invariant forall k :: k in p.obs && k !in todo ==> ObservationPasses(m, p, k)
      decreases todo
    {
      var k :| k in todo;
      if !ObservationPasses(m, p, k) {
        return false;
      }
      todo := todo - {k};
    }
    ok := true;
  }

  method CheckFrame(m: Map, k: nat) returns (ok: bool)
    requires k in m.keyframes
    ensures ok <==> FramePasses(m, k)
  {
    if m.keyframes[k].id != k {
      return false;
    }
    for i := 0 to |m.keyframes[k].slots|
      invariant forall j :: 0 <= j < i ==> SlotPasses(m, k, j)
    {
      if !SlotPasses(m, k, i) {
        return false;
      }
    }
    ok := true;
  }

  ghost function ObsOf(m: Map, ids: set<nat>): ObsMap
    reads m`mapPoints, m.mapPoints.Values`obs
  {
    map p | p in m.mapPoints.Values && exists id :: id in ids && id in m.mapPoints && m.mapPoints[id] == p :: p.obs
  }

  /** One more point is counted; it is new because every table entry so far has the id it is filed under. */
  lemma ObsOfMore(m: Map, ids: set<nat>, id: nat)
    requires ids + {id} <= m.mapPoints.Keys && id !in ids && forall x :: x in ids + {id} ==> m.mapPoints[x].id == x
    ensures m.mapPoints[id] !in ObsOf(m, ids)
    ensures ObsOf(m, ids + {id}) == ObsOf(m, ids)[m.mapPoints[id] := m.mapPoints[id].obs]
  {
  }

  lemma ObsOfEnds(m: Map)
    ensures ObsOf(m, {}) == map[] && ObsOf(m, m.mapPoints.Keys) == TableObs(m)
  {
  }

  lemma NoObservations()
    ensures IsCov(map[], map[])
  {
    forall a: nat, b: nat
      ensures Shared(map[], a, b) == {}
    {
    }
  }

  method VerifyObservationConsistency(m: Map) returns (ok: bool)
    ensures ok <==> Passes(m)
  {
    hide ObsOf, IsCov, FramePasses, TableObs, ObservationPasses;
    var expected: CovTable := map[];
    var todo := m.mapPoints.Keys;
    ghost var done: set<nat> := {};
    ObsOfEnds(m);
    NoObservations();
    while todo != {}
      invariant done !! todo && done + todo == m.mapPoints.Keys
      invariant forall id :: id in done ==> id in m.mapPoints && PointPasses(m, id)
      invariant IsCov(ObsOf(m, done), expected)
      decreases todo
    {
      var id :| id in todo;
      var passes := CheckPoint(m, id);
      if !passes {
        return false;
      }
      ObsOfMore(m, done, id);
      expected := CountPairs(m.mapPoints[id], expected, ObsOf(m, done));
      todo := todo - {id};
      done := done + {id};
    }
    assert done == m.mapPoints.Keys;
    var rest := m.keyframes.Keys;
    while rest != {}
      invariant rest <= m.keyframes.Keys
      invariant forall k :: k in m.keyframes && k !in rest ==> FramePasses(m, k)
      decreases rest
    {
      var k :| k in rest;
      var passes := CheckFrame(m, k);
      if !passes {
        return false;
      }
      rest := rest - {k};
    }
    ok := expected == m.covisibility;
    if IsCov(TableObs(m), m.covisibility) {
      CovIsUnique(TableObs(m), expected, m.covisibility);
    }
  }

  // ---- what a pass means -------------------------------------------------------------------

  /** Slots hold the registered object whenever they hold its id. */
  ghost predicate NoImpostor(m: Map)
    reads *
  {
    forall k, i :: k in m.keyframes && 0 <= i < |m.keyframes[k].slots| ==> NotImpostor(m, m.keyframes[k].slots[i])
  }

  predicate NotImpostor(m: Map, p: MapPoint?)
    reads m`mapPoints
  {
    p != null && p.id in m.mapPoints ==> m.mapPoints[p.id] == p
  }

  lemma TableIsObservations(m: Map)
    requires m.Filed()
    ensures TableObs(m) == m.Observations()
  {
  }

  lemma {:induction false} PassingIsConsistent(m: Map)
    requires m.Filed() && Passes(m) && NoImpostor(m)
    ensures Consistent(m.Abs())
  {
    hide IsCov;
    var v := m.Abs();
    forall p, k | p in v.obs && k in v.obs[p]
      ensures k in v.slots && v.obs[p][k] < |v.slots[k]| && k in v.keypoints && v.obs[p][k] < v.keypoints[k]
      ensures v.slots[k][v.obs[p][k]] == p
    {
      assert PointPasses(m, p.id) && ObservationPasses(m, p, k);
    }
    forall k | k in v.slots
      ensures FrameFormal(v, k)
    {
      assert FramePasses(m, k);
      forall i | 0 <= i < |v.slots[k]|
        ensures Formal(v, k, i)
      {
        assert SlotPasses(m, k, i) && NotImpostor(m, m.keyframes[k].slots[i]);
      }
    }
  }

  lemma {:induction false} ConsistentPasses(m: Map)
    requires m.Filed() && Consistent(m.Abs()) && IsCov(m.Observations(), m.covisibility)
    ensures Passes(m) && NoImpostor(m)
  {
    hide IsCov;
    var v := m.Abs();
    TableIsObservations(m);
    forall id | id in m.mapPoints
      ensures PointPasses(m, id)
    {
      var p := m.mapPoints[id];
      assert p in v.obs && v.obs[p] == p.obs;
    }
    forall k, i | k in m.keyframes && 0 <= i < |m.keyframes[k].slots|
      ensures SlotPasses(m, k, i) && NotImpostor(m, m.keyframes[k].slots[i])
    {
      assert v.slots[k] == m.keyframes[k].slots;
      assert FrameFormal(v, k) && Formal(v, k, i);
      var p := v.slots[k][i];
      if p != null {
        assert p in v.obs && v.obs[p] == p.obs;
      }
    }
  }

  /** The check passes and no slot holds an impostor exactly when the full invariant holds. */
  lemma {:induction false} CheckIsExactUpToIdentity(m: Map)
    requires m.Filed()
    ensures Passes(m) && NoImpostor(m) <==> m.Valid()
  {
    TableIsObservations(m);
    if m.Valid() {
      ConsistentPasses(m);
    } else if Passes(m) && NoImpostor(m) {
      PassingIsConsistent(m);
    }
  }

  /** One keyframe with one slot, one point that nobody observes. */
  ghost predicate Small(m: Map, frame: Frame)
    reads m, m.pointSet`obs
  {
    && m.Filed() && IsCov(m.Observations(), m.covisibility)
    && m.keyframes == map[0 := frame] && frame.id == 0 && frame.keypoints == 1
    && m.mapPoints.Keys == {0} && m.mapPoints[0] in m.pointSet && m.mapPoints[0].obs == map[]
  }

  method MakeSmall(pose: SE3) returns (m: Map, frame: Frame)
    ensures Small(m, frame) && fresh(m) && fresh(frame)
  {
    hide IsCov, Consistent, InsertPoint, Map.Filed, Map.Observations, ConsistentExcept;
    m, frame := MakeFrame(pose);
    var p := new MapPoint(0, ORIGIN, 0);
    InsertedPoints(m.Abs(), p);
    m.InsertMapPoint(p);
    m.FiledPoint(0);
  }

  method MakeFrame(pose: SE3) returns (m: Map, frame: Frame)
    ensures m.Valid() && fresh(m) && fresh(frame) && m.keyframes == map[0 := frame] && frame.id == 0
    ensures frame.keypoints == 1
    ensures m.mapPoints == map[] && m.pointSet == {}
  {
    hide IsCov, Consistent, FrameRepaired, InsertPoint;
    m := new Map();
    frame := new Frame(0, 1, [null], pose, 0, 0);
    m.InsertKeyFrame(frame);
  }

  lemma InsertedPoints(v: View, p: MapPoint)
    ensures InsertPoint(v, p).points == v.points[p.id := p]
  {
  }

  lemma {:induction false} OverwrittenPasses(m: Map, frame: Frame, q: MapPoint)
    requires Small(m, frame) && frame.slots == [q]
    requires q.id == 0 && q.HasObservation(0, 0) && q != m.mapPoints[0]
    ensures Passes(m) && !m.Valid()
  {
    hide IsCov;
    TableIsObservations(m);
    assert FramePasses(m, 0);
    assert PointPasses(m, 0);
    assert !NotImpostor(m, m.keyframes[0].slots[0]);
    CheckIsExactUpToIdentity(m);
  }

  /** A map that passes although a slot, overwritten directly, holds a second object with a registered id. */
  method Impostor(pose: SE3) returns (m: Map)
    ensures m.Filed() && Passes(m) && !m.Valid()
  {
    hide IsCov, Consistent, Passes;
    var frame;
    m, frame := MakeSmall(pose);
    var q := new MapPoint(0, ORIGIN, 0);
    var _ := q.AddObservation(0, 0);
    frame.slots := [q];
    OverwrittenPasses(m, frame, q);
  }
}
