/** Collecting the observations of a local window from the map, and the snapshot built from them. */
module WindowSnapshot {
  import opened MapEntities
  import opened ObservationModel
  import opened Covisibility
  import opened SlamMap
  import opened LocalWindow

  /** Slot i of keyframe k enters the snapshot: its point is observed often enough and is formal on this very slot. */
  predicate Collected(s: Slots, obs: ObsMap, k: nat, required: nat, i: nat)
    requires i < |s|
  {
    var p := s[i];
    p != null && p in obs && |obs[p]| >= required && k in obs[p] && obs[p][k] == i
  }

  function FrameObs(s: Slots, obs: ObsMap, k: nat, required: nat, n: nat): seq<Obs>
    requires n <= |s|
  {
    if n == 0 then [] else
      var before := FrameObs(s, obs, k, required, n - 1);
      if Collected(s, obs, k, required, n - 1) then
        var p: MapPoint := s[n - 1];
        before + [Obs(k, n - 1, p.id)]
      else before
  }

  function WindowObs(slots: map<nat, Slots>, obs: ObsMap, ids: seq<nat>, required: nat): seq<Obs>
    requires forall k :: k in ids ==> k in slots
  {
    if ids == [] then []
    else
      var k := ids[|ids| - 1];
      WindowObs(slots, obs, ids[..|ids| - 1], required) + FrameObs(slots[k], obs, k, required, |slots[k]|)
  }

  /** The ids of the window's frames that are still the registered objects, in order. */
  function LiveIds(keyframes: map<nat, Frame>, window: seq<Frame>): seq<nat> {
    if window == [] then []
    else
      var f := window[|window| - 1];
      LiveIds(keyframes, window[..|window| - 1]) + if f.id in keyframes && keyframes[f.id] == f then [f.id] else []
  }

  lemma {:induction false} LiveIdsFacts(keyframes: map<nat, Frame>, window: seq<Frame>)
    ensures forall k :: k in LiveIds(keyframes, window) <==>
      exists j :: 0 <= j < |window| && window[j].id == k && k in keyframes && keyframes[k] == window[j]
    ensures (forall a, b :: 0 <= a < b < |window| ==> window[a].id != window[b].id) ==>
      DistinctIds(LiveIds(keyframes, window))
  {
    if window != [] {
      LiveIdsFacts(keyframes, window[..|window| - 1]);
    }
  }

  method CollectFrame(m: Map, f: Frame, required: nat, before: seq<Obs>) returns (obs: seq<Obs>)
    requires m.Valid() && m.Has(f)
    ensures obs == before + FrameObs(f.slots, m.Observations(), f.id, required, |f.slots|)
  {
    hide Consistent, IsCov, Map.Filed;
    obs := before;
    for i := 0 to |f.slots|
      invariant obs == before + FrameObs(f.slots, m.Observations(), f.id, required, i)
    {
      var p := f.slots[i];
      if p != null {
        SlotPointIsRegistered(m, f, i, p);
        if |p.obs| >= required && p.HasObservation(f.id, i) {
          obs := obs + [Obs(f.id, i, p.id)];
        }
      }
    }
  }

  lemma SlotPointIsRegistered(m: Map, f: Frame, i: nat, p: MapPoint)
    requires m.Valid() && m.Has(f) && i < |f.slots| && f.slots[i] == p
    ensures p in m.Observations() && m.Observations()[p] == p.obs
  {
    hide IsCov, Backed, Formal;
    FrameFacts(m.Abs(), f.id);
    SlotFacts(m.Abs(), f.id, i, p);
  }

  method Collect(m: Map, window: seq<Frame>, required: nat) returns (ids: seq<nat>, obs: seq<Obs>)
    requires m.Valid()
    ensures ids == LiveIds(m.keyframes, window) && (forall k :: k in ids ==> k in m.SlotMap())
    ensures obs == WindowObs(m.SlotMap(), m.Observations(), ids, required)
  {
    hide Consistent, IsCov, FrameObs, Map.Valid, LiveIds, WindowObs, Map.Filed, Map.Has;
    ids, obs := [], [];
    NoWindow(m.keyframes, m.SlotMap(), m.Observations(), required);
    assert window[..0] == [];
    for j := 0 to |window|
      invariant ids == LiveIds(m.keyframes, window[..j]) && (forall k :: k in ids ==> k in m.SlotMap())
      invariant obs == WindowObs(m.SlotMap(), m.Observations(), ids, required)
    {
      var f := window[j];
      LiveOneMore(m.keyframes, window, j);
      if f.id in m.keyframes && m.keyframes[f.id] == f {
        LiveHas(m, f);
        obs := CollectFrame(m, f, required, obs);
        WindowOneMore(m.SlotMap(), m.Observations(), ids, f.id, required);
        ids := ids + [f.id];
      }
    }
    assert window[..|window|] == window;
  }

  lemma NoWindow(keyframes: map<nat, Frame>, slots: map<nat, Slots>, obs: ObsMap, required: nat)
    ensures LiveIds(keyframes, []) == [] && WindowObs(slots, obs, [], required) == []
  {
  }

  lemma LiveOneMore(keyframes: map<nat, Frame>, window: seq<Frame>, j: nat)
    requires j < |window|
    ensures var f, before := window[j], LiveIds(keyframes, window[..j]);
            LiveIds(keyframes, window[..j + 1])
            == before + if f.id in keyframes && keyframes[f.id] == f then [f.id] else []
  {
    assert window[..j + 1][..j] == window[..j];
  }

  lemma WindowOneMore(slots: map<nat, Slots>, obs: ObsMap, ids: seq<nat>, k: nat, required: nat)
    requires k in slots && forall x :: x in ids ==> x in slots
    ensures (forall x :: x in ids + [k] ==> x in slots)
    ensures WindowObs(slots, obs, ids + [k], required)
         == WindowObs(slots, obs, ids, required) + FrameObs(slots[k], obs, k, required, |slots[k]|)
  {
    assert (ids + [k])[..|ids|] == ids;
  }

  lemma LiveHas(m: Map, f: Frame)
    requires m.Valid() && f.id in m.keyframes && m.keyframes[f.id] == f
    ensures m.Has(f) && f.id in m.SlotMap() && m.SlotMap()[f.id] == f.slots
  {
    hide Consistent, IsCov;
  }

  /** What is collected: every observation from the window of a well enough observed point, and nothing else. */
  ghost predicate Exactly(v: View, ids: seq<nat>, required: nat, obs: seq<Obs>)
    requires Indexed(v)
  {
    forall o: Obs :: o in obs <==> o.keyframe in ids && Reported(v, required, o)
  }

  ghost predicate Reported(v: View, required: nat, o: Obs)
    requires Indexed(v)
  {
    && o.point in v.points
    && var own := v.obs[v.points[o.point]];
       |own| >= required && o.keyframe in own && own[o.keyframe] == o.feature
  }

  lemma {:induction false} FrameObsFacts(v: View, k: nat, required: nat, n: nat)
    requires Consistent(v) && k in v.slots && n <= |v.slots[k]|
    ensures var r := FrameObs(v.slots[k], v.obs, k, required, n);
            && (forall a :: 0 <= a < |r| ==> r[a].keyframe == k && r[a].feature < n)
            && (forall a, b :: 0 <= a < b < |r| ==> r[a].feature < r[b].feature)
            && (forall o: Obs :: o in r <==>
                 && o.keyframe == k && o.feature < n && Collected(v.slots[k], v.obs, k, required, o.feature)
                 && v.slots[k][o.feature].id == o.point)
  {
    hide Consistent, Collected;
    if n > 0 {
      FrameObsFacts(v, k, required, n - 1);
    }
  }

  lemma SlotReports(v: View, k: nat, required: nat, o: Obs)
    requires Consistent(v) && k in v.slots && o.keyframe == k
    ensures Reported(v, required, o) <==>
      && o.feature < |v.slots[k]| && Collected(v.slots[k], v.obs, k, required, o.feature)
      && v.slots[k][o.feature].id == o.point
  {
    if o.feature < |v.slots[k]| && v.slots[k][o.feature] != null {
      assert FrameFormal(v, k) && Formal(v, k, o.feature);
    }
  }

  lemma {:induction false} WindowObsFacts(v: View, ids: seq<nat>, required: nat)
    requires Consistent(v) && DistinctIds(ids) && forall k :: k in ids ==> k in v.slots
    ensures Exactly(v, ids, required, WindowObs(v.slots, v.obs, ids, required))
    ensures OncePerFrame(WindowObs(v.slots, v.obs, ids, required))
  {
    hide Consistent, Collected, FrameObs, Reported, Indexed;
    ConsistentIsIndexed(v);
    if ids != [] {
      var before, k := ids[..|ids| - 1], ids[|ids| - 1];
      WindowObsFacts(v, before, required);
      FrameObsFacts(v, k, required, |v.slots[k]|);
      var first, second := WindowObs(v.slots, v.obs, before, required),
                           FrameObs(v.slots[k], v.obs, k, required, |v.slots[k]|);
      forall o: Obs
        ensures o in first + second <==> o.keyframe in ids && Reported(v, required, o)
      {
        if o.keyframe == k {
          SlotReports(v, k, required, o);
        }
      }
      FrameObsOnce(v, k, required);
      OnceInBoth(first, second, k);
    }
  }

  lemma ConsistentIsIndexed(v: View)
    requires Consistent(v)
    ensures Indexed(v)
  {
  }

  lemma FrameObsOnce(v: View, k: nat, required: nat)
    requires Consistent(v) && k in v.slots
    ensures OncePerFrame(FrameObs(v.slots[k], v.obs, k, required, |v.slots[k]|))
  {
    hide Consistent, FrameObs;
    var r := FrameObs(v.slots[k], v.obs, k, required, |v.slots[k]|);
    FrameObsFacts(v, k, required, |v.slots[k]|);
    ConsistentIsIndexed(v);
    forall a, b | 0 <= a < b < |r|
      ensures r[a].point != r[b].point
    {
      assert r[a] in r && r[b] in r;
      SlotReports(v, k, required, r[a]);
      SlotReports(v, k, required, r[b]);
    }
  }

  lemma OnceInBoth(first: seq<Obs>, second: seq<Obs>, k: nat)
    requires OncePerFrame(first) && OncePerFrame(second)
    requires (forall o :: o in first ==> o.keyframe != k) && (forall o :: o in second ==> o.keyframe == k)
    ensures OncePerFrame(first + second)
  {
    var all := first + second;
    forall a, b | 0 <= a < b < |all| && all[a].point == all[b].point
      ensures all[a].keyframe != all[b].keyframe
    {
      if a < |first| <= b {
        assert first[a] in first && second[b - |first|] in second;
      }
    }
  }

  function CountsOf(v: View): map<nat, nat>
    requires forall id :: id in v.points ==> v.points[id] in v.obs
  {
    map id | id in v.points :: |v.obs[v.points[id]]|
  }

  /** buildLocalBASnapshot: collect under the observation threshold, keep the anchor's component, cap the landmarks. */
  method BuildLocalBASnapshot(m: Map, window: seq<Frame>, anchor: nat, minObserved: int,
                              limit: nat) returns (s: Snapshot)
    requires m.Valid() && forall a, b :: 0 <= a < b < |window| ==> window[a].id != window[b].id
    ensures var required, ids := if minObserved > 0 then minObserved else 0, LiveIds(m.keyframes, window);
            && Indexed(m.Abs()) && DistinctIds(ids)
            && exists obs :: && Exactly(m.Abs(), ids, required, obs) && OncePerFrame(obs)
                             && GoodSnapshot(ids, obs, anchor, CountsOf(m.Abs()), limit, s)
    ensures forall o :: o in s.observations ==>
      && o.keyframe in s.keyframes && (exists l :: l in s.landmarks && l.id == o.point)
      && Indexed(m.Abs()) && Reported(m.Abs(), if minObserved > 0 then minObserved else 0, o)
  {
    hide GoodSnapshot, IsComponent, Consistent, IsCov, WindowObs, OncePerFrame, DistinctIds, Reported, Map.Valid,
         Indexed, LiveIds,
         CountsOf, Map.Filed;
    var required: nat := if minObserved > 0 then minObserved else 0;
    ghost var v := m.Abs();
    ValidIsConsistent(m);
    ConsistentIsIndexed(v);
    LiveIdsFacts(m.keyframes, window);
    var ids, obs := Collect(m, window, required);
    var counts := map id | id in m.mapPoints :: |m.mapPoints[id].obs|;
    CountsAre(m, counts);
    WindowObsFacts(v, ids, required);
    ReportedCounts(v, required, obs);
    s := BuildSnapshot(ids, obs, anchor, counts, required, limit);
    KeptAreCollected(ids, obs, anchor, counts, limit, s);
  }

  lemma ValidIsConsistent(m: Map)
    requires m.Valid()
    ensures Consistent(m.Abs())
  {
  }

  lemma CountsAre(m: Map, counts: map<nat, nat>)
    requires m.Valid() && counts == map id | id in m.mapPoints :: |m.mapPoints[id].obs|
    ensures Indexed(m.Abs()) && counts == CountsOf(m.Abs())
  {
    hide IsCov;
  }

  lemma ReportedCounts(v: View, required: nat, obs: seq<Obs>)
    requires Indexed(v) && forall o :: o in obs ==> Reported(v, required, o)
    ensures forall o :: o in obs ==> o.point in CountsOf(v) && CountsOf(v)[o.point] >= required
  {
  }

  lemma KeptAreCollected(ids: seq<nat>, obs: seq<Obs>, anchor: nat, counts: map<nat, nat>, limit: nat, s: Snapshot)
    requires GoodSnapshot(ids, obs, anchor, counts, limit, s)
    ensures forall o :: o in s.observations ==> o in obs
  {
  }
}
