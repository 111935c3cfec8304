/**
 * The map as values: registered points, feature slots and reverse observations, and what each operation makes of them.
 */
module ObservationModel {
  import opened MapEntities
  import opened Covisibility

  type Slots = seq<MapPoint?>

  datatype View = View(
    points: map<nat, MapPoint>,
    keypoints: map<nat, nat>,
    slots: map<nat, Slots>,
    obs: ObsMap)

  // ---- invariants ------------------------------------------------------

  ghost predicate Indexed(v: View) {
    && v.keypoints.Keys == v.slots.Keys
    && (forall p :: p in v.obs ==> p.id in v.points && v.points[p.id] == p)
    && (forall id :: id in v.points ==> v.points[id].id == id && v.points[id] in v.obs)
  }

  /** Every reverse observation is backed by the slot it names. */
  ghost predicate Backed(v: View) {
    forall p, k {:trigger k in v.obs[p]} {:trigger v.obs[p][k]} :: p in v.obs && k in v.obs[p] ==>
      && k in v.slots && v.obs[p][k] < |v.slots[k]| && k in v.keypoints && v.obs[p][k] < v.keypoints[k]
      && v.slots[k][v.obs[p][k]] == p
  }

  /** Slot i of frame k is empty or holds a registered point that carries observation (k, i). */
  ghost predicate Formal(v: View, k: nat, i: nat)
    requires k in v.slots && i < |v.slots[k]|
  {
    var p := v.slots[k][i];
    p != null ==> p in v.obs && k in v.obs[p] && v.obs[p][k] == i
  }

  ghost predicate FrameFormal(v: View, k: nat)
    requires k in v.slots
  {
    forall i :: 0 <= i < |v.slots[k]| ==> Formal(v, k, i)
  }

  /** Consistent except that the slots of frame k may have been overwritten behind the map's back. */
  ghost predicate ConsistentExcept(v: View, k: nat) {
    Indexed(v) && Backed(v) && forall x :: x in v.slots && x != k ==> FrameFormal(v, x)
  }

  ghost predicate Consistent(v: View) {
    Indexed(v) && Backed(v) && forall x :: x in v.slots ==> FrameFormal(v, x)
  }

  /** The invariant read as one equivalence, with object identity. */
  lemma {:induction false} SlotIffObservation(v: View, k: nat, i: nat, p: MapPoint)
    requires Consistent(v) && k in v.slots && i < |v.slots[k]|
    ensures v.slots[k][i] == p <==>
            p.id in v.points && v.points[p.id] == p && k in v.obs[p] && v.obs[p][k] == i
    ensures v.slots[k][i] == p ==> forall j :: 0 <= j < |v.slots[k]| && v.slots[k][j] == p ==> j == i
  {
    assert FrameFormal(v, k) && Formal(v, k, i);
    Registered(v, p);
    if v.slots[k][i] == p {
      forall j | 0 <= j < |v.slots[k]| && v.slots[k][j] == p
        ensures j == i
      {
        assert Formal(v, k, j);
      }
    }
  }

  lemma Registered(v: View, p: MapPoint)
    requires Indexed(v)
    ensures p in v.obs <==> p.id in v.points && v.points[p.id] == p
  {
  }

  // ---- one slot --------------------------------------------------------

  /** clearDuplicateSlotsUnlocked: p stays only where keep says. */
  function KeepOnly(s: Slots, p: MapPoint, keep: Option<nat>): (r: Slots)
    ensures |r| == |s|
    ensures forall j :: 0 <= j < |s| ==> r[j] == if s[j] == p && Some(j) != keep then null else s[j]
  {
    seq(|s|, j requires 0 <= j < |s| => if s[j] == p && Some(j) != keep then null else s[j])
  }

  /** The effect of setObservationUnlocked, also on a frame that is being repaired. */
  ghost function SetSlot(v: View, k: nat, i: nat, p: MapPoint): (View, bool)
    requires Indexed(v)
  {
    if !(k in v.slots && i < v.keypoints[k] && i < |v.slots[k]| && p in v.obs) then (v, false)
    else
      var s := v.slots[k];
      if s[i] == p then
        var f := if k in v.obs[p] then v.obs[p][k] else i;
        var t := KeepOnly(s, p, Some(f));
        (v.(slots := v.slots[k := t], obs := With(v.obs, p, k, f)), k !in v.obs[p] || t != s)
      else if k in v.obs[p] then (v, false)
      else
        var obs := With(v.obs, p, k, i);
        if s[i] == null || s[i] !in obs then (v.(slots := v.slots[k := s[i := p]], obs := obs), true)
        else (v.(slots := v.slots[k := s[i := p]], obs := Without(obs, s[i], k)), true)
  }

  /** The call makes k observe p, which it did not before. */
  ghost predicate BindsNew(v: View, k: nat, i: nat, p: MapPoint)
    requires Indexed(v)
  {
    k in v.slots && i < v.keypoints[k] && i < |v.slots[k]| && p in v.obs && k !in v.obs[p]
  }

  lemma SetOwnSlot(v: View, k: nat, i: nat, p: MapPoint, f: nat)
    requires Indexed(v) && k in v.slots && i < v.keypoints[k] && i < |v.slots[k]|
    requires v.slots[k][i] == p && p in v.obs && f == if k in v.obs[p] then v.obs[p][k] else i
    ensures SetSlot(v, k, i, p)
         == (v.(slots := v.slots[k := KeepOnly(v.slots[k], p, Some(f))], obs := With(v.obs, p, k, f)),
             k !in v.obs[p] || KeepOnly(v.slots[k], p, Some(f)) != v.slots[k])
  {
  }

  lemma SetSlotRejects(v: View, k: nat, i: nat, p: MapPoint)
    requires Indexed(v)
    ensures (k !in v.slots || i >= v.keypoints[k] || i >= |v.slots[k]| || p !in v.obs ||
             (v.slots[k][i] != p && k in v.obs[p]))
        ==> SetSlot(v, k, i, p) == (v, false)
  {
  }

  lemma SetOtherSlot(v: View, k: nat, i: nat, p: MapPoint)
    requires Indexed(v) && k in v.slots && i < v.keypoints[k] && i < |v.slots[k]|
    requires v.slots[k][i] != p && p in v.obs && k !in v.obs[p]
    requires v.slots[k][i] != null ==> v.slots[k][i] in v.obs
    ensures SetSlot(v, k, i, p)
         == (v.(slots := v.slots[k := v.slots[k][i := p]],
                obs := if v.slots[k][i] == null then With(v.obs, p, k, i)
                       else Without(With(v.obs, p, k, i), v.slots[k][i], k)),
             true)
  {
  }

  /** On a consistent map a call succeeds exactly when frame, slot and point exist and p is not yet seen from k. */
  lemma {:induction false} SetSlotOnConsistent(v: View, k: nat, i: nat, p: MapPoint)
    requires Consistent(v)
    ensures var (v', ok) := SetSlot(v, k, i, p);
            && (ok <==> k in v.slots && i < v.keypoints[k] && i < |v.slots[k]|
                        && p in v.obs && k !in v.obs[p])
            && (!ok ==> v' == v)
            && Consistent(v')
            && (ok ==> v'.slots == v.slots[k := v.slots[k][i := p]] && p in v'.obs
                       && k in v'.obs[p] && v'.obs[p][k] == i)
  {
    if k in v.slots && i < v.keypoints[k] && i < |v.slots[k]| && p in v.obs {
      var s := v.slots[k];
      assert FrameFormal(v, k) && Formal(v, k, i);
      if s[i] == p {
        UnrepeatedIsKept(v, k, i);
        assert v.slots[k := s] == v.slots;
        WithSame(v.obs, p, k, i);
      } else if k !in v.obs[p] {
        SetFreshSlot(v, k, i, p);
      }
    }
  }

  lemma WithSame(obs: ObsMap, p: MapPoint, k: nat, i: nat)
    requires p in obs && k in obs[p] && obs[p][k] == i
    ensures With(obs, p, k, i) == obs
  {
    assert obs[p][k := i] == obs[p];
  }

  lemma UnrepeatedIsKept(v: View, k: nat, i: nat)
    requires k in v.slots && FrameFormal(v, k) && i < |v.slots[k]| && v.slots[k][i] != null
    ensures KeepOnly(v.slots[k], v.slots[k][i], Some(i)) == v.slots[k]
    ensures KeepOnly(v.slots[k], v.slots[k][i], None) == v.slots[k][i := null]
  {
    forall j | 0 <= j < |v.slots[k]| && v.slots[k][j] == v.slots[k][i]
      ensures j == i
    {
      assert Formal(v, k, i) && Formal(v, k, j);
    }
  }

  lemma SetEmptySlot(v: View, k: nat, i: nat, p: MapPoint)
    requires Consistent(v) && k in v.slots && i < v.keypoints[k] && i < |v.slots[k]|
    requires v.slots[k][i] == null && p in v.obs && k !in v.obs[p]
    ensures SetSlot(v, k, i, p) == (v.(slots := v.slots[k := v.slots[k][i := p]], obs := With(v.obs, p, k, i)), true)
    ensures Consistent(SetSlot(v, k, i, p).0)
  {
    var v' := SetSlot(v, k, i, p).0;
    assert Backed(v') by {
      forall q, x | q in v'.obs && x in v'.obs[q]
        ensures x in v'.slots && v'.obs[q][x] < |v'.slots[x]| && v'.slots[x][v'.obs[q][x]] == q
      {
        assert (q == p && x == k) || (x in v.obs[q] && v'.obs[q][x] == v.obs[q][x]);
      }
    }
    forall x | x in v'.slots
      ensures FrameFormal(v', x)
    {
      assert FrameFormal(v, x);
      forall j | 0 <= j < |v'.slots[x]|
        ensures Formal(v', x, j)
      {
        assert Formal(v, x, j);
      }
    }
  }

  lemma ConsistentIsIndexed(v: View)
    requires Consistent(v)
    ensures Indexed(v)
  {
  }

  lemma FrameFacts(v: View, k: nat)
    requires Consistent(v) && k in v.slots
    ensures ConsistentExcept(v, k) && FrameFormal(v, k)
  {
  }

  /** On a consistent map the point of a slot is formal on that very slot and sits nowhere else on the frame. */
  lemma SlotFacts(v: View, k: nat, i: nat, p: MapPoint)
    requires Indexed(v) && k in v.slots && FrameFormal(v, k) && i < |v.slots[k]| && v.slots[k][i] == p
    ensures p in v.obs && k in v.obs[p] && v.obs[p][k] == i
    ensures KeepOnly(v.slots[k], p, None) == v.slots[k][i := null]
  {
    assert Formal(v, k, i);
    UnrepeatedIsKept(v, k, i);
  }

  lemma SetFreshSlot(v: View, k: nat, i: nat, p: MapPoint)
    requires Consistent(v) && k in v.slots && i < v.keypoints[k] && i < |v.slots[k]|
    requires p in v.obs && k !in v.obs[p]
    ensures Consistent(SetSlot(v, k, i, p).0)
  {
    if v.slots[k][i] == null {
      SetEmptySlot(v, k, i, p);
    } else {
      var q := v.slots[k][i];
      var w := ClearSlot(v, k, i).0;
      assert FrameFormal(v, k) && Formal(v, k, i);
      ClearSlotOnConsistent(v, k, i);
      SetEmptySlot(w, k, i, p);
      SwapAfterClear(v, k, i, p, q);
    }
  }

  /** Rebinding an occupied slot is clearing it and then binding it. */
  lemma SwapAfterClear(v: View, k: nat, i: nat, p: MapPoint, q: MapPoint)
    requires Indexed(v) && k in v.slots && i < v.keypoints[k] && i < |v.slots[k]|
    requires p in v.obs && k !in v.obs[p] && v.slots[k][i] == q && q in v.obs && q != p
    ensures SetSlot(v, k, i, p).0 == SetSlot(ClearSlot(v, k, i).0, k, i, p).0
  {
    var w := ClearSlot(v, k, i).0;
    assert w.slots[k][i := p] == v.slots[k][i := p];
    assert w.slots[k := v.slots[k][i := p]] == v.slots[k := v.slots[k][i := p]];
    assert With(w.obs, p, k, i) == Without(With(v.obs, p, k, i), q, k);
  }

  /** clearObservation. */
  ghost function ClearSlot(v: View, k: nat, i: nat): (View, bool) {
    if !(k in v.slots && i < |v.slots[k]|) || v.slots[k][i] == null || v.slots[k][i] !in v.obs then (v, false)
    else (v.(slots := v.slots[k := v.slots[k][i := null]], obs := Without(v.obs, v.slots[k][i], k)), true)
  }

  lemma ClearFormalSlot(v: View, k: nat, i: nat, p: MapPoint)
    requires k in v.slots && i < |v.slots[k]| && v.slots[k][i] == p && p in v.obs
    ensures ClearSlot(v, k, i)
         == (v.(slots := v.slots[k := v.slots[k][i := null]], obs := Without(v.obs, p, k)), true)
  {
  }

  lemma {:induction false} ClearSlotOnConsistent(v: View, k: nat, i: nat)
    requires Consistent(v)
    ensures var (v', ok) := ClearSlot(v, k, i);
            && (ok <==> k in v.slots && i < |v.slots[k]| && v.slots[k][i] != null)
            && (!ok ==> v' == v) && Consistent(v')
  {
    if k in v.slots && i < |v.slots[k]| && v.slots[k][i] != null {
      var v' := ClearSlot(v, k, i).0;
      assert FrameFormal(v, k) && Formal(v, k, i);
      forall x | x in v'.slots
        ensures FrameFormal(v', x)
      {
        assert FrameFormal(v, x);
        forall j | 0 <= j < |v'.slots[x]|
          ensures Formal(v', x, j)
        {
          assert Formal(v, x, j);
        }
      }
    }
  }

  /** A call to setObservation undoes to the previous map by clearing that slot, if the slot was free. */
  lemma {:induction false} SetThenClear(v: View, k: nat, i: nat, p: MapPoint)
    requires Consistent(v) && k in v.slots && i < |v.slots[k]| && v.slots[k][i] == null
    requires SetSlot(v, k, i, p).1
    ensures ClearSlot(SetSlot(v, k, i, p).0, k, i) == (v, true)
  {
    SetSlotOnConsistent(v, k, i, p);
    SetEmptySlot(v, k, i, p);
    ClearFilledSlot(v, k, i, p);
  }

  lemma ClearFilledSlot(v: View, k: nat, i: nat, p: MapPoint)
    requires k in v.slots && i < |v.slots[k]| && v.slots[k][i] == null && p in v.obs && k !in v.obs[p]
    ensures ClearSlot(v.(slots := v.slots[k := v.slots[k][i := p]], obs := With(v.obs, p, k, i)), k, i) == (v, true)
  {
    var w := With(v.obs, p, k, i);
    assert v.slots[k][i := p][i := null] == v.slots[k];
    assert v.slots[k := v.slots[k][i := p]][k := v.slots[k]] == v.slots;
    assert w[p] - {k} == v.obs[p];
    assert Without(w, p, k) == v.obs;
  }

  // ---- whole points and keyframes --------------------------------------

  function DropPoints(s: Slots, gone: set<MapPoint>): (r: Slots)
    ensures |r| == |s|
    ensures forall j :: 0 <= j < |s| ==> r[j] == if s[j] != null && s[j] in gone then null else s[j]
  {
    seq(|s|, j requires 0 <= j < |s| => if s[j] != null && s[j] in gone then null else s[j])
  }

  ghost function DropAll(slots: map<nat, Slots>, gone: set<MapPoint>): map<nat, Slots> {
    map k | k in slots :: DropPoints(slots[k], gone)
  }

  ghost function PointsOf(v: View, ids: set<nat>): set<MapPoint> {
    set id | id in ids && id in v.points :: v.points[id]
  }

  ghost function RemovePoints(v: View, ids: set<nat>): View {
    var gone := PointsOf(v, ids);
    View(v.points - ids, v.keypoints,
         DropAll(v.slots, gone),
         v.obs - gone)
  }

  lemma {:induction false} RemovePointsConsistent(v: View, ids: set<nat>)
    requires Consistent(v)
    ensures Consistent(RemovePoints(v, ids))
  {
    var v' := RemovePoints(v, ids);
    var gone := PointsOf(v, ids);
    forall x | x in v'.slots
      ensures FrameFormal(v', x)
    {
      assert FrameFormal(v, x);
      forall j | 0 <= j < |v'.slots[x]|
        ensures Formal(v', x, j)
      {
        assert Formal(v, x, j);
      }
    }
  }

  function IdSet(ids: seq<nat>): set<nat> {
    set id | id in ids
  }

  ghost function RemoveEach(v: View, ids: seq<nat>): View
    decreases |ids|
  {
    if ids == [] then v else RemoveEach(RemovePoints(v, {ids[0]}), ids[1..])
  }

  /** Removing a batch of ids, duplicates and unknown ids included, is removing them one by one. */
  lemma {:induction false} BatchIsOneByOne(v: View, ids: seq<nat>)
    ensures RemoveEach(v, ids) == RemovePoints(v, IdSet(ids))
    decreases |ids|
  {
    if ids == [] {
      assert IdSet(ids) == {};
      RemoveNothing(v);
    } else {
      BatchIsOneByOne(RemovePoints(v, {ids[0]}), ids[1..]);
      RemoveOneThenRest(v, ids[0], IdSet(ids[1..]));
      assert IdSet(ids) == IdSet(ids[1..]) + {ids[0]};
    }
  }

  lemma RemoveNothing(v: View)
    ensures RemovePoints(v, {}) == v
  {
    assert PointsOf(v, {}) == {};
    assert forall k :: k in v.slots ==> DropPoints(v.slots[k], {}) == v.slots[k];
  }

  lemma RemoveOneThenRest(v: View, id: nat, ids: set<nat>)
    ensures RemovePoints(RemovePoints(v, {id}), ids) == RemovePoints(v, ids + {id})
  {
    var one := RemovePoints(v, {id});
    assert PointsOf(v, ids + {id}) == PointsOf(v, {id}) + PointsOf(one, ids) by {
      forall x | x in ids && x in v.points && v.points[x] !in PointsOf(v, {id})
        ensures v.points[x] in PointsOf(one, ids)
      {
        assert x in one.points;
      }
    }
    forall k | k in v.slots
      ensures DropPoints(one.slots[k], PointsOf(one, ids)) == DropPoints(v.slots[k], PointsOf(v, ids + {id}))
    {
    }
    assert v.obs - PointsOf(v, {id}) - PointsOf(one, ids) == v.obs - PointsOf(v, ids + {id});
    assert v.points - {id} - ids == v.points - (ids + {id});
  }

  ghost function RemoveFrame(v: View, k: nat): View {
    View(v.points, v.keypoints - {k}, v.slots - {k},
         map p | p in v.obs :: v.obs[p] - {k})
  }

  lemma {:induction false} RemoveFrameConsistent(v: View, k: nat)
    requires ConsistentExcept(v, k)
    ensures Consistent(RemoveFrame(v, k))
  {
    var v' := RemoveFrame(v, k);
    forall x | x in v'.slots
      ensures FrameFormal(v', x)
    {
      assert FrameFormal(v, x);
      forall j | 0 <= j < |v'.slots[x]|
        ensures Formal(v', x, j)
      {
        assert Formal(v, x, j);
      }
    }
  }

  /** A point registered with the observations it brings along. */
  ghost function AdmitPoint(v: View, p: MapPoint, own: map<nat, nat>): View {
    v.(points := v.points[p.id := p], obs := v.obs[p := own])
  }

  ghost function InsertPoint(v: View, p: MapPoint): View {
    AdmitPoint(v, p, map[])
  }

  lemma {:induction false} InsertPointConsistent(v: View, p: MapPoint)
    requires Consistent(v) && p.id !in v.points
    ensures p !in v.obs && Consistent(InsertPoint(v, p))
  {
    Registered(v, p);
    var v' := InsertPoint(v, p);
    forall x | x in v'.slots
      ensures FrameFormal(v', x)
    {
      assert FrameFormal(v, x);
      forall j | 0 <= j < |v'.slots[x]|
        ensures Formal(v', x, j)
      {
        assert Formal(v, x, j);
      }
    }
  }

  /** No slot backs the observations of a point that was not registered, so it may bring none. */
  lemma {:induction false} AdmitPointConsistent(v: View, p: MapPoint, own: map<nat, nat>)
    requires Consistent(v) && p.id !in v.points
    ensures p !in v.obs && (Consistent(AdmitPoint(v, p, own)) <==> own == map[])
  {
    hide Consistent;
    InsertPointConsistent(v, p);
    if own != map[] {
      var k :| k in own;
      UnbackedPoint(v, p, own, k);
    }
  }

  lemma UnbackedPoint(v: View, p: MapPoint, own: map<nat, nat>, k: nat)
    requires Consistent(v) && p !in v.obs && k in own
    ensures !Backed(AdmitPoint(v, p, own)) && !Consistent(AdmitPoint(v, p, own))
  {
    var w := AdmitPoint(v, p, own);
    if k in v.slots && own[k] < |v.slots[k]| {
      assert FrameFormal(v, k) && Formal(v, k, own[k]);
    }
    assert p in w.obs && k in w.obs[p] && w.obs[p][k] == own[k];
  }

  // ---- repairing one frame ---------------------------------------------

  /** p's reverse observation on frame k names a slot that still holds p. */
  ghost predicate StillFormal(obs: ObsMap, k: nat, keypoints: nat, s: Slots, p: MapPoint)
    requires p in obs
  {
    k in obs[p] && obs[p][k] < keypoints && obs[p][k] < |s| && s[obs[p][k]] == p
  }

  /** Slot i survives a repair: a registered point within range, on its formal slot if it has one, else its first. */
  ghost predicate Survives(obs: ObsMap, k: nat, keypoints: nat, s: Slots, i: nat)
    requires i < |s|
  {
    var p := s[i];
    && p != null && p in obs && i < keypoints
    && (if StillFormal(obs, k, keypoints, s, p) then obs[p][k] == i
        else forall j :: 0 <= j < i ==> s[j] != p)
  }

  ghost function Repaired(obs: ObsMap, k: nat, keypoints: nat, s: Slots): (r: Slots)
    ensures |r| == |s|
    ensures forall i :: 0 <= i < |s| ==> r[i] == if Survives(obs, k, keypoints, s, i) then s[i] else null
  {
    seq(|s|, i requires 0 <= i < |s| => if Survives(obs, k, keypoints, s, i) then s[i] else null)
  }

  /** Frame k went from slots s to t and observations obs0 to obs: a repair, and nothing off the frame moved. */
  ghost predicate FrameRepaired(obs: ObsMap, t: Slots, obs0: ObsMap, k: nat, keypoints: nat, s: Slots) {
    && t == Repaired(obs0, k, keypoints, s)
    && obs.Keys == obs0.Keys && forall p :: p in obs0 ==> obs[p] - {k} == obs0[p] - {k}
  }

  /** Forget the observations on k that the overwritten slots no longer back. */
  ghost function Pruned(v: View, k: nat): View
    requires k in v.slots && k in v.keypoints
  {
    v.(obs := map p | p in v.obs ::
      if StillFormal(v.obs, k, v.keypoints[k], v.slots[k], p) then v.obs[p] else v.obs[p] - {k})
  }

  lemma {:induction false} PrunedConsistent(v: View, k: nat, s: Slots)
    requires Consistent(v) && k in v.slots
    ensures ConsistentExcept(Pruned(v.(slots := v.slots[k := s]), k), k)
  {
    var w := v.(slots := v.slots[k := s]);
    var v' := Pruned(w, k);
    forall x | x in v'.slots && x != k
      ensures FrameFormal(v', x)
    {
      assert FrameFormal(v, x);
      forall j | 0 <= j < |v'.slots[x]|
        ensures Formal(v', x, j)
      {
        assert Formal(v, x, j);
      }
    }
  }

  // The register loop after n slots, started from slots s0 and observations obs0.

  /** Only the observations on k and the slots of k have moved. */
  ghost predicate RegFrame(v: View, obs0: ObsMap, k: nat, s0: Slots) {
    && k in v.slots && |v.slots[k]| == |s0| && ConsistentExcept(v, k)
    && obs0.Keys == v.obs.Keys && forall p :: p in obs0 ==> v.obs[p] - {k} == obs0[p] - {k}
  }

  /** Slots below n are final. */
  ghost predicate RegDone(v: View, obs0: ObsMap, k: nat, s0: Slots, n: nat)
    requires RegFrame(v, obs0, k, s0) && n <= |s0|
  {
    forall i :: 0 <= i < n ==>
      v.slots[k][i] == (if Survives(obs0, k, v.keypoints[k], s0, i) then s0[i] else null) && Formal(v, k, i)
  }

  /** Slots from n on are untouched, or were cleared because their point is registered elsewhere on k. */
  ghost predicate RegTodo(v: View, obs0: ObsMap, k: nat, s0: Slots, n: nat)
    requires RegFrame(v, obs0, k, s0) && n <= |s0|
  {
    forall i :: n <= i < |s0| ==>
      var p := s0[i];
      v.slots[k][i] == p || (v.slots[k][i] == null && p != null && p in v.obs && k in v.obs[p])
  }

  /** Observations on k: the ones still formal at the start, plus one for every point already met. */
  ghost predicate RegObs(v: View, obs0: ObsMap, k: nat, s0: Slots, n: nat)
    requires RegFrame(v, obs0, k, s0) && n <= |s0|
  {
    && (forall p :: p in v.obs && k in v.obs[p] ==>
         StillFormal(obs0, k, v.keypoints[k], s0, p) || v.obs[p][k] < n)
    && (forall p :: p in obs0 && StillFormal(obs0, k, v.keypoints[k], s0, p) ==>
         k in v.obs[p] && v.obs[p][k] == obs0[p][k])
    && (forall j :: 0 <= j < n && j < v.keypoints[k] && s0[j] != null && s0[j] in obs0 ==> k in v.obs[s0[j]])
  }

  ghost predicate Registering(v: View, obs0: ObsMap, k: nat, s0: Slots, n: nat) {
    && RegFrame(v, obs0, k, s0) && n <= |s0|
    && RegDone(v, obs0, k, s0, n) && RegTodo(v, obs0, k, s0, n) && RegObs(v, obs0, k, s0, n)
  }

  lemma RegisterStart(v: View, obs0: ObsMap, k: nat)
    requires k in v.slots && ConsistentExcept(v, k) && obs0.Keys == v.obs.Keys && k in v.keypoints
    requires forall p :: p in obs0 ==> v.obs[p] - {k} == obs0[p] - {k}
    requires forall p :: p in obs0 ==>
      (k in v.obs[p] <==> StillFormal(obs0, k, v.keypoints[k], v.slots[k], p)) &&
      (k in v.obs[p] ==> v.obs[p][k] == obs0[p][k])
    ensures Registering(v, obs0, k, v.slots[k], 0)
  {
  }

  /** What one turn of the register loop makes of slot n. */
  ghost function RegisterSlot(v: View, k: nat, n: nat): View
    requires Indexed(v) && k in v.slots && n < |v.slots[k]|
  {
    var p := v.slots[k][n];
    if p == null then v
    else if n >= v.keypoints[k] || p !in v.obs then v.(slots := v.slots[k := v.slots[k][n := null]])
    else SetSlot(v, k, n, p).0
  }

  lemma {:induction false} RegisterStep(v: View, obs0: ObsMap, k: nat, s0: Slots, n: nat)
    requires Registering(v, obs0, k, s0, n) && n < |s0|
    ensures Registering(RegisterSlot(v, k, n), obs0, k, s0, n + 1)
  {
    var p := v.slots[k][n];
    if p == null {
      RegisterSkip(v, obs0, k, s0, n);
    } else if n >= v.keypoints[k] || p !in v.obs {
      RegisterReject(v, obs0, k, s0, n);
    } else {
      RegisterFormal(v, obs0, k, s0, n, p);
    }
  }

  /** A slot cleared earlier does not survive: its point is formal on another slot. */
  lemma ClearedDoesNotSurvive(v: View, obs0: ObsMap, k: nat, s0: Slots, n: nat)
    requires Registering(v, obs0, k, s0, n) && n < |s0| && v.slots[k][n] != s0[n]
    ensures !Survives(obs0, k, v.keypoints[k], s0, n)
  {
    var p := s0[n];
    var f := v.obs[p][k];
    assert v.slots[k][f] == p;
    if !StillFormal(obs0, k, v.keypoints[k], s0, p) {
      assert f < n && s0[f] == p;
    }
  }

  lemma RegisterSkip(v: View, obs0: ObsMap, k: nat, s0: Slots, n: nat)
    requires Registering(v, obs0, k, s0, n) && n < |s0| && v.slots[k][n] == null
    ensures Registering(v, obs0, k, s0, n + 1)
  {
    if s0[n] != null {
      ClearedDoesNotSurvive(v, obs0, k, s0, n);
    }
  }

  lemma OtherFramesStayFormal(v: View, v': View, k: nat)
    requires ConsistentExcept(v, k) && v'.slots.Keys == v.slots.Keys && v'.obs.Keys == v.obs.Keys
    requires forall x :: x in v.slots && x != k ==> v'.slots[x] == v.slots[x]
    requires forall p :: p in v.obs ==> v'.obs[p] - {k} == v.obs[p] - {k}
    ensures forall x :: x in v'.slots && x != k ==> FrameFormal(v', x)
  {
    forall x | x in v'.slots && x != k
      ensures FrameFormal(v', x)
    {
      assert FrameFormal(v, x);
      forall j | 0 <= j < |v'.slots[x]|
        ensures Formal(v', x, j)
      {
        assert Formal(v, x, j);
        var p := v.slots[x][j];
        if p != null {
          assert x in (v.obs[p] - {k}) && (v'.obs[p] - {k})[x] == j;
        }
      }
    }
  }

  lemma RegisterReject(v: View, obs0: ObsMap, k: nat, s0: Slots, n: nat)
    requires Registering(v, obs0, k, s0, n) && n < |s0| && v.slots[k][n] != null
    requires n >= v.keypoints[k] || v.slots[k][n] !in v.obs
    ensures Registering(v.(slots := v.slots[k := v.slots[k][n := null]]), obs0, k, s0, n + 1)
  {
    var v' := v.(slots := v.slots[k := v.slots[k][n := null]]);
    assert !Survives(obs0, k, v.keypoints[k], s0, n);
    hide Survives, StillFormal, RegObs;
    RegisterRejectFrame(v, v', obs0, k, s0, n);
    RegisterRejectDone(v, v', obs0, k, s0, n);
    RegisterRejectObs(v, v', obs0, k, s0, n);
  }

  lemma RegisterRejectFrame(v: View, v': View, obs0: ObsMap, k: nat, s0: Slots, n: nat)
    requires RegFrame(v, obs0, k, s0) && n < |s0| && (n >= v.keypoints[k] || v.slots[k][n] !in v.obs)
    requires v' == v.(slots := v.slots[k := v.slots[k][n := null]])
    ensures RegFrame(v', obs0, k, s0)
  {
    BackedSlotsOnly(v, v', k);
    OtherFramesStayFormal(v, v', k);
    hide Backed, FrameFormal;
  }

  lemma RegisterRejectDone(v: View, v': View, obs0: ObsMap, k: nat, s0: Slots, n: nat)
    requires RegFrame(v, obs0, k, s0) && RegFrame(v', obs0, k, s0) && n < |s0|
    requires v' == v.(slots := v.slots[k := v.slots[k][n := null]])
    requires RegDone(v, obs0, k, s0, n) && RegTodo(v, obs0, k, s0, n)
    requires !Survives(obs0, k, v.keypoints[k], s0, n)
    ensures RegDone(v', obs0, k, s0, n + 1) && RegTodo(v', obs0, k, s0, n + 1)
  {
    hide Survives, StillFormal, Backed, FrameFormal, ConsistentExcept;
    forall i | 0 <= i < n
      ensures Formal(v', k, i)
    {
      assert Formal(v, k, i);
    }
  }

  lemma RegisterRejectObs(v: View, v': View, obs0: ObsMap, k: nat, s0: Slots, n: nat)
    requires RegFrame(v, obs0, k, s0) && RegFrame(v', obs0, k, s0) && n < |s0|
    requires v' == v.(slots := v.slots[k := v.slots[k][n := null]])
    requires RegObs(v, obs0, k, s0, n) && RegTodo(v, obs0, k, s0, n)
    requires n >= v.keypoints[k] || v.slots[k][n] !in v.obs
    ensures RegObs(v', obs0, k, s0, n + 1)
  {
    hide Survives, StillFormal, Backed, FrameFormal, ConsistentExcept;
  }

  /** Slots of k that no registered point names may change freely. */
  lemma BackedSlotsOnly(v: View, v': View, k: nat)
    requires Backed(v) && k in v.slots && k in v'.slots && v' == v.(slots := v.slots[k := v'.slots[k]])
    requires |v'.slots[k]| == |v.slots[k]|
    requires forall i :: 0 <= i < |v.slots[k]| && v'.slots[k][i] != v.slots[k][i] ==>
      k in v.keypoints && (i >= v.keypoints[k] || v.slots[k][i] == null || v.slots[k][i] !in v.obs)
    ensures Backed(v')
  {
  }

  lemma BackedAfterKeep(v: View, k: nat, p: MapPoint, f: nat)
    requires Backed(v) && k in v.slots && k in v.keypoints && p in v.obs
    requires f < v.keypoints[k] && f < |v.slots[k]| && v.slots[k][f] == p
    requires k in v.obs[p] ==> v.obs[p][k] == f
    ensures Backed(v.(slots := v.slots[k := KeepOnly(v.slots[k], p, Some(f))], obs := With(v.obs, p, k, f)))
  {
    var t := KeepOnly(v.slots[k], p, Some(f));
    var w := With(v.obs, p, k, f);
    forall q, x | q in w && x in w[q] && !(q == p && x == k)
      ensures x in v.obs[q] && w[q][x] == v.obs[q][x] && (x == k ==> q != p)
    {
    }
  }

  lemma RegisterFormal(v: View, obs0: ObsMap, k: nat, s0: Slots, n: nat, p: MapPoint)
    requires Registering(v, obs0, k, s0, n) && n < |s0| && v.slots[k][n] == p
    requires n < v.keypoints[k] && p in v.obs
    ensures Registering(SetSlot(v, k, n, p).0, obs0, k, s0, n + 1)
  {
    var f := if k in v.obs[p] then v.obs[p][k] else n;
    FormalSlotSurvives(v, obs0, k, s0, n, p, f);
    hide Survives, StillFormal, Backed, FrameFormal, RegDone, RegTodo, RegObs;
    var v' := v.(slots := v.slots[k := KeepOnly(v.slots[k], p, Some(f))], obs := With(v.obs, p, k, f));
    assert v' == SetSlot(v, k, n, p).0;
    hide SetSlot;
    RegisterFormalFrame(v, v', obs0, k, s0, p, f);
    RegisterFormalDone(v, v', obs0, k, s0, n, p, f);
    RegisterFormalObs(v, v', obs0, k, s0, n, p, f);
  }

  lemma RegisterFormalFrame(v: View, v': View, obs0: ObsMap, k: nat, s0: Slots, p: MapPoint, f: nat)
    requires RegFrame(v, obs0, k, s0) && p in v.obs
    requires f < |s0| && f < v.keypoints[k] && v.slots[k][f] == p && (k in v.obs[p] ==> v.obs[p][k] == f)
    requires v' == v.(slots := v.slots[k := KeepOnly(v.slots[k], p, Some(f))], obs := With(v.obs, p, k, f))
    ensures RegFrame(v', obs0, k, s0)
  {
    hide Backed, FrameFormal, KeepOnly;
    BackedAfterKeep(v, k, p, f);
    assert v'.obs[p] - {k} == v.obs[p] - {k};
    OtherFramesStayFormal(v, v', k);
  }

  lemma RegisterFormalDone(v: View, v': View, obs0: ObsMap, k: nat, s0: Slots, n: nat, p: MapPoint, f: nat)
    requires RegFrame(v, obs0, k, s0) && RegFrame(v', obs0, k, s0) && n < |s0| && v.slots[k][n] == p && p in v.obs
    requires RegDone(v, obs0, k, s0, n) && RegTodo(v, obs0, k, s0, n)
    requires f < |s0| && v.slots[k][f] == p && (k in v.obs[p] ==> v.obs[p][k] == f) && (k !in v.obs[p] ==> f == n)
    requires v' == v.(slots := v.slots[k := KeepOnly(v.slots[k], p, Some(f))], obs := With(v.obs, p, k, f))
    requires Survives(obs0, k, v.keypoints[k], s0, n) <==> f == n
    ensures RegDone(v', obs0, k, s0, n + 1) && RegTodo(v', obs0, k, s0, n + 1)
  {
    hide Survives, StillFormal, Backed, FrameFormal, ConsistentExcept;
    assert s0[n] == p;
    forall i | 0 <= i < n
      ensures v'.slots[k][i] == v.slots[k][i] && Formal(v', k, i)
    {
      assert Formal(v, k, i);
    }
  }

  lemma RegisterFormalObs(v: View, v': View, obs0: ObsMap, k: nat, s0: Slots, n: nat, p: MapPoint, f: nat)
    requires RegFrame(v, obs0, k, s0) && RegFrame(v', obs0, k, s0) && n < |s0| && v.slots[k][n] == p && p in v.obs
    requires RegObs(v, obs0, k, s0, n) && RegTodo(v, obs0, k, s0, n)
    requires (k in v.obs[p] ==> v.obs[p][k] == f) && (k !in v.obs[p] ==> f == n)
    requires v'.obs == With(v.obs, p, k, f) && v'.keypoints == v.keypoints
    ensures RegObs(v', obs0, k, s0, n + 1)
  {
    hide Survives, StillFormal, Backed, FrameFormal, Formal, ConsistentExcept;
    assert s0[n] == p;
  }

  /** The slot just met survives exactly when its point is, or now becomes, formal there. */
  lemma FormalSlotSurvives(v: View, obs0: ObsMap, k: nat, s0: Slots, n: nat, p: MapPoint, f: nat)
    requires Registering(v, obs0, k, s0, n) && n < |s0| && v.slots[k][n] == p
    requires n < v.keypoints[k] && p in v.obs && f == (if k in v.obs[p] then v.obs[p][k] else n)
    ensures Survives(obs0, k, v.keypoints[k], s0, n) <==> f == n
    ensures f < |s0| && f < v.keypoints[k] && v.slots[k][f] == p
  {
    assert s0[n] == p;
    if k !in v.obs[p] {
      forall j | 0 <= j < n
        ensures s0[j] != p
      {
      }
    } else if !StillFormal(obs0, k, v.keypoints[k], s0, p) {
      assert v.slots[k][f] == p && s0[f] == p;
    }
  }

  lemma {:induction false} RegisterDone(v: View, obs0: ObsMap, k: nat, s0: Slots)
    requires Registering(v, obs0, k, s0, |s0|)
    ensures k in v.slots && k in v.keypoints && Consistent(v)
    ensures FrameRepaired(v.obs, v.slots[k], obs0, k, v.keypoints[k], s0)
  {
    assert FrameFormal(v, k);
  }

  lemma RegisteringShape(v: View, obs0: ObsMap, k: nat, s0: Slots, n: nat)
    requires Registering(v, obs0, k, s0, n)
    ensures k in v.slots && |v.slots[k]| == |s0| && ConsistentExcept(v, k) && v.obs.Keys == obs0.Keys
    ensures forall p :: p in obs0 ==> v.obs[p] - {k} == obs0[p] - {k}
  {
  }

  // ---- does a repair change anything ---------------------------------------------

  /** From v0 to v keyframe k lost slots and gained observations, and nothing else happened. */
  ghost predicate Grows(v0: View, v: View, k: nat) {
    && v.points == v0.points && v.keypoints == v0.keypoints
    && GrowsSlots(v0.slots, v.slots, k) && GrowsObs(v0.obs, v.obs)
  }

  ghost predicate GrowsSlots(s0: map<nat, Slots>, s: map<nat, Slots>, k: nat) {
    && s.Keys == s0.Keys && (forall x :: x in s0 && x != k ==> s[x] == s0[x])
    && (k in s0 ==> |s[k]| == |s0[k]| && forall i :: 0 <= i < |s0[k]| ==> s[k][i] == s0[k][i] || s[k][i] == null)
  }

  ghost predicate GrowsObs(o0: ObsMap, o: ObsMap) {
    o.Keys == o0.Keys && forall p :: p in o0 ==> GrowsAt(o0[p], o[p])
  }

  ghost predicate GrowsAt(a: map<nat, nat>, b: map<nat, nat>) {
    forall x :: x in a ==> x in b && b[x] == a[x]
  }

  lemma GrowsSelf(v: View, k: nat)
    ensures Grows(v, v, k)
  {
  }

  lemma GrowsOn(v0: View, v1: View, v2: View, k: nat)
    requires Grows(v0, v1, k) && Grows(v1, v2, k)
    ensures Grows(v0, v2, k) && (v2 == v0 ==> v1 == v0)
  {
    if v2 == v0 {
      if k in v0.slots {
        assert v1.slots[k] == v0.slots[k];
      }
      assert v1.slots == v0.slots;
      forall p | p in v0.obs
        ensures v1.obs[p] == v0.obs[p]
      {
        assert GrowsAt(v0.obs[p], v1.obs[p]) && GrowsAt(v1.obs[p], v2.obs[p]);
      }
      assert v1.obs == v0.obs;
    }
  }

  lemma RegisterGrows(v: View, k: nat, n: nat)
    requires Indexed(v) && k in v.slots && n < |v.slots[k]|
    ensures Grows(v, RegisterSlot(v, k, n), k)
  {
  }

  /** A call on the slot's own point says that it changed something exactly if it did. */
  lemma SetSlotTells(v: View, k: nat, i: nat, p: MapPoint)
    requires Indexed(v) && k in v.slots && i < |v.slots[k]| && v.slots[k][i] == p
    ensures SetSlot(v, k, i, p).1 <==> SetSlot(v, k, i, p).0 != v
  {
    if p in v.obs && k in v.obs[p] {
      WithSame(v.obs, p, k, v.obs[p][k]);
    }
  }

  lemma EmptiedDiffers(v: View, k: nat, i: nat)
    requires k in v.slots && i < |v.slots[k]| && v.slots[k][i] != null
    ensures v.slots[k := v.slots[k][i := null]] != v.slots
  {
    assert v.slots[k := v.slots[k][i := null]][k][i] == null;
  }

  /** Some observation on k among these points is no longer backed by the overwritten slots. */
  ghost predicate AnyStale(obs: ObsMap, k: nat, keypoints: nat, s: Slots, done: set<MapPoint>) {
    exists p :: p in done && p in obs && k in obs[p] && !StillFormal(obs, k, keypoints, s, p)
  }

  lemma NoStale(obs: ObsMap, k: nat, keypoints: nat, s: Slots)
    ensures !AnyStale(obs, k, keypoints, s, {})
  {
  }

  lemma AnyStaleMore(obs: ObsMap, k: nat, keypoints: nat, s: Slots, done: set<MapPoint>, p: MapPoint)
    requires p in obs
    ensures AnyStale(obs, k, keypoints, s, done + {p}) <==>
      AnyStale(obs, k, keypoints, s, done) || (k in obs[p] && !StillFormal(obs, k, keypoints, s, p))
  {
    hide StillFormal;
  }

  /** A stale observation is gone for good: the repaired map differs from the overwritten one. */
  lemma StaleIsGone(v: View, obs0: ObsMap, k: nat, s0: Slots, p: MapPoint)
    requires Registering(v, obs0, k, s0, |s0|) && p in obs0 && k in obs0[p]
    requires !StillFormal(obs0, k, v.keypoints[k], s0, p)
    ensures v.obs != obs0
  {
    if k in v.obs[p] {
      var f := v.obs[p][k];
      assert Backed(v) && v.slots[k][f] == p;
    }
  }

  lemma NoneStale(obs: ObsMap, k: nat, keypoints: nat, s: Slots)
    requires !AnyStale(obs, k, keypoints, s, obs.Keys)
    ensures PrunedObs(obs, k, keypoints, s, obs.Keys) == obs
  {
    forall p | p in obs
      ensures PrunedObs(obs, k, keypoints, s, obs.Keys)[p] == obs[p]
    {
      assert k !in obs[p] ==> obs[p] - {k} == obs[p];
    }
  }

  /** Pruning and registering change something exactly if the observations or the slots end up different. */
  lemma RepairChanges(start: View, v: View, obs0: ObsMap, k: nat, s0: Slots)
    requires Registering(v, obs0, k, s0, |s0|) && k in start.slots && start.slots[k] == s0
    requires Grows(start, v, k) && start.obs == PrunedObs(obs0, k, v.keypoints[k], s0, obs0.Keys)
    ensures AnyStale(obs0, k, v.keypoints[k], s0, obs0.Keys) || v != start <==> v.obs != obs0 || v.slots[k] != s0
  {
    if AnyStale(obs0, k, v.keypoints[k], s0, obs0.Keys) {
      var p :| p in obs0 && k in obs0[p] && !StillFormal(obs0, k, v.keypoints[k], s0, p);
      StaleIsGone(v, obs0, k, s0, p);
    } else {
      NoneStale(obs0, k, v.keypoints[k], s0);
      assert v.slots[k] == s0 ==> v.slots == start.slots;
    }
  }

  // ---- tracking hits ---------------------------------------------------------

  /** Keyframe k observes p through a feature it did not observe it through before. */
  ghost predicate SeenAnew(before: ObsMap, after: ObsMap, k: nat, p: MapPoint) {
    p in after && k in after[p] && !(p in before && k in before[p] && before[p][k] == after[p][k])
  }

  /** The last hits after the newly seen points were hit at keyframe count n. */
  ghost function HitsAfter(hits: map<nat, nat>, before: ObsMap, after: ObsMap, k: nat, n: nat): map<nat, nat> {
    Hit(hits, NewlySeen(before, after, k), n)
  }

  /** The ids of these points. */
  ghost function NewlySeen(before: ObsMap, after: ObsMap, k: nat): set<nat> {
    set p | p in after && SeenAnew(before, after, k, p) :: p.id
  }

  ghost function Hit(hits: map<nat, nat>, ids: set<nat>, n: nat): map<nat, nat> {
    map id | id in hits.Keys + ids :: if id in ids then n else hits[id]
  }

  lemma NothingHit(hits: map<nat, nat>, before: ObsMap, after: ObsMap, k: nat, n: nat)
    requires forall p :: p in after && k in after[p] ==> p in before && k in before[p] && before[p][k] == after[p][k]
    ensures HitsAfter(hits, before, after, k, n) == hits
  {
    assert forall p :: p in after ==> !SeenAnew(before, after, k, p);
  }

  lemma OneMoreHit(hits: map<nat, nat>, before: ObsMap, after: ObsMap, k: nat, n: nat, p: MapPoint, f: nat)
    requires p in after && k !in after[p] && !(p in before && k in before[p] && before[p][k] == f)
    ensures HitsAfter(hits, before, With(after, p, k, f), k, n) == HitsAfter(hits, before, after, k, n)[p.id := n]
  {
    hide Hit, NewlySeen;
    OneMoreSeen(before, after, k, p, f);
    HitMore(hits, NewlySeen(before, after, k), p.id, n);
  }

  lemma HitMore(hits: map<nat, nat>, ids: set<nat>, x: nat, n: nat)
    ensures Hit(hits, ids + {x}, n) == Hit(hits, ids, n)[x := n]
  {
  }

  lemma OneMoreSeen(before: ObsMap, after: ObsMap, k: nat, p: MapPoint, f: nat)
    requires p in after && k !in after[p] && !(p in before && k in before[p] && before[p][k] == f)
    ensures NewlySeen(before, With(after, p, k, f), k) == NewlySeen(before, after, k) + {p.id}
  {
    hide With;
    WithAt(after, p, k, f);
    var next := With(after, p, k, f);
    assert SeenAnew(before, next, k, p);
    forall q | q in after && q != p
      ensures SeenAnew(before, next, k, q) <==> SeenAnew(before, after, k, q)
    {
    }
  }

  lemma WithAt(obs: ObsMap, p: MapPoint, k: nat, f: nat)
    requires p in obs
    ensures With(obs, p, k, f).Keys == obs.Keys && With(obs, p, k, f)[p] == obs[p][k := f]
    ensures forall q :: q in obs && q != p ==> With(obs, p, k, f)[q] == obs[q]
  {
  }

  /** When the repair starts nothing is newly seen. */
  lemma HitsStart(v: View, obs0: ObsMap, k: nat, s0: Slots, hits: map<nat, nat>, n: nat)
    requires Registering(v, obs0, k, s0, 0)
    ensures HitsAfter(hits, obs0, v.obs, k, n) == hits
  {
    NothingHit(hits, obs0, v.obs, k, n);
  }

  /** One slot of the repair loop hits exactly the point it binds anew. */
  lemma RegisterHits(v: View, obs0: ObsMap, k: nat, s0: Slots, i: nat, hits: map<nat, nat>, n: nat)
    requires Registering(v, obs0, k, s0, i) && i < |s0|
    ensures var p := v.slots[k][i];
            HitsAfter(hits, obs0, RegisterSlot(v, k, i).obs, k, n)
              == if p != null && BindsNew(v, k, i, p) then HitsAfter(hits, obs0, v.obs, k, n)[p.id := n]
                 else HitsAfter(hits, obs0, v.obs, k, n)
  {
    hide HitsAfter;
    var p := v.slots[k][i];
    if p != null && i < v.keypoints[k] && p in v.obs {
      if k in v.obs[p] {
        WithSame(v.obs, p, k, v.obs[p][k]);
      } else {
        OneMoreHit(hits, obs0, v.obs, k, n, p, i);
      }
    }
  }

  /** A slot that a call leaves alone already carries its formal observation. */
  lemma ConfirmedIsFormal(v: View, k: nat, i: nat, p: MapPoint)
    requires Indexed(v) && k in v.slots && i < |v.slots[k]| && v.slots[k][i] == p && i < v.keypoints[k]
    ensures p in v.obs && !SetSlot(v, k, i, p).1 ==>
      var v' := SetSlot(v, k, i, p).0;
      p in v'.obs && k in v'.obs[p] && v'.obs[p][k] == i
    ensures p in v.obs ==> RegisterSlot(v, k, i) == SetSlot(v, k, i, p).0
    ensures p !in v.obs ==> RegisterSlot(v, k, i) == v.(slots := v.slots[k := v.slots[k][i := null]])
  {
  }

  ghost function InsertFrame(v: View, k: nat, keypoints: nat, s: Slots): View {
    v.(slots := v.slots[k := s], keypoints := v.keypoints[k := keypoints])
  }

  /** A keyframe that was never registered has no reverse observations yet, whatever its slots hold. */
  lemma InsertFrameStart(v: View, k: nat, keypoints: nat, s: Slots)
    requires Consistent(v) && k !in v.slots
    ensures Registering(InsertFrame(v, k, keypoints, s), v.obs, k, s, 0)
    ensures forall p :: p in v.obs ==> k !in v.obs[p]
  {
    var w := InsertFrame(v, k, keypoints, s);
    forall x | x in w.slots && x != k
      ensures FrameFormal(w, x)
    {
      assert FrameFormal(v, x);
      forall j | 0 <= j < |w.slots[x]|
        ensures Formal(w, x, j)
      {
        assert Formal(v, x, j);
      }
    }
    RegisterStart(w, v.obs, k);
  }

  // ---- overwritten slots -----------------------------------------------

  /** The slots of k were overwritten behind the map's back: they used to be before. */
  ghost predicate Overwritten(v: View, k: nat, before: Slots) {
    k in v.slots && k in v.keypoints && Consistent(v.(slots := v.slots[k := before]))
  }

  ghost function PrunedObs(obs: ObsMap, k: nat, keypoints: nat, s: Slots, done: set<MapPoint>): ObsMap {
    map p | p in obs :: if p in done && !StillFormal(obs, k, keypoints, s, p) then obs[p] - {k} else obs[p]
  }

  lemma PruneOneMore(obs: ObsMap, k: nat, keypoints: nat, s: Slots, done: set<MapPoint>, p: MapPoint)
    requires p in obs && p !in done
    ensures var now := PrunedObs(obs, k, keypoints, s, done);
            var next := PrunedObs(obs, k, keypoints, s, done + {p});
            && now[p] == obs[p]
            && (k in obs[p] && !StillFormal(obs, k, keypoints, s, p) ==> next == Without(now, p, k))
            && (k !in obs[p] || StillFormal(obs, k, keypoints, s, p) ==> next == now)
  {
    if k !in obs[p] {
      assert obs[p] - {k} == obs[p];
    }
  }

  lemma OverwrittenStart(v: View, k: nat, before: Slots)
    requires Overwritten(v, k, before)
    ensures var obs := PrunedObs(v.obs, k, v.keypoints[k], v.slots[k], v.obs.Keys);
            Registering(v.(obs := obs), v.obs, k, v.slots[k], 0)
  {
    var v0 := v.(slots := v.slots[k := before]);
    var obs := PrunedObs(v.obs, k, v.keypoints[k], v.slots[k], v.obs.Keys);
    PrunedConsistent(v0, k, v.slots[k]);
    assert v0.(slots := v0.slots[k := v.slots[k]]) == v;
    assert Pruned(v, k).obs == obs;
    RegisterStart(v.(obs := obs), v.obs, k);
  }

  // ---- clearing a frame ------------------------------------------------

  ghost function FrameCleared(obs: ObsMap, k: nat, n: nat): ObsMap {
    map p | p in obs :: if k in obs[p] && obs[p][k] < n then obs[p] - {k} else obs[p]
  }

  lemma ClearOneMore(v: View, k: nat, n: nat)
    requires k in v.slots && FrameFormal(v, k) && Backed(v) && n < |v.slots[k]|
    ensures var p, now, next := v.slots[k][n], FrameCleared(v.obs, k, n), FrameCleared(v.obs, k, n + 1);
            && (p == null ==> next == now)
            && (p != null ==>
                  p in now && k in now[p] && now[p][k] == n && now[p] == v.obs[p] && next == Without(now, p, k))
  {
    assert Formal(v, k, n);
    var p := v.slots[k][n];
    forall q | q in v.obs && k in v.obs[q] && v.obs[q][k] == n
      ensures q == p
    {
    }
  }

  lemma ClearAll(v: View, k: nat)
    requires k in v.slots && Backed(v) && k in v.keypoints
    ensures FrameCleared(v.obs, k, 0) == v.obs
    ensures FrameCleared(v.obs, k, |v.slots[k]|) == RemoveFrame(v, k).obs
  {
    forall p | p in v.obs && k !in v.obs[p]
      ensures v.obs[p] - {k} == v.obs[p]
    {
    }
  }

  lemma PruneNone(obs: ObsMap, k: nat, keypoints: nat, s: Slots)
    ensures PrunedObs(obs, k, keypoints, s, {}) == obs
  {
  }

  lemma StillFormalMeans(obs: ObsMap, k: nat, keypoints: nat, s: Slots, p: MapPoint)
    requires p in obs
    ensures StillFormal(obs, k, keypoints, s, p) <==>
      k in obs[p] && obs[p][k] < keypoints && obs[p][k] < |s| && s[obs[p][k]] == p
  {
  }

  lemma OverwrittenIndexed(v: View, k: nat, before: Slots)
    requires Overwritten(v, k, before)
    ensures Indexed(v)
  {
    assert v.slots[k := before].Keys == v.slots.Keys;
  }

  lemma RemoveFrameParts(v: View, k: nat)
    ensures RemoveFrame(v, k) == View(v.points, v.keypoints - {k}, v.slots - {k}, RemoveFrame(v, k).obs)
  {
  }
}
