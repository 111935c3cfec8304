/** The map object: slots, reverse observations and covisibility counts updated in place. */
module SlamMap {
  import opened MapEntities
  import opened Covisibility
  import opened ObservationModel

  lemma SlotTwice(slots: map<nat, Slots>, k: nat, i: nat, p: MapPoint?)
    requires k in slots && i < |slots[k]|
    ensures var cleared := slots[k := slots[k][i := null]];
            cleared[k := cleared[k][i := p]] == slots[k := slots[k][i := p]]
  {
    assert slots[k][i := null][i := p] == slots[k][i := p];
  }

  /** The first n slots emptied. */
  ghost function NullsThen(s: Slots, n: nat): (r: Slots)
    requires n <= |s|
    ensures |r| == |s|
  {
    seq(|s|, j requires 0 <= j < |s| => if j < n then null else s[j])
  }

  lemma NullNone(s: Slots)
    ensures NullsThen(s, 0) == s
  {
  }

  lemma NullOneMore(s: Slots, n: nat)
    requires n < |s|
    ensures NullsThen(s, n)[n] == s[n]
    ensures NullsThen(s, n)[n := null] == NullsThen(s, n + 1)
    ensures s[n] == null ==> NullsThen(s, n) == NullsThen(s, n + 1)
  {
  }

  function PointIds(points: seq<MapPoint>): set<nat> {
    set p | p in points :: p.id
  }

  class Map {
    var mapPoints: map<nat, MapPoint>
    var keyframes: map<nat, Frame>
    var covisibility: CovTable
    var lastHit: map<nat, nat>
    var mpCount: nat
    var kfCount: nat
    var topology: nat
    var geometry: nat
    ghost var pointSet: set<MapPoint>  // the registered points
    ghost var frameSet: set<Frame>     // the registered keyframes

    ghost function KeypointMap(): map<nat, nat>
      reads this`keyframes
    {
      map k | k in keyframes :: keyframes[k].keypoints
    }

    ghost function SlotMap(): map<nat, Slots>
      reads this`keyframes, this`frameSet, frameSet`slots
    {
      map k | k in keyframes :: if keyframes[k] in frameSet then keyframes[k].slots else []
    }

    static ghost function ObsOver(counted: set<MapPoint>): ObsMap
      reads counted`obs
    {
      map p | p in counted :: p.obs
    }

    ghost function Observations(): ObsMap
      reads this`pointSet, pointSet`obs
    {
      ObsOver(pointSet)
    }

    ghost function Abs(): View
      reads this`mapPoints, this`pointSet, pointSet`obs, this`keyframes, this`frameSet, frameSet`slots
    {
      View(mapPoints, KeypointMap(), SlotMap(), Observations())
    }

    twostate lemma OneFrameChanged(frame: Frame)
      requires keyframes == old(keyframes) && frameSet == old(frameSet) && Filed()
      requires Has(frame)
      requires forall f :: f in frameSet && f != frame ==> f.slots == old(f.slots)
      ensures SlotMap() == old(SlotMap())[frame.id := frame.slots]
    {
    }

    /** Filing one more frame: what it does to the file, to the slots and to the keypoints. */
    twostate lemma StillFiled(frame: Frame)
      requires frame.id !in old(keyframes) && keyframes == old(keyframes)[frame.id := frame]
      requires frameSet == old(frameSet) + {frame}
      requires old(Filed()) && mapPoints == old(mapPoints) && pointSet == old(pointSet)
      requires mpCount == old(mpCount) && kfCount == old(kfCount) + 1
      ensures Filed()
    {
    }

    twostate lemma FrameFiled(frame: Frame)
      requires frame.id !in old(keyframes) && keyframes == old(keyframes)[frame.id := frame]
      requires frameSet == old(frameSet) + {frame} && old(Filed())
      requires forall f :: f in frameSet ==> f.slots == old(f.slots)
      ensures SlotMap() == old(SlotMap())[frame.id := frame.slots]
    {
    }

    twostate lemma KeypointsFiled(frame: Frame)
      requires frame.id !in old(keyframes) && keyframes == old(keyframes)[frame.id := frame]
      ensures KeypointMap() == old(KeypointMap())[frame.id := frame.keypoints]
    {
    }

    lemma FrameSlots(frame: Frame)
      requires Has(frame)
      ensures frame.id in SlotMap() && SlotMap()[frame.id] == frame.slots
    {
    }

    lemma FrameKeypoints(frame: Frame)
      requires Has(frame)
      ensures frame.id in KeypointMap() && KeypointMap()[frame.id] == frame.keypoints
    {
    }

    lemma SlotMapKeys()
      ensures SlotMap().Keys == keyframes.Keys
    {
    }

    ghost predicate Has(frame: Frame)
      reads this`keyframes, this`frameSet
    {
      frame in frameSet && frame.id in keyframes && keyframes[frame.id] == frame
    }

    /** Objects are filed under their own ids and the counters are exact. */
    ghost predicate Filed()
      reads this`keyframes, this`mapPoints, this`mpCount, this`kfCount, this`pointSet, this`frameSet
    {
      && (forall id :: id in keyframes ==> keyframes[id].id == id && keyframes[id] in frameSet)
      && (forall f :: f in frameSet ==> f.id in keyframes && keyframes[f.id] == f)
      && (forall id :: id in mapPoints ==> mapPoints[id].id == id && mapPoints[id] in pointSet)
      && (forall p :: p in pointSet ==> p.id in mapPoints && mapPoints[p.id] == p)
      && mpCount == |mapPoints| && kfCount == |keyframes|
    }

    ghost predicate Valid()
      reads this, pointSet`obs, frameSet`slots
    {
      Filed() && Consistent(Abs()) && IsCov(Observations(), covisibility)
    }

    /** Valid up to the slots of frame k, which the front end may have overwritten. */
    ghost predicate ValidExcept(k: nat)
      reads this, pointSet`obs, frameSet`slots
    {
      Filed() && ConsistentExcept(Abs(), k) && IsCov(Observations(), covisibility)
    }

    constructor ()
      ensures Valid() && mapPoints == map[] && keyframes == map[] && covisibility == map[] && lastHit == map[]
      ensures topology == geometry == 0
    {
      mapPoints, keyframes, covisibility, lastHit := map[], map[], map[], map[];
      mpCount, kfCount, topology, geometry := 0, 0, 0, 0;
      pointSet, frameSet := {}, {};
    }

    lemma ObsKeys()
      ensures Observations().Keys == pointSet
      ensures forall p :: p in pointSet ==> Observations()[p] == p.obs
    {
    }

    lemma FiledPoint(id: nat)
      requires Filed() && id in mapPoints
      ensures mapPoints[id].id == id && mapPoints[id] in pointSet
      ensures forall p :: p in pointSet && p.id == id ==> p == mapPoints[id]
    {
    }

    lemma FiledUnder(k: nat)
      requires Filed() && k in keyframes
      ensures keyframes[k].id == k && keyframes[k] in frameSet
    {
    }

    // ---- covisibility counts -------------------------------------------

    method AddCovisibility(k: nat, p: MapPoint)
      requires Ordered(covisibility)
      modifies this`covisibility
      ensures Ordered(covisibility) && Bumped(old(covisibility), covisibility, k, p.obs.Keys - {k})
    {
      var todo := p.obs.Keys - {k};
      ghost var done: set<nat> := {};
      while todo != {}
        invariant k !in todo && done !! todo && done + todo == p.obs.Keys - {k}
        invariant Ordered(covisibility) && Bumped(old(covisibility), covisibility, k, done)
        decreases todo
      {
        var x :| x in todo;
        var key := MinMax(x, k);
        BumpOneMore(old(covisibility), covisibility, k, done, x);
        covisibility := Incremented(covisibility, key);
        todo, done := todo - {x}, done + {x};
      }
      assert done == p.obs.Keys - {k};
    }

    method RemoveCovisibility(k: nat, p: MapPoint)
      requires Ordered(covisibility) && forall x :: x in p.obs && x != k ==> MinMax(x, k) in covisibility
      modifies this`covisibility
      ensures Ordered(covisibility) && Bumped(covisibility, old(covisibility), k, p.obs.Keys - {k})
    {
      var todo := p.obs.Keys - {k};
      ghost var done: set<nat> := {};
      while todo != {}
        invariant k !in todo && done !! todo && done + todo == p.obs.Keys - {k}
        invariant forall x :: x in todo ==> MinMax(x, k) in covisibility
        invariant Ordered(covisibility) && Bumped(covisibility, old(covisibility), k, done)
        decreases todo
      {
        var x :| x in todo;
        var key := MinMax(x, k);
        UnbumpOneMore(old(covisibility), covisibility, k, done, x);
        if key in covisibility {
          covisibility := Decremented(covisibility, key);
        }
        todo, done := todo - {x}, done + {x};
      }
      assert done == p.obs.Keys - {k};
    }

    method AddObservationUnlocked(k: nat, i: nat, p: MapPoint) returns (added: bool)
      requires p in pointSet && IsCov(Observations(), covisibility)
      modifies this`covisibility, this`lastHit, p`obs
      ensures added <==> k !in old(p.obs)
      ensures !added ==> p.obs == old(p.obs) && covisibility == old(covisibility)
      ensures added ==> Observations() == With(old(Observations()), p, k, i)
      ensures IsCov(Observations(), covisibility)
      ensures lastHit == if added then old(lastHit)[p.id := kfCount] else old(lastHit)
    {
      ghost var obs, before := Observations(), covisibility;
      added := p.AddObservation(k, i);
      if !added {
        return;
      }
      AddCovisibility(k, p);
      assert p.obs.Keys - {k} == old(p.obs).Keys;
      assert Observations() == With(obs, p, k, i);
      CovAfterAdd(obs, p, k, i, before, covisibility);
      lastHit := lastHit[p.id := kfCount];
    }

    /** Withdraw p's formal observation on k together with its covisibility; counted are the points in the table. */
    method WithdrawObservation(k: nat, p: MapPoint, ghost counted: set<MapPoint>)
      requires p in counted && k in p.obs && IsCov(ObsOver(counted), covisibility)
      modifies this`covisibility, p`obs
      ensures p.obs == old(p.obs) - {k}
      ensures ObsOver(counted) == Without(old(ObsOver(counted)), p, k)
      ensures IsCov(ObsOver(counted), covisibility)
    {
      ghost var obs, before := ObsOver(counted), covisibility;
      SharedIsPositive(obs, p, k, covisibility);
      RemoveCovisibility(k, p);
      var removed := p.RemoveObservation(k, p.obs[k]);
      assert ObsOver(counted) == Without(obs, p, k);
      CovAfterRemove(obs, p, k, before, covisibility);
    }

    /** Observe p from feature i of k in place of the point that held the feature, if any. */
    method SwapObservation(k: nat, i: nat, p: MapPoint, previous: MapPoint?)
      requires IsCov(Observations(), covisibility) && p in pointSet && k !in p.obs
      requires previous != null ==> previous != p && previous in pointSet && k in previous.obs
      modifies this`covisibility, this`lastHit, pointSet`obs
      ensures Observations() == if previous == null then With(old(Observations()), p, k, i)
                                else Without(With(old(Observations()), p, k, i), previous, k)
      ensures IsCov(Observations(), covisibility) && lastHit == old(lastHit)[p.id := kfCount]
    {
      hide IsCov, With, Without;
      var added := AddObservationUnlocked(k, i, p);
      if previous != null {
        WithdrawObservation(k, previous, pointSet);
      }
    }

    // ---- slots ---------------------------------------------------------

    method ClearDuplicateSlots(frame: Frame, p: MapPoint, keep: Option<nat>) returns (changed: bool)
      modifies frame`slots
      ensures frame.slots == KeepOnly(old(frame.slots), p, keep)
      ensures changed <==> frame.slots != old(frame.slots)
    {
      changed := false;
      var i := 0;
      while i < |frame.slots|
        invariant 0 <= i <= |frame.slots| == |old(frame.slots)|
        invariant forall j :: 0 <= j < i ==> frame.slots[j] == KeepOnly(old(frame.slots), p, keep)[j]
        invariant forall j :: i <= j < |frame.slots| ==> frame.slots[j] == old(frame.slots)[j]
        invariant changed <==> frame.slots != old(frame.slots)
      {
        if Some(i) != keep && frame.slots[i] == p {
          frame.slots := frame.slots[i := null];
          changed := true;
          assert frame.slots[i] != old(frame.slots)[i];
        }
        i := i + 1;
      }
    }

    method SetObservationUnlocked(frame: Frame, i: nat, p: MapPoint) returns (changed: bool)
      requires Has(frame) && ValidExcept(frame.id)
      requires i < |frame.slots| && frame.slots[i] != p ==> FrameFormal(Abs(), frame.id)
      modifies this`covisibility, this`lastHit, frame`slots, pointSet`obs
      ensures (Abs(), changed) == SetSlot(old(Abs()), frame.id, i, p)
      ensures IsCov(Observations(), covisibility)
      ensures lastHit == if BindsNew(old(Abs()), frame.id, i, p) then old(lastHit)[p.id := kfCount] else old(lastHit)
    {
      hide FrameFormal, Backed, SetSlot, Filed, With, Without, IsCov, SlotMap, KeypointMap, Observations, ObsOver,
           KeepOnly;
      ObsKeys();
      FrameSlots(frame);
      FrameKeypoints(frame);
      Registered(Abs(), p);
      SetSlotRejects(Abs(), frame.id, i, p);
      if i >= frame.keypoints || i >= |frame.slots| || p.id !in mapPoints || mapPoints[p.id] != p {
        return false;
      }
      var existing := p.FeatureIndex(frame.id);
      if existing.Some? && existing.value != i && frame.slots[i] != p {
        return false;
      }
      if frame.slots[i] == p {
        SetOwnSlot(Abs(), frame.id, i, p, if existing.Some? then existing.value else i);
        changed := ConfirmSlot(frame, i, p, existing);
      } else if existing.Some? {
        changed := false;
      } else {
        if frame.slots[i] != null {
          SlotFacts(Abs(), frame.id, i, frame.slots[i]);
        }
        SetOtherSlot(Abs(), frame.id, i, p);
        RebindSlot(frame, i, p);
        changed := true;
      }
    }

    /** The same, seen from the map. */
    method ClearDuplicatesOnFrame(frame: Frame, p: MapPoint, keep: Option<nat>) returns (changed: bool)
      requires Filed() && Has(frame)
      modifies frame`slots
      ensures SlotMap() == old(SlotMap())[frame.id := KeepOnly(old(SlotMap())[frame.id], p, keep)]
      ensures changed <==> SlotMap()[frame.id] != old(SlotMap())[frame.id]
    {
      changed := ClearDuplicateSlots(frame, p, keep);
      OneFrameChanged(frame);
    }

    method AssignSlot(frame: Frame, i: nat, p: MapPoint?)
      requires Filed() && Has(frame) && i < |frame.slots|
      modifies frame`slots
      ensures SlotMap() == old(SlotMap())[frame.id := old(SlotMap())[frame.id][i := p]]
    {
      frame.slots := frame.slots[i := p];
      OneFrameChanged(frame);
    }

    /** The slot already holds p: make p formal here unless another slot is, and drop its duplicates. */
    method ConfirmSlot(frame: Frame, i: nat, p: MapPoint, existing: Option<nat>) returns (changed: bool)
      requires Filed() && IsCov(Observations(), covisibility)
      requires Has(frame) && p in pointSet
      requires existing == if frame.id in p.obs then Some(p.obs[frame.id]) else None
      modifies this`covisibility, this`lastHit, frame`slots, p`obs
      ensures var f := if existing.Some? then existing.value else i;
              && SlotMap() == old(SlotMap())[frame.id := KeepOnly(old(SlotMap())[frame.id], p, Some(f))]
              && Observations() == With(old(Observations()), p, frame.id, f)
      ensures changed <==> existing.None? || SlotMap()[frame.id] != old(SlotMap())[frame.id]
      ensures IsCov(Observations(), covisibility)
      ensures lastHit == if existing.None? then old(lastHit)[p.id := kfCount] else old(lastHit)
    {
      hide IsCov, With, KeepOnly, Filed, SlotMap, Observations, ObsOver;
      ObsKeys();
      FrameSlots(frame);
      if existing.Some? {
        // either the formal slot is another one and this is a stale copy, or it is this one
        changed := ClearDuplicatesOnFrame(frame, p, existing);
        WithSame(Observations(), p, frame.id, existing.value);
      } else {
        var added := AddObservationUnlocked(frame.id, i, p);
        var _ := ClearDuplicatesOnFrame(frame, p, Some(i));
        changed := true;
      }
    }

    /** The slot is free or holds another point, and p has no observation on this frame. */
    method RebindSlot(frame: Frame, i: nat, p: MapPoint)
      requires Filed() && IsCov(Observations(), covisibility)
      requires Has(frame) && p in pointSet
      requires i < |frame.slots| && frame.id !in p.obs
      requires var q := frame.slots[i];
               q != null ==> && q != p && q in pointSet && frame.id in q.obs
                             && KeepOnly(frame.slots, q, None) == frame.slots[i := null]
      modifies this`covisibility, this`lastHit, frame`slots, pointSet`obs
      ensures SlotMap() == old(SlotMap())[frame.id := old(SlotMap())[frame.id][i := p]]
      ensures var q := old(frame.slots[i]);
              Observations() == if q == null then With(old(Observations()), p, frame.id, i)
                                else Without(With(old(Observations()), p, frame.id, i), q, frame.id)
      ensures IsCov(Observations(), covisibility) && lastHit == old(lastHit)[p.id := kfCount]
    {
      hide IsCov, With, Without, Filed, KeepOnly, SlotMap, Observations, ObsOver;
      FrameSlots(frame);
      var previous := frame.slots[i];
      ghost var slots := SlotMap();
      SwapObservation(frame.id, i, p, previous);
      if previous != null {
        var _ := ClearDuplicatesOnFrame(frame, previous, None);
        SlotTwice(slots, frame.id, i, p);
      }
      FrameSlots(frame);
      AssignSlot(frame, i, p);
    }

    // ---- public slot operations ----------------------------------------

    method SetObservation(frame: Frame, i: nat, p: MapPoint) returns (changed: bool)
      requires Valid()
      modifies this`covisibility, this`lastHit, this`topology, frame`slots, pointSet`obs
      ensures Valid()
      ensures (Abs(), changed) == if frame.id in keyframes && keyframes[frame.id] == frame
                                  then SetSlot(old(Abs()), frame.id, i, p) else (old(Abs()), false)
      ensures topology == old(topology) + if changed then 1 else 0
      ensures !changed ==> covisibility == old(covisibility)
      ensures lastHit == if changed then old(lastHit)[p.id := kfCount] else old(lastHit)
    {
      hide Consistent, IsCov, SetSlot, Filed, SlotMap, KeypointMap, ObsOver;
      if frame.id !in keyframes || keyframes[frame.id] != frame {
        return false;
      }
      FiledUnder(frame.id);
      changed := SetObservationLocked(frame, i, p);
      if changed {
        topology := topology + 1;
      } else {
        CovIsUnique(Observations(), old(covisibility), covisibility);
      }
    }

    method SetObservationLocked(frame: Frame, i: nat, p: MapPoint) returns (changed: bool)
      requires Valid() && Has(frame)
      modifies this`covisibility, this`lastHit, frame`slots, pointSet`obs
      ensures Valid()
      ensures (Abs(), changed) == SetSlot(old(Abs()), frame.id, i, p)
      ensures !changed ==> Abs() == old(Abs())
      ensures lastHit == if changed then old(lastHit)[p.id := kfCount] else old(lastHit)
    {
      hide SetSlot, Consistent, ConsistentExcept, FrameFormal, Backed, Indexed, IsCov, Filed;
      SetSlotOnConsistent(Abs(), frame.id, i, p);
      FrameFacts(Abs(), frame.id);
      changed := SetObservationUnlocked(frame, i, p);
    }

    method ClearObservation(k: nat, i: nat) returns (changed: bool)
      requires Valid()
      modifies this`covisibility, this`topology, frameSet`slots, pointSet`obs
      ensures Valid()
      ensures (Abs(), changed) == ClearSlot(old(Abs()), k, i)
      ensures topology == old(topology) + if changed then 1 else 0
      ensures !changed ==> covisibility == old(covisibility)
    {
      hide Consistent, IsCov, ClearSlot, Filed, SlotMap, KeypointMap, Observations;
      SlotMapKeys();
      ClearSlotOnConsistent(Abs(), k, i);
      if k !in keyframes {
        return false;
      }
      FiledUnder(k);
      FrameSlots(keyframes[k]);
      if i >= |keyframes[k].slots| || keyframes[k].slots[i] == null {
        return false;
      }
      ClearObservationLocked(keyframes[k], i, keyframes[k].slots[i]);
      topology := topology + 1;
      changed := true;
    }

    method ClearObservationLocked(frame: Frame, i: nat, p: MapPoint)
      requires Valid() && Has(frame)
      requires i < |frame.slots| && frame.slots[i] == p
      modifies this`covisibility, frame`slots, pointSet`obs
      ensures Valid() && Abs() == ClearSlot(old(Abs()), frame.id, i).0
    {
      hide ClearSlot, Consistent, FrameFormal, Formal, Backed, Indexed, IsCov, Without, Filed;
      FrameFacts(Abs(), frame.id);
      ClearSlotOnConsistent(Abs(), frame.id, i);
      SlotFacts(Abs(), frame.id, i, p);
      ClearFormalSlot(Abs(), frame.id, i, p);
      ClearFormal(frame, i, p);
    }

    /** On a consistent map the point of a slot is formal on that very slot. */
    method ClearFormal(frame: Frame, i: nat, p: MapPoint)
      requires Filed() && IsCov(Observations(), covisibility)
      requires Has(frame)
      requires i < |frame.slots| && frame.slots[i] == p && p in pointSet && frame.id in p.obs
      requires KeepOnly(frame.slots, p, None) == frame.slots[i := null]
      modifies this`covisibility, frame`slots, p`obs
      ensures SlotMap() == old(SlotMap())[frame.id := old(SlotMap())[frame.id][i := null]]
      ensures Observations() == Without(old(Observations()), p, frame.id)
      ensures IsCov(Observations(), covisibility)
    {
      hide IsCov, Without, Filed;
      WithdrawObservation(frame.id, p, pointSet);
      var _ := ClearDuplicatesOnFrame(frame, p, None);
    }

    // ---- repairing and removing keyframes ------------------------------

    method RegisterOne(frame: Frame, i: nat) returns (changed: bool)
      requires Has(frame) && ValidExcept(frame.id) && i < |frame.slots|
      modifies this`covisibility, this`lastHit, frame`slots, pointSet`obs
      ensures Abs() == RegisterSlot(old(Abs()), frame.id, i)
      ensures IsCov(Observations(), covisibility)
      ensures var p := old(frame.slots[i]);
              lastHit == if p != null && BindsNew(old(Abs()), frame.id, i, p) then old(lastHit)[p.id := kfCount]
                         else old(lastHit)
      ensures changed <==> Abs() != old(Abs())
    {
      hide FrameFormal, Backed, SetSlot, Filed, IsCov;
      var p := frame.slots[i];
      if p == null {
        return false;
      }
      FrameSlots(frame);
      SetSlotTells(Abs(), frame.id, i, p);
      EmptiedDiffers(Abs(), frame.id, i);
      Registered(Abs(), p);
      if i >= frame.keypoints {
        AssignSlot(frame, i, null);
        return true;
      }
      SetSlotRejects(Abs(), frame.id, i, p);
      ConfirmedIsFormal(Abs(), frame.id, i, p);
      changed := SetObservationUnlocked(frame, i, p);
      if !changed && (p.id !in mapPoints || mapPoints[p.id] != p || !p.HasObservation(frame.id, i)) {
        AssignSlot(frame, i, null);
        changed := true;
      }
    }

    /** One slot further in the repair of frame, which began at view start with these last hits. */
    method RegisterNext(frame: Frame, i: nat, ghost obs0: ObsMap, ghost s0: Slots, ghost start: View,
                        ghost hits: map<nat, nat>) returns (changed: bool)
      requires Has(frame) && Filed() && IsCov(Observations(), covisibility)
      requires i < |frame.slots| && Registering(Abs(), obs0, frame.id, s0, i) && Grows(start, Abs(), frame.id)
      requires lastHit == HitsAfter(hits, obs0, Observations(), frame.id, kfCount)
      modifies this`covisibility, this`lastHit, frame`slots, pointSet`obs
      ensures Filed() && IsCov(Observations(), covisibility) && |frame.slots| == |s0|
      ensures Registering(Abs(), obs0, frame.id, s0, i + 1) && Grows(start, Abs(), frame.id)
      ensures lastHit == HitsAfter(hits, obs0, Observations(), frame.id, kfCount)
      ensures changed || old(Abs()) != start <==> Abs() != start
    {
      hide IsCov, Filed, Registering, Grows, RegisterSlot, HitsAfter, Observations, Abs, SlotMap, KeypointMap, BindsNew,
           FrameFormal, Backed;
      ghost var v := Abs();
      AbsObs();
      AbsFrame(frame);
      RegisteringShape(v, obs0, frame.id, s0, i);
      RegisterStep(v, obs0, frame.id, s0, i);
      RegisterHits(v, obs0, frame.id, s0, i, hits, kfCount);
      RegisterGrows(v, frame.id, i);
      GrowsOn(start, v, RegisterSlot(v, frame.id, i), frame.id);
      changed := RegisterOne(frame, i);
      RegisteringShape(Abs(), obs0, frame.id, s0, i + 1);
      AbsObs();
      AbsFrame(frame);
    }

    /** Register the slots of a frame whose observations were pruned to obs0's still formal ones. */
    method RegisterKeyframeObservations(frame: Frame, ghost obs0: ObsMap) returns (changed: bool)
      requires Has(frame)
      requires Filed() && IsCov(Observations(), covisibility)
      requires Registering(Abs(), obs0, frame.id, frame.slots, 0)
      modifies this`covisibility, this`lastHit, frame`slots, pointSet`obs
      ensures Registering(Abs(), obs0, frame.id, old(frame.slots), |old(frame.slots)|)
      ensures Filed() && IsCov(Observations(), covisibility)
      ensures lastHit == HitsAfter(old(lastHit), obs0, Observations(), frame.id, kfCount)
      ensures (changed <==> Abs() != old(Abs())) && Grows(old(Abs()), Abs(), frame.id)
    {
      hide IsCov, Filed, Registering, Grows, HitsAfter, Abs, Observations;
      AbsObs();
      changed := false;
      ghost var s0, start, hits := frame.slots, Abs(), lastHit;
      HitsStart(start, obs0, frame.id, s0, hits, kfCount);
      GrowsSelf(start, frame.id);
      var i := 0;
      while i < |frame.slots|
        invariant 0 <= i <= |s0| == |frame.slots|
        invariant Registering(Abs(), obs0, frame.id, s0, i) && Grows(start, Abs(), frame.id)
        invariant Filed() && IsCov(Observations(), covisibility)
        invariant lastHit == HitsAfter(hits, obs0, Observations(), frame.id, kfCount)
        invariant changed <==> Abs() != start
      {
        var c := RegisterNext(frame, i, obs0, s0, start, hits);
        changed := changed || c;
        i := i + 1;
      }
    }

    lemma AbsFrame(frame: Frame)
      requires Has(frame)
      ensures frame.id in Abs().slots && Abs().slots[frame.id] == frame.slots
      ensures frame.id in Abs().keypoints && Abs().keypoints[frame.id] == frame.keypoints
    {
    }

    lemma AbsObs()
      ensures Abs().obs == Observations()
    {
    }

    method InsertKeyFrame(frame: Frame)
      requires Valid()
      modifies this`keyframes, this`frameSet, this`kfCount, this`covisibility, this`lastHit, this`topology
      modifies frame`slots, frame`isKeyframe, pointSet`obs
      ensures Valid()
      ensures frame.id in old(keyframes) ==>
        && keyframes == old(keyframes) && frameSet == old(frameSet) && Abs() == old(Abs())
        && topology == old(topology) && covisibility == old(covisibility)
      ensures frame.id !in old(keyframes) ==>
        && keyframes == old(keyframes)[frame.id := frame] && topology == old(topology) + 1
        && FrameRepaired(Observations(), frame.slots, old(Observations()), frame.id, frame.keypoints, old(frame.slots))
      ensures lastHit == if frame.id in old(keyframes) then old(lastHit)
                         else HitsAfter(old(lastHit), old(Observations()), Observations(), frame.id, kfCount)
    {
      hide Consistent, IsCov, Filed, FrameRepaired, Registering, ObsOver, HitsAfter;
      if frame.id !in keyframes {
        FileKeyFrame(frame);
        var _ := RepairFrame(frame, Observations());
        topology := topology + 1;
      }
    }

    method FileKeyFrame(frame: Frame)
      requires Valid() && frame.id !in keyframes
      modifies this`keyframes, this`frameSet, this`kfCount, frame`isKeyframe
      ensures keyframes == old(keyframes)[frame.id := frame] && frame.isKeyframe && Filed() && Has(frame)
      ensures Observations() == old(Observations())
      ensures Registering(Abs(), Observations(), frame.id, frame.slots, 0)
    {
      hide IsCov, Consistent, Registering, ObsOver, Filed, SlotMap, KeypointMap, Observations, Abs, InsertFrame;
      ghost var v := Abs();
      AbsParts();
      SlotMapKeys();
      InsertFrameStart(v, frame.id, frame.keypoints, frame.slots);
      FileFrame(frame);
      AbsParts();
      InsertFrameParts(v, frame.id, frame.keypoints, frame.slots);
    }

    lemma InsertFrameParts(v: View, k: nat, keypoints: nat, s: Slots)
      ensures InsertFrame(v, k, keypoints, s) == View(v.points, v.keypoints[k := keypoints], v.slots[k := s], v.obs)
    {
    }

    method FileFrame(frame: Frame)
      requires Filed() && frame.id !in keyframes
      modifies this`keyframes, this`frameSet, this`kfCount, frame`isKeyframe
      ensures keyframes == old(keyframes)[frame.id := frame] && frame.isKeyframe && Filed() && Has(frame)
      ensures SlotMap() == old(SlotMap())[frame.id := frame.slots]
      ensures KeypointMap() == old(KeypointMap())[frame.id := frame.keypoints]
    {
      hide Filed, SlotMap, KeypointMap;
      frame.isKeyframe := true;
      keyframes := keyframes[frame.id := frame];
      frameSet := frameSet + {frame};
      kfCount := kfCount + 1;
      StillFiled(frame);
      FrameFiled(frame);
      KeypointsFiled(frame);
    }

    /** Bring a frame whose slots are arbitrary back under the map invariant. */
    method RepairFrame(frame: Frame, ghost obs0: ObsMap) returns (changed: bool)
      requires Has(frame)
      requires Filed() && IsCov(Observations(), covisibility)
      requires Registering(Abs(), obs0, frame.id, frame.slots, 0)
      modifies this`covisibility, this`lastHit, frame`slots, pointSet`obs
      ensures Valid()
      ensures FrameRepaired(Observations(), frame.slots, obs0, frame.id, frame.keypoints, old(frame.slots))
      ensures lastHit == HitsAfter(old(lastHit), obs0, Observations(), frame.id, kfCount)
      ensures Registering(Abs(), obs0, frame.id, old(frame.slots), |old(frame.slots)|)
      ensures (changed <==> Abs() != old(Abs())) && Grows(old(Abs()), Abs(), frame.id)
    {
      hide IsCov, Consistent, Registering, FrameRepaired, Filed, HitsAfter, Grows;
      changed := RegisterKeyframeObservations(frame, obs0);
      RegisterDone(Abs(), obs0, frame.id, old(frame.slots));
    }

    /** Drop the observations on the frame that its overwritten slots no longer back. */
    method PruneObservations(frame: Frame) returns (changed: bool)
      requires Filed() && Has(frame)
      requires IsCov(Observations(), covisibility) && Indexed(Abs())
      modifies this`covisibility, pointSet`obs
      ensures Observations() == PrunedObs(old(Observations()), frame.id, frame.keypoints, frame.slots, pointSet)
      ensures IsCov(Observations(), covisibility)
      ensures changed <==> AnyStale(old(Observations()), frame.id, frame.keypoints, frame.slots, pointSet)
    {
      hide IsCov, Filed, PrunedObs, Without, StillFormal, AnyStale;
      NoStale(Observations(), frame.id, frame.keypoints, frame.slots);
      ghost var obs := Observations();
      ghost var done: set<MapPoint> := {};
      var todo := mapPoints.Keys;
      changed := false;
      PruneNone(obs, frame.id, frame.keypoints, frame.slots);
      while todo != {}
        invariant todo <= mapPoints.Keys && done <= pointSet
        invariant forall p :: p in pointSet ==> (p in done <==> p.id !in todo)
        invariant Observations() == PrunedObs(obs, frame.id, frame.keypoints, frame.slots, done)
        invariant IsCov(Observations(), covisibility)
        invariant changed <==> AnyStale(obs, frame.id, frame.keypoints, frame.slots, done)
        decreases todo
      {
        var id :| id in todo;
        var p := mapPoints[id];
        FiledPoint(id);
        AnyStaleMore(obs, frame.id, frame.keypoints, frame.slots, done, p);
        var dropped := PruneOne(frame, p, obs, done);
        changed := changed || dropped;
        todo, done := todo - {id}, done + {p};
      }
      assert done == pointSet;
    }

    /** Drop p's observation on the frame if the slots no longer back it. */
    method PruneOne(frame: Frame, p: MapPoint, ghost obs: ObsMap, ghost done: set<MapPoint>) returns (dropped: bool)
      requires p in pointSet && p in obs && p !in done && IsCov(Observations(), covisibility)
      requires Observations() == PrunedObs(obs, frame.id, frame.keypoints, frame.slots, done)
      modifies this`covisibility, p`obs
      ensures Observations() == PrunedObs(obs, frame.id, frame.keypoints, frame.slots, done + {p})
      ensures IsCov(Observations(), covisibility)
      ensures dropped <==> frame.id in obs[p] && !StillFormal(obs, frame.id, frame.keypoints, frame.slots, p)
    {
      hide IsCov, PrunedObs, Without, StillFormal, ObsOver;
      ObsKeys();
      PruneOneMore(obs, frame.id, frame.keypoints, frame.slots, done, p);
      StillFormalMeans(obs, frame.id, frame.keypoints, frame.slots, p);
      dropped := false;
      if frame.id in p.obs {
        var f := p.obs[frame.id];
        if f >= frame.keypoints || f >= |frame.slots| || frame.slots[f] != p {
          WithdrawObservation(frame.id, p, pointSet);
          dropped := true;
        }
      }
    }

    method SyncKeyframeObservations(frame: Frame, ghost before: Slots) returns (changed: bool)
      requires Has(frame)
      requires Filed() && IsCov(Observations(), covisibility) && Overwritten(Abs(), frame.id, before)
      modifies this`covisibility, this`lastHit, this`topology, frame`slots, pointSet`obs
      ensures Valid()
      ensures FrameRepaired(Observations(), frame.slots,
                            old(Observations()), frame.id, frame.keypoints, old(frame.slots))
      ensures topology == old(topology) + if changed then 1 else 0
      ensures lastHit == HitsAfter(old(lastHit), old(Observations()), Observations(), frame.id, kfCount)
      ensures changed <==> Observations() != old(Observations()) || frame.slots != old(frame.slots)
    {
      hide IsCov, Filed, Overwritten, Registering, Consistent, FrameRepaired, Indexed, ObsOver, SlotMap, KeypointMap,
           Observations, Abs, HitsAfter, AnyStale, PrunedObs, Grows;
      ghost var obs0, s0 := Observations(), frame.slots;
      ObsKeys();
      var pruned := StartRepair(frame, before);
      ghost var start := Abs();
      AbsObs();
      AbsFrame(frame);
      var registered := RepairFrame(frame, obs0);
      AbsObs();
      AbsFrame(frame);
      RepairChanges(start, Abs(), obs0, frame.id, s0);
      changed := pruned || registered;
      topology := topology + if changed then 1 else 0;
    }

    method StartRepair(frame: Frame, ghost before: Slots) returns (changed: bool)
      requires Has(frame)
      requires Filed() && IsCov(Observations(), covisibility) && Overwritten(Abs(), frame.id, before)
      modifies this`covisibility, pointSet`obs
      ensures Filed() && IsCov(Observations(), covisibility)
      ensures Registering(Abs(), old(Observations()), frame.id, frame.slots, 0)
      ensures Observations() == PrunedObs(old(Observations()), frame.id, frame.keypoints, frame.slots, pointSet)
      ensures changed <==> AnyStale(old(Observations()), frame.id, frame.keypoints, frame.slots, pointSet)
    {
      hide IsCov, Filed, PrunedObs, Overwritten, Registering, Consistent, Indexed, ObsOver, AnyStale;
      OverwrittenStart(Abs(), frame.id, before);
      OverwrittenIndexed(Abs(), frame.id, before);
      ObsKeys();
      changed := PruneObservations(frame);
    }

    method RemoveKeyFrame(id: nat) returns (removed: bool)
      requires Valid()
      modifies this`covisibility, this`keyframes, this`frameSet, this`kfCount, this`topology
      modifies frameSet`slots, pointSet`obs
      ensures Valid()
      ensures removed <==> id in old(keyframes)
      ensures keyframes == old(keyframes) - {id}
      ensures Abs() == if removed then RemoveFrame(old(Abs()), id) else old(Abs())
      ensures topology == old(topology) + if removed then 1 else 0
    {
      hide IsCov, Filed, Consistent, RemoveFrame;
      if id !in keyframes {
        assert keyframes - {id} == keyframes;
        return false;
      }
      FiledUnder(id);
      UnfileKeyFrame(keyframes[id]);
      topology := topology + 1;
      removed := true;
    }

    method UnfileKeyFrame(frame: Frame)
      requires Valid() && Has(frame)
      modifies this`covisibility, this`keyframes, this`frameSet, this`kfCount, frame`slots, pointSet`obs
      ensures Valid() && keyframes == old(keyframes) - {frame.id} && Abs() == RemoveFrame(old(Abs()), frame.id)
    {
      hide IsCov, Consistent, ConsistentExcept, Indexed, RemoveFrame, ObsOver, Filed, NullsThen;
      FrameFacts(Abs(), frame.id);
      RemoveFrameConsistent(Abs(), frame.id);
      RemoveFrameParts(Abs(), frame.id);
      ClearFrame(frame);
      DropFromFile(frame);
    }

    method DropFromFile(frame: Frame)
      requires Filed() && Has(frame)
      modifies this`keyframes, this`frameSet, this`kfCount
      ensures Filed() && keyframes == old(keyframes) - {frame.id} && Observations() == old(Observations())
      ensures KeypointMap() == old(KeypointMap()) - {frame.id} && SlotMap() == old(SlotMap()) - {frame.id}
    {
      hide Filed, SlotMap, KeypointMap, Observations, ObsOver;
      SomeFiled(frame);
      keyframes := keyframes - {frame.id};
      frameSet := frameSet - {frame};
      kfCount := kfCount - 1;
      StillFiledWithout(frame);
      FrameDropped(frame);
    }

    lemma SomeFiled(frame: Frame)
      requires Filed() && Has(frame)
      ensures kfCount > 0
    {
    }

    twostate lemma StillFiledWithout(frame: Frame)
      requires old(Filed()) && old(Has(frame))
      requires keyframes == old(keyframes) - {frame.id} && frameSet == old(frameSet) - {frame}
      requires mapPoints == old(mapPoints) && pointSet == old(pointSet) && mpCount == old(mpCount)
      requires kfCount == old(kfCount) - 1
      ensures Filed()
    {
    }

    twostate lemma FrameDropped(frame: Frame)
      requires old(Filed()) && old(Has(frame))
      requires keyframes == old(keyframes) - {frame.id} && frameSet == old(frameSet) - {frame}
      requires forall f :: f in frameSet ==> f.slots == old(f.slots)
      ensures KeypointMap() == old(KeypointMap()) - {frame.id} && SlotMap() == old(SlotMap()) - {frame.id}
    {
    }

    /** Withdraw every formal observation of a frame and empty its slots. */
    method ClearFrame(frame: Frame)
      requires Valid() && Has(frame)
      modifies this`covisibility, frame`slots, pointSet`obs
      ensures Observations() == RemoveFrame(old(Abs()), frame.id).obs
      ensures IsCov(Observations(), covisibility)
      ensures SlotMap() - {frame.id} == old(SlotMap()) - {frame.id}
    {
      hide IsCov, Consistent, ConsistentExcept, RemoveFrame, FrameCleared, FrameFormal, Backed, Indexed, Filed,
           NullsThen, ObsOver,
           Observations, SlotMap;
      ghost var v, s0 := Abs(), frame.slots;
      FrameSlots(frame);
      NullNone(s0);
      FrameFacts(v, frame.id);
      ClearAll(v, frame.id);
      var i := 0;
      while i < |frame.slots|
        invariant 0 <= i <= |s0| && frame.slots == NullsThen(s0, i)
        invariant Observations() == FrameCleared(v.obs, frame.id, i)
        invariant IsCov(Observations(), covisibility)
        decreases |s0| - i
      {
        NullOneMore(s0, i);
        ClearSlotOf(frame, i, v);
        i := i + 1;
      }
      OneFrameChanged(frame);
    }

    /** One turn of the loop: the slot's observation, if it is formal, and the slot. */
    method ClearSlotOf(frame: Frame, i: nat, ghost v: View)
      requires i < |frame.slots| && IsCov(Observations(), covisibility)
      requires frame.id in v.slots && FrameFormal(v, frame.id) && Backed(v)
      requires i < |v.slots[frame.id]| && frame.slots[i] == v.slots[frame.id][i]
      requires Observations() == FrameCleared(v.obs, frame.id, i)
      modifies this`covisibility, frame`slots, pointSet`obs
      ensures frame.slots == old(frame.slots)[i := null]
      ensures Observations() == FrameCleared(v.obs, frame.id, i + 1) && IsCov(Observations(), covisibility)
    {
      hide IsCov, FrameCleared, FrameFormal, Backed, Without, ObsOver;
      ClearOneMore(v, frame.id, i);
      ObsKeys();
      var p := frame.slots[i];
      if p != null {
        if p.HasObservation(frame.id, i) {
          WithdrawObservation(frame.id, p, pointSet);
        }
        frame.slots := frame.slots[i := null];
      }
      assert frame.slots == old(frame.slots)[i := null];
    }

    // ---- points --------------------------------------------------------

    /** The point comes in as it is; the invariant survives exactly if it brings no observations of its own. */
    method InsertMapPoint(p: MapPoint)
      requires Valid()
      modifies this`mapPoints, this`pointSet, this`mpCount, this`topology
      ensures Filed() && (Valid() <==> p.id in old(mapPoints) || p.obs == map[])
      ensures p.id in old(mapPoints) ==> mapPoints == old(mapPoints) && topology == old(topology)
      ensures p.id !in old(mapPoints) ==> topology == old(topology) + 1 && Abs() == AdmitPoint(old(Abs()), p, p.obs)
    {
      hide IsCov, Consistent, Filed, AdmitPoint;
      if p.id !in mapPoints {
        AdmitPointConsistent(Abs(), p, p.obs);
        if p.obs == map[] {
          CovWithBarePoint(Observations(), p, covisibility);
        }
        FilePoint(p);
        topology := topology + 1;
      }
    }

    method FilePoint(p: MapPoint)
      requires Filed() && p.id !in mapPoints && p !in pointSet
      modifies this`mapPoints, this`pointSet, this`mpCount
      ensures Filed() && Abs() == AdmitPoint(old(Abs()), p, p.obs) && Observations() == old(Observations())[p := p.obs]
    {
      hide ObsOver, Filed;
      AddPoint(p);
      ObsOverPlus(old(pointSet), p);
    }

    method AddPoint(p: MapPoint)
      requires Filed() && p.id !in mapPoints
      modifies this`mapPoints, this`pointSet, this`mpCount
      ensures Filed() && mapPoints == old(mapPoints)[p.id := p] && pointSet == old(pointSet) + {p}
    {
      mapPoints := mapPoints[p.id := p];
      pointSet := pointSet + {p};
      mpCount := mpCount + 1;
    }

    lemma ObsOverPlus(counted: set<MapPoint>, p: MapPoint)
      ensures ObsOver(counted + {p}) == ObsOver(counted)[p := p.obs]
    {
    }

    /** Withdraw all observations of one counted point. */
    method WithdrawAll(p: MapPoint, ghost counted: set<MapPoint>)
      requires p in counted && IsCov(ObsOver(counted), covisibility)
      modifies this`covisibility, p`obs
      ensures p.obs == map[] && IsCov(ObsOver(counted), covisibility)
    {
      hide IsCov, Without, ObsOver;
      var todo := p.obs.Keys;
      while todo != {}
        invariant p.obs.Keys == todo
        invariant IsCov(ObsOver(counted), covisibility)
        decreases todo
      {
        var k :| k in todo;
        WithdrawObservation(k, p, counted);
        todo := todo - {k};
      }
    }

    method DropFromFrame(frame: Frame, gone: set<MapPoint>)
      modifies frame`slots
      ensures frame.slots == DropPoints(old(frame.slots), gone)
    {
      var i := 0;
      while i < |frame.slots|
        invariant 0 <= i <= |frame.slots| == |old(frame.slots)|
        invariant forall j :: 0 <= j < i ==> frame.slots[j] == DropPoints(old(frame.slots), gone)[j]
        invariant forall j :: i <= j < |frame.slots| ==> frame.slots[j] == old(frame.slots)[j]
      {
        if frame.slots[i] != null && frame.slots[i] in gone {
          frame.slots := frame.slots[i := null];
        }
        i := i + 1;
      }
    }

    /** One scan over all keyframes empties the slots of the removed points. */
    method DropFromFrames(gone: set<MapPoint>)
      requires Filed()
      modifies frameSet`slots
      ensures SlotMap() == DropAll(old(SlotMap()), gone)
    {
      hide DropPoints, SlotMap, DropAll, Filed;
      ghost var s0 := SlotMap();
      SlotsAre();
      var todo := keyframes.Keys;
      while todo != {}
        invariant todo <= keyframes.Keys
        invariant forall k :: k in keyframes ==>
          keyframes[k].slots == if k in todo then s0[k] else DropPoints(s0[k], gone)
        decreases todo
      {
        var k :| k in todo;
        DropFromFrame(keyframes[k], gone);
        todo := todo - {k};
      }
      SlotsAre();
      AllDropped(s0, SlotMap(), gone);
    }

    lemma SlotsAre()
      requires Filed()
      ensures SlotMap().Keys == keyframes.Keys
      ensures forall k :: k in keyframes ==>
        keyframes[k].id == k && keyframes[k] in frameSet && SlotMap()[k] == keyframes[k].slots
    {
    }

    lemma AllDropped(before: map<nat, Slots>, after: map<nat, Slots>, gone: set<MapPoint>)
      requires after.Keys == before.Keys && forall k :: k in before ==> after[k] == DropPoints(before[k], gone)
      ensures after == DropAll(before, gone)
    {
    }

    method RemoveMapPointsUnlocked(points: seq<MapPoint>, ghost counted: set<MapPoint>)
      requires Filed() && (forall p :: p in points ==> p in counted) && IsCov(ObsOver(counted), covisibility)
      modifies this`covisibility, this`lastHit, points`obs, frameSet`slots
      ensures forall p :: p in points ==> p.obs == map[]
      ensures IsCov(ObsOver(counted), covisibility)
      ensures ObsOver(counted) - (set p | p in points) == old(ObsOver(counted)) - set p | p in points
      ensures SlotMap() == DropAll(old(SlotMap()), set p | p in points)
      ensures lastHit == old(lastHit) - PointIds(points)
    {
      hide IsCov, DropAll, Filed, PointIds;
      ghost var gone, before := (set p | p in points), ObsOver(counted);
      WithdrawEach(points, counted);
      DropFromFrames(set p | p in points);
      assert ObsOver(counted) - gone == before - gone;
    }

    method WithdrawEach(points: seq<MapPoint>, ghost counted: set<MapPoint>)
      requires (forall p :: p in points ==> p in counted) && IsCov(ObsOver(counted), covisibility)
      modifies this`covisibility, this`lastHit, points`obs
      ensures forall p :: p in points ==> p.obs == map[]
      ensures IsCov(ObsOver(counted), covisibility)
      ensures lastHit == old(lastHit) - PointIds(points)
    {
      hide IsCov, ObsOver;
      var i := 0;
      while i < |points|
        invariant 0 <= i <= |points|
        invariant lastHit == old(lastHit) - PointIds(points[..i])
        invariant forall j :: 0 <= j < i ==> points[j].obs == map[]
        invariant IsCov(ObsOver(counted), covisibility)
      {
        WithdrawAll(points[i], counted);
        lastHit := lastHit - {points[i].id};
        assert points[..i + 1] == points[..i] + [points[i]];
        i := i + 1;
      }
      assert points[..i] == points;
    }

    method RemoveMapPoint(id: nat) returns (removed: bool)
      requires Valid()
      modifies this`covisibility, this`lastHit, this`mapPoints, this`pointSet, this`mpCount, this`topology
      modifies pointSet`obs, frameSet`slots
      ensures Valid()
      ensures removed <==> id in old(mapPoints)
      ensures Abs() == if removed then RemovePoints(old(Abs()), {id}) else old(Abs())
      ensures lastHit == if removed then old(lastHit) - {id} else old(lastHit)
      ensures topology == old(topology) + if removed then 1 else 0
    {
      hide IsCov, Consistent, Filed, RemovePoints, Indexed, ObsOver;
      if id !in mapPoints {
        return false;
      }
      RemoveMapPointValid(id);
      topology := topology + 1;
      removed := true;
    }

    method RemoveMapPointValid(id: nat)
      requires Valid() && id in mapPoints
      modifies this`covisibility, this`lastHit, this`mapPoints, this`pointSet, this`mpCount
      modifies pointSet`obs, frameSet`slots
      ensures Valid() && Abs() == RemovePoints(old(Abs()), {id}) && lastHit == old(lastHit) - {id}
    {
      hide IsCov, Consistent, Filed, RemovePoints, Indexed, ObsOver;
      ConsistentIsIndexed(Abs());
      RemovePointsConsistent(Abs(), {id});
      RemoveMapPointLocked(id);
    }

    method RemoveMapPointLocked(id: nat)
      requires Filed() && Indexed(Abs()) && IsCov(Observations(), covisibility) && id in mapPoints
      modifies this`covisibility, this`lastHit, this`mapPoints, this`pointSet, this`mpCount
      modifies pointSet`obs, frameSet`slots
      ensures Filed() && IsCov(Observations(), covisibility) && Abs() == RemovePoints(old(Abs()), {id})
      ensures lastHit == old(lastHit) - {id}
    {
      hide IsCov, RemovePoints, DropAll, ObsOver, Indexed, Filed, PointsOf, Abs, SlotMap, KeypointMap, Observations,
           PointIds;
      IdOfOne(mapPoints[id]);
      ghost var v, counted := Abs(), pointSet;
      AbsParts();
      FiledPoint(id);
      PointsOfOne(v, id);
      RemoveMapPointsUnlocked([mapPoints[id]], counted);
      ForgetPoint(id);
      AbsParts();
      RemovedParts(v, {id}, counted, covisibility);
    }

    lemma AbsParts()
      ensures Abs() == View(mapPoints, KeypointMap(), SlotMap(), ObsOver(pointSet))
      ensures Observations() == ObsOver(pointSet)
    {
    }

    /** What withdrawing, dropping and forgetting the points of some ids amounts to. */
    lemma RemovedParts(v: View, ids: set<nat>, counted: set<MapPoint>, cov: CovTable)
      requires pointSet == counted - PointsOf(v, ids) && mapPoints == v.points - ids && KeypointMap() == v.keypoints
      requires SlotMap() == DropAll(v.slots, PointsOf(v, ids))
      requires ObsOver(counted) - PointsOf(v, ids) == v.obs - PointsOf(v, ids)
      requires forall p :: p in PointsOf(v, ids) ==> p.obs == map[]
      requires IsCov(ObsOver(counted), cov)
      ensures View(mapPoints, KeypointMap(), SlotMap(), ObsOver(pointSet)) == RemovePoints(v, ids)
      ensures IsCov(ObsOver(pointSet), cov)
    {
      hide DropAll, IsCov, PointsOf, SlotMap, KeypointMap;
      ghost var gone := PointsOf(v, ids);
      assert ObsOver(counted) - gone == ObsOver(pointSet);
      CovIgnoresBarePoints(ObsOver(counted), gone, cov);
    }

    method ForgetPoint(id: nat)
      requires Filed() && id in mapPoints
      modifies this`mapPoints, this`pointSet, this`mpCount
      ensures Filed() && mapPoints == old(mapPoints) - {id} && pointSet == old(pointSet) - {old(mapPoints)[id]}
    {
      pointSet := pointSet - {mapPoints[id]};
      mapPoints := mapPoints - {id};
      mpCount := mpCount - 1;
    }

    lemma IdOfOne(p: MapPoint)
      ensures PointIds([p]) == {p.id}
    {
    }

    lemma PointsOfOne(v: View, id: nat)
      requires id in v.points
      ensures PointsOf(v, {id}) == {v.points[id]} == set q | q in [v.points[id]]
    {
    }

    method RemoveMapPoints(ids: seq<nat>) returns (count: nat)
      requires Valid()
      modifies this`covisibility, this`lastHit, this`mapPoints, this`pointSet, this`mpCount, this`topology
      modifies pointSet`obs, frameSet`slots
      ensures Valid()
      ensures Abs() == RemovePoints(old(Abs()), IdSet(ids))
      ensures count == |old(mapPoints)| - |mapPoints|
      ensures lastHit == old(lastHit) - old(mapPoints).Keys * IdSet(ids)
      ensures topology == old(topology) + if count > 0 then 1 else 0
    {
      hide IsCov, Consistent, Filed, RemovePoints, Indexed, ObsOver;
      count := RemoveMapPointsValid(ids);
      ghost var v := Abs();
      if count > 0 {
        topology := topology + 1;
      }
      assert Abs() == v;
    }

    method RemoveMapPointsValid(ids: seq<nat>) returns (count: nat)
      requires Valid()
      modifies this`covisibility, this`lastHit, this`mapPoints, this`pointSet, this`mpCount
      modifies pointSet`obs, frameSet`slots
      ensures Valid() && Abs() == RemovePoints(old(Abs()), IdSet(ids))
      ensures count == |old(mapPoints)| - |mapPoints| && lastHit == old(lastHit) - old(mapPoints).Keys * IdSet(ids)
    {
      hide IsCov, Consistent, Filed, RemovePoints, Indexed, ObsOver, IdSet;
      ConsistentIsIndexed(Abs());
      RemovePointsConsistent(Abs(), IdSet(ids));
      count := RemoveMapPointsLocked(ids);
    }

    method RemoveMapPointsLocked(ids: seq<nat>) returns (count: nat)
      requires Filed() && Indexed(Abs()) && IsCov(Observations(), covisibility)
      modifies this`covisibility, this`lastHit, this`mapPoints, this`pointSet, this`mpCount
      modifies pointSet`obs, frameSet`slots
      ensures Filed() && IsCov(Observations(), covisibility) && Abs() == RemovePoints(old(Abs()), IdSet(ids))
      ensures count == |old(mapPoints)| - |mapPoints| && lastHit == old(lastHit) - old(mapPoints).Keys * IdSet(ids)
    {
      hide IsCov, RemovePoints, DropAll, ObsOver, Indexed, Filed, PointsOf, IdSet, Abs, SlotMap, KeypointMap,
           Observations, PointIds;
      ghost var v, counted := Abs(), pointSet;
      AbsParts();
      var removed := TakePoints(ids, v);
      TakenIds(v, IdSet(ids), removed);
      count := |removed|;
      DropTaken(removed, ids, v, counted);
    }

    /** The removed points are out of the table; their observations and slots follow. */
    method DropTaken(removed: seq<MapPoint>, ghost ids: seq<nat>, ghost v: View, ghost counted: set<MapPoint>)
      requires Filed() && (set p | p in removed) == PointsOf(v, IdSet(ids)) && forall p :: p in removed ==> p in counted
      requires mapPoints == v.points - IdSet(ids) && pointSet == counted - PointsOf(v, IdSet(ids))
      requires KeypointMap() == v.keypoints && SlotMap() == v.slots && ObsOver(counted) == v.obs
      requires IsCov(ObsOver(counted), covisibility)
      modifies this`covisibility, this`lastHit, counted`obs, frameSet`slots
      ensures IsCov(Observations(), covisibility) && Abs() == RemovePoints(v, IdSet(ids))
      ensures lastHit == old(lastHit) - PointIds(removed)
    {
      hide IsCov, RemovePoints, DropAll, ObsOver, Filed, PointsOf, IdSet, Abs, SlotMap, KeypointMap, Observations,
           PointIds;
      RemoveMapPointsUnlocked(removed, counted);
      AbsParts();
      RemovedParts(v, IdSet(ids), counted, covisibility);
    }

    lemma TakenIds(v: View, ids: set<nat>, removed: seq<MapPoint>)
      requires Indexed(v) && (set p | p in removed) == PointsOf(v, ids)
      ensures PointIds(removed) == v.points.Keys * ids
    {
      forall id | id in v.points && id in ids
        ensures id in PointIds(removed)
      {
        assert v.points[id] in PointsOf(v, ids);
        assert v.points[id] in set p | p in removed;
      }
      forall p | p in removed
        ensures p.id in v.points && p.id in ids
      {
        var taken := set q | q in removed;
        assert p in taken && taken == PointsOf(v, ids);
        var id :| id in v.points && id in ids && v.points[id] == p;
      }
    }

    /** Take the registered points among ids out of the table; unknown and repeated ids are skipped. */
    method TakePoints(ids: seq<nat>, ghost v: View) returns (removed: seq<MapPoint>)
      requires Filed() && v.points == mapPoints
      modifies this`mapPoints, this`pointSet, this`mpCount
      ensures Filed() && mapPoints == v.points - IdSet(ids)
      ensures (set p | p in removed) == PointsOf(v, IdSet(ids)) <= old(pointSet)
      ensures pointSet == old(pointSet) - PointsOf(v, IdSet(ids)) && forall p :: p in removed ==> p in old(pointSet)
      ensures |removed| == |v.points| - |mapPoints|
    {
      hide PointsOf, IdSet, ObsOver, Filed, Abs, Taking;
      ghost var all := pointSet;
      TakingStart(v, all, ids);
      removed := [];
      var i := 0;
      while i < |ids|
        invariant 0 <= i <= |ids| && Filed()
        invariant Taking(v, all, ids[..i], removed, mapPoints, pointSet)
      {
        if ids[i] in mapPoints {
          FiledPoint(ids[i]);
          TakingKnown(v, all, ids, i, removed, mapPoints, pointSet);
          var p := TakePoint(ids[i]);
          removed := removed + [p];
        } else {
          TakingUnknown(v, all, ids, i, removed, mapPoints, pointSet);
        }
        i := i + 1;
      }
      TakingDone(v, all, ids, removed, mapPoints, pointSet);
    }

    /** After the ids, removed holds their registered points and now and left hold the others. */
    ghost predicate Taking(v: View, all: set<MapPoint>, ids: seq<nat>, removed: seq<MapPoint>,
                           now: map<nat, MapPoint>, left: set<MapPoint>)
    {
      && now == v.points - IdSet(ids) && left == all - PointsOf(v, IdSet(ids))
      && (set p | p in removed) == PointsOf(v, IdSet(ids)) <= all
      && |removed| + |now| == |v.points|
    }

    lemma TakingStart(v: View, all: set<MapPoint>, ids: seq<nat>)
      ensures Taking(v, all, ids[..0], [], v.points, all)
    {
      assert IdSet(ids[..0]) == {} && PointsOf(v, {}) == {} && v.points - {} == v.points;
    }

    lemma TakingDone(v: View, all: set<MapPoint>, ids: seq<nat>, removed: seq<MapPoint>,
                     now: map<nat, MapPoint>, left: set<MapPoint>)
      requires Taking(v, all, ids[..|ids|], removed, now, left)
      ensures now == v.points - IdSet(ids) && left == all - PointsOf(v, IdSet(ids))
      ensures (set p | p in removed) == PointsOf(v, IdSet(ids)) <= all && forall p :: p in removed ==> p in all
      ensures |removed| == |v.points| - |now|
    {
      assert ids[..|ids|] == ids;
    }

    lemma TakingKnown(v: View, all: set<MapPoint>, ids: seq<nat>, i: nat, removed: seq<MapPoint>,
                      now: map<nat, MapPoint>, left: set<MapPoint>)
      requires i < |ids| && Taking(v, all, ids[..i], removed, now, left) && ids[i] in now && now[ids[i]] in left
      ensures Taking(v, all, ids[..i + 1], removed + [now[ids[i]]], now - {ids[i]}, left - {now[ids[i]]})
    {
      hide PointsOf, IdSet;
      var p := v.points[ids[i]];
      IdSetMore(ids, i);
      PointsOfMore(v, IdSet(ids[..i]), ids[i]);
      assert (set q | q in removed + [p]) == (set q | q in removed) + {p};
      MinusMore(v.points, IdSet(ids[..i]), ids[i]);
    }

    lemma TakingUnknown(v: View, all: set<MapPoint>, ids: seq<nat>, i: nat, removed: seq<MapPoint>,
                        now: map<nat, MapPoint>, left: set<MapPoint>)
      requires i < |ids| && Taking(v, all, ids[..i], removed, now, left) && ids[i] !in now
      ensures Taking(v, all, ids[..i + 1], removed, now, left)
    {
      hide PointsOf, IdSet;
      IdSetMore(ids, i);
      PointsOfMore(v, IdSet(ids[..i]), ids[i]);
      MinusMore(v.points, IdSet(ids[..i]), ids[i]);
    }

    lemma MinusMore(m: map<nat, MapPoint>, s: set<nat>, x: nat)
      ensures m - (s + {x}) == m - s - {x}
      ensures x !in m - s ==> m - (s + {x}) == m - s
    {
    }

    lemma IdSetMore(ids: seq<nat>, i: nat)
      requires i < |ids|
      ensures IdSet(ids[..i + 1]) == IdSet(ids[..i]) + {ids[i]}
    {
    }

    lemma PointsOfMore(v: View, s: set<nat>, id: nat)
      ensures id in v.points ==> PointsOf(v, s + {id}) == PointsOf(v, s) + {v.points[id]}
      ensures id !in v.points || id in s ==> PointsOf(v, s + {id}) == PointsOf(v, s)
    {
      if id in v.points {
        assert PointsOf(v, {id}) == {v.points[id]};
      }
    }

    method TakePoint(id: nat) returns (p: MapPoint)
      requires Filed() && id in mapPoints
      modifies this`mapPoints, this`pointSet, this`mpCount
      ensures p == old(mapPoints)[id] && p in old(pointSet) && Filed()
      ensures mapPoints == old(mapPoints) - {id} && pointSet == old(pointSet) - {p}
      ensures |mapPoints| == |old(mapPoints)| - 1
    {
      hide Filed;
      FiledPoint(id);
      p := mapPoints[id];
      ForgetPoint(id);
    }

    /** The ids of the points with fewer than minObservations formal observations. */
    ghost function WeakIds(minObservations: int): set<nat>
      reads this`mapPoints, this`pointSet, pointSet`obs
    {
      set id | id in mapPoints && mapPoints[id] in pointSet && |mapPoints[id].obs| < minObservations
    }

    lemma WeakAreKnown(minObservations: int)
      ensures mapPoints.Keys * WeakIds(minObservations) == WeakIds(minObservations)
    {
    }

    method WeakPoints(minObservations: int) returns (weak: seq<nat>)
      requires Filed()
      ensures IdSet(weak) == WeakIds(minObservations)
    {
      weak := [];
      var todo := mapPoints.Keys;
      while todo != {}
        invariant todo <= mapPoints.Keys
        invariant forall id :: id in weak <==> id in mapPoints && id !in todo && |mapPoints[id].obs| < minObservations
        decreases todo
      {
        var id :| id in todo;
        if |mapPoints[id].obs| < minObservations {
          weak := weak + [id];
        }
        todo := todo - {id};
      }
    }

    /** Remove every point with fewer than minObservations formal observations. */
    method CullMapPoints(minObservations: int)
      requires Valid()
      modifies this`covisibility, this`lastHit, this`mapPoints, this`pointSet, this`mpCount, this`topology
      modifies pointSet`obs, frameSet`slots
      ensures Valid()
      ensures Abs() == RemovePoints(old(Abs()), old(WeakIds(minObservations)))
      ensures lastHit == old(lastHit) - old(WeakIds(minObservations))
    {
      hide IsCov, Consistent, Filed, RemovePoints, Indexed, ObsOver, IdSet, WeakIds;
      WeakAreKnown(minObservations);
      var weak := WeakPoints(minObservations);
      var count := RemoveMapPoints(weak);
    }

    method Clear()
      requires Valid()
      modifies this, frameSet`slots, pointSet`obs
      ensures Valid() && mapPoints == map[] && keyframes == map[] && covisibility == map[] && lastHit == map[]
      ensures forall p :: p in old(pointSet) ==> p.obs == map[]
      ensures forall f :: f in old(frameSet) ==> forall i :: 0 <= i < |f.slots| ==> f.slots[i] == null
      ensures topology == old(topology) + 1 && geometry == old(geometry) + 1
    {
      hide Consistent, IsCov, Filed;
      EmptyFrames();
      EmptyPoints();
      mapPoints, keyframes, covisibility, lastHit := map[], map[], map[], map[];
      pointSet, frameSet := {}, {};
      mpCount, kfCount := 0, 0;
      topology, geometry := topology + 1, geometry + 1;
      EmptyIsValid();
    }

    lemma EmptyIsValid()
      requires mapPoints == map[] && keyframes == map[] && covisibility == map[] && mpCount == kfCount == 0
      requires pointSet == {} && frameSet == {}
      ensures Valid()
    {
      assert Observations() == map[];
    }

    method EmptyFrames()
      requires Filed()
      modifies frameSet`slots
      ensures forall f :: f in frameSet ==> forall i :: 0 <= i < |f.slots| ==> f.slots[i] == null
    {
      var todo := keyframes.Keys;
      while todo != {}
        invariant todo <= keyframes.Keys
        invariant forall f :: f in frameSet && f.id !in todo ==> forall i :: 0 <= i < |f.slots| ==> f.slots[i] == null
        decreases todo
      {
        var k :| k in todo;
        var f := keyframes[k];
        f.slots := seq(|f.slots|, _ => null);
        todo := todo - {k};
      }
    }

    method EmptyPoints()
      requires Filed()
      modifies pointSet`obs
      ensures forall p :: p in pointSet ==> p.obs == map[]
    {
      var todo := mapPoints.Keys;
      while todo != {}
        invariant todo <= mapPoints.Keys
        invariant forall p :: p in pointSet && p.id !in todo ==> p.obs == map[]
        decreases todo
      {
        var id :| id in todo;
        mapPoints[id].obs := map[];
        todo := todo - {id};
      }
    }

    method SharedObservationCount(a: nat, b: nat) returns (count: nat)
      requires Valid()
      ensures count == if a == b then 0 else |Shared(Observations(), a, b)|
    {
      if a == b {
        return 0;
      }
      var key := MinMax(a, b);
      count := if key in covisibility then covisibility[key] else 0;
      assert count == Count(covisibility, key.0, key.1);
      assert Shared(Observations(), a, b) == Shared(Observations(), b, a);
    }
  }
}
