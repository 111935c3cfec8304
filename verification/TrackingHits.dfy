/** When a point was last hit, over any run of map operations, and what that means for the removal of stale points. */
module TrackingHits {
  import opened MapEntities
  import opened ObservationModel
  import opened SlamMap
  import opened MapTraces
  import opened ResourceBudget

  type Hits = map<nat, nat>

  /** The last hits after an operation: newly seen points are hit at the present count, removed ones forgotten. */
  ghost function HitsOf(v: View, hits: Hits, op: Op): Hits
    requires Indexed(v)
  {
    var next := Apply(v, op).0;
    match op
    case AddPoint(_) => hits
    case RemovePointIds(ids) => hits - v.points.Keys * IdSet(ids)
    case AddFrame(k, _, _) => HitsAfter(hits, v.obs, next.obs, k, |next.slots|)
    case DropFrame(_) => hits
    case SetAt(k, _, _) => HitsAfter(hits, v.obs, next.obs, k, |next.slots|)
    case ClearAt(_, _) => hits
    case OverwriteAndSync(k, _) => HitsAfter(hits, v.obs, next.obs, k, |next.slots|)
    case Reset => map[]
  }

  /** A successful binding hits the point, and no other. */
  lemma {:induction false} BindingHits(v: View, hits: Hits, k: nat, i: nat, p: MapPoint)
    requires Consistent(v)
    ensures HitsOf(v, hits, SetAt(k, i, p)) == if SetSlot(v, k, i, p).1 then hits[p.id := |v.slots|] else hits
  {
    hide SetSlot, HitsAfter, Consistent;
    SetSlotOnConsistent(v, k, i, p);
    ConsistentIsIndexed(v);
    if SetSlot(v, k, i, p).1 {
      OnlyItIsSeen(v, hits, k, i, p);
      assert SetSlot(v, k, i, p).0.slots.Keys == v.slots.Keys;
    } else {
      NothingHit(hits, v.obs, v.obs, k, |v.slots|);
    }
  }

  lemma OnlyItIsSeen(v: View, hits: Hits, k: nat, i: nat, p: MapPoint)
    requires Indexed(v) && k in v.slots && i < v.keypoints[k] && i < |v.slots[k]| && p in v.obs && k !in v.obs[p]
    ensures HitsAfter(hits, v.obs, SetSlot(v, k, i, p).0.obs, k, |v.slots|) == hits[p.id := |v.slots|]
  {
    hide KeepOnly;
    var next := SetSlot(v, k, i, p).0.obs;
    assert SeenAnew(v.obs, next, k, p);
    assert forall q :: q in next && q != p ==> !SeenAnew(v.obs, next, k, q);
    assert NewlySeen(v.obs, next, k) == {p.id};
  }

  ghost function RunHits(v: View, hits: Hits, ops: seq<Op>): (View, Hits)
    requires Consistent(v)
    decreases |ops|
  {
    if ops == [] then (v, hits)
    else
      ApplyKeepsConsistent(v, ops[0]);
      RunHits(Apply(v, ops[0]).0, HitsOf(v, hits, ops[0]), ops[1..])
  }

  predicate Removes(op: Op, id: nat) {
    op.Reset? || (op.RemovePointIds? && id in op.ids)
  }

  /** The keyframe count never falls below least on this run. */
  ghost predicate CountStays(v: View, ops: seq<Op>, least: nat)
    requires Consistent(v)
    decreases |ops|
  {
    |v.slots| >= least &&
    (ops == [] || (ApplyKeepsConsistent(v, ops[0]); CountStays(Apply(v, ops[0]).0, ops[1..], least)))
  }

  lemma HitsOfStands(v: View, hits: Hits, op: Op, id: nat, least: nat)
    requires Indexed(v) && !Removes(op, id) && id in hits && hits[id] >= least && |Apply(v, op).0.slots| >= least
    ensures id in HitsOf(v, hits, op) && HitsOf(v, hits, op)[id] >= least
  {
    hide Apply, NewlySeen;
  }

  /** A hit stands until the point is removed: later ones are at counts of the run. */
  lemma {:induction false} HitStands(v: View, hits: Hits, ops: seq<Op>, id: nat, least: nat)
    requires Consistent(v) && id in hits && hits[id] >= least && CountStays(v, ops, least)
    requires forall op :: op in ops ==> !Removes(op, id)
    ensures id in RunHits(v, hits, ops).1 && RunHits(v, hits, ops).1[id] >= least
    decreases |ops|
  {
    hide HitsOf, Apply, Consistent;
    if ops != [] {
      var op := ops[0];
      assert op in ops;
      ApplyKeepsConsistent(v, op);
      ConsistentIsIndexed(v);
      HitsOfStands(v, hits, op, id, least);
      HitStands(Apply(v, op).0, HitsOf(v, hits, op), ops[1..], id, least);
    }
  }

  /**
   * A point bound when there were n keyframes, or any number not below least, is not removed as stale while there are
   * at most window more.
   */
  lemma {:induction false} HitIsNotStale(m: Map, id: nat, minObservations: nat, window: nat, least: nat)
    requires id in m.lastHit && m.lastHit[id] >= least && m.kfCount <= least + window
    ensures id !in StaleIds(m, minObservations, window)
  {
  }
}
