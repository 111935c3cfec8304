/** What a map holds, as values: used to say that an operation only takes things away. */
module MapExtent {
  import opened RigidMotion
  import opened MapEntities
  import opened Ordering
  import opened SlamMap
  import opened BudgetPolicy
  import Rebasing
  import opened Trajectory

  datatype Extent = Extent(points: map<nat, MapPoint>, frames: map<nat, Frame>, images: map<nat, nat>)

  ghost function Images(m: Map): map<nat, nat>
    reads m`keyframes, m`frameSet, m.frameSet`imageBytes
  {
    map k | k in m.keyframes && m.keyframes[k] in m.frameSet :: m.keyframes[k].imageBytes
  }

  ghost function ExtentOf(m: Map): Extent
    reads m`mapPoints, m`keyframes, m`frameSet, m.frameSet`imageBytes
  {
    Extent(m.mapPoints, m.keyframes, Images(m))
  }

  /** Nothing new, and no image grew. */
  ghost predicate Within(a: Extent, b: Extent) {
    && (forall id :: id in a.points ==> id in b.points && a.points[id] == b.points[id])
    && (forall k :: k in a.frames ==> k in b.frames && a.frames[k] == b.frames[k])
    && (forall k :: k in a.images ==> k in b.images && a.images[k] <= b.images[k])
  }

  ghost function PointBytes(points: map<nat, MapPoint>): map<nat, nat> {
    map id | id in points :: points[id].descriptorBytes
  }

  ghost function FrameBytes(frames: map<nat, Frame>): map<nat, nat> {
    map k | k in frames :: frames[k].descriptorBytes
  }

  /** The quantities a budget limits. */
  ghost function UsageOf(e: Extent): Usage {
    Usage(|e.frames|, |e.points|, Sum(PointBytes(e.points)) + Sum(FrameBytes(e.frames)), Sum(e.images))
  }

  /** Taking things away never increases any budgeted quantity. */
  lemma {:induction false} WithinUsesLess(a: Extent, b: Extent)
    requires Within(a, b)
    ensures NoMore(UsageOf(a), UsageOf(b))
  {
    SubsetSize(a.frames.Keys, b.frames.Keys);
    SubsetSize(a.points.Keys, b.points.Keys);
    SumMonotone(PointBytes(a.points), PointBytes(b.points));
    SumMonotone(FrameBytes(a.frames), FrameBytes(b.frames));
    SumMonotone(a.images, b.images);
  }

  /** Removing keyframes so far: exactly the reported ones are gone, none of them protected. */
  ghost predicate Progress(e0: Extent, e: Extent, protectedIds: set<nat>, culled: seq<nat>) {
    && Within(e, e0)
    && (forall k :: k in culled <==> k in e0.frames && k !in e.frames)
    && (forall i, j :: 0 <= i < j < |culled| ==> culled[i] != culled[j])
    && (forall k :: k in culled ==> k !in protectedIds)
  }

  lemma ProgressStart(e: Extent, protectedIds: set<nat>)
    ensures Progress(e, e, protectedIds, [])
  {
  }

  lemma ProgressSame(e0: Extent, e: Extent, next: Extent, protectedIds: set<nat>, culled: seq<nat>)
    requires Progress(e0, e, protectedIds, culled) && Within(next, e) && next.frames == e.frames
    ensures Progress(e0, next, protectedIds, culled)
  {
  }

  lemma ProgressCull(e0: Extent, e: Extent, next: Extent, protectedIds: set<nat>, culled: seq<nat>, k: nat)
    requires Progress(e0, e, protectedIds, culled) && Within(next, e)
    requires k in e.frames && k !in protectedIds && next.frames == e.frames - {k}
    ensures Progress(e0, next, protectedIds, culled + [k])
  {
  }

  // ---- the records while keyframes are culled -------------------------------

  /** Records of the submap still read as the same world pose and lost no live anchor; others are untouched. */
  ghost predicate RecordsKept(before: Track, now: Track, submap: nat, T_ws: SE3) {
    |now.records| == |before.records| && forall i :: 0 <= i < |now.records| ==> RecordKept(before, now, submap, T_ws, i)
  }

  ghost predicate RecordKept(before: Track, now: Track, submap: nat, T_ws: SE3, i: nat)
    requires i < |now.records| == |before.records|
  {
    var a, b := before.records[i], now.records[i];
    if a.submap != submap then b == a
    else
      && b.submap == submap && WorldPose(b, now.poses, T_ws) == WorldPose(a, before.poses, T_ws)
      && (a.anchor in before.poses ==> b.anchor in now.poses)
  }

  lemma RecordsKeptStart(t: Track, submap: nat, T_ws: SE3)
    ensures RecordsKept(t, t, submap, T_ws)
  {
    hide WorldPose;
  }

  lemma RecordsKeptTransitive(a: Track, b: Track, c: Track, submap: nat, T_ws: SE3)
    requires RecordsKept(a, b, submap, T_ws) && RecordsKept(b, c, submap, T_ws)
    ensures RecordsKept(a, c, submap, T_ws)
  {
    hide WorldPose;
    forall i | 0 <= i < |c.records|
      ensures RecordKept(a, c, submap, T_ws, i)
    {
      assert RecordKept(a, b, submap, T_ws, i) && RecordKept(b, c, submap, T_ws, i);
    }
  }

  lemma HandedOverKept(t: Track, now: Track, submap: nat, removed: nat, replacement: nat, T_ws: SE3)
    requires removed in t.poses && replacement in t.poses && removed != replacement
    requires now.poses == t.poses - {removed} && |now.records| == |t.records|
    requires forall i :: 0 <= i < |t.records| ==>
      now.records[i] == Reanchored(t.records[i], submap, removed, t.poses[removed], replacement, t.poses[replacement])
    ensures RecordsKept(t, now, submap, T_ws)
  {
    hide WorldPose, Reanchored;
    forall i | 0 <= i < |t.records|
      ensures RecordKept(t, now, submap, T_ws, i)
    {
      ReanchoredSubmap(t.records[i], submap, removed, t.poses[removed], replacement, t.poses[replacement]);
      if t.records[i].submap == submap {
        ReanchoredKeepsWorldPose(t.records[i], submap, t.poses, removed, replacement, T_ws);
      }
    }
  }

  lemma ReanchoredSubmap(rec: Record, submap: nat, removed: nat, removedPose: SE3, replacement: nat,
                         replacementPose: SE3)
    ensures var r := Reanchored(rec, submap, removed, removedPose, replacement, replacementPose);
            r.submap == rec.submap && (rec.submap != submap ==> r == rec)
  {
    hide Rebasing.RebaseTrajectoryAnchor;
  }
}
