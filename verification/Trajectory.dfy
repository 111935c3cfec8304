/** The anchored trajectory: frames stored relative to a keyframe, world poses composed when read. */
module Trajectory {
  import opened RigidMotion
  import opened Rebasing
  import opened MapEntities
  import opened CommitModel
  import opened SlamMap
  import opened CommitOnMap

  /** anchorPose is the fallback once the anchor keyframe is gone. */
  datatype Record = Record(frame: nat, submap: nat, anchor: nat, T_ca: SE3, anchorPose: SE3)

  function AnchorPose(rec: Record, poses: map<nat, SE3>): SE3 {
    if rec.anchor in poses then poses[rec.anchor] else rec.anchorPose
  }

  /** composeRecordWorld for a record of the submap with these keyframe poses and this anchor. */
  function WorldPose(rec: Record, poses: map<nat, SE3>, T_ws: SE3): SE3 {
    ComposeAnchoredWorldPose(rec.T_ca, AnchorPose(rec, poses), T_ws)
  }

  // ---- one record under each change of its submap -----------------------

  /** Local BA moved keyframes from poses to after: a record of the submap is rebased if its anchor moved. */
  function Refined(rec: Record, submap: nat, before: map<nat, SE3>, after: map<nat, SE3>): Record {
    if rec.submap == submap && rec.anchor in before && rec.anchor in after && before[rec.anchor] != after[rec.anchor]
    then rec.(T_ca := RebaseTrajectoryAnchor(rec.T_ca, before[rec.anchor], after[rec.anchor]),
              anchorPose := after[rec.anchor])
    else rec
  }

  /** Keyframe removed is about to be culled: its records move to replacement. */
  function Reanchored(rec: Record, submap: nat, removed: nat, removedPose: SE3, replacement: nat,
                      replacementPose: SE3): Record {
    if rec.submap == submap && rec.anchor == removed
    then rec.(T_ca := RebaseTrajectoryAnchor(rec.T_ca, removedPose, replacementPose),
              anchor := replacement, anchorPose := replacementPose)
    else rec
  }

  /** A committed loop moves the records with their anchors and refreshes the fallback pose. */
  function Refreshed(rec: Record, submap: nat, poses: map<nat, SE3>): Record {
    if rec.submap == submap && rec.anchor in poses then rec.(anchorPose := poses[rec.anchor]) else rec
  }

  /** The record written at the end of a frame tracked at pose in its submap, relative to a keyframe. */
  function NewRecord(frame: nat, submap: nat, pose: SE3, anchor: nat, anchorPose: SE3): Record {
    Record(frame, submap, anchor, Compose(pose, Inverse(anchorPose)), anchorPose)
  }

  /** A frame without a reference, or that became one, is its own anchor: the same record with identity motion. */
  lemma {:induction false} SelfAnchored(frame: nat, submap: nat, pose: SE3)
    ensures NewRecord(frame, submap, pose, frame, pose) == Record(frame, submap, frame, IDENTITY, pose)
  {
    hide Compose, Inverse, IDENTITY;
    ComposeInverse(pose);
  }

  lemma {:induction false} RefinedKeepsWorldPose(rec: Record, submap: nat, before: map<nat, SE3>, after: map<nat, SE3>,
                                                 T_ws: SE3)
    requires rec.submap == submap && before.Keys == after.Keys
    ensures WorldPose(Refined(rec, submap, before, after), after, T_ws) == WorldPose(rec, before, T_ws)
  {
    hide Compose, Inverse, RebaseTrajectoryAnchor, ComposeAnchoredWorldPose;
    if rec.anchor in before {
      ReanchoredWorldPose(rec.T_ca, before[rec.anchor], after[rec.anchor], T_ws);
    }
  }

  lemma {:induction false} ReanchoredKeepsWorldPose(rec: Record, submap: nat, poses: map<nat, SE3>, removed: nat,
                                                    replacement: nat, T_ws: SE3)
    requires rec.submap == submap && removed in poses && replacement in poses && replacement != removed
    ensures var moved := Reanchored(rec, submap, removed, poses[removed], replacement, poses[replacement]);
            && WorldPose(moved, poses - {removed}, T_ws) == WorldPose(rec, poses, T_ws)
            && (rec.anchor in poses ==> moved.anchor in poses - {removed})
  {
    hide Compose, Inverse, RebaseTrajectoryAnchor, ComposeAnchoredWorldPose;
    ReanchoredWorldPose(rec.T_ca, poses[removed], poses[replacement], T_ws);
  }

  /** After a refresh the record may lose its anchor without its world pose falling back to older geometry. */
  lemma {:induction false} RefreshedSurvivesRemoval(rec: Record, submap: nat, poses: map<nat, SE3>, gone: set<nat>,
                                                    T_ws: SE3)
    requires rec.submap == submap
    ensures WorldPose(Refreshed(rec, submap, poses), poses - gone, T_ws) == WorldPose(rec, poses, T_ws)
  {
    hide Compose, Inverse;
  }

  /** A frame's record reads back as the pose it was tracked at, as long as its anchor has not moved. */
  lemma {:induction false} NewRecordReadsBack(frame: nat, submap: nat, pose: SE3, anchor: nat, seen: SE3,
                                              poses: map<nat, SE3>, T_ws: SE3)
    requires anchor in poses ==> poses[anchor] == seen
    ensures WorldPose(NewRecord(frame, submap, pose, anchor, seen), poses, T_ws) == Compose(pose, Inverse(T_ws))
  {
    hide Compose, Inverse;
    ComposeAssoc(Compose(pose, Inverse(seen)), seen, Inverse(T_ws));
    CancelRight(pose, seen);
  }

  /** If the anchor was corrected while the frame was tracked, the record follows the anchor rigidly. */
  lemma {:induction false} NewRecordFollowsAnchor(frame: nat, submap: nat, pose: SE3, anchor: nat, seen: SE3,
                                                  poses: map<nat, SE3>, T_ws: SE3)
    requires anchor in poses
    ensures WorldPose(NewRecord(frame, submap, pose, anchor, seen), poses, T_ws)
         == Compose(RebaseAnchoredFramePose(pose, seen, poses[anchor]), Inverse(T_ws))
  {
    hide Compose, Inverse;
    ComposeAssoc(Compose(pose, Inverse(seen)), poses[anchor], Inverse(T_ws));
  }

  // ---- the committer moves only what it updates --------------------------

  lemma {:induction false} WritePosesFrame(poses: map<nat, SE3>, updates: seq<PoseUpdate>, skip: set<nat>, id: nat)
    requires id in skip || forall i :: 0 <= i < |updates| ==> updates[i].id != id
    ensures WritePoses(poses, updates, skip).Keys == poses.Keys
    ensures id in poses ==> WritePoses(poses, updates, skip)[id] == poses[id]
  {
    if updates != [] {
      WritePosesFrame(poses, updates[..|updates| - 1], skip, id);
    }
  }

  lemma {:induction false} WritePosesKeys(poses: map<nat, SE3>, updates: seq<PoseUpdate>, skip: set<nat>)
    ensures WritePoses(poses, updates, skip).Keys == poses.Keys
  {
    if updates != [] {
      WritePosesKeys(poses, updates[..|updates| - 1], skip);
    }
  }

  // ---- whole runs ---------------------------------------------------------

  /** One submap: its keyframe poses and its records. */
  datatype Track = Track(poses: map<nat, SE3>, records: seq<Record>)

  datatype Event =
    | LocalBA(updates: seq<PoseUpdate>, skip: set<nat>)
    | Cull(removed: nat, replacement: nat)
    | AddKeyframe(id: nat, pose: SE3)
    | AddRecord(rec: Record)

  /** A new keyframe has an id that nothing refers to yet. */
  ghost predicate Happens(t: Track, submap: nat, e: Event) {
    match e
    case LocalBA(_, _) => true
    case Cull(removed, replacement) => removed in t.poses && replacement in t.poses && removed != replacement
    case AddKeyframe(id, _) => id !in t.poses && forall i :: 0 <= i < |t.records| ==> t.records[i].anchor != id
    case AddRecord(rec) => rec.submap == submap
  }

  ghost function After(t: Track, submap: nat, e: Event): Track
    requires Happens(t, submap, e)
  {
    match e
    case LocalBA(updates, skip) =>
      var poses := WritePoses(t.poses, updates, skip);
      Track(poses, seq(|t.records|, i requires 0 <= i < |t.records| => Refined(t.records[i], submap, t.poses, poses)))
    case Cull(removed, replacement) =>
      Track(t.poses - {removed},
            seq(|t.records|, i requires 0 <= i < |t.records| =>
              Reanchored(t.records[i], submap, removed, t.poses[removed], replacement, t.poses[replacement])))
    case AddKeyframe(id, pose) => t.(poses := t.poses[id := pose])
    case AddRecord(rec) => t.(records := t.records + [rec])
  }

  ghost predicate OfSubmap(t: Track, submap: nat) {
    forall i :: 0 <= i < |t.records| ==> t.records[i].submap == submap
  }

  /** The records of t are still there, read back as the same world poses, and no anchor was lost. */
  ghost predicate Preserved(t: Track, now: Track, T_ws: SE3) {
    |t.records| <= |now.records| &&
    forall i :: 0 <= i < |t.records| ==>
      && WorldPose(now.records[i], now.poses, T_ws) == WorldPose(t.records[i], t.poses, T_ws)
      && (t.records[i].anchor in t.poses ==> now.records[i].anchor in now.poses)
  }

  lemma {:induction false} EventPreserves(t: Track, submap: nat, e: Event, T_ws: SE3)
    requires OfSubmap(t, submap) && Happens(t, submap, e)
    ensures OfSubmap(After(t, submap, e), submap) && Preserved(t, After(t, submap, e), T_ws)
  {
    hide WorldPose, Refined, Reanchored, WritePoses;
    RecordsKeepSubmap(t, submap, e);
    forall i | 0 <= i < |t.records|
      ensures var now := After(t, submap, e);
              && WorldPose(now.records[i], now.poses, T_ws) == WorldPose(t.records[i], t.poses, T_ws)
              && (t.records[i].anchor in t.poses ==> now.records[i].anchor in now.poses)
    {
      var rec := t.records[i];
      match e
      case LocalBA(updates, skip) =>
        WritePosesKeys(t.poses, updates, skip);
        RefinedKeepsWorldPose(rec, submap, t.poses, WritePoses(t.poses, updates, skip), T_ws);
        RefinedKeepsAnchor(rec, submap, t.poses, WritePoses(t.poses, updates, skip));
      case Cull(removed, replacement) =>
        ReanchoredKeepsWorldPose(rec, submap, t.poses, removed, replacement, T_ws);
      case AddKeyframe(id, pose) =>
        UnrelatedKeyframe(rec, t.poses, id, pose, T_ws);
      case AddRecord(_) =>
    }
  }

  lemma RefinedKeepsAnchor(rec: Record, submap: nat, before: map<nat, SE3>, after: map<nat, SE3>)
    ensures Refined(rec, submap, before, after).anchor == rec.anchor
  {
  }

  lemma UnrelatedKeyframe(rec: Record, poses: map<nat, SE3>, id: nat, pose: SE3, T_ws: SE3)
    requires id != rec.anchor
    ensures WorldPose(rec, poses[id := pose], T_ws) == WorldPose(rec, poses, T_ws)
  {
    hide ComposeAnchoredWorldPose;
  }

  lemma RecordsKeepSubmap(t: Track, submap: nat, e: Event)
    requires OfSubmap(t, submap) && Happens(t, submap, e)
    ensures OfSubmap(After(t, submap, e), submap)
  {
    hide RebaseTrajectoryAnchor, WritePoses;
  }

  ghost function RunTrack(t: Track, submap: nat, events: seq<Event>): Track
    decreases |events|
  {
    if events == [] then t
    else if !Happens(t, submap, events[0]) then RunTrack(t, submap, events[1..])
    else RunTrack(After(t, submap, events[0]), submap, events[1..])
  }

  /** Over any run of local BA commits, culls in chains, and insertions, published world poses never move. */
  lemma {:induction false} RunKeepsWorldPoses(t: Track, submap: nat, events: seq<Event>, T_ws: SE3)
    requires OfSubmap(t, submap)
    ensures OfSubmap(RunTrack(t, submap, events), submap) && Preserved(t, RunTrack(t, submap, events), T_ws)
    decreases |events|
  {
    hide WorldPose, After, Happens;
    if events != [] {
      if Happens(t, submap, events[0]) {
        EventPreserves(t, submap, events[0], T_ws);
        RunKeepsWorldPoses(After(t, submap, events[0]), submap, events[1..], T_ws);
      } else {
        RunKeepsWorldPoses(t, submap, events[1..], T_ws);
      }
    }
  }

  // ---- the records in place ----------------------------------------------

  class PoseRecords {
    var records: seq<Record>

    constructor ()
      ensures records == []
    {
      records := [];
    }

    method Append(rec: Record)
      modifies this
      ensures records == old(records) + [rec]
    {
      records := records + [rec];
    }

    /** before_keyframe_cull: hand the records of a keyframe over to its replacement. */
    method HandOver(submap: nat, removed: Frame, replacement: Frame)
      modifies this
      ensures |records| == |old(records)|
      ensures forall i :: 0 <= i < |records| ==>
        records[i] == Reanchored(old(records)[i], submap, removed.id, removed.pose, replacement.id, replacement.pose)
    {
      hide RebaseTrajectoryAnchor;
      var i := 0;
      while i < |records|
        invariant 0 <= i <= |records| == |old(records)|
        invariant forall j :: 0 <= j < i ==>
          records[j] == Reanchored(old(records)[j], submap, removed.id, removed.pose, replacement.id, replacement.pose)
        invariant forall j :: i <= j < |records| ==> records[j] == old(records)[j]
      {
        var rec := records[i];
        if rec.submap == submap && rec.anchor == removed.id {
          records := records[i := rec.(
            T_ca := RebaseTrajectoryAnchor(rec.T_ca, removed.pose, replacement.pose),
            anchor := replacement.id, anchorPose := replacement.pose)];
        }
        i := i + 1;
      }
    }

    method Refresh(submap: nat, m: Map)
      requires m.Filed()
      modifies this
      ensures |records| == |old(records)|
      ensures forall i :: 0 <= i < |records| ==> records[i] == Refreshed(old(records)[i], submap, Poses(m))
    {
      hide Poses, Map.Filed;
      LiveKeys(m);
      var i := 0;
      while i < |records|
        invariant 0 <= i <= |records| == |old(records)|
        invariant forall j :: 0 <= j < i ==> records[j] == Refreshed(old(records)[j], submap, Poses(m))
        invariant forall j :: i <= j < |records| ==> records[j] == old(records)[j]
      {
        var rec := records[i];
        if rec.submap == submap && rec.anchor in m.keyframes {
          records := records[i := rec.(anchorPose := m.keyframes[rec.anchor].pose)];
        }
        i := i + 1;
      }
    }

    /** The keyframes a committed result moved, with their poses before and after. */
    static method AnchorChanges(m: Map, before: map<nat, SE3>) returns (changes: map<nat, (SE3, SE3)>)
      requires m.Filed()
      ensures forall id :: id in changes <==> id in before && id in Poses(m) && before[id] != Poses(m)[id]
      ensures forall id :: id in changes ==> changes[id] == (before[id], Poses(m)[id])
    {
      hide Poses, Map.Filed;
      LiveKeys(m);
      changes := map id | id in before && id in m.keyframes && before[id] != m.keyframes[id].pose ::
        (before[id], m.keyframes[id].pose);
    }

    method Rebase(submap: nat, changes: map<nat, (SE3, SE3)>, ghost before: map<nat, SE3>, ghost after: map<nat, SE3>)
      requires forall id :: id in changes <==> id in before && id in after && before[id] != after[id]
      requires forall id :: id in changes ==> changes[id] == (before[id], after[id])
      modifies this
      ensures |records| == |old(records)|
      ensures forall i :: 0 <= i < |records| ==> records[i] == Refined(old(records)[i], submap, before, after)
    {
      hide RebaseTrajectoryAnchor;
      var i := 0;
      while i < |records|
        invariant 0 <= i <= |records| == |old(records)|
        invariant forall j :: 0 <= j < i ==> records[j] == Refined(old(records)[j], submap, before, after)
        invariant forall j :: i <= j < |records| ==> records[j] == old(records)[j]
      {
        var rec := records[i];
        if rec.submap == submap && rec.anchor in changes {
          var (from, to) := changes[rec.anchor];
          records := records[i := rec.(T_ca := RebaseTrajectoryAnchor(rec.T_ca, from, to), anchorPose := to)];
        }
        i := i + 1;
      }
    }

    /** Live poses of the keyframes a result will write. */
    static method PosesToWrite(m: Map, updates: seq<PoseUpdate>, skip: set<nat>) returns (poses: map<nat, SE3>)
      requires m.Filed()
      ensures forall id :: id in poses ==> id in Poses(m) && poses[id] == Poses(m)[id]
      ensures forall i :: 0 <= i < |updates| && updates[i].id !in skip && updates[i].id in Poses(m) ==>
        updates[i].id in poses
    {
      hide Poses, Map.Filed;
      LiveKeys(m);
      poses := map[];
      for i := 0 to |updates|
        invariant forall id :: id in poses ==> id in Poses(m) && poses[id] == Poses(m)[id]
        invariant forall j :: 0 <= j < i && updates[j].id !in skip && updates[j].id in Poses(m) ==>
          updates[j].id in poses
      {
        var id := updates[i].id;
        if id !in skip && id in m.keyframes {
          poses := poses[id := m.keyframes[id].pose];
        }
      }
    }

    /** A local BA result is committed and every record of the submap is rebased in the same transaction. */
    method ApplyLocalBAResult(m: Map, sameMap: bool, submap: nat, r: OptimizationResult, skip: set<nat>, limit: real)
      returns (status: CommitStatus)
      requires m.Filed()
      modifies this, m`geometry, m.frameSet`pose, m.pointSet`pos
      ensures (LiveOf(m), status) == if !sameMap || r.submap != submap then (old(LiveOf(m)), Stale)
                                     else Commit(old(LiveOf(m)), r, skip, limit)
      ensures |records| == |old(records)|
      ensures forall i :: 0 <= i < |records| ==> records[i] == Refined(old(records)[i], submap, old(Poses(m)), Poses(m))
    {
      hide Poses, Positions, WritePoses, WritePoints, Map.Filed, RebaseTrajectoryAnchor, Commit, PassesQuality,
           AllAlive;
      ghost var live := LiveOf(m);
      CommitMovesOnlyUpdates(live, r, skip, limit);
      if !sameMap || r.submap != submap {
        return Stale;
      }
      var before := PosesToWrite(m, r.poses, skip);
      status := CommitResult(m, r, skip, limit, m);
      if status != Committed {
        return;
      }
      var changes := AnchorChanges(m, before);
      Rebase(submap, changes, live.poses, Poses(m));
    }
  }

  lemma CommitMovesOnlyUpdates(live: Live, r: OptimizationResult, skip: set<nat>, limit: real)
    ensures var (after, status) := Commit(live, r, skip, limit);
            && after.poses.Keys == live.poses.Keys
            && (status != Committed ==> after == live)
            && forall id :: id in live.poses && after.poses[id] != live.poses[id] ==>
                 exists i :: 0 <= i < |r.poses| && r.poses[i].id == id && id !in skip
  {
    hide WritePoses, WritePoints, PassesQuality, AllAlive;
    WritePosesKeys(live.poses, r.poses, skip);
    forall id | id in live.poses && (id in skip || forall i :: 0 <= i < |r.poses| ==> r.poses[i].id != id)
      ensures WritePoses(live.poses, r.poses, skip)[id] == live.poses[id]
    {
      WritePosesFrame(live.poses, r.poses, skip, id);
    }
  }
}
