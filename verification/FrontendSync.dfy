/** The front end's world pose baseline and the T_wo / T_oc split it publishes, across back-end corrections. */
module FrontendSync {
  import opened RigidMotion
  import opened Rebasing
  import opened MapEntities
  import opened Trajectory

  /** What a frame reads of the map once, at its start. */
  datatype Snapshot = Snapshot(localMap: Option<nat>, geometry: nat, submap: nat, T_ws: SE3, hasRef: bool, ref: nat,
                               refPose: SE3)

  /** The newest local BA commit; its records were rebased, so it moved no published pose. */
  datatype Refinement = NoRefinement | Refinement(localMap: nat, submap: nat, geometry: nat)

  datatype Anchor = Anchor(submap: nat, localMap: nat, T_ws: SE3)

  /** The live map and Atlas at the end of a frame; seen and T_ws belong to the submap of the frame's record. */
  datatype World = World(active: Option<Anchor>, geometry: nat, poses: map<nat, SE3>, seen: map<nat, SE3>, T_ws: SE3)

  /** A tracked frame; isRef says it has itself become the reference keyframe. */
  datatype Tracked = Tracked(id: nat, pose: SE3, valid: bool, isRef: bool)

  /**
   * A frame tracked at pose that proposes itself as a keyframe: the snapshot the map would give now, its active submap,
   * and whether the snapshot's reference is still the registered reference keyframe.
   */
  datatype Attempt = Attempt(pose: SE3, live: Snapshot, active: Option<nat>, registered: bool)

  datatype State = State(snap: Snapshot, last: Option<SE3>, lastGeometry: nat, motion: Option<SE3>,
                         output: Option<CameraSplit>, generation: nat)

  class Frontend {
    var snap: Snapshot
    var last: Option<SE3>
    var lastGeometry: nat
    var motion: Option<SE3>
    var output: Option<CameraSplit>
    var generation: nat

    function View(): State
      reads this
    {
      State(snap, last, lastGeometry, motion, output, generation)
    }

    constructor (empty: Snapshot)
      ensures View() == Fresh(empty)
    {
      snap, last, lastGeometry, motion, output, generation := empty, None, 0, None, None, 0;
    }

    method SyncAnchor(submap: nat, T_ws: SE3)
      modifies this`snap, this`last
      ensures View() == AnchorSynced(old(View()), submap, T_ws)
    {
      if snap.localMap.None? || snap.submap != submap || Same(snap.T_ws, T_ws) {
        return;
      }
      if last.Some? {
        last := Some(RebaseWorldPoseForSubmapAnchor(last.value, snap.T_ws, T_ws));
      }
      snap := snap.(T_ws := T_ws);
    }

    method SyncGeometry(before: Snapshot, after: Snapshot, ba: Refinement)
      modifies this`last, this`lastGeometry
      ensures View() == GeometrySynced(old(View()), before, after, ba)
    {
      if last.None? || before.localMap.None? || before.localMap != after.localMap || before.submap != after.submap
         || !before.hasRef || !after.hasRef || before.ref != after.ref
         || before.geometry == after.geometry || lastGeometry != before.geometry {
        return;
      }
      if !RefinedOnly(ba, after) {
        var oldLocal := Compose(last.value, before.T_ws);
        var newLocal := RebaseAnchoredFramePose(oldLocal, before.refPose, after.refPose);
        last := Some(Compose(newLocal, Inverse(after.T_ws)));
      }
      lastGeometry := after.geometry;
    }

    method BeginFrame(next: Snapshot, ba: Refinement)
      modifies this
      ensures View() == Begun(old(View()), next, ba)
    {
      SyncGeometry(snap, next, ba);
      SyncAnchor(next.submap, next.T_ws);
      snap := next;
    }

    /**
     * insertKeyFrame's first decision: a frame tracked in a geometry that is gone is not inserted but moved to the new
     * one.
     */
    method TryKeyFrame(a: Attempt, ba: Refinement) returns (inserted: bool, pose: SE3)
      modifies this`snap
      ensures inserted <==> Inserts(old(snap), a)
      ensures View() == Attempted(old(View()), a) && pose == AttemptedPose(old(snap), a, ba)
    {
      inserted, pose := false, a.pose;
      var identical := snap.localMap == a.live.localMap && a.active == Some(snap.submap);
      if identical && snap.geometry == a.live.geometry {
        inserted := true;
      } else if identical && snap.hasRef && a.registered {
        if !RefinedOnly(ba, a.live) {
          pose := RebaseAnchoredFramePose(pose, snap.refPose, a.live.refPose);
        }
        snap := a.live;
      }
    }

    method EndFrame(frame: Tracked, w: World, ba: Refinement) returns (shown: SE3)
      modifies this
      ensures View() == Ended(old(View()), frame, w, ba)
      ensures frame.valid ==> shown == Shown(FrameRecord(TailSynced(old(View()), w, ba), frame, w, ba), w)
      ensures !frame.valid ==> shown == Compose(frame.pose, Inverse(TailSynced(old(View()), w, ba).snap.T_ws))
    {
      var frameSnapshot := snap;
      if w.active.Some? && w.active.value.submap == snap.submap && Some(w.active.value.localMap) == snap.localMap {
        SyncAnchor(w.active.value.submap, w.active.value.T_ws);
        var live := snap.(geometry := w.geometry);
        if snap.hasRef && snap.ref in w.poses {
          live := live.(refPose := w.poses[snap.ref]);
        }
        SyncGeometry(frameSnapshot, live, ba);
      }
      assert View() == TailSynced(old(View()), w, ba);
      if !frame.valid {
        return Compose(frame.pose, Inverse(snap.T_ws));
      }
      shown := Shown(FrameRecord(View(), frame, w, ba), w);
      if last.Some? {
        motion := Some(Compose(Inverse(Inverse(last.value)), Inverse(shown)));
      }
      Publish(Inverse(shown));
      last := Some(shown);
      lastGeometry := w.geometry;
    }

    method Publish(T_wc: SE3)
      modifies this`output, this`generation
      ensures (output, generation) == Split(old(output), old(generation), motion, T_wc)
    {
      if output.None? {
        output := Some(SplitGlobalCameraPose(T_wc, T_wc));
      } else if motion.Some? {
        var split := SplitGlobalCameraPose(T_wc, Compose(output.value.T_oc, motion.value));
        if !Same(split.T_wo, output.value.T_wo) {
          generation := generation + 1;
        }
        output := Some(split);
      }
    }
  }

  // ---- the same steps on values ------------------------------------------------------

  function Fresh(empty: Snapshot): State {
    State(empty, None, 0, None, None, 0)
  }

  predicate RefinedOnly(ba: Refinement, after: Snapshot) {
    ba.Refinement? && after.localMap == Some(ba.localMap) && after.submap == ba.submap && after.geometry == ba.geometry
  }

  predicate SameReference(before: Snapshot, after: Snapshot) {
    && before.localMap.Some? && before.localMap == after.localMap && before.submap == after.submap
    && before.hasRef && after.hasRef && before.ref == after.ref
  }

  function AnchorSynced(s: State, submap: nat, T_ws: SE3): State {
    if s.snap.localMap.None? || s.snap.submap != submap || Same(s.snap.T_ws, T_ws) then s
    else s.(last := if s.last.Some? then
                    Some(RebaseWorldPoseForSubmapAnchor(s.last.value, s.snap.T_ws, T_ws)) else None,
            snap := s.snap.(T_ws := T_ws))
  }

  /** The geometry sync acts: the baseline was measured in the geometry that is now replaced. */
  predicate Fires(s: State, before: Snapshot, after: Snapshot) {
    s.last.Some? && SameReference(before, after) && before.geometry != after.geometry &&
    s.lastGeometry == before.geometry
  }

  function Followed(T_cw: SE3, before: Snapshot, after: Snapshot): SE3 {
    Compose(RebaseAnchoredFramePose(Compose(T_cw, before.T_ws), before.refPose, after.refPose), Inverse(after.T_ws))
  }

  function GeometrySynced(s: State, before: Snapshot, after: Snapshot, ba: Refinement): State {
    if !Fires(s, before, after) then s
    else if RefinedOnly(ba, after) then s.(lastGeometry := after.geometry)
    else s.(last := Some(Followed(s.last.value, before, after)), lastGeometry := after.geometry)
  }

  function Begun(s: State, next: Snapshot, ba: Refinement): State {
    AnchorSynced(GeometrySynced(s, s.snap, next, ba), next.submap, next.T_ws).(snap := next)
  }

  predicate Inserts(snap: Snapshot, a: Attempt) {
    snap.localMap == a.live.localMap && a.active == Some(snap.submap) && snap.geometry == a.live.geometry
  }

  /** The insertion is refused because the geometry moved on, and the frame goes on in the new geometry. */
  predicate Recaptures(snap: Snapshot, a: Attempt) {
    && snap.localMap == a.live.localMap && a.active == Some(snap.submap) && snap.geometry != a.live.geometry
    && snap.hasRef && a.registered
  }

  function Attempted(s: State, a: Attempt): State {
    if Recaptures(s.snap, a) then s.(snap := a.live) else s
  }

  function AttemptedPose(snap: Snapshot, a: Attempt, ba: Refinement): SE3 {
    if Recaptures(snap, a) && !RefinedOnly(ba, a.live)
    then RebaseAnchoredFramePose(a.pose, snap.refPose, a.live.refPose)
    else a.pose
  }

  function LiveSnapshot(snap: Snapshot, w: World): Snapshot {
    snap.(geometry := w.geometry,
          refPose := if snap.hasRef && snap.ref in w.poses then w.poses[snap.ref] else snap.refPose)
  }

  predicate ActiveIs(snap: Snapshot, w: World) {
    w.active.Some? && w.active.value.submap == snap.submap && Some(w.active.value.localMap) == snap.localMap
  }

  function TailSynced(s: State, w: World, ba: Refinement): State {
    if !ActiveIs(s.snap, w) then s
    else
      var t := AnchorSynced(s, w.active.value.submap, w.active.value.T_ws);
      GeometrySynced(t, s.snap, LiveSnapshot(t.snap, w), ba)
  }

  /** A refinement inside the frame binds the record to the live reference, so the frame does not move. */
  function FrameRecord(s: State, frame: Tracked, w: World, ba: Refinement): Record {
    var refined := s.snap.geometry != w.geometry && RefinedOnly(ba, s.snap.(geometry := w.geometry));
    var bindLive := refined && s.snap.ref in w.poses;
    if !s.snap.hasRef || frame.isRef then NewRecord(frame.id, s.snap.submap, frame.pose, frame.id, frame.pose)
    else NewRecord(frame.id, s.snap.submap, frame.pose, s.snap.ref,
                   if bindLive then w.poses[s.snap.ref] else s.snap.refPose)
  }

  function Shown(rec: Record, w: World): SE3 {
    WorldPose(rec, w.seen, w.T_ws)
  }

  function Split(output: Option<CameraSplit>, generation: nat, motion: Option<SE3>,
                 T_wc: SE3): (Option<CameraSplit>, nat) {
    if output.None? then (Some(SplitGlobalCameraPose(T_wc, T_wc)), generation)
    else if motion.None? then (output, generation)
    else
      var split := SplitGlobalCameraPose(T_wc, Compose(output.value.T_oc, motion.value));
      (Some(split), if Same(split.T_wo, output.value.T_wo) then generation else generation + 1)
  }

  function Published(s: State, shown: SE3, geometry: nat): State {
    var motion := if s.last.Some? then Some(Compose(Inverse(Inverse(s.last.value)), Inverse(shown))) else s.motion;
    var split := Split(s.output, s.generation, motion, Inverse(shown));
    s.(motion := motion, output := split.0, generation := split.1, last := Some(shown), lastGeometry := geometry)
  }

  function Ended(s: State, frame: Tracked, w: World, ba: Refinement): State {
    var t := TailSynced(s, w, ba);
    if frame.valid then Published(t, Shown(FrameRecord(t, frame, w, ba), w), w.geometry) else t
  }

  // ---- runs ------------------------------------------------------------------------------

  /** Recapture is a snapshot taken in the middle of a frame, at a refused keyframe insertion or a relocalization. */
  datatype Event = Begin(next: Snapshot, ba: Refinement)
                 | Recapture(next: Snapshot)
                 | End(frame: Tracked, w: World, ba: Refinement)

  function Synced(s: State, e: Event): State {
    match e
    case Begin(next, ba) => Begun(s, next, ba)
    case Recapture(next) => s.(snap := next)
    case End(_, w, ba) => TailSynced(s, w, ba)
  }

  function Next(s: State, e: Event): State {
    if e.End? then Ended(s, e.frame, e.w, e.ba) else Synced(s, e)
  }

  /** The left factor by which a sync moved the baseline T_wc. */
  function MovedBy(before: SE3, after: SE3): SE3 {
    Compose(Inverse(after), before)
  }

  /** moved is the first T_wo times, newest first, every factor applied since the first valid frame. */
  datatype Run = Run(s: State, moved: Option<SE3>)

  function Corrected(r: Run, e: Event): Option<SE3> {
    if r.moved.None? || r.s.last.None? || Synced(r.s, e).last.None? then r.moved
    else Some(Compose(MovedBy(r.s.last.value, Synced(r.s, e).last.value), r.moved.value))
  }

  function Extend(r: Run, e: Event): Run {
    var next := Next(r.s, e);
    Run(next, if r.moved.None? && next.output.Some? then Some(next.output.value.T_wo) else Corrected(r, e))
  }

  function After(empty: Snapshot, events: seq<Event>): Run {
    if events == [] then Run(Fresh(empty), None)
    else Extend(After(empty, events[..|events| - 1]), events[|events| - 1])
  }

  /** The baseline is the integrated odometry, moved by the syncs and by nothing else. */
  ghost predicate Explained(r: Run) {
    && (r.s.last.Some? <==> r.s.output.Some?) && (r.s.last.Some? <==> r.moved.Some?)
    && (r.s.last.Some? ==> Inverse(r.s.last.value) == Compose(r.moved.value, r.s.output.value.T_oc))
  }

  lemma SyncsTouchOnlyBaseline(s: State, e: Event)
    ensures var t := Synced(s, e);
            t.output == s.output && t.motion == s.motion && t.generation == s.generation &&
            (t.last.Some? <==> s.last.Some?)
  {
    hide Compose, Inverse, Same, Followed, RefinedOnly, SameReference;
  }

  lemma MovedByMoves(before: SE3, after: SE3)
    ensures Inverse(after) == Compose(MovedBy(before, after), Inverse(before))
  {
    hide Compose, Inverse;
    CancelRight(Inverse(after), before);
  }

  lemma {:induction false} SyncKeepsExplained(r: Run, e: Event)
    requires Explained(r)
    ensures Explained(Run(Synced(r.s, e), Corrected(r, e)))
  {
    hide Compose, Inverse, Synced;
    SyncsTouchOnlyBaseline(r.s, e);
    var t := Synced(r.s, e);
    if t.last.Some? {
      hide MovedBy;
      MovedByMoves(r.s.last.value, t.last.value);
      ComposeAssoc(MovedBy(r.s.last.value, t.last.value), r.moved.value, r.s.output.value.T_oc);
    }
  }

  /** The first valid frame makes the odometry frame the world frame. */
  lemma {:induction false} FirstFrame(s: State, shown: SE3, geometry: nat)
    requires s.last.None? && s.output.None?
    ensures var t := Published(s, shown, geometry);
            t.output == Some(CameraSplit(Inverse(shown), IDENTITY)) && t.last == Some(shown) &&
            t.generation == s.generation
  {
    hide Compose, Inverse, IDENTITY, Same;
    ComposeInverse(Inverse(shown));
  }

  /**
   * Every later one: T_wo composed with T_oc is the shown pose, T_oc advanced by exactly the motion from the
   * baseline to that pose, T_wo is the product of the corrections so far, and its generation counts its changes.
   */
  lemma {:induction false} LaterFrame(r: Run, shown: SE3, geometry: nat)
    requires Explained(r) && r.s.last.Some?
    ensures var t := Published(r.s, shown, geometry);
            && t.last == Some(shown) && t.output.Some?
            && t.motion == Some(Compose(r.s.last.value, Inverse(shown)))
            && t.output.value == CameraSplit(Compose(r.s.output.value.T_oc, t.motion.value), r.moved.value)
            && Compose(t.output.value.T_wo, t.output.value.T_oc) == Inverse(shown)
            && t.generation == r.s.generation + if Same(r.moved.value, r.s.output.value.T_wo) then 0 else 1
  {
    hide Compose, Inverse, Same;
    var T_wc, X, o := Inverse(shown), Inverse(r.s.last.value), r.s.output.value.T_oc;
    InverseInverse(r.s.last.value);
    var motion := Compose(Inverse(X), T_wc);
    var next := Compose(o, motion);
    CancelLeft(X, T_wc);
    ComposeAssoc(r.moved.value, o, motion);
    ComposeAssoc(X, Inverse(X), T_wc);
    ComposeAssoc(r.moved.value, o, motion);
    CancelRight(r.moved.value, next);
    assert Compose(r.moved.value, next) == T_wc;
  }

  lemma NextIsPublished(s: State, e: Event)
    ensures Next(s, e) == if e.End? && e.frame.valid
                          then Published(Synced(s, e), Shown(FrameRecord(Synced(s, e), e.frame, e.w, e.ba), e.w),
                                         e.w.geometry)
                          else Synced(s, e)
  {
    hide Compose, Inverse, Published, Shown, FrameRecord, TailSynced, Begun;
  }

  /** One event of a run; a valid frame publishes a consistent split whose T_wo is the correction so far. */
  lemma {:induction false} ExtendKeepsExplained(r: Run, e: Event)
    requires Explained(r)
    ensures Explained(Extend(r, e))
    ensures e.End? && e.frame.valid ==> PublishesSplit(Extend(r, e))
  {
    hide Compose, Inverse, IDENTITY, Synced, MovedBy, Published, Shown, FrameRecord, Next;
    SyncKeepsExplained(r, e);
    SyncsTouchOnlyBaseline(r.s, e);
    NextIsPublished(r.s, e);
    var t := Run(Synced(r.s, e), Corrected(r, e));
    if e.End? && e.frame.valid {
      var shown := Shown(FrameRecord(t.s, e.frame, e.w, e.ba), e.w);
      if t.s.last.Some? {
        LaterFrame(t, shown, e.w.geometry);
      } else {
        FirstFrame(t.s, shown, e.w.geometry);
        ComposeIdentity(Inverse(shown));
      }
    }
  }

  ghost predicate PublishesSplit(r: Run) {
    && r.s.last.Some? && r.s.output.Some? && r.moved.Some?
    && Compose(r.s.output.value.T_wo, r.s.output.value.T_oc) == Inverse(r.s.last.value)
    && r.s.output.value.T_wo == r.moved.value
  }

  lemma {:induction false} RunIsExplained(empty: Snapshot, events: seq<Event>)
    ensures Explained(After(empty, events))
  {
    hide Compose, Inverse, Extend, Explained;
    if events == [] {
      FreshIsExplained(empty);
    } else {
      RunIsExplained(empty, events[..|events| - 1]);
      ExtendKeepsExplained(After(empty, events[..|events| - 1]), events[|events| - 1]);
    }
  }

  lemma FreshIsExplained(empty: Snapshot)
    ensures Explained(Run(Fresh(empty), None))
  {
  }

  /** After every valid frame of every run: T_wc == T_wo * T_oc, and T_wo is the product of the sync factors. */
  lemma {:induction false} EveryValidFrame(empty: Snapshot, events: seq<Event>)
    requires events != [] && events[|events| - 1].End? && events[|events| - 1].frame.valid
    ensures PublishesSplit(After(empty, events))
  {
    hide Compose, Inverse, Extend, Explained, PublishesSplit;
    RunIsExplained(empty, events[..|events| - 1]);
    ExtendKeepsExplained(After(empty, events[..|events| - 1]), events[|events| - 1]);
  }

  // ---- runs without correction ------------------------------------------------------------

  /** As long as submap and reference stay, neither the anchor nor the geometry moved, except by a refinement. */
  predicate Uncorrected(before: Snapshot, after: Snapshot, ba: Refinement) {
    && (before.submap == after.submap ==> Same(before.T_ws, after.T_ws))
    && (SameReference(before, after) && before.geometry != after.geometry ==> RefinedOnly(ba, after))
  }

  predicate Quiet(s: State, e: Event) {
    match e
    case Begin(next, ba) => Uncorrected(s.snap, next, ba)
    case Recapture(_) => true
    case End(_, w, ba) => ActiveIs(s.snap, w) ==>
      Uncorrected(s.snap, LiveSnapshot(s.snap, w).(T_ws := w.active.value.T_ws), ba)
  }

  predicate AllQuiet(empty: Snapshot, events: seq<Event>) {
    events == [] ||
    (AllQuiet(empty, events[..|events| - 1]) && Quiet(After(empty, events[..|events| - 1]).s, events[|events| - 1]))
  }

  lemma {:induction false} QuietKeepsBaseline(s: State, e: Event)
    requires Quiet(s, e)
    ensures Synced(s, e).last == s.last
  {
    hide Compose, Inverse, IDENTITY, Same, Followed;
  }

  ghost predicate Unmoved(r: Run) {
    r.s.generation == 0 && (r.s.output.Some? ==> r.moved == Some(r.s.output.value.T_wo))
  }

  lemma {:induction false} QuietStep(r: Run, e: Event)
    requires Explained(r) && Quiet(r.s, e) && Unmoved(r)
    ensures Unmoved(Extend(r, e)) && (r.s.output.Some? ==> Extend(r, e).s.output.Some?)
    ensures Extend(r, e).s.output.Some? ==>
      Extend(r, e).s.output.value.T_wo == if r.s.output.Some? then r.s.output.value.T_wo else IDENTITY
  {
    hide Compose, Inverse, IDENTITY, Synced, Shown, FrameRecord, Quiet, Next, Published, Same;
    QuietKeepsBaseline(r.s, e);
    SyncsTouchOnlyBaseline(r.s, e);
    SyncKeepsExplained(r, e);
    NextIsPublished(r.s, e);
    var t := Run(Synced(r.s, e), Corrected(r, e));
    if r.s.last.Some? {
      ComposeInverse(Inverse(r.s.last.value));
      InverseInverse(r.s.last.value);
      ComposeIdentity(r.moved.value);
      SameRefl(r.moved.value);
    }
    if e.End? && e.frame.valid {
      var shown := Shown(FrameRecord(t.s, e.frame, e.w, e.ba), e.w);
      if t.s.last.Some? {
        LaterFrame(t, shown, e.w.geometry);
      } else {
        FirstFrame(t.s, shown, e.w.geometry);
      }
    }
  }

  /** Without corrections T_wo stays the identity and its generation 0; local BA commits alone change nothing. */
  lemma {:induction false} UncorrectedRunKeepsSplit(empty: Snapshot, events: seq<Event>)
    requires AllQuiet(empty, events)
    ensures Unmoved(After(empty, events))
    ensures After(empty, events).s.output.Some? ==> After(empty, events).s.output.value.T_wo == IDENTITY
  {
    hide Compose, Inverse, IDENTITY, Extend, Explained, Quiet;
    if events != [] {
      hide Unmoved;
      var before := events[..|events| - 1];
      UncorrectedRunKeepsSplit(empty, before);
      RunIsExplained(empty, before);
      QuietStep(After(empty, before), events[|events| - 1]);
    }
  }
}
