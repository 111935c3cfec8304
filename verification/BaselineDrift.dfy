/** Does the front end's baseline stay where the trajectory has its frame, and is a correction ever taken for motion. */
module BaselineDrift {
  import opened RigidMotion
  import opened MapEntities
  import opened Trajectory
  import opened FrontendSync

  // ---- what the trajectory makes of a published frame ------------------------------------

  /** A geometry commit and the pose it leaves at one keyframe: a local BA, or a loop or global correction. */
  datatype Commit = Refine(pose: SE3) | Correct(pose: SE3)

  function PoseAfter(p: SE3, commits: seq<Commit>): SE3 {
    if commits == [] then p else commits[|commits| - 1].pose
  }

  /** A local BA rebases the records of its submap, every other commit moves them with their anchor. */
  function RecordAfter(rec: Record, p: SE3, commits: seq<Commit>): Record {
    if commits == [] then rec
    else
      var before, c := RecordAfter(rec, p, commits[..|commits| - 1]), commits[|commits| - 1];
      if c.Correct? then before
      else Refined(before, rec.submap, map[rec.anchor := PoseAfter(p, commits[..|commits| - 1])],
                   map[rec.anchor := c.pose])
  }

  /** What the corrections, and only they, move a frame by within its submap. */
  function Drift(p: SE3, commits: seq<Commit>): SE3 {
    if commits == [] then IDENTITY
    else
      var before, c := commits[..|commits| - 1], commits[|commits| - 1];
      if c.Refine? then Drift(p, before)
      else Compose(Drift(p, before), Compose(Inverse(PoseAfter(p, before)), c.pose))
  }

  lemma {:induction false} RecordDrifts(rec: Record, p: SE3, commits: seq<Commit>)
    ensures var r := RecordAfter(rec, p, commits);
            && r.submap == rec.submap && r.anchor == rec.anchor
            && Compose(r.T_ca, PoseAfter(p, commits)) == Compose(Compose(rec.T_ca, p), Drift(p, commits))
  {
    hide Compose, Inverse, IDENTITY;
    var local := Compose(rec.T_ca, p);
    if commits == [] {
      ComposeIdentity(local);
    } else {
      var before, c := commits[..|commits| - 1], commits[|commits| - 1];
      RecordDrifts(rec, p, before);
      var r, q := RecordAfter(rec, p, before), PoseAfter(p, before);
      if c.Refine? {
        CancelRight(Compose(r.T_ca, q), c.pose);
      } else {
        ComposeAssoc(local, Drift(p, before), Compose(Inverse(q), c.pose));
        ComposeAssoc(Compose(r.T_ca, q), Inverse(q), c.pose);
        CancelRight(r.T_ca, q);
      }
    }
  }

  lemma {:induction false} DriftAppends(p: SE3, first: seq<Commit>, second: seq<Commit>)
    ensures PoseAfter(p, first + second) == PoseAfter(PoseAfter(p, first), second)
    ensures Drift(p, first + second) == Compose(Drift(p, first), Drift(PoseAfter(p, first), second))
  {
    hide Compose, Inverse, IDENTITY;
    if second == [] {
      assert first + second == first;
      ComposeIdentity(Drift(p, first));
    } else {
      var before, c := second[..|second| - 1], second[|second| - 1];
      DriftAppends(p, first, before);
      assert (first + second)[..|first + second| - 1] == first + before;
      var q := PoseAfter(p, first);
      ComposeAssoc(Drift(p, first), Drift(q, before), Compose(Inverse(PoseAfter(q, before)), c.pose));
    }
  }

  predicate Refinements(commits: seq<Commit>) {
    forall c :: c in commits ==> c.Refine?
  }

  predicate Corrections(commits: seq<Commit>) {
    forall c :: c in commits ==> c.Correct?
  }

  lemma {:induction false} RefinementsDoNotDrift(p: SE3, commits: seq<Commit>)
    requires Refinements(commits)
    ensures Drift(p, commits) == IDENTITY
  {
    hide Compose, Inverse, IDENTITY;
    if commits != [] {
      RefinementsDoNotDrift(p, commits[..|commits| - 1]);
    }
  }

  lemma {:induction false} CorrectionsTelescope(p: SE3, commits: seq<Commit>)
    requires Corrections(commits)
    ensures Drift(p, commits) == Compose(Inverse(p), PoseAfter(p, commits))
  {
    hide Compose, Inverse, IDENTITY;
    if commits == [] {
      ComposeInverse(p);
    } else {
      var before, c := commits[..|commits| - 1], commits[|commits| - 1];
      assert c in commits;
      CorrectionsTelescope(p, before);
      var q := PoseAfter(p, before);
      ComposeAssoc(Inverse(p), q, Compose(Inverse(q), c.pose));
      CancelLeft(q, c.pose);
    }
  }

  // ---- the start of a frame ----------------------------------------------------------------

  /** What the two syncs of a frame start move the baseline by, seen in its submap. */
  function StartMove(s: State, next: Snapshot, ba: Refinement): SE3 {
    if Fires(s, s.snap, next) && !RefinedOnly(ba, next)
    then Compose(Compose(Inverse(s.snap.refPose), next.refPose), Compose(Inverse(next.T_ws), s.snap.T_ws))
    else IDENTITY
  }

  /** The pose within the submap that a world pose stands for. */
  function Local(s: State): SE3
    requires s.last.Some?
  {
    Compose(s.last.value, s.snap.T_ws)
  }

  lemma {:induction false} AnchorSyncFollows(s: State, T_ws: SE3)
    requires s.last.Some? && s.snap.localMap.Some?
    ensures var t := AnchorSynced(s, s.snap.submap, T_ws);
            && t.last.Some? && Same(t.last.value, Compose(Local(s), Inverse(T_ws)))
            && t == s.(last := t.last, snap := t.snap) && t.snap == s.snap.(T_ws := t.snap.T_ws)
            && Same(t.snap.T_ws, T_ws)
  {
    hide Compose, Inverse, Same;
    SameRefl(T_ws);
    SameRefl(Compose(Local(s), Inverse(T_ws)));
    if Same(s.snap.T_ws, T_ws) {
      CancelRight(s.last.value, s.snap.T_ws);
      SameInverse(s.snap.T_ws, T_ws);
      SameCompose(Inverse(s.snap.T_ws), Inverse(T_ws), Local(s));
    }
  }

  lemma FollowedFactors(T_cw: SE3, before: Snapshot, after: Snapshot)
    ensures Followed(T_cw, before, after)
         == Compose(Compose(Compose(T_cw, before.T_ws), Compose(Inverse(before.refPose), after.refPose)),
                    Inverse(after.T_ws))
  {
    hide Compose, Inverse;
    ComposeAssoc(Compose(T_cw, before.T_ws), Inverse(before.refPose), after.refPose);
  }

  lemma {:induction false} StartBaseline(s: State, next: Snapshot, ba: Refinement)
    requires s.last.Some? && s.snap.localMap.Some? && s.snap.submap == next.submap
    ensures Begun(s, next, ba).last.Some?
    ensures Same(Begun(s, next, ba).last.value, Compose(Compose(Local(s), StartMove(s, next, ba)), Inverse(next.T_ws)))
  {
    hide Compose, Inverse, IDENTITY, Same, RefinedOnly, Followed, AnchorSynced;
    var g := GeometrySynced(s, s.snap, next, ba);
    assert g.snap == s.snap;
    AnchorSyncFollows(g, next.T_ws);
    if Fires(s, s.snap, next) && !RefinedOnly(ba, next) {
      FollowedFactors(s.last.value, s.snap, next);
      var ref := Compose(Inverse(s.snap.refPose), next.refPose);
      ComposeAssoc(Compose(Local(s), ref), Inverse(next.T_ws), s.snap.T_ws);
      ComposeAssoc(Local(s), ref, Compose(Inverse(next.T_ws), s.snap.T_ws));
    } else {
      ComposeIdentity(Local(s));
    }
  }

  /** The baseline is where the trajectory has its frame, with the record's anchor at p and the submap's at T_ws. */
  ghost predicate Agrees(s: State, rec: Record, p: SE3, T_ws: SE3) {
    s.last.Some? && Same(s.last.value, WorldPose(rec, map[rec.anchor := p], T_ws))
  }

  /**
   * The baseline agreed with a record while the submap anchor was at T_ws. After any commits and any move of the anchor
   * it agrees with the record again exactly if it was moved by what the corrections moved the record by: the syncs
   * count, and so does a snapshot that was retaken without them.
   */
  lemma {:induction false} BaselineFollowsAtStart(s: State, next: Snapshot, ba: Refinement, rec: Record, p: SE3,
                                                  T_ws: SE3, commits: seq<Commit>)
    requires s.snap.localMap.Some? && s.snap.submap == next.submap && Agrees(s, rec, p, T_ws)
    ensures Agrees(Begun(s, next, ba), RecordAfter(rec, p, commits), PoseAfter(p, commits), next.T_ws)
       <==> Same(Compose(Compose(Inverse(T_ws), s.snap.T_ws), StartMove(s, next, ba)), Drift(p, commits))
  {
    hide Compose, Inverse, IDENTITY, Same, Begun, StartMove, Drift, RecordAfter, PoseAfter;
    var N, move, drift := Inverse(next.T_ws), StartMove(s, next, ba), Drift(p, commits);
    var r, local, turn := RecordAfter(rec, p, commits), Compose(rec.T_ca, p), Compose(Inverse(T_ws), s.snap.T_ws);
    RecordDrifts(rec, p, commits);
    ComposeAssoc(r.T_ca, PoseAfter(p, commits), N);
    ComposeAssoc(rec.T_ca, p, Inverse(T_ws));
    SameCompose(s.last.value, Compose(local, Inverse(T_ws)), s.snap.T_ws);
    ComposeAssoc(local, Inverse(T_ws), s.snap.T_ws);
    StartBaseline(s, next, ba);
    SameCompose(Local(s), Compose(local, turn), move);
    SameCompose(Compose(Local(s), move), Compose(Compose(local, turn), move), N);
    var there := Compose(Compose(local, drift), N);
    SameThrough(Begun(s, next, ba).last.value, Compose(Compose(Local(s), move), N), there);
    SameThrough(Compose(Compose(Local(s), move), N), Compose(Compose(Compose(local, turn), move), N), there);
    SameRight(Compose(Compose(local, turn), move), Compose(local, drift), N);
    ComposeAssoc(local, turn, move);
    SameLeft(local, Compose(turn, move), drift);
  }

  /** If the snapshot still has the anchor the baseline was measured at, the syncs alone decide. */
  lemma {:induction false} SyncsDecide(s: State, next: Snapshot, ba: Refinement, rec: Record, p: SE3,
                                     commits: seq<Commit>)
    requires s.snap.localMap.Some? && s.snap.submap == next.submap && Agrees(s, rec, p, s.snap.T_ws)
    ensures Agrees(Begun(s, next, ba), RecordAfter(rec, p, commits), PoseAfter(p, commits), next.T_ws)
       <==> Follows(s, next, ba, p, commits)
  {
    hide Compose, Inverse, IDENTITY, Same, Begun, StartMove, Drift, RecordAfter, PoseAfter, Agrees;
    BaselineFollowsAtStart(s, next, ba, rec, p, s.snap.T_ws, commits);
    ComposeInverse(s.snap.T_ws);
    ComposeIdentity(StartMove(s, next, ba));
  }

  /**
   * The commits since the baseline was measured, as the snapshots show them when the geometry sync acts: it then was
   * measured in the snapshot's geometry, and the newest commit is marked if it was a local BA.
   */
  ghost predicate Shows(s: State, next: Snapshot, ba: Refinement, p: SE3, commits: seq<Commit>) {
    Fires(s, s.snap, next) ==>
      && commits != [] && p == s.snap.refPose && next.refPose == PoseAfter(p, commits)
      && (RefinedOnly(ba, next) <==> commits[|commits| - 1].Refine?)
  }

  /** The baseline follows these commits. */
  ghost predicate Follows(s: State, next: Snapshot, ba: Refinement, p: SE3, commits: seq<Commit>) {
    Same(StartMove(s, next, ba), Drift(p, commits))
  }

  /** Local BA commits alone are always followed. */
  lemma {:induction false} RefinementsAreFollowed(s: State, next: Snapshot, ba: Refinement, p: SE3,
                                                  commits: seq<Commit>)
    requires Shows(s, next, ba, p, commits) && Refinements(commits)
    ensures Follows(s, next, ba, p, commits)
  {
    hide Compose, Inverse, IDENTITY, Same, Fires, RefinedOnly;
    RefinementsDoNotDrift(p, commits);
    SameRefl(IDENTITY);
  }

  /** Corrections alone are followed by an acting sync exactly if the submap anchor stayed: it is applied twice. */
  lemma {:induction false} CorrectionsAreFollowed(s: State, next: Snapshot, ba: Refinement, p: SE3,
                                                  commits: seq<Commit>)
    requires Shows(s, next, ba, p, commits) && Fires(s, s.snap, next) && Corrections(commits)
    ensures Follows(s, next, ba, p, commits) <==> Same(s.snap.T_ws, next.T_ws)
  {
    hide Compose, Inverse, IDENTITY, Same, Fires, RefinedOnly;
    assert commits[|commits| - 1] in commits;
    CorrectionsTelescope(p, commits);
    var drift := Drift(p, commits);
    ComposeIdentity(drift);
    SameLeft(drift, Compose(Inverse(next.T_ws), s.snap.T_ws), IDENTITY);
    ComposeInverse(next.T_ws);
    SameLeft(Inverse(next.T_ws), s.snap.T_ws, next.T_ws);
  }

  /**
   * If the geometry sync does not act, or takes the newest commit for the only one, corrections are lost: then the
   * baseline follows exactly if they cancel. For corrections under later local BA commits: if they left the keyframe.
   */
  lemma {:induction false} LostCorrections(s: State, next: Snapshot, ba: Refinement, p: SE3, corrections: seq<Commit>,
                                           refinements: seq<Commit>)
    requires Shows(s, next, ba, p, corrections + refinements) && Corrections(corrections) && Refinements(refinements)
    requires !Fires(s, s.snap, next) || refinements != []
    ensures Follows(s, next, ba, p, corrections + refinements) <==> Same(p, PoseAfter(p, corrections))
  {
    hide Compose, Inverse, IDENTITY, Same, Fires, RefinedOnly, Drift, PoseAfter;
    var all, q := corrections + refinements, PoseAfter(p, corrections);
    assert refinements != [] ==> all[|all| - 1] == refinements[|refinements| - 1];
    DriftAppends(p, corrections, refinements);
    CorrectionsTelescope(p, corrections);
    RefinementsDoNotDrift(q, refinements);
    ComposeIdentity(Compose(Inverse(p), q));
    ComposeInverse(p);
    SameLeft(Inverse(p), p, q);
  }

  /** With local BA commits under the corrections, the sync makes the baseline follow the local BA as well. */
  lemma {:induction false} RefinementsUnderCorrections(s: State, next: Snapshot, ba: Refinement, p: SE3,
                                                       refinements: seq<Commit>, corrections: seq<Commit>)
    requires Shows(s, next, ba, p, refinements + corrections) && Refinements(refinements) && Corrections(corrections)
    requires Fires(s, s.snap, next) && corrections != []
    ensures Same(s.snap.T_ws, next.T_ws) ==>
      (Follows(s, next, ba, p, refinements + corrections) <==> Same(p, PoseAfter(p, refinements)))
  {
    hide Compose, Inverse, IDENTITY, Same, Fires, RefinedOnly, Drift, PoseAfter;
    var all, q := refinements + corrections, PoseAfter(p, refinements);
    assert all[|all| - 1] == corrections[|corrections| - 1] && corrections[|corrections| - 1] in corrections;
    var end, turn := PoseAfter(p, all), Compose(Inverse(next.T_ws), s.snap.T_ws);
    DriftAppends(p, refinements, corrections);
    RefinementsDoNotDrift(p, refinements);
    CorrectionsTelescope(q, corrections);
    ComposeIdentity(Compose(Inverse(q), end));
    var ref := Compose(Inverse(p), end);
    if Same(s.snap.T_ws, next.T_ws) {
      ComposeInverse(next.T_ws);
      SameLeft(Inverse(next.T_ws), s.snap.T_ws, next.T_ws);
      SameLeft(ref, turn, IDENTITY);
      ComposeIdentity(ref);
      SameThrough(Compose(ref, turn), ref, Compose(Inverse(q), end));
      SameRight(Inverse(p), Inverse(q), end);
      InverseSame(p, q);
    }
  }

  lemma InverseSame(a: SE3, b: SE3)
    ensures Same(Inverse(a), Inverse(b)) <==> Same(a, b)
  {
    hide Inverse, Same;
    InverseInverse(a);
    InverseInverse(b);
    if Same(a, b) {
      SameInverse(a, b);
    } else if Same(Inverse(a), Inverse(b)) {
      SameInverse(Inverse(a), Inverse(b));
    }
  }

  // ---- the end of a frame --------------------------------------------------------------------

  /** The frame ends in the active submap it was tracked in. */
  ghost predicate SameMapAtEnd(s: State, w: World) {
    s.last.Some? && ActiveIs(s.snap, w) && w.seen == w.poses && w.T_ws == w.active.value.T_ws
  }

  function AtEnd(s: State, w: World): Snapshot {
    s.snap.(geometry := w.geometry)
  }

  predicate Refreshes(s: State, w: World, ba: Refinement) {
    w.geometry == s.snap.geometry || RefinedOnly(ba, AtEnd(s, w))
  }

  /** What the tail syncs move the baseline by, seen in its submap. */
  function TailMove(s: State, w: World, ba: Refinement): SE3 {
    if s.snap.hasRef && s.lastGeometry == s.snap.geometry && !Refreshes(s, w, ba)
    then Compose(Compose(Inverse(w.T_ws), s.snap.T_ws),
                 Compose(Inverse(s.snap.refPose), LiveSnapshot(s.snap, w).refPose))
    else IDENTITY
  }

  function FrameAnchor(s: State, frame: Tracked, w: World, ba: Refinement): Record {
    FrameRecord(TailSynced(s, w, ba), frame, w, ba)
  }

  /** What the frame itself is moved by when its record is read: from the anchor it was bound to, to the live one. */
  function FrameMove(s: State, frame: Tracked, w: World, ba: Refinement): SE3 {
    var rec := FrameAnchor(s, frame, w, ba);
    Compose(Inverse(rec.anchorPose), AnchorPose(rec, w.seen))
  }

  lemma {:induction false} TailBaseline(s: State, w: World, ba: Refinement)
    requires SameMapAtEnd(s, w)
    ensures TailSynced(s, w, ba).last.Some?
    ensures Same(TailSynced(s, w, ba).last.value, Compose(Compose(Local(s), TailMove(s, w, ba)), Inverse(w.T_ws)))
  {
    hide Compose, Inverse, IDENTITY, Same, AnchorSynced, Followed;
    AnchorSyncFollows(s, w.T_ws);
    var t := AnchorSynced(s, s.snap.submap, w.T_ws);
    var L, N := Local(s), Inverse(w.T_ws);
    var live := LiveSnapshot(t.snap, w);
    if Fires(t, s.snap, live) && !RefinedOnly(ba, live) {
      var ref := Compose(Inverse(s.snap.refPose), live.refPose);
      FollowedFactors(t.last.value, s.snap, live);
      TailFactors(L, N, s.snap.T_ws, ref);
      Replaced(t.last.value, Compose(L, N), Compose(s.snap.T_ws, ref), live.T_ws, w.T_ws);
      ComposeAssoc(t.last.value, s.snap.T_ws, ref);
    } else {
      ComposeIdentity(L);
    }
  }

  lemma TailFactors(L: SE3, N: SE3, T: SE3, ref: SE3)
    ensures Compose(Compose(L, N), Compose(T, ref)) == Compose(L, Compose(Compose(N, T), ref))
  {
    hide *;
    ComposeAssoc(L, N, Compose(T, ref));
    ComposeAssoc(N, T, ref);
  }

  lemma Replaced(a: SE3, b: SE3, m: SE3, x: SE3, y: SE3)
    requires Same(a, b) && Same(x, y)
    ensures Same(Compose(Compose(a, m), Inverse(x)), Compose(Compose(b, m), Inverse(y)))
  {
    hide *;
    SameInverse(x, y);
    SameCompose(a, b, m);
    SameCompose(Compose(a, m), Compose(b, m), Inverse(x));
    SameCompose(Inverse(x), Inverse(y), Compose(b, m));
    SameTransitive(Compose(Compose(a, m), Inverse(x)), Compose(Compose(b, m), Inverse(x)),
                   Compose(Compose(b, m), Inverse(y)));
  }

  lemma {:induction false} FrameShown(s: State, frame: Tracked, w: World, ba: Refinement)
    ensures Shown(FrameAnchor(s, frame, w, ba), w)
         == Compose(Compose(frame.pose, FrameMove(s, frame, w, ba)), Inverse(w.T_ws))
  {
    hide Compose, Inverse, TailSynced;
    var rec := FrameAnchor(s, frame, w, ba);
    var live := AnchorPose(rec, w.seen);
    ComposeAssoc(frame.pose, Inverse(rec.anchorPose), live);
    ComposeAssoc(rec.T_ca, live, Inverse(w.T_ws));
  }

  /** The motion from one place to another does not depend on where the submap is anchored. */
  lemma MotionWithin(a: SE3, b: SE3, N: SE3)
    ensures Compose(Compose(a, N), Inverse(Compose(b, N))) == Compose(a, Inverse(b))
  {
    hide *;
    InverseCompose(b, N);
    ComposeAssoc(Compose(a, N), Inverse(N), Inverse(b));
    CancelRight(a, N);
  }

  lemma MotionsAgree(L: SE3, g: SE3, C: SE3, f: SE3)
    ensures Same(Compose(Compose(L, g), Inverse(Compose(C, f))), Compose(L, Inverse(C))) <==> Same(g, f)
  {
    hide *;
    MotionWithin(L, C, f);
    SameRight(Compose(L, g), Compose(L, f), Inverse(Compose(C, f)));
    SameLeft(L, g, f);
  }

  /**
   * The recorded motion of a valid frame leads from the moved baseline to the moved frame. It is the motion from the
   * baseline at the frame start to a pose C exactly if baseline and C are moved alike.
   */
  lemma {:induction false} RecordedMotion(s: State, frame: Tracked, w: World, ba: Refinement)
    requires SameMapAtEnd(s, w) && frame.valid
    ensures Ended(s, frame, w, ba).motion.Some?
    ensures Same(Ended(s, frame, w, ba).motion.value,
                 Compose(Compose(Local(s), TailMove(s, w, ba)),
                         Inverse(Compose(frame.pose, FrameMove(s, frame, w, ba)))))
  {
    hide Compose, Inverse, IDENTITY, Same, TailSynced, TailMove, FrameMove, FrameAnchor, Shown, FrameRecord;
    var t, N := TailSynced(s, w, ba), Inverse(w.T_ws);
    var shown := Shown(FrameAnchor(s, frame, w, ba), w);
    var a, b := Compose(Local(s), TailMove(s, w, ba)), Compose(frame.pose, FrameMove(s, frame, w, ba));
    TailBaseline(s, w, ba);
    FrameShown(s, frame, w, ba);
    AnchorIsRecord(s, frame, w, ba);
    SyncsTouchOnlyBaseline(s, End(frame, w, ba));
    InverseInverse(t.last.value);
    SameCompose(t.last.value, Compose(a, N), Inverse(shown));
    MotionWithin(a, b, N);
  }

  lemma AnchorIsRecord(s: State, frame: Tracked, w: World, ba: Refinement)
    ensures FrameAnchor(s, frame, w, ba) == FrameRecord(TailSynced(s, w, ba), frame, w, ba)
  {
  }

  /** Without a commit no keyframe moved; a frame that is no keyframe has no pose in the map. */
  ghost predicate WorldIsReal(s: State, frame: Tracked, w: World) {
    && (s.snap.hasRef && s.snap.ref in w.poses && w.geometry == s.snap.geometry ==>
          w.poses[s.snap.ref] == s.snap.refPose)
    && (!frame.isRef ==> frame.id !in w.poses)
  }

  lemma {:induction false} OrdinaryFrameMove(s: State, frame: Tracked, w: World, ba: Refinement)
    requires SameMapAtEnd(s, w) && !frame.isRef && WorldIsReal(s, frame, w)
    ensures FrameMove(s, frame, w, ba) ==
      if !s.snap.hasRef || Refreshes(s, w, ba) then IDENTITY
      else Compose(Inverse(s.snap.refPose), LiveSnapshot(s.snap, w).refPose)
  {
    hide Compose, Inverse, IDENTITY, Same, Followed;
    var rec := FrameAnchor(s, frame, w, ba);
    assert TailSynced(s, w, ba).snap == s.snap.(T_ws := TailSynced(s, w, ba).snap.T_ws);
    ComposeInverse(rec.anchorPose);
    ComposeInverse(s.snap.refPose);
  }

  /**
   * A correction that lands while an ordinary frame is tracked is not taken for motion, exactly if: it was a local BA
   * or there is no reference to follow; or the baseline was measured in the geometry of the snapshot and the submap
   * anchor stayed; or it was not, so that only the frame follows, and the reference stayed.
   */
  lemma {:induction false} CorrectionIsNotMotion(s: State, frame: Tracked, w: World, ba: Refinement)
    requires SameMapAtEnd(s, w) && frame.valid && !frame.isRef && WorldIsReal(s, frame, w)
    ensures Ended(s, frame, w, ba).motion.Some?
    ensures Same(Ended(s, frame, w, ba).motion.value, Compose(Local(s), Inverse(frame.pose)))
       <==> if !s.snap.hasRef || Refreshes(s, w, ba) then true
            else if s.lastGeometry == s.snap.geometry then Same(s.snap.T_ws, w.T_ws)
            else Same(s.snap.refPose, LiveSnapshot(s.snap, w).refPose)
  {
    hide Compose, Inverse, IDENTITY, Same, Ended, FrameMove, LiveSnapshot, Refreshes, Local;
    var g, f, C := TailMove(s, w, ba), FrameMove(s, frame, w, ba), frame.pose;
    RecordedMotion(s, frame, w, ba);
    OrdinaryFrameMove(s, frame, w, ba);
    MotionsAgree(Local(s), g, C, f);
    SameThrough(Ended(s, frame, w, ba).motion.value, Compose(Compose(Local(s), g), Inverse(Compose(C, f))),
                Compose(Local(s), Inverse(C)));
    if !s.snap.hasRef || Refreshes(s, w, ba) {
      SameRefl(IDENTITY);
    } else if s.lastGeometry == s.snap.geometry {
      TurnedAgree(s.snap.T_ws, w.T_ws, f);
    } else {
      UnmovedAgree(s.snap.refPose, LiveSnapshot(s.snap, w).refPose);
    }
  }

  lemma TurnedAgree(oldWs: SE3, newWs: SE3, f: SE3)
    ensures Same(Compose(Compose(Inverse(newWs), oldWs), f), f) <==> Same(oldWs, newWs)
  {
    hide *;
    ComposeIdentity(f);
    ComposeInverse(newWs);
    SameRight(Compose(Inverse(newWs), oldWs), IDENTITY, f);
    SameLeft(Inverse(newWs), oldWs, newWs);
  }

  lemma UnmovedAgree(p: SE3, q: SE3)
    ensures Same(IDENTITY, Compose(Inverse(p), q)) <==> Same(p, q)
  {
    hide *;
    ComposeInverse(p);
    SameLeft(Inverse(p), p, q);
  }

  /**
   * A frame that has become a keyframe is moved with it: the motion is right exactly if baseline and keyframe are moved
   * alike.
   */
  lemma {:induction false} CorrectedKeyFrame(s: State, frame: Tracked, w: World, ba: Refinement)
    requires SameMapAtEnd(s, w) && frame.valid && frame.isRef && frame.id in w.poses
    ensures Ended(s, frame, w, ba).motion.Some?
    ensures Same(Ended(s, frame, w, ba).motion.value, Compose(Local(s), Inverse(frame.pose)))
       <==> Same(TailMove(s, w, ba), Compose(Inverse(frame.pose), w.poses[frame.id]))
  {
    hide Compose, Inverse, IDENTITY, Same, Ended, TailMove, Local, TailSynced;
    var g, f, C := TailMove(s, w, ba), FrameMove(s, frame, w, ba), frame.pose;
    RecordedMotion(s, frame, w, ba);
    MotionsAgree(Local(s), g, C, f);
    SameThrough(Ended(s, frame, w, ba).motion.value, Compose(Compose(Local(s), g), Inverse(Compose(C, f))),
                Compose(Local(s), Inverse(C)));
  }

  // ---- a refused keyframe insertion ---------------------------------------------------------------

  /**
   * The geometry moved between tracking and keyframe insertion: the frame is moved to the new geometry and the snapshot
   * retaken, but the baseline is left behind. Whatever comes until the frame's end, the recorded motion is the tracked
   * one exactly if the retaken anchor and the tail syncs move the baseline as the frame was moved.
   */
  lemma {:induction false} RefusedKeyFrame(s: State, a: Attempt, ba: Refinement, frame: Tracked, w: World,
                                           later: Refinement)
    requires Recaptures(s.snap, a) && frame.pose == AttemptedPose(s.snap, a, ba) && frame.valid
    requires SameMapAtEnd(Attempted(s, a), w)
    ensures Ended(Attempted(s, a), frame, w, later).motion.Some?
    ensures Same(Ended(Attempted(s, a), frame, w, later).motion.value, Compose(Local(s), Inverse(a.pose)))
       <==> Same(Compose(Compose(Inverse(s.snap.T_ws), a.live.T_ws), TailMove(Attempted(s, a), w, later)),
                 Compose(RefusedMove(s.snap, a, ba), FrameMove(Attempted(s, a), frame, w, later)))
  {
    hide Compose, Inverse, IDENTITY, Same, Ended, TailMove, FrameMove, SameMapAtEnd, RefinedOnly;
    var t := Attempted(s, a);
    var g, f, C := TailMove(t, w, later), FrameMove(t, frame, w, later), frame.pose;
    var x := RefusedMove(s.snap, a, ba);
    var turn := Compose(Inverse(s.snap.T_ws), a.live.T_ws);
    AttemptKeepsBaseline(s, a, w);
    RecordedMotion(t, frame, w, later);
    RefusedPose(s.snap, a, ba);
    ComposeAssoc(a.pose, x, f);
    CancelRight(s.last.value, s.snap.T_ws);
    ComposeAssoc(Local(s), Inverse(s.snap.T_ws), a.live.T_ws);
    ComposeAssoc(Local(s), turn, g);
    MotionsAgree(Local(s), Compose(turn, g), a.pose, Compose(x, f));
    SameThrough(Ended(t, frame, w, later).motion.value, Compose(Compose(Local(t), g), Inverse(Compose(C, f))),
                Compose(Local(s), Inverse(a.pose)));
  }

  function RefusedMove(snap: Snapshot, a: Attempt, ba: Refinement): SE3 {
    if RefinedOnly(ba, a.live) then IDENTITY else Compose(Inverse(snap.refPose), a.live.refPose)
  }

  lemma AttemptKeepsBaseline(s: State, a: Attempt, w: World)
    requires Recaptures(s.snap, a) && SameMapAtEnd(Attempted(s, a), w)
    ensures s.last.Some? && Attempted(s, a).last == s.last && Attempted(s, a).snap == a.live
  {
  }

  lemma RefusedPose(snap: Snapshot, a: Attempt, ba: Refinement)
    requires Recaptures(snap, a)
    ensures AttemptedPose(snap, a, ba) == Compose(a.pose, RefusedMove(snap, a, ba))
  {
    hide Compose, Inverse, IDENTITY, RefinedOnly;
    ComposeIdentity(a.pose);
    ComposeAssoc(a.pose, Inverse(snap.refPose), a.live.refPose);
  }

  /**
   * If nothing more happens until the end of the frame: after a local BA the motion is right exactly if the submap
   * anchor stayed, after any other commit exactly if the reference keyframe kept its pose in the world.
   */
  lemma {:induction false} RefusedThenQuiet(s: State, a: Attempt, ba: Refinement, frame: Tracked, w: World,
                                            later: Refinement)
    requires Recaptures(s.snap, a) && frame.pose == AttemptedPose(s.snap, a, ba) && frame.valid && !frame.isRef
    requires SameMapAtEnd(Attempted(s, a), w) && WorldIsReal(Attempted(s, a), frame, w) && w.geometry == a.live.geometry
    ensures Ended(Attempted(s, a), frame, w, later).motion.Some?
    ensures Same(Ended(Attempted(s, a), frame, w, later).motion.value, Compose(Local(s), Inverse(a.pose)))
       <==> if RefinedOnly(ba, a.live) then Same(s.snap.T_ws, a.live.T_ws)
            else Same(Compose(s.snap.refPose, Inverse(s.snap.T_ws)), Compose(a.live.refPose, Inverse(a.live.T_ws)))
  {
    hide Compose, Inverse, IDENTITY, Same, Ended, FrameMove, RefinedOnly, LiveSnapshot;
    var t := Attempted(s, a);
    var turn, x := Compose(Inverse(s.snap.T_ws), a.live.T_ws), RefusedMove(s.snap, a, ba);
    RefusedKeyFrame(s, a, ba, frame, w, later);
    OrdinaryFrameMove(t, frame, w, later);
    ComposeIdentity(turn);
    ComposeIdentity(x);
    if RefinedOnly(ba, a.live) {
      UnmovedAgree(s.snap.T_ws, a.live.T_ws);
      Symmetry(turn, IDENTITY);
    } else {
      WorldPoseKept(s.snap.refPose, s.snap.T_ws, a.live.refPose, a.live.T_ws);
    }
  }

  lemma WorldPoseKept(p: SE3, T: SE3, q: SE3, U: SE3)
    ensures Same(Compose(Inverse(T), U), Compose(Inverse(p), q)) <==>
      Same(Compose(p, Inverse(T)), Compose(q, Inverse(U)))
  {
    hide *;
    var left, right := Compose(p, Inverse(T)), Compose(q, Inverse(U));
    SameLeft(p, Compose(Inverse(T), U), Compose(Inverse(p), q));
    CancelLeft(p, q);
    ComposeAssoc(p, Inverse(T), U);
    CancelRight(q, U);
    SameRight(left, right, U);
  }

  // ---- runs in which it goes wrong ------------------------------------------------------------------

  function Seen(geometry: nat, refPose: SE3, T_ws: SE3): Snapshot {
    Snapshot(Some(0), geometry, 0, T_ws, true, 5, refPose)
  }

  function Live(geometry: nat, refPose: SE3, T_ws: SE3): World {
    World(Some(Anchor(0, 0, T_ws)), geometry, map[5 := refPose], map[5 := refPose], T_ws)
  }

  function Frame9(pose: SE3): Tracked {
    Tracked(9, pose, true, false)
  }

  /** The first frame, tracked in geometry 1 at the reference keyframe, whose end sees this geometry. */
  function FirstEnd(here: SE3, geometry: nat): State {
    FrontendSync.After(Seen(1, here, here), [Begin(Seen(1, here, here), NoRefinement),
                                             End(Frame9(here), Live(geometry, here, here), NoRefinement)]).s
  }

  /** The start of the second frame, in geometry next. */
  function Second(here: SE3, geometry: nat, next: nat): State {
    Begun(FirstEnd(here, geometry), Seen(next, here, here), NoRefinement)
  }

  function FirstRecord(here: SE3): Record {
    NewRecord(9, 0, here, 5, here)
  }

  lemma {:induction false} AfterFirst(here: SE3, geometry: nat)
    ensures var s := FirstEnd(here, geometry);
            && s.snap == Seen(1, here, here) && s.lastGeometry == geometry && s.last.Some?
            && Agrees(s, FirstRecord(here), here, here)
  {
    hide Compose, Inverse, IDENTITY, Same, Followed, NewRecord, WorldPose, Split;
    var empty, b := Seen(1, here, here), Begin(Seen(1, here, here), NoRefinement);
    var e := End(Frame9(here), Live(geometry, here, here), NoRefinement);
    assert [b, e][..1] == [b];
    assert FrontendSync.After(empty, []).s == Fresh(empty);
    assert FrontendSync.After(empty, [b]).s == Next(Fresh(empty), b);
    SameRefl(here);
    SameRefl(WorldPose(FirstRecord(here), map[5 := here], here));
    RecordAnchor(here);
    assert Next(Fresh(empty), b) == Fresh(empty).(snap := empty);
  }

  /** The first frame became a keyframe itself: the reference of its end is its own, the snapshot's still keyframe 5. */
  function KeyFrameEnd(here: SE3): State {
    var poses := map[5 := here, 9 := here];
    var w := World(Some(Anchor(0, 0, here)), 1, poses, poses, here);
    FrontendSync.After(Seen(1, here, here), [Begin(Seen(1, here, here), NoRefinement),
                                             End(Tracked(9, here, true, true), w, NoRefinement)]).s
  }

  function OwnRecord(here: SE3): Record {
    NewRecord(9, 0, here, 9, here)
  }

  lemma OwnAnchor(here: SE3)
    ensures OwnRecord(here).anchor == 9
    ensures WorldPose(OwnRecord(here), map[5 := here, 9 := here], here)
         == WorldPose(OwnRecord(here), map[9 := here], here)
  {
    hide Compose, Inverse;
  }

  lemma {:induction false} AfterKeyFrame(here: SE3)
    ensures var s := KeyFrameEnd(here);
            && s.snap == Seen(1, here, here) && s.lastGeometry == 1 && s.last.Some?
            && Agrees(s, OwnRecord(here), here, here)
  {
    hide Compose, Inverse, IDENTITY, Same, Followed, NewRecord, WorldPose, Split;
    var poses := map[5 := here, 9 := here];
    var empty, b := Seen(1, here, here), Begin(Seen(1, here, here), NoRefinement);
    var e := End(Tracked(9, here, true, true), World(Some(Anchor(0, 0, here)), 1, poses, poses, here), NoRefinement);
    assert [b, e][..1] == [b];
    assert FrontendSync.After(empty, []).s == Fresh(empty);
    assert FrontendSync.After(empty, [b]).s == Next(Fresh(empty), b);
    SameRefl(here);
    SameRefl(WorldPose(OwnRecord(here), map[9 := here], here));
    OwnAnchor(here);
    assert Next(Fresh(empty), b) == Fresh(empty).(snap := empty);
  }

  ghost predicate Misses(s: State, next: Snapshot, ba: Refinement, rec: Record, p: SE3, commits: seq<Commit>) {
    && Shows(s, next, ba, p, commits)
    && !Agrees(Begun(s, next, ba), RecordAfter(rec, p, commits), PoseAfter(p, commits), next.T_ws)
  }

  /**
   * Five ways to miss a correction at a frame start: the anchor moves with the geometry; the last frame already ended
   * in a newer geometry than its snapshot; a local BA follows the loop; a local BA precedes it; the reference changed,
   * because the last frame became a keyframe.
   */
  lemma {:induction false} BaselineCanMiss(here: SE3, there: SE3)
    requires !Same(here, there)
    ensures var s, late, key := FirstEnd(here, 1), FirstEnd(here, 2), KeyFrameEnd(here);
            var rec, own := FirstRecord(here), OwnRecord(here);
            && Agrees(s, rec, here, here) && Agrees(late, rec, here, here) && Agrees(key, own, here, here)
            && Misses(s, Seen(2, there, there), NoRefinement, rec, here, [Correct(there)])
            && Misses(late, Seen(3, there, here), NoRefinement, rec, here, [Correct(there)])
            && Misses(s, Seen(3, there, here), Refinement(0, 0, 3), rec, here, [Correct(there)] + [Refine(there)])
            && Misses(s, Seen(3, there, here), Refinement(0, 0, 2), rec, here, [Refine(there)] + [Correct(there)])
            && Misses(key, Seen(2, there, here).(ref := 9), NoRefinement, own, here, [Correct(there)])
  {
    hide Compose, Inverse, IDENTITY, Same, Begun, Drift, RecordAfter, StartMove, WorldPose, NewRecord, FirstEnd,
         KeyFrameEnd, Follows, Agrees;
    var s, late, key := FirstEnd(here, 1), FirstEnd(here, 2), KeyFrameEnd(here);
    var rec, own, c, r := FirstRecord(here), OwnRecord(here), [Correct(there)], [Refine(there)];
    AfterFirst(here, 1);
    AfterFirst(here, 2);
    SameRefl(here);
    var none := NoRefinement;
    CorrectionsAreFollowed(s, Seen(2, there, there), none, here, c);
    SyncsDecide(s, Seen(2, there, there), none, rec, here, c);
    assert c + [] == c;
    LostCorrections(late, Seen(3, there, here), none, here, c, []);
    SyncsDecide(late, Seen(3, there, here), none, rec, here, c);
    LostCorrections(s, Seen(3, there, here), Refinement(0, 0, 3), here, c, r);
    SyncsDecide(s, Seen(3, there, here), Refinement(0, 0, 3), rec, here, c + r);
    RefinementsUnderCorrections(s, Seen(3, there, here), Refinement(0, 0, 2), here, r, c);
    SyncsDecide(s, Seen(3, there, here), Refinement(0, 0, 2), rec, here, r + c);
    AfterKeyFrame(here);
    LostCorrections(key, Seen(2, there, here).(ref := 9), none, here, c, []);
    SyncsDecide(key, Seen(2, there, here).(ref := 9), none, own, here, c);
  }

  /**
   * The second frame's insertion was refused, its snapshot retaken at another submap anchor, and the frame given up.
   */
  function GivenUp(here: SE3, there: SE3): State {
    var s := Second(here, 1, 1);
    var a := Attempt(here, Seen(2, here, there), Some(0), true);
    Ended(Attempted(s, a), Tracked(10, here, false, false), Live(2, here, there), NoRefinement)
  }

  /** A sixth way: the retaken snapshot hides the anchor's move, and no valid frame comes to renew the baseline. */
  lemma {:induction false} RetakenSnapshotHidesAnchor(here: SE3, there: SE3)
    requires !Same(here, there)
    ensures var s, rec := GivenUp(here, there), FirstRecord(here);
            && Agrees(s, rec, here, here) && Misses(s, Seen(2, here, there), NoRefinement, rec, here, [Correct(here)])
  {
    hide Compose, Inverse, IDENTITY, Same, Begun, Drift, RecordAfter, StartMove, WorldPose, NewRecord, FirstEnd, Agrees,
         GivenUp;
    var s, rec, c := GivenUp(here, there), FirstRecord(here), [Correct(here)];
    GivenUpKeeps(here, there);
    var turn := Compose(Inverse(here), there);
    BaselineFollowsAtStart(s, Seen(2, here, there), NoRefinement, rec, here, here, c);
    CorrectionsTelescope(here, c);
    ComposeInverse(here);
    NoMove(s, Seen(2, here, there), NoRefinement);
    ComposeIdentity(turn);
    SameLeft(Inverse(here), there, here);
    Symmetry(here, there);
  }

  lemma NoMove(s: State, next: Snapshot, ba: Refinement)
    requires s.lastGeometry != s.snap.geometry
    ensures StartMove(s, next, ba) == IDENTITY
  {
    hide IDENTITY, Compose, Inverse;
  }

  lemma {:induction false} GivenUpKeeps(here: SE3, there: SE3)
    ensures var s := GivenUp(here, there);
            s.snap == Seen(2, here, there) && s.lastGeometry == 1 && Agrees(s, FirstRecord(here), here, here)
  {
    hide Compose, Inverse, IDENTITY, Same, Followed, WorldPose, NewRecord, FirstEnd, FirstRecord, Second;
    Starts(here, 1, 1);
    SameRefl(there);
  }

  lemma RecordAnchor(here: SE3)
    ensures FirstRecord(here).anchor == 5
  {
  }

  /** The frame's end records another motion than the tracked one. */
  ghost predicate Misjudges(s: State, frame: Tracked, w: World, tracked: SE3) {
    var end := Ended(s, frame, w, NoRefinement);
    end.motion.Some? && !Same(end.motion.value, tracked)
  }

  /**
   * Three runs that take a correction for motion: geometry and anchor move within a frame; the geometry moves within
   * a frame whose start had missed one; a keyframe insertion is refused.
   */
  lemma {:induction false} CorrectionCanBeMotion(here: SE3, there: SE3)
    requires !Same(here, there)
    ensures var s, lag := Second(here, 1, 1), Second(here, 2, 3);
            var a := Attempt(here, Seen(2, there, here), Some(0), true);
            && s.last.Some? && lag.last.Some? && Recaptures(s.snap, a)
            && Misjudges(s, Frame9(here), Live(2, here, there), Compose(Local(s), Inverse(here)))
            && Misjudges(lag, Frame9(here), Live(4, there, here), Compose(Local(lag), Inverse(here)))
            && Misjudges(Attempted(s, a), Frame9(AttemptedPose(s.snap, a, NoRefinement)), Live(2, there, here),
                         Compose(Local(s), Inverse(here)))
  {
    hide Compose, Inverse, IDENTITY, Same, Ended, WorldPose, NewRecord, FirstEnd, FirstRecord, Local, AttemptedPose,
         Begun;
    Starts(here, 1, 1);
    Starts(here, 2, 3);
    var s, lag := Second(here, 1, 1), Second(here, 2, 3);
    CorrectionIsNotMotion(s, Frame9(here), Live(2, here, there), NoRefinement);
    CorrectionIsNotMotion(lag, Frame9(here), Live(4, there, here), NoRefinement);
    var a := Attempt(here, Seen(2, there, here), Some(0), true);
    RefusedThenQuiet(s, a, NoRefinement, Frame9(AttemptedPose(s.snap, a, NoRefinement)), Live(2, there, here),
                     NoRefinement);
    SameRight(here, there, Inverse(here));
  }

  lemma {:induction false} Starts(here: SE3, geometry: nat, next: nat)
    requires geometry == next || geometry > 1
    ensures var s := Second(here, geometry, next);
            && s.snap == Seen(next, here, here) && s.lastGeometry == geometry && s.last.Some?
            && Agrees(s, FirstRecord(here), here, here)
  {
    hide Compose, Inverse, IDENTITY, Same, Followed, WorldPose, NewRecord, FirstEnd, FirstRecord;
    AfterFirst(here, geometry);
    SameRefl(here);
  }
}
