/** Snapshots, insertions, removals and commits on several maps, in any order. */
module CommitProtocol {
  import opened RigidMotion
  import opened CommitModel
  import opened LoopCorrection

  /** A solve in flight: the map it was taken from, what it saw, and the result it will offer. */
  datatype Job = Job(map_: nat, seen: Live, result: OptimizationResult, skip: set<nat>)

  /** Live maps with the next unused ids, the jobs taken so far, and the commits made so far. */
  datatype System = System(
    live: seq<Live>, nextKeyframe: seq<nat>, nextPoint: seq<nat>,
    jobs: seq<Job>, log: seq<Record>)

  datatype Record = Record(map_: nat, base: nat, job: nat)

  datatype Step =
    | AddMap
    | AddKeyframe(m: nat, gap: nat, pose: SE3)
    | AddPoint(m: nat, gap: nat, pos: Vec3)
    | RemoveKeyframe(m: nat, id: nat)
    | RemovePoint(m: nat, id: nat)
    | Snapshot(m: nat, result: OptimizationResult, skip: set<nat>)
    | TryCommit(job: nat, active: nat, limit: real)
    | LoopCommit(job: nat, active: nat, refs: map<nat, nat>, endpoint: nat, solution: Solution, observers: Observers)

  /** The solver may answer anything about the objects it was shown. */
  ghost predicate Answers(seen: Live, r: OptimizationResult) {
    && r.baseGeometry == seen.geometry && DistinctIds(r)
    && (forall i :: 0 <= i < |r.poses| ==> r.poses[i].id in seen.poses)
    && (forall i :: 0 <= i < |r.points| ==> r.points[i].id in seen.points)
  }

  ghost predicate Enabled(s: System, step: Step) {
    match step
    case AddMap => true
    case AddKeyframe(m, _, _) => m < |s.live| && m < |s.nextKeyframe|
    case AddPoint(m, _, _) => m < |s.live| && m < |s.nextPoint|
    case RemoveKeyframe(m, _) => m < |s.live|
    case RemovePoint(m, _) => m < |s.live|
    case Snapshot(m, result, _) => m < |s.live| && Answers(s.live[m], result)
    case TryCommit(job, active, _) => job < |s.jobs| && active < |s.live|
    case LoopCommit(job, active, refs, endpoint, solution, _) =>
      && job < |s.jobs| && active < |s.live|
      && WellFrozen(FrozenBy(s.jobs[job], refs, endpoint)) && Solves(solution, FrozenBy(s.jobs[job], refs, endpoint))
  }

  function FrozenBy(job: Job, refs: map<nat, nat>, endpoint: nat): Frozen {
    Frozen(job.seen.poses, job.seen.points, refs, endpoint, job.seen.geometry)
  }

  /** The checks of a loop commit: same map, same revision, every frozen object still there. */
  ghost predicate LoopApplies(s: System, job: Job, active: nat)
    requires active < |s.live|
  {
    && active == job.map_ && job.seen.geometry == s.live[active].geometry
    && job.seen.poses.Keys <= s.live[active].poses.Keys && job.seen.points.Keys <= s.live[active].points.Keys
  }

  /** Committing against the active map; a job bound to another map instance is dropped. */
  ghost function Offer(s: System, job: Job, active: nat, limit: real): (Live, CommitStatus)
    requires active < |s.live|
  {
    if active != job.map_ then (s.live[active], Stale)
    else Commit(s.live[active], job.result, job.skip, limit)
  }

  ghost function Next(s: System, step: Step): System
    requires Enabled(s, step)
  {
    match step
    case AddMap =>
      s.(live := s.live + [Live(map[], map[], 0)],
         nextKeyframe := s.nextKeyframe + [0], nextPoint := s.nextPoint + [0])
    case AddKeyframe(m, gap, pose) =>
      var id := s.nextKeyframe[m] + gap;
      s.(live := s.live[m := s.live[m].(poses := s.live[m].poses[id := pose])],
         nextKeyframe := s.nextKeyframe[m := id + 1])
    case AddPoint(m, gap, pos) =>
      var id := s.nextPoint[m] + gap;
      s.(live := s.live[m := s.live[m].(points := s.live[m].points[id := pos])],
         nextPoint := s.nextPoint[m := id + 1])
    case RemoveKeyframe(m, id) =>
      s.(live := s.live[m := s.live[m].(poses := s.live[m].poses - {id})])
    case RemovePoint(m, id) =>
      s.(live := s.live[m := s.live[m].(points := s.live[m].points - {id})])
    case Snapshot(m, result, skip) =>
      s.(jobs := s.jobs + [Job(m, s.live[m], result, skip)])
    case TryCommit(j, active, limit) =>
      var (after, status) := Offer(s, s.jobs[j], active, limit);
      if status == Committed
      then s.(live := s.live[active := after], log := s.log + [Record(active, s.jobs[j].result.baseGeometry, j)])
      else s
    case LoopCommit(j, active, refs, endpoint, solution, observers) =>
      if LoopApplies(s, s.jobs[j], active) then
        var after := Corrected(FrozenBy(s.jobs[j], refs, endpoint), solution, s.live[active], observers);
        s.(live := s.live[active := after], log := s.log + [Record(active, s.jobs[j].seen.geometry, j)])
      else s
  }

  // ---- invariant -------------------------------------------------------

  ghost predicate IdsBelow(s: System) {
    && |s.live| == |s.nextKeyframe| == |s.nextPoint|
    && (forall m, id :: 0 <= m < |s.live| && id in s.live[m].poses ==> id < s.nextKeyframe[m])
    && (forall m, id :: 0 <= m < |s.live| && id in s.live[m].points ==> id < s.nextPoint[m])
  }

  /** Whatever a job saw is gone, or unmoved as long as the revision is the one it saw. */
  ghost predicate JobSound(s: System, job: Job) {
    && job.map_ < |s.live| && |s.live| == |s.nextKeyframe| == |s.nextPoint|
    && Answers(job.seen, job.result)
    && job.seen.geometry <= s.live[job.map_].geometry
    && (forall id :: id in job.seen.poses ==> id < s.nextKeyframe[job.map_])
    && (forall id :: id in job.seen.points ==> id < s.nextPoint[job.map_])
    && (job.seen.geometry == s.live[job.map_].geometry ==>
         && (forall id :: id in job.seen.poses && id in s.live[job.map_].poses ==>
               s.live[job.map_].poses[id] == job.seen.poses[id])
         && (forall id :: id in job.seen.points && id in s.live[job.map_].points ==>
               s.live[job.map_].points[id] == job.seen.points[id]))
  }

  ghost predicate LogSound(s: System) {
    && (forall i :: 0 <= i < |s.log| ==> s.log[i].map_ < |s.live| && s.log[i].base < s.live[s.log[i].map_].geometry)
    && (forall i, j :: 0 <= i < j < |s.log| ==> s.log[i].map_ != s.log[j].map_ || s.log[i].base != s.log[j].base)
  }

  ghost predicate Sound(s: System) {
    IdsBelow(s) && LogSound(s) && forall j :: 0 <= j < |s.jobs| ==> JobSound(s, s.jobs[j])
  }

  /** A commit attempt leaves the map as it is, or moves it to the next geometry without adding or losing an object. */
  lemma TryEffect(s: System, j: nat, active: nat, limit: real)
    requires Sound(s) && j < |s.jobs| && active < |s.live|
    ensures var (after, status) := Offer(s, s.jobs[j], active, limit);
            status == Committed ==>
              && s.jobs[j].result.baseGeometry == s.live[active].geometry && Moved(s.live[active], after)
  {
    hide Commit, IdsBelow, LogSound;
    assert JobSound(s, s.jobs[j]);
    CommitIsAllOrNothing(s.live[active], s.jobs[j].result, s.jobs[j].skip, limit);
  }

  ghost predicate Moved(before: Live, after: Live) {
    after.geometry == before.geometry + 1 &&
    after.poses.Keys == before.poses.Keys && after.points.Keys == before.points.Keys
  }

  lemma LoopEffect(f: Frozen, solution: Solution, live: Live, observers: Observers)
    requires WellFrozen(f) && Solves(solution, f)
    ensures Moved(live, Corrected(f, solution, live, observers))
  {
  }

  ghost predicate IsAttempt(step: Step) {
    step.TryCommit? || step.LoopCommit?
  }

  /** What an attempt comes to: nothing, or one map moves to its next geometry and the log says so. */
  ghost predicate Attempted(s: System, next: System, active: nat, job: nat) {
    next == s ||
    (&& active < |s.live| == |next.live| && next == s.(live := s.live[active := next.live[active]], log := next.log)
     && Moved(s.live[active], next.live[active]) && next.log == s.log + [Record(active, s.live[active].geometry, job)])
  }

  lemma AttemptEffect(s: System, step: Step)
    requires Sound(s) && Enabled(s, step) && IsAttempt(step)
    ensures step.active < |s.live| && Attempted(s, Next(s, step), step.active, step.job)
  {
    hide Offer, Corrected, Moved, IdsBelow, LogSound, JobSound, WellFrozen, Solves;
    if step.TryCommit? {
      TryEffect(s, step.job, step.active, step.limit);
    } else {
      LoopEffect(FrozenBy(s.jobs[step.job], step.refs, step.endpoint), step.solution, s.live[step.active],
                 step.observers);
    }
  }

  lemma AttemptSound(s: System, next: System, active: nat, job: nat)
    requires Sound(s) && active < |s.live| && Attempted(s, next, active, job)
    ensures Sound(next)
  {
    if next != s {
      forall j | 0 <= j < |next.jobs|
        ensures JobSound(next, next.jobs[j])
      {
        assert JobSound(s, s.jobs[j]);
      }
    }
  }

  lemma NextIdsBelow(s: System, step: Step)
    requires Sound(s) && Enabled(s, step) && !IsAttempt(step)
    ensures IdsBelow(Next(s, step)) && LogSound(Next(s, step))
  {
    hide JobSound, Offer, Corrected;
  }

  lemma NextJobSound(s: System, step: Step, j: nat)
    requires Sound(s) && Enabled(s, step) && !IsAttempt(step) && j < |Next(s, step).jobs|
    ensures JobSound(Next(s, step), Next(s, step).jobs[j])
  {
    hide Offer, Corrected, LogSound;
    if j < |s.jobs| {
      assert JobSound(s, s.jobs[j]);
    }
  }

  ghost function Run(s: System, steps: seq<Step>): (r: System)
    requires Sound(s)
    ensures Sound(r)
    decreases |steps|
  {
    if steps == [] then s
    else if !Enabled(s, steps[0]) then Run(s, steps[1..])
    else
      NextSound(s, steps[0]);
      Run(Next(s, steps[0]), steps[1..])
  }

  lemma {:induction false} NextSound(s: System, step: Step)
    requires Sound(s) && Enabled(s, step)
    ensures Sound(Next(s, step))
  {
    hide Next, Attempted, Enabled;
    if IsAttempt(step) {
      AttemptEffect(s, step);
      AttemptSound(s, Next(s, step), step.active, step.job);
    } else {
      NextIdsBelow(s, step);
      forall j | 0 <= j < |Next(s, step).jobs|
        ensures JobSound(Next(s, step), Next(s, step).jobs[j])
      {
        NextJobSound(s, step, j);
      }
    }
  }

  /** Runs start here, or anywhere else that is sound. */
  const START := System([], [], [], [], [])

  /** What the job would write still has the coordinates the job saw. */
  ghost predicate WritesWhatItSaw(live: Live, job: Job) {
    && (forall i :: 0 <= i < |job.result.poses| && job.result.poses[i].id !in job.skip ==>
          var id := job.result.poses[i].id;
          id in job.seen.poses && id in live.poses && live.poses[id] == job.seen.poses[id])
    && (forall i :: 0 <= i < |job.result.points| ==>
          var id := job.result.points[i].id;
          id in job.seen.points && id in live.points && live.points[id] == job.seen.points[id])
  }

  lemma CommittingJobIsCurrent(s: System, job: Job, active: nat, limit: real)
    requires JobSound(s, job) && active < |s.live| && Offer(s, job, active, limit).1 == Committed
    ensures active == job.map_ && WritesWhatItSaw(s.live[active], job)
  {
    hide DistinctIds, WritePoses, WritePoints;
  }

  /** On every run: what a committing result writes still has, at that moment, its snapshot coordinates. */
  lemma {:induction false} CommittedObjectsAreUnmoved(start: System, steps: seq<Step>, j: nat, active: nat, limit: real)
    requires Sound(start)
    ensures var s := Run(start, steps);
            j < |s.jobs| && active < |s.live| && Offer(s, s.jobs[j], active, limit).1 == Committed ==>
              active == s.jobs[j].map_ && WritesWhatItSaw(s.live[active], s.jobs[j])
  {
    hide Run, Offer, WritesWhatItSaw, JobSound, Next;
    var s := Run(start, steps);
    if j < |s.jobs| && active < |s.live| && Offer(s, s.jobs[j], active, limit).1 == Committed {
      CommittingJobIsCurrent(s, s.jobs[j], active, limit);
    }
  }

  lemma StartSound()
    ensures Sound(START)
  {
  }

  /** On every run: whatever was appended during the solve, a loop commit finds its frozen prefix unmoved. */
  lemma {:induction false} LoopPrefixIsIntact(start: System, steps: seq<Step>, j: nat, active: nat,
                                              refs: map<nat, nat>, endpoint: nat)
    requires Sound(start)
    ensures var s := Run(start, steps);
            j < |s.jobs| && active < |s.live| && LoopApplies(s, s.jobs[j], active) ==>
              PrefixIntact(FrozenBy(s.jobs[j], refs, endpoint), s.live[active])
  {
    hide Run, Next;
    var s := Run(start, steps);
    if j < |s.jobs| {
      assert JobSound(s, s.jobs[j]);
    }
  }

  /**
   * On every run: so the keyframes appended during the solve keep their poses relative to the endpoint and to each
   * other.
   */
  lemma {:induction false} LoopKeepsAppendedKeyframes(start: System, steps: seq<Step>, j: nat, active: nat,
                                                      refs: map<nat, nat>, endpoint: nat,
                                                       solution: Solution, o: Observers, a: nat, b: nat)
    requires Sound(start)
    ensures var s := Run(start, steps);
            j < |s.jobs| && active < |s.live| && LoopApplies(s, s.jobs[j], active) ==>
              var job, live := s.jobs[j], s.live[active];
              var f := FrozenBy(job, refs, endpoint);
              WellFrozen(f) && Solves(solution, f) &&
              a in live.poses && a !in job.seen.poses && b in live.poses && (b !in job.seen.poses || b == endpoint) ==>
                var now := Corrected(f, solution, live, o);
                Compose(now.poses[a], Inverse(now.poses[b])) == Compose(live.poses[a], Inverse(live.poses[b]))
  {
    hide Run, Next, Compose, Inverse, Corrected, WellFrozen, Solves, LoopApplies, PrefixIntact;
    LoopPrefixIsIntact(start, steps, j, active, refs, endpoint);
    var s := Run(start, steps);
    if j < |s.jobs| && active < |s.live| && LoopApplies(s, s.jobs[j], active) {
      var f := FrozenBy(s.jobs[j], refs, endpoint);
      var live := s.live[active];
      if WellFrozen(f) && Solves(solution, f) && a in live.poses && a !in f.poses
         && b in live.poses && (b !in f.poses || b == endpoint) {
        TailKeepsRelativePoses(f, solution, live, o, a, b);
      }
    }
  }

  /** On every run: at most one result per map and geometry revision ever commits. */
  lemma {:induction false} OneCommitPerRevision(start: System, steps: seq<Step>, i: nat, j: nat)
    requires Sound(start)
    ensures var log := Run(start, steps).log;
            i < |log| && j < |log| && log[i].map_ == log[j].map_ && log[i].base == log[j].base ==> i == j
  {
    assert LogSound(Run(start, steps));
  }
}
