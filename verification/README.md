# Verified model of the SLAM map, its back end and its retrieval index

This project models the discrete and algebraic core of a stereo visual SLAM engine in Dafny and proves what that core
promises. Image processing, PnP, bundle adjustment and pose-graph numerics are foreign to the model: their answers are
arbitrary values, and nothing proved here depends on them being good.

What is modelled, file by file:

- **Poses** (`Quaternions`, `RigidMotion`, `Rebasing`). Quaternions and SE3 over exact reals; rotation is the sandwich
  `q v q*`, so every group law follows from the associativity of the quaternion product. On top of them, each rebasing
  formula of the engine with the statement of what it keeps fixed. Spherical interpolation is a function parameter
  with endpoint and equal-argument laws.
- **The map** (`MapEntities`, `Covisibility`, `ObservationModel`, `SlamMap`, `MapTraces`, `ConsistencyCheck`,
  `TrackingHits`, `NewPoints`). Keyframe slots, reverse observations and the covisibility table are updated in place and shown to agree
  with each other and with a recomputation after every operation, with object identity. The self-check of the map
  is modelled too, with the exact gap between what it accepts and the invariant.
- **Commits** (`CommitModel`, `CommitOnMap`, `CommitProtocol`, `LoopCorrection`, `LoopTransaction`, `LoopRun`). Snapshot,
  solve outside the lock, revalidate, commit: over every interleaving with insertions and removals. The same-submap
  loop is proved as a whole on the live map, for any solver and any changes made to the map during the solve.
- **Trajectory and submaps** (`Trajectory`, `SubmapAtlas`, `SubmapGraph`, `CrossSubmap`). Anchored records, the Atlas,
  and the cross-submap loop transaction with its blended trajectory correction.
- **Essential anchor graph** (`Ordering`, `Sampling`, `LoopGraph`, `AnchorGraph`, `CorrectionSpread`).
- **Budget** (`BudgetPolicy`, `MapExtent`, `Baseline`, `ResourceBudget`, `Reclaim`, `ReclaimAtlas`).
- **Retrieval** (`RealSums`, `BowVectors`, `Scoring`, `InvertedFile`, `LoopIndex`, `BoundedQueries`, `Sorting`,
  `PlaceClusters`, `PlaceCandidates`).
- **Local window, scheduler, tracking, front end** (`UnionFind`, `LocalWindow`, `WindowSnapshot`,
  `FixedPoses`, `GaugeFixing`, `BackendScheduler`,
  `TrackingStateMachine`, `FrontendSync`, `BaselineDrift`).

Objects whose methods update fields are classes (`MapPoint`, `Frame`, `Map`, `PoseRecords`, `Atlas`, `Forest`,
`BowVector`, `Database`, `Index`, `Scheduler`, `Machine`, `Frontend`). Each method is specified by a function on plain
values, and the theorems are about those functions: what every step keeps, what whole runs guarantee, and where two
formulations agree. Assumptions about foreign values and start states are shown to have instances
(`Rebasing.SlerpLawsSatisfiable`, `CommitProtocol.StartSound`, `LoopCorrection.TranslationMoves`).

`dafny verify dfyconfig.toml` checks the whole project.

## Where the code does something else than one would expect

The model follows the code. Each of these has a lemma with a concrete input or family, and an exact condition.

- *A late first observation is not followed.* With global BA off, a loop moves a frozen point with the observer it had
  when it was frozen. A point whose earliest observer changed since keeps its camera coordinates there only if both
  observers were corrected alike on it; a point frozen without observer is not moved at all
  (`LoopCorrection.CameraKeptExactly`, `LoopCorrection.LateObservationIsNotFollowed`; `src/vo.cpp:2401-2410`).
- *A frame can enter Relocalizing with a pose.* The header says no pose is published there, the frame that crosses the
  failure limit still carries its prediction (`TrackingStateMachine.RelocalizingPublishesOnlyOnEntry`;
  `src/tracking_state_machine.cpp:136-140`).
- *The motion baseline can miss a correction at a frame start*: the submap anchor moves with the geometry and is then
  applied twice, the last frame already ended in a newer geometry than its snapshot, a local BA commit follows the
  correction or precedes it, the last frame became the reference keyframe, or the snapshot was retaken in between
  (`BaselineDrift.BaselineFollowsAtStart`, `BaselineDrift.BaselineCanMiss`, `BaselineDrift.RetakenSnapshotHidesAnchor`;
  `src/vo.cpp:684-690`, `src/vo.cpp:1878`, `src/vo.cpp:3236-3261`).
- *A correction can be recorded as camera motion*: geometry and anchor move within one frame, the geometry moves
  within a frame whose baseline lags its snapshot, or a keyframe insertion is refused because of it
  (`BaselineDrift.CorrectionIsNotMotion`, `BaselineDrift.RefusedThenQuiet`, `BaselineDrift.CorrectionCanBeMotion`;
  `src/vo.cpp:758-771`, `src/vo.cpp:1860-1879`).
- *The map's self-check compares ids, not objects*, when it looks from slots to points
  (`ConsistencyCheck.CheckIsExactUpToIdentity`, `ConsistencyCheck.Impostor`; `src/map.cpp:398`).
- *A budget that keeps nothing compacts nothing.* With no dense window, no anchor quota and nothing protected the kept
  set is empty and every keyframe stays (`Reclaim.CompactionBound`, `Reclaim.NothingKeptNothingRemoved`;
  `src/resource_budget.cpp:238-247`).
- *Redundant keyframes need not be near each other.* The test compares the translations of the two poses and takes them
  for the camera centres, while a pose maps submap coordinates to camera ones (`include/vslam/frame.h:14-22`). Away from
  the submap's origin a small turn then hides any baseline (`Baseline.MeasuredExactly`, `Baseline.CloseCanBeFar`;
  `src/resource_budget.cpp:73-75`).
- *The first record of a segment is held only if the loop endpoint comes after it* (`CrossSubmap.FirstRecordHeld`;
  `src/vo.cpp:222`).
- *The flat score is the L1 score only up to 1*, where it is clamped (`Scoring.FlatScoreIsL1Score`, `Scoring.FlatScoreStopsAtOne`;
  `src/loop_closure.cpp:225`).

## Model

| member | source | states |
|---|---|---|
| `Quaternions.MulAssoc` | include/vslam/common.h:61-63 | the quaternion product behind pose composition is associative, on all reals |
| `Quaternions.MulRotor` | include/vslam/common.h:61-63 | unit quaternions are closed under the product |
| `RigidMotion.SandwichIsPure` | include/vslam/common.h:66-68 | rotating a vector by the sandwich product gives a vector again, nothing is dropped |
| `RigidMotion.RotateCompose` | include/vslam/common.h:61-63 | rotating by a product is rotating twice |
| `RigidMotion.ComposeAssoc` | include/vslam/common.h:61-63 | pose composition is associative |
| `RigidMotion.ComposeInverse` | include/vslam/common.h:50-53 | the inverse cancels on both sides |
| `RigidMotion.InverseUnique` | include/vslam/common.h:50-53 | no other pose cancels a pose |
| `RigidMotion.InverseCompose` | include/vslam/common.h:50-63 | the inverse of a composition is the reversed composition of inverses |
| `RigidMotion.ActCompose` | include/vslam/common.h:66-68 | acting with a composition is acting twice |
| `RigidMotion.ActInverse` | include/vslam/common.h:50-68 | acting with a pose and its inverse returns every point |
| `RigidMotion.RelativeChain` | include/vslam/common.h:50-63 | relative poses chain through a middle keyframe |
| `RigidMotion.SameActs` | include/vslam/common.h:64-68 | a pose given by q or by -q moves every point alike |
| `RigidMotion.SameCompose` | include/vslam/common.h:61-63 | a pose given by q or by -q composes to the same rigid motion |
| `RigidMotion.ActKeepsDistance` | include/vslam/common.h:64-68 | a rigid motion keeps distances, by the square of the sandwich |
| `Rebasing.SplitRecomposes` | src/loop_graph.cpp:10-13 | T_wo composed with T_oc is exactly the published T_wc |
| `Rebasing.TailPoseFollowsEndpoint` | src/loop_graph.cpp:15-20 | the rebased tail pose is the one and only pose with the old relation to the endpoint |
| `Rebasing.TailPosesKeepRelative` | src/loop_graph.cpp:15-20 | two rebased tail keyframes keep their relative pose |
| `Rebasing.TailPointFollowsReference` | src/loop_graph.cpp:22-27 | the rebased point is the one and only point with the old camera coordinates in its reference |
| `Rebasing.ReanchoredWorldPose` | src/vo.cpp:195-200 | re-anchoring a record leaves its composed world pose unchanged |
| `Rebasing.BlendedWorldPose` | src/vo.cpp:202-214 | a blended record is seen from the interpolated submap anchor |
| `Rebasing.ZeroAlphaKeepsWorldPose` | src/vo.cpp:202-214 | blend factor 0 leaves the world pose where it was |
| `Rebasing.FullAlphaFollowsAnchor` | src/vo.cpp:202-214 | blend factor 1 moves the record rigidly with its submap, for an anchor of either quaternion sign |
| `Rebasing.AnchorMovesEvenly` | src/vo.cpp:202-214 | the blended anchor moves straight: its translation is that fraction of the way, its rotation the slerp at that fraction |
| `Rebasing.CrossSubmapConstraintMeaning` | src/atlas.cpp:8-21 | the loop constraint holds exactly when both submaps put the camera at one world pose |
| `Rebasing.AnchorMoveKeepsLocalPose` | src/atlas.cpp:23-26 | moving the submap anchor keeps the camera pose inside the submap |
| `Rebasing.InterpolationEnds` | src/loop_graph.cpp:88-96 | the blended correction starts at one anchor's correction and ends at the other's |
| `Rebasing.InterpolationOfEqual` | src/loop_graph.cpp:88-96 | blending two equal corrections gives that correction |
| `Rebasing.CorrectionMovesEvenly` | src/loop_graph.cpp:88-96 | the blended correction moves straight and evenly: its translation is that fraction of the way, its rotation the slerp at that fraction over the shorter turn |
| `Rebasing.AlphaShape` | src/vo.cpp:216-228 | for 64-bit frame ids the blend factor is 0 at the first frame, 1 from the endpoint on, within 0 and 1, and monotone |
| `Rebasing.AlphaIsProportional` | src/vo.cpp:216-228 | between first frame and endpoint the blend factor is the share of frames passed |
| `MapEntities.MapPoint.AddObservation` | src/mappoint.cpp:8-18 | at most one feature per keyframe; a second one is refused and changes nothing |
| `MapEntities.MapPoint.RemoveObservation` | src/mappoint.cpp:20-22 | removes exactly the named observation |
| `MapEntities.MapPoint.FeatureIndex` | src/mappoint.cpp:24-30 | a feature is returned exactly if the keyframe observes the point, and it is that feature |
| `Covisibility.CovIsUnique` | src/map.cpp:374-403 | at most one table matches the observations, so any maintained table is the recomputed one |
| `Covisibility.SharedAfterAdd` | src/map.cpp:277-284 | one more observation adds one to exactly the pairs with the point's other keyframes |
| `Covisibility.CovAfterAdd` | src/map.cpp:277-294 | the incremented table is exact for the new observations |
| `Covisibility.CovAfterRemove` | src/map.cpp:296-306 | the decremented table, zero entries dropped, is exact for the remaining observations |
| `ObservationModel.SlotIffObservation` | src/map.cpp:125-185 | slot i of a keyframe holds p exactly if p is the registered object and carries that observation; no second slot of the frame holds it |
| `ObservationModel.SetSlotOnConsistent` | src/map.cpp:125-185 | a call succeeds exactly if frame, slot and point exist and the point is not seen from the frame yet; otherwise nothing changes |
| `ObservationModel.SetThenClear` | src/map.cpp:114-218 | clearing the slot undoes a successful binding of a free slot exactly |
| `ObservationModel.SwapAfterClear` | src/map.cpp:125-185 | rebinding an occupied slot equals clearing it and binding it |
| `ObservationModel.ClearSlotOnConsistent` | src/map.cpp:193-218 | clearing succeeds exactly on a filled slot, keeps the invariant, and otherwise changes nothing |
| `ObservationModel.BatchIsOneByOne` | src/map.cpp:39-53 | removing a batch of ids, duplicates and unknown ones included, is removing them one by one |
| `ObservationModel.RemovePointsConsistent` | src/map.cpp:322-344 | removing any points keeps the invariant |
| `ObservationModel.RemoveFrameConsistent` | src/map.cpp:81-101 | removing a keyframe keeps the invariant |
| `ObservationModel.InsertPointConsistent` | src/map.cpp:10-18 | registering a bare point under a new id keeps the invariant |
| `ObservationModel.AdmitPointConsistent` | src/map.cpp:10-18 | registering a point with whatever observations it brings keeps the invariant exactly if it brings none |
| `ObservationModel.Repaired` | src/map.cpp:220-275 | the repaired frame keeps a slot's point exactly if it is registered and formal there |
| `ObservationModel.RegisterStep` | src/map.cpp:248-275 | one slot of the repair loop, whatever was written there, moves the repair one slot on |
| `ObservationModel.RegisterDone` | src/map.cpp:220-275 | after the last slot the map is consistent and the frame is repaired |
| `ObservationModel.OverwrittenStart` | src/map.cpp:220-247 | arbitrary overwrites of one frame, with their observations pruned, are a state the repair can start from |
| `SlamMap.Map.AddCovisibility` | src/map.cpp:277-284 | adds one to exactly the pairs of the keyframe with the point's other keyframes |
| `SlamMap.Map.RemoveCovisibility` | src/map.cpp:296-306 | takes one from exactly those pairs and leaves no zero entry |
| `SlamMap.Map.SetObservationUnlocked` | src/map.cpp:125-185 | on a frame under repair too: slots, observations, counts and last hits change as specified, the counts stay exact, and the point is hit at the present keyframe count exactly if it is newly observed |
| `SlamMap.Map.SetObservation` | src/map.cpp:114-123 | keeps the invariant, has exactly the specified effect, hits the point at the present keyframe count exactly on success, and a false return changes nothing |
| `SlamMap.Map.ClearObservation` | src/map.cpp:187-218 | keeps the invariant, has exactly the specified effect, and a false return changes nothing |
| `SlamMap.Map.RegisterKeyframeObservations` | src/map.cpp:248-275 | registering the slots of a frame yields a consistent map with exact counts, and hits exactly the newly observed points |
| `SlamMap.Map.SyncKeyframeObservations` | src/map.cpp:220-247 | repairs arbitrary overwrites of one frame back to the full invariant, hits exactly the newly observed points, and reports a change exactly if a slot or an observation changed |
| `SlamMap.Map.InsertKeyFrame` | src/map.cpp:405-417 | registers a new keyframe with all its valid slots and hits exactly the newly observed points; a known id, the registered frame's own included, changes nothing |
| `SlamMap.Map.RemoveKeyFrame` | src/map.cpp:81-101 | withdraws every observation of the keyframe and empties its slots, keeping the invariant |
| `SlamMap.Map.InsertMapPoint` | src/map.cpp:10-18 | registers the point as it is, a known id changes nothing; the invariant survives exactly if the point brings no observations |
| `SlamMap.Map.RemoveMapPoint` | src/map.cpp:25-37 | removes exactly this point from table, slots, observations, counts and last hits |
| `SlamMap.Map.RemoveMapPoints` | src/map.cpp:39-53 | removes exactly the registered ids, with their last hits, and counts them; the topology revision moves once |
| `SlamMap.Map.CullMapPoints` | src/map.cpp:55-79 | removes exactly the points with too few formal observations, with their last hits |
| `SlamMap.Map.Clear` | src/map.cpp:440-457 | leaves an empty, valid map and bare objects |
| `SlamMap.Map.SharedObservationCount` | src/map.cpp:350-355 | equals the number of points both keyframes observe, in either order |
| `MapTraces.ApplyKeepsConsistent` | src/map.cpp:10-457 | every public operation keeps the invariant, and one reporting no effect changes nothing |
| `MapTraces.ApplyKeepsTable` | src/map.cpp:277-306 | every operation's table, counted up and down observation by observation, equals a recount |
| `MapTraces.ReachableMapsAreConsistent` | src/map.cpp:10-457 | on every run of operations from the empty map the slot-observation equivalence holds with object identity, and the table counts every pair's common points without zero entries |
| `ConsistencyCheck.VerifyObservationConsistency` | src/map.cpp:374-403 | the self-check answers exactly its stated conditions, the counts recomputed from scratch |
| `ConsistencyCheck.CheckIsExactUpToIdentity` | src/map.cpp:374-403 | a pass with no impostor in a slot is exactly the full invariant |
| `ConsistencyCheck.OverwrittenPasses` | src/map.cpp:395-401 | a second object with a registered id passes the check although the invariant is broken |
| `ConsistencyCheck.Impostor` | src/map.cpp:395-401 | builds such a map: the check passes, the invariant does not hold |
| `TrackingHits.BindingHits` | src/map.cpp:286-294 | a successful binding hits the point at the present keyframe count, any other changes no hit |
| `TrackingHits.HitStands` | src/map.cpp:286-344 | over every run of operations a hit is forgotten only with its point, and later ones are no older than the run's least keyframe count |
| `TrackingHits.HitIsNotStale` | src/resource_budget.cpp:169-181 | a point hit at some keyframe count is not stale while at most the window more keyframes are there |
| `NewPoints.ConnectedMore` | src/local_mapper.cpp:87-105 | binding a new point on one more free slot is one more observation, and clearing that slot is its exact inverse |
| `NewPoints.ConnectPair` | src/local_mapper.cpp:86-107 | a triangulated point is bound on every registered side or the map is exactly as before, and when each happens |
| `NewPoints.TriangulateNewPoints` | src/local_mapper.cpp:57-113 | exactly the matches accepted in order yield a point, which sits at both features where the triangulation says; nothing registered or bound moves, the budget holds |
| `NewPoints.ConnectOne` | src/local_mapper.cpp:34-50 | a stereo point is bound to its slot or the map is exactly as before |
| `NewPoints.CreateMapPointsFromStereo` | src/local_mapper.cpp:21-55 | every free feature with depth gets a point that projects back onto its depth, until the point budget is reached |
| `NewPoints.StereoPointIsSeenThere` | src/local_mapper.cpp:35-36 | the placed point has the measured camera coordinates |
| `CommitModel.WritePosesWrites` | src/backend_committer.cpp:78-83 | every live non-skipped pose update is written and no other pose moves |
| `CommitModel.WritePointsWrites` | src/backend_committer.cpp:84-87 | every live point update is written and no other point moves |
| `CommitModel.CommitIsAllOrNothing` | src/backend_committer.cpp:30-91 | a result is written whole with geometry advanced by one, or nothing moves at all |
| `CommitModel.CommitsExactly` | src/backend_committer.cpp:30-76 | exactly which results commit, which are invalid and which are stale |
| `CommitOnMap.CommitResult` | src/backend_committer.cpp:30-91 | written through live pointers, the commit leaves exactly the coordinates and revision of the value-level commit, also when stale, invalid, dangling or without a map |
| `CommitProtocol.NextSound` | src/backend_committer.cpp:30-91 | every interleaved step keeps the protocol invariant |
| `CommitProtocol.CommittedObjectsAreUnmoved` | src/backend_committer.cpp:8-91 | over every interleaving, what a committing result writes still has its snapshot coordinates |
| `CommitProtocol.OneCommitPerRevision` | src/backend_committer.cpp:8-15 | over every interleaving, at most one result per map and geometry revision commits |
| `CommitProtocol.LoopPrefixIsIntact` | src/vo.cpp:2466-2498 | over every interleaving, a committing loop finds its frozen keyframes and points unmoved |
| `CommitProtocol.LoopKeepsAppendedKeyframes` | src/vo.cpp:2505-2516 | over every interleaving, keyframes appended during the solve keep their poses relative to the endpoint and each other |
| `LoopCorrection.PoseGraphSolution` | src/vo.cpp:2397-2410 | with global BA off the frozen points follow their earliest observer's correction |
| `LoopCorrection.TailKeepsRelativePoses` | src/vo.cpp:2505-2516 | every appended keyframe keeps its pose relative to the frozen endpoint and to every other one |
| `LoopCorrection.FrozenPointKeepsCamera` | src/vo.cpp:2401-2410 | a frozen observed point keeps its camera coordinates in the observer it was frozen with |
| `LoopCorrection.AppendedPointKeepsCamera` | src/vo.cpp:2518-2537 | an appended point keeps its camera coordinates in its earliest observer, or in the endpoint |
| `LoopCorrection.CameraKeptExactly` | src/vo.cpp:2401-2537 | exactly when a point keeps its camera coordinates in its present earliest observer |
| `LoopCorrection.LateObservationIsNotFollowed` | src/vo.cpp:2401-2410 | a frozen point first observed by a keyframe appended during the solve is left behind: a concrete family of two frozen keyframes |
| `LoopTransaction.Freeze` | src/vo.cpp:2284-2371 | the snapshot holds every keyframe and point with its present coordinates, the greatest id as endpoint, and every point's earliest observer |
| `LoopTransaction.FinalPoses` | src/vo.cpp:2505-2516 | every live keyframe gets its solved pose, or follows the endpoint if appended |
| `LoopTransaction.FinalPoints` | src/vo.cpp:2518-2537 | every live point gets its solved position, or follows its first registered observer |
| `LoopTransaction.OfferIsCommitted` | src/vo.cpp:2539-2563 | the assembled result names only live objects, so the committer accepts it whole |
| `LoopTransaction.CommitLoop` | src/vo.cpp:2466-2563 | commits exactly if map, geometry and every frozen object are still there; a refusal leaves poses, points and revision unchanged |
| `LoopRun.SpareMeansUnmoved` | src/vo.cpp:2466-2498 | while the geometry revision stands and no frozen object was taken, no sequence of changes has moved a frozen object |
| `LoopRun.StillThereStep` | src/vo.cpp:2481-2498 | an object that was taken stays missing for the identity check, even if its id is registered again |
| `LoopRun.ChangeAll` | src/vo.cpp:2466-2498 | after any changes to the live map the identity check passes exactly if none of them took a frozen object |
| `LoopRun.RunLoop` | src/vo.cpp:2284-2565 | freeze, solve, commit as one: for any solver and any changes meanwhile, commits exactly under the stated conditions, then writes the corrected map over an unmoved prefix with the tail's relative poses kept; otherwise no coordinate moves |
| `Trajectory.SelfAnchored` | src/vo.cpp:800-803 | a self-anchored record has identity motion |
| `Trajectory.RefinedKeepsWorldPose` | src/vo.cpp:2802-2825 | rebasing a record whose anchor a local BA moved keeps its world pose |
| `Trajectory.ReanchoredKeepsWorldPose` | src/vo.cpp:2910-2925 | re-anchoring before a cull keeps the world pose and a live anchor |
| `Trajectory.RefreshedSurvivesRemoval` | src/vo.cpp:2568-2578 | after a refresh the record survives the loss of its anchor without falling back to old geometry |
| `Trajectory.NewRecordReadsBack` | src/vo.cpp:800-803 | a new record reads back as the tracked pose while its anchor has not moved |
| `Trajectory.NewRecordFollowsAnchor` | src/vo.cpp:774-807 | if the anchor was corrected meanwhile, the record follows it rigidly |
| `Trajectory.CommitMovesOnlyUpdates` | src/vo.cpp:2802-2825 | records rebased after a commit cover exactly the anchors it moved |
| `Trajectory.EventPreserves` | src/vo.cpp:2802-2925 | one commit, cull, or insertion keeps every record's world pose |
| `Trajectory.RunKeepsWorldPoses` | src/vo.cpp:2802-2925 | over every run of them, through chains of re-anchoring, no published world pose moves and a live anchor stays live |
| `Trajectory.PoseRecords.Append` | src/vo.cpp:852 | a published record is added at the end, the others stay |
| `Trajectory.PoseRecords.Refresh` | src/vo.cpp:2568-2578 | every record of the corrected submap takes the present pose of its live anchor |
| `Trajectory.PoseRecords.HandOver` | src/vo.cpp:2910-2925 | exactly the records of the removed keyframe are handed over |
| `Trajectory.PoseRecords.ApplyLocalBAResult` | src/vo.cpp:2769-2831 | commit and record rebase happen together: every record equals the specified one for the poses before and after |
| `SubmapAtlas.ZeroResidualMeansAgreement` | src/atlas.cpp:108-109 | an edge has zero residual exactly if the far anchor is the near one moved by the measurement |
| `SubmapAtlas.Atlas.CreateSubmap` | src/atlas.cpp:28-42 | the new submap has a fresh id and an empty map and becomes active; only the previous active one is frozen |
| `SubmapAtlas.Atlas.Activate` | src/atlas.cpp:44-53 | succeeds exactly for a known id; only that submap's frozen flag changes |
| `SubmapAtlas.Atlas.LoopConstraintsConsistent` | src/atlas.cpp:92-122 | true exactly if every loop edge resolves and stays within both limits; the reported extremes are limits that hold too |
| `SubmapAtlas.Atlas.Solve` | src/vo.cpp:988-1014 | whatever the solver answers only anchors change, and each one to the inverse of its last answered pose |
| `SubmapAtlas.Atlas.RestoreAnchors` | src/vo.cpp:2191-2197 | puts every anchor back exactly |
| `SubmapGraph.BuildSubmapGraph` | src/loop_graph.cpp:207-223 | one node per submap in order, one robust edge per constraint, the first submap fixed |
| `SubmapGraph.EdgeMeansConstraint` | src/loop_graph.cpp:207-223 | an edge holds between the nodes exactly when the constraint holds between the anchors |
| `SubmapGraph.AnswerIsWrittenBack` | src/vo.cpp:1001-1008 | a node-by-node answer places each anchor at the inverse of its own node and leaves the rest |
| `SubmapGraph.UnsolvedGraphChangesNothing` | src/vo.cpp:997-1008 | building the graph and writing its own nodes back is the identity on the Atlas |
| `CrossSubmap.FadedKeepsEarlyRecords` | src/vo.cpp:216-228 | a record before the segment, and its first record, keep their world pose |
| `CrossSubmap.FadedFollowsFromEndpoint` | src/vo.cpp:216-228 | a record at or after the endpoint moves rigidly with its submap |
| `CrossSubmap.FirstRecordHeld` | src/vo.cpp:216-228 | the first record is held exactly if the endpoint comes after it |
| `CrossSubmap.FadedInBetween` | src/vo.cpp:216-228 | between first frame and endpoint a record is seen from the submap anchor moved by exactly the share of frames passed |
| `CrossSubmap.PlaceAnchors` | src/vo.cpp:2183-2226 | done exactly if the solver moved something, all loop edges hold afterwards and the query's submap is still active; otherwise the Atlas is restored |
| `CrossSubmap.FadeRecords` | src/vo.cpp:2242-2266 | every record of the submap is faded from the segment's first frame to the endpoint, by the share of frames passed, others are untouched |
| `CrossSubmap.CloseLoop` | src/vo.cpp:2163-2282 | commits exactly if the identities still hold and the solve is acceptable; otherwise constraints, anchors and records are as before |
| `CrossSubmap.CommittedLoopWorldPoses` | src/vo.cpp:2242-2266 | after a commit early records stay, records in between are seen from the anchor moved by the share of frames passed, late records move with the submap, other submaps' records are untouched |
| `Sampling.SamplesAreDistinct` | src/loop_graph.cpp:74-80 | the rounded samples are in range, increasing and pairwise distinct when there are enough candidates |
| `Sampling.SampleIsNear` | src/loop_graph.cpp:74-80 | no candidate is further from a sample than half a step, and one more for the rounding |
| `Sampling.AddSpread` | src/loop_graph.cpp:70-81 | all candidates are added if they fit, otherwise exactly as many as there are slots, spread evenly over all of them |
| `LoopGraph.SelectLoopEnds` | src/loop_graph.cpp:51-65 | both ends of the newest resolvable loop edge are selected, and going back from it every older edge too whose missing ends still fit the bound; nothing else is |
| `LoopGraph.SelectAnchorIndices` | src/loop_graph.cpp:36-86 | increasing, with first and last, bounded, holding the loop ends, filling the bound with evenly spread grid keyframes when crowded, and holding the whole grid otherwise |
| `AnchorGraph.MeanOfEqual` | src/loop_graph.cpp:128-143 | equally weighted edges inside a gap give their weight to its tie |
| `AnchorGraph.BuildAnchorGraph` | src/loop_graph.cpp:100-152 | odometry ties between neighbouring anchors first, then every loop edge with both ends among the anchors, unchanged, in order and as often as it occurs, and nothing else; fixed ids as frozen |
| `AnchorGraph.NewestLoopIsKept` | src/loop_graph.cpp:51-152 | the newest resolvable loop edge constrains the anchor graph |
| `AnchorGraph.OdometryTelescopes` | src/loop_graph.cpp:123-146 | the chained measurements between any two anchors are their frozen relative pose |
| `CorrectionSpread.BracketIsUnique` | src/loop_graph.cpp:184-190 | exactly one pair of neighbouring anchors brackets a position |
| `CorrectionSpread.PropagateAnchorCorrections` | src/loop_graph.cpp:154-205 | one update per frozen keyframe, in order, each by the blend of the two anchors that bracket it |
| `CorrectionSpread.AnchorsGetSolvedPose` | src/loop_graph.cpp:185-203 | every anchor ends at exactly its solved pose |
| `CorrectionSpread.SpreadsEvenly` | src/loop_graph.cpp:184-203 | between two anchors a keyframe's correction is the blend of theirs at the share of keyframes passed |
| `CorrectionSpread.CommonCorrectionMovesAll` | src/loop_graph.cpp:186-203 | if one motion moved all anchors it moves every keyframe |
| `CorrectionSpread.UnmovedAnchorsMoveNothing` | src/loop_graph.cpp:186-203 | unmoved anchors move no keyframe |
| `BudgetPolicy.FitsMeans` | src/resource_budget.cpp:36-61 | within budget means every quantity and the estimated total are within their limits |
| `BudgetPolicy.FitsIsMonotone` | src/resource_budget.cpp:36-61 | using less of everything never leaves the budget |
| `BudgetPolicy.SelectEssentialHistory` | src/resource_budget.cpp:93-143 | keeps exactly the dense window, all protected, first and last history, and of the regular grid either all or an even sample that fills the quota; stays within the stated bound |
| `MapExtent.WithinUsesLess` | src/resource_budget.cpp:36-61 | removing things or shrinking images increases no budgeted quantity |
| `Baseline.CloseToItself` | src/resource_budget.cpp:75-80 | a keyframe is close to itself exactly if both limits are positive |
| `Baseline.CloseIsMutual` | src/resource_budget.cpp:75-80 | it does not matter which of two keyframes is the older one |
| `Baseline.CloseEitherSign` | src/resource_budget.cpp:77-79 | nor with which sign a rotation is stored |
| `Baseline.CentersApart` | src/resource_budget.cpp:73-75 | the cameras are as far apart as the newer translation and the older one turned by the relative rotation |
| `Baseline.MeasuredExactly` | src/resource_budget.cpp:73-75 | exactly when the compared distance is that of the cameras |
| `Baseline.SameViewMeasures` | src/resource_budget.cpp:73-75 | it is if both keyframes have the same rotation |
| `Baseline.CloseCanBeFar` | src/resource_budget.cpp:73-80 | a family of close keyframes whose cameras are as far apart as one likes |
| `ResourceBudget.Evaluate` | src/resource_budget.cpp:36-61 | reports the exact counts and byte sums of the map |
| `ResourceBudget.RemoveOneByOne` | src/resource_budget.cpp:159-167 | removing ids one at a time removes exactly that set, with its last hits, and counts it |
| `ResourceBudget.StaleStays` | src/resource_budget.cpp:169-185 | whether a point is stale does not depend on which others were removed |
| `ResourceBudget.ReleaseOldImages` | src/resource_budget.cpp:187-201 | exactly the keyframes outside the recent window lose their images |
| `ResourceBudget.CullOne` | src/resource_budget.cpp:216-226 | hands over the records before the keyframe goes: world poses and live anchors are kept |
| `ResourceBudget.RedundantPair` | src/resource_budget.cpp:70-89 | decides the overlap and baseline condition from the map's own observations |
| `ResourceBudget.CullPass` | src/resource_budget.cpp:206-229 | one scan keeps the culling state; every culled keyframe was unprotected, outside the recent window and redundant beside its neighbour in the very map it was culled from; removing nothing means no neighbouring pair is redundant |
| `ResourceBudget.CullRedundant` | src/resource_budget.cpp:203-231 | terminates; culls only above the keyframe budget, and each keyframe for the reason of its scan; if the count still fails, nothing redundant is left |
| `Reclaim.ThinOut` | src/resource_budget.cpp:238-255 | leaves exactly the kept keyframes, every removed one's records handed to a kept one, their observations withdrawn, and counts the removed ones |
| `Reclaim.Compact` | src/resource_budget.cpp:233-263 | the keyframes left are those of a good selection, exactly the points only removed keyframes observed go, and both counts are exact |
| `Reclaim.CompactionBound` | src/resource_budget.cpp:93-143 | the count is within dense + max(quota, protected + 2), exactly unless the configuration keeps nothing and more than two keyframes exist |
| `Reclaim.NothingKeptNothingRemoved` | src/resource_budget.cpp:238-247 | the exception at three keyframes: all three stay against a bound of two |
| `Reclaim.ReclaimPointsAndImages` | src/resource_budget.cpp:157-202 | exactly the unobserved points go; exactly the stale ones too if that was not enough; exactly the old images if that was not enough either; no keyframe goes, and every count is exact |
| `Reclaim.CompactedReclaimBound` | src/resource_budget.cpp:93-263 | a compaction of any keyframes left of the original ones brings the count to the budget or to dense + protected + 2, unless nothing is to be kept, when it removes nothing |
| `Reclaim.ReclaimMap` | src/resource_budget.cpp:147-265 | nothing happens within budget; keyframes go only after exactly the unobserved and stale points and the old images went; every one culled before a compaction was redundant in the map it was culled from, unprotected and not recent, and above the keyframe budget no redundant one is left; a compaction follows exactly if the map still does not fit, starts from the keyframes then left, all protected ones included, and takes exactly the points it orphans; the keyframe bound holds of the whole reclaim; every count is exact; growth stops exactly if the budget still fails |
| `Reclaim.CullingMeans` | src/resource_budget.cpp:147-321 | after any reclaim: valid map, no quantity grew, protected keyframes stay, the reported ids are exactly the removed ones, world poses kept and anchors live |
| `Reclaim.ChooseFrozen` | src/resource_budget.cpp:271-280 | frozen are all inactive submaps but the newest allowed ones |
| `Reclaim.FreezeSubmap` | src/resource_budget.cpp:280-313 | a frozen submap loses exactly the listed images, counted, and its weak stale points, no keyframe |
| `ReclaimAtlas.FreezeInactive` | src/resource_budget.cpp:266-313 | exactly the oldest inactive submaps beyond the allowed number are frozen, each on its own map, the others unchanged; unloaded images and removed points are counted |
| `ReclaimAtlas.ReclaimAll` | src/resource_budget.cpp:147-321 | all stages: the active map with the whole account of its reclaim, the inactive submaps frozen exactly if it still does not fit, and neither side touches the other |
| `BowVectors.Merge` | src/loop_closure.cpp:185-196 | the in-place merge of a word-sorted vector leaves the list of the bag that folding gives |
| `BowVectors.NormaliseFlat` | src/loop_closure.cpp:197-207 | the prefix lists the L1-normalised bag, unchanged when the norm is 0 |
| `BowVectors.FlatTransform` | src/loop_closure.cpp:185-208 | whatever order equal words were sorted into, the result lists the normalised bag of the features |
| `BowVectors.FoldPermutes` | thirdparty/DBoW3/src/BowVector.cpp:34-46 | folding features into a bag does not depend on their order |
| `BowVectors.NormalisedHasUnitNorm` | thirdparty/DBoW3/src/BowVector.cpp:62-84 | a bag with positive norm is normalised to norm 1 and stays non-negative |
| `BowVectors.BowVector.Add` | thirdparty/DBoW3/src/BowVector.cpp:34-46 | adds the weight to the word, inserting it if new |
| `BowVectors.BowVector.Normalise` | thirdparty/DBoW3/src/BowVector.cpp:62-84 | divides every weight by the L1 norm, if positive |
| `BowVectors.MapTransform` | thirdparty/DBoW3/src/BowVector.cpp:34-84 | the map backend yields the same normalised bag the flat vector lists |
| `Scoring.L1ScoreIsMinSum` | thirdparty/DBoW3/src/ScoringObject.cpp:23-68 | on non-negative bags the L1 score is the sum of minima over shared words |
| `Scoring.FlatScoreIsL1Score` | src/loop_closure.cpp:210-226 | the clamped flat score equals the L1 score exactly when that is at most 1 |
| `Scoring.FlatScoreStopsAtOne` | src/loop_closure.cpp:225 | two equal bags of one word above weight 1: the L1 score is the weight, the flat score 1 |
| `Scoring.NormalisedScoresAgree` | src/loop_closure.cpp:210-226 | on two normalised frames both backends report the same similarity, within 0 and 1 |
| `Scoring.SelfScore` | thirdparty/DBoW3/src/ScoringObject.cpp:23-68 | a bag against itself scores its norm, so 1 once normalised |
| `Scoring.FlatScore` | src/loop_closure.cpp:210-226 | the two-index merge computes the clamped sum of minima |
| `Scoring.ScoreL1` | thirdparty/DBoW3/src/ScoringObject.cpp:23-68 | the jumping merge computes the L1 score, jumps included |
| `InvertedFile.Database.Add` | thirdparty/DBoW3/src/Database.cpp:124-156 | files the bag under the next entry id and keeps rows and entries in agreement |
| `InvertedFile.Database.Clear` | thirdparty/DBoW3/src/Database.cpp:194-201 | leaves an empty, valid file |
| `InvertedFile.Database.ReadRow` | thirdparty/DBoW3/src/Database.cpp:306-331 | reading one row accounts for exactly one more query word in every entry |
| `InvertedFile.Database.QueryL1` | thirdparty/DBoW3/src/Database.cpp:293-359 | returns exactly the eligible entries sharing a word, best first, with their L1 scores, or the best of them up to the limit |
| `InvertedFile.QueryAgreesWithFlat` | thirdparty/DBoW3/src/Database.cpp:293-359 | on normalised non-negative bags every reported score is the flat score |
| `LoopIndex.Victim` | src/loop_closure.cpp:641-661 | the entry given up has exactly as many older ones as the draw prescribes, and is never the oldest |
| `LoopIndex.VictimDraws` | src/loop_closure.cpp:641-661 | of all draws none gives up the oldest entry, exactly one each other entry, and the rest reject the newest |
| `LoopIndex.MixerReference` | src/loop_closure.cpp:644-648 | the mixer of the draw has the published first values of SplitMix64 |
| `LoopIndex.OldestSurvives` | src/loop_closure.cpp:641-661 | the oldest entry survives every trim |
| `LoopIndex.SeenTwiceInOneQuery` | src/loop_closure.cpp:851-860 | one query never raises a hypothesis's support twice |
| `LoopIndex.SupportIsChain` | src/loop_closure.cpp:851-860 | the support of a hypothesis is the length of the last chain of queries that saw it with at most one missed in between |
| `LoopIndex.PlaceIsObserved` | src/loop_closure.cpp:841-868 | a seen place is covered by the first hypothesis it belongs to, now of this query, or by a new one; the place names it if it is the best view so far, and at most that one differs |
| `LoopIndex.QueryContinues` | src/loop_closure.cpp:841-868 | after a whole query every hypothesis is as before or was seen: one more support after at most one missed query, one after more, and the best view names it; the rest were opened by it |
| `LoopIndex.Index.Enable` | src/loop_closure.cpp:508-570 | switching the backend forgets everything and clamps the limit to at least 1 |
| `LoopIndex.Index.Trim` | src/loop_closure.cpp:636-668 | an overfull reservoir gives up exactly the drawn entry with the hypotheses naming it |
| `LoopIndex.Index.AddKeyFrame` | src/loop_closure.cpp:628-699 | keeps key sets, serials, bound and id maps, the victim drawn by the 64-bit mixer of the new serial; a known or empty keyframe changes nothing |
| `LoopIndex.Index.RebuildDatabase` | src/loop_closure.cpp:332-358 | after a rebuild entry ids and keyframe ids are again inverse and every entry holds its keyframe's bag |
| `LoopIndex.Index.RemoveKeyFrames` | src/loop_closure.cpp:572-597 | exactly these keyframes leave every backend, with all hypotheses naming them |
| `LoopIndex.Index.ObservePlaces` | src/loop_closure.cpp:841-884 | hypotheses become those of the seen places, recent ones only, the best ranked 256, none naming an absent keyframe; each continues one from before, with its support one up or restarted, or was opened by this query |
| `LoopIndex.Index.Query` | src/loop_closure.cpp:755-769 | answers in keyframe ids: exact scores, best first, complete up to the pool |
| `BoundedQueries.QueryCompact` | src/loop_closure.cpp:719-731 | the best of the eligible keyframes by similarity, as many as the pool holds, ties by id |
| `BoundedQueries.QueryFlat` | src/loop_closure.cpp:732-748 | the same with the flat score of the filed bags |
| `BoundedQueries.BestIsUnique` | src/loop_closure.cpp:724-748 | scores and pool determine the answer of both queries, whatever order the container is walked in |
| `PlaceClusters.FilterHits` | src/loop_closure.cpp:775-792 | lists exactly the eligible hits from the front until the pool is full |
| `PlaceClusters.PlacesAreComponents` | src/loop_closure.cpp:797-830 | cutting an ordered list at its gaps separates exactly what no chain of same-submap hits, each no further than the gap, connects |
| `PlaceClusters.ClustersAreComponents` | src/loop_closure.cpp:797-830 | the places either scan returns are the connected components: a place holds exactly the hits connected with any one of its members |
| `PlaceClusters.ScanPlaces` | src/loop_closure.cpp:797-830 | the linear scan cuts the ordered hits exactly at the gaps and keeps each place's members, interval and best hit |
| `PlaceClusters.ScanPriors` | src/loop_closure.cpp:955-987 | the position scan does the same with the nearest keyframe as representative |
| `PlaceClusters.ScannedPlacesApart` | src/loop_closure.cpp:797-830 | the places found are pairwise more than the gap apart within a submap |
| `PlaceClusters.EveryoneIsPlaced` | src/loop_closure.cpp:797-830 | every hit lies in one of the places |
| `PlaceClusters.ScanFindsComponents` | src/loop_closure.cpp:797-987 | either scan of the sorted list returns the places of the list as it came: its connected components, each with its best hit and its interval |
| `PlaceCandidates.RankPlaces` | src/loop_closure.cpp:886-921 | at most twelve places, ranked, and none left out that ranks before a kept one |
| `PlaceCandidates.ChoosePriors` | src/loop_closure.cpp:994-1024 | the nearest priors that touch no retrieved place, nearest first, at most four, none skipped without reason |
| `PlaceCandidates.Merge` | src/loop_closure.cpp:1026-1032 | priors displace only the lowest ranked places, and only as many as needed |
| `PlaceCandidates.AwayWithinSubmap` | src/loop_closure.cpp:926-947 | inside the query's own submap the prior does not depend on the submap's anchor |
| `PlaceCandidates.PositionPriors` | src/loop_closure.cpp:925-950 | exactly the cached keyframes near enough in the newest anchors and old enough |
| `PlaceCandidates.Candidates` | src/loop_closure.cpp:886-1032 | the best ranked places, best first, with the support of their hypotheses, and the nearest priors: every keyframe near enough lies in a prior's place, in one a ranked place covers, or there are four priors at least as near; at most 12 with at most 4 priors, pairwise apart, each outside its temporal window; below 12 every eligible hit is covered |
| `PlaceCandidates.DetectLoop` | src/loop_closure.cpp:701-1032 | the query from the hits on: the places are the components of exactly the eligible hits and were folded into the hypotheses, then ranked and joined with the priors as above; every candidate is indexed |
| `UnionFind.RootsDecide` | src/local_mapper.cpp:220-231 | two positions have the same root exactly if links connect them |
| `UnionFind.Forest.FindRoot` | src/local_mapper.cpp:222-226 | returns the root of the class and terminates |
| `UnionFind.Forest.Unite` | src/local_mapper.cpp:227-231 | merges exactly the two classes |
| `UnionFind.UniteLists` | src/optimizer.cpp:241-246 | after uniting, the roots represent the links of all lists |
| `LocalWindow.ListsToUnite` | src/local_mapper.cpp:232-247 | exactly the points with at least three window observations link their keyframes |
| `LocalWindow.ShareMeansThreeKeyframes` | src/local_mapper.cpp:232-247 | with one observation per keyframe and point these are the points at least three window keyframes see |
| `LocalWindow.KeepComponent` | src/local_mapper.cpp:216-265 | keeps exactly the anchor's connected component, in order |
| `LocalWindow.Cap` | src/local_mapper.cpp:287-304 | at most the limit, and no dropped landmark is preferred to a kept one |
| `LocalWindow.BuildSnapshot` | src/local_mapper.cpp:216-311 | every kept observation refers to a kept keyframe and landmark, and all such observations are kept |
| `WindowSnapshot.WindowObsFacts` | src/local_mapper.cpp:181-214 | collected is every observation from the window of a point observed often enough, nothing else, and no keyframe reports a point twice |
| `WindowSnapshot.BuildLocalBASnapshot` | src/local_mapper.cpp:170-311 | from a valid map: live frames only, observations under the threshold filter, the anchor's component, capped landmarks, and nothing dangling |
| `FixedPoses.PickTwo` | src/optimizer.cpp:253-268 | two members, or all if fewer, requested ones first |
| `FixedPoses.ChooseFixed` | src/optimizer.cpp:226-268 | exactly min(2, size) poses are fixed in every component, requested ones preferred, and no others |
| `FixedPoses.ClassIsConnected` | src/optimizer.cpp:226-248 | the components are those of the connectivity itself |
| `GaugeFixing.SelectPoints` | src/optimizer.cpp:210-224 | above the cap the most observed points are selected; below it, and with a cap of zero, none is singled out |
| `GaugeFixing.WideMeansThree` | src/optimizer.cpp:236-246 | a point links keyframes exactly if three different ones see it |
| `GaugeFixing.FixGauge` | src/optimizer.cpp:183-268 | poses are connected by the selected points at least three keyframes see, and every component so made gets exactly min(2, size) fixed poses, requested ones first |
| `BackendScheduler.EnqueueRespectsRank` | src/backend_scheduler.cpp:22-50 | exactly when a task gets the slot, and the waiting rank never falls |
| `BackendScheduler.Scheduler.Enqueue` | src/backend_scheduler.cpp:22-50 | slot and dropped count end as the priority rule on values prescribes, whatever waits |
| `BackendScheduler.Scheduler.Submit` | src/backend_scheduler.cpp:22-56 | a whole call counts one submission, and every task ends up waiting or dropped |
| `BackendScheduler.Scheduler.Take` | src/backend_scheduler.cpp:107-116 | takes the waiting task; exits exactly if stopped and nothing waits |
| `BackendScheduler.Scheduler.Settle` | src/backend_scheduler.cpp:126-131 | a task in hand is executed, or dropped as expired |
| `BackendScheduler.EveryRunIsSound` | src/backend_scheduler.cpp:22-148 | over every interleaving the books balance, exit leaves nothing waiting, and no culled keyframe stays indexed unnoticed |
| `BackendScheduler.QuietBooks` | src/backend_scheduler.cpp:22-148 | with no call in flight, submitted = executed + dropped + waiting |
| `BackendScheduler.WaitingRankNeverFalls` | src/backend_scheduler.cpp:22-50 | over every interleaving the waiting task's rank falls only when it is taken |
| `BackendScheduler.StoppedStaysDrained` | src/backend_scheduler.cpp:58-66 | once stopped and drained the slot stays empty |
| `BackendScheduler.StoppedWorkerMoves` | src/backend_scheduler.cpp:107-116 | after a stop request the worker can move until it has left |
| `BackendScheduler.StopDrains` | src/backend_scheduler.cpp:58-148 | after a stop request at most six worker steps, in any interleaving, settle the task in hand and the waiting one and end the worker |
| `BackendScheduler.DrainCleansAll` | src/vo.cpp:2848-2861 | whatever steps come between the swap of the list and the removal, and after it: no keyframe culled before the swap is in the index again |
| `TrackingStateMachine.Machine.OnTracking` | src/tracking_state_machine.cpp:43-94 | state, counters and output move as the transition table on values prescribes, in every state, stopped included |
| `TrackingStateMachine.Machine.ProcessFrame` | src/tracking_state_machine.cpp:96-144 | the same for a frame while tracking or degraded: recovery, degradation, entry into the search |
| `TrackingStateMachine.Machine.OnRelocalization` | src/tracking_state_machine.cpp:146-186 | the same for a relocalization result, a no-op outside Relocalizing and Lost |
| `TrackingStateMachine.Machine.Stop` | src/tracking_state_machine.cpp:188-194 | the same for a stop: every counter is cleared and only Stopped is reported |
| `TrackingStateMachine.CountersMeanHistory` | src/tracking_state_machine.cpp:36-193 | on every run the counters are the trailing run lengths and times since the last transition |
| `TrackingStateMachine.NoRunOvershoots` | src/tracking_state_machine.cpp:36-193 | on every run no streak outlives its threshold, a count below one acting like one, and a search stays within its frames and seconds |
| `TrackingStateMachine.SearchStartsAtTheLimit` | src/tracking_state_machine.cpp:136-141 | Relocalizing is entered exactly at the configured consecutive failure, whatever limit is configured |
| `TrackingStateMachine.TracksAtTheLimit` | src/tracking_state_machine.cpp:50-185 | Tracking is entered exactly at the configured consecutive good frame of an initialisation or a recovery, or by a successful relocalization |
| `TrackingStateMachine.DegradesAtTheLimit` | src/tracking_state_machine.cpp:115-126 | Degraded is entered exactly at the configured consecutive weak frame while tracking |
| `TrackingStateMachine.LostAtTheLimit` | src/tracking_state_machine.cpp:36-185 | Lost is entered exactly at the configured search frame or with the first that spends the configured time, never by a success |
| `TrackingStateMachine.ReportsTheTransition` | src/tracking_state_machine.cpp:43-194 | every report names the phase reached, a rejected frame and a spent search, and nothing else |
| `TrackingStateMachine.PredictionsAreTimed` | src/tracking_state_machine.cpp:128-144 | a prediction is published exactly while the failure run's summed time is within the timeout |
| `TrackingStateMachine.RelocalizingPublishesOnlyOnEntry` | src/tracking_state_machine.cpp:136-141 | exactly when a pose is published together with Relocalizing |
| `TrackingStateMachine.EntryCanPublish` | src/tracking_state_machine.cpp:136-141 | a concrete run whose entry into Relocalizing publishes a pose |
| `TrackingStateMachine.OnlySuccessRecovers` | src/tracking_state_machine.cpp:147-185 | only a successful relocalization leads from Relocalizing or Lost to Tracking |
| `TrackingStateMachine.MeasuredPoses` | src/tracking_state_machine.cpp:44-185 | a measured pose is published exactly for a good frame or a successful relocalization |
| `TrackingStateMachine.StoppedAbsorbs` | src/tracking_state_machine.cpp:44-193 | after a stop only Stopped is reported, and no pose |
| `FrontendSync.Frontend.SyncAnchor` | src/vo.cpp:3221-3234 | moves the baseline from the old submap anchor to the new one; another submap or an anchor equal up to quaternion sign changes nothing |
| `FrontendSync.Frontend.SyncGeometry` | src/vo.cpp:3236-3261 | the baseline follows the reference keyframe only if it was measured in the replaced geometry; after a local BA commit only the revision moves on |
| `FrontendSync.Frontend.BeginFrame` | src/vo.cpp:684-690 | geometry first, anchor second, and only then the new snapshot |
| `FrontendSync.Frontend.TryKeyFrame` | src/vo.cpp:1850-1882 | a frame from a gone geometry is refused, moved to the live reference unless a local BA was the cause, and the snapshot retaken without a sync |
| `FrontendSync.Frontend.EndFrame` | src/vo.cpp:755-857 | anchor first, geometry second; a valid frame publishes its record composed with the live anchor and becomes the baseline, another one publishes nothing |
| `FrontendSync.FirstFrame` | src/vo.cpp:824-827 | the first valid frame makes the odometry frame the world frame |
| `FrontendSync.LaterFrame` | src/vo.cpp:813-838 | T_oc advances by exactly the motion from baseline to shown pose, the split recomposes, the generation counts T_wo's changes |
| `FrontendSync.EveryValidFrame` | src/vo.cpp:812-844 | after every valid frame of every run T_wc = T_wo T_oc and T_wo is the product of the sync factors |
| `FrontendSync.RunIsExplained` | src/vo.cpp:812-844 | at every moment the baseline is the integrated odometry moved by the syncs and by nothing else |
| `FrontendSync.UncorrectedRunKeepsSplit` | src/vo.cpp:3221-3261 | runs without correction, with local BA commits and submap switches included, leave T_wo the identity and its generation 0 |
| `BaselineDrift.RecordDrifts` | src/vo.cpp:2802-2825 | a record follows every correction of its anchor and no local BA |
| `BaselineDrift.BaselineFollowsAtStart` | src/vo.cpp:684-690 | whatever was committed since and however the snapshot was retaken, the baseline is its frame's trajectory pose again exactly if it was moved by the corrections' drift |
| `BaselineDrift.RefinementsAreFollowed` | src/vo.cpp:3248-3260 | local BA commits alone are always followed |
| `BaselineDrift.CorrectionsAreFollowed` | src/vo.cpp:684-690 | corrections are followed by an acting sync exactly if the submap anchor stayed |
| `BaselineDrift.LostCorrections` | src/vo.cpp:3239-3253 | without an acting sync, or under a later local BA, corrections are followed exactly if they left the keyframe where it was |
| `BaselineDrift.RefinementsUnderCorrections` | src/vo.cpp:3254-3259 | with local BA commits under the corrections and an unmoved anchor, exactly if the local BA left the keyframe where it was |
| `BaselineDrift.BaselineCanMiss` | src/vo.cpp:684-690 | runs for the five ways to miss a correction: anchor moved too, lagging snapshot, later local BA, earlier local BA, and a last frame that became the reference keyframe |
| `BaselineDrift.RetakenSnapshotHidesAnchor` | src/vo.cpp:1860-1879 | a sixth run: the snapshot retaken at a refused insertion hides an anchor move from the syncs |
| `BaselineDrift.RecordedMotion` | src/vo.cpp:758-823 | the recorded motion leads from the baseline, moved by the tail syncs, to the frame, moved with its record's anchor |
| `BaselineDrift.CorrectionIsNotMotion` | src/vo.cpp:758-844 | a correction inside an ordinary frame is not recorded as motion exactly in these cases: refinement or no reference; baseline in the snapshot's geometry and anchor unmoved; baseline lagging and reference unmoved |
| `BaselineDrift.CorrectedKeyFrame` | src/vo.cpp:758-844 | for a frame that became a keyframe, exactly if baseline and keyframe are moved alike |
| `BaselineDrift.RefusedKeyFrame` | src/vo.cpp:1860-1879 | after a refused insertion the motion is right exactly if the retaken anchor and the tail syncs move the baseline as the frame was moved |
| `BaselineDrift.RefusedThenQuiet` | src/vo.cpp:1860-1879 | with nothing more until the frame's end: exactly if the anchor stayed, after a local BA, or the reference kept its world pose, after anything else |
| `BaselineDrift.CorrectionCanBeMotion` | src/vo.cpp:758-844 | runs for the three ways a correction becomes motion |

## Left out

- Floating point: all arithmetic is exact. Thresholds that stand for "unchanged" (1e-12, 1e-6, 1e-8) are equality up to
  the sign of the quaternion, or plain equality where the compared values come from one source; two anchors that differ
  only in quaternion sign count as a move in `CrossSubmap.CloseLoop`.
- Loop residual angles: the gate compares the squared translation norm and a bound on |w| of the residual quaternion.
- Numerics of ORB, LK, PnP, triangulation, LM and covariance: their results are parameters.
- Rebasing.AlphaShape: frame ids below 2^64, since the subtraction in the source is unsigned and wraps.
- How compact binary signatures are made and compared (`BoundedQueries.QueryCompact` takes any similarity), and the
  descent of descriptors through the vocabulary tree: only the key set of the signatures is modelled, and a frame's
  features arrive as weighted words.
- PlaceCandidates.PositionPriors: distances and the limit are compared squared.
- Sorting.SortBy: std::sort leaves the order of equal elements open; the model uses one such order and promises nothing about it.
- ReclaimAtlas.ReclaimAll: every inactive submap comes with its map, as the one caller passes them; the fallback for a
  submap without a map, which would touch the active one, is not modelled.
- Rebuilding `odometry_edges_` after a compaction (`src/vo.cpp:2940-2949`); redundant culling does not rebuild them.
- Relocalization commits, including their cross-submap variant, which does not re-check loop edges (`src/vo.cpp:1750`).
- The gate that refuses a second loop in the same region, cooldowns, and the global BA pass of a loop.
- FrontendSync.Frontend.EndFrame: a record's submap is always in the Atlas, so the default pose for a missing submap is not
  modelled; the identity poses of a first frame and of a self-anchored record are written as T T^-1, which they equal.
- CommitProtocol.NextSound: threads are steps of an interleaving; each critical section is one step, which the map lock
  guarantees.
- BackendScheduler.EveryRunIsSound: task ages are arbitrary, and a handler that throws counts as executed, as in the source.
- NewPoints.TriangulateNewPoints: whether the parallax suffices and where the point lies is a parameter per match; ids come from a
  counter passed in, and the stereo variant is called with as many slots as keypoints.
- Selecting the window of a local BA by covisibility; the snapshot starts from the window's frames, with different ids.
  Pixels and camera points of an observation are not modelled, those without a finite pixel are a set in `GaugeFixing`.
- BaselineDrift.BaselineFollowsAtStart: across a submap switch the two anchors are not compared, since neither sync acts.
- The ordered list of covisible keyframes (`src/map.cpp:357-372`) and the tracking-hit statistics beyond their use in reclaim.
- Localizer, bounded queue, pose gate, quality classification, keyframe proposal, viewer, datasets, configuration,
  metrics, vocabulary files: input, output or single branches.
- Other DBoW3 scorings and the direct file: not used by the retrieval that is modelled.
