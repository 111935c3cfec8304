/** Any sequence of public map operations, on the map's values. */
module MapTraces {
  import opened MapEntities
  import opened Covisibility
  import opened ObservationModel

  datatype Op =
    | AddPoint(p: MapPoint)
    | RemovePointIds(ids: seq<nat>)
    | AddFrame(k: nat, keypoints: nat, slots: Slots)
    | DropFrame(k: nat)
    | SetAt(k: nat, i: nat, p: MapPoint)
    | ClearAt(k: nat, i: nat)
    | OverwriteAndSync(k: nat, slots: Slots)
    | Reset

  const EMPTY: View := View(map[], map[], map[], map[])

  /** The register loop from slot n on. */
  ghost function RegisterFrom(v: View, k: nat, n: nat): View
    requires Indexed(v) && k in v.slots
    decreases |v.slots[k]| - n
  {
    if n >= |v.slots[k]| then v else
      var w := RegisterSlot(v, k, n);
      RegisterSlotShape(v, k, n);
      RegisterFrom(w, k, n + 1)
  }

  lemma RegisterSlotShape(v: View, k: nat, n: nat)
    requires Indexed(v) && k in v.slots && n < |v.slots[k]|
    ensures var w := RegisterSlot(v, k, n);
            Indexed(w) && k in w.slots && |w.slots[k]| == |v.slots[k]|
  {
  }

  /** One operation; the flag is what the operation returns or whether it took effect. */
  ghost function Apply(v: View, op: Op): (View, bool)
    requires Indexed(v)
  {
    match op
    case AddPoint(p) => if p.id in v.points then (v, false) else (ObservationModel.InsertPoint(v, p), true)
    case RemovePointIds(ids) => (RemovePoints(v, IdSet(ids)), PointsOf(v, IdSet(ids)) != {})
    case AddFrame(k, keypoints, slots) =>
      if k in v.slots then (v, false) else (RegisterFrom(InsertFrame(v, k, keypoints, slots), k, 0), true)
    case DropFrame(k) => if k in v.slots then (RemoveFrame(v, k), true) else (v, false)
    case SetAt(k, i, p) => SetSlot(v, k, i, p)
    case ClearAt(k, i) => ClearSlot(v, k, i)
    case OverwriteAndSync(k, slots) =>
      if k !in v.slots || k !in v.keypoints then (v, false)
      else
        var w := v.(slots := v.slots[k := slots]);
        var obs := PrunedObs(w.obs, k, w.keypoints[k], slots, w.obs.Keys);
        (RegisterFrom(w.(obs := obs), k, 0), true)
    case Reset => (EMPTY, true)
  }

  lemma {:induction false} RegisterFromKeeps(v: View, obs0: ObsMap, k: nat, s0: Slots, n: nat)
    requires Registering(v, obs0, k, s0, n)
    ensures k in v.slots && Consistent(RegisterFrom(v, k, n))
    ensures var w := RegisterFrom(v, k, n);
            k in w.slots && k in w.keypoints && FrameRepaired(w.obs, w.slots[k], obs0, k, w.keypoints[k], s0)
    decreases |s0| - n
  {
    hide RegFrame, RegDone, RegTodo, RegObs, RegisterSlot;
    RegisteringShape(v, obs0, k, s0, n);
    if n < |s0| {
      RegisterStep(v, obs0, k, s0, n);
      RegisterFromKeeps(RegisterSlot(v, k, n), obs0, k, s0, n + 1);
    } else {
      RegisterDone(v, obs0, k, s0);
    }
  }

  /** Every operation keeps the invariant, and one that reports no effect changes nothing. */
  lemma {:induction false} ApplyKeepsConsistent(v: View, op: Op)
    requires Consistent(v)
    ensures var (v', changed) := Apply(v, op);
            Consistent(v') && (!changed ==> v' == v)
  {
    hide Registering, RegisterFrom, SetSlot, ClearSlot;
    match op
    case AddPoint(p) =>
      if p.id !in v.points {
        InsertPointConsistent(v, p);
      }
    case RemovePointIds(ids) =>
      RemovePointsConsistent(v, IdSet(ids));
      if PointsOf(v, IdSet(ids)) == {} {
        RemoveNoPoint(v, IdSet(ids));
      }
    case AddFrame(k, keypoints, slots) =>
      if k !in v.slots {
        InsertFrameStart(v, k, keypoints, slots);
        RegisterFromKeeps(InsertFrame(v, k, keypoints, slots), v.obs, k, slots, 0);
      }
    case DropFrame(k) =>
      if k in v.slots {
        FrameFacts(v, k);
        RemoveFrameConsistent(v, k);
      }
    case SetAt(k, i, p) =>
      SetSlotOnConsistent(v, k, i, p);
    case ClearAt(k, i) =>
      ClearSlotOnConsistent(v, k, i);
    case OverwriteAndSync(k, slots) =>
      if k in v.slots && k in v.keypoints {
        var w := v.(slots := v.slots[k := slots]);
        assert w.(slots := w.slots[k := v.slots[k]]) == v by {
          assert v.slots[k := slots][k := v.slots[k]] == v.slots;
        }
        OverwrittenStart(w, k, v.slots[k]);
        var obs := PrunedObs(w.obs, k, w.keypoints[k], slots, w.obs.Keys);
        RegisterFromKeeps(w.(obs := obs), w.obs, k, slots, 0);
      }
    case Reset =>
      assert Consistent(EMPTY);
  }

  lemma RemoveNoPoint(v: View, ids: set<nat>)
    requires PointsOf(v, ids) == {}
    ensures RemovePoints(v, ids) == v
  {
    assert forall id :: id in v.points && id in ids ==> v.points[id] in PointsOf(v, ids);
    assert forall k :: k in v.slots ==> DropPoints(v.slots[k], {}) == v.slots[k];
  }

  // ---- the covisibility table beside it -------------------------------------------------

  ghost function TableAdd(cov: CovTable, k: nat, others: set<nat>): CovTable {
    if others == {} then cov
    else
      var x :| x in others;
      Incremented(TableAdd(cov, k, others - {x}), MinMax(x, k))
  }

  ghost function TableRemove(cov: CovTable, k: nat, others: set<nat>): CovTable {
    if others == {} then cov
    else
      var x :| x in others;
      var c := TableRemove(cov, k, others - {x});
      if MinMax(x, k) in c then Decremented(c, MinMax(x, k)) else c
  }

  lemma {:induction false} TableAddBumps(cov: CovTable, k: nat, others: set<nat>)
    requires Ordered(cov) && k !in others
    ensures Ordered(TableAdd(cov, k, others)) && Bumped(cov, TableAdd(cov, k, others), k, others)
  {
    hide Ordered, Bumped, Incremented;
    if others == {} {
      NotBumped(cov, k);
    } else {
      var x :| x in others && TableAdd(cov, k, others) == Incremented(TableAdd(cov, k, others - {x}), MinMax(x, k));
      TableAddBumps(cov, k, others - {x});
      BumpOneMore(cov, TableAdd(cov, k, others - {x}), k, others - {x}, x);
      assert others - {x} + {x} == others;
    }
  }

  lemma {:induction false} TableRemoveBumps(cov: CovTable, k: nat, others: set<nat>)
    requires Ordered(cov) && k !in others && forall x :: x in others ==> MinMax(x, k) in cov
    ensures Ordered(TableRemove(cov, k, others)) && Bumped(TableRemove(cov, k, others), cov, k, others)
  {
    hide Ordered, Bumped, Decremented;
    if others == {} {
      NotBumped(cov, k);
    } else {
      var x :| x in others && TableRemove(cov, k, others) ==
        var c := TableRemove(cov, k, others - {x}); if MinMax(x, k) in c then Decremented(c, MinMax(x, k)) else c;
      var c := TableRemove(cov, k, others - {x});
      TableRemoveBumps(cov, k, others - {x});
      StillCounted(c, cov, k, others - {x}, x);
      UnbumpOneMore(cov, c, k, others - {x}, x);
      assert others - {x} + {x} == others;
    }
  }

  lemma NotBumped(cov: CovTable, k: nat)
    ensures Bumped(cov, cov, k, {})
  {
  }

  lemma StillCounted(c: CovTable, cov: CovTable, k: nat, done: set<nat>, x: nat)
    requires Ordered(cov) && Bumped(c, cov, k, done) && x !in done && x != k && MinMax(x, k) in cov
    ensures MinMax(x, k) in c
  {
    var key := MinMax(x, k);
    assert key == (key.0, key.1) && Count(cov, key.0, key.1) > 0;
    assert !Touches(k, done, key.0, key.1);
  }

  /** Reverse observations and the table that is kept beside them. */
  datatype Book = Book(obs: ObsMap, cov: CovTable)

  ghost predicate Exact(b: Book) {
    IsCov(b.obs, b.cov)
  }

  ghost function Observed(b: Book, p: MapPoint, k: nat, i: nat): Book
    requires p in b.obs
  {
    if k in b.obs[p] then b else Book(With(b.obs, p, k, i), TableAdd(b.cov, k, b.obs[p].Keys))
  }

  ghost function Forgotten(b: Book, p: MapPoint, k: nat): Book
    requires p in b.obs
  {
    if k !in b.obs[p] then b else Book(Without(b.obs, p, k), TableRemove(b.cov, k, b.obs[p].Keys - {k}))
  }

  lemma ObservedIsExact(b: Book, p: MapPoint, k: nat, i: nat)
    requires Exact(b) && p in b.obs
    ensures Exact(Observed(b, p, k, i)) && Observed(b, p, k, i).obs.Keys == b.obs.Keys
  {
    hide IsCov, TableAdd, Bumped, Ordered;
    if k !in b.obs[p] {
      ExactIsOrdered(b);
      TableAddBumps(b.cov, k, b.obs[p].Keys);
      CovAfterAdd(b.obs, p, k, i, b.cov, TableAdd(b.cov, k, b.obs[p].Keys));
    }
  }

  lemma ForgottenIsExact(b: Book, p: MapPoint, k: nat)
    requires Exact(b) && p in b.obs
    ensures Exact(Forgotten(b, p, k)) && Forgotten(b, p, k).obs == Without(b.obs, p, k)
  {
    hide IsCov, TableRemove, Bumped, Ordered;
    if k in b.obs[p] {
      ExactIsOrdered(b);
      SharedIsPositive(b.obs, p, k, b.cov);
      TableRemoveBumps(b.cov, k, b.obs[p].Keys - {k});
      CovAfterRemove(b.obs, p, k, b.cov, TableRemove(b.cov, k, b.obs[p].Keys - {k}));
    } else {
      assert b.obs[p] - {k} == b.obs[p];
    }
  }

  lemma ExactIsOrdered(b: Book)
    requires Exact(b)
    ensures Ordered(b.cov)
  {
  }

  /** The withdrawals of one operation, in any order. */
  ghost function ForgetAll(b: Book, gone: set<(MapPoint, nat)>): Book
    requires forall g :: g in gone ==> g.0 in b.obs
    ensures ForgetAll(b, gone).obs.Keys == b.obs.Keys
  {
    if gone == {} then b
    else
      var g :| g in gone;
      Forgotten(ForgetAll(b, gone - {g}), g.0, g.1)
  }

  /** after is before without the observations in gone. */
  ghost predicate Left(before: ObsMap, gone: set<(MapPoint, nat)>, after: ObsMap) {
    && after.Keys == before.Keys
    && forall p, k {:trigger k in after[p]} :: p in before ==>
         (k in after[p] <==> k in before[p] && (p, k) !in gone) && (k in after[p] ==> after[p][k] == before[p][k])
  }

  lemma LeftOneMore(before: ObsMap, gone: set<(MapPoint, nat)>, after: ObsMap, g: (MapPoint, nat))
    requires g in gone && g.0 in before && Left(before, gone - {g}, after)
    ensures Left(before, gone, Without(after, g.0, g.1))
  {
    var next := Without(after, g.0, g.1);
    forall p, k {:trigger k in next[p]} | p in before
      ensures (k in next[p] <==> k in before[p] && (p, k) !in gone) && (k in next[p] ==> next[p][k] == before[p][k])
    {
      assert k in after[p] <==> k in before[p] && (p, k) !in gone - {g};
      assert g == (g.0, g.1);
    }
  }

  lemma {:induction false} ForgetAllIsExact(b: Book, gone: set<(MapPoint, nat)>)
    requires Exact(b) && forall g :: g in gone ==> g.0 in b.obs
    ensures Exact(ForgetAll(b, gone)) && Left(b.obs, gone, ForgetAll(b, gone).obs)
  {
    hide Exact, Forgotten, Left, Without;
    if gone == {} {
      LeftNone(b.obs);
    } else {
      var g :| g in gone && ForgetAll(b, gone) == Forgotten(ForgetAll(b, gone - {g}), g.0, g.1);
      ForgetAllIsExact(b, gone - {g});
      ForgottenIsExact(ForgetAll(b, gone - {g}), g.0, g.1);
      LeftOneMore(b.obs, gone, ForgetAll(b, gone - {g}).obs, g);
    }
  }

  lemma LeftNone(obs: ObsMap)
    ensures Left(obs, {}, obs)
  {
  }

  lemma ForgetAllObs(b: Book, gone: set<(MapPoint, nat)>, obs: ObsMap)
    requires Exact(b) && (forall g :: g in gone ==> g.0 in b.obs) && Left(b.obs, gone, obs)
    ensures Exact(ForgetAll(b, gone)) && ForgetAll(b, gone).obs == obs
  {
    hide Exact, ForgetAll;
    ForgetAllIsExact(b, gone);
    var r := ForgetAll(b, gone);
    forall p | p in obs
      ensures r.obs[p] == obs[p]
    {
      assert forall k :: k in r.obs[p] <==> k in obs[p];
    }
  }

  ghost function SetBook(v: View, cov: CovTable, k: nat, i: nat, p: MapPoint): Book
    requires Indexed(v)
  {
    var b := Book(v.obs, cov);
    if !(k in v.slots && i < v.keypoints[k] && i < |v.slots[k]| && p in v.obs) then b
    else
      var previous := v.slots[k][i];
      if previous == p || k in v.obs[p] || previous == null || previous !in v.obs then Observed(b, p, k, i)
      else Forgotten(Observed(b, p, k, i), previous, k)
  }

  /** A slot of a registered keyframe that names its point where another one is formal, or where it is. */
  lemma SetBookIsExact(v: View, cov: CovTable, k: nat, i: nat, p: MapPoint)
    requires Indexed(v) && IsCov(v.obs, cov)
    ensures SetBook(v, cov, k, i, p).obs == SetSlot(v, k, i, p).0.obs && Exact(SetBook(v, cov, k, i, p))
  {
    hide IsCov, TableAdd, TableRemove, KeepOnly;
    if k in v.slots && i < v.keypoints[k] && i < |v.slots[k]| && p in v.obs {
      var b, previous := Book(v.obs, cov), v.slots[k][i];
      ObservedIsExact(b, p, k, i);
      if k in v.obs[p] {
        assert v.obs[p][k := v.obs[p][k]] == v.obs[p];
      } else if previous != p && previous != null && previous in v.obs {
        ForgottenIsExact(Observed(b, p, k, i), previous, k);
      }
    }
  }

  ghost function RegisterTable(v: View, cov: CovTable, k: nat, n: nat): CovTable
    requires Indexed(v) && k in v.slots
    decreases |v.slots[k]| - n
  {
    if n >= |v.slots[k]| then cov
    else
      var p := v.slots[k][n];
      RegisterSlotShape(v, k, n);
      RegisterTable(RegisterSlot(v, k, n), if p == null then cov else SetBook(v, cov, k, n, p).cov, k, n + 1)
  }

  lemma {:induction false} RegisterTableIsExact(v: View, cov: CovTable, k: nat, n: nat)
    requires Indexed(v) && k in v.slots && IsCov(v.obs, cov)
    ensures IsCov(RegisterFrom(v, k, n).obs, RegisterTable(v, cov, k, n))
    decreases |v.slots[k]| - n
  {
    hide IsCov, SetBook, SetSlot, Indexed;
    if n < |v.slots[k]| {
      var p := v.slots[k][n];
      RegisterSlotShape(v, k, n);
      var next := if p == null then cov else SetBook(v, cov, k, n, p).cov;
      assert IsCov(RegisterSlot(v, k, n).obs, next) by {
        RegisterSlotTable(v, cov, k, n);
      }
      RegisterTableIsExact(RegisterSlot(v, k, n), next, k, n + 1);
    }
  }

  lemma RegisterSlotTable(v: View, cov: CovTable, k: nat, n: nat)
    requires Indexed(v) && k in v.slots && n < |v.slots[k]| && IsCov(v.obs, cov)
    ensures var p := v.slots[k][n];
            IsCov(RegisterSlot(v, k, n).obs, if p == null then cov else SetBook(v, cov, k, n, p).cov)
  {
    hide IsCov, SetSlot;
    var p := v.slots[k][n];
    if p != null {
      SetBookIsExact(v, cov, k, n, p);
    }
  }

  /** The observations an operation withdraws before anything else. */
  ghost function Withdrawn(v: View, op: Op): set<(MapPoint, nat)> {
    match op
    case RemovePointIds(ids) => set p, x | p in PointsOf(v, IdSet(ids)) && p in v.obs && x in v.obs[p] :: (p, x)
    case DropFrame(k) => set p | p in v.obs && k in v.obs[p] :: (p, k)
    case ClearAt(k, i) =>
      if ClearSlot(v, k, i).1 then {(v.slots[k][i], k)} else {}
    case OverwriteAndSync(k, slots) =>
      if k !in v.slots || k !in v.keypoints then {}
      else set p | p in v.obs && k in v.obs[p] && !StillFormal(v.obs, k, v.keypoints[k], slots, p) :: (p, k)
    case _ => {}
  }

  lemma WithdrawnAreObserved(v: View, op: Op)
    ensures forall g :: g in Withdrawn(v, op) ==> g.0 in v.obs
  {
  }

  /** The table after an operation, counted up and down observation by observation. */
  ghost function ApplyTable(v: View, cov: CovTable, op: Op): CovTable
    requires Indexed(v)
  {
    WithdrawnAreObserved(v, op);
    var left := ForgetAll(Book(v.obs, cov), Withdrawn(v, op));
    match op
    case AddFrame(k, keypoints, slots) =>
      if k in v.slots then cov else RegisterTable(InsertFrame(v, k, keypoints, slots), cov, k, 0)
    case SetAt(k, i, p) => SetBook(v, cov, k, i, p).cov
    case OverwriteAndSync(k, slots) =>
      if k !in v.slots || k !in v.keypoints then cov
      else
        var obs := PrunedObs(v.obs, k, v.keypoints[k], slots, v.obs.Keys);
        RegisterTable(v.(slots := v.slots[k := slots], obs := obs), left.cov, k, 0)
    case Reset => map[]
    case _ => left.cov
  }

  /** Every operation keeps the table equal to a recount. */
  lemma {:induction false} ApplyKeepsTable(v: View, cov: CovTable, op: Op)
    requires Consistent(v) && IsCov(v.obs, cov)
    ensures IsCov(Apply(v, op).0.obs, ApplyTable(v, cov, op))
  {
    hide IsCov, SetSlot, RegisterTable, RegisterFrom, SetBook, ForgetAll, Backed, FrameFormal, PrunedObs, Withdrawn;
    var b, gone := Book(v.obs, cov), Withdrawn(v, op);
    WithdrawnAreObserved(v, op);
    match op
    case AddPoint(p) =>
      BareAdd(v, p);
      NothingWithdrawn(b);
      if p.id !in v.points {
        CovWithBarePoint(v.obs, p, cov);
      }
    case RemovePointIds(ids) =>
      RemovalTable(v, b, ids);
    case AddFrame(k, keypoints, slots) =>
      if k !in v.slots {
        RegisterTableIsExact(InsertFrame(v, k, keypoints, slots), cov, k, 0);
      }
    case DropFrame(k) =>
      DropTable(v, b, k);
    case SetAt(k, i, p) =>
      SetBookIsExact(v, cov, k, i, p);
    case ClearAt(k, i) =>
      ClearTable(v, b, k, i);
    case OverwriteAndSync(k, slots) =>
      if k in v.slots && k in v.keypoints {
        SyncTable(v, b, k, slots);
        var obs := PrunedObs(v.obs, k, v.keypoints[k], slots, v.obs.Keys);
        RegisterTableIsExact(v.(slots := v.slots[k := slots], obs := obs), ForgetAll(b, gone).cov, k, 0);
      }
    case Reset =>
      EmptyTable();
  }

  lemma EmptyTable()
    ensures IsCov(EMPTY.obs, map[])
  {
    forall a: nat, b: nat
      ensures Shared(map[], a, b) == {}
    {
    }
  }

  lemma BareAdd(v: View, p: MapPoint)
    requires Indexed(v)
    ensures Withdrawn(v, AddPoint(p)) == {} && (p.id !in v.points ==> p !in v.obs)
  {
  }

  lemma NothingWithdrawn(b: Book)
    ensures ForgetAll(b, {}) == b
  {
  }

  lemma DropTable(v: View, b: Book, k: nat)
    requires Consistent(v) && b.obs == v.obs && IsCov(v.obs, b.cov)
    requires forall g :: g in Withdrawn(v, DropFrame(k)) ==> g.0 in b.obs
    ensures IsCov(Apply(v, DropFrame(k)).0.obs, ForgetAll(b, Withdrawn(v, DropFrame(k))).cov)
  {
    hide IsCov, ForgetAll, FrameFormal;
    if k in v.slots {
      ForgetAllObs(b, Withdrawn(v, DropFrame(k)), RemoveFrame(v, k).obs);
    } else {
      assert Withdrawn(v, DropFrame(k)) == {};
      NothingWithdrawn(b);
    }
  }

  lemma ClearTable(v: View, b: Book, k: nat, i: nat)
    requires Consistent(v) && b.obs == v.obs && IsCov(v.obs, b.cov)
    requires forall g :: g in Withdrawn(v, ClearAt(k, i)) ==> g.0 in b.obs
    ensures IsCov(Apply(v, ClearAt(k, i)).0.obs, ForgetAll(b, Withdrawn(v, ClearAt(k, i))).cov)
  {
    hide IsCov, ForgetAll, FrameFormal, Backed;
    if ClearSlot(v, k, i).1 {
      ForgetAllObs(b, Withdrawn(v, ClearAt(k, i)), ClearSlot(v, k, i).0.obs);
    } else {
      NothingWithdrawn(b);
    }
  }

  lemma SyncTable(v: View, b: Book, k: nat, slots: Slots)
    requires Consistent(v) && b.obs == v.obs && IsCov(v.obs, b.cov) && k in v.slots && k in v.keypoints
    requires forall g :: g in Withdrawn(v, OverwriteAndSync(k, slots)) ==> g.0 in b.obs
    ensures var obs := PrunedObs(v.obs, k, v.keypoints[k], slots, v.obs.Keys);
            IsCov(obs, ForgetAll(b, Withdrawn(v, OverwriteAndSync(k, slots))).cov) && obs.Keys == v.obs.Keys
  {
    hide IsCov, ForgetAll, FrameFormal, Backed, StillFormal;
    ForgetAllObs(b, Withdrawn(v, OverwriteAndSync(k, slots)), PrunedObs(v.obs, k, v.keypoints[k], slots, v.obs.Keys));
  }

  lemma RemovalTable(v: View, b: Book, ids: seq<nat>)
    requires Consistent(v) && b.obs == v.obs && IsCov(v.obs, b.cov)
    requires forall g :: g in Withdrawn(v, RemovePointIds(ids)) ==> g.0 in b.obs
    ensures IsCov(RemovePoints(v, IdSet(ids)).obs, ForgetAll(b, Withdrawn(v, RemovePointIds(ids))).cov)
  {
    hide IsCov, ForgetAll, Backed, FrameFormal;
    var gone, points := Withdrawn(v, RemovePointIds(ids)), PointsOf(v, IdSet(ids));
    var bare := map p | p in v.obs :: if p in points then map[] else v.obs[p];
    ForgetAllObs(b, gone, bare);
    CovIgnoresBarePoints(bare, points, ForgetAll(b, gone).cov);
    assert bare - points == v.obs - points;
  }

  datatype MapState = MapState(v: View, cov: CovTable)

  ghost predicate Sound(s: MapState) {
    Consistent(s.v) && IsCov(s.v.obs, s.cov)
  }

  ghost function Run(s: MapState, ops: seq<Op>): (r: MapState)
    requires Sound(s)
    ensures Sound(r)
    decreases |ops|
  {
    if ops == [] then s else
      ApplyKeepsConsistent(s.v, ops[0]);
      ApplyKeepsTable(s.v, s.cov, ops[0]);
      Run(MapState(Apply(s.v, ops[0]).0, ApplyTable(s.v, s.cov, ops[0])), ops[1..])
  }

  lemma EmptyIsSound()
    ensures Sound(MapState(EMPTY, map[]))
  {
    EmptyTable();
  }

  /**
   * On every run from the empty map: slot i of k holds p iff p is the registered object and carries (k, i), and the
   * incrementally kept table counts the commonly observed points of every pair, without zero entries.
   */
  lemma {:induction false} ReachableMapsAreConsistent(ops: seq<Op>)
    ensures Sound(MapState(EMPTY, map[]))
    ensures var s := Run(MapState(EMPTY, map[]), ops);
            && (forall k, i: nat, p: MapPoint :: k in s.v.slots && i < |s.v.slots[k]| ==>
                 (s.v.slots[k][i] == p <==>
                  p.id in s.v.points && s.v.points[p.id] == p && k in s.v.obs[p] && s.v.obs[p][k] == i))
            && (forall a: nat, b: nat :: a < b ==> Count(s.cov, a, b) == |Shared(s.v.obs, a, b)|)
            && (forall key :: key in s.cov ==> key.0 < key.1 && s.cov[key] > 0)
  {
    EmptyIsSound();
    var s := Run(MapState(EMPTY, map[]), ops);
    forall k, i: nat, p: MapPoint | k in s.v.slots && i < |s.v.slots[k]|
      ensures s.v.slots[k][i] == p <==>
              p.id in s.v.points && s.v.points[p.id] == p && k in s.v.obs[p] && s.v.obs[p][k] == i
    {
      SlotIffObservation(s.v, k, i, p);
    }
  }
}
