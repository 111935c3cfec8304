/**
 * The one-slot priority scheduler, its counters under any interleaving, and the cleanup list it may delay but not lose.
 */
module BackendScheduler {
  import opened MapEntities

  datatype Kind = LocalBA | LoopMaintenance | LoopClosure

  datatype Task = Task(kind: Kind, id: nat)

  function Rank(k: Kind): nat {
    match k
    case LocalBA => 0
    case LoopMaintenance => 1
    case LoopClosure => 2
  }

  datatype State = State(slot: Option<Task>, stopped: bool, submitted: nat, executed: nat, dropped: nat, expired: nat)

  function SlotRank(s: State): int {
    match s.slot
    case Some(t) => Rank(t.kind)
    case None => -1
  }

  function Pending(slot: Option<Task>): nat {
    if slot.Some? then 1 else 0
  }

  /** The critical section of submit: the new slot, and whether the task was taken. */
  function Enqueued(s: State, t: Task): (State, bool) {
    if s.stopped then (s, false)
    else if t.kind == LoopClosure || s.slot.None? || s.slot.value.kind == LocalBA then
      (s.(slot := Some(t), dropped := s.dropped + Pending(s.slot)), true)
    else (s, false)
  }

  /**
   * A task gets the slot exactly if nothing of higher rank waits, an equal maintenance task excepted; the waiting rank
   * never falls.
   */
  lemma {:induction false} EnqueueRespectsRank(s: State, t: Task)
    ensures var (n, accepted) := Enqueued(s, t);
            && (accepted <==>
                  !s.stopped && SlotRank(s) <= Rank(t.kind) && !(t.kind == LoopMaintenance && SlotRank(s) == 1))
            && SlotRank(n) >= SlotRank(s)
            && (accepted ==> n.slot == Some(t)) && (!accepted ==> n == s)
            && n.dropped + Pending(n.slot) == s.dropped + Pending(s.slot) + if accepted then 1 else 0
  {
  }

  class Scheduler {
    var slot: Option<Task>
    var stopped: bool
    var submitted: nat
    var executed: nat
    var dropped: nat
    var expired: nat

    function View(): State
      reads this
    {
      State(slot, stopped, submitted, executed, dropped, expired)
    }

    constructor ()
      ensures View() == State(None, false, 0, 0, 0, 0)
    {
      slot, stopped := None, false;
      submitted, executed, dropped, expired := 0, 0, 0, 0;
    }

    /** submit, up to the release of the lock. */
    method Enqueue(t: Task) returns (accepted: bool)
      modifies this`slot, this`dropped
      ensures (View(), accepted) == Enqueued(old(View()), t)
    {
      if stopped {
        return false;
      }
      if t.kind == LoopClosure {
        if slot.Some? {
          dropped := dropped + 1;
        }
        slot := Some(t);
      } else if t.kind == LoopMaintenance {
        if slot.None? || slot.value.kind == LocalBA {
          if slot.Some? {
            dropped := dropped + 1;
          }
          slot := Some(t);
        } else {
          return false;
        }
      } else {
        if slot.None? || slot.value.kind == LocalBA {
          if slot.Some? {
            dropped := dropped + 1;
          }
          slot := Some(t);
        } else {
          return false;
        }
      }
      return true;
    }

    /** The whole call when nothing interleaves: every task ends up waiting or dropped. */
    method Submit(t: Task)
      modifies this
      ensures slot == Enqueued(old(View()), t).0.slot && stopped == old(stopped)
      ensures submitted == old(submitted) + 1 && executed == old(executed) && expired == old(expired)
      ensures submitted - dropped - Pending(slot) == old(submitted - dropped - Pending(slot))
    {
      var accepted := Enqueue(t);
      submitted := submitted + 1;
      if !accepted {
        dropped := dropped + 1;
      }
    }

    method Stop()
      modifies this`stopped
      ensures stopped
    {
      stopped := true;
    }

    /** One turn of the worker: take the waiting task, or report that there is nothing left to do. */
    method Take() returns (task: Option<Task>, exit: bool)
      modifies this`slot
      ensures task == old(slot) && slot == None
      ensures exit <==> stopped && old(slot) == None
    {
      task, exit := slot, stopped && slot.None?;
      slot := None;
    }

    /** Settle the task in hand: too old tasks are dropped, the others handed to the handler. */
    method Settle(maxAge: real, age: real) returns (run: bool)
      modifies this`executed, this`dropped, this`expired
      ensures run <==> !(maxAge > 0.0 && age > maxAge)
      ensures executed == old(executed) + (if run then 1 else 0)
      ensures dropped == old(dropped) + (if run then 0 else 1) && expired == old(expired) + (if run then 0 else 1)
    {
      if maxAge > 0.0 && age > maxAge {
        expired := expired + 1;
        dropped := dropped + 1;
        return false;
      }
      executed := executed + 1;
      return true;
    }
  }

  // ---- interleavings ----------------------------------------------------------------

  /** A submit call that left the critical section and still has counters to bump. */
  datatype Call = Call(accepted: bool, counted: bool)

  /** The worker between taking a task and settling it; a second counter may be due. */
  datatype Hand = Empty | Holding(task: Task) | Dropping(task: Task)

  datatype System = System(s: State, calls: map<nat, Call>, hand: Hand, exited: bool, front: Front)

  /** Keyframes of the front end, the retrieval index, and the cleanup ids on their way to it. */
  datatype Front = Front(culled: set<nat>, used: set<nat>, arriving: Option<nat>,
                         index: set<nat>, pending: set<nat>, draining: set<nat>)

  datatype Step =
    | Decide(call: nat, task: Task)
    | CountSubmitted(call: nat)
    | CountDropped(call: nat)
    | RequestStop
    | TakeTask
    | Expire
    | FinishDrop
    | Execute
    | Exit
    | InsertAndCull(id: nat, ids: set<nat>)
    | IndexArrival
    | SwapCleanup
    | RemoveFromIndex
    | Evict(id: nat)

  predicate Enabled(y: System, step: Step) {
    match step
    case Decide(call, _) => call !in y.calls
    case CountSubmitted(call) => call in y.calls && !y.calls[call].counted
    case CountDropped(call) => call in y.calls && y.calls[call].counted
    case RequestStop => true
    case TakeTask => y.hand == Empty && !y.exited && y.s.slot.Some?
    case Expire => y.hand.Holding?
    case FinishDrop => y.hand.Dropping?
    case Execute => y.hand.Holding?
    case Exit => y.hand == Empty && !y.exited && y.s.stopped && y.s.slot.None?
    // the new keyframe is protected, and the one before it has reached the index
    case InsertAndCull(id, ids) => y.front.arriving.None? && id !in y.front.used && ids <= y.front.used
    case IndexArrival => y.front.arriving.Some?
    case SwapCleanup => y.front.draining == {}
    case RemoveFromIndex => true
    case Evict(_) => true
  }

  /** A counted rejected call still owes a drop; a counted accepted one is over. */
  function Counted(calls: map<nat, Call>, call: nat): map<nat, Call>
    requires call in calls
  {
    if calls[call].accepted then calls - {call} else calls[call := Call(false, true)]
  }

  function Next(y: System, step: Step): System
    requires Enabled(y, step)
  {
    match step
    case Decide(call, task) =>
      var (n, accepted) := Enqueued(y.s, task);
      y.(s := n, calls := y.calls[call := Call(accepted, false)])
    case CountSubmitted(call) =>
      y.(s := y.s.(submitted := y.s.submitted + 1), calls := Counted(y.calls, call))
    case CountDropped(call) =>
      y.(s := y.s.(dropped := y.s.dropped + 1), calls := y.calls - {call})
    case RequestStop => y.(s := y.s.(stopped := true))
    case TakeTask => y.(s := y.s.(slot := None), hand := Holding(y.s.slot.value))
    case Expire => y.(s := y.s.(expired := y.s.expired + 1), hand := Dropping(y.hand.task))
    case FinishDrop => y.(s := y.s.(dropped := y.s.dropped + 1), hand := Empty)
    case Execute => y.(s := y.s.(executed := y.s.executed + 1), hand := Empty)
    case Exit => y.(exited := true)
    case InsertAndCull(id, ids) =>
      y.(front := y.front.(used := y.front.used + {id}, arriving := Some(id),
                           culled := y.front.culled + ids, pending := y.front.pending + ids))
    case IndexArrival => y.(front := y.front.(index := y.front.index + {y.front.arriving.value}, arriving := None))
    case SwapCleanup => y.(front := y.front.(draining := y.front.pending, pending := {}))
    case RemoveFromIndex => y.(front := y.front.(index := y.front.index - y.front.draining, draining := {}))
    case Evict(id) => y.(front := y.front.(index := y.front.index - {id}))
  }

  // ---- conservation ------------------------------------------------------------------

  function Uncounted(calls: map<nat, Call>): set<nat> {
    set c | c in calls && !calls[c].counted
  }

  /** Rejected calls whose drop is not counted yet. */
  function Owing(calls: map<nat, Call>): set<nat> {
    set c | c in calls && !calls[c].accepted
  }

  function InHand(hand: Hand): nat {
    if hand == Empty then 0 else 1
  }

  /** Every task ever offered is executed, dropped, waiting, in hand, or about to be counted as dropped. */
  predicate Conserved(y: System) {
    y.s.submitted + |Uncounted(y.calls)|
      == y.s.executed + y.s.dropped + Pending(y.s.slot) + InHand(y.hand) + |Owing(y.calls)|
  }

  /** Every expired task is counted as dropped too, or about to be. */
  predicate ExpiredAreDropped(y: System) {
    y.s.expired <= y.s.dropped + if y.hand.Dropping? then 1 else 0
  }

  /** Counted calls still present are rejected ones. */
  predicate CallsSound(calls: map<nat, Call>) {
    forall c :: c in calls && calls[c].counted ==> !calls[c].accepted
  }

  /** Whatever was culled and is still indexed is listed for cleanup, or is being cleaned up. */
  predicate CleanupComplete(f: Front) {
    && (forall id :: id in f.culled && id in f.index ==> id in f.pending || id in f.draining)
    && f.culled <= f.used && (f.arriving.Some? ==> f.arriving.value in f.used && f.arriving.value !in f.culled)
  }

  predicate Sound(y: System) {
    && Conserved(y) && ExpiredAreDropped(y) && CallsSound(y.calls) && CleanupComplete(y.front)
    && (y.exited ==> y.s.stopped && y.s.slot.None? && y.hand == Empty)
  }

  lemma {:induction false} DecideConserves(y: System, call: nat, task: Task)
    requires Conserved(y) && call !in y.calls
    ensures Conserved(Next(y, Decide(call, task)))
  {
    var next := Next(y, Decide(call, task));
    EnqueueRespectsRank(y.s, task);
    assert Uncounted(next.calls) == Uncounted(y.calls) + {call};
    if Enqueued(y.s, task).1 {
      assert Owing(next.calls) == Owing(y.calls);
    } else {
      assert Owing(next.calls) == Owing(y.calls) + {call};
    }
  }

  lemma {:induction false} CountConserves(y: System, call: nat)
    requires Conserved(y) && call in y.calls && !y.calls[call].counted
    ensures Conserved(Next(y, CountSubmitted(call)))
  {
    hide Counted, Uncounted, Owing;
    CountedSets(y.calls, call);
  }

  lemma CountedSets(calls: map<nat, Call>, call: nat)
    requires call in calls && !calls[call].counted
    ensures |Uncounted(calls)| == |Uncounted(Counted(calls, call))| + 1
    ensures Owing(Counted(calls, call)) == Owing(calls)
  {
    var next := Counted(calls, call);
    if calls[call].accepted {
      assert Uncounted(calls) == Uncounted(next) + {call};
    } else {
      assert Uncounted(calls) == Uncounted(next) + {call};
    }
  }

  lemma {:induction false} DropConserves(y: System, call: nat)
    requires Conserved(y) && CallsSound(y.calls) && call in y.calls && y.calls[call].counted
    ensures Conserved(Next(y, CountDropped(call)))
  {
    var next := Next(y, CountDropped(call));
    assert Uncounted(next.calls) == Uncounted(y.calls);
    assert Owing(y.calls) == Owing(next.calls) + {call};
  }

  lemma {:induction false} NextSound(y: System, step: Step)
    requires Sound(y) && Enabled(y, step)
    ensures Sound(Next(y, step))
  {
    hide Uncounted, Owing;
    match step
    case Decide(call, task) => DecideConserves(y, call, task);
    case CountSubmitted(call) => CountConserves(y, call);
    case CountDropped(call) => DropConserves(y, call);
    case RequestStop =>
    case TakeTask =>
    case Expire =>
    case FinishDrop =>
    case Execute =>
    case Exit =>
    case InsertAndCull(_, _) =>
    case IndexArrival =>
    case SwapCleanup =>
    case RemoveFromIndex =>
    case Evict(_) =>
  }

  const START := System(State(None, false, 0, 0, 0, 0), map[], Empty, false, Front({}, {}, None, {}, {}, {}))

  function Run(y: System, steps: seq<Step>): System
    decreases |steps|
  {
    if steps == [] then y
    else if Enabled(y, steps[0]) then Run(Next(y, steps[0]), steps[1..])
    else Run(y, steps[1..])
  }

  lemma {:induction false} RunSound(y: System, steps: seq<Step>)
    requires Sound(y)
    ensures Sound(Run(y, steps))
    decreases |steps|
  {
    if steps != [] {
      if Enabled(y, steps[0]) {
        NextSound(y, steps[0]);
        RunSound(Next(y, steps[0]), steps[1..]);
      } else {
        RunSound(y, steps[1..]);
      }
    }
  }

  /** On every run the books balance, exit leaves nothing waiting, and no culled keyframe stays indexed unnoticed. */
  lemma {:induction false} EveryRunIsSound(steps: seq<Step>)
    ensures Sound(Run(START, steps))
  {
    assert Uncounted(START.calls) == {} && Owing(START.calls) == {};
    RunSound(START, steps);
  }

  /** When all calls have returned and the worker holds nothing, submitted = executed + dropped + waiting. */
  lemma {:induction false} QuietBooks(steps: seq<Step>)
    ensures var y := Run(START, steps);
            y.calls == map[] && y.hand == Empty ==> y.s.submitted == y.s.executed + y.s.dropped + Pending(y.s.slot)
  {
    EveryRunIsSound(steps);
    assert Uncounted(map[]) == {} && Owing(map[]) == {};
  }

  /** The rank of the waiting task falls only when the worker takes it. */
  lemma {:induction false} WaitingRankNeverFalls(y: System, step: Step)
    requires Enabled(y, step) && step != TakeTask
    ensures SlotRank(Next(y, step).s) >= SlotRank(y.s)
  {
    if step.Decide? {
      EnqueueRespectsRank(y.s, step.task);
    }
  }

  /** Once stop was requested no run puts anything into the slot again. */
  lemma {:induction false} StoppedStaysDrained(y: System, steps: seq<Step>)
    requires y.s.stopped
    ensures Run(y, steps).s.stopped && (y.s.slot.None? ==> Run(y, steps).s.slot.None?)
    decreases |steps|
  {
    if steps != [] {
      if Enabled(y, steps[0]) {
        StoppedStaysDrained(Next(y, steps[0]), steps[1..]);
      } else {
        StoppedStaysDrained(y, steps[1..]);
      }
    }
  }

  predicate IsWorker(step: Step) {
    step.TakeTask? || step.Expire? || step.FinishDrop? || step.Execute? || step.Exit?
  }

  /** Worker steps that can still be needed: settle what is in hand, take and settle what waits, and leave. */
  function Left(y: System): nat {
    if y.exited then 0
    else 1 + 3 * Pending(y.s.slot) + match y.hand { case Empty => 0 case Holding(_) => 2 case Dropping(_) => 1 }
  }

  /** The steps of a run in which the worker moved. */
  function WorkerSteps(y: System, steps: seq<Step>): nat
    decreases |steps|
  {
    if steps == [] then 0
    else if !Enabled(y, steps[0]) then WorkerSteps(y, steps[1..])
    else WorkerSteps(Next(y, steps[0]), steps[1..]) + if IsWorker(steps[0]) then 1 else 0
  }

  /** After a stop request the worker is never stuck before it has left. */
  lemma {:induction false} StoppedWorkerMoves(y: System)
    requires y.s.stopped && !y.exited
    ensures exists step :: IsWorker(step) && Enabled(y, step)
  {
    var step := match y.hand
      case Empty => (if y.s.slot.Some? then TakeTask else Exit)
      case Holding(_) => Execute
      case Dropping(_) => FinishDrop;
    assert IsWorker(step) && Enabled(y, step);
  }

  lemma StopStepDrains(y: System, step: Step)
    requires Sound(y) && y.s.stopped && Enabled(y, step)
    ensures Next(y, step).s.stopped && Left(Next(y, step)) + (if IsWorker(step) then 1 else 0) <= Left(y)
  {
    hide Conserved, CallsSound, CleanupComplete, Counted;
  }

  /**
   * Stop drains: whatever else happens, once the worker has made the steps it was left with, six at most, it has
   * settled the task in hand and the waiting one, nothing waits, and it is gone.
   */
  lemma {:induction false} StopDrains(y: System, steps: seq<Step>)
    requires Sound(y) && y.s.stopped
    ensures Left(y) <= 6 && Left(Run(y, steps)) + WorkerSteps(y, steps) <= Left(y)
    ensures WorkerSteps(y, steps) >= Left(y) ==>
      var end := Run(y, steps); end.exited && end.s.slot.None? && end.hand == Empty
    decreases |steps|
  {
    hide Conserved, CallsSound, CleanupComplete, Enabled, Next, IsWorker;
    if steps != [] {
      if Enabled(y, steps[0]) {
        NextSound(y, steps[0]);
        StopStepDrains(y, steps[0]);
        StopDrains(Next(y, steps[0]), steps[1..]);
      } else {
        StopDrains(y, steps[1..]);
      }
    }
  }

  /** The only ones among gone that are still indexed are being cleaned up, and none of them can come back. */
  predicate Clearing(f: Front, gone: set<nat>, draining: set<nat>) {
    gone * f.index <= draining && gone <= f.used && (f.arriving.Some? ==> f.arriving.value !in gone)
  }

  /** Through any steps this stays so, while the cleanup lasts and for good when none is left. */
  lemma {:induction false} StaysClearing(y: System, steps: seq<Step>, gone: set<nat>)
    ensures Clearing(y.front, gone, y.front.draining) ==>
      Clearing(Run(y, steps).front, gone, Run(y, steps).front.draining)
    ensures Clearing(y.front, gone, {}) ==> Clearing(Run(y, steps).front, gone, {})
    decreases |steps|
  {
    hide Enqueued, Counted;
    if steps != [] {
      if Enabled(y, steps[0]) {
        StaysClearing(Next(y, steps[0]), steps[1..], gone);
      } else {
        StaysClearing(y, steps[1..], gone);
      }
    }
  }

  /**
   * The list is swapped in one critical section and worked off outside it. Whatever happens in between and afterwards,
   * once it is worked off none of the keyframes culled before the swap is ever in the index again.
   */
  lemma {:induction false} DrainCleansAll(y: System, between: seq<Step>, later: seq<Step>)
    requires Sound(y) && Enabled(y, SwapCleanup)
    ensures var done := Next(Run(Next(y, SwapCleanup), between), RemoveFromIndex);
            done.front.index !! y.front.culled && Run(done, later).front.index !! y.front.culled
  {
    hide Run, Conserved, CallsSound;
    var mid := Run(Next(y, SwapCleanup), between);
    StaysClearing(Next(y, SwapCleanup), between, y.front.culled);
    StaysClearing(Next(mid, RemoveFromIndex), later, y.front.culled);
  }
}
