/** The tracking state machine: what its streak counters and clocks mean over every input history. */
module TrackingStateMachine {

  datatype Phase = Initializing | Tracking | Degraded | Relocalizing | Lost | Stopped

  datatype Quality = Full | Weak | Failed

  datatype Reason = NoReason | GeometricRejection | RelocalizationTimeout

  datatype Params = Params(initRequired: int, weakToDegraded: int, recoverRequired: int, maxFailures: int,
                           relocMaxFrames: int, relocMaxSeconds: real, predictionTimeout: real)

  datatype Output = Output(phase: Phase, quality: Quality, reason: Reason, sequence: nat, poseValid: bool,
                           prediction: bool)

  datatype Counters = Counters(full: int, weak: int, fail: int, relocFrames: int, relocTime: real, predictionTime: real)

  datatype State = State(phase: Phase, stopped: bool, c: Counters)

  const ZERO := Counters(0, 0, 0, 0, 0.0, 0.0)

  function Positive(dt: real): (r: real)
    ensures 0.0 <= r && dt <= r && (r == 0.0 || r == dt)
  {
    if dt < 0.0 then 0.0 else dt
  }

  class Machine {
    const params: Params
    var phase: Phase
    var stopped: bool
    var c: Counters

    function View(): State
      reads this
    {
      State(phase, stopped, c)
    }

    constructor (params: Params)
      ensures View() == START && this.params == params
    {
      this.params := params;
      phase, stopped, c := Initializing, false, ZERO;
    }

    method AdvanceRelocClock(dt: real) returns (timedOut: bool)
      modifies this`c
      ensures c == old(c).(relocFrames := old(c).relocFrames + 1, relocTime := old(c).relocTime + Positive(dt))
      ensures timedOut <==> c.relocFrames >= params.relocMaxFrames || c.relocTime >= params.relocMaxSeconds
    {
      c := c.(relocFrames := c.relocFrames + 1, relocTime := c.relocTime + Positive(dt));
      timedOut := c.relocFrames >= params.relocMaxFrames || c.relocTime >= params.relocMaxSeconds;
    }

    method ResetCounters()
      modifies this`c
      ensures c == ZERO
    {
      c := ZERO;
    }

    method OnTracking(quality: Quality, dt: real, sequence: nat) returns (out: Output)
      modifies this
      ensures (View(), out) == Next(params, old(View()), Track(quality, dt, sequence))
    {
      if stopped {
        return Output(Stopped, Failed, NoReason, sequence, false, false);
      }
      match phase
      case Initializing =>
        if quality == Full {
          c := c.(full := c.full + 1);
          if c.full >= params.initRequired {
            phase := Tracking;
            ResetCounters();
            return Output(Tracking, Full, NoReason, sequence, true, false);
          }
          return Output(Initializing, Full, NoReason, sequence, false, false);
        }
        c := c.(full := 0);
        out := Output(Initializing, quality, NoReason, sequence, false, false);
      case Tracking =>
        out := ProcessFrame(quality, dt, sequence);
      case Degraded =>
        out := ProcessFrame(quality, dt, sequence);
      case Relocalizing =>
        var timedOut := AdvanceRelocClock(dt);
        if timedOut {
          phase := Lost;
          ResetCounters();
          return Output(Lost, Failed, RelocalizationTimeout, sequence, false, false);
        }
        out := Output(Relocalizing, Failed, NoReason, sequence, false, false);
      case Lost =>
        out := Output(Lost, Failed, NoReason, sequence, false, false);
      case Stopped =>
        out := Output(Stopped, Failed, NoReason, sequence, false, false);
    }

    method ProcessFrame(quality: Quality, dt: real, sequence: nat) returns (out: Output)
      requires phase == Tracking || phase == Degraded
      modifies this`phase, this`c
      ensures (View(), out) == Processed(params, old(View()), quality, dt, sequence)
    {
      var degraded := phase == Degraded;
      if quality == Full {
        c := c.(full := c.full + 1, weak := 0, fail := 0, predictionTime := 0.0);
        if degraded && c.full >= params.recoverRequired {
          phase := Tracking;
          ResetCounters();
          return Output(Tracking, Full, NoReason, sequence, true, false);
        }
        return Output(phase, Full, NoReason, sequence, true, false);
      }
      if quality == Weak {
        c := c.(weak := c.weak + 1, full := 0, fail := 0, predictionTime := 0.0);
        if !degraded && c.weak >= params.weakToDegraded {
          phase := Degraded;
          ResetCounters();
          return Output(Degraded, Weak, NoReason, sequence, true, false);
        }
        return Output(phase, Weak, NoReason, sequence, true, false);
      }
      c := c.(fail := c.fail + 1, full := 0, weak := 0, predictionTime := c.predictionTime + Positive(dt));
      var within := c.predictionTime <= params.predictionTimeout;
      if c.fail >= params.maxFailures {
        phase := Relocalizing;
        ResetCounters();
        return Output(Relocalizing, Failed, GeometricRejection, sequence, within, within);
      }
      return Output(phase, Failed, GeometricRejection, sequence, within, within);
    }

    method OnRelocalization(success: bool, dt: real, sequence: nat) returns (out: Output)
      modifies this
      ensures (View(), out) == Next(params, old(View()), Relocalize(success, dt, sequence))
    {
      if stopped {
        return Output(Stopped, Failed, NoReason, sequence, false, false);
      }
      if phase != Relocalizing && phase != Lost {
        return Output(phase, Failed, NoReason, sequence, false, false);
      }
      if success {
        phase := Tracking;
        ResetCounters();
        return Output(Tracking, Full, NoReason, sequence, true, false);
      }
      if phase == Lost {
        return Output(Lost, Failed, NoReason, sequence, false, false);
      }
      var timedOut := AdvanceRelocClock(dt);
      if timedOut {
        phase := Lost;
        ResetCounters();
        return Output(Lost, Failed, RelocalizationTimeout, sequence, false, false);
      }
      return Output(Relocalizing, Failed, NoReason, sequence, false, false);
    }

    method Stop() returns (out: Output)
      modifies this
      ensures (View(), out) == Next(params, old(View()), Halt)
    {
      stopped := true;
      phase := Stopped;
      ResetCounters();
      out := Output(Stopped, Failed, NoReason, 0, false, false);
    }
  }

  // ---- the machine on values ---------------------------------------------------------

  datatype Input =
    | Track(quality: Quality, dt: real, sequence: nat)
    | Relocalize(success: bool, dt: real, sequence: nat)
    | Halt

  const START := State(Initializing, false, ZERO)

  function Ticked(c: Counters, dt: real): Counters {
    c.(relocFrames := c.relocFrames + 1, relocTime := c.relocTime + Positive(dt))
  }

  function TimedOut(p: Params, c: Counters): bool {
    c.relocFrames >= p.relocMaxFrames || c.relocTime >= p.relocMaxSeconds
  }

  function Seen(c: Counters, quality: Quality, dt: real): Counters {
    match quality
    case Full => c.(full := c.full + 1, weak := 0, fail := 0, predictionTime := 0.0)
    case Weak => c.(weak := c.weak + 1, full := 0, fail := 0, predictionTime := 0.0)
    case Failed => c.(fail := c.fail + 1, full := 0, weak := 0, predictionTime := c.predictionTime + Positive(dt))
  }

  function Processed(p: Params, s: State, quality: Quality, dt: real, sequence: nat): (State, Output) {
    var c := Seen(s.c, quality, dt);
    var within := c.predictionTime <= p.predictionTimeout;
    match quality
    case Full =>
      if s.phase == Degraded && c.full >= p.recoverRequired
      then (State(Tracking, s.stopped, ZERO), Output(Tracking, Full, NoReason, sequence, true, false))
      else (s.(c := c), Output(s.phase, Full, NoReason, sequence, true, false))
    case Weak =>
      if s.phase != Degraded && c.weak >= p.weakToDegraded
      then (State(Degraded, s.stopped, ZERO), Output(Degraded, Weak, NoReason, sequence, true, false))
      else (s.(c := c), Output(s.phase, Weak, NoReason, sequence, true, false))
    case Failed =>
      if c.fail >= p.maxFailures
      then (State(Relocalizing, s.stopped, ZERO),
            Output(Relocalizing, Failed, GeometricRejection, sequence, within, within))
      else (s.(c := c), Output(s.phase, Failed, GeometricRejection, sequence, within, within))
  }

  function Searching(p: Params, s: State, dt: real, sequence: nat): (State, Output) {
    var c := Ticked(s.c, dt);
    if TimedOut(p, c)
    then (State(Lost, s.stopped, ZERO), Output(Lost, Failed, RelocalizationTimeout, sequence, false, false))
    else (s.(c := c), Output(Relocalizing, Failed, NoReason, sequence, false, false))
  }

  function Starting(p: Params, s: State, quality: Quality, sequence: nat): (State, Output) {
    if quality != Full then (s.(c := s.c.(full := 0)), Output(Initializing, quality, NoReason, sequence, false, false))
    else if s.c.full + 1 >= p.initRequired
    then (State(Tracking, s.stopped, ZERO), Output(Tracking, Full, NoReason, sequence, true, false))
    else (s.(c := s.c.(full := s.c.full + 1)), Output(Initializing, Full, NoReason, sequence, false, false))
  }

  function Next(p: Params, s: State, input: Input): (State, Output) {
    match input
    case Halt => (State(Stopped, true, ZERO), Output(Stopped, Failed, NoReason, 0, false, false))
    case Track(quality, dt, sequence) =>
      if s.stopped then (s, Output(Stopped, Failed, NoReason, sequence, false, false))
      else (match s.phase
            case Initializing => Starting(p, s, quality, sequence)
            case Tracking => Processed(p, s, quality, dt, sequence)
            case Degraded => Processed(p, s, quality, dt, sequence)
            case Relocalizing => Searching(p, s, dt, sequence)
            case Lost => (s, Output(Lost, Failed, NoReason, sequence, false, false))
            case Stopped => (s, Output(Stopped, Failed, NoReason, sequence, false, false)))
    case Relocalize(success, dt, sequence) =>
      if s.stopped then (s, Output(Stopped, Failed, NoReason, sequence, false, false))
      else if s.phase != Relocalizing && s.phase != Lost
      then (s, Output(s.phase, Failed, NoReason, sequence, false, false))
      else if success then (State(Tracking, s.stopped, ZERO), Output(Tracking, Full, NoReason, sequence, true, false))
      else if s.phase == Lost then (s, Output(Lost, Failed, NoReason, sequence, false, false))
      else Searching(p, s, dt, sequence)
  }

  // ---- histories ------------------------------------------------------------------------

  /** Inputs that count in a phase: tracked frames, and while searching also failed attempts. */
  predicate Relevant(phase: Phase, input: Input) {
    match phase
    case Initializing => input.Track?
    case Tracking => input.Track?
    case Degraded => input.Track?
    case Relocalizing => !input.Halt?
    case Lost => false
    case Stopped => false
  }

  /** The state together with the relevant inputs since its last transition. */
  datatype Run = Run(s: State, since: seq<Input>)

  function Extend(p: Params, r: Run, input: Input): Run {
    var next := Next(p, r.s, input).0;
    if next.phase != r.s.phase then Run(next, [])
    else if Relevant(r.s.phase, input) && !r.s.stopped then Run(next, r.since + [input])
    else Run(next, r.since)
  }

  function After(p: Params, inputs: seq<Input>): Run {
    if inputs == [] then Run(START, []) else Extend(p, After(p, inputs[..|inputs| - 1]), inputs[|inputs| - 1])
  }

  predicate IsFrame(i: Input, quality: Quality) {
    i.Track? && i.quality == quality
  }

  /** Length of the run of frames of this quality that ends the history. */
  function Trailing(h: seq<Input>, quality: Quality): nat {
    if h == [] || !IsFrame(h[|h| - 1], quality) then 0 else Trailing(h[..|h| - 1], quality) + 1
  }

  /** Summed time of the failures that end the history. */
  function TrailingTime(h: seq<Input>): real {
    if h == [] || !IsFrame(h[|h| - 1], Failed) then 0.0
    else TrailingTime(h[..|h| - 1]) + Positive(h[|h| - 1].dt)
  }

  function Elapsed(h: seq<Input>): real {
    if h == [] || h[|h| - 1].Halt? then 0.0 else Elapsed(h[..|h| - 1]) + Positive(h[|h| - 1].dt)
  }

  /** What the counters mean in each phase. */
  ghost predicate Meant(r: Run) {
    var c, h := r.s.c, r.since;
    && (forall i :: 0 <= i < |h| ==> Relevant(r.s.phase, h[i]))
    && (r.s.stopped <==> r.s.phase == Stopped)
    && match r.s.phase
       case Initializing => c == ZERO.(full := Trailing(h, Full))
       case Tracking =>
         c == Counters(Trailing(h, Full), Trailing(h, Weak), Trailing(h, Failed), 0, 0.0, TrailingTime(h))
       case Degraded =>
         c == Counters(Trailing(h, Full), Trailing(h, Weak), Trailing(h, Failed), 0, 0.0, TrailingTime(h))
       case Relocalizing => c == ZERO.(relocFrames := |h|, relocTime := Elapsed(h))
       case Lost => c == ZERO
       case Stopped => c == ZERO
  }

  lemma TrailingMore(h: seq<Input>, i: Input)
    ensures forall q :: Trailing(h + [i], q) == if IsFrame(i, q) then Trailing(h, q) + 1 else 0
    ensures TrailingTime(h + [i]) == if IsFrame(i, Failed) then TrailingTime(h) + Positive(i.dt) else 0.0
    ensures !i.Halt? ==> Elapsed(h + [i]) == Elapsed(h) + Positive(i.dt)
  {
    assert (h + [i])[..|h|] == h;
  }

  lemma {:induction false} ExtendKeepsMeaning(p: Params, r: Run, input: Input)
    requires Meant(r)
    ensures Meant(Extend(p, r, input))
  {
    TrailingMore(r.since, input);
    NoHistory();
    hide Trailing, TrailingTime, Elapsed;
  }

  lemma NoHistory()
    ensures (forall q :: Trailing([], q) == 0) && TrailingTime([]) == 0.0 && Elapsed([]) == 0.0
  {
  }

  /** On every run the counters are the trailing run lengths and times of the inputs since the last transition. */
  lemma {:induction false} CountersMeanHistory(p: Params, inputs: seq<Input>)
    ensures Meant(After(p, inputs))
  {
    if inputs == [] {
      NoHistory();
    } else {
      CountersMeanHistory(p, inputs[..|inputs| - 1]);
      ExtendKeepsMeaning(p, After(p, inputs[..|inputs| - 1]), inputs[|inputs| - 1]);
    }
  }

  // ---- thresholds are never overshot ---------------------------------------------------

  /** A configured count below one acts like one: the counters are compared after they were raised. */
  function Limit(count: int): nat {
    if count < 1 then 1 else count
  }

  /** Below every threshold that would have ended the phase. */
  ghost predicate BelowThresholds(p: Params, r: Run) {
    var h := r.since;
    match r.s.phase
    case Initializing => Trailing(h, Full) < Limit(p.initRequired)
    case Tracking => Trailing(h, Weak) < Limit(p.weakToDegraded) && Trailing(h, Failed) < Limit(p.maxFailures)
    case Degraded => Trailing(h, Full) < Limit(p.recoverRequired) && Trailing(h, Failed) < Limit(p.maxFailures)
    case Relocalizing => |h| < Limit(p.relocMaxFrames) && (h != [] ==> Elapsed(h) < p.relocMaxSeconds)
    case Lost => true
    case Stopped => true
  }

  lemma {:induction false} ExtendStaysBelow(p: Params, r: Run, input: Input)
    requires Meant(r) && BelowThresholds(p, r)
    ensures BelowThresholds(p, Extend(p, r, input))
  {
    TrailingMore(r.since, input);
    NoHistory();
    hide Trailing, TrailingTime, Elapsed;
  }

  /** On every run: no streak outlives its threshold, and a search never exceeds its frames or its seconds. */
  lemma {:induction false} NoRunOvershoots(p: Params, inputs: seq<Input>)
    ensures BelowThresholds(p, After(p, inputs))
  {
    if inputs == [] {
      NoHistory();
    } else {
      var before := inputs[..|inputs| - 1];
      CountersMeanHistory(p, before);
      NoRunOvershoots(p, before);
      ExtendStaysBelow(p, After(p, before), inputs[|inputs| - 1]);
    }
  }

  // ---- transitions ---------------------------------------------------------------------------

  /** The search starts at exactly the configured consecutive failure, at the first one if that is below one. */
  lemma {:induction false} SearchStartsAtTheLimit(p: Params, inputs: seq<Input>, input: Input)
    ensures var r := After(p, inputs);
            r.s.phase != Relocalizing && Next(p, r.s, input).0.phase == Relocalizing <==>
              (r.s.phase == Tracking || r.s.phase == Degraded) &&
              Trailing(r.since + [input], Failed) == Limit(p.maxFailures)
  {
    var r := After(p, inputs);
    CountersMeanHistory(p, inputs);
    NoRunOvershoots(p, inputs);
    TrailingMore(r.since, input);
    hide Trailing, TrailingTime, Elapsed, After;
  }

  /** Tracking starts at exactly the configured consecutive good frame, and a degraded run recovers at its own. */
  lemma {:induction false} TracksAtTheLimit(p: Params, inputs: seq<Input>, input: Input)
    ensures var r := After(p, inputs);
            r.s.phase != Tracking && Next(p, r.s, input).0.phase == Tracking <==>
              || (r.s.phase == Initializing && Trailing(r.since + [input], Full) == Limit(p.initRequired))
              || (r.s.phase == Degraded && Trailing(r.since + [input], Full) == Limit(p.recoverRequired))
              || ((r.s.phase == Relocalizing || r.s.phase == Lost) && input.Relocalize? && input.success)
  {
    var r := After(p, inputs);
    CountersMeanHistory(p, inputs);
    NoRunOvershoots(p, inputs);
    TrailingMore(r.since, input);
    hide Trailing, TrailingTime, Elapsed, After;
  }

  /** Tracking degrades at exactly the configured consecutive weak frame. */
  lemma {:induction false} DegradesAtTheLimit(p: Params, inputs: seq<Input>, input: Input)
    ensures var r := After(p, inputs);
            r.s.phase != Degraded && Next(p, r.s, input).0.phase == Degraded <==>
              r.s.phase == Tracking && Trailing(r.since + [input], Weak) == Limit(p.weakToDegraded)
  {
    var r := After(p, inputs);
    CountersMeanHistory(p, inputs);
    NoRunOvershoots(p, inputs);
    TrailingMore(r.since, input);
    hide Trailing, TrailingTime, Elapsed, After;
  }

  /**
   * The search is given up at exactly the configured frame, or with the first that spends the configured time; a
   * successful relocalization comes before the clock.
   */
  lemma {:induction false} LostAtTheLimit(p: Params, inputs: seq<Input>, input: Input)
    ensures var r := After(p, inputs);
            r.s.phase != Lost && Next(p, r.s, input).0.phase == Lost <==>
              && r.s.phase == Relocalizing && !input.Halt? && !(input.Relocalize? && input.success)
              && (|r.since| + 1 == Limit(p.relocMaxFrames) || Elapsed(r.since + [input]) >= p.relocMaxSeconds)
  {
    var r := After(p, inputs);
    CountersMeanHistory(p, inputs);
    NoRunOvershoots(p, inputs);
    TrailingMore(r.since, input);
    hide Trailing, TrailingTime, Elapsed, After;
  }

  /** Every report names the phase reached, and why a frame was refused or the search given up. */
  lemma {:induction false} ReportsTheTransition(p: Params, inputs: seq<Input>, input: Input)
    ensures var r, next := After(p, inputs), Next(p, After(p, inputs).s, input);
            && next.1.phase == next.0.phase && (next.0.phase == Stopped <==> r.s.stopped || input.Halt?)
            && (next.1.reason == RelocalizationTimeout <==> r.s.phase == Relocalizing && next.0.phase == Lost)
            && (next.1.reason == GeometricRejection <==>
                  (r.s.phase == Tracking || r.s.phase == Degraded) && IsFrame(input, Failed))
  {
    CountersMeanHistory(p, inputs);
    hide Trailing, TrailingTime, Elapsed, After;
  }

  /** A prediction is published exactly during a failure run whose summed time is within the timeout. */
  lemma {:induction false} PredictionsAreTimed(p: Params, inputs: seq<Input>, input: Input)
    ensures var r := After(p, inputs);
            Next(p, r.s, input).1.prediction <==>
              && (r.s.phase == Tracking || r.s.phase == Degraded) && IsFrame(input, Failed)
              && TrailingTime(r.since + [input]) <= p.predictionTimeout
  {
    var r := After(p, inputs);
    CountersMeanHistory(p, inputs);
    TrailingMore(r.since, input);
    hide Trailing, TrailingTime, Elapsed, After;
  }

  /**
   * The header promises no valid pose in Relocalizing; the frame that starts the search can still carry a prediction.
   * A pose is published with that phase exactly then.
   */
  lemma {:induction false} RelocalizingPublishesOnlyOnEntry(p: Params, inputs: seq<Input>, input: Input)
    ensures var r, out := After(p, inputs), Next(p, After(p, inputs).s, input).1;
            out.phase == Relocalizing && out.poseValid <==>
              && (r.s.phase == Tracking || r.s.phase == Degraded)
              && Trailing(r.since + [input], Failed) == Limit(p.maxFailures)
              && TrailingTime(r.since + [input]) <= p.predictionTimeout
  {
    var r := After(p, inputs);
    CountersMeanHistory(p, inputs);
    NoRunOvershoots(p, inputs);
    TrailingMore(r.since, input);
    hide Trailing, TrailingTime, Elapsed, After;
  }

  /** One failure with the limit at one: the frame enters Relocalizing and its pose is valid. */
  lemma {:induction false} EntryCanPublish()
    ensures var p := Params(1, 1, 1, 1, 20, 2.0, 0.5);
            var out := Next(p, After(p, [Track(Full, 0.1, 0)]).s, Track(Failed, 0.1, 1)).1;
            out.phase == Relocalizing && out.poseValid
  {
    var inputs := [Track(Full, 0.1, 0)];
    assert inputs[..0] == [];
  }

  /** Only a successful relocalization leads from Relocalizing or Lost back to Tracking. */
  lemma {:induction false} OnlySuccessRecovers(p: Params, s: State, input: Input)
    requires s.phase == Relocalizing || s.phase == Lost
    ensures Next(p, s, input).0.phase == Tracking <==> !s.stopped && input.Relocalize? && input.success
    ensures Next(p, s, input).0.phase in {Tracking, Relocalizing, Lost, Stopped}
    ensures s.phase == Lost ==> Next(p, s, input).0.phase != Relocalizing
  {
  }

  /** The inputs that carry a measured pose in a state. */
  predicate Measures(p: Params, s: State, input: Input) {
    match input
    case Track(quality, _, _) =>
      && quality != Failed
      && (s.phase == Tracking || s.phase == Degraded
          || (s.phase == Initializing && quality == Full && s.c.full + 1 >= p.initRequired))
    case Relocalize(success, _, _) => success && (s.phase == Relocalizing || s.phase == Lost)
    case Halt => false
  }

  /** A pose that is not a prediction is published exactly for a good frame or a successful relocalization. */
  lemma {:induction false} MeasuredPoses(p: Params, s: State, input: Input)
    ensures Next(p, s, input).1.poseValid && !Next(p, s, input).1.prediction
       <==> !s.stopped && Measures(p, s, input)
    ensures Next(p, s, input).1.prediction ==> Next(p, s, input).1.poseValid
  {
  }

  /** After a stop nothing but Stopped is ever reported, and no pose. */
  lemma {:induction false} StoppedAbsorbs(p: Params, inputs: seq<Input>, later: seq<Input>, input: Input)
    requires After(p, inputs).s.stopped
    ensures var r := After(p, inputs + later);
            r.s.stopped && r.s.phase == Stopped && Next(p, r.s, input).0.phase == Stopped &&
            !Next(p, r.s, input).1.poseValid
  {
    CountersMeanHistory(p, inputs + later);
    StoppedStays(p, inputs, later);
  }

  lemma StopIsKept(p: Params, r: Run, input: Input)
    requires r.s.stopped
    ensures Extend(p, r, input).s.stopped
  {
  }

  lemma {:induction false} StoppedStays(p: Params, inputs: seq<Input>, later: seq<Input>)
    requires After(p, inputs).s.stopped
    ensures After(p, inputs + later).s.stopped
  {
    hide Extend;
    if later == [] {
      assert inputs + later == inputs;
    } else {
      var all := inputs + later;
      assert all[..|all| - 1] == inputs + later[..|later| - 1];
      StoppedStays(p, inputs, later[..|later| - 1]);
      StopIsKept(p, After(p, inputs + later[..|later| - 1]), all[|all| - 1]);
    }
  }
}
