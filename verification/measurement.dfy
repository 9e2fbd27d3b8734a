/**
 * Measuring one callable: calibrate a batch size, then time batch after batch until the
 * relative error is small enough (Converged) or the time ceiling is passed (TimedOut).
 * The timings are observations: each batch contributes its stopwatch ticks and the
 * wall-clock milliseconds elapsed since the loop began, read after the batch.
 */
module Measurement {
  import opened Faults
  import opened Int32
  import opened BenchmarkSettings
  import opened RunStatistics
  import opened BatchCalibration

  datatype Observation = Observation(ticks: pos, elapsedMs: real)

  /** Everything the clocks report while one callable is measured. */
  datatype ActionTrace = ActionTrace(clock: seq<nat>, batches: seq<Observation>)

  datatype Phase = Collecting | Converged | TimedOut

  /** The state of the convergence loop: its phase, the tick history and one snapshot per batch. */
  datatype Loop = Loop(phase: Phase, runTicks: seq<pos>, runs: seq<Run>)

  /** The measurement of one callable. */
  datatype Result = Result(name: string, batchSize: int32, batchTime: int32, runs: seq<Run>)

  const Start: Loop := Loop(Collecting, [], [])

  /** The wall-clock ceiling has been passed. */
  predicate TimeExceeded(s: Settings, obs: Observation)
  {
    obs.elapsedMs > s.maxTime as real
  }

  /** The loop guard lets the loop end: the error is acceptable and at least three batches were timed. */
  predicate ErrorAccepted(s: Settings, run: Run, batches: nat)
  {
    Accepts(run, s.minimumErrorToAccept) && batches >= 3
  }

  /** One batch: record its ticks, take a snapshot, then test the time ceiling before the loop guard. */
  function Step(s: Settings, p: Platform, batchSize: int32, l: Loop, obs: Observation): (r: Outcome<Loop>)
    requires l.phase == Collecting && |l.runs| == |l.runTicks|
    ensures r.Success? ==> r.value.runTicks == l.runTicks + [obs.ticks]
    ensures r.Success? ==> |r.value.runs| == |l.runs| + 1 && r.value.runs[..|l.runs|] == l.runs
    ensures r.Success? ==> CalculateRunStatistics(s, p, r.value.runTicks, batchSize)
                             == Success(r.value.runs[|l.runs|].(exceededMaxTime := false))
    ensures r.Success? ==> (r.value.phase == TimedOut <==> TimeExceeded(s, obs))
    ensures r.Success? ==> (r.value.runs[|l.runs|].exceededMaxTime <==> TimeExceeded(s, obs))
    ensures r.Success? ==> (r.value.phase == Converged <==>
                              !TimeExceeded(s, obs) && ErrorAccepted(s, r.value.runs[|l.runs|], |r.value.runTicks|))
    ensures r.Failure? ==> CalculateRunStatistics(s, p, l.runTicks + [obs.ticks], batchSize) == Failure(r.fault)
  {
    var runTicks := l.runTicks + [obs.ticks];
    match CalculateRunStatistics(s, p, runTicks, batchSize)
    case Failure(f) => Failure(f)
    case Success(run) =>
      if TimeExceeded(s, obs) then
        Success(Loop(TimedOut, runTicks, l.runs + [run.(exceededMaxTime := true)]))
      else if ErrorAccepted(s, run, |runTicks|) then
        Success(Loop(Converged, runTicks, l.runs + [run]))
      else
        Success(Loop(Collecting, runTicks, l.runs + [run]))
  }

  /** The three outcomes of a step, by the statistics of the extended history and the time ceiling. */
  lemma StepCases(s: Settings, p: Platform, batchSize: int32, l: Loop, obs: Observation)
    requires l.phase == Collecting && |l.runs| == |l.runTicks|
    ensures var statistics := CalculateRunStatistics(s, p, l.runTicks + [obs.ticks], batchSize);
            && (statistics.Failure? ==> Step(s, p, batchSize, l, obs) == Failure(statistics.fault))
            && (statistics.Success? && TimeExceeded(s, obs) ==>
                  Step(s, p, batchSize, l, obs)
                  == Success(Loop(TimedOut, l.runTicks + [obs.ticks], l.runs + [statistics.value.(exceededMaxTime := true)])))
            && (statistics.Success? && !TimeExceeded(s, obs) ==>
                  var accepted := Accepts(statistics.value, s.minimumErrorToAccept) && |l.runTicks| + 1 >= 3;
                  Step(s, p, batchSize, l, obs)
                  == Success(Loop(if accepted then Converged else Collecting, l.runTicks + [obs.ticks], l.runs + [statistics.value])))
  {
  }

  /** Batch i (counting from 0) ends the loop. */
  predicate Stops(s: Settings, trace: seq<Observation>, runs: seq<Run>, i: nat)
    requires i < |trace| && i < |runs|
  {
    TimeExceeded(s, trace[i]) || ErrorAccepted(s, runs[i], i + 1)
  }

  /** The tick history is the trace's, batch for batch. */
  predicate TicksFollow(trace: seq<Observation>, l: Loop)
  {
    |l.runTicks| <= |trace| && forall i :: 0 <= i < |l.runTicks| ==> l.runTicks[i] == trace[i].ticks
  }

  /** Every snapshot is the statistics of the tick history up to its batch, flag aside. */
  ghost predicate Snapshots(s: Settings, p: Platform, batchSize: int32, l: Loop)
  {
    |l.runs| == |l.runTicks| &&
    forall i :: 0 <= i < |l.runs| ==>
      CalculateRunStatistics(s, p, l.runTicks[..i + 1], batchSize) == Success(l.runs[i].(exceededMaxTime := false))
  }

  /** Only a final snapshot of a timed-out loop is flagged. */
  predicate FlaggedLast(l: Loop)
  {
    forall i :: 0 <= i < |l.runs| ==> (l.runs[i].exceededMaxTime <==> i == |l.runs| - 1 && l.phase == TimedOut)
  }

  /** No batch but a final one ends the loop, and none at all while it is still collecting. */
  predicate NoneStopsEarly(s: Settings, trace: seq<Observation>, l: Loop)
    requires |l.runs| <= |trace|
  {
    forall i :: 0 <= i < |l.runs| && (i < |l.runs| - 1 || l.phase == Collecting) ==> !Stops(s, trace, l.runs, i)
  }

  /** The phase says why the loop ended. */
  predicate PhaseExplained(s: Settings, trace: seq<Observation>, l: Loop)
    requires |l.runs| <= |trace|
  {
    && (l.phase == TimedOut ==> |l.runs| > 0 && TimeExceeded(s, trace[|l.runs| - 1]))
    && (l.phase == Converged ==>
          |l.runs| > 0 && !TimeExceeded(s, trace[|l.runs| - 1]) && ErrorAccepted(s, l.runs[|l.runs| - 1], |l.runs|))
  }

  /**
   * The declarative description of a loop state reached on a trace: the ticks are the
   * trace's, every snapshot is the statistics of the history up to its batch, no batch
   * but a final one ends the loop, only a timed-out final snapshot is flagged, and the
   * phase says why the loop ended.
   */
  ghost predicate Recorded(s: Settings, p: Platform, batchSize: int32, trace: seq<Observation>, l: Loop)
  {
    && |l.runs| == |l.runTicks| <= |trace|
    && TicksFollow(trace, l)
    && Snapshots(s, p, batchSize, l)
    && FlaggedLast(l)
    && NoneStopsEarly(s, trace, l)
    && PhaseExplained(s, trace, l)
  }

  /** The loop has nothing left to do: it stopped, or it used the whole trace. */
  predicate Finished(trace: seq<Observation>, l: Loop)
  {
    l.phase != Collecting || |l.runTicks| == |trace|
  }

  /** The convergence loop as a state machine over the trace, continuing from l. */
  function Converge(s: Settings, p: Platform, batchSize: int32, trace: seq<Observation>, l: Loop): (r: Outcome<Loop>)
    requires l.phase == Collecting && |l.runs| == |l.runTicks| <= |trace|
    ensures r.Success? ==> Finished(trace, r.value) && |r.value.runs| == |r.value.runTicks| <= |trace|
    ensures r.Success? ==> |l.runs| <= |r.value.runs|
    ensures r.Success? && r.value.phase != Collecting ==> |r.value.runs| >= 1
    ensures r.Failure? ==> r.fault == EmptyWindow || r.fault == CriticalValueOutOfRange
    ensures WindowFits(s, |p.tTable|) ==> r.Success?
    decreases |trace| - |l.runTicks|
  {
    var i := |l.runTicks|;
    if i == |trace| then Success(l)
    else
      FittingWindowSucceeds(s, p, l.runTicks + [trace[i].ticks], batchSize);
      match Step(s, p, batchSize, l, trace[i])
      case Failure(f) => Failure(f)
      case Success(next) =>
        if next.phase == Collecting then Converge(s, p, batchSize, trace, next) else Success(next)
  }

  /** The loop keeps its record: the state it reaches from a recorded state is recorded too. */
  lemma {:induction false} ConvergeKeepsRecord(s: Settings, p: Platform, batchSize: int32, trace: seq<Observation>, l: Loop)
    requires l.phase == Collecting && Recorded(s, p, batchSize, trace, l)
    ensures Converge(s, p, batchSize, trace, l).Success? ==> Recorded(s, p, batchSize, trace, Converge(s, p, batchSize, trace, l).value)
    decreases |trace| - |l.runTicks|
  {
    var i := |l.runTicks|;
    if i < |trace| {
      var step := Step(s, p, batchSize, l, trace[i]);
      if step.Success? {
        StepKeepsRecord(s, p, batchSize, trace, l, step.value);
        if step.value.phase == Collecting {
          ConvergeKeepsRecord(s, p, batchSize, trace, step.value);
        }
      }
    }
  }

  /** A batch taken from a recorded state leads to a recorded state one batch longer. */
  lemma StepKeepsRecord(s: Settings, p: Platform, batchSize: int32, trace: seq<Observation>, l: Loop, next: Loop)
    requires l.phase == Collecting && Recorded(s, p, batchSize, trace, l) && |l.runTicks| < |trace|
    requires Step(s, p, batchSize, l, trace[|l.runTicks|]) == Success(next)
    ensures Recorded(s, p, batchSize, trace, next)
    ensures |next.runs| == |l.runs| + 1 && next.runTicks[..|l.runTicks|] == l.runTicks
  {
    StepKeepsTicks(trace, l, next);
    StepKeepsSnapshots(s, p, batchSize, l, next);
    StepKeepsFlags(l, next);
    StepKeepsNoStop(s, trace, l, next);
  }

  lemma StepKeepsTicks(trace: seq<Observation>, l: Loop, next: Loop)
    requires TicksFollow(trace, l) && |l.runTicks| < |trace|
    requires next.runTicks == l.runTicks + [trace[|l.runTicks|].ticks]
    ensures TicksFollow(trace, next) && next.runTicks[..|l.runTicks|] == l.runTicks
  {
    var n := |l.runTicks|;
    forall j | 0 <= j < n + 1
      ensures next.runTicks[j] == trace[j].ticks
    {
      if j < n {
        assert next.runTicks[j] == l.runTicks[j];
      }
    }
  }

  lemma StepKeepsSnapshots(s: Settings, p: Platform, batchSize: int32, l: Loop, next: Loop)
    requires Snapshots(s, p, batchSize, l)
    requires |next.runs| == |l.runs| + 1 && next.runs[..|l.runs|] == l.runs
    requires |next.runTicks| == |l.runTicks| + 1 && next.runTicks[..|l.runTicks|] == l.runTicks
    requires CalculateRunStatistics(s, p, next.runTicks, batchSize) == Success(next.runs[|l.runs|].(exceededMaxTime := false))
    ensures Snapshots(s, p, batchSize, next)
  {
    var n := |l.runs|;
    forall j | 0 <= j < n + 1
      ensures CalculateRunStatistics(s, p, next.runTicks[..j + 1], batchSize) == Success(next.runs[j].(exceededMaxTime := false))
    {
      SnapshotCarriesOver(s, p, batchSize, l, next, j);
    }
  }

  /**
   * Snapshot j of the stepped state: an earlier one survives unchanged, since its prefix and its
   * run are the same in both states, and the new one is the statistics of the whole history.
   */
  lemma SnapshotCarriesOver(s: Settings, p: Platform, batchSize: int32, l: Loop, next: Loop, j: nat)
    requires Snapshots(s, p, batchSize, l) && j <= |l.runs|
    requires |next.runs| == |l.runs| + 1 && next.runs[..|l.runs|] == l.runs
    requires |next.runTicks| == |l.runTicks| + 1 && next.runTicks[..|l.runTicks|] == l.runTicks
    requires CalculateRunStatistics(s, p, next.runTicks, batchSize) == Success(next.runs[|l.runs|].(exceededMaxTime := false))
    ensures CalculateRunStatistics(s, p, next.runTicks[..j + 1], batchSize) == Success(next.runs[j].(exceededMaxTime := false))
  {
    if j < |l.runs| {
      assert next.runTicks[..j + 1] == l.runTicks[..j + 1];
      assert next.runs[j] == l.runs[j];
      assert CalculateRunStatistics(s, p, l.runTicks[..j + 1], batchSize) == Success(l.runs[j].(exceededMaxTime := false));
    } else {
      assert next.runTicks[..j + 1] == next.runTicks;
    }
  }

  lemma StepKeepsFlags(l: Loop, next: Loop)
    requires FlaggedLast(l) && l.phase == Collecting
    requires |next.runs| == |l.runs| + 1 && next.runs[..|l.runs|] == l.runs
    requires next.runs[|l.runs|].exceededMaxTime <==> next.phase == TimedOut
    ensures FlaggedLast(next)
  {
    var n := |l.runs|;
    forall j | 0 <= j < n + 1
      ensures next.runs[j].exceededMaxTime <==> j == n && next.phase == TimedOut
    {
      if j < n {
        assert next.runs[j] == l.runs[j];
      }
    }
  }

  lemma StepKeepsNoStop(s: Settings, trace: seq<Observation>, l: Loop, next: Loop)
    requires |l.runs| < |trace| && NoneStopsEarly(s, trace, l) && l.phase == Collecting
    requires |next.runs| == |l.runs| + 1 && next.runs[..|l.runs|] == l.runs
    requires next.phase == TimedOut <==> TimeExceeded(s, trace[|l.runs|])
    requires next.phase == Converged <==> !TimeExceeded(s, trace[|l.runs|]) && ErrorAccepted(s, next.runs[|l.runs|], |l.runs| + 1)
    ensures NoneStopsEarly(s, trace, next) && PhaseExplained(s, trace, next)
  {
    var n := |l.runs|;
    forall j | 0 <= j < n + 1 && (j < n || next.phase == Collecting)
      ensures !Stops(s, trace, next.runs, j)
    {
      if j < n {
        assert next.runs[j] == l.runs[j];
        assert !Stops(s, trace, l.runs, j);
      }
    }
  }

  /** One unfolding of the loop: the end of the trace, or one more batch. */
  lemma ConvergeUnfolds(s: Settings, p: Platform, batchSize: int32, trace: seq<Observation>, l: Loop)
    requires l.phase == Collecting && |l.runs| == |l.runTicks| <= |trace|
    ensures |l.runTicks| == |trace| ==> Converge(s, p, batchSize, trace, l) == Success(l)
    ensures |l.runTicks| < |trace| ==>
              var step := Step(s, p, batchSize, l, trace[|l.runTicks|]);
              && (step.Failure? ==> Converge(s, p, batchSize, trace, l) == Failure(step.fault))
              && (step.Success? && step.value.phase != Collecting ==> Converge(s, p, batchSize, trace, l) == step)
              && (step.Success? && step.value.phase == Collecting ==>
                    Converge(s, p, batchSize, trace, l) == Converge(s, p, batchSize, trace, step.value))
  {
  }

  /** Two runs of the same loop on the same trace agree on batch i when they agree on the ticks up to it. */
  lemma SameHistorySameSnapshot(s: Settings, p: Platform, batchSize: int32, trace: seq<Observation>, l1: Loop, l2: Loop, i: nat)
    requires Recorded(s, p, batchSize, trace, l1) && Recorded(s, p, batchSize, trace, l2)
    requires i < |l1.runs| && i < |l2.runs|
    ensures l1.runs[i].(exceededMaxTime := false) == l2.runs[i].(exceededMaxTime := false)
    ensures Stops(s, trace, l1.runs, i) == Stops(s, trace, l2.runs, i)
  {
    assert l1.runTicks[..i + 1] == l2.runTicks[..i + 1] by {
      forall j | 0 <= j < i + 1
        ensures l1.runTicks[j] == l2.runTicks[j]
      {
        assert l1.runTicks[j] == trace[j].ticks == l2.runTicks[j];
      }
    }
    assert l1.runs[i].errorSquared == l1.runs[i].(exceededMaxTime := false).errorSquared;
    assert l2.runs[i].errorSquared == l2.runs[i].(exceededMaxTime := false).errorSquared;
  }

  /** Two finished recorded states of the same loop on the same trace are the same state. */
  lemma RecordIsDetermined(s: Settings, p: Platform, batchSize: int32, trace: seq<Observation>, l1: Loop, l2: Loop)
    requires Recorded(s, p, batchSize, trace, l1) && Finished(trace, l1)
    requires Recorded(s, p, batchSize, trace, l2) && Finished(trace, l2)
    ensures l1 == l2
  {
    LengthIsDetermined(s, p, batchSize, trace, l1, l2);
    LengthIsDetermined(s, p, batchSize, trace, l2, l1);
    TicksAreDetermined(trace, l1, l2);
    if |l1.runs| > 0 {
      SameHistorySameSnapshot(s, p, batchSize, trace, l1, l2, |l1.runs| - 1);
    }
    PhaseIsDetermined(s, trace, l1, l2);
    RunsAreDetermined(s, p, batchSize, trace, l1, l2);
  }

  lemma TicksAreDetermined(trace: seq<Observation>, l1: Loop, l2: Loop)
    requires TicksFollow(trace, l1) && TicksFollow(trace, l2) && |l1.runTicks| == |l2.runTicks|
    ensures l1.runTicks == l2.runTicks
  {
    forall j | 0 <= j < |l1.runTicks|
      ensures l1.runTicks[j] == l2.runTicks[j]
    {
      assert l1.runTicks[j] == trace[j].ticks;
    }
  }

  lemma PhaseIsDetermined(s: Settings, trace: seq<Observation>, l1: Loop, l2: Loop)
    requires |l1.runs| == |l2.runs| <= |trace| && Finished(trace, l1) && Finished(trace, l2)
    requires NoneStopsEarly(s, trace, l1) && PhaseExplained(s, trace, l1)
    requires NoneStopsEarly(s, trace, l2) && PhaseExplained(s, trace, l2)
    requires |l1.runs| > 0 ==> Stops(s, trace, l1.runs, |l1.runs| - 1) == Stops(s, trace, l2.runs, |l1.runs| - 1)
    ensures l1.phase == l2.phase
  {
    if |l1.runs| > 0 {
      PhaseFromLastBatch(s, trace, l1);
      PhaseFromLastBatch(s, trace, l2);
    }
  }

  /** The phase of a finished recorded state is read off its last batch. */
  lemma PhaseFromLastBatch(s: Settings, trace: seq<Observation>, l: Loop)
    requires 1 <= |l.runs| <= |trace| && Finished(trace, l)
    requires NoneStopsEarly(s, trace, l) && PhaseExplained(s, trace, l)
    ensures var k := |l.runs| - 1;
            l.phase == (if !Stops(s, trace, l.runs, k) then Collecting
                        else if TimeExceeded(s, trace[k]) then TimedOut
                        else Converged)
  {
  }

  lemma RunsAreDetermined(s: Settings, p: Platform, batchSize: int32, trace: seq<Observation>, l1: Loop, l2: Loop)
    requires Recorded(s, p, batchSize, trace, l1) && Recorded(s, p, batchSize, trace, l2)
    requires |l1.runs| == |l2.runs| && l1.phase == l2.phase
    ensures l1.runs == l2.runs
  {
    forall j | 0 <= j < |l1.runs|
      ensures l1.runs[j] == l2.runs[j]
    {
      SameHistorySameSnapshot(s, p, batchSize, trace, l1, l2, j);
      var a := l1.runs[j];
      var b := l2.runs[j];
      assert a.exceededMaxTime == b.exceededMaxTime;
      assert a == a.(exceededMaxTime := false).(exceededMaxTime := a.exceededMaxTime);
      assert b == b.(exceededMaxTime := false).(exceededMaxTime := b.exceededMaxTime);
    }
  }

  lemma LengthIsDetermined(s: Settings, p: Platform, batchSize: int32, trace: seq<Observation>, l1: Loop, l2: Loop)
    requires Recorded(s, p, batchSize, trace, l1) && Finished(trace, l1)
    requires Recorded(s, p, batchSize, trace, l2)
    ensures |l2.runs| <= |l1.runs|
  {
    var n := |l1.runs|;
    if |l2.runs| > n {
      LastBatchStops(s, p, batchSize, trace, l1);
      EarlierBatchContinues(s, p, batchSize, trace, l2, n - 1);
      SameHistorySameSnapshot(s, p, batchSize, trace, l1, l2, n - 1);
      assert false;
    }
  }

  lemma LastBatchStops(s: Settings, p: Platform, batchSize: int32, trace: seq<Observation>, l: Loop)
    requires Recorded(s, p, batchSize, trace, l) && l.phase != Collecting
    ensures 1 <= |l.runs| <= |trace| && Stops(s, trace, l.runs, |l.runs| - 1)
  {
  }

  lemma EarlierBatchContinues(s: Settings, p: Platform, batchSize: int32, trace: seq<Observation>, l: Loop, i: nat)
    requires Recorded(s, p, batchSize, trace, l) && i < |l.runs| - 1
    ensures !Stops(s, trace, l.runs, i)
  {
  }

  /**
   * The state machine computes the one loop state the declarative description allows:
   * any finished recorded state is the one Converge reaches from the start.
   */
  lemma ConvergeReachesTheRecord(s: Settings, p: Platform, batchSize: int32, trace: seq<Observation>, l: Loop)
    requires Recorded(s, p, batchSize, trace, l) && Finished(trace, l)
    requires WindowFits(s, |p.tTable|)
    ensures Converge(s, p, batchSize, trace, Start) == Success(l)
  {
    var r := Converge(s, p, batchSize, trace, Start);
    ConvergeKeepsRecord(s, p, batchSize, trace, Start);
    RecordIsDetermined(s, p, batchSize, trace, r.value, l);
  }

  /** The tick readings of a sequence of batches. */
  function TicksOf(batches: seq<Observation>): (ticks: seq<pos>)
    ensures |ticks| == |batches|
    ensures forall i :: 0 <= i < |batches| ==> ticks[i] == batches[i].ticks
  {
    seq(|batches|, i requires 0 <= i < |batches| => batches[i].ticks)
  }

  /**
   * Measuring one callable: calibrate, then run the convergence loop from the start. Running
   * out of trace before the loop stops is reported as TraceExhausted.
   */
  function Measure(s: Settings, p: Platform, name: string, trace: ActionTrace): (r: Outcome<Result>)
    ensures r.Success? ==> r.value.name == name && r.value.batchTime == s.initialBatchTime
    ensures r.Success? ==> Calibrate(s, trace.clock) == Success(Calibration(r.value.batchSize, r.value.batchTime))
    ensures r.Success? ==> 1 <= |r.value.runs| <= |trace.batches|
    ensures Calibrate(s, trace.clock).Failure? ==> r == Failure(TraceExhausted)
    ensures r.Failure? && WindowFits(s, |p.tTable|) ==> r.fault == TraceExhausted
    ensures Calibrate(s, trace.clock).Success? && trace.batches != [] && s.batchesToWorkAcross <= 0 ==>
              r == Failure(FirstBatchFault(s))
  {
    match Calibrate(s, trace.clock)
    case Failure(f) => Failure(f)
    case Success(calibration) =>
      match MeasureRuns(s, p, calibration.batchSize, trace.batches)
      case Failure(f) => Failure(f)
      case Success(runs) => Success(Result(name, calibration.batchSize, calibration.batchTime, runs))
  }

  /**
   * What a successful measurement reports: run i is the statistics of the first i + 1 batches,
   * no batch before the last stopped the loop, and the last one did, flagged exactly when it
   * passed the time ceiling.
   */
  lemma MeasureIsFaithful(s: Settings, p: Platform, name: string, trace: ActionTrace)
    ensures var r := Measure(s, p, name, trace);
            r.Success? ==>
              && (forall i :: 0 <= i < |r.value.runs| ==>
                    CalculateRunStatistics(s, p, TicksOf(trace.batches[..i + 1]), r.value.batchSize)
                    == Success(r.value.runs[i].(exceededMaxTime := false)))
              && NoEarlyStop(s, trace.batches, r.value.runs)
              && StoppedOnLast(s, trace.batches, r.value.runs)
  {
    if Measure(s, p, name, trace).Success? {
      var calibration := Calibrate(s, trace.clock).value;
      MeasureRunsAreFaithful(s, p, calibration.batchSize, trace.batches);
    }
  }

  /** The snapshots the convergence loop leaves behind when it stops, for a given batch size. */
  function MeasureRuns(s: Settings, p: Platform, batchSize: int32, batches: seq<Observation>): (r: Outcome<seq<Run>>)
    ensures r.Success? ==> 1 <= |r.value| <= |batches|
    ensures r.Failure? && WindowFits(s, |p.tTable|) ==> r.fault == TraceExhausted
    ensures batches != [] && s.batchesToWorkAcross <= 0 ==> r == Failure(FirstBatchFault(s))
  {
    EmptyWindowFailsFirstBatch(s, p, batchSize, batches);
    match Converge(s, p, batchSize, batches, Start)
    case Failure(f) => Failure(f)
    case Success(l) =>
      if l.phase == Collecting then Failure(TraceExhausted) else Success(l.runs)
  }

  lemma MeasureRunsAreFaithful(s: Settings, p: Platform, batchSize: int32, batches: seq<Observation>)
    ensures var r := MeasureRuns(s, p, batchSize, batches);
            r.Success? ==>
              && (forall i :: 0 <= i < |r.value| ==>
                    CalculateRunStatistics(s, p, TicksOf(batches[..i + 1]), batchSize) == Success(r.value[i].(exceededMaxTime := false)))
              && NoEarlyStop(s, batches, r.value)
              && StoppedOnLast(s, batches, r.value)
  {
    var c := Converge(s, p, batchSize, batches, Start);
    ConvergeKeepsRecord(s, p, batchSize, batches, Start);
    if c.Success? && c.value.phase != Collecting {
      MeasuredRunsAreSnapshots(s, p, batchSize, batches, c.value);
      StoppedRecordShape(s, p, batchSize, batches, c.value);
    }
  }

  /**
   * The fault of the first batch under a window of w <= 0: the window is empty, unless 1 - w
   * overflows 32 bits (w is the int32 minimum or one above it), in which case the wrapped skip
   * keeps the one timing and the critical-value lookup at the negative index fails instead.
   */
  function FirstBatchFault(s: Settings): Fault
  {
    if InRange(1 - s.batchesToWorkAcross as int) then EmptyWindow else CriticalValueOutOfRange
  }

  /** With no window at all, the very first batch fails to average. */
  lemma EmptyWindowFailsFirstBatch(s: Settings, p: Platform, batchSize: int32, trace: seq<Observation>)
    ensures trace != [] && s.batchesToWorkAcross <= 0 ==> Converge(s, p, batchSize, trace, Start) == Failure(FirstBatchFault(s))
  {
    if trace != [] && s.batchesToWorkAcross <= 0 {
      assert CalculateRunStatistics(s, p, [trace[0].ticks], batchSize) == Failure(FirstBatchFault(s));
      assert Step(s, p, batchSize, Start, trace[0]) == Failure(FirstBatchFault(s));
    }
  }

  /** No batch before the last passed the time ceiling or satisfied the loop guard, and none is flagged. */
  predicate NoEarlyStop(s: Settings, trace: seq<Observation>, runs: seq<Run>)
    requires |runs| <= |trace|
  {
    forall i :: 0 <= i < |runs| - 1 ==>
      !runs[i].exceededMaxTime && !TimeExceeded(s, trace[i]) && !ErrorAccepted(s, runs[i], i + 1)
  }

  /** The last batch is flagged exactly when it passed the ceiling; otherwise it satisfied the loop guard. */
  predicate StoppedOnLast(s: Settings, trace: seq<Observation>, runs: seq<Run>)
    requires 1 <= |runs| <= |trace|
  {
    var k := |runs| - 1;
    && (runs[k].exceededMaxTime <==> TimeExceeded(s, trace[k]))
    && (!runs[k].exceededMaxTime ==> ErrorAccepted(s, runs[k], k + 1))
  }

  /** What a recorded loop that stopped says about its batches, in terms of the runs alone. */
  lemma StoppedRecordShape(s: Settings, p: Platform, batchSize: int32, trace: seq<Observation>, l: Loop)
    requires Recorded(s, p, batchSize, trace, l) && l.phase != Collecting
    ensures 1 <= |l.runs| <= |trace|
    ensures NoEarlyStop(s, trace, l.runs) && StoppedOnLast(s, trace, l.runs)
  {
    StoppedShape(s, trace, l);
  }

  lemma StoppedShape(s: Settings, trace: seq<Observation>, l: Loop)
    requires |l.runs| <= |trace| && l.phase != Collecting
    requires FlaggedLast(l) && NoneStopsEarly(s, trace, l) && PhaseExplained(s, trace, l)
    ensures 1 <= |l.runs| && NoEarlyStop(s, trace, l.runs) && StoppedOnLast(s, trace, l.runs)
  {
    forall i | 0 <= i < |l.runs| - 1
      ensures !l.runs[i].exceededMaxTime && !TimeExceeded(s, trace[i]) && !ErrorAccepted(s, l.runs[i], i + 1)
    {
      assert !Stops(s, trace, l.runs, i);
    }
  }

  lemma MeasuredRunsAreSnapshots(s: Settings, p: Platform, batchSize: int32, trace: seq<Observation>, l: Loop)
    requires Recorded(s, p, batchSize, trace, l)
    ensures forall i :: 0 <= i < |l.runs| ==>
              CalculateRunStatistics(s, p, TicksOf(trace[..i + 1]), batchSize) == Success(l.runs[i].(exceededMaxTime := false))
  {
    forall i | 0 <= i < |l.runs|
      ensures CalculateRunStatistics(s, p, TicksOf(trace[..i + 1]), batchSize) == Success(l.runs[i].(exceededMaxTime := false))
    {
      assert TicksOf(trace[..i + 1]) == l.runTicks[..i + 1];
    }
  }

  /** Measuring one callable as the engine does it: calibrate, then run the measuring loop. */
  method RunAction(s: Settings, p: Platform, name: string, trace: ActionTrace) returns (r: Outcome<Result>)
    ensures r == Measure(s, p, name, trace)
  {
    var calibration := CalculateBatchSize(s, trace.clock);
    if calibration.Failure? {
      return Failure(calibration.fault);
    }
    var runs := MeasuringLoop(s, p, calibration.value.batchSize, trace.batches);
    if runs.Failure? {
      return Failure(runs.fault);
    }
    r := Success(Result(name, calibration.value.batchSize, calibration.value.batchTime, runs.value));
  }

  /**
   * The measuring loop as the engine writes it: time batches while the error is too large or
   * fewer than three batches were timed, testing the time ceiling after each.
   */
  method MeasuringLoop(s: Settings, p: Platform, batchSize: int32, batches: seq<Observation>) returns (r: Outcome<seq<Run>>)
    ensures r == MeasureRuns(s, p, batchSize, batches)
  {
    ghost var goal := Converge(s, p, batchSize, batches, Start);
    // The error starts above every threshold, so the first test of the guard always enters the loop.
    var accepted := false;
    var runTicks: seq<pos> := [];
    var runs: seq<Run> := [];
    while !accepted || |runTicks| <= 2
      invariant |runTicks| == |runs| <= |batches|
      invariant accepted ==> |runs| > 0 && Accepts(runs[|runs| - 1], s.minimumErrorToAccept)
      invariant !(accepted && |runTicks| >= 3) ==> goal == Converge(s, p, batchSize, batches, Loop(Collecting, runTicks, runs))
      invariant accepted && |runTicks| >= 3 ==> goal == Success(Loop(Converged, runTicks, runs))
      decreases |batches| - |runTicks|
    {
      ConvergeUnfolds(s, p, batchSize, batches, Loop(Collecting, runTicks, runs));
      if |runTicks| == |batches| {
        return Failure(TraceExhausted);
      }
      var obs := batches[|runTicks|];
      ghost var step := Step(s, p, batchSize, Loop(Collecting, runTicks, runs), obs);
      StepCases(s, p, batchSize, Loop(Collecting, runTicks, runs), obs);
      runTicks := runTicks + [obs.ticks];
      var statistics := CalculateRunStatistics(s, p, runTicks, batchSize);
      if statistics.Failure? {
        assert step == Failure(statistics.fault);
        return Failure(statistics.fault);
      }
      var run := statistics.value;
      accepted := Accepts(run, s.minimumErrorToAccept);
      if TimeExceeded(s, obs) {
        runs := runs + [run.(exceededMaxTime := true)];
        assert step == Success(Loop(TimedOut, runTicks, runs));
        break;
      }
      runs := runs + [run];
      assert step == Success(Loop(if accepted && |runTicks| >= 3 then Converged else Collecting, runTicks, runs));
    }
    r := Success(runs);
  }
}
