/**
 * Choosing the batch size: the callable is invoked, and a counter incremented, until the
 * stopwatch reaches the calibration budget. The stopwatch is observed as the sequence of
 * elapsed-millisecond readings taken by the loop guard, one per test.
 */
module BatchCalibration {
  import opened Faults
  import opened Int32
  import opened BenchmarkSettings

  datatype Calibration = Calibration(batchSize: int32, batchTime: int32)

  /**
   * The number of times the calibration loop runs its body: the position of the first reading
   * that reaches the budget, or None when no reading does.
   */
  function Iterations(readings: seq<nat>, budget: int): (k: Option<nat>)
    ensures k.Some? ==> k.value < |readings| && readings[k.value] >= budget
    ensures k.Some? ==> forall j :: 0 <= j < k.value ==> readings[j] < budget
    ensures k.None? ==> forall j :: 0 <= j < |readings| ==> readings[j] < budget
  {
    if readings == [] then None
    else if readings[0] >= budget then Some(0)
    else match Iterations(readings[1..], budget)
      case None => None
      case Some(k) => Some(k + 1)
  }

  /** The outcome of calibration: the wrapped iteration count, and the budget handed back unchanged. */
  function Calibrate(s: Settings, readings: seq<nat>): (r: Outcome<Calibration>)
    ensures r.Failure? <==> forall j :: 0 <= j < |readings| ==> readings[j] < s.initialBatchTime as int
    ensures r.Failure? ==> r.fault == TraceExhausted
    ensures r.Success? ==> r.value.batchTime == s.initialBatchTime
    ensures s.initialBatchTime <= 0 && readings != [] ==> r == Success(Calibration(0, s.initialBatchTime))
  {
    match Iterations(readings, s.initialBatchTime as int)
    case None => Failure(TraceExhausted)
    case Some(k) => Success(Calibration(Wrap(k), s.initialBatchTime))
  }

  /** The counting loop itself, one clock reading per test of its guard. */
  method CalculateBatchSize(s: Settings, readings: seq<nat>) returns (r: Outcome<Calibration>)
    ensures r == Calibrate(s, readings)
    ensures r.Success? ==> exists k :: 0 <= k < |readings| && r.value.batchSize == Wrap(k)
                                       && readings[k] >= s.initialBatchTime as int
                                       && forall j :: 0 <= j < k ==> readings[j] < s.initialBatchTime as int
  {
    var count: int32 := 0;
    var i := 0;
    while true
      invariant 0 <= i <= |readings|
      invariant forall j :: 0 <= j < i ==> readings[j] < s.initialBatchTime as int
      invariant count == Wrap(i)
      decreases |readings| - i
    {
      if i == |readings| {
        return Failure(TraceExhausted);
      }
      if readings[i] >= s.initialBatchTime as int {
        break;
      }
      WrapSucc(i);
      count := Wrap(count as int + 1);
      i := i + 1;
    }
    r := Success(Calibration(count, s.initialBatchTime));
  }
}
