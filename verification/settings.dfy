/** The configuration of a benchmark, as an immutable value with one setter per property. */
module BenchmarkSettings {
  import opened Faults
  import opened Int32

  datatype Settings = Settings(
    initialBatchTime: int32,     // calibration budget, in milliseconds
    minimumErrorToAccept: real,  // relative error (percent) at which a run is accepted
    batchesToWorkAcross: int32,  // length of the trailing window the statistics use
    maxTime: int32,              // hard ceiling on the convergence loop, in milliseconds
    verbose: bool)               // progress output (not modelled further)

  /** The settings a fresh configuration starts with. */
  function Default(): (s: Settings)
    ensures s.initialBatchTime == 500
    ensures s.minimumErrorToAccept == 1.0
    ensures s.batchesToWorkAcross == 10
    ensures s.maxTime == 5000
    ensures !s.verbose
  {
    Settings(500, 1.0, 10, 5000, false)
  }

  function SetInitialBatchTime(s: Settings, value: int32): (r: Settings)
    ensures r.initialBatchTime == value
    ensures r.minimumErrorToAccept == s.minimumErrorToAccept && r.batchesToWorkAcross == s.batchesToWorkAcross
    ensures r.maxTime == s.maxTime && r.verbose == s.verbose
  {
    s.(initialBatchTime := value)
  }

  function SetMinimumErrorToAccept(s: Settings, value: real): (r: Settings)
    ensures r.minimumErrorToAccept == value
    ensures r.initialBatchTime == s.initialBatchTime && r.batchesToWorkAcross == s.batchesToWorkAcross
    ensures r.maxTime == s.maxTime && r.verbose == s.verbose
  {
    s.(minimumErrorToAccept := value)
  }

  function SetMaxTime(s: Settings, value: int32): (r: Settings)
    ensures r.maxTime == value
    ensures r.initialBatchTime == s.initialBatchTime && r.minimumErrorToAccept == s.minimumErrorToAccept
    ensures r.batchesToWorkAcross == s.batchesToWorkAcross && r.verbose == s.verbose
  {
    s.(maxTime := value)
  }

  function SetVerbose(s: Settings, value: bool): (r: Settings)
    ensures r.verbose == value
    ensures r.initialBatchTime == s.initialBatchTime && r.minimumErrorToAccept == s.minimumErrorToAccept
    ensures r.batchesToWorkAcross == s.batchesToWorkAcross && r.maxTime == s.maxTime
  {
    s.(verbose := value)
  }

  /**
   * The guarded setter as written: only values above the t-table length are refused.
   * tableLength is the length of the table of Student's-t critical values.
   */
  function SetBatchesToWorkAcross(s: Settings, value: int32, tableLength: nat): (r: Outcome<Settings>)
    ensures r.Failure? <==> value as int > tableLength
    ensures r.Failure? ==> r.fault == WindowTooLarge
    ensures r.Success? ==> r.value.batchesToWorkAcross == value
    ensures r.Success? ==> r.value == s.(batchesToWorkAcross := r.value.batchesToWorkAcross)
  {
    if value as int > tableLength then Failure(WindowTooLarge) else Success(s.(batchesToWorkAcross := value))
  }

  /** A window size every batch count can index the t-table with, and that never empties the window. */
  predicate WindowFits(s: Settings, tableLength: nat)
  {
    1 <= s.batchesToWorkAcross as int < tableLength
  }

  /** The guard the setter evidently intends: the window must be non-empty and a valid t-table index. */
  function SetBatchesToWorkAcrossChecked(s: Settings, value: int32, tableLength: nat): (r: Outcome<Settings>)
    ensures r.Success? <==> 1 <= value as int < tableLength
    ensures r.Failure? ==> r.fault == (if value < 1 then WindowNotPositive else WindowTooLarge)
    ensures r.Success? ==> WindowFits(r.value, tableLength) && r.value.batchesToWorkAcross == value
    ensures r.Success? ==> r.value == s.(batchesToWorkAcross := r.value.batchesToWorkAcross)
  {
    if value < 1 then Failure(WindowNotPositive)
    else if value as int >= tableLength then Failure(WindowTooLarge)
    else Success(s.(batchesToWorkAcross := value))
  }

  /**
   * The guard as written lets through exactly the values the corrected guard refuses
   * besides those above the table length: the table length itself and every value below 1.
   */
  lemma GuardAdmitsUnusableWindows(s: Settings, value: int32, tableLength: nat)
    ensures SetBatchesToWorkAcross(s, value, tableLength).Success? && !WindowFits(s.(batchesToWorkAcross := value), tableLength)
            <==> value as int == tableLength || value < 1
  {
  }
}
