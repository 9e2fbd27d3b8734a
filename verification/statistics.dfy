/**
 * The statistics computed after every batch: a trailing window of batch timings, its mean and
 * population variance, a Student's-t critical value, the relative error and operations per second.
 * Everything is exact real arithmetic; square roots are never taken (see RelativeErrorSquared).
 */
module RunStatistics {
  import opened Faults
  import opened Int32
  import opened BenchmarkSettings
  import opened RealFacts

  /** A batch timing in stopwatch ticks; a batch always takes some time. */
  type pos = x: int | x > 0 witness 1

  /** What the engine reads from the platform: the t-table and the stopwatch frequency (ticks per second). */
  datatype Platform = Platform(tTable: seq<real>, frequency: pos)

  /**
   * The snapshot taken after one batch. The standard deviation is the square root of variance,
   * and the relative error percent is the non-negative root of errorSquared.
   */
  datatype Run = Run(
    meanTicks: real,
    variance: real,
    windowLength: nat,
    criticalValue: real,
    errorSquared: real,
    operationsPerSecond: real,
    ticks: pos,
    exceededMaxTime: bool)

  /**
   * The timings the statistics use: the history with its first max(0, count - w) entries
   * skipped, the subtraction being 32-bit and wrapping. Without overflow that is the last
   * min(w, count) timings, and nothing when w <= 0; a subtraction that overflows wraps to a
   * negative skip and keeps the whole history.
   */
  function Window(values: seq<pos>, w: int32): (win: seq<pos>)
    ensures |win| <= |values| && win == values[|values| - |win|..]
    ensures values != [] ==> (win == [] <==> w <= 0 && InRange(|values| - w as int))
    ensures InRange(|values| - w as int) && w >= 1 ==> |win| == Min(w as int, |values|)
    ensures !InRange(|values| - w as int) && |values| < -MIN ==> win == values
  {
    var n := |values| - w as int;
    var skip := Max(0, Wrap(n) as int);
    assert n >= 0 ==> skip <= n && (-MIN <= n < MODULUS ==> skip == 0) by {
      if n >= 0 { WrapNonNegative(n); }
    }
    if skip >= |values| then [] else values[skip..]
  }

  function Sum(xs: seq<pos>): (s: real)
    ensures s >= |xs| as real
  {
    if xs == [] then 0.0 else xs[0] as real + Sum(xs[1..])
  }

  function Mean(xs: seq<pos>): (m: real)
    requires xs != []
    ensures m >= 1.0
  {
    Sum(xs) / |xs| as real
  }

  /** The sum of squared deviations of xs from m. */
  function SumSquaredDeviations(xs: seq<pos>, m: real): (s: real)
    ensures s >= 0.0
  {
    if xs == [] then 0.0
    else (xs[0] as real - m) * (xs[0] as real - m) + SumSquaredDeviations(xs[1..], m)
  }

  /** The mean squared deviation of a window from its mean. */
  function Variance(xs: seq<pos>): (v: real)
    requires xs != []
    ensures v >= 0.0
  {
    SumSquaredDeviations(xs, Mean(xs)) / |xs| as real
  }

  function Milliseconds(ticks: pos, frequency: pos): (ms: real)
    ensures ms > 0.0
    ensures ms * frequency as real == ticks as real * 1000.0
  {
    var seconds := ticks as real / frequency as real;
    assert seconds * frequency as real == ticks as real;
    QuotientPositive(ticks as real, frequency as real);
    MulPositive(seconds, 1000.0, seconds * 1000.0);
    seconds * 1000.0
  }

  /** Operations per second from one batch: the batch size scaled by how many such batches fit in a second. */
  function OperationsPerSecond(batchSize: int32, ticks: pos, frequency: pos): (ops: real)
    ensures ops * Milliseconds(ticks, frequency) == batchSize as real * 1000.0
    ensures batchSize > 0 ==> ops > 0.0
    ensures batchSize == 0 ==> ops == 0.0
    ensures batchSize < 0 ==> ops < 0.0
  {
    var ms := Milliseconds(ticks, frequency);
    var perSecond := 1000.0 / ms;
    QuotientPositive(1000.0, ms);
    assert perSecond * ms == 1000.0;
    SignOfProduct(batchSize as real, perSecond);
    batchSize as real * perSecond
  }

  /**
   * The square of max((sqrt(variance) / sqrt(n)) * t / mean * 100, 0). When t <= 0 the
   * standard error is not positive and the clamp makes the error zero.
   */
  function ErrorSquared(variance: real, n: nat, t: real, mean: real): (e: real)
    requires variance >= 0.0 && n >= 1 && mean > 0.0
    ensures e >= 0.0
  {
    if t <= 0.0 then 0.0
    else
      var t2 := t * t;
      SquareZero(t);
      var num := variance * t2 * 10000.0;
      MulNonNegative(variance, t2);
      MulNonNegative(variance * t2, 10000.0);
      var m2 := mean * mean;
      MulPositive(mean, mean, mean * mean);
      var den := n as real * m2;
      MulPositive(n as real, m2, (n as real) * m2);
      QuotientNonNegative(num, den, num / den);
      num / den
  }

  /** Whether the relative error of a run is at most the threshold, decided on its square. */
  predicate Accepts(run: Run, threshold: real)
  {
    threshold >= 0.0 && run.errorSquared <= threshold * threshold
  }

  /**
   * The statistics after a batch. values is the whole tick history, oldest first; its last
   * element is the batch just timed.
   */
  function CalculateRunStatistics(s: Settings, platform: Platform, values: seq<pos>, batchSize: int32): (r: Outcome<Run>)
    requires values != []
    ensures var w := s.batchesToWorkAcross as int;
            r.Failure? <==> (w <= 0 && InRange(|values| - w)) || !(0 <= Min(w, |values|) < |platform.tTable|)
    ensures var w := s.batchesToWorkAcross as int;
            r.Failure? ==> r.fault == (if w <= 0 && InRange(|values| - w) then EmptyWindow else CriticalValueOutOfRange)
    ensures |values| < -MIN ==>
              (r.Failure? <==> s.batchesToWorkAcross <= 0 || Min(s.batchesToWorkAcross as int, |values|) >= |platform.tTable|)
    ensures r.Success? ==>
              && r.value.ticks == values[|values| - 1]
              && !r.value.exceededMaxTime
              && 1 <= r.value.windowLength <= |values|
              && r.value.criticalValue == platform.tTable[Min(s.batchesToWorkAcross as int, |values|)]
              && r.value.meanTicks == Mean(values[|values| - r.value.windowLength..])
              && r.value.variance == Variance(values[|values| - r.value.windowLength..])
              && r.value.errorSquared
                 == ErrorSquared(r.value.variance, r.value.windowLength, r.value.criticalValue, r.value.meanTicks)
              && r.value.operationsPerSecond == OperationsPerSecond(batchSize, values[|values| - 1], platform.frequency)
    ensures r.Success? && InRange(|values| - s.batchesToWorkAcross as int) ==>
              r.value.windowLength == Min(s.batchesToWorkAcross as int, |values|) <= s.batchesToWorkAcross as int
  {
    var window := Window(values, s.batchesToWorkAcross);
    if window == [] then Failure(EmptyWindow)
    else
      var index := Min(s.batchesToWorkAcross as int, |values|);
      if index < 0 || index >= |platform.tTable| then Failure(CriticalValueOutOfRange)
      else
        var run := Snapshot(window, values[|values| - 1], batchSize, platform.tTable[index], platform.frequency);
        assert values[|values| - run.windowLength..] == window;
        Success(run)
  }

  /** The snapshot of one non-empty window, with the critical value t for its length. */
  function Snapshot(window: seq<pos>, ticks: pos, batchSize: int32, t: real, frequency: pos): (run: Run)
    requires window != []
    ensures run.meanTicks == Mean(window) && run.variance == Variance(window) && run.windowLength == |window|
    ensures run.criticalValue == t && run.ticks == ticks && !run.exceededMaxTime
    ensures run.variance >= 0.0 && run.errorSquared == ErrorSquared(run.variance, |window|, t, run.meanTicks)
    ensures run.operationsPerSecond == OperationsPerSecond(batchSize, ticks, frequency)
  {
    var mean := Mean(window);
    var variance := Variance(window);
    Run(mean, variance, |window|, t, ErrorSquared(variance, |window|, t, mean),
        OperationsPerSecond(batchSize, ticks, frequency), ticks, false)
  }

  /** Each timing in a window lies between lo and hi, so its sum lies between |xs| copies of lo and of hi. */
  lemma {:induction false} SumBounds(xs: seq<pos>, lo: real, hi: real)
    requires forall i :: 0 <= i < |xs| ==> lo <= xs[i] as real <= hi
    ensures Repeat(|xs|, lo) <= Sum(xs) <= Repeat(|xs|, hi)
  {
    if xs != [] {
      var rest := xs[1..];
      forall i | 0 <= i < |rest|
        ensures lo <= rest[i] as real <= hi
      {
        assert rest[i] == xs[i + 1];
      }
      SumBounds(rest, lo, hi);
      assert lo <= xs[0] as real <= hi;
    }
  }

  /** The mean lies between the smallest and the largest timing in the window. */
  lemma MeanWithinRange(xs: seq<pos>, lo: real, hi: real)
    requires xs != []
    requires forall i :: 0 <= i < |xs| ==> lo <= xs[i] as real <= hi
    ensures lo <= Mean(xs) <= hi
  {
    SumBounds(xs, lo, hi);
    QuotientBetween(Sum(xs), |xs|, lo, hi);
  }

  /** The squared deviations sum to zero exactly when every timing equals m. */
  lemma SumSquaredDeviationsZero(xs: seq<pos>, m: real)
    ensures SumSquaredDeviations(xs, m) == 0.0 <==> forall i :: 0 <= i < |xs| ==> xs[i] as real == m
  {
    if forall i :: 0 <= i < |xs| ==> xs[i] as real == m {
      ConstantHasNoDeviation(xs, m);
    }
    if SumSquaredDeviations(xs, m) == 0.0 {
      NoDeviationIsConstant(xs, m);
    }
  }

  lemma {:induction false} ConstantHasNoDeviation(xs: seq<pos>, m: real)
    requires forall i :: 0 <= i < |xs| ==> xs[i] as real == m
    ensures SumSquaredDeviations(xs, m) == 0.0
  {
    if xs != [] {
      var rest := xs[1..];
      forall i | 0 <= i < |rest|
        ensures rest[i] as real == m
      {
        assert rest[i] == xs[i + 1];
      }
      ConstantHasNoDeviation(rest, m);
      var d := xs[0] as real - m;
      assert d == 0.0;
      SquareZero(d);
    }
  }

  lemma {:induction false} NoDeviationIsConstant(xs: seq<pos>, m: real)
    requires SumSquaredDeviations(xs, m) == 0.0
    ensures forall i :: 0 <= i < |xs| ==> xs[i] as real == m
  {
    if xs != [] {
      var rest := xs[1..];
      var d := xs[0] as real - m;
      var square := d * d;
      SquareZero(d);
      assert square + SumSquaredDeviations(rest, m) == 0.0;
      assert square == 0.0;
      NoDeviationIsConstant(rest, m);
      forall i | 0 <= i < |xs|
        ensures xs[i] as real == m
      {
        if i > 0 {
          assert xs[i] == rest[i - 1];
        }
      }
    }
  }

  /** The variance is zero exactly when every timing in the window equals the mean. */
  lemma VarianceZeroIffConstant(xs: seq<pos>)
    requires xs != []
    ensures Variance(xs) == 0.0 <==> forall i :: 0 <= i < |xs| ==> xs[i] as real == Mean(xs)
  {
    SumSquaredDeviationsZero(xs, Mean(xs));
    var n := |xs| as real;
    var v := Variance(xs);
    assert v * n == SumSquaredDeviations(xs, Mean(xs));
    SignOfProduct(v, n);
  }

  /**
   * The timings before the last w do not matter: once at least w batches have been timed,
   * the statistics depend only on the last w of them.
   */
  lemma OlderBatchesIgnored(s: Settings, platform: Platform, older: seq<pos>, recent: seq<pos>, batchSize: int32)
    requires 1 <= s.batchesToWorkAcross as int <= |recent|
    requires |older| + |recent| < -MIN
    ensures Window(older + recent, s.batchesToWorkAcross) == Window(recent, s.batchesToWorkAcross)
    ensures CalculateRunStatistics(s, platform, older + recent, batchSize)
         == CalculateRunStatistics(s, platform, recent, batchSize)
  {
    var w := s.batchesToWorkAcross as int;
    var all := older + recent;
    assert Min(w, |all|) == w == Min(w, |recent|);
    assert all[|all| - w..] == recent[|recent| - w..];
    assert Window(all, s.batchesToWorkAcross) == Window(recent, s.batchesToWorkAcross);
    assert all[|all| - 1] == recent[|recent| - 1];
  }

  /**
   * The squared form is faithful: for the true standard deviation sd and root rootN of the window
   * length, the clamped relative error max(sd / rootN * t / mean * 100, 0) is non-negative and
   * squares to ErrorSquared.
   */
  lemma RelativeErrorSquared(variance: real, n: nat, t: real, mean: real, sd: real, rootN: real)
    requires variance >= 0.0 && n >= 1 && mean > 0.0
    requires sd >= 0.0 && sd * sd == variance
    requires rootN > 0.0 && rootN * rootN == n as real
    ensures var q := sd / rootN * t / mean * 100.0;
            var e := if q >= 0.0 then q else 0.0;
            e >= 0.0 && e * e == ErrorSquared(variance, n, t, mean)
  {
    var q := sd / rootN * t / mean * 100.0;
    var a := sd * t * 100.0;
    var b := rootN * mean;
    assert b > 0.0;
    assert q == a / b;
    if t <= 0.0 {
      assert a <= 0.0 by {
        assert sd * t <= 0.0;
      }
      assert q <= 0.0;
    } else {
      assert a >= 0.0;
      assert q >= 0.0;
      assert q * q == (a * a) / (b * b);
      assert a * a == variance * t * t * 10000.0;
      assert b * b == n as real * mean * mean;
    }
  }

  /** Deciding on the square gives the same answer as comparing the relative error itself. */
  lemma AcceptsIffErrorWithin(run: Run, threshold: real, error: real)
    requires error >= 0.0 && error * error == run.errorSquared
    ensures Accepts(run, threshold) <==> error <= threshold
  {
    if threshold >= 0.0 {
      if error <= threshold {
        MulNonNegative(error, threshold - error);
        MulNonNegative(threshold, threshold - error);
      } else {
        MulPositive(error, error - threshold, error * (error - threshold));
        MulNonNegative(threshold, error - threshold);
      }
    }
  }

  /**
   * The setter as written accepts a window as long as the t-table, and the statistics then fail
   * as soon as that many batches have been timed; it also accepts windows below 1, which fail
   * on the first batch.
   */
  lemma AdmittedWindowFails(s: Settings, platform: Platform, value: int32, values: seq<pos>, batchSize: int32)
    requires values != []
    requires |values| < -MIN
    requires value as int == |platform.tTable| <= |values| || value < 1
    ensures SetBatchesToWorkAcross(s, value, |platform.tTable|).Success?
    ensures var admitted := SetBatchesToWorkAcross(s, value, |platform.tTable|).value;
            CalculateRunStatistics(admitted, platform, values, batchSize)
            == Failure(if value < 1 && InRange(|values| - value as int) then EmptyWindow else CriticalValueOutOfRange)
  {
  }

  /** A concrete instance: a three-entry table, a window of three, and three equal batches. */
  lemma AdmittedWindowFailsExample()
    ensures var platform := Platform([0.0, 12.71, 4.30], 1000);
            var admitted := SetBatchesToWorkAcross(Default(), 3, 3);
            && admitted.Success?
            && CalculateRunStatistics(admitted.value, platform, [5, 5, 5], 1) == Failure(CriticalValueOutOfRange)
  {
    var platform := Platform([0.0, 12.71, 4.30], 1000);
    AdmittedWindowFails(Default(), platform, 3, [5, 5, 5], 1);
  }

  /** A window of at least one batch that has a critical value never fails, whatever the history. */
  lemma FittingWindowSucceeds(s: Settings, platform: Platform, values: seq<pos>, batchSize: int32)
    requires values != []
    ensures WindowFits(s, |platform.tTable|) ==> CalculateRunStatistics(s, platform, values, batchSize).Success?
  {
  }

  /** Under the corrected setter the statistics never fail, whatever the number of batches timed. */
  lemma CheckedWindowNeverFails(s: Settings, platform: Platform, value: int32, values: seq<pos>, batchSize: int32)
    requires values != []
    requires SetBatchesToWorkAcrossChecked(s, value, |platform.tTable|).Success?
    ensures var admitted := SetBatchesToWorkAcrossChecked(s, value, |platform.tTable|).value;
            && CalculateRunStatistics(admitted, platform, values, batchSize).Success?
            && (InRange(|values| - value as int) ==>
                  CalculateRunStatistics(admitted, platform, values, batchSize).value.windowLength == Min(value as int, |values|))
  {
  }
}
