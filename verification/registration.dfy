/**
 * Registering callables and running the benchmark over all of them. A callable is known
 * only by identity; what running it takes is given by its clock trace.
 */
module Registration {
  import opened Faults
  import opened BenchmarkSettings
  import opened RunStatistics
  import opened Measurement
  import opened BenchmarkResults

  datatype Action = Action(id: nat)

  datatype Entry = Entry(action: Action, name: string)

  /** The callables registered so far, in registration order. */
  datatype Benchmark = Benchmark(entries: seq<Entry>)

  const Empty: Benchmark := Benchmark([])

  predicate IsDigit(c: char)
  {
    '0' <= c <= '9'
  }

  /** The decimal numeral of n, without leading zeros. */
  function DecimalString(n: nat): (str: string)
    ensures |str| >= 1 && forall i :: 0 <= i < |str| ==> IsDigit(str[i])
    ensures str[0] == '0' ==> n == 0
  {
    var digit := ['0' + (n % 10) as char];
    if n < 10 then digit else DecimalString(n / 10) + digit
  }

  /** The number a string of decimal digits denotes. */
  function DecimalValue(str: string): nat
    requires forall i :: 0 <= i < |str| ==> IsDigit(str[i])
  {
    if str == [] then 0
    else
      var last := str[|str| - 1];
      assert IsDigit(last);
      DecimalValue(str[..|str| - 1]) * 10 + (last as int - '0' as int)
  }

  /** Reading the numeral back gives the number. */
  lemma {:induction false} DecimalRoundTrip(n: nat)
    ensures DecimalValue(DecimalString(n)) == n
  {
    var str := DecimalString(n);
    if n >= 10 {
      DecimalRoundTrip(n / 10);
      assert str[..|str| - 1] == DecimalString(n / 10);
    }
  }

  /** The label given to the n-th registered callable when none is supplied. */
  function DefaultName(n: nat): string
  {
    "Test " + DecimalString(n)
  }

  /** A default label is "Test " followed by digits that read back as the callable's position. */
  lemma DefaultNameNumbers(n: nat)
    ensures |DefaultName(n)| > 5 && DefaultName(n)[..5] == "Test "
    ensures forall i :: 5 <= i < |DefaultName(n)| ==> IsDigit(DefaultName(n)[i])
    ensures DecimalValue(DefaultName(n)[5..]) == n
  {
    DecimalRoundTrip(n);
    assert DefaultName(n)[5..] == DecimalString(n);
  }

  /** Registers a callable; without a label it is called "Test n", n being its 1-based position. */
  function Add(b: Benchmark, action: Action, name: Option<string>): (r: Benchmark)
    ensures |r.entries| == |b.entries| + 1
    ensures forall k :: 0 <= k < |b.entries| ==> r.entries[k] == b.entries[k]
    ensures r.entries[|b.entries|].action == action
    ensures name.Some? ==> r.entries[|b.entries|].name == name.value
    ensures name.None? ==> r.entries[|b.entries|].name == DefaultName(|r.entries|)
  {
    var given := if name.Some? then name.value else DefaultName(|b.entries| + 1);
    Benchmark(b.entries + [Entry(action, given)])
  }

  /** Unlabelled callables are numbered by position: the k-th added to an empty benchmark is "Test k". */
  lemma {:induction false} UnlabelledAreNumbered(actions: seq<Action>)
    ensures var b := AddAllUnlabelled(Empty, actions);
            && |b.entries| == |actions|
            && forall k :: 0 <= k < |actions| ==> b.entries[k] == Entry(actions[k], DefaultName(k + 1))
  {
    if actions != [] {
      var front := actions[..|actions| - 1];
      UnlabelledAreNumbered(front);
      var before := AddAllUnlabelled(Empty, front);
      var after := AddAllUnlabelled(Empty, actions);
      assert after == Add(before, actions[|actions| - 1], None);
      forall k | 0 <= k < |actions|
        ensures after.entries[k] == Entry(actions[k], DefaultName(k + 1))
      {
        if k < |front| {
          assert after.entries[k] == before.entries[k];
          assert actions[k] == front[k];
        } else {
          assert k == |before.entries| && k + 1 == |after.entries|;
        }
      }
    }
  }

  function AddAllUnlabelled(b: Benchmark, actions: seq<Action>): Benchmark
  {
    if actions == [] then b
    else Add(AddAllUnlabelled(b, actions[..|actions| - 1]), actions[|actions| - 1], None)
  }

  /** The measurement of each registered entry on its own trace, in registration order. */
  function Outcomes(s: Settings, p: Platform, entries: seq<Entry>, traces: seq<ActionTrace>): (os: seq<Outcome<Result>>)
    requires |entries| == |traces|
    ensures |os| == |entries|
    ensures forall i :: 0 <= i < |entries| ==> os[i] == Measure(s, p, entries[i].name, traces[i])
  {
    seq(|entries|, i requires 0 <= i < |entries| => Measure(s, p, entries[i].name, traces[i]))
  }

  /**
   * Running measurements in order: all their results, or the fault of the first one that
   * fails. Nothing after a failure counts.
   */
  function Collect<T>(outcomes: seq<Outcome<T>>): (r: Outcome<seq<T>>)
    ensures r.Success? ==> |r.value| == |outcomes|
  {
    if outcomes == [] then Success([])
    else
      var n := |outcomes| - 1;
      match Collect(outcomes[..n])
      case Failure(f) => Failure(f)
      case Success(values) =>
        match outcomes[n]
        case Failure(f) => Failure(f)
        case Success(v) => Success(values + [v])
  }

  /** Collecting one more outcome extends the prefix's result by it. */
  lemma CollectExtends<T>(outcomes: seq<Outcome<T>>, k: nat)
    requires k < |outcomes|
    ensures var prefix := Collect(outcomes[..k]);
            Collect(outcomes[..k + 1])
            == if prefix.Failure? then prefix
               else if outcomes[k].Failure? then Failure(outcomes[k].fault)
               else Success(prefix.value + [outcomes[k].value])
  {
    assert outcomes[..k + 1][..k] == outcomes[..k];
  }

  /** Once a prefix fails, collecting more outcomes keeps its fault. */
  lemma {:induction false} FailureIsFinal<T>(outcomes: seq<Outcome<T>>, k: nat)
    requires k <= |outcomes| && Collect(outcomes[..k]).Failure?
    ensures Collect(outcomes) == Collect(outcomes[..k])
    decreases |outcomes| - k
  {
    if k < |outcomes| {
      CollectExtends(outcomes, k);
      FailureIsFinal(outcomes, k + 1);
    } else {
      assert outcomes[..k] == outcomes;
    }
  }

  /** A successful collection holds, at every position, that position's own value. */
  lemma {:induction false} CollectAt<T>(outcomes: seq<Outcome<T>>, k: nat)
    requires k < |outcomes| && Collect(outcomes).Success?
    ensures outcomes[k] == Success(Collect(outcomes).value[k])
    decreases |outcomes|
  {
    var n := |outcomes| - 1;
    CollectExtends(outcomes, n);
    assert outcomes[..n + 1] == outcomes;
    if k < n {
      CollectAt(outcomes[..n], k);
    }
  }

  /** A failed collection failed at some position, after a successful prefix, with that position's fault. */
  lemma {:induction false} CollectFailsAt<T>(outcomes: seq<Outcome<T>>)
    requires Collect(outcomes).Failure?
    ensures exists k :: 0 <= k < |outcomes| && Collect(outcomes[..k]).Success?
                        && outcomes[k] == Failure(Collect(outcomes).fault)
    decreases |outcomes|
  {
    var n := |outcomes| - 1;
    if Collect(outcomes[..n]).Failure? {
      CollectFailsAt(outcomes[..n]);
      var k :| 0 <= k < n && Collect(outcomes[..n][..k]).Success?
               && outcomes[..n][k] == Failure(Collect(outcomes[..n]).fault);
      assert outcomes[..n][..k] == outcomes[..k];
    } else {
      assert Collect(outcomes[..n]).Success? && outcomes[n] == Failure(Collect(outcomes).fault);
    }
  }

  /**
   * Runs every registered callable in order and collects one result per callable; the first
   * failure aborts the run. traces[i] is what the clocks report while entry i is measured.
   */
  method Run(b: Benchmark, s: Settings, p: Platform, traces: seq<ActionTrace>) returns (r: Outcome<Results>)
    requires |traces| == |b.entries|
    ensures b.entries == [] ==> r == Failure(NoActionsAdded)
    ensures b.entries != [] && r.Success? ==> Success(r.value.results) == Collect(Outcomes(s, p, b.entries, traces))
    ensures b.entries != [] && r.Failure? ==> Failure(r.fault) == Collect(Outcomes(s, p, b.entries, traces))
    ensures r.Success? ==> Length(r.value) == |b.entries| && Final(r.value)
  {
    if |b.entries| == 0 {
      return Failure(NoActionsAdded);
    }
    ghost var outcomes := Outcomes(s, p, b.entries, traces);
    var results: seq<Result> := [];
    while |results| < |b.entries|
      invariant |results| <= |b.entries|
      invariant Collect(outcomes[..|results|]) == Success(results)
    {
      var k := |results|;
      var measured := RunAction(s, p, b.entries[k].name, traces[k]);
      assert measured == outcomes[k];
      CollectExtends(outcomes, k);
      if measured.Failure? {
        FailureIsFinal(outcomes, k + 1);
        return Failure(measured.fault);
      }
      results := results + [measured.value];
    }
    assert outcomes[..|results|] == outcomes;
    MeasuredAreFinal(s, p, b.entries, traces);
    r := Success(Results(results));
  }

  /** A successful run holds, at every position, that entry's own measurement. */
  lemma MeasuredAt(s: Settings, p: Platform, entries: seq<Entry>, traces: seq<ActionTrace>, k: nat)
    requires |entries| == |traces| && k < |entries|
    requires Collect(Outcomes(s, p, entries, traces)).Success?
    ensures Measure(s, p, entries[k].name, traces[k]) == Success(Collect(Outcomes(s, p, entries, traces)).value[k])
  {
    CollectAt(Outcomes(s, p, entries, traces), k);
  }

  /** Every result of a successful run holds at least one run and carries its entry's name. */
  lemma MeasuredAreFinal(s: Settings, p: Platform, entries: seq<Entry>, traces: seq<ActionTrace>)
    requires |entries| == |traces|
    requires Collect(Outcomes(s, p, entries, traces)).Success?
    ensures forall i :: 0 <= i < |entries| ==> Collect(Outcomes(s, p, entries, traces)).value[i].runs != []
    ensures forall i :: 0 <= i < |entries| ==> Collect(Outcomes(s, p, entries, traces)).value[i].name == entries[i].name
  {
    forall i | 0 <= i < |entries|
      ensures Collect(Outcomes(s, p, entries, traces)).value[i].runs != []
      ensures Collect(Outcomes(s, p, entries, traces)).value[i].name == entries[i].name
    {
      MeasuredIsFinal(s, p, entries, traces, i);
    }
  }

  lemma MeasuredIsFinal(s: Settings, p: Platform, entries: seq<Entry>, traces: seq<ActionTrace>, k: nat)
    requires |entries| == |traces| && k < |entries|
    requires Collect(Outcomes(s, p, entries, traces)).Success?
    ensures Collect(Outcomes(s, p, entries, traces)).value[k].runs != []
    ensures Collect(Outcomes(s, p, entries, traces)).value[k].name == entries[k].name
  {
    MeasuredAt(s, p, entries, traces, k);
  }

  /**
   * A failed run failed at some entry: every entry before it measured successfully and that
   * entry's measurement gave the fault.
   */
  lemma MeasuredFailsAt(s: Settings, p: Platform, entries: seq<Entry>, traces: seq<ActionTrace>)
    requires |entries| == |traces|
    requires Collect(Outcomes(s, p, entries, traces)).Failure?
    ensures exists k :: 0 <= k < |entries|
              && (forall j :: 0 <= j < k ==> Measure(s, p, entries[j].name, traces[j]).Success?)
              && Measure(s, p, entries[k].name, traces[k]) == Failure(Collect(Outcomes(s, p, entries, traces)).fault)
  {
    var outcomes := Outcomes(s, p, entries, traces);
    CollectFailsAt(outcomes);
    var k :| 0 <= k < |outcomes| && Collect(outcomes[..k]).Success? && outcomes[k] == Failure(Collect(outcomes).fault);
    forall j | 0 <= j < k
      ensures Measure(s, p, entries[j].name, traces[j]).Success?
    {
      CollectAt(outcomes[..k], j);
      assert outcomes[..k][j] == outcomes[j];
    }
  }
}
