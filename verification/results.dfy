/**
 * The results of a benchmark: an indexable sequence of per-callable results, and the summary
 * table that ranks them against the fastest. Console formatting is not modelled; a row keeps
 * the values the table shows.
 */
module BenchmarkResults {
  import opened Faults
  import opened RealFacts
  import opened RunStatistics
  import opened Measurement

  datatype Results = Results(results: seq<Result>)

  /** The number of results: exactly the positions the indexer accepts. */
  function Length(rs: Results): (n: nat)
    ensures forall i :: At(rs, i).Success? <==> 0 <= i < n
  {
    |rs.results|
  }

  /** The indexer: the i-th result, in the order the callables were registered. */
  function At(rs: Results, i: int): (r: Outcome<Result>)
    ensures r.Success? <==> 0 <= i < |rs.results|
    ensures r.Success? ==> r.value == rs.results[i]
    ensures r.Failure? ==> r.fault == ResultIndexOutOfRange
  {
    if 0 <= i < |rs.results| then Success(rs.results[i]) else Failure(ResultIndexOutOfRange)
  }

  /** Every result has at least one run, whose last one gives its final figures. */
  predicate Final(rs: Results)
  {
    forall i :: 0 <= i < |rs.results| ==> rs.results[i].runs != []
  }

  function FinalRun(r: Result): Run
    requires r.runs != []
  {
    r.runs[|r.runs| - 1]
  }

  /** The final operations per second of every result, in order. */
  function Speeds(rs: Results): (ops: seq<real>)
    requires Final(rs)
    ensures |ops| == |rs.results|
    ensures forall i :: 0 <= i < |ops| ==> ops[i] == FinalRun(rs.results[i]).operationsPerSecond
  {
    seq(|rs.results|, i requires 0 <= i < |rs.results| => FinalRun(rs.results[i]).operationsPerSecond)
  }

  /**
   * The position of the fastest result as a stable ascending sort by speed followed by taking
   * the last element picks it: a maximum, and the last of several equal maxima.
   */
  function Fastest(ops: seq<real>): (k: nat)
    requires ops != []
    ensures k < |ops|
    ensures forall j :: 0 <= j < |ops| ==> ops[j] <= ops[k]
    ensures forall j :: k < j < |ops| ==> ops[j] < ops[k]
  {
    if |ops| == 1 then 0
    else
      var k := Fastest(ops[..|ops| - 1]);
      if ops[|ops| - 1] >= ops[k] then |ops| - 1 else k
  }

  /** A quotient of doubles: dividing by zero gives an infinity or NaN, which is not a finite value. */
  datatype Ratio = Finite(value: real) | NotFinite

  function Slowdown(fastest: real, ops: real): Ratio
  {
    if ops == 0.0 then NotFinite else Finite(fastest / ops)
  }

  /** One line of the summary: label, run count, ops/sec, squared error percent, times slower. */
  datatype Row = Row(name: string, runCount: nat, operationsPerSecond: real, errorSquared: real, slowdown: Ratio)

  /**
   * The summary: its rows, the width of the label column, the row the engine highlights
   * (fastestRow), and the row holding the fastest result (baselineRow).
   */
  datatype Table = Table(rows: seq<Row>, longestLabel: nat, fastestRow: nat, baselineRow: nat)

  function RowOf(r: Result, fastest: real): Row
    requires r.runs != []
  {
    Row(r.name, |r.runs|, FinalRun(r).operationsPerSecond, FinalRun(r).errorSquared,
        Slowdown(fastest, FinalRun(r).operationsPerSecond))
  }

  /** One row per result, in result order, each compared with the fastest. */
  function Rows(rs: Results): (rows: seq<Row>)
    requires Final(rs) && rs.results != []
    ensures |rows| == |rs.results|
    ensures forall i :: 0 <= i < |rows| ==> rows[i].name == rs.results[i].name && rows[i].runCount == |rs.results[i].runs|
    ensures forall i :: 0 <= i < |rows| ==>
              && rows[i].operationsPerSecond == Speeds(rs)[i]
              && rows[i].errorSquared == FinalRun(rs.results[i]).errorSquared
              && rows[i].slowdown == Slowdown(Speeds(rs)[Fastest(Speeds(rs))], Speeds(rs)[i])
  {
    var fastest := Speeds(rs)[Fastest(Speeds(rs))];
    seq(|rs.results|, i requires 0 <= i < |rs.results| => RowOf(rs.results[i], fastest))
  }

  /** The longest label, or 0 when there are none. */
  function LongestName(results: seq<Result>): (n: nat)
    ensures forall i :: 0 <= i < |results| ==> |results[i].name| <= n
    ensures results == [] ==> n == 0
  {
    LongestNameAmong(results, |results|)
  }

  /** The longest of the first n labels. */
  function LongestNameAmong(results: seq<Result>, n: nat): (m: nat)
    requires n <= |results|
    ensures forall i :: 0 <= i < n ==> |results[i].name| <= m
    ensures n == 0 ==> m == 0
  {
    if n == 0 then 0
    else
      var m := LongestNameAmong(results, n - 1);
      var last := |results[n - 1].name|;
      if last > m then last else m
  }

  /** The longest label is the length of some label. */
  lemma LongestNameIsAttained(results: seq<Result>)
    requires results != []
    ensures exists i :: 0 <= i < |results| && |results[i].name| == LongestName(results)
  {
    LongestNameAmongIsAttained(results, |results|);
  }

  lemma {:induction false} LongestNameAmongIsAttained(results: seq<Result>, n: nat)
    requires 1 <= n <= |results|
    ensures exists i :: 0 <= i < n && |results[i].name| == LongestNameAmong(results, n)
  {
    if n > 1 && LongestNameAmong(results, n - 1) >= |results[n - 1].name| {
      LongestNameAmongIsAttained(results, n - 1);
    } else {
      assert |results[n - 1].name| == LongestNameAmong(results, n);
    }
  }

  /** The highlighted row as the engine computes it: the last row whose slowdown is exactly 0, else row 0. */
  function ZeroSlowdownRow(rows: seq<Row>): (k: nat)
    ensures k < |rows| || k == 0
    ensures k > 0 ==> rows[k].slowdown == Finite(0.0) && forall j :: k < j < |rows| ==> rows[j].slowdown != Finite(0.0)
    ensures k == 0 ==> forall j :: 0 < j < |rows| ==> rows[j].slowdown != Finite(0.0)
  {
    if rows == [] then 0
    else if rows[|rows| - 1].slowdown == Finite(0.0) then |rows| - 1
    else ZeroSlowdownRow(rows[..|rows| - 1])
  }

  lemma ZeroSlowdownRowStep(rows: seq<Row>, row: Row)
    ensures ZeroSlowdownRow(rows + [row])
         == if row.slowdown == Finite(0.0) then |rows| else ZeroSlowdownRow(rows)
  {
    assert (rows + [row])[..|rows|] == rows;
  }

  /** The summary table the engine prints, without the printing. */
  method Print(rs: Results) returns (t: Outcome<Table>)
    requires Final(rs)
    ensures t.Failure? <==> rs.results == []
    ensures t.Failure? ==> t.fault == NoResults
    ensures t.Success? ==> t.value.rows == Rows(rs)
    ensures t.Success? ==> t.value.longestLabel == LongestName(rs.results)
    ensures t.Success? ==> t.value.fastestRow == ZeroSlowdownRow(t.value.rows)
    ensures t.Success? ==> t.value.baselineRow == Fastest(Speeds(rs))
  {
    if rs.results == [] {
      return Failure(NoResults);
    }
    var speeds := Speeds(rs);
    var baseline := Fastest(speeds);
    var fastest := speeds[baseline];
    var rows: seq<Row> := [];
    var longestLabel := 0;
    var fastestRow := 0;
    while |rows| < |rs.results|
      invariant |rows| <= |rs.results|
      invariant forall j :: 0 <= j < |rows| ==> rows[j] == RowOf(rs.results[j], fastest)
      invariant longestLabel == LongestNameAmong(rs.results, |rows|)
      invariant fastestRow == ZeroSlowdownRow(rows)
    {
      var result := rs.results[|rows|];
      var row := RowOf(result, fastest);
      PrintStep(rs, fastest, rows, longestLabel, fastestRow);
      longestLabel := if |result.name| > longestLabel then |result.name| else longestLabel;
      rows := rows + [row];
      fastestRow := if row.slowdown == Finite(0.0) then |rows| - 1 else fastestRow;
    }
    RowsAreRowOf(rs, rows);
    t := Success(Table(rows, longestLabel, fastestRow, baseline));
  }

  /** One pass of the summary loop keeps the three accumulators in step with the rows so far. */
  lemma PrintStep(rs: Results, fastest: real, rows: seq<Row>, longest: nat, highlighted: nat)
    requires Final(rs) && |rows| < |rs.results|
    requires forall j :: 0 <= j < |rows| ==> rows[j] == RowOf(rs.results[j], fastest)
    requires longest == LongestNameAmong(rs.results, |rows|)
    requires highlighted == ZeroSlowdownRow(rows)
    ensures var result := rs.results[|rows|];
            var row := RowOf(result, fastest);
            var longer := rows + [row];
            && (forall j :: 0 <= j < |longer| ==> longer[j] == RowOf(rs.results[j], fastest))
            && (if |result.name| > longest then |result.name| else longest) == LongestNameAmong(rs.results, |longer|)
            && (if row.slowdown == Finite(0.0) then |longer| - 1 else highlighted) == ZeroSlowdownRow(longer)
  {
    var row := RowOf(rs.results[|rows|], fastest);
    ZeroSlowdownRowStep(rows, row);
  }

  lemma RowsAreRowOf(rs: Results, rows: seq<Row>)
    requires Final(rs) && rs.results != [] && |rows| == |rs.results|
    requires forall j :: 0 <= j < |rows| ==> rows[j] == RowOf(rs.results[j], Speeds(rs)[Fastest(Speeds(rs))])
    ensures rows == Rows(rs)
  {
  }

  /**
   * With non-negative speeds no slowdown is exactly zero, so the engine's highlighted row is
   * always the first one, whichever result is fastest.
   */
  lemma HighlightIsAlwaysFirstRow(rs: Results)
    requires Final(rs) && rs.results != []
    requires forall i :: 0 <= i < |rs.results| ==> FinalRun(rs.results[i]).operationsPerSecond >= 0.0
    ensures ZeroSlowdownRow(Rows(rs)) == 0
  {
    var speeds := Speeds(rs);
    var fastest := speeds[Fastest(speeds)];
    var rows := Rows(rs);
    forall j | 0 <= j < |rows|
      ensures rows[j].slowdown != Finite(0.0)
    {
      var ops := speeds[j];
      if ops != 0.0 {
        assert ops > 0.0 && fastest >= ops;
        QuotientPositive(fastest, ops);
      }
    }
  }

  /** Two results where the second is faster: the engine highlights the first, the fastest is the second. */
  lemma HighlightMissesTheFastest()
    ensures var rs := Results([Example("slow", 1.0), Example("fast", 2.0)]);
            && Final(rs)
            && ZeroSlowdownRow(Rows(rs)) == 0
            && Fastest(Speeds(rs)) == 1
  {
    var rs := Results([Example("slow", 1.0), Example("fast", 2.0)]);
    assert Speeds(rs) == [1.0, 2.0];
    HighlightIsAlwaysFirstRow(rs);
  }

  function Example(name: string, ops: real): Result
  {
    Result(name, 1, 500, [Run(1.0, 0.0, 1, 1.0, 0.0, ops, 1, false)])
  }

  /**
   * The corrected highlight, the baseline row: its slowdown is exactly 1, and every result's
   * slowdown is at least 1 when all speeds are positive, above 1 for a strictly slower one.
   */
  lemma BaselineRowIsFastest(rs: Results)
    requires Final(rs) && rs.results != []
    requires forall i :: 0 <= i < |rs.results| ==> FinalRun(rs.results[i]).operationsPerSecond > 0.0
    ensures var k := Fastest(Speeds(rs));
            var rows := Rows(rs);
            && rows[k].slowdown == Finite(1.0)
            && (forall i :: 0 <= i < |rows| ==> rows[i].slowdown.Finite? && rows[i].slowdown.value >= 1.0)
            && (forall i :: 0 <= i < |rows| && rows[i].operationsPerSecond < rows[k].operationsPerSecond ==>
                  rows[i].slowdown.value > 1.0)
  {
    var speeds := Speeds(rs);
    var k := Fastest(speeds);
    var fastest := speeds[k];
    var rows := Rows(rs);
    forall i | 0 <= i < |rows|
      ensures rows[i].operationsPerSecond == speeds[i]
      ensures rows[i].slowdown == Slowdown(fastest, speeds[i])
    {
      assert rows[i] == RowOf(rs.results[i], fastest);
    }
    forall i | 0 <= i < |rows|
      ensures rows[i].slowdown.Finite? && rows[i].slowdown.value >= 1.0
      ensures speeds[i] < fastest ==> rows[i].slowdown.value > 1.0
    {
      SlowdownAtLeastOne(fastest, speeds[i]);
    }
    SlowdownOfItself(fastest);
  }

  lemma SlowdownAtLeastOne(fastest: real, ops: real)
    requires fastest >= ops > 0.0
    ensures Slowdown(fastest, ops).Finite? && Slowdown(fastest, ops).value >= 1.0
    ensures ops < fastest ==> Slowdown(fastest, ops).value > 1.0
  {
    RatioAtLeastOne(fastest, ops);
  }

  lemma SlowdownOfItself(ops: real)
    requires ops > 0.0
    ensures Slowdown(ops, ops) == Finite(1.0)
  {
  }
}
