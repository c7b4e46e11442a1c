/** The ML-versus-static comparison of the analysis report: per-metric
    statistics and improvement percentages, the zero-guarded improvement of
    the first-half interval windows, the "which side is better" tally with its
    overall verdict, and the dashboard's bar means and row-normalised heatmap
    matrix. The ML controller's table is `ml`, the static controller's `st`. */
module Comparison {
  import opened Wrappers
  import opened ColumnStats
  import opened Tables

  /** The metrics compared by the statistical comparison, the performance
      report and the dashboard, in declaration order. */
  const ComparisonMetrics: seq<string> := [TotalVehicles, VehiclesWaiting]

  predicate InBoth(metric: string, ml: Table, st: Table)
  {
    metric in ml.columns && metric in st.columns
  }

  /** `(static - ml) / static * 100`. Division by a zero static mean and a
      missing mean give NaN or an infinity in the script: here no value. */
  function RawImprovement(mlMean: Option<real>, staticMean: Option<real>): (r: Option<real>)
    ensures r.Some? <==> mlMean.Some? && staticMean.Some? && staticMean.value != 0.0
    ensures r.Some? ==> r.value * staticMean.value == 100.0 * (staticMean.value - mlMean.value)
  {
    if mlMean.None? || staticMean.None? || staticMean.value == 0.0 then None
    else Some((staticMean.value - mlMean.value) / staticMean.value * 100.0)
  }

  function Negate(x: Option<real>): Option<real>
  {
    if x.Some? then Some(x.value * -1.0) else None
  }

  /** The improvement percentage of the statistical comparison; it has no zero
      guard, and only `TotalVehicles` (higher is better) has its sign flipped. */
  function Improvement(metric: string, mlMean: Option<real>, staticMean: Option<real>): (r: Option<real>)
    ensures r.Some? <==> mlMean.Some? && staticMean.Some? && staticMean.value != 0.0
    ensures r.Some? && metric == TotalVehicles ==>
      r.value * staticMean.value == 100.0 * (mlMean.value - staticMean.value)
    ensures r.Some? && metric != TotalVehicles ==>
      r.value * staticMean.value == 100.0 * (staticMean.value - mlMean.value)
  {
    var raw := RawImprovement(mlMean, staticMean);
    if metric == TotalVehicles then Negate(raw) else raw
  }

  /** Which controller a comparison favours. */
  datatype Side = MlAgentSide | StaticSide

  /** The label printed beside an improvement: "ML better" exactly when it is
      positive; a NaN improvement compares false and reads "Static better". */
  function ImprovementLabel(improvement: Option<real>): Side
  {
    if improvement.Some? && improvement.value > 0.0 then MlAgentSide else StaticSide
  }

  lemma PositiveProduct(r: real, s: real)
    requires s > 0.0
    ensures r > 0.0 <==> r * s > 0.0
  {
    if r > 0.0 {
      assert r * s > 0.0;
    } else {
      assert r * s <= 0.0;
    }
  }

  /** With a positive static mean, an improvement is labelled "ML better"
      exactly when the ML mean is lower, or higher for `TotalVehicles`. */
  lemma {:induction false} ImprovementLabelMeaning(metric: string, m: real, s: real)
    requires s > 0.0
    ensures ImprovementLabel(Improvement(metric, Some(m), Some(s))) == MlAgentSide <==>
      (if metric == TotalVehicles then m > s else m < s)
  {
    var r := Improvement(metric, Some(m), Some(s));
    PositiveProduct(r.value, s);
  }

  /** Swapping the two controllers does not in general negate the
      improvement: the divisor changes with the roles. */
  lemma RoleSwapIsNotNegation()
    ensures Improvement(VehiclesWaiting, Some(1.0), Some(2.0)) == Some(50.0)
    ensures Improvement(VehiclesWaiting, Some(2.0), Some(1.0)) == Some(-100.0)
  {
  }

  /** The sign flip is applied exactly once and only to `TotalVehicles`:
      every other metric gets the percentage of `VehiclesWaiting`, and
      `TotalVehicles` gets its negation. */
  lemma {:induction false} SignFlippedOnlyForTotalVehicles(metric: string, m: Option<real>, s: Option<real>)
    ensures metric != TotalVehicles ==> Improvement(metric, m, s) == Improvement(VehiclesWaiting, m, s)
    ensures Improvement(TotalVehicles, m, s) == Negate(Improvement(VehiclesWaiting, m, s))
    ensures Negate(Improvement(TotalVehicles, m, s)) == Improvement(VehiclesWaiting, m, s)
  {
    var raw := RawImprovement(m, s);
    assert TotalVehicles != VehiclesWaiting;
    if raw.Some? {
      assert raw.value * -1.0 * -1.0 == raw.value;
    }
  }

  // ----- statistical comparison -----

  /** One row of the summary table; the standard deviations are not modelled. */
  datatype SummaryRow = SummaryRow(
    metric: string,
    mlStats: Option<Summary>,
    staticStats: Option<Summary>,
    improvement: Option<real>)

  function MeanOfSummary(s: Option<Summary>): Option<real>
  {
    if s.Some? then Some(s.value.mean) else None
  }

  /** The row for one metric present in both tables: statistics over the
      non-missing values of each column and the improvement of their means. */
  function CompareMetric(metric: string, ml: Table, st: Table): (r: SummaryRow)
    requires InBoth(metric, ml, st)
    ensures r.metric == metric
    ensures r.mlStats == Describe(ml.columns[metric]) && r.staticStats == Describe(st.columns[metric])
    ensures r.mlStats.None? <==> MeanOf(ml.columns[metric]).None?
    ensures r.staticStats.None? <==> MeanOf(st.columns[metric]).None?
    ensures r.improvement == Improvement(metric, MeanOf(ml.columns[metric]), MeanOf(st.columns[metric]))
  {
    var a := Describe(ml.columns[metric]);
    var b := Describe(st.columns[metric]);
    SummaryRow(metric, a, b, Improvement(metric, MeanOfSummary(a), MeanOfSummary(b)))
  }

  /** The metrics of `metrics` that are columns of both tables, in order. */
  function PresentMetrics(metrics: seq<string>, ml: Table, st: Table): (r: seq<string>)
    ensures |r| <= |metrics|
    ensures forall m :: m in r <==> m in metrics && InBoth(m, ml, st)
  {
    if metrics == [] then []
    else
      var prefix, last := metrics[..|metrics| - 1], metrics[|metrics| - 1];
      assert metrics == prefix + [last];
      PresentMetrics(prefix, ml, st) + (if InBoth(last, ml, st) then [last] else [])
  }

  /** For the two compared metrics: `TotalVehicles` first, then
      `VehiclesWaiting`, each only when both tables have it. */
  lemma PresentComparisonMetrics(ml: Table, st: Table)
    ensures PresentMetrics(ComparisonMetrics, ml, st) ==
      (if InBoth(TotalVehicles, ml, st) then [TotalVehicles] else []) +
      (if InBoth(VehiclesWaiting, ml, st) then [VehiclesWaiting] else [])
  {
    assert ComparisonMetrics[..1] == [TotalVehicles];
    assert ComparisonMetrics[..1][..0] == [];
  }

  /** The summary table as a list built metric by metric. */
  function SummaryRows(metrics: seq<string>, ml: Table, st: Table): seq<SummaryRow>
  {
    if metrics == [] then []
    else
      var prefix, last := metrics[..|metrics| - 1], metrics[|metrics| - 1];
      SummaryRows(prefix, ml, st) + (if InBoth(last, ml, st) then [CompareMetric(last, ml, st)] else [])
  }

  /** One row per metric present in both tables, in the metrics' order;
      absent metrics are skipped, not filled with zeros. */
  lemma {:induction false} SummaryRowsFollowMetrics(metrics: seq<string>, ml: Table, st: Table)
    ensures |SummaryRows(metrics, ml, st)| == |PresentMetrics(metrics, ml, st)|
    ensures forall i :: 0 <= i < |SummaryRows(metrics, ml, st)| ==>
      InBoth(PresentMetrics(metrics, ml, st)[i], ml, st) &&
      SummaryRows(metrics, ml, st)[i] == CompareMetric(PresentMetrics(metrics, ml, st)[i], ml, st)
  {
    if metrics != [] {
      var prefix := metrics[..|metrics| - 1];
      SummaryRowsFollowMetrics(prefix, ml, st);
      var p := PresentMetrics(metrics, ml, st);
      forall i | 0 <= i < |p| ensures InBoth(p[i], ml, st) {
        assert p[i] in p;
      }
    }
  }

  /** The statistical comparison: the summary rows, built by appending one row
      per present metric. */
  method StatisticalComparison(ml: Table, st: Table) returns (results: seq<SummaryRow>)
    ensures results == SummaryRows(ComparisonMetrics, ml, st)
    ensures |results| == |PresentMetrics(ComparisonMetrics, ml, st)|
    ensures forall i :: 0 <= i < |results| ==>
      InBoth(results[i].metric, ml, st) && results[i].metric == PresentMetrics(ComparisonMetrics, ml, st)[i]
  {
    var metrics := ComparisonMetrics;
    results := [];
    for k := 0 to |metrics|
      invariant results == SummaryRows(metrics[..k], ml, st)
    {
      var metric := metrics[k];
      if InBoth(metric, ml, st) {
        var row := CompareMetric(metric, ml, st);
        results := results + [row];
      }
      assert metrics[..k + 1][..k] == metrics[..k];
    }
    assert metrics[..|metrics|] == metrics;
    SummaryRowsFollowMetrics(metrics, ml, st);
  }

  // ----- first-half windows of the interval tables -----

  /** Improvement of the first-half windows: 0 when the static mean is 0,
      otherwise the unflipped ratio (NaN when a mean is missing). */
  function HalfImprovement(mlMean: Option<real>, staticMean: Option<real>): (r: Option<real>)
    ensures staticMean == Some(0.0) ==> r == Some(0.0)
    ensures staticMean != Some(0.0) ==> r == RawImprovement(mlMean, staticMean)
  {
    if staticMean.Some? && staticMean.value == 0.0 then Some(0.0)
    else if mlMean.None? || staticMean.None? then None
    else Some((staticMean.value - mlMean.value) / staticMean.value * 100.0)
  }

  datatype HalfOutcome =
    | NotAvailable
    | TimeColumnMissing  // the plot reads `SimulationTime` first: an unhandled KeyError
    | Shown(mlMean: Option<real>, staticMean: Option<real>, improvement: Option<real>)

  /** The statistics box of a first-half chart of `metric` (vehicles waiting or
      queue length): means over the first `len // 2` rows of each table. */
  function FirstHalfComparison(metric: string, ml: Table, st: Table): (r: HalfOutcome)
    requires WellFormed(ml) && WellFormed(st)
    ensures r.NotAvailable? <==> !InBoth(metric, ml, st)
    ensures r.TimeColumnMissing? <==> InBoth(metric, ml, st) && !InBoth(SimulationTime, ml, st)
    ensures r.Shown? ==>
      && r.mlMean == MeanOf(ml.columns[metric][..ml.length / 2])
      && r.staticMean == MeanOf(st.columns[metric][..st.length / 2])
      && r.improvement == HalfImprovement(r.mlMean, r.staticMean)
  {
    var mlHalf, staticHalf := FirstHalf(ml), FirstHalf(st);
    if !(metric in mlHalf.columns && metric in staticHalf.columns) then
      NotAvailable
    else if !(SimulationTime in mlHalf.columns && SimulationTime in staticHalf.columns) then
      TimeColumnMissing
    else
      var m := MeanOf(mlHalf.columns[metric]);
      var s := MeanOf(staticHalf.columns[metric]);
      Shown(m, s, HalfImprovement(m, s))
  }

  // ----- performance report tally -----

  /** `a > b` on floats: false when either side is NaN. */
  predicate Gt(a: Option<real>, b: Option<real>)
  {
    a.Some? && b.Some? && a.value > b.value
  }

  /** The better side for one metric: higher is better for `TotalVehicles`,
      lower for every other metric; anything else counts for Static. */
  function Better(metric: string, mlMean: Option<real>, staticMean: Option<real>): (r: Side)
    ensures mlMean == staticMean ==> r == StaticSide
    ensures r == MlAgentSide ==> mlMean.Some? && staticMean.Some?
  {
    if metric == TotalVehicles then
      if Gt(mlMean, staticMean) then MlAgentSide else StaticSide
    else
      if Gt(staticMean, mlMean) then MlAgentSide else StaticSide
  }

  /** With a positive static mean, the report's improvement label and the
      tally agree on which controller is better. */
  lemma {:induction false} LabelAgreesWithTally(metric: string, m: real, s: real)
    requires s > 0.0
    ensures ImprovementLabel(Improvement(metric, Some(m), Some(s))) == Better(metric, Some(m), Some(s))
  {
    ImprovementLabelMeaning(metric, m, s);
  }

  function BetterFor(metric: string, ml: Table, st: Table): Side
    requires InBoth(metric, ml, st)
  {
    Better(metric, MeanOf(ml.columns[metric]), MeanOf(st.columns[metric]))
  }

  /** How many metrics present in both tables favour `side`. */
  function CountBetter(metrics: seq<string>, ml: Table, st: Table, side: Side): nat
  {
    if metrics == [] then 0
    else
      var prefix, last := metrics[..|metrics| - 1], metrics[|metrics| - 1];
      CountBetter(prefix, ml, st, side) +
        (if InBoth(last, ml, st) && BetterFor(last, ml, st) == side then 1 else 0)
  }

  /** Every present metric is counted for exactly one side. */
  lemma {:induction false} TallyCoversPresentMetrics(metrics: seq<string>, ml: Table, st: Table)
    ensures CountBetter(metrics, ml, st, MlAgentSide) + CountBetter(metrics, ml, st, StaticSide)
      == |PresentMetrics(metrics, ml, st)|
  {
    if metrics != [] {
      TallyCoversPresentMetrics(metrics[..|metrics| - 1], ml, st);
    }
  }

  datatype Verdict = MlBetterOverall | StaticBetterOverall | Comparable

  /** The overall verdict: the side with more metrics in its favour. */
  function OverallVerdict(mlBetterCount: int, staticBetterCount: int): (r: Verdict)
    ensures r == MlBetterOverall <==> mlBetterCount > staticBetterCount
    ensures r == StaticBetterOverall <==> staticBetterCount > mlBetterCount
    ensures r == Comparable <==> mlBetterCount == staticBetterCount
  {
    if mlBetterCount > staticBetterCount then MlBetterOverall
    else if staticBetterCount > mlBetterCount then StaticBetterOverall
    else Comparable
  }

  /** The performance report: counts the metrics each side wins and gives
      the verdict. */
  method PerformanceReport(ml: Table, st: Table)
    returns (mlBetterCount: nat, staticBetterCount: nat, verdict: Verdict)
    ensures mlBetterCount == CountBetter(ComparisonMetrics, ml, st, MlAgentSide)
    ensures staticBetterCount == CountBetter(ComparisonMetrics, ml, st, StaticSide)
    ensures mlBetterCount + staticBetterCount == |PresentMetrics(ComparisonMetrics, ml, st)|
    ensures verdict == OverallVerdict(mlBetterCount, staticBetterCount)
  {
    var metrics := ComparisonMetrics;
    mlBetterCount, staticBetterCount := 0, 0;
    for k := 0 to |metrics|
      invariant mlBetterCount == CountBetter(metrics[..k], ml, st, MlAgentSide)
      invariant staticBetterCount == CountBetter(metrics[..k], ml, st, StaticSide)
    {
      var metric := metrics[k];
      if InBoth(metric, ml, st) {
        var better := BetterFor(metric, ml, st);
        if better == MlAgentSide {
          mlBetterCount := mlBetterCount + 1;
        } else {
          staticBetterCount := staticBetterCount + 1;
        }
      }
      assert metrics[..k + 1][..k] == metrics[..k];
    }
    assert metrics[..|metrics|] == metrics;
    TallyCoversPresentMetrics(metrics, ml, st);
    verdict := OverallVerdict(mlBetterCount, staticBetterCount);
  }

  // ----- dashboard -----

  /** The dashboard's bar heights: the column mean, 0 for a column the table
      lacks, and NaN (no value) for a column with no present value. */
  function DashboardMeans(metrics: seq<string>, t: Table): (r: seq<Option<real>>)
    ensures |r| == |metrics|
    ensures forall i :: 0 <= i < |metrics| && metrics[i] !in t.columns ==> r[i] == Some(0.0)
    ensures forall i :: 0 <= i < |metrics| && metrics[i] in t.columns ==> r[i] == MeanOf(t.columns[metrics[i]])
    ensures forall i :: 0 <= i < |metrics| && metrics[i] in t.columns ==>
      (r[i].None? <==> forall j :: 0 <= j < |t.columns[metrics[i]]| ==> t.columns[metrics[i]][j].None?)
  {
    seq(|metrics|, i requires 0 <= i < |metrics| =>
      if metrics[i] in t.columns then MeanOf(t.columns[metrics[i]]) else Some(0.0))
  }

  /** The heatmap matrix before normalisation: one row `[ml mean, static mean]`
      per metric present in both tables. */
  function HeatmapRows(metrics: seq<string>, ml: Table, st: Table): (r: seq<seq<Option<real>>>)
    ensures |r| == |PresentMetrics(metrics, ml, st)|
    ensures forall i :: 0 <= i < |r| ==>
      var metric := PresentMetrics(metrics, ml, st)[i];
      InBoth(metric, ml, st) && r[i] == [MeanOf(ml.columns[metric]), MeanOf(st.columns[metric])]
  {
    if metrics == [] then []
    else
      var prefix, last := metrics[..|metrics| - 1], metrics[|metrics| - 1];
      var p := PresentMetrics(metrics, ml, st);
      assert forall i :: 0 <= i < |p| ==> InBoth(p[i], ml, st) by {
        forall i | 0 <= i < |p| ensures InBoth(p[i], ml, st) {
          assert p[i] in p;
        }
      }
      HeatmapRows(prefix, ml, st) +
        (if InBoth(last, ml, st) then [[MeanOf(ml.columns[last]), MeanOf(st.columns[last])]] else [])
  }

  /** Python's built-in `max` over a row: the first element, replaced by each
      later element that compares greater. A NaN in front therefore sticks,
      and a later NaN is skipped. */
  function PyMax(row: seq<Option<real>>): (r: Option<real>)
    requires |row| > 0
    ensures r.None? <==> row[0].None?
    ensures r.Some? ==> Some(r.value) in row
    ensures r.Some? ==> forall i :: 0 <= i < |row| && row[i].Some? ==> row[i].value <= r.value
  {
    if |row| == 1 then row[0]
    else
      var prefix := row[..|row| - 1];
      var cur, x := PyMax(prefix), row[|row| - 1];
      assert row == prefix + [x];
      if Gt(x, cur) then x else cur
  }

  /** Every entry divided by `v`; NaN stays NaN. */
  function DivideRow(row: seq<Option<real>>, v: real): seq<Option<real>>
    requires v != 0.0
  {
    seq(|row|, i requires 0 <= i < |row| => if row[i].Some? then Some(row[i].value / v) else None)
  }

  /** One heatmap row after normalisation: divided by its maximum when that
      maximum is positive, otherwise unchanged. */
  function NormalizedRow(row: seq<Option<real>>): (r: seq<Option<real>>)
    requires |row| > 0
    ensures |r| == |row|
    ensures PyMax(row).Some? && PyMax(row).value > 0.0 ==>
      forall i :: 0 <= i < |row| ==>
        (r[i].Some? <==> row[i].Some?) && (row[i].Some? ==> r[i].value == row[i].value / PyMax(row).value)
    ensures PyMax(row).None? || PyMax(row).value <= 0.0 ==> r == row
  {
    var m := PyMax(row);
    if m.Some? && m.value > 0.0 then DivideRow(row, m.value) else row
  }

  lemma RatioAtMostOne(x: real, v: real)
    requires 0.0 < v && x <= v
    ensures x / v <= 1.0
  {
    if x / v > 1.0 {
      assert false;
    }
  }

  lemma SelfRatio(v: real)
    requires v != 0.0
    ensures v / v == 1.0
  {
  }

  lemma EntryAtMaximumBecomesOne(row: seq<Option<real>>, k: int)
    requires |row| > 0 && PyMax(row).Some? && PyMax(row).value > 0.0
    requires 0 <= k < |row| && row[k] == PyMax(row)
    ensures NormalizedRow(row)[k] == Some(1.0)
  {
    var v := PyMax(row).value;
    SelfRatio(v);
  }

  lemma EntryAtMostOne(row: seq<Option<real>>, i: int)
    requires |row| > 0 && PyMax(row).Some? && PyMax(row).value > 0.0
    requires 0 <= i < |row| && NormalizedRow(row)[i].Some?
    ensures NormalizedRow(row)[i].value <= 1.0
  {
    RatioAtMostOne(row[i].value, PyMax(row).value);
  }

  /** A row with a positive maximum ends with maximum exactly 1: one entry
      is 1 and no entry exceeds it. */
  lemma {:induction false} NormalizedRowPeaksAtOne(row: seq<Option<real>>)
    requires |row| > 0 && PyMax(row).Some? && PyMax(row).value > 0.0
    ensures Some(1.0) in NormalizedRow(row)
    ensures forall i :: 0 <= i < |row| && NormalizedRow(row)[i].Some? ==> NormalizedRow(row)[i].value <= 1.0
  {
    var k :| 0 <= k < |row| && row[k] == PyMax(row);
    EntryAtMaximumBecomesOne(row, k);
    forall i | 0 <= i < |row| && NormalizedRow(row)[i].Some?
      ensures NormalizedRow(row)[i].value <= 1.0
    {
      EntryAtMostOne(row, i);
    }
  }

  /** The in-place normalisation of the heatmap matrix, row by row. */
  method NormalizeRows(a: array<seq<Option<real>>>)
    requires forall i :: 0 <= i < a.Length ==> |a[i]| > 0
    modifies a
    ensures forall i :: 0 <= i < a.Length ==> a[i] == NormalizedRow(old(a[i]))
  {
    for i := 0 to a.Length
      invariant forall k :: 0 <= k < i ==> a[k] == NormalizedRow(old(a[k]))
      invariant forall k :: i <= k < a.Length ==> a[k] == old(a[k])
    {
      var maxVal := PyMax(a[i]);
      if maxVal.Some? && maxVal.value > 0.0 {
        a[i] := DivideRow(a[i], maxVal.value);
      }
    }
  }
}
