/** The per-episode throughput ratio script: vehicles waiting divided by the
    green-light time of each row, averaged over the rows where the division
    is defined, and the relative improvement of the ML average over the static
    average. */
module ThroughputRatio {
  import opened Wrappers
  import opened ColumnStats
  import opened Tables
  import Comparison

  /** The candidate denominator columns, in order of preference. */
  const TimeColumns: seq<string> := [GreenLightTime, PhaseGreenTime]

  /** The position of the first candidate that is a column of the table. */
  function FirstPresentIndex(candidates: seq<string>, t: Table): (r: Option<nat>)
    ensures r.None? <==> forall j :: 0 <= j < |candidates| ==> candidates[j] !in t.columns
    ensures r.Some? ==> r.value < |candidates| && candidates[r.value] in t.columns
    ensures r.Some? ==> forall j :: 0 <= j < r.value ==> candidates[j] !in t.columns
  {
    if candidates == [] then None
    else if candidates[0] in t.columns then Some(0)
    else
      var rest := FirstPresentIndex(candidates[1..], t);
      if rest.Some? then Some(rest.value + 1) else None
  }

  /** The denominator column: `GreenLightTime` if present, else `PhaseGreenTime`. */
  function DenominatorColumn(t: Table): (r: Option<string>)
    ensures r == Some(GreenLightTime) <==> GreenLightTime in t.columns
    ensures r == Some(PhaseGreenTime) <==> GreenLightTime !in t.columns && PhaseGreenTime in t.columns
    ensures r.None? <==> GreenLightTime !in t.columns && PhaseGreenTime !in t.columns
  {
    var k := FirstPresentIndex(TimeColumns, t);
    assert TimeColumns[0] == GreenLightTime && TimeColumns[1] == PhaseGreenTime;
    if k.Some? then Some(TimeColumns[k.value]) else None
  }

  /** `a / b` with the infinities of a zero divisor (and the NaN of 0 / 0 or
      of a missing operand) turned into a missing value. */
  function SafeDivide(a: Option<real>, b: Option<real>): (r: Option<real>)
    ensures r.Some? <==> a.Some? && b.Some? && b.value != 0.0
    ensures r.Some? ==> r.value * b.value == a.value
  {
    if a.Some? && b.Some? && b.value != 0.0 then Some(a.value / b.value) else None
  }

  /** The per-row ratio column. */
  function RatioColumn(num: Column, den: Column): (r: Column)
    requires |num| == |den|
    ensures |r| == |num|
    ensures forall i :: 0 <= i < |r| ==>
      (r[i].Some? <==> num[i].Some? && den[i].Some? && den[i].value != 0.0)
    ensures forall i :: 0 <= i < |r| && r[i].Some? ==> r[i].value * den[i].value == num[i].value
  {
    seq(|num|, i requires 0 <= i < |num| => SafeDivide(num[i], den[i]))
  }

  /** The throughput column of a table, or nothing when a required column is
      missing. */
  function ThroughputColumn(t: Table): (r: Option<Column>)
    requires WellFormed(t)
    ensures r.None? <==> DenominatorColumn(t).None? || VehiclesWaiting !in t.columns
    ensures r.Some? ==> |r.value| == t.length
    ensures r.Some? ==> forall i :: 0 <= i < t.length ==>
      r.value[i] == SafeDivide(t.columns[VehiclesWaiting][i], t.columns[DenominatorColumn(t).value][i])
  {
    var denom := DenominatorColumn(t);
    if denom.None? || VehiclesWaiting !in t.columns then None
    else Some(RatioColumn(t.columns[VehiclesWaiting], t.columns[denom.value]))
  }

  /** The result of the average: `None` for missing columns, NaN when every
      ratio is missing, or a number. */
  datatype Average = ColumnsMissing | NotANumber | Value(value: real)

  function AverageThroughput(t: Table): (r: Average)
    requires WellFormed(t)
    ensures r.ColumnsMissing? <==> ThroughputColumn(t).None?
    ensures r.NotANumber? <==>
      ThroughputColumn(t).Some? && forall i :: 0 <= i < t.length ==> ThroughputColumn(t).value[i].None?
    ensures r.Value? ==> ThroughputColumn(t).Some? && MeanOf(ThroughputColumn(t).value) == Some(r.value)
    ensures r.NotANumber? ==> MeanOf(ThroughputColumn(t).value).None?
  {
    var ratios := ThroughputColumn(t);
    if ratios.None? then ColumnsMissing
    else
      var m := MeanOf(ratios.value);
      if m.Some? then Value(m.value) else NotANumber
  }

  /** The average is a mean over the defined ratios only, so it lies between
      the smallest and the largest of them. */
  lemma {:induction false} AverageWithinDefinedRatios(t: Table)
    requires WellFormed(t) && AverageThroughput(t).Value?
    ensures var ratios := DropMissing(ThroughputColumn(t).value);
      |ratios| > 0 && Min(ratios) <= AverageThroughput(t).value <= Max(ratios)
  {
    var ratios := DropMissing(ThroughputColumn(t).value);
    DropMissingEmpty(ThroughputColumn(t).value);
    MeanBetweenMinAndMax(ratios);
  }

  /** Vehicles waiting [10, 20, 30] over green time [5, 0, 10]: the middle
      row is skipped and the average is (2 + 3) / 2. */
  lemma ExampleSkipsZeroDenominator()
    ensures AverageThroughput(Table(3, map[
      VehiclesWaiting := [Some(10.0), Some(20.0), Some(30.0)],
      GreenLightTime := [Some(5.0), Some(0.0), Some(10.0)]])) == Value(2.5)
  {
    var t := Table(3, map[
      VehiclesWaiting := [Some(10.0), Some(20.0), Some(30.0)],
      GreenLightTime := [Some(5.0), Some(0.0), Some(10.0)]]);
    assert DenominatorColumn(t) == Some(GreenLightTime);
    var ratios := ThroughputColumn(t).value;
    assert ratios == [Some(2.0), None, Some(3.0)];
    ExampleMean();
  }

  lemma ExampleMean()
    ensures MeanOf([Some(2.0), None, Some(3.0)]) == Some(2.5)
  {
    ExampleDropMissing();
    assert [2.0, 3.0][1..] == [3.0];
    assert Sum([2.0, 3.0]) == 5.0;
  }

  lemma ExampleDropMissing()
    ensures DropMissing([Some(2.0), None, Some(3.0)]) == [2.0, 3.0]
  {
    var c3: Column := [Some(3.0)];
    var c2: Column := [None] + c3;
    var c1: Column := [Some(2.0)] + c2;
    assert c3[1..] == [];
    assert DropMissing(c3) == [3.0];
    assert c2[1..] == c3;
    assert DropMissing(c2) == [3.0];
    assert c1[1..] == c2;
    assert c1 == [Some(2.0), None, Some(3.0)];
  }

  /** The outcome of the final improvement expression. */
  datatype ImprovementResult =
    | NotApplicable          // static average missing or zero: printed "N/A"
    | TypeError              // ML average missing while the static one is usable
    | NaNImprovement         // an average is NaN
    | Fraction(value: real)  // printed as a percentage

  /** Python truthiness of the static average: `None` and 0 are false, NaN true. */
  predicate Truthy(a: Average)
  {
    a.NotANumber? || (a.Value? && a.value != 0.0)
  }

  /** `-(ml - static) / static if static else None`. */
  function ThroughputImprovement(mlAvg: Average, staticAvg: Average): (r: ImprovementResult)
    ensures r.NotApplicable? <==> staticAvg.ColumnsMissing? || staticAvg == Value(0.0)
    ensures r.TypeError? <==> Truthy(staticAvg) && mlAvg.ColumnsMissing?
    ensures r.Fraction? <==> mlAvg.Value? && staticAvg.Value? && staticAvg.value != 0.0
    ensures r.NaNImprovement? <==>
      Truthy(staticAvg) && !mlAvg.ColumnsMissing? && (mlAvg.NotANumber? || staticAvg.NotANumber?)
    ensures r.Fraction? ==> r.value * staticAvg.value == staticAvg.value - mlAvg.value
  {
    if !Truthy(staticAvg) then NotApplicable
    else if mlAvg.ColumnsMissing? then TypeError
    else if mlAvg.NotANumber? || staticAvg.NotANumber? then NaNImprovement
    else Fraction(-(mlAvg.value - staticAvg.value) / staticAvg.value)
  }

  /** With a positive static average the improvement is positive exactly when
      the ML average is lower; no higher-is-better flip is applied. */
  lemma {:induction false} ThroughputImprovementSign(m: real, s: real)
    requires s > 0.0
    ensures ThroughputImprovement(Value(m), Value(s)).Fraction?
    ensures ThroughputImprovement(Value(m), Value(s)).value > 0.0 <==> m < s
  {
    var r := ThroughputImprovement(Value(m), Value(s));
    Comparison.PositiveProduct(r.value, s);
  }

  /** This script's fraction is the analysis report's unflipped improvement
      divided by 100, and the negative of what the report prints for
      `TotalVehicles`: the two scripts use different sign conventions. */
  lemma {:induction false} AgreesWithReportConvention(m: real, s: real)
    requires s != 0.0
    ensures Comparison.Improvement(VehiclesWaiting, Some(m), Some(s)) ==
      Some(100.0 * ThroughputImprovement(Value(m), Value(s)).value)
    ensures Comparison.Improvement(TotalVehicles, Some(m), Some(s)) ==
      Some(-100.0 * ThroughputImprovement(Value(m), Value(s)).value)
  {
    var f := ThroughputImprovement(Value(m), Value(s)).value;
    var a := Comparison.Improvement(VehiclesWaiting, Some(m), Some(s)).value;
    var b := Comparison.Improvement(TotalVehicles, Some(m), Some(s)).value;
    ProductCancels(a, 100.0 * f, s);
    ProductCancels(b, -100.0 * f, s);
  }

  lemma ProductCancels(x: real, y: real, s: real)
    requires s != 0.0 && x * s == y * s
    ensures x == y
  {
    assert (x - y) * s == 0.0;
  }
}
