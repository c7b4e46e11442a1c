/** The in-memory tables the analysis scripts read from CSV files: each table
    has a row count and a set of named numeric columns of that length. */
module Tables {
  import opened ColumnStats

  const TotalVehicles: string := "TotalVehicles"
  const VehiclesWaiting: string := "VehiclesWaiting"
  const QueueLength: string := "QueueLength"
  const GreenLightTime: string := "GreenLightTime"
  const PhaseGreenTime: string := "PhaseGreenTime"
  const SimulationTime: string := "SimulationTime"

  datatype Table = Table(length: nat, columns: map<string, Column>)

  /** Every column has one entry per row. */
  predicate WellFormed(t: Table)
  {
    forall name :: name in t.columns ==> |t.columns[name]| == t.length
  }

  /** `iloc[:len(t) // 2]`: the first half of the rows of every column (the
      middle row of an odd-length table is not included). */
  function FirstHalf(t: Table): (h: Table)
    requires WellFormed(t)
    ensures WellFormed(h)
    ensures h.columns.Keys == t.columns.Keys
    ensures 2 * h.length <= t.length <= 2 * h.length + 1
    ensures forall name :: name in h.columns ==> h.columns[name] <= t.columns[name]
  {
    Table(t.length / 2, map name | name in t.columns :: t.columns[name][..t.length / 2])
  }
}
