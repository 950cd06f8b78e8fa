/** Result shaping of run_report: the query's output is opaque, but an
    empty result is never shown; it becomes one summary row of zeros. */
module Report {

  /** A cell of a query result. */
  datatype Value = IntValue(i: int) | RealValue(x: real) | TextValue(s: string) | NullValue

  datatype Option<T> = None | Some(value: T)

  /** A query result as a data frame holds it: column names, then rows
      of cells. */
  datatype Frame = Frame(columns: seq<string>, rows: seq<seq<Value>>)

  /** A data frame is empty when either axis has length zero. */
  predicate IsEmpty(f: Frame) {
    |f.columns| == 0 || |f.rows| == 0
  }

  /** Every row has one cell per column. */
  predicate Rectangular(f: Frame) {
    forall r :: 0 <= r < |f.rows| ==> |f.rows[r]| == |f.columns|
  }

  /** The substitute for an empty result: order count, unit count and
      rebate total, all zero. */
  const ZeroSummary: Frame :=
    Frame(["numOrdersRecv", "numUnitsRecv", "TotalRebate"],
          [[IntValue(0), IntValue(0), RealValue(0.0)]])

  /** Position of the first column called `name`, if any. */
  function ColumnIndex(columns: seq<string>, name: string): (i: Option<nat>)
    ensures i.Some? ==> i.value < |columns| && columns[i.value] == name
    ensures i.Some? ==> forall j :: 0 <= j < i.value ==> columns[j] != name
    ensures i.None? <==> name !in columns
  {
    if |columns| == 0 then None
    else if columns[0] == name then Some(0)
    else match ColumnIndex(columns[1..], name)
      case None => None
      case Some(k) => Some(k + 1)
  }

  /** The cell of column `name` in row `row`, if both exist. */
  function Cell(f: Frame, row: nat, name: string): Option<Value> {
    match ColumnIndex(f.columns, name)
    case None => None
    case Some(c) => if row < |f.rows| && c < |f.rows[row]| then Some(f.rows[row][c]) else None
  }

  /** What run_report shows and saves for the query output `df`: an empty
      result becomes exactly one row with numOrdersRecv 0, numUnitsRecv 0
      and TotalRebate 0.0; any other result passes through unchanged. */
  function AuditResult(df: Frame): (r: Frame)
    ensures !IsEmpty(r)
    ensures IsEmpty(df) ==>
      && |r.rows| == 1 && |r.columns| == 3
      && Cell(r, 0, "numOrdersRecv") == Some(IntValue(0))
      && Cell(r, 0, "numUnitsRecv") == Some(IntValue(0))
      && Cell(r, 0, "TotalRebate") == Some(RealValue(0.0))
    ensures !IsEmpty(df) ==> r == df
    ensures Rectangular(df) ==> Rectangular(r)
  {
    if IsEmpty(df) then ZeroSummary else df
  }

}
