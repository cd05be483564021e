/**
  A data frame as the aggregator and the query interface see it: a time
  index (minutes since the epoch), named columns, and one row of cells per
  index entry. A store is a map from hierarchical key to frame.
*/
module Frames {

  import opened Results

  datatype Table = Table(index: seq<int>, columns: seq<string>, rows: seq<seq<real>>)

  /** One row per index entry and one cell per column in every row. */
  predicate WellFormed(t: Table)
  {
    |t.rows| == |t.index| && forall i :: 0 <= i < |t.rows| ==> |t.rows[i]| == |t.columns|
  }

  type Frame = t: Table | WellFormed(t) witness Table([], [], [])

  type Store = map<string, Frame>

  /** Position of column `name` (the first one, should the name repeat), or None when absent. */
  function ColumnIndex(columns: seq<string>, name: string): (r: Option<nat>)
    ensures r.Some? ==> r.value < |columns| && columns[r.value] == name
    ensures r.Some? ==> forall j :: 0 <= j < r.value ==> columns[j] != name
    ensures r.None? <==> name !in columns
  {
    if columns == [] then None
    else if columns[0] == name then Some(0)
    else match ColumnIndex(columns[1..], name)
      case None => None
      case Some(i) => Some(i + 1)
  }

  /** The cells of column `c`, one per row, in stored order. */
  function ColumnValues(t: Frame, c: nat): (r: seq<real>)
    requires c < |t.columns|
    ensures |r| == |t.index|
  {
    seq(|t.rows|, i requires 0 <= i < |t.rows| => t.rows[i][c])
  }

}
