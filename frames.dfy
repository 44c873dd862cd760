/** The pandas DataFrame `df` of the job, changed in place step by step. */
module Frames {
  import opened Series
  import opened Rows

  class Frame<V(==)> {
    var columns: seq<Column>
    var rows: seq<Row<V>>

    /** Every row has exactly the frame's columns, with cells of their kind. */
    ghost predicate Valid()
      reads this
    {
      AllConform(rows, columns)
    }

    /** Lines 48-52: one frame per series, merged outer on `time_ms`. */
    constructor FromSeries(prices: Series<V>, caps: Series<V>, vols: Series<V>)
      ensures Valid()
      ensures columns == MergeColumns && rows == MergedRows(prices, caps, vols)
    {
      columns := MergeColumns;
      rows := MergedRows(prices, caps, vols);
    }

    /** Line 53: `df["time"] = pd.to_datetime(df["time_ms"], unit="ms", utc=True)`.
        The conversion raises, leaving the frame as it was, when some key
        falls outside the representable range. */
    method AssignTime() returns (ok: bool)
      requires Valid() && TimeMs in columns
      modifies this
      ensures Valid()
      ensures ok == AllInRange(old(rows))
      ensures ok ==> columns == AddColumn(old(columns), Time) && rows == WithTime(old(rows))
      ensures !ok ==> columns == old(columns) && rows == old(rows)
    {
      ok := AllInRange(rows);
      if ok {
        WithTimeConforms(rows, columns);
        rows := WithTime(rows);
        columns := AddColumn(columns, Time);
      }
    }

    /** Line 54: `df.drop(columns=[c], inplace=True)`. */
    method Drop(c: Column)
      requires Valid() && c in columns
      modifies this
      ensures Valid()
      ensures columns == RemoveColumn(old(columns), c) && rows == DropColumn(old(rows), c)
    {
      DropColumnConforms(rows, columns, c);
      rows := DropColumn(rows, c);
      columns := RemoveColumn(columns, c);
    }

    /** Line 55: `df.sort_values("time", inplace=True)`. */
    method SortValues()
      requires Valid() && Time in columns
      modifies this
      ensures Valid()
      ensures columns == old(columns) && rows == SortByTime(old(rows))
    {
      var sorted := SortByTime(rows);
      forall i | 0 <= i < |sorted| ensures Conforms(sorted[i], columns) {
        assert sorted[i] in multiset(rows);
        var j :| 0 <= j < |rows| && rows[j] == sorted[i];
      }
      rows := sorted;
    }
  }
}
