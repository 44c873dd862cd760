/** The rows of the in-memory table: one cell per column label, and the
    column-level operations the job applies to them (lines 48-55). */
module Rows {
  import opened Wrappers
  import opened Series
  import opened Join
  import opened Timestamps

  datatype Column = TimeMs | Time | PriceUsd | MarketCapUsd | VolumeUsd

  /** The column label the table and the warehouse see. */
  function Name(c: Column): string {
    match c
    case TimeMs => "time_ms"
    case Time => "time"
    case PriceUsd => "price_usd"
    case MarketCapUsd => "market_cap_usd"
    case VolumeUsd => "volume_usd"
  }

  /** A cell: the integer key, a derived timestamp, a metric value, or NaN. */
  datatype Cell<V> = Millis(ms: int) | Stamp(ts: Timestamp) | Num(v: V) | Null

  type Row<V> = map<Column, Cell<V>>

  /** Which cells a column may hold. */
  predicate Fits<V>(c: Column, cell: Cell<V>) {
    match c
    case TimeMs => cell.Millis?
    case Time => cell.Stamp?
    case _ => cell.Num? || cell.Null?
  }

  function ColumnSet(columns: seq<Column>): set<Column> {
    set c | c in columns
  }

  /** A row has exactly the table's columns, each holding a cell of its kind. */
  ghost predicate Conforms<V>(row: Row<V>, columns: seq<Column>) {
    row.Keys == ColumnSet(columns) && forall c | c in row :: Fits(c, row[c])
  }

  ghost predicate AllConform<V>(rows: seq<Row<V>>, columns: seq<Column>) {
    forall i | 0 <= i < |rows| :: Conforms(rows[i], columns)
  }

  // ---- Lines 48-52: building the merged table ----

  /** A merged value cell: NaN where the series had no entry. */
  function CellOf<V>(o: Option<V>): (cell: Cell<V>)
    ensures cell.Null? <==> o.None?
    ensures o.Some? ==> cell == Num(o.value)
  {
    match o
    case None => Null
    case Some(v) => Num(v)
  }

  /** The columns of the merged table, in pandas' order. */
  const MergeColumns: seq<Column> := [TimeMs, PriceUsd, MarketCapUsd, VolumeUsd]

  function MergedRow<V>(e: (int, Pair<Pair<V, V>, V>)): (row: Row<V>)
    ensures Conforms(row, MergeColumns)
  {
    map[TimeMs := Millis(e.0), PriceUsd := CellOf(PriceOf(e)),
        MarketCapUsd := CellOf(CapOf(e)), VolumeUsd := CellOf(VolumeOf(e))]
  }

  function MergedRows<V(==)>(prices: Series<V>, caps: Series<V>, vols: Series<V>): (rows: seq<Row<V>>)
    ensures |rows| == |MergeThree(prices, caps, vols)|
    ensures AllConform(rows, MergeColumns)
  {
    var j := MergeThree(prices, caps, vols);
    seq(|j|, i requires 0 <= i < |j| => MergedRow(j[i]))
  }

  // ---- Line 53: the derived time column ----

  /** The millisecond key of a row (0 for a row without one, which a
      conforming row of the merged table never is). */
  function MillisOf<V>(row: Row<V>): int {
    if TimeMs in row && row[TimeMs].Millis? then row[TimeMs].ms else 0
  }

  /** Whether every key converts without raising. */
  predicate AllInRange<V>(rows: seq<Row<V>>) {
    forall i | 0 <= i < |rows| :: InRange(MillisOf(rows[i]))
  }

  /** Add the column label `c` if the table lacks it (assigning to an
      existing label overwrites it in place). */
  function AddColumn(columns: seq<Column>, c: Column): (r: seq<Column>)
    ensures ColumnSet(r) == ColumnSet(columns) + {c}
  {
    if c in columns then columns else columns + [c]
  }

  function WithTime<V>(rows: seq<Row<V>>): seq<Row<V>> {
    seq(|rows|, i requires 0 <= i < |rows| => rows[i][Time := Stamp(FromMillis(MillisOf(rows[i])))])
  }

  /** Adding the time column keeps every row conforming to the widened
      column list. */
  lemma WithTimeConforms<V>(rows: seq<Row<V>>, columns: seq<Column>)
    requires AllConform(rows, columns)
    ensures AllConform(WithTime(rows), AddColumn(columns, Time))
  {
  }

  // ---- Line 54: dropping the raw key ----

  function RemoveColumn(columns: seq<Column>, c: Column): (r: seq<Column>)
    ensures ColumnSet(r) == ColumnSet(columns) - {c}
    ensures c !in r
  {
    if columns == [] then []
    else
      var head := if columns[0] == c then [] else [columns[0]];
      assert columns == [columns[0]] + columns[1..];
      ColumnSetConcat([columns[0]], columns[1..]);
      ColumnSetConcat(head, RemoveColumn(columns[1..], c));
      (if columns[0] == c then [] else [columns[0]]) + RemoveColumn(columns[1..], c)
  }

  lemma ColumnSetConcat(a: seq<Column>, b: seq<Column>)
    ensures ColumnSet(a + b) == ColumnSet(a) + ColumnSet(b)
  {
    forall c | c in ColumnSet(a + b) ensures c in ColumnSet(a) + ColumnSet(b) {
      assert c in a + b;
    }
  }

  function DropColumn<V>(rows: seq<Row<V>>, c: Column): seq<Row<V>> {
    seq(|rows|, i requires 0 <= i < |rows| => rows[i] - {c})
  }

  lemma DropColumnConforms<V>(rows: seq<Row<V>>, columns: seq<Column>, c: Column)
    requires AllConform(rows, columns)
    ensures AllConform(DropColumn(rows, c), RemoveColumn(columns, c))
  {
  }

  // ---- Line 55: sorting by time ----

  /** The time of a row and its sort key in nanoseconds (the epoch for a
      row without one, which a conforming row of a table with a time column
      never is). */
  function TimeOf<V>(row: Row<V>): Timestamp {
    if Time in row && row[Time].Stamp? then row[Time].ts else Timestamp(0)
  }

  function TimeKey<V>(row: Row<V>): int {
    TimeOf(row).nanos
  }

  ghost predicate Ascending<V>(rows: seq<Row<V>>) {
    forall i, j | 0 <= i < j < |rows| :: TimeKey(rows[i]) <= TimeKey(rows[j])
  }

  ghost predicate StrictlyAscending<V>(rows: seq<Row<V>>) {
    forall i, j | 0 <= i < j < |rows| :: TimeKey(rows[i]) < TimeKey(rows[j])
  }

  ghost predicate DistinctTimes<V>(rows: seq<Row<V>>) {
    forall i, j | 0 <= i < j < |rows| :: TimeKey(rows[i]) != TimeKey(rows[j])
  }

  function Insert<V(==)>(row: Row<V>, rows: seq<Row<V>>): (r: seq<Row<V>>)
    ensures multiset(r) == multiset(rows) + multiset{row}
  {
    if rows == [] then [row]
    else if TimeKey(row) <= TimeKey(rows[0]) then [row] + rows
    else
      assert rows == [rows[0]] + rows[1..];
      [rows[0]] + Insert(row, rows[1..])
  }

  /** Every row of `Insert(row, rows)` is `row` or a row of `rows`. */
  lemma InsertMembers<V>(row: Row<V>, rows: seq<Row<V>>)
    ensures forall x | x in Insert(row, rows) :: x == row || x in rows
  {
    var r := Insert(row, rows);
    forall x | x in r ensures x == row || x in rows {
      assert x in multiset(r);
    }
  }

  lemma AscendingCons<V>(h: Row<V>, t: seq<Row<V>>)
    requires Ascending(t) && forall x | x in t :: TimeKey(h) <= TimeKey(x)
    ensures Ascending([h] + t)
  {
    var r := [h] + t;
    forall i, j | 0 <= i < j < |r| ensures TimeKey(r[i]) <= TimeKey(r[j]) {
      assert r[j] == t[j - 1];
      if i == 0 { assert r[j] in t; } else { assert r[i] == t[i - 1]; }
    }
  }

  lemma AscendingTail<V>(s: seq<Row<V>>)
    requires s != [] && Ascending(s)
    ensures Ascending(s[1..]) && forall x | x in s[1..] :: TimeKey(s[0]) <= TimeKey(x)
  {
    forall x | x in s[1..] ensures TimeKey(s[0]) <= TimeKey(x) {
      var j :| 0 <= j < |s[1..]| && s[1..][j] == x;
      assert s[j + 1] == x;
    }
    forall i, j | 0 <= i < j < |s[1..]| ensures TimeKey(s[1..][i]) <= TimeKey(s[1..][j]) {
      assert s[1..][i] == s[i + 1] && s[1..][j] == s[j + 1];
    }
  }

  lemma {:induction false} InsertAscending<V>(row: Row<V>, rows: seq<Row<V>>)
    requires Ascending(rows)
    ensures Ascending(Insert(row, rows))
  {
    if rows == [] {
    } else if TimeKey(row) <= TimeKey(rows[0]) {
      AscendingTail(rows);
      assert rows == [rows[0]] + rows[1..];
      AscendingCons(row, rows);
    } else {
      AscendingTail(rows);
      InsertAscending(row, rows[1..]);
      InsertMembers(row, rows[1..]);
      AscendingCons(rows[0], Insert(row, rows[1..]));
    }
  }

  /** `sort_values("time")`: a permutation of the rows in ascending time. */
  function SortByTime<V(==)>(rows: seq<Row<V>>): (r: seq<Row<V>>)
    ensures multiset(r) == multiset(rows)
    ensures Ascending(r)
  {
    if rows == [] then []
    else
      assert rows == [rows[0]] + rows[1..];
      var t := SortByTime(rows[1..]);
      InsertAscending(rows[0], t);
      Insert(rows[0], t)
  }

  lemma DistinctCons<V>(h: Row<V>, t: seq<Row<V>>)
    requires DistinctTimes(t) && forall x | x in t :: TimeKey(h) != TimeKey(x)
    ensures DistinctTimes([h] + t)
  {
    var r := [h] + t;
    forall i, j | 0 <= i < j < |r| ensures TimeKey(r[i]) != TimeKey(r[j]) {
      assert r[j] == t[j - 1];
      if i == 0 { assert r[j] in t; } else { assert r[i] == t[i - 1]; }
    }
  }

  lemma DistinctTail<V>(s: seq<Row<V>>)
    requires s != [] && DistinctTimes(s)
    ensures DistinctTimes(s[1..]) && forall x | x in s[1..] :: TimeKey(s[0]) != TimeKey(x)
  {
    forall x | x in s[1..] ensures TimeKey(s[0]) != TimeKey(x) {
      var j :| 0 <= j < |s[1..]| && s[1..][j] == x;
      assert s[j + 1] == x;
    }
    forall i, j | 0 <= i < j < |s[1..]| ensures TimeKey(s[1..][i]) != TimeKey(s[1..][j]) {
      assert s[1..][i] == s[i + 1] && s[1..][j] == s[j + 1];
    }
  }

  lemma {:induction false} InsertDistinct<V>(row: Row<V>, rows: seq<Row<V>>)
    requires DistinctTimes(rows)
    requires forall x | x in rows :: TimeKey(x) != TimeKey(row)
    ensures DistinctTimes(Insert(row, rows))
  {
    if rows == [] {
    } else if TimeKey(row) <= TimeKey(rows[0]) {
      DistinctCons(row, rows);
    } else {
      DistinctTail(rows);
      forall x | x in rows[1..] ensures TimeKey(x) != TimeKey(row) { assert x in rows; }
      InsertDistinct(row, rows[1..]);
      InsertMembers(row, rows[1..]);
      assert rows[0] in rows;
      DistinctCons(rows[0], Insert(row, rows[1..]));
    }
  }

  /** Sorting rows whose timestamps are pairwise distinct leaves them
      strictly ascending; `StrictlyAscendingUnique` shows that order is then
      the only one possible. */
  lemma {:induction false} SortStrictlyAscending<V>(rows: seq<Row<V>>)
    requires DistinctTimes(rows)
    ensures StrictlyAscending(SortByTime(rows))
  {
    SortDistinct(rows);
  }

  lemma StrictTail<V>(s: seq<Row<V>>)
    requires s != [] && StrictlyAscending(s)
    ensures StrictlyAscending(s[1..])
  {
    forall x, y | 0 <= x < y < |s[1..]| ensures TimeKey(s[1..][x]) < TimeKey(s[1..][y]) {
      assert s[1..][x] == s[x + 1] && s[1..][y] == s[y + 1];
    }
  }

  /** The first row of a strictly ascending arrangement has the least time. */
  lemma HeadLeast<V>(s: seq<Row<V>>)
    requires s != [] && StrictlyAscending(s)
    ensures forall k | 0 <= k < |s| :: TimeKey(s[0]) <= TimeKey(s[k])
  {
    forall k | 0 < k < |s| ensures TimeKey(s[0]) <= TimeKey(s[k]) {
      assert TimeKey(s[0]) < TimeKey(s[k]);
    }
  }

  /** Strictly ascending arrangements of the same rows start with the same row. */
  lemma SameHead<V>(a: seq<Row<V>>, b: seq<Row<V>>)
    requires a != [] && b != [] && multiset(a) == multiset(b)
    requires StrictlyAscending(a) && StrictlyAscending(b)
    ensures a[0] == b[0]
  {
    assert a[0] in multiset(b);
    var j :| 0 <= j < |b| && b[j] == a[0];
    assert b[0] in multiset(a);
    var i :| 0 <= i < |a| && a[i] == b[0];
    HeadLeast(a);
    HeadLeast(b);
    assert TimeKey(b[j]) == TimeKey(b[0]);
  }

  lemma TailMultiset<V>(a: seq<Row<V>>, b: seq<Row<V>>)
    requires a != [] && b != [] && a[0] == b[0] && multiset(a) == multiset(b)
    ensures multiset(a[1..]) == multiset(b[1..])
  {
    assert a == [a[0]] + a[1..] && b == [b[0]] + b[1..];
    assert multiset(a) == multiset{a[0]} + multiset(a[1..]);
    assert multiset(b) == multiset{a[0]} + multiset(b[1..]);
    forall z ensures multiset(a[1..])[z] == multiset(b[1..])[z] {
      assert multiset(a)[z] == multiset(b)[z];
    }
  }

  /** Two strictly ascending arrangements of the same rows are equal: with
      distinct times there is exactly one sorted order, whichever algorithm
      produces it. */
  lemma {:induction false} StrictlyAscendingUnique<V>(a: seq<Row<V>>, b: seq<Row<V>>)
    requires multiset(a) == multiset(b)
    requires StrictlyAscending(a) && StrictlyAscending(b)
    ensures a == b
  {
    if a == [] || b == [] {
      assert |a| == |multiset(a)| == |multiset(b)| == |b|;
    } else {
      SameHead(a, b);
      TailMultiset(a, b);
      StrictTail(a);
      StrictTail(b);
      StrictlyAscendingUnique(a[1..], b[1..]);
      assert a == [a[0]] + a[1..] && b == [b[0]] + b[1..];
    }
  }

  lemma {:induction false} SortDistinct<V>(rows: seq<Row<V>>)
    requires DistinctTimes(rows)
    ensures DistinctTimes(SortByTime(rows))
  {
    if rows != [] {
      DistinctTail(rows);
      SortDistinct(rows[1..]);
      var t := SortByTime(rows[1..]);
      forall x | x in t ensures TimeKey(x) != TimeKey(rows[0]) {
        assert x in multiset(rows[1..]);
      }
      InsertDistinct(rows[0], t);
    }
  }
}
