# Bitcoin daily ETL: merge and replace-load, modelled in Dafny

The Airflow task `fetch_and_to_gbq` (`dags/bitcoin_etl_bigquery_luisa.py`)
fetches 180 days of daily Bitcoin market data from CoinGecko as three series
of `[timestamp_ms, value]` pairs (`prices`, `market_caps`, `total_volumes`).
It aborts when the price series is empty. Otherwise it full-outer-merges the
three series on `time_ms`, derives a UTC `time` column, drops `time_ms`,
sorts by `time`, and replaces the BigQuery table
`MBACDIA_Exercicio10.bitcoin_history_daily` with the result under a fixed
four-column schema.

The model follows that flow module by module:

- `Wrappers`: `Option` (a missing JSON key, or a series without a given
  timestamp) and `Result`.
- `Series`: a series is a `seq<(int, V)>`. The metric values are an opaque
  type `V`, because the job does no arithmetic on them. The module defines
  the key set, the values paired with a key (`Matches`), and `Lookup`.
- `Join`: pandas' `merge(..., on="time_ms", how="outer")` as a function. A
  left row with several right matches gives one row per match, as in pandas'
  cross product. A row missing on one side gets NaN there. `MergeThree` is
  the chain on line 52.
- `Timestamps`: `pd.to_datetime(..., unit="ms", utc=True)` turns a
  millisecond key into a count of nanoseconds since the epoch, the way pandas
  stores `datetime64[ns, UTC]`. The model treats every key whose nanosecond
  count falls outside ±(2^63 − 1) as making the conversion raise. (The one
  key equal to the int64 minimum is an exception in pandas; see
  "## Left out".)
- `Rows`: a row maps column labels to cells. The module holds the row-level
  steps: build the merged rows, add `time`, drop a column, and sort by time.
  The sort is an insertion sort, proved to return an ascending permutation.
- `Frames`: the DataFrame `df` as a class whose methods change its
  `columns` and `rows` in place. They follow lines 48-52, 53
  (`AssignTime`), 54 (`Drop`) and 55 (`SortValues`).
- `Warehouse`: the declared schema, the destination table (`None` while it
  does not exist) and the replace-mode load.
- `Pipeline`: the task as a method, `FetchAndToGbq`. The method is proved
  against the specification functions `Prepare`, `RunOutcome` and
  `NextTable`.
- `PipelineLaws`: what the written table and the destination satisfy.

Things outside the job's own code are inputs: the HTTP response (`Fetch`)
and whether the warehouse client accepts the load (`LoadOutcome`).

Where the prose design and the code differ, the model follows the code:

- A missing key and a JSON `null` behave like an empty series for all three
  series. So a missing or null `prices` is also the empty-price error.
- No merge failure can occur in the code. The only failure between the
  price check and the load is the out-of-range timestamp conversion on
  line 53.

## Model

| member | source | states |
|---|---|---|
| `Series.Matches` | dags/bitcoin_etl_bigquery_luisa.py:52 | the values a series pairs with a timestamp: each is paired with it, every such pairing is listed, and the list is empty exactly when the timestamp is absent |
| `Series.Lookup` | dags/bitcoin_etl_bigquery_luisa.py:52 | a reference for a series' value at a timestamp, independent of how the merge is built: None exactly when the series lacks the timestamp, otherwise a value the series pairs with it. `PipelineLaws.TransformedLookup` compares the written cells against it |
| `Series.LookupUnique` | dags/bitcoin_etl_bigquery_luisa.py:52 | when a series has distinct timestamps, the looked-up value is the one paired with the timestamp |
| `Series.DistinctCard` | dags/bitcoin_etl_bigquery_luisa.py:52 | a series with distinct timestamps has as many timestamps as entries |
| `Join.JoinKeys` | dags/bitcoin_etl_bigquery_luisa.py:52 | the keys of an outer merge are exactly the union of both tables' keys |
| `Join.JoinFidelity` | dags/bitcoin_etl_bigquery_luisa.py:52 | each side of every merged row is NaN exactly when that table lacks the key, and otherwise holds a value that table pairs with the key |
| `Join.JoinDistinct` | dags/bitcoin_etl_bigquery_luisa.py:52 | with distinct keys on both sides, the merge has distinct keys and one row per key of the union |
| `Join.MergeThreeKeys` | dags/bitcoin_etl_bigquery_luisa.py:48-52 | the three-way merge has exactly the union of the three series' timestamps as keys |
| `Join.MergeThreeFaithful` | dags/bitcoin_etl_bigquery_luisa.py:48-52 | the price, market-cap and volume cells of each merged row each agree with their own series at the row's timestamp |
| `Join.MergeThreeCount` | dags/bitcoin_etl_bigquery_luisa.py:52 | with distinct timestamps in every series, the merge has one row per timestamp of the union |
| `Timestamps.FromMillis` | dags/bitcoin_etl_bigquery_luisa.py:53 | the derived time loses nothing: dividing its nanoseconds by 10^6 gives the key back, and it is representable exactly when the key is in range |
| `Timestamps.FromMillisOrder` | dags/bitcoin_etl_bigquery_luisa.py:53-55 | the conversion is strictly increasing and injective, so ordering by `time` is ordering by `time_ms` |
| `Rows.MergedRow` | dags/bitcoin_etl_bigquery_luisa.py:48-52 | a merged row has exactly the columns `time_ms`, `price_usd`, `market_cap_usd`, `volume_usd`, each with a cell of its kind |
| `Rows.MergedRows` | dags/bitcoin_etl_bigquery_luisa.py:48-52 | the merged table has one row per merged entry, and every row conforms to the merge columns |
| `Rows.AddColumn` | dags/bitcoin_etl_bigquery_luisa.py:53 | assigning `df["time"]` leaves the column set widened by `time` |
| `Rows.WithTimeConforms` | dags/bitcoin_etl_bigquery_luisa.py:53 | after `time` is derived, every row conforms to the widened column list |
| `Rows.RemoveColumn` | dags/bitcoin_etl_bigquery_luisa.py:54 | dropping a label removes exactly that label from the column set |
| `Rows.DropColumnConforms` | dags/bitcoin_etl_bigquery_luisa.py:54 | after the drop, every row conforms to the reduced column list |
| `Rows.Insert` | dags/bitcoin_etl_bigquery_luisa.py:55 | inserting a row adds exactly that row to the multiset of rows |
| `Rows.InsertAscending` | dags/bitcoin_etl_bigquery_luisa.py:55 | inserting into rows in ascending time keeps them ascending |
| `Rows.SortByTime` | dags/bitcoin_etl_bigquery_luisa.py:55 | `sort_values("time")` returns a permutation of the rows in ascending time |
| `Rows.SortDistinct` | dags/bitcoin_etl_bigquery_luisa.py:55 | sorting keeps the times pairwise distinct when they were distinct |
| `Rows.SortStrictlyAscending` | dags/bitcoin_etl_bigquery_luisa.py:55 | rows with distinct times come out strictly ascending |
| `Rows.StrictlyAscendingUnique` | dags/bitcoin_etl_bigquery_luisa.py:55 | two strictly ascending arrangements of the same rows are equal, so with distinct times the sorted order does not depend on the sorting algorithm |
| `Frames.Frame.FromSeries` | dags/bitcoin_etl_bigquery_luisa.py:48-52 | the new frame has the merge columns and the merged rows, and every row conforms |
| `Frames.Frame.AssignTime` | dags/bitcoin_etl_bigquery_luisa.py:53 | succeeds exactly when every key converts, and then adds `time` to the columns and to every row; when a key does not convert, the frame is unchanged |
| `Frames.Frame.Drop` | dags/bitcoin_etl_bigquery_luisa.py:54 | removes the column from the column list and from every row, keeping rows conforming |
| `Frames.Frame.SortValues` | dags/bitcoin_etl_bigquery_luisa.py:55 | replaces the rows by their ascending-time permutation; the columns are unchanged |
| `Warehouse.Destination.constructor` | dags/bitcoin_etl_bigquery_luisa.py:62 | the destination starts in the given prior state, which may be no table at all |
| `Warehouse.Destination.ReplaceLoad` | dags/bitcoin_etl_bigquery_luisa.py:71-79 | a committed load leaves exactly the given schema and rows, whatever was there before; a rejected load changes nothing and reports failure |
| `Warehouse.AfterLoadIdempotent` | dags/bitcoin_etl_bigquery_luisa.py:71-79 | loading the same table twice leaves what loading it once leaves |
| `Warehouse.AfterLoadForgetsPrior` | dags/bitcoin_etl_bigquery_luisa.py:74 | after a committed replace, any two prior destination states end up equal |
| `Pipeline.OutputColumnsAre` | dags/bitcoin_etl_bigquery_luisa.py:53-54 | adding `time` and then dropping `time_ms` leaves the columns `price_usd`, `market_cap_usd`, `volume_usd`, `time` |
| `Pipeline.FetchAndToGbq` | dags/bitcoin_etl_bigquery_luisa.py:24-81 | the task reports the outcome and leaves the destination state that the specification functions give; the laws below are about those functions |
| `PipelineLaws.UnsortedRows` | dags/bitcoin_etl_bigquery_luisa.py:48-54 | before the sort, row i is merged entry i with `time` derived and `time_ms` dropped |
| `PipelineLaws.TransformedRowsFrom` | dags/bitcoin_etl_bigquery_luisa.py:48-55 | every written row comes from a merged entry, and every merged entry yields a written row |
| `PipelineLaws.TransformedColumns` | dags/bitcoin_etl_bigquery_luisa.py:48-54 | every written row has exactly the columns `time`, `price_usd`, `market_cap_usd`, `volume_usd`, with cells of their kind and no `time_ms` |
| `PipelineLaws.SchemaMatchesColumns` | dags/bitcoin_etl_bigquery_luisa.py:64-69 | the declared schema has exactly one field per output column, with TIMESTAMP for `time` and FLOAT for the value columns |
| `PipelineLaws.TransformedCoverage` | dags/bitcoin_etl_bigquery_luisa.py:48-53 | the set of row times is exactly the set of converted timestamps of the three series' union: none is dropped and none is invented |
| `PipelineLaws.TransformedFidelity` | dags/bitcoin_etl_bigquery_luisa.py:48-53 | each written row's time comes from a timestamp of the union; each value column is NaN exactly when its series lacks that timestamp, and otherwise holds a value its series pairs with it |
| `PipelineLaws.TransformedLookup` | dags/bitcoin_etl_bigquery_luisa.py:48-52 | with distinct timestamps, each value column holds exactly the value its series pairs with the row's timestamp, or NaN |
| `PipelineLaws.TransformedCount` | dags/bitcoin_etl_bigquery_luisa.py:52-55 | with distinct timestamps in every series, the table has exactly one row per timestamp of the union |
| `PipelineLaws.TransformedAligned` | dags/bitcoin_etl_bigquery_luisa.py:52 | when the three series carry the same timestamps, no value cell of any row is NaN |
| `PipelineLaws.UnsortedDistinctTimes` | dags/bitcoin_etl_bigquery_luisa.py:52-53 | with distinct timestamps in every series, the unsorted rows have pairwise distinct times |
| `PipelineLaws.TransformedOrder` | dags/bitcoin_etl_bigquery_luisa.py:53-55 | the written rows are a permutation of the merged rows, in ascending time; with distinct timestamps they are strictly ascending in both `time` and the original millisecond key |
| `PipelineLaws.TransformedOrderUnique` | dags/bitcoin_etl_bigquery_luisa.py:55 | with distinct timestamps, every arrangement of the unsorted rows in strictly ascending time is the written table, so an unstable sort writes the same table |
| `PipelineLaws.MergedInRange` | dags/bitcoin_etl_bigquery_luisa.py:53 | the time conversion succeeds exactly when every timestamp of the union is in range |
| `PipelineLaws.PrepareErrors` | dags/bitcoin_etl_bigquery_luisa.py:36-55 | a transport failure gives `UpstreamUnavailable`. An empty or missing price series gives `NoDataReturned`, exactly then. An unconvertible timestamp gives `TimestampOutOfRange`, exactly then. Otherwise the run succeeds with the transformed rows, whatever the market-cap and volume series are |
| `PipelineLaws.RunReplacesDestination` | dags/bitcoin_etl_bigquery_luisa.py:60-81 | a failed run leaves the destination as it was. A run succeeds exactly when preparation succeeds and the load commits. It then leaves exactly the prepared rows under the fixed schema and reports their number |
| `PipelineLaws.RunIdempotent` | dags/bitcoin_etl_bigquery_luisa.py:71-79 | running twice on the same fetched data leaves the same destination as running once |
| `PipelineLaws.EmptyPricesScenario` | dags/bitcoin_etl_bigquery_luisa.py:40-45 | `prices: []` with non-empty market caps and volumes fails with `NoDataReturned` and writes nothing |
| `PipelineLaws.TwoDayScenario` | dags/bitcoin_etl_bigquery_luisa.py:48-55 | two days of prices, a market cap on day one and a volume on day two give two rows in time order, with NaN where a series is silent |

## Left out

- The HTTP request to the market-chart endpoint, `raise_for_status`, the 60-second timeout and JSON decoding (lines 29-38) are not modelled. The run takes their result as an input: a decoded payload or a transport failure.
- A malformed body is not modelled: a non-object body, or entries that are not `[timestamp, value]` pairs. The series are typed as pairs.
- A value supplied as `null` or NaN (an entry such as `[ts, null]`, which pandas reads as NaN on lines 48-50) is not modelled: every supplied value is a `Num` cell. The model's empty cell `Null`, called NaN in the rows above, means only that the series lacks the timestamp.
- A key equal to the int64 minimum (-9223372036854775808) is not modelled as pandas handles it. pandas reads that value as its NaT sentinel on line 53, so the run goes on and writes a row whose `time` is NULL. The model treats the key as out of range and fails the run with `TimestampOutOfRange`.
- Credential acquisition (lines 60-61) and the pandas-gbq upload are not modelled. Their combined success or failure is an input, and the destination is an abstract table value that is replaced as a whole. Atomicity of the replace belongs to the warehouse.
- The pandas-gbq field order is not modelled: the destination's schema is the declared field list. The per-column dtypes pandas infers are not modelled either.
- The Airflow DAG and task decoration, the schedule, `max_active_runs`, the owner and e-mail defaults (lines 18-23, 83-98) are orchestration outside the model.
- The configuration constants and the `print` of the preview and of the count (lines 11-15, 57, 81) are not modelled. The count itself is the `Loaded` outcome.
- The float values are an opaque type: the job does no arithmetic on them.
- Calendar rendering of the UTC timestamp is not modelled: a time is its nanosecond count since the epoch. The range check takes the representable range to be ±(2^63 − 1) ns.
- The order pandas gives the rows of an outer merge (sorted by key) is not modelled: the model lists left rows and then right-only rows. After the sort this matters only among rows with equal times.
- Sort stability is not modelled. `sort_values` defaults to an unstable quicksort, while the model's insertion sort is stable. So with duplicate timestamps, the order among rows of equal time may differ from pandas. With distinct timestamps the order is unique (`PipelineLaws.TransformedOrderUnique`).
- `PipelineLaws.TransformedCount`: the row count is stated only for series with distinct timestamps. With duplicates the merge yields pandas' cross product; coverage and fidelity are proved for it, but its size is not stated.
