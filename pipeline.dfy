/** The task `fetch_and_to_gbq` (lines 24-81): extract the three series,
    refuse an empty price series, merge, derive `time`, drop `time_ms`,
    sort, and replace the destination table. */
module Pipeline {
  import opened Wrappers
  import opened Series
  import opened Join
  import opened Timestamps
  import opened Rows
  import opened Frames
  import opened Warehouse

  /** The decoded JSON body. None stands for a missing key or a JSON null;
      both behave as an empty series (`payload.get(key, [])`, and a frame
      built from None is empty). */
  datatype Payload<V> = Payload(prices: Option<Series<V>>, marketCaps: Option<Series<V>>,
                                totalVolumes: Option<Series<V>>)

  /** What the HTTP request yields: a decoded body, or a transport failure,
      timeout or non-success status (`raise_for_status`). */
  datatype Fetch<V> = Fetched(payload: Payload<V>) | TransportFailure

  datatype RunError =
    | UpstreamUnavailable    // lines 36-38
    | NoDataReturned         // lines 44-45, the ValueError
    | TimestampOutOfRange    // line 53, the conversion raises
    | WarehouseWriteError    // lines 60-61 and 71-79

  datatype Outcome = Loaded(count: nat) | Failed(error: RunError)

  /** The columns left after line 54: the three value columns and `time`. */
  const OutputColumns: seq<Column> := [PriceUsd, MarketCapUsd, VolumeUsd, Time]

  /** Lines 53 and 54 turn the merged columns into the output columns. */
  lemma OutputColumnsAre()
    ensures RemoveColumn(AddColumn(MergeColumns, Time), TimeMs) == OutputColumns
  {
    assert AddColumn(MergeColumns, Time) == [TimeMs, PriceUsd, MarketCapUsd, VolumeUsd, Time];
    assert [TimeMs, PriceUsd, MarketCapUsd, VolumeUsd, Time][1..] == [PriceUsd, MarketCapUsd, VolumeUsd, Time];
  }

  /** Lines 53-55 applied to the merged rows of lines 48-52. */
  function Transformed<V(==)>(prices: Series<V>, caps: Series<V>, vols: Series<V>): seq<Row<V>> {
    SortByTime(DropColumn(WithTime(MergedRows(prices, caps, vols)), TimeMs))
  }

  /** Everything before the load: the rows to write, or the error raised. */
  function Prepare<V(==)>(fetch: Fetch<V>): Result<seq<Row<V>>, RunError> {
    match fetch
    case TransportFailure => Err(UpstreamUnavailable)
    case Fetched(payload) =>
      var prices := payload.prices.GetOr([]);
      var caps := payload.marketCaps.GetOr([]);
      var vols := payload.totalVolumes.GetOr([]);
      if prices == [] then Err(NoDataReturned)
      else if !AllInRange(MergedRows(prices, caps, vols)) then Err(TimestampOutOfRange)
      else Ok(Transformed(prices, caps, vols))
  }

  /** What a run reports: the number of rows loaded (line 81) or its error. */
  function RunOutcome<V(==)>(fetch: Fetch<V>, load: LoadOutcome): Outcome {
    match Prepare(fetch)
    case Err(e) => Failed(e)
    case Ok(rows) => if load.Committed? then Loaded(|rows|) else Failed(WarehouseWriteError)
  }

  /** The destination after a run. */
  function NextTable<V(==)>(prior: Option<Table<V>>, fetch: Fetch<V>, load: LoadOutcome): Option<Table<V>> {
    match Prepare(fetch)
    case Err(_) => prior
    case Ok(rows) => AfterLoad(prior, Table(Schema, rows), load)
  }

  /** The task itself. */
  method FetchAndToGbq<V(==)>(fetch: Fetch<V>, load: LoadOutcome, dest: Destination<V>)
    returns (outcome: Outcome)
    modifies dest
    ensures outcome == RunOutcome(fetch, load)
    ensures dest.table == NextTable(old(dest.table), fetch, load)
  {
    if fetch.TransportFailure? {
      return Failed(UpstreamUnavailable);
    }
    var prices := fetch.payload.prices.GetOr([]);
    var caps := fetch.payload.marketCaps.GetOr([]);
    var vols := fetch.payload.totalVolumes.GetOr([]);
    if prices == [] {
      return Failed(NoDataReturned);
    }
    var df := new Frame.FromSeries(prices, caps, vols);
    var ok := df.AssignTime();
    if !ok {
      return Failed(TimestampOutOfRange);
    }
    df.Drop(TimeMs);
    OutputColumnsAre();
    df.SortValues();
    var loaded := dest.ReplaceLoad(Schema, df.rows, load);
    if !loaded {
      return Failed(WarehouseWriteError);
    }
    return Loaded(|df.rows|);
  }
}
