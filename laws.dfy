/** What the job promises about the table it writes and about the
    destination, stated over the specification functions of Pipeline. */
module PipelineLaws {
  import opened Wrappers
  import opened Series
  import opened Join
  import opened Timestamps
  import opened Rows
  import opened Warehouse
  import opened Pipeline

  /** Every timestamp any of the three series mentions. */
  function Union<V>(prices: Series<V>, caps: Series<V>, vols: Series<V>): set<int> {
    Keys(prices) + Keys(caps) + Keys(vols)
  }

  /** The row a merged entry becomes once `time` is derived and `time_ms`
      dropped. */
  function OutputRow<V>(e: (int, Pair<Pair<V, V>, V>)): Row<V> {
    map[PriceUsd := CellOf(PriceOf(e)), MarketCapUsd := CellOf(CapOf(e)),
        VolumeUsd := CellOf(VolumeOf(e)), Time := Stamp(FromMillis(e.0))]
  }

  lemma OutputRowShape<V>(e: (int, Pair<Pair<V, V>, V>))
    ensures OutputRow(e).Keys == {Time, PriceUsd, MarketCapUsd, VolumeUsd}
    ensures TimeMs !in OutputRow(e)
    ensures Conforms(OutputRow(e), OutputColumns)
    ensures TimeOf(OutputRow(e)) == FromMillis(e.0)
  {
    assert ColumnSet(OutputColumns) == {Time, PriceUsd, MarketCapUsd, VolumeUsd};
  }

  /** A value cell agrees with series `s` at key `k`: NaN exactly when `s`
      lacks `k`, otherwise a value `s` pairs with `k`. */
  ghost predicate CellAgrees<V>(cell: Cell<V>, s: Series<V>, k: int) {
    (cell.Num? || cell.Null?) && (cell.Null? <==> k !in Keys(s)) && (cell.Num? ==> (k, cell.v) in s)
  }

  // ---- The rows before sorting ----

  lemma UnsortedRows<V>(prices: Series<V>, caps: Series<V>, vols: Series<V>)
    ensures var j := MergeThree(prices, caps, vols);
            var d := DropColumn(WithTime(MergedRows(prices, caps, vols)), TimeMs);
            |d| == |j| && forall i | 0 <= i < |d| :: d[i] == OutputRow(j[i])
  {
    var j := MergeThree(prices, caps, vols);
    var m := MergedRows(prices, caps, vols);
    var d := DropColumn(WithTime(m), TimeMs);
    forall i | 0 <= i < |d| ensures d[i] == OutputRow(j[i]) {
      assert m[i] == MergedRow(j[i]);
      assert MillisOf(m[i]) == j[i].0;
      assert d[i].Keys == OutputRow(j[i]).Keys;
    }
  }

  /** The written rows are exactly the output rows of the merged entries:
      each written row comes from a merged entry, and each merged entry
      yields a written row. */
  lemma TransformedRowsFrom<V>(prices: Series<V>, caps: Series<V>, vols: Series<V>)
    ensures forall x | x in Transformed(prices, caps, vols) ::
      exists e | e in MergeThree(prices, caps, vols) :: x == OutputRow(e)
    ensures forall e | e in MergeThree(prices, caps, vols) ::
      OutputRow(e) in Transformed(prices, caps, vols)
  {
    var j := MergeThree(prices, caps, vols);
    var d := DropColumn(WithTime(MergedRows(prices, caps, vols)), TimeMs);
    var t := Transformed(prices, caps, vols);
    UnsortedRows(prices, caps, vols);
    forall x | x in t ensures exists e | e in j :: x == OutputRow(e) {
      assert x in multiset(d);
      var i :| 0 <= i < |d| && d[i] == x;
      assert j[i] in j;
    }
    forall e | e in j ensures OutputRow(e) in t {
      var i :| 0 <= i < |j| && j[i] == e;
      assert d[i] in multiset(t);
    }
  }

  // ---- Schema ----

  /** Every written row has exactly the four output columns, with cells of
      their kind, and no `time_ms`. */
  lemma TransformedColumns<V>(prices: Series<V>, caps: Series<V>, vols: Series<V>)
    ensures forall x | x in Transformed(prices, caps, vols) ::
      Conforms(x, OutputColumns) && x.Keys == {Time, PriceUsd, MarketCapUsd, VolumeUsd} && TimeMs !in x
  {
    TransformedRowsFrom(prices, caps, vols);
    forall x | x in Transformed(prices, caps, vols)
      ensures Conforms(x, OutputColumns) && x.Keys == {Time, PriceUsd, MarketCapUsd, VolumeUsd} && TimeMs !in x
    {
      var e :| e in MergeThree(prices, caps, vols) && x == OutputRow(e);
      OutputRowShape(e);
    }
  }

  /** The schema field an output column needs: its label, TIMESTAMP for
      `time` and FLOAT for the value columns. */
  function FieldFor(c: Column): Field {
    Field(Name(c), if c == Time then TimestampType else FloatType)
  }

  /** The schema passed to the load declares exactly the output columns,
      each with the type of its cells, and nothing else. */
  lemma SchemaMatchesColumns()
    ensures forall c | c in OutputColumns :: FieldFor(c) in Schema
    ensures forall f | f in Schema :: exists c | c in OutputColumns :: f == FieldFor(c)
    ensures |Schema| == |OutputColumns|
  {
    assert FieldFor(OutputColumns[0]) == Schema[1];
    assert FieldFor(OutputColumns[1]) == Schema[2];
    assert FieldFor(OutputColumns[2]) == Schema[3];
    assert FieldFor(OutputColumns[3]) == Schema[0];
  }

  // ---- Coverage: the outer join keeps every timestamp and invents none ----

  lemma TransformedCoverage<V>(prices: Series<V>, caps: Series<V>, vols: Series<V>)
    ensures (set x | x in Transformed(prices, caps, vols) :: TimeOf(x))
         == (set k | k in Union(prices, caps, vols) :: FromMillis(k))
  {
    var j := MergeThree(prices, caps, vols);
    var t := Transformed(prices, caps, vols);
    TransformedRowsFrom(prices, caps, vols);
    MergeThreeKeys(prices, caps, vols);
    forall x | x in t ensures TimeOf(x) in (set k | k in Union(prices, caps, vols) :: FromMillis(k)) {
      var e :| e in j && x == OutputRow(e);
      var i :| 0 <= i < |j| && j[i] == e;
      assert e.0 in Keys(j);
      OutputRowShape(e);
    }
    forall k | k in Union(prices, caps, vols) ensures FromMillis(k) in (set x | x in t :: TimeOf(x)) {
      var i :| 0 <= i < |j| && j[i].0 == k;
      assert j[i] in j;
      OutputRowShape(j[i]);
      assert OutputRow(j[i]) in t;
    }
  }

  // ---- Field fidelity ----

  lemma CellOfAgrees<V>(o: Option<V>, s: Series<V>, k: int)
    requires Agrees(o, s, k)
    ensures CellAgrees(CellOf(o), s, k)
  {
  }

  /** A written row is faithful to the three series: it carries a
      timestamp `k` of the union, and each value column holds what its
      series pairs with `k`, or NaN exactly when the series lacks `k`. */
  ghost predicate RowFaithful<V>(x: Row<V>, prices: Series<V>, caps: Series<V>, vols: Series<V>) {
    var k := ToMillis(TimeOf(x));
    && x.Keys == {Time, PriceUsd, MarketCapUsd, VolumeUsd}
    && k in Union(prices, caps, vols)
    && x[Time] == Stamp(FromMillis(k))
    && CellAgrees(x[PriceUsd], prices, k)
    && CellAgrees(x[MarketCapUsd], caps, k)
    && CellAgrees(x[VolumeUsd], vols, k)
  }

  lemma OutputRowFaithful<V>(e: (int, Pair<Pair<V, V>, V>), prices: Series<V>, caps: Series<V>, vols: Series<V>)
    requires e.0 in Union(prices, caps, vols)
    requires Agrees(PriceOf(e), prices, e.0) && Agrees(CapOf(e), caps, e.0) && Agrees(VolumeOf(e), vols, e.0)
    ensures RowFaithful(OutputRow(e), prices, caps, vols)
  {
    FromMillisOrder(e.0, e.0);
    OutputRowShape(e);
    CellOfAgrees(PriceOf(e), prices, e.0);
    CellOfAgrees(CapOf(e), caps, e.0);
    CellOfAgrees(VolumeOf(e), vols, e.0);
  }

  lemma MergedEntryFaithful<V>(e: (int, Pair<Pair<V, V>, V>), prices: Series<V>, caps: Series<V>, vols: Series<V>)
    requires e in MergeThree(prices, caps, vols)
    ensures RowFaithful(OutputRow(e), prices, caps, vols)
  {
    var j := MergeThree(prices, caps, vols);
    MergeThreeKeys(prices, caps, vols);
    MergeThreeFaithful(prices, caps, vols);
    var i :| 0 <= i < |j| && j[i] == e;
    assert e.0 in Keys(j);
    OutputRowFaithful(e, prices, caps, vols);
  }

  /** Field fidelity of every written row. */
  lemma TransformedFidelity<V>(prices: Series<V>, caps: Series<V>, vols: Series<V>)
    ensures forall x | x in Transformed(prices, caps, vols) :: RowFaithful(x, prices, caps, vols)
  {
    TransformedRowsFrom(prices, caps, vols);
    forall x | x in Transformed(prices, caps, vols) ensures RowFaithful(x, prices, caps, vols) {
      var e :| e in MergeThree(prices, caps, vols) && x == OutputRow(e);
      MergedEntryFaithful(e, prices, caps, vols);
    }
  }

  /** With distinct timestamps in every series, each value column holds
      exactly the value its series pairs with the row's timestamp. */
  lemma TransformedLookup<V>(prices: Series<V>, caps: Series<V>, vols: Series<V>)
    requires DistinctKeys(prices) && DistinctKeys(caps) && DistinctKeys(vols)
    ensures forall x | x in Transformed(prices, caps, vols) ::
      var k := ToMillis(TimeOf(x));
      && x.Keys == {Time, PriceUsd, MarketCapUsd, VolumeUsd}
      && x[PriceUsd] == CellOf(Lookup(prices, k))
      && x[MarketCapUsd] == CellOf(Lookup(caps, k))
      && x[VolumeUsd] == CellOf(Lookup(vols, k))
  {
    TransformedFidelity(prices, caps, vols);
    forall x | x in Transformed(prices, caps, vols)
      ensures x.Keys == {Time, PriceUsd, MarketCapUsd, VolumeUsd}
      ensures var k := ToMillis(TimeOf(x));
        && x[PriceUsd] == CellOf(Lookup(prices, k))
        && x[MarketCapUsd] == CellOf(Lookup(caps, k))
        && x[VolumeUsd] == CellOf(Lookup(vols, k))
    {
      var k := ToMillis(TimeOf(x));
      CellMatchesLookup(x[PriceUsd], prices, k);
      CellMatchesLookup(x[MarketCapUsd], caps, k);
      CellMatchesLookup(x[VolumeUsd], vols, k);
    }
  }

  lemma CellMatchesLookup<V>(cell: Cell<V>, s: Series<V>, k: int)
    requires DistinctKeys(s) && CellAgrees(cell, s, k)
    ensures cell == CellOf(Lookup(s, k))
  {
    if cell.Num? {
      LookupUnique(s, k, cell.v);
    }
  }

  // ---- Row count ----

  /** With distinct timestamps in every series there is exactly one row per
      timestamp of the union, so the count reported on line 81 is the size
      of the union. */
  lemma TransformedCount<V>(prices: Series<V>, caps: Series<V>, vols: Series<V>)
    requires DistinctKeys(prices) && DistinctKeys(caps) && DistinctKeys(vols)
    ensures |Transformed(prices, caps, vols)| == |Union(prices, caps, vols)|
  {
    MergeThreeCount(prices, caps, vols);
    MergeThreeKeys(prices, caps, vols);
    UnsortedRows(prices, caps, vols);
    var d := DropColumn(WithTime(MergedRows(prices, caps, vols)), TimeMs);
    assert |multiset(Transformed(prices, caps, vols))| == |multiset(d)|;
  }

  // ---- Completeness when the series are aligned ----

  /** When all three series carry the same timestamps, no value cell of any
      written row is NaN. */
  lemma TransformedAligned<V>(prices: Series<V>, caps: Series<V>, vols: Series<V>)
    requires Keys(prices) == Keys(caps) == Keys(vols)
    ensures forall x | x in Transformed(prices, caps, vols) ::
      x.Keys == {Time, PriceUsd, MarketCapUsd, VolumeUsd}
      && x[PriceUsd].Num? && x[MarketCapUsd].Num? && x[VolumeUsd].Num?
  {
    TransformedFidelity(prices, caps, vols);
    forall x | x in Transformed(prices, caps, vols)
      ensures x.Keys == {Time, PriceUsd, MarketCapUsd, VolumeUsd}
      ensures x[PriceUsd].Num? && x[MarketCapUsd].Num? && x[VolumeUsd].Num?
    {
      assert RowFaithful(x, prices, caps, vols);
    }
  }

  // ---- Order ----

  /** The written rows are a permutation of the merged rows, in ascending
      `time`. With distinct timestamps in every series they are strictly
      ascending, in `time` and in the original millisecond key alike. */
  lemma TransformedOrder<V>(prices: Series<V>, caps: Series<V>, vols: Series<V>)
    ensures multiset(Transformed(prices, caps, vols))
         == multiset(DropColumn(WithTime(MergedRows(prices, caps, vols)), TimeMs))
    ensures Ascending(Transformed(prices, caps, vols))
    ensures DistinctKeys(prices) && DistinctKeys(caps) && DistinctKeys(vols) ==>
      var t := Transformed(prices, caps, vols);
      forall a, b | 0 <= a < b < |t| ::
        TimeKey(t[a]) < TimeKey(t[b]) && ToMillis(TimeOf(t[a])) < ToMillis(TimeOf(t[b]))
  {
    if DistinctKeys(prices) && DistinctKeys(caps) && DistinctKeys(vols) {
      var t := Transformed(prices, caps, vols);
      UnsortedDistinctTimes(prices, caps, vols);
      SortStrictlyAscending(DropColumn(WithTime(MergedRows(prices, caps, vols)), TimeMs));
      TransformedFidelity(prices, caps, vols);
      forall a, b | 0 <= a < b < |t|
        ensures ToMillis(TimeOf(t[a])) < ToMillis(TimeOf(t[b]))
      {
        assert RowFaithful(t[a], prices, caps, vols) && RowFaithful(t[b], prices, caps, vols);
        FromMillisOrder(ToMillis(TimeOf(t[a])), ToMillis(TimeOf(t[b])));
      }
    }
  }

  /** With distinct timestamps, any arrangement of the unsorted rows in
      strictly ascending time is the written table, so an unstable sort
      yields the same table as the model's insertion sort. */
  lemma TransformedOrderUnique<V>(prices: Series<V>, caps: Series<V>, vols: Series<V>,
                                  other: seq<Row<V>>)
    requires DistinctKeys(prices) && DistinctKeys(caps) && DistinctKeys(vols)
    requires multiset(other) == multiset(DropColumn(WithTime(MergedRows(prices, caps, vols)), TimeMs))
    requires StrictlyAscending(other)
    ensures other == Transformed(prices, caps, vols)
  {
    UnsortedDistinctTimes(prices, caps, vols);
    SortStrictlyAscending(DropColumn(WithTime(MergedRows(prices, caps, vols)), TimeMs));
    StrictlyAscendingUnique(other, Transformed(prices, caps, vols));
  }

  /** Before the sort, distinct timestamps in every series give rows with
      pairwise distinct times. */
  lemma UnsortedDistinctTimes<V>(prices: Series<V>, caps: Series<V>, vols: Series<V>)
    requires DistinctKeys(prices) && DistinctKeys(caps) && DistinctKeys(vols)
    ensures DistinctTimes(DropColumn(WithTime(MergedRows(prices, caps, vols)), TimeMs))
  {
    var j := MergeThree(prices, caps, vols);
    var d := DropColumn(WithTime(MergedRows(prices, caps, vols)), TimeMs);
    MergeThreeCount(prices, caps, vols);
    UnsortedRows(prices, caps, vols);
    forall a, b | 0 <= a < b < |d| ensures TimeKey(d[a]) != TimeKey(d[b]) {
      OutputRowShape(j[a]);
      OutputRowShape(j[b]);
      FromMillisOrder(j[a].0, j[b].0);
    }
  }

  // ---- Errors ----

  lemma MergedMillis<V>(prices: Series<V>, caps: Series<V>, vols: Series<V>)
    ensures var j := MergeThree(prices, caps, vols);
            var m := MergedRows(prices, caps, vols);
            |m| == |j| && forall i | 0 <= i < |m| :: MillisOf(m[i]) == j[i].0
  {
  }

  /** Every merged key converts exactly when every timestamp of the union
      does. */
  lemma MergedInRange<V>(prices: Series<V>, caps: Series<V>, vols: Series<V>)
    ensures AllInRange(MergedRows(prices, caps, vols))
        <==> forall k | k in Union(prices, caps, vols) :: InRange(k)
  {
    var j := MergeThree(prices, caps, vols);
    var m := MergedRows(prices, caps, vols);
    MergeThreeKeys(prices, caps, vols);
    MergedMillis(prices, caps, vols);
    if AllInRange(m) {
      forall k | k in Union(prices, caps, vols) ensures InRange(k) {
        var i :| 0 <= i < |j| && j[i].0 == k;
        assert MillisOf(m[i]) == k;
      }
    }
    if forall k | k in Union(prices, caps, vols) :: InRange(k) {
      forall i | 0 <= i < |m| ensures InRange(MillisOf(m[i])) {
        assert j[i].0 in Keys(j);
      }
    }
  }

  /** The run fails before anything is written exactly when the request
      fails, the price series is empty or missing, or some timestamp cannot
      be converted; missing or empty market-cap and volume series are never
      by themselves an error. */
  lemma PrepareErrors<V>(payload: Payload<V>)
    ensures var p := payload.prices.GetOr([]);
            var c := payload.marketCaps.GetOr([]);
            var v := payload.totalVolumes.GetOr([]);
            && (Prepare(Fetched(payload)) == Err(NoDataReturned) <==> p == [])
            && (Prepare(Fetched(payload)) == Err(TimestampOutOfRange)
                <==> p != [] && exists k | k in Union(p, c, v) :: !InRange(k))
            && (Prepare(Fetched(payload)).Ok?
                <==> p != [] && forall k | k in Union(p, c, v) :: InRange(k))
            && (Prepare(Fetched(payload)).Ok? ==> Prepare(Fetched(payload)).value == Transformed(p, c, v))
    ensures Prepare(Fetch<V>.TransportFailure) == Err(UpstreamUnavailable)
  {
    MergedInRange(payload.prices.GetOr([]), payload.marketCaps.GetOr([]), payload.totalVolumes.GetOr([]));
  }

  // ---- The destination ----

  /** A failed run leaves the destination as it was; a successful one leaves
      exactly the prepared rows under the fixed schema, whatever was there
      before, and reports how many rows it wrote. */
  lemma RunReplacesDestination<V>(prior: Option<Table<V>>, fetch: Fetch<V>, load: LoadOutcome)
    ensures RunOutcome(fetch, load).Failed? ==> NextTable(prior, fetch, load) == prior
    ensures RunOutcome(fetch, load).Loaded? <==> Prepare(fetch).Ok? && load.Committed?
    ensures RunOutcome(fetch, load).Loaded? ==>
      && NextTable(prior, fetch, load) == Some(Table(Schema, Prepare(fetch).value))
      && RunOutcome(fetch, load).count == |Prepare(fetch).value|
  {
  }

  /** Running the job twice on the same fetched data leaves the same
      destination as running it once. */
  lemma RunIdempotent<V>(prior: Option<Table<V>>, fetch: Fetch<V>, load: LoadOutcome)
    ensures NextTable(NextTable(prior, fetch, load), fetch, load) == NextTable(prior, fetch, load)
  {
  }

  // ---- Two concrete runs ----

  /** `prices: []`, `market_caps: [[1, a]]`, `total_volumes: [[1, b]]`: the
      run fails with NoDataReturned and nothing is written. */
  lemma EmptyPricesScenario<V>(a: V, b: V, prior: Option<Table<V>>, load: LoadOutcome)
    ensures var f := Fetched(Payload(Some([]), Some([(1, a)]), Some([(1, b)])));
            RunOutcome(f, load) == Failed(NoDataReturned) && NextTable(prior, f, load) == prior
  {
  }

  /** The first merge of the two-day example. */
  lemma TwoDayPricesCaps<V>(p1: V, p2: V, cap: V)
    ensures OuterJoin([(1700000000000, p1), (1700086400000, p2)], [(1700000000000, cap)])
         == [(1700000000000, Pair(Some(p1), Some(cap))), (1700086400000, Pair(Some(p2), None))]
  {
    var k1, k2 := 1700000000000, 1700086400000;
    var prices, caps := [(k1, p1), (k2, p2)], [(k1, cap)];
    assert prices[1..] == [(k2, p2)] && |caps[1..]| == 0;
    assert Matches(caps, k1) == [cap];
    assert Matches(caps, k2) == [];
    var e1 := Expand(k1, p1, [cap]);
    assert e1 == [(k1, Pair(Some(p1), Some(cap)))] by { assert |e1| == 1 && e1[0] == (k1, Pair(Some(p1), Some(cap))); }
    assert LeftPart(prices[1..], caps) == [(k2, Pair(Some(p2), None))];
    assert LeftPart(prices, caps) == e1 + LeftPart(prices[1..], caps);
    KeysCons(prices);
    KeysCons(prices[1..]);
    assert RightOnly<V, V>(caps, Keys(prices)) == [];
  }

  /** The second merge of the two-day example. */
  lemma TwoDayVolumes<V>(p1: V, p2: V, cap: V, vol: V)
    ensures OuterJoin([(1700000000000, Pair(Some(p1), Some(cap))), (1700086400000, Pair(Some(p2), None))],
                      [(1700086400000, vol)])
         == [(1700000000000, Pair(Some(Pair(Some(p1), Some(cap))), None)),
             (1700086400000, Pair(Some(Pair(Some(p2), None)), Some(vol)))]
  {
    var k1, k2 := 1700000000000, 1700086400000;
    var pc: Series<Pair<V, V>> := [(k1, Pair(Some(p1), Some(cap))), (k2, Pair(Some(p2), None))];
    var vols: Series<V> := [(k2, vol)];
    assert pc[1..] == [(k2, Pair(Some(p2), None))] && |pc[1..][1..]| == 0 && |vols[1..]| == 0;
    assert Matches(vols, k1) == [];
    assert Matches(vols, k2) == [vol];
    var e2 := Expand(k2, Pair(Some(p2), None), [vol]);
    assert e2 == [(k2, Pair(Some(Pair(Some(p2), None)), Some(vol)))] by {
      assert |e2| == 1 && e2[0] == (k2, Pair(Some(Pair(Some(p2), None)), Some(vol)));
    }
    assert LeftPart(pc[1..], vols) == e2 + LeftPart(pc[1..][1..], vols);
    assert LeftPart(pc, vols) == [(k1, Pair(Some(Pair(Some(p1), Some(cap))), None))] + LeftPart(pc[1..], vols);
    KeysCons(pc);
    KeysCons(pc[1..]);
    assert RightOnly<Pair<V, V>, V>(vols, Keys(pc)) == [];
  }

  lemma SortTwo<V>(r1: Row<V>, r2: Row<V>)
    requires TimeKey(r1) <= TimeKey(r2)
    ensures SortByTime([r1, r2]) == [r1, r2]
  {
    assert [r1, r2][1..] == [r2];
    assert SortByTime([r2]) == Insert(r2, []);
  }

  lemma TwoDayOutputRows<V>(p1: V, p2: V, cap: V, vol: V)
    ensures OutputRow((1700000000000, Pair(Some(Pair(Some(p1), Some(cap))), None)))
         == map[PriceUsd := Num(p1), MarketCapUsd := Num(cap), VolumeUsd := Null,
                Time := Stamp(Timestamp(1700000000000000000))]
    ensures OutputRow((1700086400000, Pair(Some(Pair(Some(p2), None)), Some(vol))))
         == map[PriceUsd := Num(p2), MarketCapUsd := Null, VolumeUsd := Num(vol),
                Time := Stamp(Timestamp(1700086400000000000))]
  {
  }

  /** Two days of prices, a market cap for the first and a volume for the
      second: two rows in time order, with NaN where a series is silent. */
  lemma TwoDayScenario<V>(p1: V, p2: V, cap: V, vol: V)
    ensures var prices := [(1700000000000, p1), (1700086400000, p2)];
            var caps := [(1700000000000, cap)];
            var vols := [(1700086400000, vol)];
            Transformed(prices, caps, vols) == [
              map[PriceUsd := Num(p1), MarketCapUsd := Num(cap), VolumeUsd := Null,
                  Time := Stamp(Timestamp(1700000000000000000))],
              map[PriceUsd := Num(p2), MarketCapUsd := Null, VolumeUsd := Num(vol),
                  Time := Stamp(Timestamp(1700086400000000000))]]
  {
    var prices := [(1700000000000, p1), (1700086400000, p2)];
    var caps := [(1700000000000, cap)];
    var vols := [(1700086400000, vol)];
    TwoDayPricesCaps(p1, p2, cap);
    TwoDayVolumes(p1, p2, cap, vol);
    var j := MergeThree(prices, caps, vols);
    UnsortedRows(prices, caps, vols);
    TwoDayOutputRows(p1, p2, cap, vol);
    var d := DropColumn(WithTime(MergedRows(prices, caps, vols)), TimeMs);
    assert d == [OutputRow(j[0]), OutputRow(j[1])];
    SortTwo(OutputRow(j[0]), OutputRow(j[1]));
  }
}
