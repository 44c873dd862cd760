/** The destination table and the replace-mode load of lines 64-79. The
    warehouse client itself is not modelled: whether it commits is an input. */
module Warehouse {
  import opened Wrappers
  import opened Rows

  datatype FieldType = TimestampType | FloatType

  datatype Field = Field(name: string, fieldType: FieldType)

  /** Lines 64-69: the explicit schema passed to the load. */
  const Schema: seq<Field> := [
    Field("time", TimestampType),
    Field("price_usd", FloatType),
    Field("market_cap_usd", FloatType),
    Field("volume_usd", FloatType)
  ]

  datatype Table<V> = Table(schema: seq<Field>, rows: seq<Row<V>>)

  /** What the warehouse client answers: credentials and write succeed, or
      one of them fails (authentication, quota, incompatible table, I/O). */
  datatype LoadOutcome = Committed | Rejected

  /** The destination after a replace-mode load: the loaded table whatever
      was there before (or nothing), or the prior state untouched when the
      load is rejected. */
  function AfterLoad<V>(prior: Option<Table<V>>, t: Table<V>, outcome: LoadOutcome): Option<Table<V>> {
    if outcome.Committed? then Some(t) else prior
  }

  /** Loading the same table twice leaves the same destination as loading
      it once. */
  lemma AfterLoadIdempotent<V>(prior: Option<Table<V>>, t: Table<V>, outcome: LoadOutcome)
    ensures AfterLoad(AfterLoad(prior, t, outcome), t, outcome) == AfterLoad(prior, t, outcome)
  {
  }

  /** A committed load keeps nothing of the prior contents: any two prior
      states end up equal. */
  lemma AfterLoadForgetsPrior<V>(a: Option<Table<V>>, b: Option<Table<V>>, t: Table<V>)
    ensures AfterLoad(a, t, Committed) == AfterLoad(b, t, Committed)
  {
  }

  /** The dataset table `MBACDIA_Exercicio10.bitcoin_history_daily`; None
      while it does not exist. */
  class Destination<V> {
    var table: Option<Table<V>>

    constructor (initial: Option<Table<V>>)
      ensures table == initial
    {
      table := initial;
    }

    /** `df.to_gbq(..., if_exists="replace", table_schema=schema, ...)`. */
    method ReplaceLoad(schema: seq<Field>, rows: seq<Row<V>>, outcome: LoadOutcome) returns (ok: bool)
      modifies this
      ensures ok <==> outcome.Committed?
      ensures table == AfterLoad(old(table), Table(schema, rows), outcome)
    {
      ok := outcome.Committed?;
      if ok {
        table := Some(Table(schema, rows));
      }
    }
  }
}
