/** The full outer merge of keyed tables on the timestamp column, as
    `DataFrame.merge(other, on="time_ms", how="outer")` performs it, and the
    three-way chain prices ⋈ market caps ⋈ volumes. */
module Join {
  import opened Wrappers
  import opened Series

  /** The non-key columns of one merged row: a column of a table that has no
      row for the key holds NaN (None). */
  datatype Pair<X, Y> = Pair(left: Option<X>, right: Option<Y>)

  /** The rows a left row `(k, x)` contributes: one per right value with the
      same key (pandas' cross product), or one row with a NaN right side. */
  function Expand<X, Y>(k: int, x: X, ys: seq<Y>): (e: Series<Pair<X, Y>>)
    ensures Keys(e) == {k}
    ensures |e| == if ys == [] then 1 else |ys|
  {
    var e := if ys == [] then [(k, Pair(Some(x), None))]
             else seq(|ys|, i requires 0 <= i < |ys| => (k, Pair(Some(x), Some(ys[i]))));
    assert e[0].0 == k;
    e
  }

  /** All rows of the merge that come from a row of the left table. */
  function LeftPart<X, Y(==)>(l: Series<X>, r: Series<Y>): Series<Pair<X, Y>> {
    if l == [] then []
    else Expand(l[0].0, l[0].1, Matches(r, l[0].0)) + LeftPart(l[1..], r)
  }

  /** The right rows whose key the left table lacks, with a NaN left side. */
  function RightOnly<X, Y>(r: Series<Y>, leftKeys: set<int>): Series<Pair<X, Y>> {
    if r == [] then []
    else (if r[0].0 in leftKeys then [] else [(r[0].0, Pair(None, Some(r[0].1)))])
         + RightOnly(r[1..], leftKeys)
  }

  /** Full outer join on the key. */
  function OuterJoin<X, Y(==)>(l: Series<X>, r: Series<Y>): Series<Pair<X, Y>> {
    LeftPart(l, r) + RightOnly(r, Keys(l))
  }

  /** Line 52: `df_p.merge(df_c, ...).merge(df_v, ...)`. */
  function MergeThree<V(==)>(prices: Series<V>, caps: Series<V>, vols: Series<V>)
    : Series<Pair<Pair<V, V>, V>>
  {
    OuterJoin(OuterJoin(prices, caps), vols)
  }

  /** A merged cell agrees with series `s` at key `k`: it is NaN exactly when
      `s` has no entry for `k`, and otherwise holds a value `s` pairs with `k`. */
  ghost predicate Agrees<V>(o: Option<V>, s: Series<V>, k: int) {
    (o.None? <==> k !in Keys(s)) && (o.Some? ==> (k, o.value) in s)
  }

  /** A row of `OuterJoin(l, r)` is faithful to both tables. */
  ghost predicate JoinedFrom<X, Y>(e: (int, Pair<X, Y>), l: Series<X>, r: Series<Y>) {
    Agrees(e.1.left, l, e.0) && Agrees(e.1.right, r, e.0)
  }

  // ---- Properties of the two-way join ----

  lemma {:induction false} LeftPartKeys<X, Y>(l: Series<X>, r: Series<Y>)
    ensures Keys(LeftPart(l, r)) == Keys(l)
  {
    if l != [] {
      LeftPartKeys(l[1..], r);
      KeysConcat(Expand(l[0].0, l[0].1, Matches(r, l[0].0)), LeftPart(l[1..], r));
      KeysCons(l);
    }
  }

  lemma {:induction false} RightOnlyKeys<X, Y>(r: Series<Y>, leftKeys: set<int>)
    ensures Keys(RightOnly<X, Y>(r, leftKeys)) == Keys(r) - leftKeys
  {
    if r != [] {
      RightOnlyKeys<X, Y>(r[1..], leftKeys);
      var head: Series<Pair<X, Y>> :=
        if r[0].0 in leftKeys then [] else [(r[0].0, Pair(None, Some(r[0].1)))];
      KeysConcat(head, RightOnly<X, Y>(r[1..], leftKeys));
      assert Keys(head) == if r[0].0 in leftKeys then {} else {r[0].0};
      KeysCons(r);
    }
  }

  /** Coverage: the merged keys are exactly the union of both tables' keys. */
  lemma JoinKeys<X, Y>(l: Series<X>, r: Series<Y>)
    ensures Keys(OuterJoin(l, r)) == Keys(l) + Keys(r)
  {
    LeftPartKeys(l, r);
    RightOnlyKeys<X, Y>(r, Keys(l));
    KeysConcat(LeftPart(l, r), RightOnly<X, Y>(r, Keys(l)));
  }

  lemma {:induction false} LeftPartFrom<X, Y>(l: Series<X>, r: Series<Y>)
    ensures forall e | e in LeftPart(l, r) ::
      e.1.left.Some? && (e.0, e.1.left.value) in l && Agrees(e.1.right, r, e.0)
  {
    if l != [] {
      LeftPartFrom(l[1..], r);
      var ys := Matches(r, l[0].0);
      var ex := Expand(l[0].0, l[0].1, ys);
      forall e | e in ex
        ensures e.1.left.Some? && (e.0, e.1.left.value) in l && Agrees(e.1.right, r, e.0)
      {
        var i :| 0 <= i < |ex| && ex[i] == e;
        assert l[0] in l;
        if ys != [] { assert ys[i] in ys; }
      }
      forall e | e in LeftPart(l[1..], r) ensures (e.0, e.1.left.value) in l {
        assert (e.0, e.1.left.value) in l[1..];
      }
    }
  }

  lemma {:induction false} RightOnlyFrom<X, Y>(r: Series<Y>, leftKeys: set<int>)
    ensures forall e | e in RightOnly<X, Y>(r, leftKeys) ::
      e.1.left.None? && e.0 !in leftKeys && e.1.right.Some? && (e.0, e.1.right.value) in r
  {
    if r != [] {
      RightOnlyFrom<X, Y>(r[1..], leftKeys);
      forall e | e in RightOnly<X, Y>(r[1..], leftKeys) ensures (e.0, e.1.right.value) in r {
        assert (e.0, e.1.right.value) in r[1..];
      }
      assert r[0] in r;
    }
  }

  /** Field fidelity: every merged row carries, on each side, the value that
      table pairs with the row's key, or NaN exactly when it has none. */
  lemma JoinFidelity<X, Y>(l: Series<X>, r: Series<Y>)
    ensures forall e | e in OuterJoin(l, r) :: JoinedFrom(e, l, r)
  {
    LeftPartFrom(l, r);
    RightOnlyFrom<X, Y>(r, Keys(l));
    forall e | e in OuterJoin(l, r) ensures JoinedFrom(e, l, r) {
      if e in LeftPart(l, r) {
        var x := e.1.left.value;
        assert (e.0, x) in l;
        var i :| 0 <= i < |l| && l[i] == (e.0, x);
        assert e.0 in Keys(l);
      } else {
        var y := e.1.right.value;
        var i :| 0 <= i < |r| && r[i] == (e.0, y);
        assert e.0 in Keys(r);
      }
    }
  }

  lemma {:induction false} LeftPartDistinct<X, Y>(l: Series<X>, r: Series<Y>)
    requires DistinctKeys(l) && DistinctKeys(r)
    ensures DistinctKeys(LeftPart(l, r))
  {
    if l != [] {
      var k := l[0].0;
      assert DistinctKeys(l[1..]) by {
        forall i, j | 0 <= i < j < |l[1..]| ensures l[1..][i].0 != l[1..][j].0 {
          assert l[1..][i] == l[i + 1] && l[1..][j] == l[j + 1];
        }
      }
      LeftPartDistinct(l[1..], r);
      DistinctMatches(r, k);
      var ex := Expand(k, l[0].1, Matches(r, k));
      forall i | 0 <= i < |l[1..]| ensures l[1..][i].0 != k {
        assert l[1..][i] == l[i + 1];
      }
      LeftPartKeys(l[1..], r);
      DistinctConcat(ex, LeftPart(l[1..], r));
    }
  }

  lemma {:induction false} RightOnlyDistinct<X, Y>(r: Series<Y>, leftKeys: set<int>)
    requires DistinctKeys(r)
    ensures DistinctKeys(RightOnly<X, Y>(r, leftKeys))
  {
    if r != [] {
      assert DistinctKeys(r[1..]) by {
        forall i, j | 0 <= i < j < |r[1..]| ensures r[1..][i].0 != r[1..][j].0 {
          assert r[1..][i] == r[i + 1] && r[1..][j] == r[j + 1];
        }
      }
      RightOnlyDistinct<X, Y>(r[1..], leftKeys);
      RightOnlyKeys<X, Y>(r[1..], leftKeys);
      forall i | 0 <= i < |r[1..]| ensures r[1..][i].0 != r[0].0 {
        assert r[1..][i] == r[i + 1];
      }
      var head: Series<Pair<X, Y>> :=
        if r[0].0 in leftKeys then [] else [(r[0].0, Pair(None, Some(r[0].1)))];
      assert Keys(head) <= {r[0].0};
      DistinctConcat(head, RightOnly<X, Y>(r[1..], leftKeys));
    }
  }

  /** With distinct keys on both sides the merge has one row per key. */
  lemma JoinDistinct<X, Y>(l: Series<X>, r: Series<Y>)
    requires DistinctKeys(l) && DistinctKeys(r)
    ensures DistinctKeys(OuterJoin(l, r))
    ensures |OuterJoin(l, r)| == |Keys(l) + Keys(r)|
  {
    LeftPartDistinct(l, r);
    RightOnlyDistinct<X, Y>(r, Keys(l));
    LeftPartKeys(l, r);
    RightOnlyKeys<X, Y>(r, Keys(l));
    DistinctConcat(LeftPart(l, r), RightOnly<X, Y>(r, Keys(l)));
    DistinctCard(OuterJoin(l, r));
    JoinKeys(l, r);
  }

  // ---- Properties of the three-way merge of line 52 ----

  /** The price and market-cap cells of a three-way merged row. */
  function PriceOf<V>(e: (int, Pair<Pair<V, V>, V>)): Option<V> {
    if e.1.left.Some? then e.1.left.value.left else None
  }

  function CapOf<V>(e: (int, Pair<Pair<V, V>, V>)): Option<V> {
    if e.1.left.Some? then e.1.left.value.right else None
  }

  function VolumeOf<V>(e: (int, Pair<Pair<V, V>, V>)): Option<V> {
    e.1.right
  }

  /** Coverage of the three-way merge: its keys are the union of the three
      series' keys. */
  lemma MergeThreeKeys<V>(prices: Series<V>, caps: Series<V>, vols: Series<V>)
    ensures Keys(MergeThree(prices, caps, vols)) == Keys(prices) + Keys(caps) + Keys(vols)
  {
    JoinKeys(prices, caps);
    JoinKeys(OuterJoin(prices, caps), vols);
  }

  /** Fidelity of the three-way merge: every row's three cells agree with
      the three series at the row's key. */
  lemma MergeThreeFaithful<V>(prices: Series<V>, caps: Series<V>, vols: Series<V>)
    ensures forall e | e in MergeThree(prices, caps, vols) ::
      Agrees(PriceOf(e), prices, e.0) && Agrees(CapOf(e), caps, e.0) && Agrees(VolumeOf(e), vols, e.0)
  {
    var pc := OuterJoin(prices, caps);
    JoinKeys(prices, caps);
    JoinFidelity(prices, caps);
    JoinFidelity(pc, vols);
    forall e | e in MergeThree(prices, caps, vols)
      ensures Agrees(PriceOf(e), prices, e.0) && Agrees(CapOf(e), caps, e.0)
    {
      assert JoinedFrom(e, pc, vols);
      if e.1.left.Some? {
        assert (e.0, e.1.left.value) in pc;
        assert JoinedFrom((e.0, e.1.left.value), prices, caps);
      }
    }
  }

  /** With distinct timestamps in every series, the merge has distinct keys
      and exactly one row per timestamp of the union. */
  lemma MergeThreeCount<V>(prices: Series<V>, caps: Series<V>, vols: Series<V>)
    requires DistinctKeys(prices) && DistinctKeys(caps) && DistinctKeys(vols)
    ensures DistinctKeys(MergeThree(prices, caps, vols))
    ensures |MergeThree(prices, caps, vols)| == |Keys(prices) + Keys(caps) + Keys(vols)|
  {
    JoinDistinct(prices, caps);
    JoinKeys(prices, caps);
    JoinDistinct(OuterJoin(prices, caps), vols);
  }
}
