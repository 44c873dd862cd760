/** A time-keyed series as the market-chart endpoint returns it: a list of
    `[timestamp_ms, value]` pairs. Nothing is assumed about order or
    uniqueness of the timestamps. */
module Series {
  import opened Wrappers

  type Series<V> = seq<(int, V)>

  /** The set of timestamps a series mentions. */
  function Keys<V>(s: Series<V>): set<int> {
    set i | 0 <= i < |s| :: s[i].0
  }

  /** No timestamp occurs twice. */
  ghost predicate DistinctKeys<V>(s: Series<V>) {
    forall i, j | 0 <= i < j < |s| :: s[i].0 != s[j].0
  }

  /** The values paired with timestamp `k`, in series order. */
  function Matches<V(==)>(s: Series<V>, k: int): (m: seq<V>)
    ensures forall x | x in m :: (k, x) in s
    ensures forall i | 0 <= i < |s| && s[i].0 == k :: s[i].1 in m
    ensures m == [] <==> k !in Keys(s)
  {
    if s == [] then []
    else
      assert s == [s[0]] + s[1..];
      assert Keys(s) == {s[0].0} + Keys(s[1..]) by { KeysCons(s); }
      (if s[0].0 == k then [s[0].1] else []) + Matches(s[1..], k)
  }

  /** The value paired with `k`, or None when the series lacks `k`. */
  function Lookup<V(==)>(s: Series<V>, k: int): (o: Option<V>)
    ensures o.None? <==> k !in Keys(s)
    ensures o.Some? ==> (k, o.value) in s
  {
    var m := Matches(s, k);
    if m == [] then None else Some(m[0])
  }

  lemma KeysCons<V>(s: Series<V>)
    requires s != []
    ensures Keys(s) == {s[0].0} + Keys(s[1..])
  {
    forall k | k in Keys(s) ensures k in {s[0].0} + Keys(s[1..]) {
      var i :| 0 <= i < |s| && s[i].0 == k;
      if i > 0 { assert s[1..][i - 1].0 == k; }
    }
    forall k | k in Keys(s[1..]) ensures k in Keys(s) {
      var i :| 0 <= i < |s[1..]| && s[1..][i].0 == k;
      assert s[i + 1].0 == k;
    }
  }

  lemma KeysConcat<V>(a: Series<V>, b: Series<V>)
    ensures Keys(a + b) == Keys(a) + Keys(b)
  {
    forall k | k in Keys(a + b) ensures k in Keys(a) + Keys(b) {
      var i :| 0 <= i < |a + b| && (a + b)[i].0 == k;
      if i >= |a| { assert b[i - |a|].0 == k; }
    }
    forall k | k in Keys(a) ensures k in Keys(a + b) {
      var i :| 0 <= i < |a| && a[i].0 == k;
      assert (a + b)[i].0 == k;
    }
    forall k | k in Keys(b) ensures k in Keys(a + b) {
      var i :| 0 <= i < |b| && b[i].0 == k;
      assert (a + b)[|a| + i].0 == k;
    }
  }

  /** Appending two series with distinct timestamps and disjoint timestamp
      sets gives a series with distinct timestamps. */
  lemma DistinctConcat<V>(a: Series<V>, b: Series<V>)
    requires DistinctKeys(a) && DistinctKeys(b) && Keys(a) !! Keys(b)
    ensures DistinctKeys(a + b)
  {
    forall i, j | 0 <= i < j < |a + b| ensures (a + b)[i].0 != (a + b)[j].0 {
      if j < |a| {
      } else if i >= |a| {
        assert (a + b)[i] == b[i - |a|] && (a + b)[j] == b[j - |a|];
      } else {
        assert (a + b)[i].0 in Keys(a);
        assert (a + b)[j] == b[j - |a|];
        assert (a + b)[j].0 in Keys(b);
      }
    }
  }

  /** With distinct timestamps a timestamp has at most one value. */
  lemma {:induction false} DistinctMatches<V>(s: Series<V>, k: int)
    requires DistinctKeys(s)
    ensures |Matches(s, k)| <= 1
  {
    if s != [] {
      DistinctMatches(s[1..], k);
      if s[0].0 == k {
        forall i | 0 <= i < |s[1..]| ensures s[1..][i].0 != k {
          assert s[1..][i] == s[i + 1];
        }
        assert Matches(s[1..], k) == [];
      }
    }
  }

  /** With distinct timestamps, Lookup returns THE value paired with `k`. */
  lemma LookupUnique<V>(s: Series<V>, k: int, x: V)
    requires DistinctKeys(s) && (k, x) in s
    ensures Lookup(s, k) == Some(x)
  {
    DistinctMatches(s, k);
    var m := Matches(s, k);
    assert x in m;
  }

  /** A series with distinct timestamps has exactly as many timestamps as
      entries. */
  lemma {:induction false} DistinctCard<V>(s: Series<V>)
    requires DistinctKeys(s)
    ensures |Keys(s)| == |s|
  {
    if s != [] {
      KeysCons(s);
      assert DistinctKeys(s[1..]) by {
        forall i, j | 0 <= i < j < |s[1..]| ensures s[1..][i].0 != s[1..][j].0 {
          assert s[1..][i] == s[i + 1] && s[1..][j] == s[j + 1];
        }
      }
      DistinctCard(s[1..]);
      forall i | 0 <= i < |s[1..]| ensures s[1..][i].0 != s[0].0 {
        assert s[1..][i] == s[i + 1];
      }
      assert s[0].0 !in Keys(s[1..]);
    }
  }
}
