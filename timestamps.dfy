/** `pd.to_datetime(ms, unit="ms", utc=True)`: an epoch-millisecond integer
    becomes a UTC timestamp stored, as pandas stores `datetime64[ns, UTC]`,
    as a signed 64-bit count of nanoseconds since the Unix epoch. */
module Timestamps {

  datatype Timestamp = Timestamp(nanos: int)

  const NanosPerMilli: int := 1_000_000

  /** The largest nanosecond count pandas represents; the most negative
      64-bit value is reserved for NaT, so the range is symmetric. */
  const MaxNanos: int := 0x7FFF_FFFF_FFFF_FFFF

  /** Whether converting `ms` stays inside the representable range; outside
      it the conversion is taken to raise. (pandas reads the one key equal to
      the int64 minimum as NaT instead; that case is not modelled.) */
  predicate InRange(ms: int) {
    -MaxNanos <= ms * NanosPerMilli <= MaxNanos
  }

  function FromMillis(ms: int): (t: Timestamp)
    ensures t.nanos / NanosPerMilli == ms && t.nanos % NanosPerMilli == 0
    ensures InRange(ms) <==> -MaxNanos <= t.nanos <= MaxNanos
  {
    Timestamp(ms * NanosPerMilli)
  }

  /** The millisecond key a timestamp was derived from. */
  function ToMillis(t: Timestamp): int {
    t.nanos / NanosPerMilli
  }

  /** The conversion is strictly increasing, so ordering rows by `time` is
      ordering them by `time_ms`, and it loses no information. */
  lemma FromMillisOrder(a: int, b: int)
    ensures a < b <==> FromMillis(a).nanos < FromMillis(b).nanos
    ensures a == b <==> FromMillis(a) == FromMillis(b)
    ensures ToMillis(FromMillis(a)) == a
  {
  }
}
