/** Fixed-width unsigned integers and the `std::time::Duration` value the
    record's response time is computed from. */
module Ints {

  const U16_MODULUS: int := 0x1_0000
  const U64_MODULUS: int := 0x1_0000_0000_0000_0000

  newtype u16 = x: int | 0 <= x < U16_MODULUS
  newtype u64 = x: int | 0 <= x < U64_MODULUS

  const NANOS_PER_MILLI: nat := 1_000_000
  const NANOS_PER_SEC: nat := 1_000_000_000
  const MILLIS_PER_SEC: nat := 1000

  /** A span of time as Rust stores it: whole seconds plus a sub-second
      nanosecond part that is always below one second. */
  datatype Duration = Duration(secs: u64, nanos: nat)
  {
    ghost predicate Valid() {
      nanos < NANOS_PER_SEC
    }

    /** The exact length of the span, in nanoseconds. */
    function TotalNanos(): nat {
      secs as nat * NANOS_PER_SEC + nanos
    }
  }

  /** `Duration::as_millis`: the number of whole milliseconds in `d`, as an
      unbounded (in Rust, 128-bit) count. */
  function AsMillis(d: Duration): (ms: nat)
    requires d.Valid()
    ensures ms * NANOS_PER_MILLI <= d.TotalNanos() < (ms + 1) * NANOS_PER_MILLI
  {
    d.secs as nat * MILLIS_PER_SEC + d.nanos / NANOS_PER_MILLI
  }

  /** The cast `as u64` applied to a wider unsigned value: the value is
      reduced modulo 2^64, which is the identity on values that fit. */
  function TruncateToU64(n: nat): (r: u64)
    ensures (n - r as int) % U64_MODULUS == 0
    ensures n < U64_MODULUS ==> r as int == n
  {
    (n % U64_MODULUS) as u64
  }

  /** `Duration::from_millis`: the span of exactly `ms` milliseconds. */
  function FromMillis(ms: u64): (d: Duration)
    ensures d.Valid()
    ensures d.TotalNanos() == ms as nat * NANOS_PER_MILLI
  {
    Duration(ms / MILLIS_PER_SEC as u64, (ms as nat % MILLIS_PER_SEC) * NANOS_PER_MILLI)
  }

  /** Taking whole milliseconds of a span built from whole milliseconds gives
      back the same count, with no truncation or wrap-around. */
  lemma MillisRoundTrip(ms: u64)
    ensures AsMillis(FromMillis(ms)) == ms as nat
    ensures TruncateToU64(AsMillis(FromMillis(ms))) == ms
  {
  }
}
