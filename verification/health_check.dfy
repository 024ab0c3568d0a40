/** The probe-outcome record (`HealthCheck` in src/lib.rs) and its two
    constructors, the only places such a record is built. */
module HealthChecks {
  import opened Wrappers
  import opened Ints

  const UP: string := "UP"
  const DOWN: string := "DOWN"

  /** An absolute UTC instant (`DateTime<Utc>`). The constructors read the
      clock; here the reading is passed in. */
  datatype Timestamp = Timestamp(unixNanos: int)

  datatype HealthCheck = HealthCheck(
    url: string,
    status: string,
    statusCode: Option<u16>,
    responseTimeMs: u64,
    timestamp: Timestamp,
    error: Option<string>
  )

  /** The shape every constructed record has: the status is UP or DOWN, an
      error is present exactly when the status is DOWN, and a status code is
      present exactly when the status is UP. */
  predicate WellFormed(h: HealthCheck) {
    && (h.status == UP || h.status == DOWN)
    && (h.status == UP <==> h.error.None?)
    && (h.statusCode.Some? <==> h.status == UP)
  }

  /** `response_time.as_millis() as u64`: whole milliseconds, wrapped into
      64 bits. Below 2^64 ms it is the plain truncated millisecond count. */
  function ResponseTimeMs(d: Duration): (ms: u64)
    requires d.Valid()
    ensures d.TotalNanos() < U64_MODULUS * NANOS_PER_MILLI ==>
              ms as nat * NANOS_PER_MILLI <= d.TotalNanos() < (ms as nat + 1) * NANOS_PER_MILLI
    ensures (AsMillis(d) - ms as int) % U64_MODULUS == 0
  {
    TruncateToU64(AsMillis(d))
  }

  /** `HealthCheck::new_success`. */
  function NewSuccess(url: string, code: u16, elapsed: Duration, now: Timestamp): (h: HealthCheck)
    requires elapsed.Valid()
    ensures WellFormed(h)
    ensures h.status == UP && h.statusCode == Some(code) && h.error == None
    ensures h.url == url
    ensures h.responseTimeMs == ResponseTimeMs(elapsed) && h.timestamp == now
  {
    HealthCheck(url, UP, Some(code), ResponseTimeMs(elapsed), now, None)
  }

  /** `HealthCheck::new_failure`. No status code is kept, whatever the
      reason for the failure. */
  function NewFailure(url: string, reason: string, elapsed: Duration, now: Timestamp): (h: HealthCheck)
    requires elapsed.Valid()
    ensures WellFormed(h)
    ensures h.status == DOWN && h.statusCode == None && h.error == Some(reason)
    ensures h.url == url
    ensures h.responseTimeMs == ResponseTimeMs(elapsed) && h.timestamp == now
  {
    HealthCheck(url, DOWN, None, ResponseTimeMs(elapsed), now, Some(reason))
  }

  /** A record is well formed exactly when one of the two constructors,
      given the record's own fields, builds it: the invariant describes the
      constructors' images completely. */
  lemma WellFormedIffConstructed(h: HealthCheck)
    ensures WellFormed(h) <==>
      || h == NewSuccess(h.url, h.statusCode.GetOr(0), FromMillis(h.responseTimeMs), h.timestamp)
      || h == NewFailure(h.url, h.error.GetOr(""), FromMillis(h.responseTimeMs), h.timestamp)
  {
  }

  /** A duration of 100 ms is recorded as 100. */
  lemma HundredMillis(url: string, now: Timestamp)
    ensures NewSuccess(url, 200, FromMillis(100), now).responseTimeMs == 100
  {
  }
}
