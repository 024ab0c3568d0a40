# http-health-checker: probe outcomes and their classification

This project models the core of `http-health-checker`, a command-line tool
that probes a list of URLs over HTTP and reports each one as UP or DOWN.

- The probe-outcome record is `HealthCheck`. It holds the url, a status string, an
  optional status code, the response time in milliseconds, a timestamp and an
  optional error.
- The record has two constructors, `new_success` and `new_failure`.
- `check_url` turns one HTTP attempt into a record.
- `check_all_urls` probes every URL of a list and returns the records in
  input order.

The model is functional. The network call, the elapsed time and the clock are
inputs:

- `SendResult` is what the HTTP client's `send` returned. It is either a
  response with its status code or a transport error with its message.
- `Probe` bundles a `SendResult`, the elapsed `Duration` and the completion
  `Timestamp`.
- `CheckAll` takes one `Probe` per URL. The result is the sequential map of
  `CheckUrl` over the URLs. `join_all` returns results in input order,
  whatever order they complete in, so the async scheduling does not matter.

Modules:

- `Wrappers`: `Option`.
- `Ints`: `u16`, `u64`, Rust's `Duration` (whole seconds plus nanoseconds
  below one second), `as_millis`, the wrapping `as u64` cast, and
  `Duration::from_millis`.
- `Decimal`: base-10 printing of a number, as `format!` does for the
  `"HTTP <code>"` message. It comes with a parser and both round trips.
- `HealthChecks`: the record, its well-formedness invariant and its two
  constructors.
- `Checker`: the classification and the fan-out.

A non-2xx response might be expected to keep its numeric `status_code`.
The code does not: `check_url`
passes such a response to `new_failure`, which always stores `None`
(src/lib.rs:32), and the test at src/lib.rs:111 asserts `None`. The model
follows the code. `RejectedCodeOnlyInMessage` shows the code is still
recoverable from the `"HTTP <code>"` error text.

## Model

| member | source | states |
|---|---|---|
| Ints.AsMillis | src/lib.rs:22 | `as_millis` truncates the duration to whole milliseconds: `ms * 10^6 <= nanos < (ms + 1) * 10^6` |
| Ints.TruncateToU64 | src/lib.rs:22 | the `as u64` cast agrees with its input modulo 2^64 and is the identity below 2^64 |
| Ints.FromMillis | src/lib.rs:150 | `Duration::from_millis(m)` is a valid duration of exactly `m * 10^6` nanoseconds |
| Ints.MillisRoundTrip | src/lib.rs:150-155 | a duration built from `m` milliseconds is recorded as `m` again, with no truncation or wrap-around |
| Decimal.FromNat | src/lib.rs:71 | the decimal text of a number is non-empty, all digits, and has no leading zero unless the number is 0 |
| Decimal.ParseFromNat | src/lib.rs:71 | parsing the printed decimal text of `n` gives `n` |
| Decimal.FromNatValueOf | src/lib.rs:71 | every canonical digit string is the printed text of the number it denotes |
| Decimal.FromNatInjective | src/lib.rs:71 | distinct numbers print to distinct texts |
| HealthChecks.ResponseTimeMs | src/lib.rs:33 | the stored response time is the whole-millisecond count, exact below 2^64 ms and otherwise wrapped modulo 2^64 |
| HealthChecks.NewSuccess | src/lib.rs:17-25 | `new_success` gives a well-formed UP record with `status_code == Some(code)`, no error, the url echoed, the truncated millisecond count and the given time |
| HealthChecks.NewFailure | src/lib.rs:28-36 | `new_failure` gives a well-formed DOWN record with no status code, `error == Some(reason)`, the url echoed, the truncated millisecond count and the given time |
| HealthChecks.WellFormedIffConstructed | src/lib.rs:16-37 | a record satisfies the invariant exactly when one of the two constructors builds it from its own fields. The invariant is: status is UP or DOWN, error absent iff UP, status code present iff UP |
| HealthChecks.HundredMillis | src/lib.rs:146-157 | a 100 ms success is recorded with `response_time_ms == 100` |
| Checker.IsSuccess | src/lib.rs:66 | a status is successful exactly when it lies in 200..=299, which is exactly when its first digit (its RFC 9110 class) is 2 |
| Checker.HttpErrorMessage | src/lib.rs:71 | the message for a rejected response is `"HTTP "` followed by the canonical decimal digits of the code |
| Checker.ParseHttpError | src/lib.rs:69-73 | any code read back from a message is one whose `"HTTP <code>"` text is exactly that message |
| Checker.HttpErrorRoundTrip | src/lib.rs:69-73 | reading the code back from `"HTTP <code>"` gives the code |
| Checker.CheckUrl | src/lib.rs:57-81 | classification: the result is UP iff the send returned a 2xx response. A 2xx keeps its code and has no error. Another code gives DOWN with no code and error `"HTTP <code>"`. A transport error gives DOWN with no code and its message as error. Every branch echoes the url and the elapsed time and keeps the invariant |
| Checker.RejectedCodeOnlyInMessage | src/lib.rs:105-113 | for a non-2xx response the record's `status_code` is `None`, yet its error text still yields the code |
| Checker.RejectedResponseMatchesTransportText | src/lib.rs:61-80 | for every non-2xx code, the response and a transport error whose text is that code's `"HTTP <code>"` message give identical records |
| Checker.ServerErrorMatchesTransportText | src/lib.rs:61-80 | a 500 response and a transport error reading "HTTP 500" give identical records |
| Checker.CheckAll | src/lib.rs:83-86 | the batch has one record per URL, and record `i` is the classification of `urls[i]` with probe `i`. This holds for empty lists and duplicate URLs |
| Checker.CheckAllAppend | src/lib.rs:83-86 | probing two lists in turn gives the concatenation of their batches, so no probe depends on its neighbours |
| Checker.CountUpMatchesResponses | src/lib.rs:83-86 | a batch has exactly as many UP records as there were 2xx responses |
| Checker.MixedBatch | src/lib.rs:124-137 | a 200 URL followed by a 404 URL gives a two-record batch, UP then DOWN |

## Left out

- Client construction (src/lib.rs:47-55) is left out: the `reqwest` builder, the timeout and the user agent are library configuration. The real `send` at src/lib.rs:61 is a network call; the `SendResult` input replaces it.
- `Checker.CheckUrl` does not model the timeout: a timed-out request is just one more transport error.
- Clocks are parameters: `Instant::now`/`elapsed` become the `Duration` in each `Probe`, and `Utc::now` becomes its `Timestamp`. Nothing is claimed about real time. So the test's `response_time_ms > 0` (src/lib.rs:102) is not modelled.
- Async concurrency is left out. The `join_all` fan-out is modelled only through its order-preserving result.
- `SendResult` accepts any `u16` as a status code. The `http` crate only builds codes from 100 to 999, but the classification does not depend on that range.
- `Checker.IsSuccess` takes its 200..=299 range from the documented behaviour of the `http` crate's `StatusCode::is_success`; that crate's code is not part of this model.
- The `Serialize`/`Deserialize` derives (src/lib.rs:6) and the JSON round trip are generated library code and are left out.
- All of src/main.rs is left out: argument parsing, the default URL list, colored printing, writing the JSON file, and the `--once`/sleep loop. It is I/O glue.
- The `#[cfg(test)]` network tests need a live server. They are cited only as evidence of intended behaviour.
