/** `HealthChecker::check_url` and `HealthChecker::check_all_urls` with the
    network abstracted: what the HTTP client's `send` returned, how long the
    attempt took and the clock reading at completion are inputs. */
module Checker {
  import opened Wrappers
  import opened Ints
  import Decimal
  import opened HealthChecks

  /** The outcome of `client.get(url).send()`: a response carrying its
      numeric status code, or a transport error carrying its message. */
  datatype SendResult = Response(code: u16) | TransportError(message: string)

  /** Everything the environment supplies for one probe. */
  datatype Probe = Probe(sent: SendResult, elapsed: Duration, completedAt: Timestamp)
  {
    ghost predicate Valid() {
      elapsed.Valid()
    }
  }

  /** `StatusCode::is_success`: the range 200..=299. Section 15 of RFC 9110
      groups codes into classes by their first digit, and this is exactly the
      "Successful" class 2xx of section 15.3. */
  function IsSuccess(code: u16): (b: bool)
    ensures b <==> code as int / 100 == 2
  {
    200 <= code <= 299
  }

  const HTTP_PREFIX: string := "HTTP "

  /** The text `format!("HTTP {status_code}")` produces. */
  function HttpErrorMessage(code: u16): (msg: string)
    ensures |msg| > |HTTP_PREFIX| && msg[..|HTTP_PREFIX|] == HTTP_PREFIX
    ensures Decimal.Canonical(msg[|HTTP_PREFIX|..])
    ensures Decimal.ValueOf(msg[|HTTP_PREFIX|..]) == code as nat
  {
    Decimal.ValueOfFromNat(code as nat);
    assert (HTTP_PREFIX + Decimal.FromNat(code as nat))[|HTTP_PREFIX|..] == Decimal.FromNat(code as nat);
    HTTP_PREFIX + Decimal.FromNat(code as nat)
  }

  /** Reads the status code back out of an `"HTTP <code>"` message. */
  function ParseHttpError(msg: string): (r: Option<u16>)
    ensures r.Some? ==> msg == HttpErrorMessage(r.value)
  {
    if |msg| < |HTTP_PREFIX| || msg[..|HTTP_PREFIX|] != HTTP_PREFIX then None
    else
      match Decimal.Parse(msg[|HTTP_PREFIX|..])
      case Some(n) =>
        if n < U16_MODULUS then
          Decimal.FromNatValueOf(msg[|HTTP_PREFIX|..]);
          assert msg == HTTP_PREFIX + msg[|HTTP_PREFIX|..];
          Some(n as u16)
        else None
      case None => None
  }

  /** The status code survives in the message: printing then reading it
      gives the code back. */
  lemma HttpErrorRoundTrip(code: u16)
    ensures ParseHttpError(HttpErrorMessage(code)) == Some(code)
  {
  }

  /** The classification in `check_url`: a 2xx response is UP with its code;
      any other response is DOWN with the message `"HTTP <code>"` and no code;
      a transport error is DOWN with the error's text and no code. */
  function CheckUrl(url: string, p: Probe): (h: HealthCheck)
    requires p.Valid()
    ensures WellFormed(h)
    ensures h.url == url
    ensures h.responseTimeMs == ResponseTimeMs(p.elapsed) && h.timestamp == p.completedAt
    ensures h.status == UP <==> p.sent.Response? && IsSuccess(p.sent.code)
    ensures p.sent.Response? && IsSuccess(p.sent.code) ==>
              h.statusCode == Some(p.sent.code) && h.error == None
    ensures p.sent.Response? && !IsSuccess(p.sent.code) ==>
              h.statusCode == None && h.error == Some(HttpErrorMessage(p.sent.code))
    ensures p.sent.TransportError? ==>
              h.statusCode == None && h.error == Some(p.sent.message)
  {
    match p.sent
    case Response(code) =>
      if IsSuccess(code) then NewSuccess(url, code, p.elapsed, p.completedAt)
      else NewFailure(url, HttpErrorMessage(code), p.elapsed, p.completedAt)
    case TransportError(message) =>
      NewFailure(url, message, p.elapsed, p.completedAt)
  }

  /** A non-2xx response loses its status code from the record's
      `status_code` field, but the code can still be read back from the
      record's error message. */
  lemma RejectedCodeOnlyInMessage(url: string, p: Probe)
    requires p.Valid() && p.sent.Response? && !IsSuccess(p.sent.code)
    ensures CheckUrl(url, p).statusCode == None
    ensures CheckUrl(url, p).error.Some?
    ensures ParseHttpError(CheckUrl(url, p).error.value) == Some(p.sent.code)
  {
  }

  /** A rejected response and a transport error whose text happens to be
      that response's `"HTTP <code>"` message yield the same record: the
      record does not say which of the two happened. */
  lemma RejectedResponseMatchesTransportText(url: string, code: u16, d: Duration, t: Timestamp)
    requires d.Valid() && !IsSuccess(code)
    ensures CheckUrl(url, Probe(Response(code), d, t))
         == CheckUrl(url, Probe(TransportError(HttpErrorMessage(code)), d, t))
  {
  }

  /** The instance for code 500: a server error and a transport error
      reading "HTTP 500" cannot be told apart. */
  lemma ServerErrorMatchesTransportText(url: string, d: Duration, t: Timestamp)
    requires d.Valid()
    ensures CheckUrl(url, Probe(Response(500), d, t))
         == CheckUrl(url, Probe(TransportError("HTTP 500"), d, t))
  {
    RejectedResponseMatchesTransportText(url, 500, d, t);
    assert Decimal.FromNat(500) == "500" by {
      assert Decimal.FromNat(5) == "5";
      assert Decimal.FromNat(50) == "50";
    }
    assert HttpErrorMessage(500) == "HTTP 500";
  }

  ghost predicate AllValid(probes: seq<Probe>) {
    forall i :: 0 <= i < |probes| ==> probes[i].Valid()
  }

  /** `check_all_urls`: one probe per URL, results in input order. `join_all`
      returns results in the order of its inputs whatever order they
      complete in, so the batch is the sequential map of `CheckUrl`. */
  function CheckAll(urls: seq<string>, probes: seq<Probe>): (batch: seq<HealthCheck>)
    requires |probes| == |urls| && AllValid(probes)
    ensures |batch| == |urls|
    ensures forall i :: 0 <= i < |batch| ==> batch[i] == CheckUrl(urls[i], probes[i])
    decreases |urls|
  {
    if |urls| == 0 then []
    else [CheckUrl(urls[0], probes[0])] + CheckAll(urls[1..], probes[1..])
  }

  /** Probing two lists one after the other gives the concatenation of the
      two batches: no probe's outcome depends on its neighbours. */
  lemma CheckAllAppend(u1: seq<string>, p1: seq<Probe>, u2: seq<string>, p2: seq<Probe>)
    requires |p1| == |u1| && AllValid(p1)
    requires |p2| == |u2| && AllValid(p2)
    ensures AllValid(p1 + p2)
    ensures CheckAll(u1 + u2, p1 + p2) == CheckAll(u1, p1) + CheckAll(u2, p2)
  {
  }

  /** The number of UP records in a batch. */
  function CountUp(batch: seq<HealthCheck>): nat
    decreases |batch|
  {
    if |batch| == 0 then 0
    else (if batch[0].status == UP then 1 else 0) + CountUp(batch[1..])
  }

  /** The number of probes whose send returned a 2xx response. */
  function CountSuccessResponses(probes: seq<Probe>): nat
    decreases |probes|
  {
    if |probes| == 0 then 0
    else (if probes[0].sent.Response? && IsSuccess(probes[0].sent.code) then 1 else 0)
         + CountSuccessResponses(probes[1..])
  }

  /** A batch reports as many URLs UP as there were 2xx responses. */
  lemma {:induction false} CountUpMatchesResponses(urls: seq<string>, probes: seq<Probe>)
    requires |probes| == |urls| && AllValid(probes)
    ensures CountUp(CheckAll(urls, probes)) == CountSuccessResponses(probes)
    decreases |urls|
  {
    if |urls| > 0 {
      var batch := CheckAll(urls, probes);
      assert batch[1..] == CheckAll(urls[1..], probes[1..]);
      CountUpMatchesResponses(urls[1..], probes[1..]);
    }
  }

  /** Two URLs, one answering 200 and one answering 404, give a batch whose
      first record is UP and whose second is DOWN. */
  lemma MixedBatch(ok: string, missing: string, d: Duration, e: Duration, t: Timestamp, u: Timestamp)
    requires d.Valid() && e.Valid()
    ensures var batch := CheckAll([ok, missing], [Probe(Response(200), d, t), Probe(Response(404), e, u)]);
      |batch| == 2 && batch[0].status == UP && batch[1].status == DOWN
  {
  }
}
