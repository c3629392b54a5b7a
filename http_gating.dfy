/**
 * The decision `MetricsHandler.do_GET` takes for one request: which status
 * code to send and what the body reports, from the request path, the market
 * clock at one instant and the outcome of encoding the metric registry.
 * `/metrics` is served only while the market is open and otherwise answers
 * 503 Service Unavailable (section 15.6.4 of RFC 9110); `/healthz` always
 * answers 200; every other path answers 404.
 */
module HttpGating {
  import opened MarketClock

  const StatusOk: nat := 200
  const StatusNotFound: nat := 404
  const StatusInternalServerError: nat := 500
  const StatusServiceUnavailable: nat := 503

  const MetricsPath: string := "/metrics"
  const HealthPath: string := "/healthz"

  /** What the metrics encoder produced: the exposition bytes, or the message of the exception it raised. */
  datatype Encoding = Encoded(payload: seq<bv8>) | EncodingFailed(message: string)

  /** A wait shown to people as whole hours and the remaining whole minutes. */
  datatype HoursMinutes = HoursMinutes(hours: nat, minutes: nat)

  /** The line of the `/healthz` body that names the next state change of the market. */
  datatype Countdown = ClosesIn(HoursMinutes) | OpensIn(HoursMinutes)

  datatype Body =
    | Exposition(payload: seq<bv8>)
    | GenerationError(message: string)
    | MarketClosed(opensIn: HoursMinutes)
    | Health(marketOpen: bool, next: Countdown)
    | NotFound

  datatype Response = Response(status: nat, body: Body)

  /**
   * `s // 3600` hours and `(s % 3600) // 60` minutes: the largest whole
   * number of minutes not above `s`, split into hours and minutes below 60.
   */
  function Breakdown(s: nat): (hm: HoursMinutes)
    ensures hm.minutes < 60
    ensures hm.hours * 3600 + hm.minutes * 60 <= s < hm.hours * 3600 + hm.minutes * 60 + 60
  {
    HoursMinutes(s / 3600, (s % 3600) / 60)
  }

  /** The bounds of `Breakdown` single out one pair of hours and minutes. */
  lemma BreakdownUnique(s: nat, hm: HoursMinutes)
    requires hm.minutes < 60
    requires hm.hours * 3600 + hm.minutes * 60 <= s < hm.hours * 3600 + hm.minutes * 60 + 60
    ensures hm == Breakdown(s)
  {
  }

  /** The sleep log of the run loop computes minutes first: `(s // 60) // 60` hours and `(s // 60) % 60` minutes. */
  lemma RunLogBreakdownAgrees(s: nat)
    ensures HoursMinutes((s / 60) / 60, (s / 60) % 60) == Breakdown(s)
  {
  }

  /** The body of a `/healthz` answer at `now`. */
  function HealthReport(now: Instant): Body {
    if IsMarketOpen(now) then Health(true, ClosesIn(Breakdown(SecondsUntilClose(now))))
    else Health(false, OpensIn(Breakdown(SecondsUntilOpen(now))))
  }

  /** `do_GET`: the answer to a GET of `path` at `now`, given what the encoder would produce. */
  function HandleGet(path: string, now: Instant, encoding: Encoding): (r: Response)
    ensures r.status in {StatusOk, StatusNotFound, StatusInternalServerError, StatusServiceUnavailable}
    ensures r.status == StatusOk <==> (path == HealthPath || (path == MetricsPath && IsMarketOpen(now) && encoding.Encoded?))
    ensures r.status == StatusServiceUnavailable <==> path == MetricsPath && !IsMarketOpen(now)
    ensures r.status == StatusInternalServerError <==> path == MetricsPath && IsMarketOpen(now) && encoding.EncodingFailed?
    ensures r.status == StatusNotFound <==> path != MetricsPath && path != HealthPath
    ensures r.body.Exposition? ==> path == MetricsPath && IsMarketOpen(now) && encoding == Encoded(r.body.payload)
  {
    if path == MetricsPath then
      if IsMarketOpen(now) then
        match encoding
        case Encoded(payload) => Response(StatusOk, Exposition(payload))
        case EncodingFailed(message) => Response(StatusInternalServerError, GenerationError(message))
      else
        Response(StatusServiceUnavailable, MarketClosed(Breakdown(SecondsUntilOpen(now))))
    else if path == HealthPath then
      Response(StatusOk, HealthReport(now))
    else
      Response(StatusNotFound, NotFound)
  }

  /**
   * A 503 from `/metrics` tells the wait until the next session: a positive
   * number of seconds, rounded down to whole minutes, after which the market is open.
   */
  lemma ClosedNoticeMatchesNextOpen(path: string, now: Instant, encoding: Encoding)
    requires HandleGet(path, now, encoding).status == StatusServiceUnavailable
    ensures HandleGet(path, now, encoding).body.MarketClosed?
    ensures var w := HandleGet(path, now, encoding).body.opensIn;
      var s := w.hours * 3600 + w.minutes * 60;
      s <= SecondsUntilOpen(now) < s + 60 && 0 < SecondsUntilOpen(now)
    ensures IsMarketOpen(FromTimestamp(Timestamp(now) + SecondsUntilOpen(now)))
  {
    UntilOpenLandsOnSessionStart(now);
  }

  /**
   * `/healthz` always answers 200; its body says whether the market is open
   * and counts down to the next close while open, to the next open while closed.
   */
  lemma HealthAlwaysOk(now: Instant, encoding: Encoding)
    ensures HandleGet(HealthPath, now, encoding).status == StatusOk
    ensures var b := HandleGet(HealthPath, now, encoding).body;
      b.Health? && b.marketOpen == IsMarketOpen(now) && (b.next.ClosesIn? <==> IsMarketOpen(now))
    ensures var b := HandleGet(HealthPath, now, encoding).body;
      b.next.ClosesIn? ==> b.next == ClosesIn(Breakdown(SecondsUntilClose(now)))
    ensures var b := HandleGet(HealthPath, now, encoding).body;
      b.next.OpensIn? ==> b.next == OpensIn(Breakdown(SecondsUntilOpen(now)))
  {
  }
}
