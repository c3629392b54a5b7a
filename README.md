# finance-exporter: market-hours core in Dafny

The exporter polls a market-data provider for a list of ticker symbols and
publishes the values as Prometheus gauges, but only during US stock-market
trading hours. This project models the part of `finance_exporter.py` that
holds the scheduling policy and proves what it promises:

- **MarketClock** (`market_clock.dfy`): `is_market_open`,
  `get_seconds_until_market_open` (including its weekend-skip loop, as a
  method with a `while` loop) and `get_seconds_until_market_close`. An
  instant is an Eastern-time wall-clock reading `(day, secondOfDay)` with
  weekday `day % 7`, Monday = 0, as Python's `weekday()` numbers it. The
  session runs from 09:30:00 (34200 s) to 16:00:00 (57600 s) on weekdays, and
  both ends count as open.
- **HttpGating** (`http_gating.dfy`): the status and body that
  `MetricsHandler.do_GET` chooses. `/metrics` answers 200 with the encoded
  registry while the market is open, 500 if encoding raised, and 503 while it
  is closed (section 15.6.4 of RFC 9110). `/healthz` always answers 200, and
  any other path answers 404. It also holds the hours/minutes breakdown
  printed in the bodies and in the sleep log.
- **MetricRegistry** (`metric_registry.dfy`): `update_metrics` as a class
  whose map field holds the gauges, keyed by metric and symbol. A fetched
  quote writes a field only when the field is truthy (present and non-zero).
  The change percentage is written only when both the price and the previous
  close are truthy. A failed fetch leaves the symbol alone, and
  `last_updated` is set after the loop.
- **Scheduler** (`scheduler.dfy`): the closed-market branch of `run`. It
  sleeps in chunks of at most 300 s and checks the market before each chunk.

The main results:
- The wait computed while the market is closed is the least wait after which
  the market is open. It lands on 09:30:00 of a weekday.
- One symbol's failed or different quote never changes another symbol's
  gauges.
- The sleep loop's chunks form a prefix of a fixed countdown plan. That plan
  adds up exactly to the wait until open.

Where the prose design of the system and the code disagree, the model follows
the code:
- A quote field is written only when it is truthy, not merely present, so a
  zero volume or price is not written.
- The change percentage also needs a truthy price, not only a non-zero
  previous close.

## Model

| member | source | states |
|---|---|---|
| `MarketClock.SessionBoundaries` | finance_exporter.py:130-142 | on a weekday, 09:30:00 and 16:00:00 are open and 09:29:59 and 16:00:01 are closed (both ends inclusive) |
| `MarketClock.SkipWeekendSkipsOnlyWeekends` | finance_exporter.py:159-161 | the weekend-skip loop stops on the first weekday, passes only weekend days, and advances at most two days |
| `MarketClock.NextOpenIsLater` | finance_exporter.py:152-163 | while the market is closed, the next 09:30 it picks is strictly later than now and at most three days on |
| `MarketClock.SecondsUntilOpen` | finance_exporter.py:144-163 | the wait until open is 0 exactly when the market is open, and otherwise positive |
| `MarketClock.GetSecondsUntilMarketOpen` | finance_exporter.py:144-163 | the day-by-day loop computes exactly the wait `SecondsUntilOpen` specifies |
| `MarketClock.UntilOpenLandsOnSessionStart` | finance_exporter.py:152-163 | from a closed market, now plus the wait is 09:30:00 of a weekday, and the market is open then |
| `MarketClock.ClosedUntilNextOpen` | finance_exporter.py:152-163 | every instant from a closed now up to, but excluding, the computed next open is closed |
| `MarketClock.UntilOpenIsLeastWait` | finance_exporter.py:144-163 | any wait after which the market is open is at least the computed wait, so the computed wait is the least one |
| `MarketClock.FridayEveningOpensMonday` | finance_exporter.py:155-161 | after 16:00 on a Friday, the next open is Monday 09:30, three days on |
| `MarketClock.WednesdayEveningOpensThursday` | finance_exporter.py:153-157 | Wednesday 20:00 waits 13 h 30 min, until Thursday 09:30 |
| `MarketClock.SecondsUntilClose` | finance_exporter.py:165-173 | 0 from 16:00:00 on; before that, now plus the result is 16:00:00 of the same day; never above 57600 |
| `MarketClock.UntilCloseIgnoresWeekday` | finance_exporter.py:165-173 | the wait until close depends only on the time of day, not on the weekday |
| `MarketClock.OpenUntilClose` | finance_exporter.py:165-173 | from an open now, the market stays open for the whole wait until close and is closed one second after it |
| `HttpGating.Breakdown` | finance_exporter.py:68-69 | `s // 3600` hours and `(s % 3600) // 60` minutes: minutes below 60, and hours and minutes cover `s` to within the last minute |
| `HttpGating.BreakdownUnique` | finance_exporter.py:96-102 | only one pair of hours and minutes satisfies those bounds |
| `HttpGating.RunLogBreakdownAgrees` | finance_exporter.py:297-300 | the run loop's `(s // 60) // 60`, `(s // 60) % 60` gives the same hours and minutes as the handlers' formula |
| `HttpGating.HandleGet` | finance_exporter.py:47-119 | 200 exactly for `/healthz`, or `/metrics` while open with a successful encoding; 503 exactly for `/metrics` while closed; 500 exactly for `/metrics` while open when encoding fails; 404 exactly for every other path; the registry payload is served only on `/metrics` while open |
| `HttpGating.ClosedNoticeMatchesNextOpen` | finance_exporter.py:64-75 | a 503 carries the hours and minutes of a positive wait until open, to within one minute, and the market is open once that wait ends |
| `HttpGating.HealthAlwaysOk` | finance_exporter.py:76-107 | `/healthz` answers 200 whatever the market state; its body reports the open state and counts down to the close while open and to the open while closed |
| `MetricRegistry.WriteQuoteKeepsOtherSymbols` | finance_exporter.py:211-239 | the writes for one symbol's quote leave every other symbol's entries unchanged |
| `MetricRegistry.WriteQuoteSetsNewValues` | finance_exporter.py:211-239 | each gauge of the symbol takes the field's value when that field is truthy, the change percentage only when price and previous close are both truthy, and is unchanged otherwise |
| `MetricRegistry.ApplyQuote` | finance_exporter.py:208-247 | one iteration: a failed fetch changes nothing; a fetched quote sets exactly the gauges whose new values exist; other symbols are untouched |
| `MetricRegistry.CycleIsolatesSymbols` | finance_exporter.py:207-247 | after a whole cycle, a symbol's entries depend only on that symbol's own quotes, so another symbol's failure cannot change them |
| `MetricRegistry.FailedSymbolKeepsEntries` | finance_exporter.py:209-244 | a symbol whose every fetch in the cycle failed keeps all its previous values |
| `MetricRegistry.CycleKeepsKeys` | finance_exporter.py:207-250 | a cycle never removes a gauge: stale values persist |
| `MetricRegistry.FalsyFieldNotWritten` | finance_exporter.py:226-228 | a zero or missing volume is not written |
| `MetricRegistry.ChangePercentNeedsPreviousClose` | finance_exporter.py:236-239 | without a truthy previous close the change percentage is not written |
| `MetricRegistry.Registry.constructor` | finance_exporter.py:26-33 | no labelled gauge is set at start and `last_updated` reads 0 |
| `MetricRegistry.Registry.UpdateSymbol` | finance_exporter.py:211-239 | the in-place writes of one iteration produce exactly `ApplyQuote` of the previous gauges |
| `MetricRegistry.Registry.UpdateMetrics` | finance_exporter.py:203-251 | the gauges become the in-order fold of `ApplyQuote` over the polls, and `last_updated` is set to the cycle's time even if every fetch failed |
| `Scheduler.ChunksCoverSleep` | finance_exporter.py:303-306 | every planned chunk lasts 1 to 300 seconds, and the chunks add up to the whole wait |
| `Scheduler.ChunksAreFullButLast` | finance_exporter.py:303-306 | all chunks but the last are 300 seconds, so there are ceil(wait / 300) of them |
| `Scheduler.SleepInChunks` | finance_exporter.py:303-306 | the chunks slept are a prefix of the plan, slept plus remaining equals the initial wait, and the loop stops at the first check that finds the market open or when nothing remains |
| `Scheduler.SleepUntilOpen` | finance_exporter.py:294-306 | the closed branch logs the wait's hours and minutes, sleeps chunks of at most 300 s that never overshoot the wait, and sleeps exactly the wait when the market never reports open |

## Left out

- Time zones and daylight saving: an instant is already an Eastern wall-clock reading with 86400-second days. The `pytz` projection is not modelled. Neither is the way `replace` followed by `timedelta(days=1)` keeps the old UTC offset across a DST change.
- Sub-second precision: instants are whole seconds. With microseconds, `int(total_seconds())` truncates, so the source returns 0 during the last second before 09:30 or before 16:00. The model never produces that case.
- Fresh clock reads: the source reads the clock anew in each call (lines 132, 146, 167, and twice in `/healthz`). The model answers every question of one request or one sleep computation at a single instant.
- Market holidays: the source has none, and the model adds none.
- `get_quote` (the yfinance network call and DataFrame access) is not part of this model. Its result enters as the `Option<Quote>` of each poll.
- Prometheus `Gauge` storage and `generate_latest` are replaced by an abstract map and by the `Encoding` input. The exposition format is not modelled.
- Gauge values are reals. Float rounding in the change percentage is not modelled. NaN, which Python treats as truthy, cannot be represented.
- Exceptions raised between two writes of one symbol would leave that symbol partly updated. They are not modelled, because every field is a number here.
- The HTTP server, its thread, `urlparse` of the request target, headers and byte writes are not modelled. The decision takes the already-parsed path.
- The `/healthz` exception branch (500) is not modelled: nothing in the model can raise there.
- Response bodies are structured values, not the exact text.
- The active phase of `run` (`schedule.every(...)`, `run_pending`, one-second polling) depends on a real-time library and is left out. So is the outer `while True` alternation.
- Environment-variable parsing, logging and the `time.sleep` calls themselves are left out. The `is_market_open` answers between chunks enter as a function from check number to answer.
