/**
 * The trading calendar of the exporter: a Monday-to-Friday session from 09:30:00
 * to 16:00:00 Eastern time, both ends included, and no holidays.
 *
 * An instant is an Eastern wall-clock reading given as a day number and a second
 * of that day. Day 0 is a Monday, so the weekday is `day % 7` with Monday = 0,
 * as Python's `datetime.weekday()` numbers it. Every day has 86400 seconds.
 */
module MarketClock {

  const SecondsPerDay: nat := 86400
  const SecondsPerHour: nat := 3600
  /** 09:30:00 */
  const OpenSecond: nat := 34200
  /** 16:00:00 */
  const CloseSecond: nat := 57600
  const CloseHour: nat := 16
  /** Weekdays 5 (Saturday) and 6 (Sunday) have no session. */
  const Saturday: nat := 5

  type SecondOfDay = s: nat | s < 86400

  datatype Instant = Instant(day: nat, second: SecondOfDay)

  function Weekday(day: nat): nat { day % 7 }

  predicate IsWeekend(day: nat) { Weekday(day) >= Saturday }

  /** Seconds since the start of day 0: the order in which instants follow each other. */
  function Timestamp(t: Instant): nat { t.day * SecondsPerDay + t.second }

  function FromTimestamp(n: nat): Instant {
    Instant(n / SecondsPerDay, n % SecondsPerDay)
  }

  lemma TimestampRoundTrip(t: Instant)
    ensures FromTimestamp(Timestamp(t)) == t
  {
  }

  lemma FromTimestampRoundTrip(n: nat)
    ensures Timestamp(FromTimestamp(n)) == n
  {
  }

  /** `is_market_open`: closed all weekend; on a weekday open from 09:30:00 to 16:00:00 inclusive. */
  predicate IsMarketOpen(now: Instant) {
    if IsWeekend(now.day) then false
    else OpenSecond <= now.second <= CloseSecond
  }

  /** Both ends of a weekday session are open; the seconds just outside them are not. */
  lemma SessionBoundaries(day: nat)
    requires !IsWeekend(day)
    ensures IsMarketOpen(Instant(day, OpenSecond)) && IsMarketOpen(Instant(day, CloseSecond))
    ensures !IsMarketOpen(Instant(day, OpenSecond - 1)) && !IsMarketOpen(Instant(day, CloseSecond + 1))
  {
  }

  /** The weekend skip: the first weekday at or after `day`. */
  function SkipWeekend(day: nat): (d: nat)
    decreases if IsWeekend(day) then 7 - Weekday(day) else 0
  {
    if IsWeekend(day) then SkipWeekend(day + 1) else day
  }

  /** The first day at or after `day` that is not a weekend day, and every day skipped is a weekend day. */
  lemma {:induction false} SkipWeekendSkipsOnlyWeekends(day: nat)
    ensures day <= SkipWeekend(day) <= day + 2
    ensures !IsWeekend(SkipWeekend(day))
    ensures forall d :: day <= d < SkipWeekend(day) ==> IsWeekend(d)
    decreases if IsWeekend(day) then 7 - Weekday(day) else 0
  {
    if IsWeekend(day) {
      SkipWeekendSkipsOnlyWeekends(day + 1);
      if Weekday(day) == 5 {
        assert Weekday(day + 1) == 6;
        assert Weekday(day + 2) == 0;
      } else {
        assert Weekday(day + 1) == 0;
      }
    }
  }

  /**
   * The day of the next session when the market is closed: today when it is
   * a weekday before 09:30, otherwise from tomorrow on, skipping the weekend.
   */
  function NextOpenDay(now: Instant): nat {
    var first := if now.second / SecondsPerHour >= CloseHour || IsWeekend(now.day) then now.day + 1 else now.day;
    SkipWeekend(first)
  }

  /** The instant the next session starts, for a closed market. */
  function NextOpen(now: Instant): Instant {
    Instant(NextOpenDay(now), OpenSecond)
  }

  /** While the market is closed, the next session starts strictly later, and at most three days on. */
  lemma NextOpenIsLater(now: Instant)
    requires !IsMarketOpen(now)
    ensures Timestamp(now) < Timestamp(NextOpen(now))
    ensures now.day <= NextOpenDay(now) <= now.day + 3
  {
    var first := if now.second / SecondsPerHour >= CloseHour || IsWeekend(now.day) then now.day + 1 else now.day;
    SkipWeekendSkipsOnlyWeekends(first);
  }

  /** `get_seconds_until_market_open`: zero exactly when the market is open. */
  function SecondsUntilOpen(now: Instant): (r: nat)
    ensures r == 0 <==> IsMarketOpen(now)
  {
    if IsMarketOpen(now) then 0
    else
      NextOpenIsLater(now);
      Timestamp(NextOpen(now)) - Timestamp(now)
  }

  /**
   * The loop of `get_seconds_until_market_open`: start from today's or
   * tomorrow's 09:30 and move forward one day at a time while that day is a
   * weekend day.
   */
  method GetSecondsUntilMarketOpen(now: Instant) returns (s: nat)
    ensures s == SecondsUntilOpen(now)
  {
    if IsMarketOpen(now) {
      return 0;
    }
    var nextOpenDay := now.day;
    if now.second / SecondsPerHour >= CloseHour || IsWeekend(now.day) {
      nextOpenDay := nextOpenDay + 1;
    }
    ghost var first := nextOpenDay;
    while IsWeekend(nextOpenDay)
      invariant first <= nextOpenDay
      invariant SkipWeekend(nextOpenDay) == SkipWeekend(first)
      decreases if IsWeekend(nextOpenDay) then 7 - Weekday(nextOpenDay) else 0
    {
      nextOpenDay := nextOpenDay + 1;
    }
    NextOpenIsLater(now);
    s := Timestamp(Instant(nextOpenDay, OpenSecond)) - Timestamp(now);
  }

  /** From a closed market, waiting `SecondsUntilOpen` lands on 09:30:00 of a weekday, where the market is open. */
  lemma UntilOpenLandsOnSessionStart(now: Instant)
    requires !IsMarketOpen(now)
    ensures FromTimestamp(Timestamp(now) + SecondsUntilOpen(now)) == Instant(NextOpenDay(now), OpenSecond)
    ensures !IsWeekend(NextOpenDay(now))
    ensures IsMarketOpen(FromTimestamp(Timestamp(now) + SecondsUntilOpen(now)))
  {
    var first := if now.second / SecondsPerHour >= CloseHour || IsWeekend(now.day) then now.day + 1 else now.day;
    SkipWeekendSkipsOnlyWeekends(first);
    NextOpenIsLater(now);
    TimestampRoundTrip(NextOpen(now));
  }

  /** No instant from a closed `now` up to, but excluding, the next session start is open. */
  lemma ClosedUntilNextOpen(now: Instant, t: nat)
    requires !IsMarketOpen(now)
    requires Timestamp(now) <= t < Timestamp(now) + SecondsUntilOpen(now)
    ensures !IsMarketOpen(FromTimestamp(t))
  {
    var first := if now.second / SecondsPerHour >= CloseHour || IsWeekend(now.day) then now.day + 1 else now.day;
    SkipWeekendSkipsOnlyWeekends(first);
    NextOpenIsLater(now);
    var u := FromTimestamp(t);
    FromTimestampRoundTrip(t);
    var target := NextOpenDay(now);
    assert Timestamp(now) + SecondsUntilOpen(now) == target * SecondsPerDay + OpenSecond;
    assert now.day <= u.day <= target;
    if u.day == target {
      assert u.second < OpenSecond;
    } else if u.day == now.day {
      assert u.second >= now.second;
      if !IsWeekend(now.day) {
        assert first != now.day;
        assert now.second > CloseSecond;
      }
    } else {
      assert first <= u.day < target;
    }
  }

  /**
   * `SecondsUntilOpen` of a closed market is the least wait after which the
   * market is open.
   */
  lemma UntilOpenIsLeastWait(now: Instant, wait: nat)
    requires IsMarketOpen(FromTimestamp(Timestamp(now) + wait))
    ensures SecondsUntilOpen(now) <= wait
  {
    if !IsMarketOpen(now) && wait < SecondsUntilOpen(now) {
      ClosedUntilNextOpen(now, Timestamp(now) + wait);
    }
  }

  /** After the Friday session has closed, the next open is Monday 09:30:00, three days on. */
  lemma FridayEveningOpensMonday(week: nat, second: SecondOfDay)
    requires second > CloseSecond
    ensures NextOpenDay(Instant(7 * week + 4, second)) == 7 * week + 7
    ensures SecondsUntilOpen(Instant(7 * week + 4, second)) == 3 * SecondsPerDay + OpenSecond - second
  {
    var now := Instant(7 * week + 4, second);
    assert Weekday(7 * week + 4) == 4;
    assert Weekday(7 * week + 5) == 5;
    assert Weekday(7 * week + 6) == 6;
    assert Weekday(7 * week + 7) == 0;
    assert SkipWeekend(7 * week + 7) == 7 * week + 7;
    assert SkipWeekend(7 * week + 5) == SkipWeekend(7 * week + 6) == 7 * week + 7;
  }

  /** Wednesday 20:00 opens on Thursday 09:30, 13.5 hours later. */
  lemma WednesdayEveningOpensThursday(week: nat)
    ensures SecondsUntilOpen(Instant(7 * week + 2, 20 * SecondsPerHour)) == 13 * SecondsPerHour + 1800
  {
  }

  /**
   * `get_seconds_until_market_close`: zero from 16:00:00 on; before that the
   * wait that reaches 16:00:00 of the same day. The weekday is not consulted.
   */
  function SecondsUntilClose(now: Instant): (r: nat)
    ensures now.second >= CloseSecond ==> r == 0
    ensures now.second < CloseSecond ==> Timestamp(now) + r == Timestamp(Instant(now.day, CloseSecond))
    ensures r <= CloseSecond
  {
    if now.second >= CloseSecond then 0 else CloseSecond - now.second
  }

  /** The same time of day gives the same answer on every day, weekend or not. */
  lemma UntilCloseIgnoresWeekday(d1: nat, d2: nat, second: SecondOfDay)
    ensures SecondsUntilClose(Instant(d1, second)) == SecondsUntilClose(Instant(d2, second))
  {
  }

  /**
   * While the market is open it stays open for the whole `SecondsUntilClose`
   * wait, and is closed one second after it.
   */
  lemma OpenUntilClose(now: Instant, t: nat)
    requires IsMarketOpen(now)
    requires Timestamp(now) <= t <= Timestamp(now) + SecondsUntilClose(now)
    ensures IsMarketOpen(FromTimestamp(t))
    ensures !IsMarketOpen(FromTimestamp(Timestamp(now) + SecondsUntilClose(now) + 1))
  {
  }
}
