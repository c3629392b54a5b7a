/**
 * The closed-market branch of `FinanceExporter.run`: compute the wait until
 * the next session, log it as hours and minutes, then sleep in chunks of at
 * most five minutes, asking the market clock again before every chunk so a
 * session that starts early ends the sleep.
 */
module Scheduler {
  import opened MarketClock
  import opened HttpGating

  /** The longest single sleep, five minutes. */
  const MaxChunk: nat := 300

  function Sum(s: seq<nat>): nat {
    if |s| == 0 then 0 else s[0] + Sum(s[1..])
  }

  lemma {:induction false} SumAppend(s: seq<nat>, x: nat)
    ensures Sum(s + [x]) == Sum(s) + x
  {
    if |s| > 0 {
      SumAppend(s[1..], x);
      assert (s + [x])[1..] == s[1..] + [x];
    }
  }

  function Min(a: nat, b: nat): nat { if a <= b then a else b }

  /** The chunks a sleep of `s` seconds is cut into when the market never opens early. */
  function Chunks(s: nat): seq<nat>
    decreases s
  {
    if s == 0 then [] else [Min(MaxChunk, s)] + Chunks(s - Min(MaxChunk, s))
  }

  /** Every chunk lasts between one second and five minutes, and the chunks add up to the whole sleep. */
  lemma {:induction false} ChunksCoverSleep(s: nat)
    ensures forall i :: 0 <= i < |Chunks(s)| ==> 0 < Chunks(s)[i] <= MaxChunk
    ensures Sum(Chunks(s)) == s
    decreases s
  {
    if s > 0 {
      var c := Min(MaxChunk, s);
      ChunksCoverSleep(s - c);
      assert Chunks(s)[1..] == Chunks(s - c);
    }
  }

  /**
   * All chunks but the last are full five-minute chunks, so there are as many
   * chunks as five-minute periods needed to cover the sleep, rounded up.
   */
  lemma {:induction false} ChunksAreFullButLast(s: nat)
    ensures forall i :: 0 <= i < |Chunks(s)| - 1 ==> Chunks(s)[i] == MaxChunk
    ensures s <= |Chunks(s)| * MaxChunk < s + MaxChunk
    decreases s
  {
    if s > 0 {
      var c := Min(MaxChunk, s);
      ChunksAreFullButLast(s - c);
      assert Chunks(s)[1..] == Chunks(s - c);
      if s <= MaxChunk {
        assert Chunks(s - c) == [];
      }
    }
  }

  /**
   * The chunked sleep of the closed branch, starting from `sleepSeconds`.
   * `reportsOpen(k)` is the answer of the k-th `is_market_open` check of the
   * loop; a check is made only while some sleep remains. The chunks slept are
   * the start of `Chunks(sleepSeconds)`, and the loop stops at the first check
   * that finds the market open, or when no sleep remains.
   */
  method SleepInChunks(sleepSeconds: nat, reportsOpen: nat -> bool) returns (chunks: seq<nat>, remaining: nat)
    ensures chunks + Chunks(remaining) == Chunks(sleepSeconds)
    ensures Sum(chunks) + remaining == sleepSeconds
    ensures forall i :: 0 <= i < |chunks| ==> !reportsOpen(i)
    ensures remaining == 0 || reportsOpen(|chunks|)
  {
    chunks := [];
    remaining := sleepSeconds;
    while remaining > 0 && !reportsOpen(|chunks|)
      invariant chunks + Chunks(remaining) == Chunks(sleepSeconds)
      invariant Sum(chunks) + remaining == sleepSeconds
      invariant forall i :: 0 <= i < |chunks| ==> !reportsOpen(i)
      decreases remaining
    {
      var chunk := Min(MaxChunk, remaining);
      SumAppend(chunks, chunk);
      assert chunks + Chunks(remaining) == (chunks + [chunk]) + Chunks(remaining - chunk);
      chunks := chunks + [chunk];
      remaining := remaining - chunk;
    }
  }

  /**
   * The closed branch of `run` at `now`: the wait until the next session,
   * logged as hours and minutes, then slept in chunks. Every chunk is at
   * most five minutes, the sleep never overshoots the wait, and when the
   * market never reports open it sleeps exactly the wait.
   */
  method SleepUntilOpen(now: Instant, reportsOpen: nat -> bool) returns (logged: HoursMinutes, chunks: seq<nat>, remaining: nat)
    ensures logged == Breakdown(SecondsUntilOpen(now))
    ensures Sum(chunks) + remaining == SecondsUntilOpen(now)
    ensures forall i :: 0 <= i < |chunks| ==> 0 < chunks[i] <= MaxChunk
    ensures forall i :: 0 <= i < |chunks| ==> !reportsOpen(i)
    ensures remaining == 0 || reportsOpen(|chunks|)
  {
    var sleepSeconds := GetSecondsUntilMarketOpen(now);
    var sleepMinutes := sleepSeconds / 60;
    var sleepHours := sleepMinutes / 60;
    logged := HoursMinutes(sleepHours, sleepMinutes % 60);
    RunLogBreakdownAgrees(sleepSeconds);
    chunks, remaining := SleepInChunks(sleepSeconds, reportsOpen);
    ChunksCoverSleep(sleepSeconds);
    assert forall i :: 0 <= i < |chunks| ==> chunks[i] == Chunks(sleepSeconds)[i];
  }
}
