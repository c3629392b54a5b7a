/**
 * The gauges `update_metrics` writes. Each labelled gauge is one entry of a
 * map keyed by the metric and the ticker symbol; an entry that was never set
 * is absent. A poll cycle walks the configured symbols in order with the
 * quote fetched for each (None when the fetch failed). A quote field is
 * written only when it is truthy, that is present and non-zero, so a missing
 * or zero field keeps the gauge's previous value. Nothing is ever removed,
 * and the unlabelled `last_updated` gauge is set once the cycle ends.
 */
module MetricRegistry {
  import opened Wrappers

  type Symbol = string

  datatype Metric = Price | Volume | MarketCap | Open | High | Low | ChangePercent

  datatype Key = Key(metric: Metric, symbol: Symbol)

  /** What the provider returned for one symbol; any field may be missing. */
  datatype Quote = Quote(
    currentPrice: Option<real>,
    open: Option<real>,
    high: Option<real>,
    low: Option<real>,
    volume: Option<real>,
    marketCap: Option<real>,
    previousClose: Option<real>)

  /** One symbol of the cycle and the result of fetching its quote. */
  datatype Poll = Poll(symbol: Symbol, quote: Option<Quote>)

  type Gauges = map<Key, real>

  /** Python truthiness of a numeric field: present and not zero. */
  predicate Truthy(v: Option<real>) {
    v.Some? && v.value != 0.0
  }

  function ChangePercentOf(price: real, previousClose: real): real
    requires previousClose != 0.0
  {
    (price - previousClose) / previousClose * 100.0
  }

  /**
   * The value a quote gives metric `m`, if that gauge is to be written: a
   * truthy field as it is, and the change percentage only when both the
   * price and the previous close are truthy.
   */
  function NewValue(q: Quote, m: Metric): Option<real> {
    match m
    case Price => if Truthy(q.currentPrice) then q.currentPrice else None
    case Volume => if Truthy(q.volume) then q.volume else None
    case MarketCap => if Truthy(q.marketCap) then q.marketCap else None
    case Open => if Truthy(q.open) then q.open else None
    case High => if Truthy(q.high) then q.high else None
    case Low => if Truthy(q.low) then q.low else None
    case ChangePercent =>
      if Truthy(q.currentPrice) && Truthy(q.previousClose)
      then Some(ChangePercentOf(q.currentPrice.value, q.previousClose.value))
      else None
  }

  /** Entry `k` is the same in `before` and `after`: both absent, or both present with one value. */
  predicate Unchanged(before: Gauges, after: Gauges, k: Key) {
    (k in after <==> k in before) && (k in before ==> after[k] == before[k])
  }

  /** Entry `k` was set to `v` when there is one, and is unchanged otherwise. */
  predicate Takes(before: Gauges, after: Gauges, k: Key, v: Option<real>) {
    if v.Some? then k in after && after[k] == v.value else Unchanged(before, after, k)
  }

  /** Sets `k` to the field's value when the field is truthy. */
  function SetIfTruthy(g: Gauges, k: Key, v: Option<real>): Gauges {
    if Truthy(v) then g[k := v.value] else g
  }

  /**
   * The writes one symbol's iteration makes for a fetched quote, in the order
   * of `update_metrics`: price, open, high, low, volume, market cap, then the
   * change percentage.
   */
  function WriteQuote(g: Gauges, symbol: Symbol, q: Quote): Gauges {
    var withPrice := SetIfTruthy(g, Key(Price, symbol), q.currentPrice);
    var withOpen := SetIfTruthy(withPrice, Key(Open, symbol), q.open);
    var withHigh := SetIfTruthy(withOpen, Key(High, symbol), q.high);
    var withLow := SetIfTruthy(withHigh, Key(Low, symbol), q.low);
    var withVolume := SetIfTruthy(withLow, Key(Volume, symbol), q.volume);
    var withCap := SetIfTruthy(withVolume, Key(MarketCap, symbol), q.marketCap);
    if Truthy(q.currentPrice) && Truthy(q.previousClose) then
      withCap[Key(ChangePercent, symbol) := ChangePercentOf(q.currentPrice.value, q.previousClose.value)]
    else
      withCap
  }

  /** The writes for a quote touch only the quote's own symbol. */
  lemma WriteQuoteKeepsOtherSymbols(g: Gauges, symbol: Symbol, q: Quote, k: Key)
    requires k.symbol != symbol
    ensures Unchanged(g, WriteQuote(g, symbol, q), k)
  {
  }

  /** The writes for a quote set each of the symbol's gauges to its new value, if any. */
  lemma WriteQuoteSetsNewValues(g: Gauges, symbol: Symbol, q: Quote, m: Metric)
    ensures Takes(g, WriteQuote(g, symbol, q), Key(m, symbol), NewValue(q, m))
  {
  }

  /** One symbol's iteration: nothing for a failed fetch, the quote's writes otherwise. */
  function ApplyQuote(g: Gauges, symbol: Symbol, quote: Option<Quote>): (r: Gauges)
    ensures quote.None? ==> r == g
    ensures quote.Some? ==> forall m :: Takes(g, r, Key(m, symbol), NewValue(quote.value, m))
    ensures forall k: Key :: k.symbol != symbol ==> Unchanged(g, r, k)
  {
    match quote
    case None => g
    case Some(q) =>
      var r := WriteQuote(g, symbol, q);
      assert forall m :: Takes(g, r, Key(m, symbol), NewValue(q, m)) by {
        forall m { WriteQuoteSetsNewValues(g, symbol, q, m); }
      }
      assert forall k: Key :: k.symbol != symbol ==> Unchanged(g, r, k) by {
        forall k: Key | k.symbol != symbol { WriteQuoteKeepsOtherSymbols(g, symbol, q, k); }
      }
      r
  }

  /** The gauges after the iterations over `polls`, in order. */
  function ApplyAll(g: Gauges, polls: seq<Poll>): Gauges
    decreases |polls|
  {
    if |polls| == 0 then g
    else
      var last := polls[|polls| - 1];
      ApplyQuote(ApplyAll(g, polls[..|polls| - 1]), last.symbol, last.quote)
  }

  /**
   * Per-symbol isolation: what a cycle leaves in a symbol's entries depends
   * only on that symbol's own polls, so another symbol's failed fetch (or any
   * other quote it got) cannot change them.
   */
  lemma {:induction false} CycleIsolatesSymbols(g: Gauges, polls: seq<Poll>, other: seq<Poll>, symbol: Symbol, m: Metric)
    requires |other| == |polls|
    requires forall i :: 0 <= i < |polls| ==> polls[i].symbol == other[i].symbol
    requires forall i :: 0 <= i < |polls| && polls[i].symbol == symbol ==> polls[i].quote == other[i].quote
    ensures Unchanged(ApplyAll(g, polls), ApplyAll(g, other), Key(m, symbol))
    decreases |polls|
  {
    if |polls| > 0 {
      var n := |polls| - 1;
      CycleIsolatesSymbols(g, polls[..n], other[..n], symbol, m);
      var before, otherBefore := ApplyAll(g, polls[..n]), ApplyAll(g, other[..n]);
      var k := Key(m, symbol);
      if polls[n].symbol == symbol {
        var q := polls[n].quote;
        assert other[n].quote == q;
        if q.Some? {
          assert Takes(before, ApplyQuote(before, symbol, q), k, NewValue(q.value, m));
          assert Takes(otherBefore, ApplyQuote(otherBefore, symbol, q), k, NewValue(q.value, m));
        }
      } else {
        assert Unchanged(before, ApplyAll(g, polls), k);
        assert Unchanged(otherBefore, ApplyAll(g, other), k);
      }
    }
  }

  /** A symbol whose every fetch in the cycle failed keeps all of its entries as they were. */
  lemma {:induction false} FailedSymbolKeepsEntries(g: Gauges, polls: seq<Poll>, symbol: Symbol, m: Metric)
    requires forall i :: 0 <= i < |polls| && polls[i].symbol == symbol ==> polls[i].quote.None?
    ensures Unchanged(g, ApplyAll(g, polls), Key(m, symbol))
    decreases |polls|
  {
    if |polls| > 0 {
      var n := |polls| - 1;
      FailedSymbolKeepsEntries(g, polls[..n], symbol, m);
      var before := ApplyAll(g, polls[..n]);
      assert Unchanged(before, ApplyAll(g, polls), Key(m, symbol));
    }
  }

  /** A cycle never removes an entry: a gauge once set stays set. */
  lemma {:induction false} CycleKeepsKeys(g: Gauges, polls: seq<Poll>)
    ensures g.Keys <= ApplyAll(g, polls).Keys
    decreases |polls|
  {
    if |polls| > 0 {
      var n := |polls| - 1;
      CycleKeepsKeys(g, polls[..n]);
      var before := ApplyAll(g, polls[..n]);
      var last := polls[n];
      forall k | k in before ensures k in ApplyAll(g, polls) {
        if k.symbol == last.symbol && last.quote.Some? {
          assert Takes(before, ApplyAll(g, polls), k, NewValue(last.quote.value, k.metric));
        }
      }
    }
  }

  /** A zero or missing field is not written: the gauge keeps its previous value. */
  lemma FalsyFieldNotWritten(g: Gauges, symbol: Symbol, q: Quote)
    requires !Truthy(q.volume)
    ensures Unchanged(g, ApplyQuote(g, symbol, Some(q)), Key(Volume, symbol))
  {
  }

  /** Without a truthy previous close the change percentage is not written, whatever the price. */
  lemma ChangePercentNeedsPreviousClose(g: Gauges, symbol: Symbol, q: Quote)
    requires !Truthy(q.previousClose)
    ensures Unchanged(g, ApplyQuote(g, symbol, Some(q)), Key(ChangePercent, symbol))
  {
  }

  /** The metric registry of the process, shared by the poller (its only writer) and the HTTP handler. */
  class Registry {
    var gauges: Gauges
    /** Unix time of the last finished cycle; an unlabelled gauge, so it reads 0 before the first cycle. */
    var lastUpdated: real

    constructor ()
      ensures gauges == map[] && lastUpdated == 0.0
    {
      gauges := map[];
      lastUpdated := 0.0;
    }

    /** The body of one iteration of `update_metrics` for a fetched quote. */
    method UpdateSymbol(symbol: Symbol, q: Quote)
      modifies this
      ensures gauges == ApplyQuote(old(gauges), symbol, Some(q))
      ensures lastUpdated == old(lastUpdated)
    {
      var price := q.currentPrice;
      if Truthy(price) {
        gauges := gauges[Key(Price, symbol) := price.value];
      }
      if Truthy(q.open) {
        gauges := gauges[Key(Open, symbol) := q.open.value];
      }
      if Truthy(q.high) {
        gauges := gauges[Key(High, symbol) := q.high.value];
      }
      if Truthy(q.low) {
        gauges := gauges[Key(Low, symbol) := q.low.value];
      }
      if Truthy(q.volume) {
        gauges := gauges[Key(Volume, symbol) := q.volume.value];
      }
      if Truthy(q.marketCap) {
        gauges := gauges[Key(MarketCap, symbol) := q.marketCap.value];
      }
      var previousClose := q.previousClose;
      if Truthy(price) && Truthy(previousClose) {
        gauges := gauges[Key(ChangePercent, symbol) := ChangePercentOf(price.value, previousClose.value)];
      }
    }

    /**
     * `update_metrics`: one iteration per poll, a failed fetch skipped, then
     * `last_updated` set to `now` even when every fetch failed.
     */
    method UpdateMetrics(polls: seq<Poll>, now: real)
      modifies this
      ensures gauges == ApplyAll(old(gauges), polls)
      ensures lastUpdated == now
    {
      var i := 0;
      while i < |polls|
        invariant 0 <= i <= |polls|
        invariant gauges == ApplyAll(old(gauges), polls[..i])
      {
        var poll := polls[i];
        if poll.quote.Some? {
          UpdateSymbol(poll.symbol, poll.quote.value);
        }
        assert polls[..i + 1][..i] == polls[..i];
        i := i + 1;
      }
      assert polls[..i] == polls;
      lastUpdated := now;
    }
  }
}
